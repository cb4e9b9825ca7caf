/** The recommendation entry point: score every posting of the catalog in
    catalog order, then rank the scored postings. */
module Recommender {
  import opened Sequences
  import opened Scoring
  import opened Ranking

  /** Every posting of the catalog with its score, in catalog order. */
  function ScoreCatalog(prefs: Preferences, catalog: seq<Posting>): (r: seq<Recommendation>)
    ensures |r| == |catalog|
    ensures forall i :: 0 <= i < |catalog| ==> r[i] == Scored(prefs, catalog[i])
  {
    seq(|catalog|, i requires 0 <= i < |catalog| => Scored(prefs, catalog[i]))
  }

  /** The recommendations for `prefs` out of `catalog`: at most five, never
      more than the postings that scored above zero, and five whenever at
      least five did. */
  function Recommend(prefs: Preferences, catalog: seq<Posting>): (r: seq<Recommendation>)
    ensures |r| <= MaxRecommendations
    ensures |r| <= |Eligible(ScoreCatalog(prefs, catalog))|
    ensures |Eligible(ScoreCatalog(prefs, catalog))| >= MaxRecommendations ==>
      |r| == MaxRecommendations
  {
    Rank(ScoreCatalog(prefs, catalog))
  }

  /** Scores the catalog posting by posting, then ranks the result. */
  method GetInternshipRecommendations(prefs: Preferences, catalog: seq<Posting>)
    returns (r: seq<Recommendation>)
    ensures r == Recommend(prefs, catalog)
    ensures |r| <= MaxRecommendations
    ensures SortedByScore(r)
    ensures forall e :: e in r ==> e.score > 0 && e.posting in catalog && e == Scored(prefs, e.posting)
  {
    var scored: seq<Recommendation> := [];
    for i := 0 to |catalog|
      invariant |scored| == i
      invariant forall j :: 0 <= j < i ==> scored[j] == Scored(prefs, catalog[j])
    {
      var entry := ScorePosting(prefs, catalog[i]);
      scored := scored + [entry];
    }
    assert scored == ScoreCatalog(prefs, catalog);
    r := Rank(scored);
    RankSorted(scored);
    RecommendFaithful(prefs, catalog);
  }

  /** Each returned entry is a catalog posting, unchanged, carrying the
      positive score and the matching skills the scoring rule gives it. */
  lemma RecommendFaithful(prefs: Preferences, catalog: seq<Posting>)
    ensures forall e :: e in Recommend(prefs, catalog) ==>
      e.posting in catalog && e == Scored(prefs, e.posting) && e.score > 0
  {
    var scored := ScoreCatalog(prefs, catalog);
    RankSound(scored);
    forall e | e in Recommend(prefs, catalog)
      ensures e.posting in catalog && e == Scored(prefs, e.posting)
    {
      var i :| 0 <= i < |scored| && scored[i] == e;
      assert catalog[i] == e.posting;
    }
  }

  /** The recommendations are ordered from highest to lowest score, and
      postings of equal score keep catalog order: for every score, the
      recommended postings of that score are the first postings of that
      score in the catalog. */
  lemma RecommendOrder(prefs: Preferences, catalog: seq<Posting>, k: int)
    ensures SortedByScore(Recommend(prefs, catalog))
    ensures WithScore(Recommend(prefs, catalog), k) <= WithScore(ScoreCatalog(prefs, catalog), k)
  {
    RankSorted(ScoreCatalog(prefs, catalog));
    RankStable(ScoreCatalog(prefs, catalog), k);
  }

  /** There are no recommendations exactly when every posting scores zero. */
  lemma RecommendEmptyIff(prefs: Preferences, catalog: seq<Posting>)
    ensures Recommend(prefs, catalog) == [] <==>
      forall i :: 0 <= i < |catalog| ==> Score(prefs, catalog[i]) == 0
  {
    var scored := ScoreCatalog(prefs, catalog);
    if Eligible(scored) == [] {
      forall i | 0 <= i < |catalog| ensures Score(prefs, catalog[i]) == 0 {
        FilterMembership(IsEligible, scored, scored[i]);
      }
    } else {
      var e := Eligible(scored)[0];
      FilterMembership(IsEligible, scored, e);
      var i :| 0 <= i < |scored| && scored[i] == e;
      assert Score(prefs, catalog[i]) > 0;
    }
  }

  /** A requester who matches no posting on any criterion gets nothing. */
  lemma NoMatchNoRecommendations(prefs: Preferences, catalog: seq<Posting>)
    requires forall p, s :: p in catalog && s in p.requiredSkills ==> s !in UserSkills(prefs)
    requires forall p :: p in catalog ==> ToLower(p.location) !in prefs.preferredCities
    requires Wildcard !in prefs.preferredCities && prefs.workMode != Wildcard
    requires forall p :: p in catalog ==>
      p.workMode != prefs.workMode && p.sector !in prefs.sectorInterest
      && p.educationLevel != prefs.educationLevel
    ensures Recommend(prefs, catalog) == []
  {
    forall i | 0 <= i < |catalog| ensures Score(prefs, catalog[i]) == 0 {
      ScorePositiveIff(prefs, catalog[i]);
    }
    RecommendEmptyIff(prefs, catalog);
  }
}
