/** The five postings the recommender is hard-wired with, and a worked
    example of scoring and ranking them. */
module Catalog {
  import opened Sequences
  import opened Scoring
  import opened Ranking
  import opened Recommender

  const SampleInternships: seq<Posting> := [
    Posting("1", "Software Development Intern", "TechCorp India", "Bangalore",
            "3 Months", "\U{20B9}15,000/month",
            "Work on cutting-edge web applications using React and Node.js",
            ["programming", "web-development", "database"],
            "technology", "hybrid", "bachelor"),
    Posting("2", "Data Science Intern", "DataAnalytics Pvt Ltd", "Mumbai",
            "6 Months", "\U{20B9}20,000/month",
            "Analyze large datasets and build machine learning models",
            ["data-analysis", "machine-learning", "programming"],
            "technology", "remote", "bachelor"),
    Posting("3", "Marketing Intern", "Digital Marketing Solutions", "Delhi",
            "2 Months", "\U{20B9}10,000/month",
            "Create digital marketing campaigns and social media content",
            ["communication", "creativity", "analytical-thinking"],
            "media", "onsite", "bachelor"),
    Posting("4", "Finance Intern", "Investment Bank Ltd", "Mumbai",
            "3 Months", "\U{20B9}25,000/month",
            "Assist in financial analysis and investment research",
            ["analytical-thinking", "problem-solving", "communication"],
            "finance", "onsite", "bachelor"),
    Posting("5", "Cybersecurity Intern", "SecureTech Solutions", "Hyderabad",
            "4 Months", "\U{20B9}18,000/month",
            "Learn about network security and threat analysis",
            ["cybersecurity", "networking", "problem-solving"],
            "technology", "hybrid", "bachelor")
  ]

  /** A bachelor-level programmer in Bangalore who wants hybrid work in
      technology. */
  const ExamplePreferences := Preferences(
    ["programming"], [], ["bangalore"], "hybrid", ["technology"], "bachelor")

  function Ids(rs: seq<Recommendation>): (r: seq<string>)
    ensures |r| == |rs|
    ensures forall i :: 0 <= i < |rs| ==> r[i] == rs[i].posting.id
  {
    seq(|rs|, i requires 0 <= i < |rs| => rs[i].posting.id)
  }

  /** Filtering a three-element list, written out. */
  lemma FilterThree<T>(keep: T -> bool, a: T, b: T, c: T)
    ensures Filter(keep, [a, b, c]) ==
      (if keep(a) then [a] else []) + (if keep(b) then [b] else []) + (if keep(c) then [c] else [])
  {
    var ka, kb := if keep(a) then [a] else [], if keep(b) then [b] else [];
    assert [a][..0] == [];
    assert Filter(keep, [a]) == ka;
    assert [a, b][..1] == [a];
    assert Filter(keep, [a, b]) == ka + kb;
    assert [a, b, c][..2] == [a, b];
  }

  /** Postings 1 and 2 match the example's one skill. */
  lemma ExampleMatchingSkills()
    ensures MatchingSkills(SampleInternships[0].requiredSkills, UserSkills(ExamplePreferences)) == ["programming"]
    ensures MatchingSkills(SampleInternships[1].requiredSkills, UserSkills(ExamplePreferences)) == ["programming"]
  {
    var keep := InSkills(UserSkills(ExamplePreferences));
    FilterThree(keep, "programming", "web-development", "database");
    FilterThree(keep, "data-analysis", "machine-learning", "programming");
  }

  /** Postings 3, 4 and 5 match none of the example's skills. */
  lemma ExampleUnmatchedSkills()
    ensures MatchingSkills(SampleInternships[2].requiredSkills, UserSkills(ExamplePreferences)) == []
    ensures MatchingSkills(SampleInternships[3].requiredSkills, UserSkills(ExamplePreferences)) == []
    ensures MatchingSkills(SampleInternships[4].requiredSkills, UserSkills(ExamplePreferences)) == []
  {
    for i := 2 to 5
      invariant forall j :: 2 <= j < i ==>
        MatchingSkills(SampleInternships[j].requiredSkills, UserSkills(ExamplePreferences)) == []
    {
      FilterNone(InSkills(UserSkills(ExamplePreferences)), SampleInternships[i].requiredSkills);
    }
  }

  /** Only Bangalore, lower-cased, is among the example's cities. */
  lemma ExampleCities()
    ensures CityMatches(ExamplePreferences, SampleInternships[0])
    ensures forall i :: 1 <= i < 5 ==> !CityMatches(ExamplePreferences, SampleInternships[i])
  {
    assert ToLower("Bangalore") == "bangalore";
    assert |ToLower("Mumbai")| != |"bangalore"|;
    assert |ToLower("Delhi")| != |"bangalore"|;
    assert ToLower("Hyderabad")[0] == 'h';
  }

  /** The example scores 25, 17, 2, 2 and 10 for postings 1 to 5. */
  lemma ExampleScores()
    ensures Score(ExamplePreferences, SampleInternships[0]) == 25
    ensures Score(ExamplePreferences, SampleInternships[1]) == 17
    ensures Score(ExamplePreferences, SampleInternships[2]) == 2
    ensures Score(ExamplePreferences, SampleInternships[3]) == 2
    ensures Score(ExamplePreferences, SampleInternships[4]) == 10
  {
    ExampleMatchingSkills();
    ExampleUnmatchedSkills();
    ExampleCities();
  }

  /** So the example is answered with postings 1, 2, 5, 3, 4, in that order:
      the two postings scoring 2 keep their catalog order. */
  lemma ExampleRanking()
    ensures Ids(Recommend(ExamplePreferences, SampleInternships)) == ["1", "2", "5", "3", "4"]
  {
    ExampleScores();
    RecommendFiveScores(ExamplePreferences, SampleInternships);
  }

  /** Any five postings scored 25, 17, 2, 2 and 10 are recommended in the
      order 1, 2, 5, 3, 4. */
  lemma RecommendFiveScores(prefs: Preferences, catalog: seq<Posting>)
    requires |catalog| == 5
    requires Score(prefs, catalog[0]) == 25 && Score(prefs, catalog[1]) == 17
    requires Score(prefs, catalog[2]) == 2 && Score(prefs, catalog[3]) == 2
    requires Score(prefs, catalog[4]) == 10
    ensures Ids(Recommend(prefs, catalog)) ==
      [catalog[0].id, catalog[1].id, catalog[4].id, catalog[2].id, catalog[3].id]
  {
    var sc := ScoreCatalog(prefs, catalog);
    forall i | 0 <= i < 5 ensures sc[i].score == Score(prefs, catalog[i]) && sc[i].posting == catalog[i] {
      assert sc[i] == Scored(prefs, catalog[i]);
    }
    RankExampleScores(sc);
    IdsFive(sc[0], sc[1], sc[4], sc[2], sc[3]);
  }

  /** The ids of five entries, in order. */
  lemma IdsFive(a: Recommendation, b: Recommendation, c: Recommendation,
                d: Recommendation, e: Recommendation)
    ensures Ids([a, b, c, d, e]) == [a.posting.id, b.posting.id, c.posting.id, d.posting.id, e.posting.id]
  {
  }

  /** Filtering a five-element list, written out. */
  lemma FilterFive<T>(keep: T -> bool, a: T, b: T, c: T, d: T, e: T)
    ensures Filter(keep, [a, b, c, d, e]) ==
      (if keep(a) then [a] else []) + (if keep(b) then [b] else []) + (if keep(c) then [c] else [])
      + (if keep(d) then [d] else []) + (if keep(e) then [e] else [])
  {
    var ka, kb, kc := if keep(a) then [a] else [], if keep(b) then [b] else [], if keep(c) then [c] else [];
    var kd := if keep(d) then [d] else [];
    FilterThree(keep, a, b, c);
    assert [a, b, c, d][..3] == [a, b, c];
    assert Filter(keep, [a, b, c, d]) == ka + kb + kc + kd;
    assert [a, b, c, d, e][..4] == [a, b, c, d];
  }

  /** For every score, the entries 1, 2, 5, 3, 4 of that score are the
      entries 1 to 5 of that score, in the same order. */
  lemma ExampleWithScore(sc: seq<Recommendation>, k: int)
    requires |sc| == 5
    requires sc[0].score == 25 && sc[1].score == 17 && sc[2].score == 2
    requires sc[3].score == 2 && sc[4].score == 10
    ensures WithScore([sc[0], sc[1], sc[4], sc[2], sc[3]], k) == WithScore(sc, k)
  {
    assert sc == [sc[0], sc[1], sc[2], sc[3], sc[4]];
    FilterFive(HasScore(k), sc[0], sc[1], sc[4], sc[2], sc[3]);
    FilterFive(HasScore(k), sc[0], sc[1], sc[2], sc[3], sc[4]);
    if k == 10 {
      assert !HasScore(k)(sc[2]) && !HasScore(k)(sc[3]);
    } else {
      assert !HasScore(k)(sc[4]);
    }
  }

  /** Sorting five entries scored 25, 17, 2, 2 and 10: the arrangement
      1, 2, 5, 3, 4 is sorted and keeps the two entries scoring 2 in order,
      so it is the stable sort. */
  lemma SortExampleScores(sc: seq<Recommendation>)
    requires |sc| == 5
    requires sc[0].score == 25 && sc[1].score == 17 && sc[2].score == 2
    requires sc[3].score == 2 && sc[4].score == 10
    ensures SortByScore(sc) == [sc[0], sc[1], sc[4], sc[2], sc[3]]
  {
    forall k ensures WithScore([sc[0], sc[1], sc[4], sc[2], sc[3]], k) == WithScore(sc, k) {
      ExampleWithScore(sc, k);
    }
    SortIsTheStableSort(sc, [sc[0], sc[1], sc[4], sc[2], sc[3]]);
  }

  /** Ranking five entries scored 25, 17, 2, 2 and 10. */
  lemma RankExampleScores(sc: seq<Recommendation>)
    requires |sc| == 5
    requires sc[0].score == 25 && sc[1].score == 17 && sc[2].score == 2
    requires sc[3].score == 2 && sc[4].score == 10
    ensures Rank(sc) == [sc[0], sc[1], sc[4], sc[2], sc[3]]
  {
    var r := [sc[0], sc[1], sc[4], sc[2], sc[3]];
    FilterAll(IsEligible, sc);
    assert Eligible(sc) == sc;
    SortExampleScores(sc);
    assert Rank(sc) == Take(r, MaxRecommendations);
    assert Take(r, MaxRecommendations) == r;
  }
}
