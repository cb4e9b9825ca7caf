/** The ranking pipeline applied to the scored postings: keep those that
    scored above zero, sort them by score from high to low with a stable
    sort, and keep the first five. */
module Ranking {
  import opened Sequences
  import opened Scoring

  /** How many recommendations are returned at most. */
  const MaxRecommendations := 5

  /** The test of the first stage: the posting scored above zero. */
  const IsEligible: Recommendation -> bool := (e: Recommendation) => e.score > 0

  /** The test that picks the entries of one particular score. */
  function HasScore(k: int): Recommendation -> bool {
    (e: Recommendation) => e.score == k
  }

  /** The entries of `rs` that scored `k`, in their order in `rs`. */
  function WithScore(rs: seq<Recommendation>, k: int): seq<Recommendation> {
    Filter(HasScore(k), rs)
  }

  /** Stage one: the entries that scored above zero, in their order. */
  function Eligible(rs: seq<Recommendation>): (r: seq<Recommendation>)
    ensures forall e :: e in r <==> e in rs && e.score > 0
    ensures |r| <= |rs|
  {
    FilterMembers(IsEligible, rs);
    Filter(IsEligible, rs)
  }

  /** Non-increasing by score. */
  predicate SortedByScore(rs: seq<Recommendation>) {
    forall i, j :: 0 <= i < j < |rs| ==> rs[i].score >= rs[j].score
  }

  /** Places `x` in front of the first entry of `t` whose score is not
      higher than its own, so that it comes before every entry of equal
      score. */
  function Insert(x: Recommendation, t: seq<Recommendation>): (r: seq<Recommendation>)
    ensures |r| == |t| + 1
    ensures r[0] == x || (t != [] && r[0] == t[0])
  {
    if t == [] || x.score >= t[0].score then [x] + t
    else [t[0]] + Insert(x, t[1..])
  }

  /** Stage two: a stable sort by score from high to low, as performed by a
      comparator that returns the second score minus the first. */
  function SortByScore(s: seq<Recommendation>): (r: seq<Recommendation>)
    ensures multiset(r) == multiset(s)
    ensures SortedByScore(r)
    ensures |r| == |s|
  {
    if s == [] then []
    else
      var sortedTail := SortByScore(s[1..]);
      InsertPermutes(s[0], sortedTail);
      InsertSorted(s[0], sortedTail);
      assert s == [s[0]] + s[1..];
      Insert(s[0], sortedTail)
  }

  /** Stage three: the first `n` entries, or all of them if there are fewer. */
  function Take(s: seq<Recommendation>, n: nat): (r: seq<Recommendation>)
    ensures r <= s
    ensures |r| == if |s| <= n then |s| else n
  {
    if |s| <= n then s else s[..n]
  }

  /** The whole pipeline over the scored catalog. At most five entries, and
      never more than the entries that scored above zero; exactly five when
      at least five did, none when none did. */
  function Rank(scored: seq<Recommendation>): (r: seq<Recommendation>)
    ensures |r| <= MaxRecommendations
    ensures |r| <= |Eligible(scored)|
    ensures |Eligible(scored)| >= MaxRecommendations ==> |r| == MaxRecommendations
    ensures r == [] <==> Eligible(scored) == []
  {
    Take(SortByScore(Eligible(scored)), MaxRecommendations)
  }

  /** The entries that passed stage one but fell off the end in stage three. */
  function Dropped(scored: seq<Recommendation>): seq<Recommendation> {
    var sorted := SortByScore(Eligible(scored));
    sorted[|Rank(scored)|..]
  }

  /** Inserting adds `x` and loses nothing. */
  lemma {:induction false} InsertPermutes(x: Recommendation, t: seq<Recommendation>)
    ensures multiset(Insert(x, t)) == multiset(t) + multiset{x}
    decreases |t|
  {
    if t != [] && x.score < t[0].score {
      assert t == [t[0]] + t[1..];
      InsertPermutes(x, t[1..]);
    }
  }

  /** Inserting into a sorted sequence keeps it sorted. */
  lemma {:induction false} InsertSorted(x: Recommendation, t: seq<Recommendation>)
    requires SortedByScore(t)
    ensures SortedByScore(Insert(x, t))
    decreases |t|
  {
    if t != [] && x.score < t[0].score {
      var rest := Insert(x, t[1..]);
      InsertSorted(x, t[1..]);
      assert t[0].score >= rest[0].score;
      var r := [t[0]] + rest;
      forall i, j | 0 <= i < j < |r| ensures r[i].score >= r[j].score {
        if i == 0 {
          assert r[j] == rest[j - 1];
          assert rest[0].score >= rest[j - 1].score;
        } else {
          assert r[i] == rest[i - 1] && r[j] == rest[j - 1];
        }
      }
    }
  }

  /** The entries of score `k` in a one-element sequence. */
  lemma WithScoreSingleton(x: Recommendation, k: int)
    ensures WithScore([x], k) == if x.score == k then [x] else []
  {
    FilterCons(HasScore(k), x, []);
    assert [x] + [] == [x];
  }

  /** Inserting keeps the entries of every score in their order, with `x`
      ahead of the entries of its own score. */
  lemma {:induction false} InsertStable(x: Recommendation, t: seq<Recommendation>, k: int)
    ensures WithScore(Insert(x, t), k) == WithScore([x], k) + WithScore(t, k)
    decreases |t|
  {
    WithScoreSingleton(x, k);
    if t == [] || x.score >= t[0].score {
      FilterCons(HasScore(k), x, t);
    } else {
      var rest := t[1..];
      assert t == [t[0]] + rest;
      InsertStable(x, rest, k);
      FilterCons(HasScore(k), t[0], Insert(x, rest));
      FilterCons(HasScore(k), t[0], rest);
      assert x.score == k ==> t[0].score != k;
    }
  }

  /** The sort is stable: for every score, the entries of that score appear
      in the output in exactly the order they had in the input. */
  lemma {:induction false} SortStable(s: seq<Recommendation>, k: int)
    ensures WithScore(SortByScore(s), k) == WithScore(s, k)
    decreases |s|
  {
    if s != [] {
      SortStable(s[1..], k);
      InsertStable(s[0], SortByScore(s[1..]), k);
      WithScoreSingleton(s[0], k);
      assert s == [s[0]] + s[1..];
      FilterCons(HasScore(k), s[0], s[1..]);
    }
  }

  /** In a sorted sequence, an entry of score `k` bounds the first entry's
      score from below. */
  lemma HeadScoreBound(a: seq<Recommendation>, k: int)
    requires SortedByScore(a)
    requires WithScore(a, k) != []
    ensures a != [] && a[0].score >= k
  {
    var e := WithScore(a, k)[0];
    FilterMembership(HasScore(k), a, e);
    var i :| 0 <= i < |a| && a[i] == e;
    assert a[0].score >= a[i].score;
  }

  /** Two sorted sequences with the same entries per score start alike. */
  lemma SameHead(a: seq<Recommendation>, b: seq<Recommendation>)
    requires SortedByScore(a) && SortedByScore(b)
    requires a != []
    requires WithScore(a, a[0].score) == WithScore(b, a[0].score)
    requires b != [] ==> WithScore(a, b[0].score) == WithScore(b, b[0].score)
    ensures b != [] && a[0].score == b[0].score
  {
    FilterCons(HasScore(a[0].score), a[0], a[1..]);
    assert a == [a[0]] + a[1..];
    HeadScoreBound(b, a[0].score);
    FilterCons(HasScore(b[0].score), b[0], b[1..]);
    assert b == [b[0]] + b[1..];
    HeadScoreBound(a, b[0].score);
  }

  /** Sortedness plus per-score order determine the arrangement completely:
      any stable sort by descending score returns exactly SortByScore. */
  lemma {:induction false} StableSortUnique(a: seq<Recommendation>, b: seq<Recommendation>)
    requires SortedByScore(a) && SortedByScore(b)
    requires forall k :: WithScore(a, k) == WithScore(b, k)
    ensures a == b
    decreases |a|
  {
    if a == [] && b != [] {
      SameHead(b, a);
    } else if a != [] {
      SameHead(a, b);
      var m := a[0].score;
      var a', b' := a[1..], b[1..];
      assert a == [a[0]] + a' && b == [b[0]] + b';
      forall k ensures WithScore(a', k) == WithScore(b', k) {
        FilterCons(HasScore(k), a[0], a');
        FilterCons(HasScore(k), b[0], b');
        assert WithScore(a, k) == WithScore(b, k);
        if k == m {
          assert HasScore(k)(a[0]) && HasScore(k)(b[0]);
          assert WithScore(a, k) == [a[0]] + WithScore(a', k);
          assert WithScore(b, k) == [b[0]] + WithScore(b', k);
          assert WithScore(a', k) == WithScore(a, k)[1..];
          assert WithScore(b', k) == WithScore(b, k)[1..];
        } else {
          assert !HasScore(k)(a[0]) && !HasScore(k)(b[0]);
          assert WithScore(a, k) == WithScore(a', k);
          assert WithScore(b, k) == WithScore(b', k);
        }
      }
      FilterCons(HasScore(m), a[0], a');
      FilterCons(HasScore(m), b[0], b');
      assert a[0] == ([a[0]] + WithScore(a', m))[0];
      StableSortUnique(a', b');
    }
  }

  /** SortByScore is the stable descending sort: any arrangement that is
      sorted by descending score and keeps the order of equal scores equals
      it. */
  lemma SortIsTheStableSort(s: seq<Recommendation>, r: seq<Recommendation>)
    requires SortedByScore(r)
    requires forall k :: WithScore(r, k) == WithScore(s, k)
    ensures r == SortByScore(s)
  {
    forall k ensures WithScore(r, k) == WithScore(SortByScore(s), k) {
      SortStable(s, k);
    }
    StableSortUnique(r, SortByScore(s));
  }

  /** Stage one keeps the positive entries of every score and nothing of
      any other score. */
  lemma EligibleWithScore(rs: seq<Recommendation>, k: int)
    ensures WithScore(Eligible(rs), k) == if k > 0 then WithScore(rs, k) else []
  {
    var e := Eligible(rs);
    forall x ensures multiset(WithScore(e, k))[x] == multiset(if k > 0 then WithScore(rs, k) else [])[x] {
      FilterCount(HasScore(k), e, x);
      FilterCount(IsEligible, rs, x);
      FilterCount(HasScore(k), rs, x);
    }
    if k <= 0 {
      assert multiset(WithScore(e, k)) == multiset{};
    } else {
      FilterFilter(rs, k);
    }
  }

  /** For a positive score, taking the entries of that score after dropping
      the non-positive ones is the same as taking them directly. */
  lemma {:induction false} FilterFilter(rs: seq<Recommendation>, k: int)
    requires k > 0
    ensures WithScore(Eligible(rs), k) == WithScore(rs, k)
    decreases |rs|
  {
    if rs != [] {
      var rs' := rs[..|rs| - 1];
      var last := rs[|rs| - 1];
      FilterFilter(rs', k);
      if last.score > 0 {
        FilterAppend(HasScore(k), Eligible(rs'), [last]);
        assert [last][..0] == [];
      }
    }
  }

  /** Every returned entry scored above zero and is one of the scored
      entries; none is returned more often than it was scored. */
  lemma RankSound(scored: seq<Recommendation>)
    ensures forall e :: e in Rank(scored) ==> e.score > 0 && e in scored
    ensures multiset(Rank(scored)) <= multiset(scored)
  {
    var sorted := SortByScore(Eligible(scored));
    var r := Rank(scored);
    assert sorted == r + Dropped(scored);
    assert multiset(sorted) == multiset(r) + multiset(Dropped(scored));
    FilterSubMultiset(IsEligible, scored);
    forall e | e in r ensures e.score > 0 && e in scored {
      assert e in multiset(sorted);
      assert e in Eligible(scored);
      FilterMembership(IsEligible, scored, e);
    }
  }

  /** The output is ordered from highest to lowest score. */
  lemma RankSorted(scored: seq<Recommendation>)
    ensures SortedByScore(Rank(scored))
  {
  }

  /** Ties keep the input order: for every score, the returned entries of
      that score are the first ones of that score in `scored`, in order. */
  lemma RankStable(scored: seq<Recommendation>, k: int)
    ensures WithScore(Rank(scored), k) <= WithScore(scored, k)
    ensures k <= 0 ==> WithScore(Rank(scored), k) == []
  {
    var sorted := SortByScore(Eligible(scored));
    var r := Rank(scored);
    assert sorted == r + Dropped(scored);
    FilterAppend(HasScore(k), r, Dropped(scored));
    SortStable(Eligible(scored), k);
    EligibleWithScore(scored, k);
  }

  /** The five kept are the best five: every entry that scored above zero is
      either returned or dropped, a dropped entry never outscores a returned
      one, and nothing is dropped unless all five places are taken. */
  lemma RankKeepsBest(scored: seq<Recommendation>)
    ensures multiset(Rank(scored)) + multiset(Dropped(scored)) == multiset(Eligible(scored))
    ensures forall y, z :: y in Rank(scored) && z in Dropped(scored) ==> y.score >= z.score
    ensures |Rank(scored)| < MaxRecommendations ==> Dropped(scored) == []
  {
    var sorted := SortByScore(Eligible(scored));
    var r := Rank(scored);
    var d := Dropped(scored);
    assert sorted == r + d;
    forall y, z | y in r && z in d ensures y.score >= z.score {
      var i :| 0 <= i < |r| && r[i] == y;
      var j :| 0 <= j < |d| && d[j] == z;
      assert sorted[i] == y && sorted[|r| + j] == z;
    }
  }
}
