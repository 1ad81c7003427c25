/**
 * The split optimiser: every pair of cut days `(i, j)` with `0 <= i < j < n_days`
 * (in `itertools.combinations` order) is scored by the worst relative error of
 * the train/validation/test transaction shares against 60/20/20, and the first
 * pair with the lowest score is chosen. Scores are exact reals here.
 */
module SplitSearch {
  import opened Sequences
  import opened Failures

  /** `split_per`: the target shares of train, validation and test. */
  const TrainShare: real := 0.6
  const ValShare: real := 0.2
  const TestShare: real := 0.2

  function Abs(x: real): real
  {
    if x < 0.0 then -x else x
  }

  function Max(a: real, b: real): real
  {
    if a >= b then a else b
  }

  /** `abs(v / total - t) / t`: zero exactly when the part has the target share. */
  function RelativeError(part: nat, total: nat, target: real): (e: real)
    requires total > 0 && target > 0.0
    ensures e >= 0.0
    ensures e == 0.0 <==> part as real == target * total as real
  {
    var share := part as real / total as real;
    assert share * total as real == part as real;
    Abs(share - target) / target
  }

  /** The transaction totals of the day ranges `[0, i)`, `[i, j)` and `[j, n)`; together, all transactions. */
  function SplitTotals(dailyTrans: seq<nat>, i: nat, j: nat): (t: seq<nat>)
    requires i <= j <= |dailyTrans|
    ensures |t| == 3 && t[0] + t[1] + t[2] == Sum(dailyTrans)
  {
    SumConcat(dailyTrans[..i], dailyTrans[i..j]);
    assert dailyTrans[..j] == dailyTrans[..i] + dailyTrans[i..j];
    SumConcat(dailyTrans[..j], dailyTrans[j..]);
    assert dailyTrans == dailyTrans[..j] + dailyTrans[j..];
    [Sum(dailyTrans[..i]), Sum(dailyTrans[i..j]), Sum(dailyTrans[j..])]
  }

  /** The score of the cut `(i, j)`: the largest relative error of the three shares. */
  function Score(dailyTrans: seq<nat>, i: nat, j: nat): (s: real)
    requires i <= j <= |dailyTrans| && Sum(dailyTrans) > 0
    ensures s >= 0.0
    ensures var t, total := SplitTotals(dailyTrans, i, j), Sum(dailyTrans);
      var e0, e1, e2 := RelativeError(t[0], total, TrainShare), RelativeError(t[1], total, ValShare), RelativeError(t[2], total, TestShare);
      && e0 <= s && e1 <= s && e2 <= s
      && (s == e0 || s == e1 || s == e2)
  {
    var t := SplitTotals(dailyTrans, i, j);
    var total := t[0] + t[1] + t[2];
    Max(Max(RelativeError(t[0], total, TrainShare), RelativeError(t[1], total, ValShare)),
        RelativeError(t[2], total, TestShare))
  }

  /** A cut scores zero exactly when the three day ranges hold 60%, 20% and 20% of all transactions. */
  lemma ScoreZeroIff(dailyTrans: seq<nat>, i: nat, j: nat)
    requires i <= j <= |dailyTrans| && Sum(dailyTrans) > 0
    ensures Score(dailyTrans, i, j) == 0.0 <==>
      && 5 * Sum(dailyTrans[..i]) == 3 * Sum(dailyTrans)
      && 5 * Sum(dailyTrans[i..j]) == Sum(dailyTrans)
      && 5 * Sum(dailyTrans[j..]) == Sum(dailyTrans)
  {
    var t := SplitTotals(dailyTrans, i, j);
    var total := t[0] + t[1] + t[2];
    var e0, e1, e2 := RelativeError(t[0], total, TrainShare), RelativeError(t[1], total, ValShare),
      RelativeError(t[2], total, TestShare);
    assert Score(dailyTrans, i, j) == Max(Max(e0, e1), e2);
  }

  /** Lexicographic order on cut pairs. */
  predicate LexLess(p: (nat, nat), q: (nat, nat))
  {
    p.0 < q.0 || (p.0 == q.0 && p.1 < q.1)
  }

  predicate LexSorted(ps: seq<(nat, nat)>)
  {
    forall a, b :: 0 <= a < b < |ps| ==> LexLess(ps[a], ps[b])
  }

  /** Every pair `(a, b)` of `ps` has `a < b < n`. */
  predicate ValidPairs(ps: seq<(nat, nat)>, n: nat)
  {
    forall k :: 0 <= k < |ps| ==> ps[k].0 < ps[k].1 < n
  }

  /** The pairs `(i, i + 1), ..., (i, j - 1)`. */
  function Row(i: nat, j: nat): (r: seq<(nat, nat)>)
    ensures forall k :: 0 <= k < |r| ==> r[k].0 == i && i < r[k].1 < j
    ensures ValidPairs(r, j)
  {
    if j <= i + 1 then [] else seq(j - i - 1, k requires 0 <= k < j - i - 1 => (i, i + 1 + k))
  }

  /** The rows of first elements `0..i-1`, each with second elements up to `n - 1`. */
  function PairsBelow(i: nat, n: nat): (r: seq<(nat, nat)>)
    ensures forall k :: 0 <= k < |r| ==> r[k].0 < i && r[k].0 < r[k].1 < n
    ensures ValidPairs(r, n)
  {
    if i == 0 then [] else PairsBelow(i - 1, n) + Row(i - 1, n)
  }

  /** A row holds every pair `(i, b)` with `i < b < j`, in increasing order. */
  lemma RowExactly(i: nat, j: nat)
    ensures forall b: nat :: i < b < j ==> (i, b) in Row(i, j)
    ensures forall a, b :: 0 <= a < b < |Row(i, j)| ==> Row(i, j)[a].1 < Row(i, j)[b].1
  {
    forall b: nat | i < b < j ensures (i, b) in Row(i, j) {
      assert Row(i, j)[b - i - 1] == (i, b);
    }
  }

  /** Two lexicographically sorted runs stay sorted when every first element of one is below those of the other. */
  lemma LexSortedConcat(ps: seq<(nat, nat)>, qs: seq<(nat, nat)>)
    requires LexSorted(ps) && LexSorted(qs)
    requires forall x, y :: 0 <= x < |ps| && 0 <= y < |qs| ==> ps[x].0 < qs[y].0
    ensures LexSorted(ps + qs)
  {
    var r := ps + qs;
    forall a, b | 0 <= a < b < |r| ensures LexLess(r[a], r[b]) {
      if b < |ps| {
        assert r[a] == ps[a] && r[b] == ps[b];
      } else if a < |ps| {
        assert r[a] == ps[a] && r[b] == qs[b - |ps|];
      } else {
        assert r[a] == qs[a - |ps|] && r[b] == qs[b - |ps|];
      }
    }
  }

  /** The first `i` rows hold every pair `(a, b)` with `a < i` and `a < b < n`. */
  lemma {:induction false} PairsBelowComplete(i: nat, n: nat)
    ensures forall a: nat, b: nat :: a < i && a < b < n ==> (a, b) in PairsBelow(i, n)
  {
    if i > 0 {
      PairsBelowComplete(i - 1, n);
      RowExactly(i - 1, n);
      var prev, row := PairsBelow(i - 1, n), Row(i - 1, n);
      assert PairsBelow(i, n) == prev + row;
      forall a: nat, b: nat | a < i && a < b < n ensures (a, b) in prev + row {
        if a < i - 1 {
          assert (a, b) in prev;
        } else {
          assert (a, b) in row;
        }
      }
    }
  }

  /** The first `i` rows are in lexicographic order. */
  lemma {:induction false} PairsBelowSorted(i: nat, n: nat)
    ensures LexSorted(PairsBelow(i, n))
  {
    if i > 0 {
      PairsBelowSorted(i - 1, n);
      RowExactly(i - 1, n);
      var prev, row := PairsBelow(i - 1, n), Row(i - 1, n);
      forall x, y | 0 <= x < |prev| && 0 <= y < |row| ensures prev[x].0 < row[y].0 {
        assert prev[x].0 < i - 1 && row[y].0 == i - 1;
      }
      LexSortedConcat(prev, row);
      assert PairsBelow(i, n) == prev + row;
    }
  }

  lemma PairsBelowExactly(i: nat, n: nat)
    ensures forall a: nat, b: nat :: a < i && a < b < n ==> (a, b) in PairsBelow(i, n)
    ensures LexSorted(PairsBelow(i, n))
  {
    PairsBelowComplete(i, n);
    PairsBelowSorted(i, n);
  }

  /** `itertools.combinations(range(n), 2)`, in its order. */
  function Combinations(n: nat): (r: seq<(nat, nat)>)
    ensures forall k :: 0 <= k < |r| ==> r[k].0 < r[k].1 < n
  {
    PairsBelow(n, n)
  }

  /** The pairs produced are exactly those with `0 <= i < j < n`, in strictly increasing lexicographic order. */
  lemma CombinationsExactly(n: nat)
    ensures forall p :: p in Combinations(n) <==> p.0 < p.1 < n
    ensures LexSorted(Combinations(n))
    ensures Combinations(n) == [] <==> n < 2
  {
    PairsBelowExactly(n, n);
    forall p | p in Combinations(n) ensures p.0 < p.1 < n {
      var k :| 0 <= k < |Combinations(n)| && Combinations(n)[k] == p;
    }
    if n >= 2 {
      assert (0, 1) in Combinations(n);
    } else {
      assert PairsBelow(0, n) == [] && Row(0, n) == [];
    }
  }

  /** One entry of the `split_scores` dictionary, in insertion order. */
  datatype ScoredSplit = ScoredSplit(i: nat, j: nat, score: real)

  /** The scored entries for the pairs `ps`, in order. */
  function ScoreAll(dailyTrans: seq<nat>, ps: seq<(nat, nat)>): (r: seq<ScoredSplit>)
    requires Sum(dailyTrans) > 0 && ValidPairs(ps, |dailyTrans|)
    ensures |r| == |ps|
  {
    seq(|ps|, k requires 0 <= k < |ps| => ScoredSplit(ps[k].0, ps[k].1, Score(dailyTrans, ps[k].0, ps[k].1)))
  }

  lemma ScoreAllSnoc(dailyTrans: seq<nat>, ps: seq<(nat, nat)>, p: (nat, nat))
    requires Sum(dailyTrans) > 0 && ValidPairs(ps, |dailyTrans|) && p.0 < p.1 < |dailyTrans|
    ensures ValidPairs(ps + [p], |dailyTrans|)
    ensures ScoreAll(dailyTrans, ps + [p]) == ScoreAll(dailyTrans, ps) + [ScoredSplit(p.0, p.1, Score(dailyTrans, p.0, p.1))]
  {
    var r, r' := ScoreAll(dailyTrans, ps), ScoreAll(dailyTrans, ps + [p]);
    assert forall k :: 0 <= k < |ps| ==> r'[k] == r[k];
  }

  /** The whole `split_scores` dictionary, as its insertion-ordered entries. */
  function ScoreTable(dailyTrans: seq<nat>): seq<ScoredSplit>
    requires Sum(dailyTrans) > 0
  {
    ScoreAll(dailyTrans, Combinations(|dailyTrans|))
  }

  /**
   * The loop over `itertools.combinations(I, 2)` that fills `split_scores`: one
   * entry per candidate pair, scored and stored in the order visited.
   */
  method ScoreSplits(dailyTrans: seq<nat>) returns (splitScores: seq<ScoredSplit>)
    requires Sum(dailyTrans) > 0
    ensures splitScores == ScoreTable(dailyTrans)
  {
    var pairs := Combinations(|dailyTrans|);
    splitScores := [];
    for k := 0 to |pairs|
      invariant splitScores == ScoreAll(dailyTrans, pairs[..k])
    {
      var (i, j) := pairs[k];
      // the guard `j >= i` of `get_data` always holds for combinations
      var score := Score(dailyTrans, i, j);
      assert pairs[..k + 1] == pairs[..k] + [(i, j)];
      ScoreAllSnoc(dailyTrans, pairs[..k], (i, j));
      splitScores := splitScores + [ScoredSplit(i, j, score)];
    }
    assert pairs[..|pairs|] == pairs;
  }

  /**
   * `min(split_scores, key=split_scores.get)`: Python's `min` keeps the first
   * entry and replaces it only by a strictly smaller one, so the result has the
   * least score and every earlier entry has a strictly larger one.
   */
  function ArgMin(s: seq<ScoredSplit>): (k: nat)
    requires s != []
    ensures k < |s|
    ensures forall m :: 0 <= m < |s| ==> s[k].score <= s[m].score
    ensures forall m :: 0 <= m < k ==> s[k].score < s[m].score
  {
    if |s| == 1 then 0
    else
      var k := ArgMin(s[..|s| - 1]);
      if s[|s| - 1].score < s[k].score then |s| - 1 else k
  }

  /** The chosen cut pair; a single day leaves no pair and `min` of an empty dictionary fails. */
  function BestSplit(dailyTrans: seq<nat>): (r: Result<(nat, nat)>)
    requires Sum(dailyTrans) > 0
    ensures r.Err? <==> |dailyTrans| < 2
    ensures r.Err? ==> r.failure == NoSplitCandidates
    ensures r.Ok? ==> r.value.0 < r.value.1 < |dailyTrans|
  {
    CombinationsExactly(|dailyTrans|);
    var table := ScoreTable(dailyTrans);
    if table == [] then
      Err(NoSplitCandidates)
    else
      var e := table[ArgMin(table)];
      Ok((e.i, e.j))
  }

  /** Where the candidate `(a, b)` sits in the enumeration. */
  lemma CombinationIndex(n: nat, a: nat, b: nat) returns (m: nat)
    requires a < b < n
    ensures m < |Combinations(n)| && Combinations(n)[m] == (a, b)
  {
    PairsBelowExactly(n, n);
    assert (a, b) in Combinations(n);
    m :| 0 <= m < |Combinations(n)| && Combinations(n)[m] == (a, b);
  }

  /** A later position in the enumeration holds a lexicographically later pair. */
  lemma CombinationsOrdered(n: nat, x: nat, y: nat)
    requires x < y < |Combinations(n)|
    ensures LexLess(Combinations(n)[x], Combinations(n)[y])
  {
    PairsBelowExactly(n, n);
  }

  /** The chosen pair scores no more than the candidate `(a, b)`, and strictly less if `(a, b)` comes first. */
  lemma BestSplitBeats(dailyTrans: seq<nat>, a: nat, b: nat)
    requires Sum(dailyTrans) > 0 && a < b < |dailyTrans|
    ensures BestSplit(dailyTrans).Ok?
    ensures var p := BestSplit(dailyTrans).value;
      && Score(dailyTrans, p.0, p.1) <= Score(dailyTrans, a, b)
      && (LexLess((a, b), p) ==> Score(dailyTrans, p.0, p.1) < Score(dailyTrans, a, b))
  {
    var n := |dailyTrans|;
    var pairs := Combinations(n);
    var m := CombinationIndex(n, a, b);
    var table := ScoreTable(dailyTrans);
    assert |table| == |pairs|;
    var k := ArgMin(table);
    var p := BestSplit(dailyTrans).value;
    assert p == pairs[k];
    assert table[k].score == Score(dailyTrans, p.0, p.1);
    assert table[m].score == Score(dailyTrans, a, b);
    if m < k {
      assert table[k].score < table[m].score;
    } else if m == k {
      assert !LexLess((a, b), p);
    } else {
      CombinationsOrdered(n, k, m);
      assert !LexLess((a, b), p);
    }
  }

  /**
   * The chosen pair is optimal and first-wins: no candidate `0 <= a < b < n`
   * scores lower, and every candidate before it in lexicographic order scores
   * strictly higher.
   */
  lemma BestSplitOptimal(dailyTrans: seq<nat>)
    requires Sum(dailyTrans) > 0 && |dailyTrans| >= 2
    ensures BestSplit(dailyTrans).Ok?
    ensures var p := BestSplit(dailyTrans).value;
      && (forall a: nat, b: nat :: a < b < |dailyTrans| ==> Score(dailyTrans, p.0, p.1) <= Score(dailyTrans, a, b))
      && (forall a: nat, b: nat :: a < b < |dailyTrans| && LexLess((a, b), p) ==>
            Score(dailyTrans, p.0, p.1) < Score(dailyTrans, a, b))
  {
    BestSplitBeats(dailyTrans, 0, 1);
    forall a: nat, b: nat | a < b < |dailyTrans|
      ensures var p := BestSplit(dailyTrans).value;
        && Score(dailyTrans, p.0, p.1) <= Score(dailyTrans, a, b)
        && (LexLess((a, b), p) ==> Score(dailyTrans, p.0, p.1) < Score(dailyTrans, a, b))
    {
      BestSplitBeats(dailyTrans, a, b);
    }
  }

  /** With exactly two days the only candidate is `(0, 1)`, which leaves the train range empty. */
  lemma TwoDaysCutAtZero(dailyTrans: seq<nat>)
    requires |dailyTrans| == 2 && Sum(dailyTrans) > 0
    ensures BestSplit(dailyTrans) == Ok((0, 1))
  {
  }

  lemma {:induction false} SumUniform(s: seq<nat>, c: nat)
    requires forall k :: 0 <= k < |s| ==> s[k] == c
    ensures Sum(s) == c * |s|
  {
    if s != [] {
      SumUniform(s[1..], c);
    }
  }

  /** Ten days of 100 transactions each: the cut `(6, 8)` is an exact 60/20/20 split. */
  lemma UniformTenDaysExact(days: seq<nat>)
    requires |days| == 10 && forall k :: 0 <= k < |days| ==> days[k] == 100
    ensures Sum(days) == 1000
    ensures Score(days, 6, 8) == 0.0
  {
    SumUniform(days, 100);
    SumUniform(days[..6], 100);
    SumUniform(days[6..8], 100);
    SumUniform(days[8..], 100);
    ScoreZeroIff(days, 6, 8);
  }

  /** On ten uniform days, `(6, 8)` is the only cut that scores zero. */
  lemma UniformTenDaysZeroOnlyAt(days: seq<nat>, i: nat, j: nat)
    requires |days| == 10 && forall k :: 0 <= k < |days| ==> days[k] == 100
    requires i <= j <= |days| && Sum(days) > 0 && Score(days, i, j) == 0.0
    ensures i == 6 && j == 8
  {
    SumUniform(days, 100);
    ScoreZeroIff(days, i, j);
    SumUniform(days[..i], 100);
    SumUniform(days[i..j], 100);
  }

  /** Ten days of 100 transactions each are cut at `(6, 8)`: six training days, two validation days, two test days. */
  lemma UniformTenDays(days: seq<nat>)
    requires |days| == 10 && forall k :: 0 <= k < |days| ==> days[k] == 100
    ensures Sum(days) == 1000
    ensures BestSplit(days) == Ok((6, 8))
  {
    UniformTenDaysExact(days);
    BestSplitBeats(days, 6, 8);
    var p := BestSplit(days).value;
    UniformTenDaysZeroOnlyAt(days, p.0, p.1);
  }
}
