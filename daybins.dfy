/**
 * The temporal day binner: every edge index goes to the day bucket
 * `[d * 86400, (d + 1) * 86400)` holding its normalised timestamp, and there
 * are `floor(max timestamp / 86400) + 1` buckets.
 */
module DayBins {
  import opened Sequences
  import Edges

  const SecondsPerDay: nat := 24 * 3600

  predicate NonNegative(ts: seq<int>)
  {
    forall k :: 0 <= k < |ts| ==> ts[k] >= 0
  }

  /** `n_days`: enough buckets for every timestamp, and the last bucket is not empty. */
  function NDays(ts: seq<int>): (n: nat)
    requires ts != [] && NonNegative(ts)
    ensures n >= 1
    ensures forall k :: 0 <= k < |ts| ==> ts[k] / SecondsPerDay < n
    ensures exists k :: 0 <= k < |ts| && ts[k] / SecondsPerDay == n - 1
  {
    var m := Edges.MaxOf(ts);
    assert forall k :: 0 <= k < |ts| ==> ts[k] / SecondsPerDay <= m / SecondsPerDay;
    m / SecondsPerDay + 1
  }

  /**
   * `torch.where((ts >= lo) & (ts < hi))[0]` over the first `n` timestamps:
   * exactly the indices whose timestamp lies in `[lo, hi)`, in ascending order.
   */
  function Where(ts: seq<int>, lo: int, hi: int, n: nat): (r: seq<nat>)
    requires n <= |ts|
    ensures forall k: nat {:trigger k in r} :: k in r <==> k < n && lo <= ts[k] < hi
    ensures forall a, b :: 0 <= a < b < |r| ==> r[a] < r[b]
  {
    if n == 0 then []
    else
      var p := Where(ts, lo, hi, n - 1);
      forall a | 0 <= a < |p|
        ensures p[a] < n - 1
      {
        assert p[a] in p;
      }
      p + (if lo <= ts[n - 1] < hi then [n - 1] else [])
  }

  /** A non-negative timestamp lies in bucket `e` exactly when `e` is its day. */
  lemma DayOf(t: int, e: nat)
    requires t >= 0
    ensures (e * SecondsPerDay <= t < (e + 1) * SecondsPerDay) <==> e == t / SecondsPerDay
  {
    var q := t / SecondsPerDay;
    assert q * SecondsPerDay <= t < (q + 1) * SecondsPerDay;
    if e < q {
      assert (e + 1) * SecondsPerDay <= q * SecondsPerDay;
    } else if e > q {
      assert (q + 1) * SecondsPerDay <= e * SecondsPerDay;
    }
  }

  /** The edge indices of day `day`. */
  function DayBucket(ts: seq<int>, day: nat): seq<nat>
  {
    Where(ts, day * SecondsPerDay, (day + 1) * SecondsPerDay, |ts|)
  }

  /** The first `nDays` day buckets, in day order. */
  function Daily(ts: seq<int>, nDays: nat): seq<seq<nat>>
  {
    seq(nDays, d requires 0 <= d < nDays => DayBucket(ts, d))
  }

  /** The `for day in range(n_days)` loop filling `daily_inds` and `daily_trans`. */
  method BinDays(timestamps: seq<int>, nDays: nat) returns (dailyInds: seq<seq<nat>>, dailyTrans: seq<nat>)
    ensures dailyInds == Daily(timestamps, nDays)
    ensures dailyTrans == Lengths(dailyInds)
  {
    dailyInds, dailyTrans := [], [];
    for day := 0 to nDays
      invariant dailyInds == Daily(timestamps, day)
      invariant dailyTrans == Lengths(dailyInds)
    {
      var l := day * 24 * 3600;
      var r := (day + 1) * 24 * 3600;
      var dayInds := Where(timestamps, l, r, |timestamps|);
      dailyInds := dailyInds + [dayInds];
      dailyTrans := dailyTrans + [|dayInds|];
    }
  }

  /** The buckets over only the first `n` edges. */
  function DailyUpTo(ts: seq<int>, nDays: nat, n: nat): seq<seq<nat>>
    requires n <= |ts|
  {
    seq(nDays, d requires 0 <= d < nDays => Where(ts, d * SecondsPerDay, (d + 1) * SecondsPerDay, n))
  }

  /** Growing one part by one element grows the flattened multiset by that element. */
  lemma {:induction false} FlattenGrowOne(prev: seq<seq<nat>>, next: seq<seq<nat>>, d: nat, x: nat)
    requires |next| == |prev| && d < |prev|
    requires next[d] == prev[d] + [x]
    requires forall e :: 0 <= e < |prev| && e != d ==> next[e] == prev[e]
    ensures multiset(Flatten(next)) == multiset(Flatten(prev)) + multiset{x}
  {
    if d == 0 {
      assert next[1..] == prev[1..];
    } else {
      FlattenGrowOne(prev[1..], next[1..], d - 1, x);
    }
  }

  lemma {:induction false} FlattenNoIndices(ss: seq<seq<nat>>)
    requires forall d :: 0 <= d < |ss| ==> ss[d] == []
    ensures Flatten(ss) == []
  {
    if ss != [] {
      FlattenNoIndices(ss[1..]);
    }
  }

  /** Taking edge `n - 1` into account appends it to bucket `e` exactly when `e` is its day. */
  lemma DailyUpToDay(ts: seq<int>, nDays: nat, n: nat, e: nat)
    requires 0 < n <= |ts| && ts[n - 1] >= 0 && e < nDays
    ensures DailyUpTo(ts, nDays, n)[e] ==
            DailyUpTo(ts, nDays, n - 1)[e] + (if e == ts[n - 1] / SecondsPerDay then [n - 1] else [])
  {
    assert DailyUpTo(ts, nDays, n)[e] == Where(ts, e * SecondsPerDay, (e + 1) * SecondsPerDay, n);
    assert DailyUpTo(ts, nDays, n - 1)[e] == Where(ts, e * SecondsPerDay, (e + 1) * SecondsPerDay, n - 1);
    DayOf(ts[n - 1], e);
  }

  /** Taking edge `n - 1` into account adds it to the bucket of its day and to no other. */
  lemma DailyUpToStep(ts: seq<int>, nDays: nat, n: nat)
    requires 0 < n <= |ts| && ts[n - 1] >= 0 && ts[n - 1] / SecondsPerDay < nDays
    ensures multiset(Flatten(DailyUpTo(ts, nDays, n))) == multiset(Flatten(DailyUpTo(ts, nDays, n - 1))) + multiset{(n - 1) as nat}
  {
    var prev, d := DailyUpTo(ts, nDays, n - 1), ts[n - 1] / SecondsPerDay;
    var next := DailyUpTo(ts, nDays, n);
    DailyUpToDay(ts, nDays, n, d);
    forall e | 0 <= e < nDays && e != d ensures next[e] == prev[e] {
      DailyUpToDay(ts, nDays, n, e);
    }
    var last: nat := n - 1;
    FlattenGrowOne(prev, next, d, last);
  }

  lemma DailyUpToNone(ts: seq<int>, nDays: nat)
    ensures Flatten(DailyUpTo(ts, nDays, 0)) == []
  {
    var none := DailyUpTo(ts, nDays, 0);
    assert forall d :: 0 <= d < |none| ==> none[d] == [];
    FlattenNoIndices(none);
  }

  lemma RangeSnoc(n: nat)
    requires n > 0
    ensures multiset(Range(0, n)) == multiset(Range(0, n - 1)) + multiset{(n - 1) as nat}
  {
    var last: nat := n - 1;
    assert Range(0, n) == Range(0, last) + [last];
  }

  lemma {:induction false} DailyUpToCoverage(ts: seq<int>, nDays: nat, n: nat)
    requires n <= |ts|
    requires forall k :: 0 <= k < |ts| ==> 0 <= ts[k] && ts[k] / SecondsPerDay < nDays
    ensures multiset(Flatten(DailyUpTo(ts, nDays, n))) == multiset(Range(0, n))
  {
    if n == 0 {
      DailyUpToNone(ts, nDays);
    } else {
      DailyUpToCoverage(ts, nDays, n - 1);
      DailyUpToStep(ts, nDays, n);
      RangeSnoc(n);
    }
  }

  /** Edge `k` lies in bucket `d` exactly when `d` is its day. */
  lemma DayMembership(ts: seq<int>, nDays: nat, k: nat, d: nat)
    requires k < |ts| && ts[k] >= 0 && d < nDays
    ensures k in Daily(ts, nDays)[d] <==> d == ts[k] / SecondsPerDay
  {
    assert Daily(ts, nDays)[d] == DayBucket(ts, d);
    DayOf(ts[k], d);
  }

  /**
   * The day buckets partition the edge indices: edge `k` lies in bucket `d`
   * exactly when `d` is its day, every bucket is in ascending order, all buckets
   * together hold each index `0..n-1` exactly once, and the daily counts add up
   * to the number of edges.
   */
  lemma DailyPartition(ts: seq<int>)
    requires ts != [] && NonNegative(ts)
    ensures var daily := Daily(ts, NDays(ts));
      && (forall k, d :: 0 <= k < |ts| && 0 <= d < |daily| ==> (k in daily[d] <==> d == ts[k] / SecondsPerDay))
      && (forall d, a, b :: 0 <= d < |daily| && 0 <= a < b < |daily[d]| ==> daily[d][a] < daily[d][b])
      && multiset(Flatten(daily)) == multiset(Range(0, |ts|))
      && Sum(Lengths(daily)) == |ts|
  {
    var nDays := NDays(ts);
    var daily := Daily(ts, nDays);
    forall k, d | 0 <= k < |ts| && 0 <= d < |daily|
      ensures k in daily[d] <==> d == ts[k] / SecondsPerDay
    {
      DayMembership(ts, nDays, k, d);
    }
    assert daily == DailyUpTo(ts, nDays, |ts|);
    DailyUpToCoverage(ts, nDays, |ts|);
    FlattenLength(daily);
    assert |Flatten(daily)| == |multiset(Flatten(daily))| == |Range(0, |ts|)|;
  }

  /** Every index of the first `n` buckets names an edge. */
  lemma DailyIndicesInRange(ts: seq<int>, nDays: nat)
    ensures forall d, a :: 0 <= d < nDays && 0 <= a < |Daily(ts, nDays)[d]| ==> Daily(ts, nDays)[d][a] < |ts|
  {
    forall d, a | 0 <= d < nDays && 0 <= a < |Daily(ts, nDays)[d]|
      ensures Daily(ts, nDays)[d][a] < |ts|
    {
      assert Daily(ts, nDays)[d][a] in DayBucket(ts, d);
    }
  }

  /** An edge in bucket `d` has its timestamp in `[d * 86400, (d + 1) * 86400)`. */
  lemma InBucket(ts: seq<int>, d: nat, k: nat)
    requires k in DayBucket(ts, d)
    ensures k < |ts| && d * SecondsPerDay <= ts[k] < (d + 1) * SecondsPerDay
  {
  }

  /** Position `p` of the buckets `lo..hi-1` is bucket `lo + p`. */
  lemma DailySlice(ts: seq<int>, nDays: nat, lo: nat, hi: nat, p: nat)
    requires lo <= hi <= nDays && p < hi - lo
    ensures Daily(ts, nDays)[lo..hi][p] == DayBucket(ts, lo + p)
  {
  }

  /** Day `d` of the days `lo..hi-1` lies inside `[lo * 86400, hi * 86400)`. */
  lemma DayWindow(lo: nat, d: nat, hi: nat, t: int)
    requires lo <= d < hi && d * SecondsPerDay <= t < (d + 1) * SecondsPerDay
    ensures lo * SecondsPerDay <= t < hi * SecondsPerDay
  {
    assert lo * SecondsPerDay <= d * SecondsPerDay;
    assert (d + 1) * SecondsPerDay <= hi * SecondsPerDay;
  }

  /** An edge of the buckets `lo..hi-1` lies in the bucket of some day `d` in `lo..hi-1`. */
  lemma BucketOfRange(ts: seq<int>, nDays: nat, lo: nat, hi: nat, k: nat) returns (d: nat)
    requires lo <= hi <= nDays
    requires k in Flatten(Daily(ts, nDays)[lo..hi])
    ensures lo <= d < hi && k in DayBucket(ts, d)
  {
    var p := FlattenWitness(Daily(ts, nDays)[lo..hi], k);
    DailySlice(ts, nDays, lo, hi, p);
    d := lo + p;
  }

  /** An edge of the bucket of day `d`, with `lo <= d < hi`, has its timestamp in `[lo * 86400, hi * 86400)`. */
  lemma BucketWindow(ts: seq<int>, lo: nat, d: nat, hi: nat, k: nat)
    requires lo <= d < hi && k in DayBucket(ts, d)
    ensures k < |ts| && lo * SecondsPerDay <= ts[k] < hi * SecondsPerDay
  {
    InBucket(ts, d, k);
    DayWindow(lo, d, hi, ts[k]);
  }

  /** An edge in buckets `lo..hi-1` has its timestamp in `[lo * 86400, hi * 86400)`. */
  lemma BucketRangeBound(ts: seq<int>, nDays: nat, lo: nat, hi: nat, k: nat)
    requires lo <= hi <= nDays
    requires k in Flatten(Daily(ts, nDays)[lo..hi])
    ensures k < |ts| && lo * SecondsPerDay <= ts[k] < hi * SecondsPerDay
  {
    var d := BucketOfRange(ts, nDays, lo, hi, k);
    BucketWindow(ts, lo, d, hi, k);
  }

  /** A non-negative timestamp in `[lo * 86400, hi * 86400)` falls on a day in `lo..hi-1`. */
  lemma DayBetween(lo: nat, hi: nat, t: int)
    requires 0 <= t && lo * SecondsPerDay <= t < hi * SecondsPerDay
    ensures lo <= t / SecondsPerDay < hi
  {
    DayOf(t, t / SecondsPerDay);
  }

  /** An edge whose timestamp falls in `[lo * 86400, hi * 86400)` lies in buckets `lo..hi-1`. */
  lemma BucketRangeMember(ts: seq<int>, lo: nat, hi: nat, k: nat)
    requires ts != [] && NonNegative(ts) && lo <= hi <= NDays(ts)
    requires k < |ts| && lo * SecondsPerDay <= ts[k] < hi * SecondsPerDay
    ensures k in Flatten(Daily(ts, NDays(ts))[lo..hi])
  {
    var nDays := NDays(ts);
    var d := ts[k] / SecondsPerDay;
    DayBetween(lo, hi, ts[k]);
    DayMembership(ts, nDays, k, d);
    DailySlice(ts, nDays, lo, hi, d - lo);
    FlattenMembership(Daily(ts, nDays)[lo..hi], k);
  }

  /** Edge `k` lies in buckets `lo..hi-1` exactly when its timestamp falls in `[lo * 86400, hi * 86400)`. */
  lemma BucketRangeIff(ts: seq<int>, lo: nat, hi: nat, k: nat)
    requires ts != [] && NonNegative(ts) && lo <= hi <= NDays(ts) && k < |ts|
    ensures k in Flatten(Daily(ts, NDays(ts))[lo..hi]) <==> lo * SecondsPerDay <= ts[k] < hi * SecondsPerDay
  {
    if k in Flatten(Daily(ts, NDays(ts))[lo..hi]) {
      BucketRangeBound(ts, NDays(ts), lo, hi, k);
    }
    if lo * SecondsPerDay <= ts[k] < hi * SecondsPerDay {
      BucketRangeMember(ts, lo, hi, k);
    }
  }

  /** Every timestamp falls before the end of the last day. */
  lemma BeforeEnd(ts: seq<int>, k: nat)
    requires ts != [] && NonNegative(ts) && k < |ts|
    ensures ts[k] < NDays(ts) * SecondsPerDay
  {
    DayOf(ts[k], ts[k] / SecondsPerDay);
    DayWindow(0, ts[k] / SecondsPerDay, NDays(ts), ts[k]);
  }
}
