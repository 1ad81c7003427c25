/**
 * The cache-miss computation of `get_data`: the transaction table becomes one
 * graph, its edges are binned by day, the best cut into train, validation and
 * test days is chosen, and the three index tensors and graphs are built.
 * `featurize` stands for what is done to each graph before it is saved:
 * the graph's own port numbering (`add_ports`), then the `data_util`
 * function `z_norm` applied to its node features and its edge features.
 */
module Pipeline {
  import opened Sequences
  import opened Failures
  import opened Edges
  import opened DayBins
  import opened SplitSearch
  import opened Materialize

  /** The six objects `get_data` returns, in the order it returns them. */
  datatype Splits = Splits(
    trData: GraphData,
    valData: GraphData,
    teData: GraphData,
    trInds: seq<nat>,
    valInds: seq<nat>,
    teInds: seq<nat>)

  /** A loaded graph: well formed, with at least one edge and shifted, non-negative timestamps. */
  predicate Loaded(g: GraphData)
  {
    WellFormed(g) && NumEdges(g) > 0 && NonNegative(g.timestamps)
  }

  /** `daily_inds`: the edge indices of each day, for `n_days` days. */
  function DaysOf(g: GraphData): (daily: seq<seq<nat>>)
    requires Loaded(g)
    ensures |daily| == NDays(g.timestamps)
  {
    Daily(g.timestamps, NDays(g.timestamps))
  }

  /** The cut `(i, j)` chosen from the daily transaction counts; a single day fails. */
  function ChooseCut(g: GraphData): (r: Result<(nat, nat)>)
    requires Loaded(g)
    ensures r.Err? <==> NDays(g.timestamps) == 1
    ensures r.Err? ==> r.failure == NoSplitCandidates
    ensures r.Ok? ==> r.value.0 < r.value.1 < NDays(g.timestamps)
  {
    DailyPartition(g.timestamps);
    BestSplit(Lengths(DaysOf(g)))
  }

  /** `split_inds`: for train, validation and test, the index tensors of their days, in day order. */
  function SplitIndices(g: GraphData, i: nat, j: nat): (parts: seq<seq<seq<nat>>>)
    requires Loaded(g) && i <= j <= NDays(g.timestamps)
    ensures |parts| == 3
    ensures forall s, p, a :: 0 <= s < 3 && 0 <= p < |parts[s]| && 0 <= a < |parts[s][p]| ==>
              parts[s][p][a] < NumEdges(g)
  {
    var daily := DaysOf(g);
    var split := SplitDays(i, j, |daily|);
    var parts: seq<seq<seq<nat>>> := seq(3, s requires 0 <= s < 3 => Gather(daily, split[s]));
    DailyIndicesInRange(g.timestamps, |daily|);
    forall s, p, a | 0 <= s < 3 && 0 <= p < |parts[s]| && 0 <= a < |parts[s][p]|
      ensures parts[s][p][a] < NumEdges(g)
    {
      assert parts[s][p] == daily[split[s][p]];
    }
    parts
  }

  /** The loaded graph of a non-empty table. */
  lemma LoadedTable(rows: seq<Transaction>)
    requires rows != []
    ensures LoadEdges(rows).Ok? && Loaded(LoadEdges(rows).value)
    ensures LoadEdges(rows).value.timestamps != []
  {
  }

  /** The per-split lists of daily index tensors are the day buckets of the three periods. */
  lemma SplitIndicesAreDayRanges(g: GraphData, i: nat, j: nat)
    requires Loaded(g) && i <= j <= NDays(g.timestamps)
    ensures var parts, daily := SplitIndices(g, i, j), DaysOf(g);
      parts[0] == daily[..i] && parts[1] == daily[i..j] && parts[2] == daily[j..]
  {
    var daily := DaysOf(g);
    var n := |daily|;
    GatherRange(daily, 0, i);
    GatherRange(daily, i, j);
    GatherRange(daily, j, n);
    assert daily[0..i] == daily[..i] && daily[j..n] == daily[j..];
  }

  /**
   * `tr_inds`, `val_inds`, `te_inds`: each split's daily index tensors
   * concatenated. Concatenating no tensors fails, which happens exactly when
   * the training period has no day.
   */
  function CutIndices(g: GraphData, i: nat, j: nat): (r: Result<(seq<nat>, seq<nat>, seq<nat>)>)
    requires Loaded(g) && i < j < NDays(g.timestamps)
    ensures r.Err? <==> i == 0
    ensures r.Err? ==> r.failure == EmptyConcatenation
    ensures r.Ok? ==> var daily := DaysOf(g);
      && r.value.0 == Flatten(daily[..i]) && r.value.1 == Flatten(daily[i..j]) && r.value.2 == Flatten(daily[j..])
      && EdgeIndices(g, r.value.0) && EdgeIndices(g, r.value.1) && EdgeIndices(g, r.value.2)
  {
    var parts := SplitIndices(g, i, j);
    SplitIndicesAreDayRanges(g, i, j);
    CatInRange(parts[0], NumEdges(g));
    CatInRange(parts[1], NumEdges(g));
    CatInRange(parts[2], NumEdges(g));
    match Cat(parts[0])
    case Err(f) => Err(f)
    case Ok(tr) =>
      match Cat(parts[1])
      case Err(f) => Err(f)
      case Ok(val) =>
        match Cat(parts[2])
        case Err(f) => Err(f)
        case Ok(te) => Ok((tr, val, te))
  }

  /**
   * What the cache-miss branch computes from the loaded graph: the six
   * objects, or the failure that stops it.
   */
  function PlanGraph(g: GraphData, featurize: GraphData -> GraphData): Result<Splits>
    requires Loaded(g)
  {
    match ChooseCut(g)
    case Err(f) => Err(f)
    case Ok(cut) =>
      match CutIndices(g, cut.0, cut.1)
      case Err(f) => Err(f)
      case Ok(inds) =>
        var (tr, val, te) := inds;
        SliceConcat(g, tr, val);
        Ok(Splits(featurize(SliceGraph(g, tr)), featurize(SliceGraph(g, tr + val)), featurize(g), tr, val, te))
  }

  /** Everything the cache-miss branch computes from the table before it saves. */
  function PlanSplits(rows: seq<Transaction>, featurize: GraphData -> GraphData): (r: Result<Splits>)
    ensures r.Err? ==> r.failure == EmptyTable || r.failure == NoSplitCandidates || r.failure == EmptyConcatenation
    ensures r.Err? && r.failure == EmptyTable <==> rows == []
  {
    match LoadEdges(rows)
    case Err(f) => Err(f)
    case Ok(g) =>
      LoadedTable(rows);
      PlanGraph(g, featurize)
  }

  /**
   * The day loop and the score loop of `get_data`: bin the edges by day,
   * score every candidate cut, and take the first cut of least score. The
   * day buckets are returned too, for the gathering step to reuse.
   */
  method FindCut(g: GraphData) returns (cut: Result<(nat, nat)>, dailyInds: seq<seq<nat>>)
    requires Loaded(g)
    ensures cut == ChooseCut(g)
    ensures dailyInds == DaysOf(g)
  {
    var nDays := NDays(g.timestamps);
    var dailyTrans;
    dailyInds, dailyTrans := BinDays(g.timestamps, nDays);
    DailyPartition(g.timestamps);
    var splitScores := ScoreSplits(dailyTrans);
    if splitScores == [] {
      cut := Err(NoSplitCandidates);
    } else {
      var best := splitScores[ArgMin(splitScores)];
      cut := Ok((best.i, best.j));
    }
  }

  /**
   * The split lists, the loops filling `split_inds` from the day buckets
   * `dailyInds` already computed, and the three concatenations.
   */
  method GatherCut(g: GraphData, dailyInds: seq<seq<nat>>, i: nat, j: nat) returns (r: Result<(seq<nat>, seq<nat>, seq<nat>)>)
    requires Loaded(g) && dailyInds == DaysOf(g) && i < j < NDays(g.timestamps)
    ensures r == CutIndices(g, i, j)
  {
    var nDays := |dailyInds|;
    var split := SplitDays(i, j, nDays);
    var splitInds := CollectSplitDays(dailyInds, split);
    assert splitInds == SplitIndices(g, i, j);
    var trCat := Cat(splitInds[0]);
    if trCat.Err? {
      return Err(trCat.failure);
    }
    // The validation and test periods each hold at least one day (i < j < nDays), so these two succeed.
    var valCat := Cat(splitInds[1]);
    var teCat := Cat(splitInds[2]);
    r := Ok((trCat.value, valCat.value, teCat.value));
  }

  /**
   * The cache-miss computation of `get_data`, step by step:
   * load the table, choose the cut, gather each split's indices, and build
   * the three graphs.
   */
  method ComputeSplits(rows: seq<Transaction>, featurize: GraphData -> GraphData) returns (r: Result<Splits>)
    ensures r == PlanSplits(rows, featurize)
  {
    var loaded := LoadEdges(rows);
    if loaded.Err? {
      return Err(loaded.failure);
    }
    var g := loaded.value;
    LoadedTable(rows);
    var cut, dailyInds := FindCut(g);
    if cut.Err? {
      return Err(cut.failure);
    }
    var (i, j) := cut.value;
    var inds := GatherCut(g, dailyInds, i, j);
    if inds.Err? {
      return Err(inds.failure);
    }
    var (trInds, valInds, teInds) := inds.value;
    SliceConcat(g, trInds, valInds);
    var trData := featurize(SliceGraph(g, trInds));
    var valData := featurize(SliceGraph(g, trInds + valInds));
    var teData := featurize(g);
    r := Ok(Splits(trData, valData, teData, trInds, valInds, teInds));
  }

  /**
   * The train, validation and test index tensors are the day buckets of the
   * three periods of the chosen cut; the train graph is sliced by the train
   * indices, the validation graph by the train indices followed by the
   * validation indices (so its edges are the train edges followed by the
   * validation edges), and the test graph is the whole graph.
   */
  lemma PlanShape(g: GraphData, featurize: GraphData -> GraphData)
    requires Loaded(g) && PlanGraph(g, featurize).Ok?
    ensures ChooseCut(g).Ok? && ChooseCut(g).value.0 > 0
    ensures var cut, daily, sp := ChooseCut(g).value, DaysOf(g), PlanGraph(g, featurize).value;
      && sp.trInds == Flatten(daily[..cut.0])
      && sp.valInds == Flatten(daily[cut.0..cut.1])
      && sp.teInds == Flatten(daily[cut.1..])
      && EdgeIndices(g, sp.trInds) && EdgeIndices(g, sp.valInds) && EdgeIndices(g, sp.trInds + sp.valInds)
      && sp.trData == featurize(SliceGraph(g, sp.trInds))
      && sp.valData == featurize(SliceGraph(g, sp.trInds + sp.valInds))
      && EdgesOf(SliceGraph(g, sp.trInds + sp.valInds)) == EdgesOf(SliceGraph(g, sp.trInds)) + EdgesOf(SliceGraph(g, sp.valInds))
      && sp.teData == featurize(g)
  {
    var cut := ChooseCut(g).value;
    var inds := CutIndices(g, cut.0, cut.1).value;
    SliceConcat(g, inds.0, inds.1);
  }

  /** The day buckets of the three periods together hold every edge index exactly once. */
  lemma PeriodsPartition(g: GraphData, i: nat, j: nat)
    requires Loaded(g) && i <= j <= NDays(g.timestamps)
    ensures var daily := DaysOf(g);
      multiset(Flatten(daily[..i]) + Flatten(daily[i..j]) + Flatten(daily[j..])) == multiset(Range(0, NumEdges(g)))
  {
    var daily := DaysOf(g);
    assert daily == daily[..i] + daily[i..j] + daily[j..];
    FlattenConcat(daily[..i], daily[i..j]);
    FlattenConcat(daily[..i] + daily[i..j], daily[j..]);
    DailyPartition(g.timestamps);
  }

  /** The train, validation and test indices together hold every edge index exactly once. */
  lemma PlanPartition(g: GraphData, featurize: GraphData -> GraphData)
    requires Loaded(g) && PlanGraph(g, featurize).Ok?
    ensures var sp := PlanGraph(g, featurize).value;
      multiset(sp.trInds + sp.valInds + sp.teInds) == multiset(Range(0, NumEdges(g)))
  {
    PlanShape(g, featurize);
    var cut := ChooseCut(g).value;
    PeriodsPartition(g, cut.0, cut.1);
  }

  /** Every timestamp falls before the end of the last day. */
  lemma BeforeLastDay(ts: seq<int>)
    requires ts != [] && NonNegative(ts)
    ensures forall k :: 0 <= k < |ts| ==> ts[k] < NDays(ts) * SecondsPerDay
  {
    forall k | 0 <= k < |ts| ensures ts[k] < NDays(ts) * SecondsPerDay {
      BeforeEnd(ts, k);
    }
  }

  /** The buckets of days before `i`, of days `i..j-1`, and of days from `j` on, by timestamp. */
  lemma PeriodsByTime(g: GraphData, i: nat, j: nat)
    requires Loaded(g) && i <= j <= NDays(g.timestamps)
    ensures var daily, ts := DaysOf(g), g.timestamps;
      && (forall k :: k in Flatten(daily[..i]) + Flatten(daily[i..j]) + Flatten(daily[j..]) ==> k < |ts|)
      && (forall k: nat :: k < |ts| ==>
           && (k in Flatten(daily[..i]) <==> ts[k] < i * SecondsPerDay)
           && (k in Flatten(daily[i..j]) <==> i * SecondsPerDay <= ts[k] < j * SecondsPerDay)
           && (k in Flatten(daily[j..]) <==> j * SecondsPerDay <= ts[k]))
  {
    var ts, daily := g.timestamps, DaysOf(g);
    var n := |daily|;
    assert daily[..i] == daily[0..i] && daily[j..] == daily[j..n];
    forall k | k in Flatten(daily[..i]) + Flatten(daily[i..j]) + Flatten(daily[j..])
      ensures k < |ts|
    {
      if k in Flatten(daily[..i]) {
        BucketRangeBound(ts, n, 0, i, k);
      } else if k in Flatten(daily[i..j]) {
        BucketRangeBound(ts, n, i, j, k);
      } else {
        BucketRangeBound(ts, n, j, n, k);
      }
    }
    forall k: nat | k < |ts|
      ensures && (k in Flatten(daily[..i]) <==> ts[k] < i * SecondsPerDay)
              && (k in Flatten(daily[i..j]) <==> i * SecondsPerDay <= ts[k] < j * SecondsPerDay)
              && (k in Flatten(daily[j..]) <==> j * SecondsPerDay <= ts[k])
    {
      BucketRangeIff(ts, 0, i, k);
      BucketRangeIff(ts, i, j, k);
      BucketRangeIff(ts, j, n, k);
      BeforeEnd(ts, k);
    }
  }

  /**
   * With `(i, j)` the chosen cut, edge `k` is a training edge when its
   * timestamp is below `i` days, a validation edge when it is in `[i, j)`
   * days, and a test edge from `j` days on; every index names an edge.
   */
  lemma PlanByTime(g: GraphData, featurize: GraphData -> GraphData)
    requires Loaded(g) && PlanGraph(g, featurize).Ok?
    ensures ChooseCut(g).Ok?
    ensures var cut, sp, ts := ChooseCut(g).value, PlanGraph(g, featurize).value, g.timestamps;
      && (forall k :: k in sp.trInds + sp.valInds + sp.teInds ==> k < |ts|)
      && (forall k: nat :: k < |ts| ==>
           && (k in sp.trInds <==> ts[k] < cut.0 * SecondsPerDay)
           && (k in sp.valInds <==> cut.0 * SecondsPerDay <= ts[k] < cut.1 * SecondsPerDay)
           && (k in sp.teInds <==> cut.1 * SecondsPerDay <= ts[k]))
  {
    PlanShape(g, featurize);
    var cut := ChooseCut(g).value;
    PeriodsByTime(g, cut.0, cut.1);
  }

  /** Some edge falls on the last day. */
  lemma LatestOnLastDay(ts: seq<int>) returns (last: nat)
    requires ts != [] && NonNegative(ts)
    ensures last < |ts| && ts[last] / SecondsPerDay == NDays(ts) - 1
    ensures (NDays(ts) - 1) * SecondsPerDay <= ts[last]
  {
    last :| 0 <= last < |ts| && ts[last] / SecondsPerDay == NDays(ts) - 1;
    DayOf(ts[last], NDays(ts) - 1);
  }

  /** An edge of the last day is less than a day later than every edge. */
  lemma WithinLastDay(ts: seq<int>, last: nat)
    requires ts != [] && NonNegative(ts) && last < |ts| && ts[last] / SecondsPerDay == NDays(ts) - 1
    ensures forall a :: 0 <= a < |ts| ==> ts[a] - ts[last] < SecondsPerDay
  {
    var n := NDays(ts);
    DayOf(ts[last], n - 1);
    assert (n - 1) * SecondsPerDay + SecondsPerDay == n * SecondsPerDay;
    BeforeLastDay(ts);
  }

  /** Day boundaries grow with the day number. */
  lemma DayStartMonotone(a: nat, b: nat)
    requires a <= b
    ensures a * SecondsPerDay <= b * SecondsPerDay
  {
  }

  /** The edge with timestamp 0 lies in the training days when there is at least one. */
  lemma FirstEdgeInTraining(g: GraphData, i: nat) returns (z: nat)
    requires Loaded(g) && 0 < i <= NDays(g.timestamps) && 0 in g.timestamps
    ensures z < |g.timestamps| && g.timestamps[z] == 0
    ensures z in Flatten(DaysOf(g)[..i])
  {
    var ts := g.timestamps;
    z :| 0 <= z < |ts| && ts[z] == 0;
    DayStartMonotone(1, i);
    assert DaysOf(g)[..i] == DaysOf(g)[0..i];
    BucketRangeMember(ts, 0, i, z);
  }

  /** An edge of the last day lies in the test days. */
  lemma LastEdgeInTest(g: GraphData, j: nat) returns (last: nat)
    requires Loaded(g) && j < NDays(g.timestamps)
    ensures last < |g.timestamps| && g.timestamps[last] / SecondsPerDay == NDays(g.timestamps) - 1
    ensures last in Flatten(DaysOf(g)[j..])
  {
    var ts := g.timestamps;
    var n := NDays(ts);
    last := LatestOnLastDay(ts);
    DayStartMonotone(j, n - 1);
    BeforeLastDay(ts);
    assert DaysOf(g)[j..] == DaysOf(g)[j..n];
    BucketRangeMember(ts, j, n, last);
  }

  /**
   * With at least one training day and one test day, the training period
   * holds the earliest edge (timestamp 0) and the test period an edge of the
   * last day; so neither is empty.
   */
  lemma PeriodsNonEmpty(g: GraphData, i: nat, j: nat)
    requires Loaded(g) && 0 < i <= j < NDays(g.timestamps) && 0 in g.timestamps
    ensures var daily, ts := DaysOf(g), g.timestamps;
      && (exists z: nat :: z in Flatten(daily[..i]) && z < |ts| && ts[z] == 0)
      && (exists last: nat :: last in Flatten(daily[j..]) && last < |ts| && ts[last] / SecondsPerDay == NDays(ts) - 1)
      && Flatten(daily[..i]) != [] && Flatten(daily[j..]) != []
  {
    var z := FirstEdgeInTraining(g, i);
    var last := LastEdgeInTest(g, j);
  }

  /**
   * Whenever the split succeeds, the earliest edge is a training edge and
   * an edge of the last day is a test edge; so neither tensor is empty.
   */
  lemma PlanNonEmpty(g: GraphData, featurize: GraphData -> GraphData)
    requires Loaded(g) && PlanGraph(g, featurize).Ok? && 0 in g.timestamps
    ensures var sp, ts := PlanGraph(g, featurize).value, g.timestamps;
      && (exists z: nat :: z in sp.trInds && z < |ts| && ts[z] == 0)
      && (exists last: nat :: last in sp.teInds && last < |ts| && ts[last] / SecondsPerDay == NDays(ts) - 1)
      && sp.trInds != [] && sp.teInds != []
  {
    PlanShape(g, featurize);
    var cut := ChooseCut(g).value;
    PeriodsNonEmpty(g, cut.0, cut.1);
  }

  /** An empty table fails on the maximum of the empty id array, and only an empty table does. */
  lemma EmptyTableFails(rows: seq<Transaction>, featurize: GraphData -> GraphData)
    ensures PlanSplits(rows, featurize) == Err(EmptyTable) <==> rows == []
  {
    if rows != [] {
      LoadedTable(rows);
    }
  }

  /** Shifted timestamps span a single day exactly when the original ones are all less than a day apart. */
  lemma SingleDaySpan(ts: seq<int>, rows: seq<Transaction>)
    requires ts != [] && NonNegative(ts) && |ts| == |rows|
    requires forall k :: 0 <= k < |ts| ==> ts[k] == rows[k].timestamp - Earliest(rows)
    ensures NDays(ts) == 1 <==>
            forall a, b :: 0 <= a < |rows| && 0 <= b < |rows| ==> rows[a].timestamp - rows[b].timestamp < SecondsPerDay
  {
    if NDays(ts) == 1 {
      forall a, b | 0 <= a < |rows| && 0 <= b < |rows|
        ensures rows[a].timestamp - rows[b].timestamp < SecondsPerDay
      {
        DayOf(ts[a], 0);
        assert ts[a] < SecondsPerDay && ts[b] >= 0;
      }
    }
    if forall a, b :: 0 <= a < |rows| && 0 <= b < |rows| ==> rows[a].timestamp - rows[b].timestamp < SecondsPerDay {
      var z :| 0 <= z < |rows| && rows[z].timestamp == Earliest(rows);
      var last := LatestOnLastDay(ts);
      assert ts[last] == rows[last].timestamp - rows[z].timestamp;
      if NDays(ts) > 1 {
        DayStartMonotone(1, NDays(ts) - 1);
      }
    }
  }

  /**
   * The score search has no candidate, and `min` of the empty score
   * dictionary fails, exactly when every two transactions are less than a
   * day apart.
   */
  lemma OneDayFails(rows: seq<Transaction>, featurize: GraphData -> GraphData)
    requires rows != []
    ensures PlanSplits(rows, featurize) == Err(NoSplitCandidates) <==>
            forall a, b :: 0 <= a < |rows| && 0 <= b < |rows| ==> rows[a].timestamp - rows[b].timestamp < SecondsPerDay
  {
    LoadedTable(rows);
    SingleDaySpan(LoadEdges(rows).value.timestamps, rows);
  }

  /**
   * Once there are at least two days, the only failure left is the
   * concatenation of an empty training list: it happens exactly when the
   * chosen cut puts day 0 in validation.
   */
  lemma EmptyTrainFails(rows: seq<Transaction>, featurize: GraphData -> GraphData)
    requires rows != []
    ensures LoadEdges(rows).Ok? && Loaded(LoadEdges(rows).value)
    ensures var g := LoadEdges(rows).value;
      PlanSplits(rows, featurize) == Err(EmptyConcatenation) <==> ChooseCut(g).Ok? && ChooseCut(g).value.0 == 0
  {
    LoadedTable(rows);
  }

  /** A table spanning exactly two days always fails: the only cut is `(0, 1)`, which leaves train empty. */
  lemma TwoDaysFail(rows: seq<Transaction>, featurize: GraphData -> GraphData)
    requires rows != []
    requires NDays(LoadEdges(rows).value.timestamps) == 2
    ensures PlanSplits(rows, featurize) == Err(EmptyConcatenation)
  {
    EmptyTrainFails(rows, featurize);
  }

  /** The train, validation and test indices together hold every row index exactly once. */
  lemma SplitsPartition(rows: seq<Transaction>, featurize: GraphData -> GraphData)
    requires PlanSplits(rows, featurize).Ok?
    ensures var sp := PlanSplits(rows, featurize).value;
      multiset(sp.trInds + sp.valInds + sp.teInds) == multiset(Range(0, |rows|))
  {
    LoadedTable(rows);
    PlanPartition(LoadEdges(rows).value, featurize);
  }

  /**
   * With `t` a transaction's time since the earliest one and `(i, j)` the
   * chosen cut: it is a training transaction when `t < i` days, a validation
   * transaction when `i` days `<= t < j` days, and a test transaction when
   * `t >= j` days; every index names a row.
   */
  lemma SplitsByTime(rows: seq<Transaction>, featurize: GraphData -> GraphData)
    requires PlanSplits(rows, featurize).Ok?
    ensures rows != [] && Loaded(LoadEdges(rows).value) && ChooseCut(LoadEdges(rows).value).Ok?
    ensures var cut, sp := ChooseCut(LoadEdges(rows).value).value, PlanSplits(rows, featurize).value;
      && (forall k :: k in sp.trInds + sp.valInds + sp.teInds ==> k < |rows|)
      && (forall k: nat :: k < |rows| ==>
           var t := rows[k].timestamp - Earliest(rows);
           && (k in sp.trInds <==> t < cut.0 * SecondsPerDay)
           && (k in sp.valInds <==> cut.0 * SecondsPerDay <= t < cut.1 * SecondsPerDay)
           && (k in sp.teInds <==> cut.1 * SecondsPerDay <= t))
  {
    LoadedTable(rows);
    var g := LoadEdges(rows).value;
    var cut, sp := ChooseCut(g).value, PlanGraph(g, featurize).value;
    assert PlanSplits(rows, featurize).value == sp;
    PlanByTime(g, featurize);
    forall k: nat | k < |rows|
      ensures var t := rows[k].timestamp - Earliest(rows);
        && (k in sp.trInds <==> t < cut.0 * SecondsPerDay)
        && (k in sp.valInds <==> cut.0 * SecondsPerDay <= t < cut.1 * SecondsPerDay)
        && (k in sp.teInds <==> cut.1 * SecondsPerDay <= t)
    {
      assert g.timestamps[k] == rows[k].timestamp - Earliest(rows);
    }
  }

  /** The period of one returned index, by its transaction's time since the earliest one. */
  lemma PeriodOfRow(rows: seq<Transaction>, featurize: GraphData -> GraphData, k: nat)
    requires PlanSplits(rows, featurize).Ok?
    requires var sp := PlanSplits(rows, featurize).value; k in sp.trInds + sp.valInds + sp.teInds
    ensures rows != [] && Loaded(LoadEdges(rows).value) && ChooseCut(LoadEdges(rows).value).Ok?
    ensures k < |rows|
    ensures var cut, sp := ChooseCut(LoadEdges(rows).value).value, PlanSplits(rows, featurize).value;
      var t := rows[k].timestamp - Earliest(rows);
      && (k in sp.trInds ==> t < cut.0 * SecondsPerDay)
      && (k in sp.valInds ==> cut.0 * SecondsPerDay <= t < cut.1 * SecondsPerDay)
      && (k in sp.teInds ==> cut.1 * SecondsPerDay <= t)
  {
    SplitsByTime(rows, featurize);
  }

  /** Every training transaction precedes every validation transaction, which precedes every test transaction. */
  lemma SplitsChronological(rows: seq<Transaction>, featurize: GraphData -> GraphData)
    requires PlanSplits(rows, featurize).Ok?
    ensures var sp := PlanSplits(rows, featurize).value;
      && (forall a, b :: a in sp.trInds && b in sp.valInds ==> a < |rows| && b < |rows| && rows[a].timestamp < rows[b].timestamp)
      && (forall a, b :: a in sp.valInds && b in sp.teInds ==> a < |rows| && b < |rows| && rows[a].timestamp < rows[b].timestamp)
      && (forall a, b :: a in sp.trInds && b in sp.teInds ==> a < |rows| && b < |rows| && rows[a].timestamp < rows[b].timestamp)
  {
    LoadedTable(rows);
    var sp := PlanSplits(rows, featurize).value;
    var all := sp.trInds + sp.valInds + sp.teInds;
    var cut := ChooseCut(LoadEdges(rows).value).value;
    DayStartMonotone(cut.0, cut.1);
    forall a, b | a in sp.trInds && b in sp.valInds
      ensures a < |rows| && b < |rows| && rows[a].timestamp < rows[b].timestamp
    {
      assert a in all && b in all;
      PeriodOfRow(rows, featurize, a);
      PeriodOfRow(rows, featurize, b);
    }
    forall a, b | a in sp.valInds && b in sp.teInds
      ensures a < |rows| && b < |rows| && rows[a].timestamp < rows[b].timestamp
    {
      assert a in all && b in all;
      PeriodOfRow(rows, featurize, a);
      PeriodOfRow(rows, featurize, b);
    }
    forall a, b | a in sp.trInds && b in sp.teInds
      ensures a < |rows| && b < |rows| && rows[a].timestamp < rows[b].timestamp
    {
      assert a in all && b in all;
      PeriodOfRow(rows, featurize, a);
      PeriodOfRow(rows, featurize, b);
    }
  }

  /**
   * Whenever the split succeeds, an earliest transaction is a training
   * transaction, and the test set holds a transaction of the last day, less
   * than a day later than every transaction; so neither tensor is empty.
   */
  lemma SplitsNonEmpty(rows: seq<Transaction>, featurize: GraphData -> GraphData)
    requires PlanSplits(rows, featurize).Ok?
    ensures var sp := PlanSplits(rows, featurize).value;
      && rows != []
      && (exists z: nat :: z in sp.trInds && z < |rows| && rows[z].timestamp == Earliest(rows))
      && (exists last: nat :: last in sp.teInds && last < |rows| &&
            forall a :: 0 <= a < |rows| ==> rows[a].timestamp - rows[last].timestamp < SecondsPerDay)
      && sp.trInds != [] && sp.teInds != []
  {
    LoadedTable(rows);
    var g := LoadEdges(rows).value;
    var sp := PlanSplits(rows, featurize).value;
    assert sp == PlanGraph(g, featurize).value;
    PlanNonEmpty(g, featurize);
    var ts := g.timestamps;
    var z: nat :| z in sp.trInds && z < |ts| && ts[z] == 0;
    var last: nat :| last in sp.teInds && last < |ts| && ts[last] / SecondsPerDay == NDays(ts) - 1;
    RowOfShiftedTime(rows, z, last);
    assert z in sp.trInds && z < |rows| && rows[z].timestamp == Earliest(rows);
  }

  /**
   * A row whose shifted timestamp is 0 has the earliest timestamp, and a row
   * of the last day is less than a day later than every row.
   */
  lemma RowOfShiftedTime(rows: seq<Transaction>, z: nat, last: nat)
    requires rows != []
    requires var ts := LoadEdges(rows).value.timestamps;
      && z < |ts| && ts[z] == 0
      && last < |ts| && NonNegative(ts) && ts[last] / SecondsPerDay == NDays(ts) - 1
    ensures z < |rows| && rows[z].timestamp == Earliest(rows)
    ensures last < |rows| && forall a :: 0 <= a < |rows| ==> rows[a].timestamp - rows[last].timestamp < SecondsPerDay
  {
    var ts := LoadEdges(rows).value.timestamps;
    WithinLastDay(ts, last);
    forall a | 0 <= a < |rows| ensures rows[a].timestamp - rows[last].timestamp < SecondsPerDay {
      assert ts[a] - ts[last] == rows[a].timestamp - rows[last].timestamp;
    }
  }
}
