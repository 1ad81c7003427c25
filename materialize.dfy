/**
 * From the chosen cut to the three index tensors and graphs: the day lists of
 * each split, the per-split lists of daily index tensors, their concatenation,
 * and the edge-level slicing of the full graph by an index tensor.
 */
module Materialize {
  import opened Sequences
  import opened Failures
  import opened Edges

  /** Every day named by `split` has an entry in `dailyInds`. */
  predicate DaysInRange(split: seq<seq<nat>>, nDays: nat)
  {
    forall s, k :: 0 <= s < |split| && 0 <= k < |split[s]| ==> split[s][k] < nDays
  }

  /** `split`: the days of train `[0, i)`, validation `[i, j)` and test `[j, n)`, in order. */
  function SplitDays(i: nat, j: nat, n: nat): (split: seq<seq<nat>>)
    requires i <= j <= n
    ensures |split| == 3
    ensures split[0] + split[1] + split[2] == Range(0, n)
    ensures forall d: nat :: d in split[0] <==> d < i
    ensures forall d: nat :: d in split[1] <==> i <= d < j
    ensures forall d: nat :: d in split[2] <==> j <= d < n
    ensures DaysInRange(split, n)
  {
    var split := [Range(0, i), Range(i, j), Range(j, n)];
    assert split[0] + split[1] + split[2] == Range(0, n) by {
      var all := split[0] + split[1] + split[2];
      forall k | 0 <= k < n ensures all[k] == Range(0, n)[k] {
        if k < i {
          assert all[k] == split[0][k];
        } else if k < j {
          assert all[k] == split[1][k - i];
        } else {
          assert all[k] == split[2][k - j];
        }
      }
    }
    forall d: nat ensures d in split[1] <==> i <= d < j {
      if i <= d < j {
        assert split[1][d - i] == d;
      }
    }
    forall d: nat ensures d in split[2] <==> j <= d < n {
      if j <= d < n {
        assert split[2][d - j] == d;
      }
    }
    forall d: nat ensures d in split[0] <==> d < i {
      if 0 <= d < i {
        assert split[0][d] == d;
      }
    }
    split
  }

  /**
   * The loops that fill `split_inds`: for each split in turn, the index
   * tensors of its days are appended in day order.
   */
  method CollectSplitDays(dailyInds: seq<seq<nat>>, split: seq<seq<nat>>) returns (splitInds: seq<seq<seq<nat>>>)
    requires |split| == 3 && DaysInRange(split, |dailyInds|)
    ensures |splitInds| == 3
    ensures forall s :: 0 <= s < 3 ==> splitInds[s] == Gather(dailyInds, split[s])
  {
    splitInds := [[], [], []];
    for s := 0 to 3
      invariant |splitInds| == 3
      invariant forall t :: 0 <= t < s ==> splitInds[t] == Gather(dailyInds, split[t])
      invariant forall t :: s <= t < 3 ==> splitInds[t] == []
    {
      assert forall k :: 0 <= k < |split[s]| ==> split[s][k] < |dailyInds|;
      for k := 0 to |split[s]|
        invariant |splitInds| == 3
        invariant forall t :: 0 <= t < s ==> splitInds[t] == Gather(dailyInds, split[t])
        invariant forall t :: s < t < 3 ==> splitInds[t] == []
        invariant splitInds[s] == Gather(dailyInds, split[s][..k])
      {
        var day := split[s][k];
        assert split[s][..k + 1][..k] == split[s][..k];
        splitInds := splitInds[s := splitInds[s] + [dailyInds[day]]];
      }
      assert split[s][..|split[s]|] == split[s];
    }
  }

  /**
   * `torch.cat(parts)`: an empty list of tensors raises; otherwise the parts
   * one after another, holding exactly the indices of the parts.
   */
  function Cat(parts: seq<seq<nat>>): (r: Result<seq<nat>>)
    ensures r.Err? <==> parts == []
    ensures r.Err? ==> r.failure == EmptyConcatenation
    ensures r.Ok? ==> r.value == Flatten(parts)
    ensures r.Ok? ==> |r.value| == Sum(Lengths(parts))
    ensures r.Ok? ==> forall x :: x in r.value <==> exists k :: 0 <= k < |parts| && x in parts[k]
  {
    if parts == [] then Err(EmptyConcatenation)
    else
      FlattenLength(parts);
      forall x ensures x in Flatten(parts) <==> exists k :: 0 <= k < |parts| && x in parts[k] {
        FlattenMembership(parts, x);
      }
      Ok(Flatten(parts))
  }

  /** A concatenation of parts whose indices are all below `n` has only indices below `n`. */
  lemma CatInRange(parts: seq<seq<nat>>, n: nat)
    requires forall p, a :: 0 <= p < |parts| && 0 <= a < |parts[p]| ==> parts[p][a] < n
    ensures Cat(parts).Ok? ==> forall k :: 0 <= k < |Cat(parts).value| ==> Cat(parts).value[k] < n
  {
    if parts != [] {
      var flat := Cat(parts).value;
      forall k | 0 <= k < |flat| ensures flat[k] < n {
        assert flat[k] in flat;
        var p :| 0 <= p < |parts| && flat[k] in parts[p];
        var a :| 0 <= a < |parts[p]| && parts[p][a] == flat[k];
      }
    }
  }

  /** Every index of `e` names an edge of `g`. */
  predicate EdgeIndices(g: GraphData, e: seq<nat>)
  {
    forall k :: 0 <= k < |e| ==> e[k] < NumEdges(g)
  }

  /**
   * `edge_index[:, e], edge_attr[e], y[e], timestamps[e]` with the node features
   * kept: the graph whose `k`-th edge is edge `e[k]` of `g`, over the same nodes.
   */
  function SliceGraph(g: GraphData, e: seq<nat>): (r: GraphData)
    requires WellFormed(g) && EdgeIndices(g, e)
    ensures WellFormed(r) && r.x == g.x && NumEdges(r) == |e|
    ensures forall k :: 0 <= k < |e| ==> EdgeAt(r, k) == EdgeAt(g, e[k])
  {
    GraphData(g.x, Gather(g.y, e), Gather(g.src, e), Gather(g.dst, e), Gather(g.edgeAttr, e), Gather(g.timestamps, e))
  }

  /** The edges of a graph, in order. */
  function EdgesOf(g: GraphData): (es: seq<Edge>)
    requires WellFormed(g)
    ensures |es| == NumEdges(g)
  {
    seq(NumEdges(g), k requires 0 <= k < NumEdges(g) => EdgeAt(g, k))
  }

  /**
   * Slicing by `e1 + e2` (the validation graph is sliced by the train indices
   * followed by the validation indices) gives the edges of the `e1` slice
   * followed by those of the `e2` slice, over the same nodes.
   */
  lemma SliceConcat(g: GraphData, e1: seq<nat>, e2: seq<nat>)
    requires WellFormed(g) && EdgeIndices(g, e1) && EdgeIndices(g, e2)
    ensures EdgeIndices(g, e1 + e2)
    ensures SliceGraph(g, e1 + e2).x == g.x
    ensures EdgesOf(SliceGraph(g, e1 + e2)) == EdgesOf(SliceGraph(g, e1)) + EdgesOf(SliceGraph(g, e2))
  {
    var e := e1 + e2;
    assert forall k :: 0 <= k < |e| ==> e[k] == if k < |e1| then e1[k] else e2[k - |e1|];
    var lhs, rhs := EdgesOf(SliceGraph(g, e)), EdgesOf(SliceGraph(g, e1)) + EdgesOf(SliceGraph(g, e2));
    forall k | 0 <= k < |lhs| ensures lhs[k] == rhs[k] {
      if k < |e1| {
        assert rhs[k] == EdgesOf(SliceGraph(g, e1))[k];
      } else {
        assert rhs[k] == EdgesOf(SliceGraph(g, e2))[k - |e1|];
      }
    }
  }

  /** Gathering a whole column by every index in order gives the column back. */
  lemma GatherAll<T>(a: seq<T>)
    ensures forall k :: 0 <= k < |Range(0, |a|)| ==> Range(0, |a|)[k] < |a|
    ensures Gather(a, Range(0, |a|)) == a
  {
    GatherRange(a, 0, |a|);
    assert a[0..|a|] == a;
  }

  /** Slicing by every edge index in order gives back the graph (the test graph is the full graph). */
  lemma SliceAll(g: GraphData)
    requires WellFormed(g)
    ensures EdgeIndices(g, Range(0, NumEdges(g)))
    ensures SliceGraph(g, Range(0, NumEdges(g))) == g
  {
    GatherAll(g.y);
    GatherAll(g.src);
    GatherAll(g.dst);
    GatherAll(g.edgeAttr);
    GatherAll(g.timestamps);
  }
}
