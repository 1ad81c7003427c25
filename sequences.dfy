/** Sequence helpers shared by the binning, splitting and slicing steps. */
module Sequences {

  /** Sum of a sequence of counts (numpy `sum`). */
  function Sum(s: seq<nat>): nat
  {
    if s == [] then 0 else s[0] + Sum(s[1..])
  }

  lemma {:induction false} SumConcat(a: seq<nat>, b: seq<nat>)
    ensures Sum(a + b) == Sum(a) + Sum(b)
  {
    if a == [] {
      assert a + b == b;
    } else {
      assert (a + b)[1..] == a[1..] + b;
      SumConcat(a[1..], b);
    }
  }

  /** `torch.cat` of a list of one-dimensional tensors: their in-order concatenation. */
  function Flatten<T>(ss: seq<seq<T>>): seq<T>
  {
    if ss == [] then [] else ss[0] + Flatten(ss[1..])
  }

  lemma {:induction false} FlattenConcat<T>(a: seq<seq<T>>, b: seq<seq<T>>)
    ensures Flatten(a + b) == Flatten(a) + Flatten(b)
  {
    if a == [] {
      assert a + b == b;
    } else {
      assert (a + b)[1..] == a[1..] + b;
      FlattenConcat(a[1..], b);
    }
  }

  /** An element is in the concatenation exactly when it is in one of the parts. */
  lemma {:induction false} FlattenMembership<T>(ss: seq<seq<T>>, x: T)
    ensures x in Flatten(ss) <==> exists k :: 0 <= k < |ss| && x in ss[k]
  {
    if ss != [] {
      FlattenMembership(ss[1..], x);
      if x in Flatten(ss[1..]) {
        var k :| 0 <= k < |ss[1..]| && x in ss[1..][k];
        assert x in ss[k + 1];
      }
      if exists k :: 0 <= k < |ss| && x in ss[k] {
        var k :| 0 <= k < |ss| && x in ss[k];
        if k > 0 {
          assert x in ss[1..][k - 1];
        }
      }
    }
  }

  /** A part holding an element of the concatenation. */
  lemma FlattenWitness<T>(ss: seq<seq<T>>, x: T) returns (k: nat)
    requires x in Flatten(ss)
    ensures k < |ss| && x in ss[k]
  {
    FlattenMembership(ss, x);
    k :| 0 <= k < |ss| && x in ss[k];
  }

  /** The lengths of the parts, in order. */
  function Lengths<T>(ss: seq<seq<T>>): seq<nat>
  {
    seq(|ss|, k requires 0 <= k < |ss| => |ss[k]|)
  }

  lemma {:induction false} FlattenLength<T>(ss: seq<seq<T>>)
    ensures |Flatten(ss)| == Sum(Lengths(ss))
  {
    if ss != [] {
      assert Lengths(ss) == [|ss[0]|] + Lengths(ss[1..]);
      FlattenLength(ss[1..]);
    }
  }

  /** Python's `range(lo, hi)` for lo <= hi. */
  function Range(lo: nat, hi: nat): (r: seq<nat>)
    requires lo <= hi
    ensures |r| == hi - lo
    ensures forall k :: 0 <= k < |r| ==> r[k] == lo + k
  {
    seq(hi - lo, k requires 0 <= k < hi - lo => lo + k)
  }

  /** Indexing a tensor by an index tensor (`a[e]`): one element per index, in index order. */
  function Gather<T>(a: seq<T>, e: seq<nat>): (r: seq<T>)
    requires forall k :: 0 <= k < |e| ==> e[k] < |a|
    ensures |r| == |e|
    ensures forall k :: 0 <= k < |e| ==> r[k] == a[e[k]]
  {
    if e == [] then [] else Gather(a, e[..|e| - 1]) + [a[e[|e| - 1]]]
  }

  /** Gathering by a contiguous range of indices is the slice with those bounds. */
  lemma GatherRange<T>(a: seq<T>, lo: nat, hi: nat)
    requires lo <= hi <= |a|
    ensures Gather(a, Range(lo, hi)) == a[lo..hi]
  {
    var e := Range(lo, hi);
    assert forall k :: 0 <= k < |e| ==> e[k] < |a|;
    var r, s := Gather(a, e), a[lo..hi];
    assert |r| == |s|;
    forall k | 0 <= k < |r| ensures r[k] == s[k] {
      assert r[k] == a[e[k]] && e[k] == lo + k;
    }
    assert r == s;
  }
}
