/**
 * The raw edge loader: a transaction table becomes one homogeneous graph
 * (node placeholder features, edge endpoints, edge attributes, timestamps and
 * labels) after shifting every timestamp so that the earliest one is 0.
 */
module Edges {
  import opened Failures

  /**
   * One row of the formatted transaction table (the columns the loader reads).
   * Account ids are non-negative, as the formatted table numbers accounts from 0.
   */
  datatype Transaction = Transaction(
    fromId: nat,
    toId: nat,
    timestamp: int,
    amountReceived: real,
    receivedCurrency: int,
    paymentFormat: int,
    isLaundering: int)

  /** The edge features kept: Timestamp, Amount Received, Received Currency, Payment Format. */
  datatype EdgeAttr = EdgeAttr(timestamp: int, amountReceived: real, receivedCurrency: int, paymentFormat: int)

  /** A homogeneous graph: node feature column `x`, and per edge a label, endpoints, attributes and a timestamp. */
  datatype GraphData = GraphData(
    x: seq<real>,
    y: seq<int>,
    src: seq<nat>,
    dst: seq<nat>,
    edgeAttr: seq<EdgeAttr>,
    timestamps: seq<int>)

  /** One edge of a graph, all columns taken together. */
  datatype Edge = Edge(src: nat, dst: nat, attr: EdgeAttr, timestamp: int, y: int)

  /** All edge columns have one entry per edge, and every endpoint has a node row. */
  predicate WellFormed(g: GraphData)
  {
    && |g.src| == |g.y| && |g.dst| == |g.y| && |g.edgeAttr| == |g.y| && |g.timestamps| == |g.y|
    && (forall k :: 0 <= k < |g.src| ==> g.src[k] < |g.x|)
    && (forall k :: 0 <= k < |g.dst| ==> g.dst[k] < |g.x|)
  }

  function NumEdges(g: GraphData): nat
  {
    |g.y|
  }

  function EdgeAt(g: GraphData, k: nat): Edge
    requires WellFormed(g) && k < NumEdges(g)
  {
    Edge(g.src[k], g.dst[k], g.edgeAttr[k], g.timestamps[k], g.y[k])
  }

  function MinOf(s: seq<int>): (m: int)
    requires s != []
    ensures m in s
    ensures forall k :: 0 <= k < |s| ==> m <= s[k]
  {
    if |s| == 1 then s[0]
    else
      var m := MinOf(s[1..]);
      if s[0] <= m then s[0] else m
  }

  function MaxOf(s: seq<int>): (m: int)
    requires s != []
    ensures m in s
    ensures forall k :: 0 <= k < |s| ==> s[k] <= m
  {
    if |s| == 1 then s[0]
    else
      var m := MaxOf(s[1..]);
      if s[0] >= m then s[0] else m
  }

  /** The largest node id mentioned as a source or a destination. */
  function MaxEndpoint(rows: seq<Transaction>): (m: nat)
    requires rows != []
    ensures forall k :: 0 <= k < |rows| ==> rows[k].fromId <= m && rows[k].toId <= m
    ensures exists k :: 0 <= k < |rows| && (rows[k].fromId == m || rows[k].toId == m)
  {
    var here := if rows[0].fromId >= rows[0].toId then rows[0].fromId else rows[0].toId;
    if |rows| == 1 then here
    else
      var m := MaxEndpoint(rows[1..]);
      assert forall k :: 1 <= k < |rows| ==> rows[k] == rows[1..][k - 1];
      if here >= m then here else m
  }

  /** The earliest timestamp of a non-empty table. */
  function Earliest(rows: seq<Transaction>): (m: int)
    requires rows != []
    ensures forall k :: 0 <= k < |rows| ==> m <= rows[k].timestamp
    ensures exists k :: 0 <= k < |rows| && rows[k].timestamp == m
  {
    var raw := seq(|rows|, k requires 0 <= k < |rows| => rows[k].timestamp);
    var m := MinOf(raw);
    var k :| 0 <= k < |raw| && raw[k] == m;
    assert forall k :: 0 <= k < |rows| ==> raw[k] == rows[k].timestamp;
    m
  }

  /**
   * Timestamp normalisation: every timestamp minus the smallest one. The result
   * starts at 0, is never negative, and keeps every pairwise difference (hence
   * the order) of the table's timestamps.
   */
  function Normalized(rows: seq<Transaction>): (ts: seq<int>)
    requires rows != []
    ensures |ts| == |rows|
    ensures forall k :: 0 <= k < |rows| ==> ts[k] == rows[k].timestamp - Earliest(rows)
    ensures 0 in ts && forall k :: 0 <= k < |ts| ==> ts[k] >= 0
    ensures forall a, b :: 0 <= a < |ts| && 0 <= b < |ts| ==> ts[a] - ts[b] == rows[a].timestamp - rows[b].timestamp
  {
    var m := Earliest(rows);
    var ts := seq(|rows|, k requires 0 <= k < |rows| => rows[k].timestamp - m);
    var z :| 0 <= z < |rows| && rows[z].timestamp == m;
    assert ts[z] == 0;
    ts
  }

  /** One edge per row, in row order, with the given timestamps, over `nodes` placeholder nodes of feature 1. */
  function EdgeTable(rows: seq<Transaction>, ts: seq<int>, nodes: nat): (g: GraphData)
    requires |ts| == |rows|
    requires forall k :: 0 <= k < |rows| ==> rows[k].fromId < nodes && rows[k].toId < nodes
    ensures WellFormed(g) && NumEdges(g) == |rows| && |g.x| == nodes && g.timestamps == ts
    ensures forall v :: 0 <= v < |g.x| ==> g.x[v] == 1.0
    ensures forall k :: 0 <= k < |rows| ==>
              var row := rows[k];
              EdgeAt(g, k) == Edge(row.fromId, row.toId,
                EdgeAttr(ts[k], row.amountReceived, row.receivedCurrency, row.paymentFormat),
                ts[k], row.isLaundering)
  {
    var n := |rows|;
    GraphData(
      seq(nodes, v => 1.0),
      seq(n, k requires 0 <= k < n => rows[k].isLaundering),
      seq(n, k requires 0 <= k < n => rows[k].fromId),
      seq(n, k requires 0 <= k < n => rows[k].toId),
      seq(n, k requires 0 <= k < n =>
        EdgeAttr(ts[k], rows[k].amountReceived, rows[k].receivedCurrency, rows[k].paymentFormat)),
      ts)
  }

  /**
   * Loads the table: fails on an empty table (the maximum of an empty id array
   * raises); otherwise builds `max_n_id = max endpoint + 1` placeholder nodes
   * with feature 1 and one edge per row, in row order.
   */
  function LoadEdges(rows: seq<Transaction>): (r: Result<GraphData>)
    ensures r.Err? <==> rows == []
    ensures r.Err? ==> r.failure == EmptyTable
    ensures r.Ok? ==> WellFormed(r.value) && NumEdges(r.value) == |rows|
    ensures r.Ok? ==> exists k :: 0 <= k < |rows| && (rows[k].fromId + 1 == |r.value.x| || rows[k].toId + 1 == |r.value.x|)
    ensures r.Ok? ==> forall v :: 0 <= v < |r.value.x| ==> r.value.x[v] == 1.0
    ensures r.Ok? ==> forall k :: 0 <= k < |rows| ==> r.value.timestamps[k] == rows[k].timestamp - Earliest(rows)
    ensures r.Ok? ==> 0 in r.value.timestamps && forall k :: 0 <= k < |rows| ==> r.value.timestamps[k] >= 0
    ensures r.Ok? ==> forall a, b :: 0 <= a < |rows| && 0 <= b < |rows| ==>
              r.value.timestamps[a] - r.value.timestamps[b] == rows[a].timestamp - rows[b].timestamp
    ensures r.Ok? ==> forall k :: 0 <= k < |rows| ==>
              var row := rows[k];
              EdgeAt(r.value, k) == Edge(row.fromId, row.toId,
                EdgeAttr(r.value.timestamps[k], row.amountReceived, row.receivedCurrency, row.paymentFormat),
                r.value.timestamps[k], row.isLaundering)
  {
    if rows == [] then Err(EmptyTable)
    else
      Ok(EdgeTable(rows, Normalized(rows), MaxEndpoint(rows) + 1))
  }
}
