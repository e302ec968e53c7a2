/**
 * The street network as a directed multigraph (CreateDirectedMultiGraph).
 * Edges live in an arena indexed by integer id, in insertion order; the
 * parallel-edge key of an edge is its position among the edges with the same
 * (src, dst) pair, so key 0 is the first-inserted edge of that pair.
 */
module Graph {
  import opened Wrappers

  type Node = int

  /** A TLINK_ID as read from a record: an integer, or None when the field is null. */
  type Link = Option<int>

  /** One directed edge: endpoints, the street segment (TLINK) it carries, its cost. */
  datatype Edge = Edge(src: Node, dst: Node, link: Link, cost: real)

  /** One street segment record; either endpoint may be missing. */
  datatype SegmentRow = SegmentRow(fromNode: Option<Node>, toNode: Option<Node>, link: Link, flow: int, cost: real)

  /** The directed edges one segment row adds, in the order they are added. */
  function RowEdges(row: SegmentRow): seq<Edge>
  {
    if row.fromNode.None? || row.toNode.None? then []
    else
      var a, b := row.fromNode.value, row.toNode.value;
      if row.flow == 2 then [Edge(b, a, row.link, row.cost)]
      else if row.flow == 1 then [Edge(a, b, row.link, row.cost)]
      else [Edge(a, b, row.link, row.cost), Edge(b, a, row.link, row.cost)]
  }

  /** The edge arena after adding the rows' edges one row at a time. */
  function BuildEdges(rows: seq<SegmentRow>): seq<Edge>
  {
    if rows == [] then [] else BuildEdges(rows[..|rows| - 1]) + RowEdges(rows[|rows| - 1])
  }

  /** A reverse-only row (flow 2) adds exactly one edge, to -> from. */
  lemma ReverseOnlyRow(row: SegmentRow)
    requires row.fromNode.Some? && row.toNode.Some? && row.flow == 2
    ensures |RowEdges(row)| == 1
    ensures RowEdges(row)[0] == Edge(row.toNode.value, row.fromNode.value, row.link, row.cost)
  {
  }

  /** A forward-only row (flow 1) adds exactly one edge, from -> to. */
  lemma ForwardOnlyRow(row: SegmentRow)
    requires row.fromNode.Some? && row.toNode.Some? && row.flow == 1
    ensures |RowEdges(row)| == 1
    ensures RowEdges(row)[0] == Edge(row.fromNode.value, row.toNode.value, row.link, row.cost)
  {
  }

  /** Any other flow code adds both directions, same link and cost. */
  lemma BidirectionalRow(row: SegmentRow)
    requires row.fromNode.Some? && row.toNode.Some? && row.flow != 1 && row.flow != 2
    ensures |RowEdges(row)| == 2
    ensures RowEdges(row)[0] == Edge(row.fromNode.value, row.toNode.value, row.link, row.cost)
    ensures RowEdges(row)[1] == Edge(row.toNode.value, row.fromNode.value, row.link, row.cost)
  {
  }

  /** A row with a missing endpoint adds nothing. */
  lemma MissingEndpointRow(row: SegmentRow)
    requires row.fromNode.None? || row.toNode.None?
    ensures RowEdges(row) == []
  {
  }

  /** Every edge of the arena comes from some row, and every row's edges are in the arena. */
  lemma {:induction false} BuildEdgesFromRows(rows: seq<SegmentRow>, e: Edge)
    ensures e in BuildEdges(rows) <==> exists i :: 0 <= i < |rows| && e in RowEdges(rows[i])
  {
    if rows != [] {
      var n := |rows| - 1;
      var init, last := rows[..n], rows[n];
      assert BuildEdges(rows) == BuildEdges(init) + RowEdges(last);
      BuildEdgesFromRows(init, e);
      assert (exists i :: 0 <= i < |init| && e in RowEdges(init[i]))
         <==> (exists i :: 0 <= i < n && e in RowEdges(rows[i])) by {
        assert forall i :: 0 <= i < n ==> init[i] == rows[i];
      }
    }
  }

  /** The ids, ascending, of the parallel edges u -> v: their keys are their positions here. */
  function ParallelIds(es: seq<Edge>, u: Node, v: Node): (ks: seq<nat>)
    ensures forall j :: 0 <= j < |ks| ==> ks[j] < |es| && es[ks[j]].src == u && es[ks[j]].dst == v
  {
    if es == [] then []
    else
      var n := |es| - 1;
      var init := ParallelIds(es[..n], u, v);
      if es[n].src == u && es[n].dst == v then init + [n] else init
  }

  /** Every u -> v edge is among the parallel ids of (u, v). */
  lemma {:induction false} ParallelIdsComplete(es: seq<Edge>, u: Node, v: Node, i: nat)
    requires i < |es| && es[i].src == u && es[i].dst == v
    ensures i in ParallelIds(es, u, v)
  {
    var n := |es| - 1;
    if i < n {
      ParallelIdsComplete(es[..n], u, v, i);
    }
  }

  predicate Increasing(ks: seq<nat>)
  {
    forall j, j' :: 0 <= j < j' < |ks| ==> ks[j] < ks[j']
  }

  /** Parallel ids are listed in insertion order, so key order is id order. */
  lemma {:induction false} ParallelIdsSorted(es: seq<Edge>, u: Node, v: Node)
    ensures Increasing(ParallelIds(es, u, v))
  {
    if es != [] {
      var n := |es| - 1;
      ParallelIdsSorted(es[..n], u, v);
      var init := ParallelIds(es[..n], u, v);
      assert ParallelIds(es, u, v) == if es[n].src == u && es[n].dst == v then init + [n] else init;
      assert forall j :: 0 <= j < |init| ==> init[j] < n;
      var ks := init + [n];
      forall j, j' | 0 <= j < j' < |ks| ensures ks[j] < ks[j'] {
        assert ks[j] == init[j];
        if j' < |init| {
          assert ks[j'] == init[j'];
        }
      }
    }
  }

  /** The id of key 0 of the pair u -> v (`G[u][v][0]`), if the pair has an edge. */
  function FirstId(es: seq<Edge>, u: Node, v: Node): (r: Option<nat>)
    ensures r.Some? ==> r.value < |es|
  {
    var ks := ParallelIds(es, u, v);
    if ks == [] then None else Some(ks[0])
  }

  /**
   * Key 0 of a pair is its first-inserted edge, and a pair has no key 0
   * exactly when no u -> v edge exists.
   */
  lemma FirstIdSpec(es: seq<Edge>, u: Node, v: Node)
    ensures var r := FirstId(es, u, v);
      r.Some? ==> r.value < |es| && es[r.value].src == u && es[r.value].dst == v &&
                  forall i :: 0 <= i < r.value ==> !(es[i].src == u && es[i].dst == v)
    ensures FirstId(es, u, v).None? <==> forall i :: 0 <= i < |es| ==> !(es[i].src == u && es[i].dst == v)
  {
    var ks := ParallelIds(es, u, v);
    if ks == [] {
      forall i | 0 <= i < |es| && es[i].src == u && es[i].dst == v ensures i in ks {
        ParallelIdsComplete(es, u, v, i);
      }
    } else {
      ParallelIdsSorted(es, u, v);
      forall i | 0 <= i < ks[0] ensures !(es[i].src == u && es[i].dst == v) {
        if es[i].src == u && es[i].dst == v {
          ParallelIdsComplete(es, u, v, i);
        }
      }
    }
  }

  /**
   * The network graph: the edge arena (topology, fixed once built) and the
   * mutable `total` accumulator of every edge, indexed by edge id.
   */
  class MultiGraph {
    var edges: seq<Edge>
    var total: seq<real>

    ghost predicate Valid()
      reads this
    {
      |total| == |edges|
    }

    constructor ()
      ensures Valid() && edges == [] && total == []
    {
      edges, total := [], [];
    }

    /** `add_edge(u, v, link=..., cost=..., total=0)`: a new edge with a zero total. */
    method AddEdge(e: Edge)
      requires Valid()
      modifies this
      ensures Valid()
      ensures edges == old(edges) + [e] && total == old(total) + [0.0]
    {
      edges := edges + [e];
      total := total + [0.0];
    }

    /** `G[u][v][0]['total'] += amount`, once the key-0 id of (u, v) is known. */
    method Increment(id: nat, amount: real)
      requires Valid() && id < |edges|
      modifies this
      ensures Valid() && edges == old(edges)
      ensures total == old(total)[id := old(total)[id] + amount]
    {
      total := total[id := total[id] + amount];
    }
  }

  /** Builds the graph from the segment rows; every edge starts with total 0. */
  method CreateDirectedMultiGraph(rows: seq<SegmentRow>) returns (g: MultiGraph)
    ensures fresh(g) && g.Valid()
    ensures g.edges == BuildEdges(rows)
    ensures forall i :: 0 <= i < |g.total| ==> g.total[i] == 0.0
  {
    g := new MultiGraph();
    var i := 0;
    while i < |rows|
      invariant 0 <= i <= |rows| && g.Valid()
      invariant g.edges == BuildEdges(rows[..i])
      invariant forall j :: 0 <= j < |g.total| ==> g.total[j] == 0.0
    {
      var row := rows[i];
      assert rows[..i + 1][..i] == rows[..i];
      if row.fromNode.Some? && row.toNode.Some? {
        var a, b := row.fromNode.value, row.toNode.value;
        if row.flow == 2 {
          g.AddEdge(Edge(b, a, row.link, row.cost));
        } else if row.flow == 1 {
          g.AddEdge(Edge(a, b, row.link, row.cost));
        } else {
          g.AddEdge(Edge(a, b, row.link, row.cost));
          g.AddEdge(Edge(b, a, row.link, row.cost));
        }
      }
      i := i + 1;
    }
    assert rows[..i] == rows;
  }
}
