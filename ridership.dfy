/**
 * The route and direction loops of RidershipAlgorithm, the whole run from
 * the input rows, and the ledger that `main` builds from the loaded graph.
 */
module Ridership {
  import opened Wrappers
  import opened Fatal
  import opened Graph
  import opened EdgeScan
  import opened RouteIndex
  import opened Metrics
  import opened Subgraph
  import opened Apportion
  import opened Order

  /**
   * What stays fixed for the whole run: the edges, the whole-graph node index,
   * the route -> links index, the loaded route metrics, the edge scan order
   * and the order in which the two directions are visited.
   */
  datatype Run = Run(
    es: seq<Edge>,
    allNodes: map<Link, (Node, Node)>,
    segments: map<Route, seq<Link>>,
    metrics: RouteMetrics,
    scan: seq<nat>,
    dirs: seq<Dir>)

  /** `[dictStops[s] for s in sorted(dictStops.keys())]`. */
  function StopList(stops: map<real, Stop>): (r: seq<Stop>)
    ensures |r| == |SortedKeys(stops.Keys)|
    ensures forall j :: 0 <= j < |r| ==> SortedKeys(stops.Keys)[j] in stops && r[j] == stops[SortedKeys(stops.Keys)[j]]
  {
    SortedKeysSpec(stops.Keys);
    var ks := SortedKeys(stops.Keys);
    seq(|ks|, j requires 0 <= j < |ks| => stops[ks[j]])
  }

  /** The context of direction d of route r with its pruned subgraph. */
  function DirCtx(run: Run, r: Route, sub: View, d: Dir): Ctx
    requires r in run.segments
  {
    var totals := TotalsOf(run.metrics, d, r);
    Ctx(run.es, run.allNodes, run.segments[r], sub, r, d, StopList(StopsOf(run.metrics, d, r)), totals.ons, totals.offs)
  }

  /** `for dir in dictRouteMetrics.keys()`: each direction restarts `total` at 0 and keeps everything else. */
  function RouteDirs(run: Run, sp: Oracle, r: Route, sub: View, ds: seq<Dir>, w: Walk): (res: Result<Walk, Abort>)
    requires r in run.segments && |w.loads| == |run.es|
    ensures res.Ok? ==> |res.value.loads| == |run.es|
    decreases |ds|
  {
    if ds == [] then Ok(w)
    else
      match WalkFrom(DirCtx(run, r, sub, ds[0]), sp, w.(total := 0.0), 0)
      case Fail(e) => Fail(e)
      case Ok(w1) => RouteDirs(run, sp, r, sub, ds[1..], w1)
  }

  /** One route: `CreateSubgraph` rebinds the node index to the route-local one, then both directions run. */
  function RouteStep(run: Run, sp: Oracle, r: Route, sub: View, w: Walk): (res: Result<Walk, Abort>)
    requires r in run.segments && InRange(run.es, run.scan) && |w.loads| == |run.es|
    ensures res.Ok? ==> |res.value.loads| == |run.es|
  {
    RouteDirs(run, sp, r, sub, run.dirs, w.(routeNodes := NodeIndex(run.es, run.scan, Some(run.segments[r]))))
  }

  /** The routes visited so far, route q with subgraph subs[q]; the first abort ends the run. */
  function RoutesUpTo(run: Run, sp: Oracle, routes: seq<Route>, subs: seq<View>, w0: Walk): (res: Result<Walk, Abort>)
    requires |subs| == |routes| && InRange(run.es, run.scan) && |w0.loads| == |run.es|
    requires forall q :: 0 <= q < |routes| ==> routes[q] in run.segments
    ensures res.Ok? ==> |res.value.loads| == |run.es|
    decreases |routes|
  {
    if routes == [] then Ok(w0)
    else
      var n := |routes| - 1;
      match RoutesUpTo(run, sp, routes[..n], subs[..n], w0)
      case Fail(e) => Fail(e)
      case Ok(w) => RouteStep(run, sp, routes[n], subs[n], w)
  }

  /** A subgraph CreateSubgraph may return for a route's links (the removed parallel edges are not determined). */
  ghost predicate RouteSubgraph(es: seq<Edge>, scan: seq<nat>, links: seq<Link>, sub: View)
    requires InRange(es, scan)
  {
    sub.nodes == Endpoints(NodeIndex(es, scan, Some(links))) && Pruned(es, Induced(es, sub.nodes), links, sub.ids)
  }

  /** Subgraph q was built for route q, for each of the routes visited so far. */
  ghost predicate SubgraphsFit(run: Run, routes: seq<Route>, subs: seq<View>)
    requires InRange(run.es, run.scan) && |subs| <= |routes|
    requires forall q :: 0 <= q < |routes| ==> routes[q] in run.segments
    decreases |subs|
  {
    subs == [] ||
    (SubgraphsFit(run, routes, subs[..|subs| - 1]) &&
     RouteSubgraph(run.es, run.scan, run.segments[routes[|subs| - 1]], subs[|subs| - 1]))
  }

  /** Subgraphs that fit satisfy RouteSubgraph one route at a time. */
  lemma {:induction false} SubgraphsFitAll(run: Run, routes: seq<Route>, subs: seq<View>)
    requires InRange(run.es, run.scan) && |subs| <= |routes|
    requires forall q :: 0 <= q < |routes| ==> routes[q] in run.segments
    requires SubgraphsFit(run, routes, subs)
    ensures forall q :: 0 <= q < |subs| ==> RouteSubgraph(run.es, run.scan, run.segments[routes[q]], subs[q])
    decreases |subs|
  {
    if subs != [] {
      var n := |subs| - 1;
      SubgraphsFitAll(run, routes, subs[..n]);
      forall q | 0 <= q < n ensures RouteSubgraph(run.es, run.scan, run.segments[routes[q]], subs[q]) {
        assert subs[..n][q] == subs[q];
      }
    }
  }

  /** Every edge total starts at 0. */
  function Zeros(n: nat): (r: seq<real>)
    ensures |r| == n && forall k :: 0 <= k < n ==> r[k] == 0.0
  {
    seq(n, k => 0.0)
  }

  /** The walk before the first route: nothing loaded, no path yet, empty diagnostic lists. */
  function Start(es: seq<Edge>): Walk
  {
    Walk(0.0, Zeros(|es|), map[], None, [], [])
  }

  /** The run as a whole: build the graph and the indexes from the rows, then visit `routes` with subgraphs `subs`. */
  function Apportioned(segmentRows: seq<SegmentRow>, routeRows: seq<RouteRow>, metricRows: seq<MetricRow>,
                       scan: seq<nat>, routes: seq<Route>, dirs: seq<Dir>, sp: Oracle, subs: seq<View>): Result<Walk, Abort>
    requires InRange(BuildEdges(segmentRows), scan) && |subs| == |routes|
    requires forall q :: 0 <= q < |routes| ==> routes[q] in RouteSegments(routeRows)
  {
    var es := BuildEdges(segmentRows);
    var loaded := Load(metricRows);
    if loaded.Fail? then Fail(loaded.error)
    else
      var run := Run(es, NodeIndex(es, scan, None), RouteSegments(routeRows), loaded.value, scan, dirs);
      RoutesUpTo(run, sp, routes, subs, Start(es))
  }

  /** The direction loop of one route. */
  method ApportionRoute(g: MultiGraph, run: Run, sp: Oracle, r: Route, sub: View, w0: Walk) returns (res: Result<Walk, Abort>)
    requires r in run.segments && g.Valid() && g.edges == run.es && g.total == w0.loads
    modifies g
    ensures g.Valid() && g.edges == old(g.edges)
    ensures res == RouteDirs(run, sp, r, sub, run.dirs, w0)
    ensures res.Ok? ==> g.total == res.value.loads
  {
    var w := w0;
    var j := 0;
    while j < |run.dirs|
      invariant 0 <= j <= |run.dirs|
      invariant g.Valid() && g.edges == run.es && g.total == w.loads
      invariant RouteDirs(run, sp, r, sub, run.dirs[j..], w) == RouteDirs(run, sp, r, sub, run.dirs, w0)
    {
      assert run.dirs[j..][1..] == run.dirs[j + 1..];
      var d := run.dirs[j];
      var dictStops := StopsOf(run.metrics, d, r);
      var totals := TotalsOf(run.metrics, d, r);
      var c := Ctx(run.es, run.allNodes, run.segments[r], sub, r, d, StopList(dictStops), totals.ons, totals.offs);
      var out := ApportionDirection(g, c, sp, w.(total := 0.0));
      if out.Fail? {
        return Fail(out.error);
      }
      w := out.value;
      j := j + 1;
    }
    return Ok(w);
  }

  /**
   * RidershipAlgorithm: build the graph, the route index, the route metrics
   * and the whole-graph node index, then visit every route. Returns the loaded
   * graph and the bad-data and missing-link lists, or the abort. `subs` are
   * the subgraphs of the routes visited.
   */
  method RidershipAlgorithm(segmentRows: seq<SegmentRow>, routeRows: seq<RouteRow>, metricRows: seq<MetricRow>,
                            scan: seq<nat>, routes: seq<Route>, dirs: seq<Dir>, sp: Oracle)
    returns (res: Result<(MultiGraph, seq<(Route, Dir)>, seq<(Route, Dir)>), Abort>, ghost subs: seq<View>)
    requires IsEdgeScan(BuildEdges(segmentRows), scan)
    requires forall q :: 0 <= q < |routes| ==> routes[q] in RouteSegments(routeRows)
    requires forall r :: r in RouteSegments(routeRows) ==> r in routes
    requires forall p, q :: 0 <= p < q < |routes| ==> routes[p] != routes[q]
    requires dirs == [Inbound, Outbound] || dirs == [Outbound, Inbound]
    ensures |subs| <= |routes|
    ensures forall q :: 0 <= q < |subs| ==> RouteSubgraph(BuildEdges(segmentRows), scan, RouteSegments(routeRows)[routes[q]], subs[q])
    ensures var spec := Apportioned(segmentRows, routeRows, metricRows, scan, routes[..|subs|], dirs, sp, subs);
      (res.Ok? <==> spec.Ok?) && (res.Fail? ==> res.error == spec.error) &&
      (res.Ok? ==> |subs| == |routes| && fresh(res.value.0) && res.value.0.Valid() &&
                   res.value.0.edges == BuildEdges(segmentRows) && res.value.0.total == spec.value.loads &&
                   res.value.1 == spec.value.bad && res.value.2 == spec.value.missing)
  {
    subs := [];
    var g := CreateDirectedMultiGraph(segmentRows);
    var segments := SubgraphDataLookup(routeRows);
    var loaded := RouteDataLookup(metricRows);
    if loaded.Fail? {
      return Fail(loaded.error), subs;
    }
    var allNodes := NodeLookup(g, scan);
    var run := Run(g.edges, allNodes, segments, loaded.value, scan, dirs);
    var out;
    out, subs := VisitRoutes(g, run, sp, routes);
    SubgraphsFitAll(run, routes, subs);
    if out.Fail? {
      return Fail(out.error), subs;
    }
    res := Ok((g, out.value.bad, out.value.missing));
  }

  /** `for r in dictRouteSegments.keys()`: CreateSubgraph, then the direction loop, route after route. */
  method VisitRoutes(g: MultiGraph, run: Run, sp: Oracle, routes: seq<Route>) returns (res: Result<Walk, Abort>, ghost subs: seq<View>)
    requires g.Valid() && g.edges == run.es && g.total == Start(run.es).loads && InRange(run.es, run.scan)
    requires forall q :: 0 <= q < |routes| ==> routes[q] in run.segments
    modifies g
    ensures g.Valid() && g.edges == old(g.edges)
    ensures |subs| <= |routes| && SubgraphsFit(run, routes, subs)
    ensures res == RoutesUpTo(run, sp, routes[..|subs|], subs, Start(run.es))
    ensures res.Ok? ==> |subs| == |routes| && g.total == res.value.loads
  {
    subs := [];
    var w := Start(g.edges);
    var j := 0;
    while j < |routes|
      invariant 0 <= j <= |routes| && |subs| == j
      invariant g.Valid() && g.edges == run.es && g.total == w.loads
      invariant SubgraphsFit(run, routes, subs)
      invariant RoutesUpTo(run, sp, routes[..j], subs, Start(run.es)) == Ok(w)
    {
      var out;
      out, subs := VisitRoute(g, run, sp, routes, j, w, subs);
      if out.Fail? {
        return Fail(out.error), subs;
      }
      w := out.value;
      j := j + 1;
    }
    assert routes[..j] == routes;
    res := Ok(w);
  }

  /** Unfolds the route fold by its last route, when the earlier routes completed with walk w. */
  lemma RoutesUpToStep(run: Run, sp: Oracle, routes: seq<Route>, subs: seq<View>, w0: Walk, w: Walk)
    requires |subs| == |routes| > 0 && InRange(run.es, run.scan) && |w0.loads| == |run.es|
    requires forall q :: 0 <= q < |routes| ==> routes[q] in run.segments
    requires RoutesUpTo(run, sp, routes[..|routes| - 1], subs[..|subs| - 1], w0) == Ok(w)
    ensures RoutesUpTo(run, sp, routes, subs, w0) == RouteStep(run, sp, routes[|routes| - 1], subs[|subs| - 1], w)
  {
  }

  /** Route j: CreateSubgraph, a fresh route-local node index, then the direction loop. */
  method VisitRoute(g: MultiGraph, run: Run, sp: Oracle, routes: seq<Route>, j: nat, w: Walk, ghost prev: seq<View>)
    returns (res: Result<Walk, Abort>, ghost subs: seq<View>)
    requires InRange(run.es, run.scan) && j < |routes| && |prev| == j
    requires forall q :: 0 <= q < |routes| ==> routes[q] in run.segments
    requires g.Valid() && g.edges == run.es && g.total == w.loads
    requires SubgraphsFit(run, routes, prev) && RoutesUpTo(run, sp, routes[..j], prev, Start(run.es)) == Ok(w)
    modifies g
    ensures g.Valid() && g.edges == old(g.edges)
    ensures |subs| == j + 1 && SubgraphsFit(run, routes, subs)
    ensures res == RoutesUpTo(run, sp, routes[..j + 1], subs, Start(run.es))
    ensures res.Ok? ==> g.total == res.value.loads
  {
    var routeNodes, sub := CreateSubgraph(g, run.segments[routes[j]], run.scan);
    subs := prev + [sub];
    assert routes[..j + 1][..j] == routes[..j] && subs[..j] == prev;
    RoutesUpToStep(run, sp, routes[..j + 1], subs, Start(run.es), w);
    res := ApportionRoute(g, run, sp, routes[j], sub, w.(routeNodes := routeNodes));
  }

  /** `dd[link] = total` for every key of every yielded edge's pair: the last write per link wins. */
  function Ledger(es: seq<Edge>, loads: seq<real>, scan: seq<nat>): map<Link, real>
    requires |loads| == |es| && InRange(es, scan)
  {
    ScanWrite(map[], es, loads, scan, None)
  }

  /** The value written back for a street's link: its ledger entry, or 0 when it has none. */
  function Riders(ledger: map<Link, real>, link: Link): (r: real)
    ensures link in ledger ==> r == ledger[link]
    ensures link !in ledger ==> r == 0.0
  {
    if link in ledger then ledger[link] else 0.0
  }

  /** The run's final step, `main`: run the algorithm, then build the ledger from the loaded graph. */
  method ApplyRiders(segmentRows: seq<SegmentRow>, routeRows: seq<RouteRow>, metricRows: seq<MetricRow>,
                     scan: seq<nat>, routes: seq<Route>, dirs: seq<Dir>, sp: Oracle)
    returns (res: Result<map<Link, real>, Abort>, ghost subs: seq<View>)
    requires IsEdgeScan(BuildEdges(segmentRows), scan)
    requires forall q :: 0 <= q < |routes| ==> routes[q] in RouteSegments(routeRows)
    requires forall r :: r in RouteSegments(routeRows) ==> r in routes
    requires forall p, q :: 0 <= p < q < |routes| ==> routes[p] != routes[q]
    requires dirs == [Inbound, Outbound] || dirs == [Outbound, Inbound]
    ensures |subs| <= |routes|
    ensures forall q :: 0 <= q < |subs| ==> RouteSubgraph(BuildEdges(segmentRows), scan, RouteSegments(routeRows)[routes[q]], subs[q])
    ensures var spec := Apportioned(segmentRows, routeRows, metricRows, scan, routes[..|subs|], dirs, sp, subs);
      (res.Ok? <==> spec.Ok?) && (res.Fail? ==> res.error == spec.error) &&
      (res.Ok? ==> |subs| == |routes| && res.value == Ledger(BuildEdges(segmentRows), spec.value.loads, scan))
  {
    var out;
    out, subs := RidershipAlgorithm(segmentRows, routeRows, metricRows, scan, routes, dirs, sp);
    if out.Fail? {
      return Fail(out.error), subs;
    }
    var g := out.value.0;
    var dd := ScanInto(g.edges, g.total, scan, None);
    res := Ok(dd);
  }

  /** The ledger holds exactly the links some edge carries. */
  lemma LedgerKeys(es: seq<Edge>, loads: seq<real>, scan: seq<nat>, l: Link)
    requires |loads| == |es| && IsEdgeScan(es, scan)
    ensures l in Ledger(es, loads, scan) <==> exists i :: 0 <= i < |es| && es[i].link == l
  {
    ScanWriteLast(map[], es, loads, scan, None, l);
    BlocksCarryLinks(es, scan, l);
  }

  /**
   * A link's ledger entry is the total of ONE edge carrying it: the last key
   * carrying it within the last yielded edge whose pair carries it. Totals of
   * several edges with the same link are overwritten, not summed.
   */
  lemma LedgerLast(es: seq<Edge>, loads: seq<real>, scan: seq<nat>, l: Link)
    requires |loads| == |es| && InRange(es, scan) && l in Ledger(es, loads, scan)
    ensures exists p, j :: LastBlock(es, scan, p, l) && LastWrite(es, Block(es, scan[p]), j, l) &&
                           Ledger(es, loads, scan)[l] == loads[Block(es, scan[p])[j]]
  {
    ScanWriteLast(map[], es, loads, scan, None, l);
  }

  /** Two opposite edges of one street with totals 3 and 4: the ledger keeps 4, the later one, not 7. */
  lemma LedgerOverwrites()
    ensures Ledger([Edge(1, 2, Some(7), 1.0), Edge(2, 1, Some(7), 1.0)], [3.0, 4.0], [0, 1]) == map[Some(7) := 4.0]
  {
    var es := [Edge(1, 2, Some(7), 1.0), Edge(2, 1, Some(7), 1.0)];
    assert ParallelIds(es, 1, 2) == [0] by {
      assert ParallelIds(es[..1], 1, 2) == [0];
    }
    assert ParallelIds(es, 2, 1) == [1] by {
      assert ParallelIds(es[..1], 2, 1) == [];
    }
    assert Block(es, 0) == [0] && Block(es, 1) == [1];
    var m1 := WriteKeys(map[], es, [3.0, 4.0], [0], None);
    assert m1 == map[Some(7) := 3.0];
    assert WriteKeys(m1, es, [3.0, 4.0], [1], None) == map[Some(7) := 4.0];
  }

  /**
   * The value written back for a street's link: 0 when no edge carries the
   * link, otherwise the total of an edge carrying it.
   */
  lemma RidersWritten(es: seq<Edge>, loads: seq<real>, scan: seq<nat>, l: Link)
    requires |loads| == |es| && IsEdgeScan(es, scan)
    ensures (forall i :: 0 <= i < |es| ==> es[i].link != l) ==> Riders(Ledger(es, loads, scan), l) == 0.0
    ensures (exists i :: 0 <= i < |es| && es[i].link == l) ==>
      exists i :: 0 <= i < |es| && es[i].link == l && Riders(Ledger(es, loads, scan), l) == loads[i]
  {
    LedgerKeys(es, loads, scan, l);
    if l in Ledger(es, loads, scan) {
      LedgerLast(es, loads, scan, l);
      var p, j :| LastBlock(es, scan, p, l) && LastWrite(es, Block(es, scan[p]), j, l) &&
                  Ledger(es, loads, scan)[l] == loads[Block(es, scan[p])[j]];
      var i := Block(es, scan[p])[j];
      assert es[i].link == l;
    }
  }

  /** A direction's context inherits non-negative counts and totals from the metrics. */
  lemma DirCtxNonNeg(run: Run, r: Route, sub: View, d: Dir)
    requires r in run.segments && NonNegMetrics(run.metrics)
    ensures NonNegStops(DirCtx(run, r, sub, d))
    ensures DirCtx(run, r, sub, d).totalOn >= 0 && DirCtx(run, r, sub, d).totalOff >= 0
  {
    var c := DirCtx(run, r, sub, d);
    var stops := StopsOf(run.metrics, d, r);
    forall j | 0 <= j < |c.stops| ensures c.stops[j].ons >= 0 && c.stops[j].offs >= 0 {
      var ks := SortedKeys(stops.Keys);
      assert ks[j] in stops && c.stops[j] == stops[ks[j]];
    }
  }

  /** With non-negative counts, the directions of a route only add to edge loads. */
  lemma {:induction false} RouteDirsMonotone(run: Run, sp: Oracle, r: Route, sub: View, ds: seq<Dir>, w: Walk)
    requires r in run.segments && |w.loads| == |run.es| && NonNegMetrics(run.metrics)
    ensures RouteDirs(run, sp, r, sub, ds, w).Ok? ==>
      forall e :: 0 <= e < |run.es| ==> w.loads[e] <= RouteDirs(run, sp, r, sub, ds, w).value.loads[e]
    decreases |ds|
  {
    if ds != [] {
      var c := DirCtx(run, r, sub, ds[0]);
      DirCtxNonNeg(run, r, sub, ds[0]);
      WalkMonotone(c, sp, w.(total := 0.0), 0);
      var out := WalkFrom(c, sp, w.(total := 0.0), 0);
      if out.Ok? {
        RouteDirsMonotone(run, sp, r, sub, ds[1..], out.value);
      }
    }
  }

  /** With non-negative counts, the routes only add to edge loads. */
  lemma {:induction false} RoutesMonotone(run: Run, sp: Oracle, routes: seq<Route>, subs: seq<View>, w0: Walk)
    requires |subs| == |routes| && InRange(run.es, run.scan) && |w0.loads| == |run.es| && NonNegMetrics(run.metrics)
    requires forall q :: 0 <= q < |routes| ==> routes[q] in run.segments
    ensures RoutesUpTo(run, sp, routes, subs, w0).Ok? ==>
      forall e :: 0 <= e < |run.es| ==> w0.loads[e] <= RoutesUpTo(run, sp, routes, subs, w0).value.loads[e]
    decreases |routes|
  {
    if routes != [] {
      var n := |routes| - 1;
      RoutesMonotone(run, sp, routes[..n], subs[..n], w0);
      var prev := RoutesUpTo(run, sp, routes[..n], subs[..n], w0);
      if prev.Ok? {
        var w := prev.value;
        RouteDirsMonotone(run, sp, routes[n], subs[n], run.dirs, w.(routeNodes := NodeIndex(run.es, run.scan, Some(run.segments[routes[n]]))));
      }
    }
  }

  /** With non-negative counts in every ridership record, every edge total of a completed run is non-negative. */
  lemma LoadsNonNeg(segmentRows: seq<SegmentRow>, routeRows: seq<RouteRow>, metricRows: seq<MetricRow>,
                    scan: seq<nat>, routes: seq<Route>, dirs: seq<Dir>, sp: Oracle, subs: seq<View>)
    requires InRange(BuildEdges(segmentRows), scan) && |subs| == |routes|
    requires forall q :: 0 <= q < |routes| ==> routes[q] in RouteSegments(routeRows)
    requires NonNegRows(metricRows)
    ensures var out := Apportioned(segmentRows, routeRows, metricRows, scan, routes, dirs, sp, subs);
      out.Ok? ==> forall e :: 0 <= e < |out.value.loads| ==> out.value.loads[e] >= 0.0
  {
    var es := BuildEdges(segmentRows);
    var loaded := Load(metricRows);
    if loaded.Ok? {
      LoadNonNeg(metricRows);
      var run := Run(es, NodeIndex(es, scan, None), RouteSegments(routeRows), loaded.value, scan, dirs);
      RoutesMonotone(run, sp, routes, subs, Start(es));
    }
  }

  /** The whole-graph rebinding of the node index persists through the route's later directions. */
  lemma {:induction false} FallbackPersistsRoute(run: Run, sp: Oracle, r: Route, sub: View, ds: seq<Dir>, w: Walk)
    requires r in run.segments && |w.loads| == |run.es| && w.routeNodes == run.allNodes
    ensures RouteDirs(run, sp, r, sub, ds, w).Ok? ==> RouteDirs(run, sp, r, sub, ds, w).value.routeNodes == run.allNodes
    decreases |ds|
  {
    if ds != [] {
      var c := DirCtx(run, r, sub, ds[0]);
      FallbackPersists(c, sp, w.(total := 0.0), 0);
      var out := WalkFrom(c, sp, w.(total := 0.0), 0);
      if out.Ok? {
        FallbackPersistsRoute(run, sp, r, sub, ds[1..], out.value);
      }
    }
  }
}
