/**
 * RidershipAlgorithm: the stop-pair recurrence. For every route, every
 * direction and every consecutive pair of stops (in ascending sequence
 * number) the pair is resolved to a list of links, the stop's boardings and
 * alightings are reweighted, and a running load is added to the key-0 edge of
 * the source link's node pair and of every later link of the list.
 *
 * The path search is an oracle `sp`; the state carried between pairs is a
 * `Walk`; the loads live in the graph's `total` field.
 */
module Apportion {
  import opened Wrappers
  import opened Fatal
  import opened Graph
  import opened EdgeScan
  import opened Subgraph
  import opened Links
  import opened Metrics
  import opened Adjust
  import opened RouteIndex

  /** What `nx.shortest_path` yields: a node path, `NetworkXNoPath`, or a `KeyError` for a source outside the graph. */
  datatype PathResult = Found(path: seq<Node>) | NoPath | NodeMissing

  /** The weighted shortest-path search over a view, from a source node to a target node. */
  type Oracle = (View, Node, Node) -> PathResult

  /** A found path starts at s, ends at t, and each step follows an edge of the view. */
  ghost predicate FoundPath(es: seq<Edge>, v: View, s: Node, t: Node, path: seq<Node>)
  {
    |path| > 0 && path[0] == s && path[|path| - 1] == t &&
    forall j :: 0 <= j < |path| - 1 ==>
      exists k :: k in v.ids && k < |es| && es[k].src == path[j] && es[k].dst == path[j + 1]
  }

  /**
   * The contract of the search: a `KeyError` only for a source outside the
   * view, and always for one when the target differs (a search from a node to
   * itself answers `[s]` before looking at the graph); paths follow its edges.
   */
  ghost predicate ValidOracle(sp: Oracle, es: seq<Edge>)
  {
    forall v: View, s: Node, t: Node {:trigger sp(v, s, t)} ::
      (sp(v, s, t).NodeMissing? ==> s !in v.nodes) &&
      (s !in v.nodes && s != t ==> sp(v, s, t).NodeMissing?) &&
      (sp(v, s, t).Found? ==> FoundPath(es, v, s, t, sp(v, s, t).path))
  }

  /**
   * The state carried from pair to pair: the running `total`, the edge loads
   * (by edge id), the current binding of `dictRouteNodes`, the last computed
   * `tlinks` (None before the first path), and the two diagnostic lists.
   */
  datatype Walk = Walk(
    total: real,
    loads: seq<real>,
    routeNodes: map<Link, (Node, Node)>,
    tlinks: Option<seq<Link>>,
    bad: seq<(Route, Dir)>,
    missing: seq<(Route, Dir)>)

  /**
   * One direction of one route: the graph's edges, the whole-graph node index,
   * the route's links and pruned subgraph, the stops in ascending sequence
   * order, and the direction's boarding and alighting totals.
   */
  datatype Ctx = Ctx(
    es: seq<Edge>,
    allNodes: map<Link, (Node, Node)>,
    routeLinks: seq<Link>,
    sub: View,
    route: Route,
    dir: Dir,
    stops: seq<Stop>,
    totalOn: int,
    totalOff: int)

  /** The outcome of locating one stop pair. */
  datatype Resolved =
    | Routed(w: Walk, src: Link, tgt: Link, at: (Node, Node))  // both links located; `at` is the source link's pair
    | Missing(w: Walk)                                          // a link absent from the whole graph too: stop this direction
    | Halted(e: Abort)

  /** The outcome of one stop pair. */
  datatype Step = Next(w: Walk) | Broke(w: Walk) | Aborted(e: Abort)

  /**
   * `d[l][0]` on a `defaultdict(tuple)`: a link with no entry (a null link
   * included, unless some edge carries one) is an IndexError, here None.
   */
  function Lookup(m: map<Link, (Node, Node)>, l: Link): (r: Option<(Node, Node)>)
    ensures r.Some? <==> l in m
    ensures r.Some? ==> r.value == m[l]
  {
    if l in m then Some(m[l]) else None
  }

  /** `if total_on > total_off: total = total_on else: total = total_off`. */
  function Larger(a: int, b: int): (r: real)
    ensures r >= a as real && r >= b as real
    ensures r == a as real || r == b as real
  {
    if a > b then a as real else b as real
  }

  /** After a search: a found path replaces `tlinks` by its links; NoPath keeps the previous ones. */
  function Searched(c: Ctx, w: Walk, p: PathResult, src: Link, tgt: Link, at: (Node, Node)): (r: Resolved)
    ensures r.Routed? ==> r.w.loads == w.loads && r.w.total == w.total && r.w.routeNodes == w.routeNodes
    ensures r.Routed? ==> r.w.bad == w.bad && r.w.missing == w.missing && r.src == src && r.tgt == tgt && r.at == at
    ensures p.Found? && PathLinks(c.es, p.path, c.routeLinks).Ok? ==> r.Routed? && r.w.tlinks == Some(PathLinks(c.es, p.path, c.routeLinks).value)
    ensures !p.Found? ==> r == Routed(w, src, tgt, at)
    ensures !r.Missing?
  {
    match p
    case Found(path) =>
      var ls := PathLinks(c.es, path, c.routeLinks);
      if ls.Fail? then Halted(ls.error) else Routed(w.(tlinks := Some(ls.value)), src, tgt, at)
    case _ => Routed(w, src, tgt, at)
  }

  /**
   * Locating a stop pair: first in the current node index and the route's
   * subgraph; when a link is not indexed there, or the subgraph search raises
   * a KeyError, the node index is rebound to the whole-graph one and the whole
   * graph is searched. A link absent from the whole graph too records a missing
   * link (with the rebinding kept).
   */
  function Resolve(c: Ctx, sp: Oracle, w: Walk, eS: Link, eT: Link): (r: Resolved)
    ensures !r.Halted? ==> r.w.loads == w.loads && r.w.total == w.total && r.w.bad == w.bad
    ensures r.Missing? ==> r.w.missing == w.missing + [(c.route, c.dir)] && r.w.routeNodes == c.allNodes && r.w.tlinks == w.tlinks
    ensures r.Routed? ==> r.w.missing == w.missing && eS == r.src && eT == r.tgt
    ensures r.Routed? ==> r.w.routeNodes in {w.routeNodes, c.allNodes} && r.src in r.w.routeNodes && r.at == r.w.routeNodes[r.src]
    ensures r.Missing? ==> Lookup(c.allNodes, eS).None? || Lookup(c.allNodes, eT).None?
  {
    var s := Lookup(w.routeNodes, eS);
    var t := Lookup(w.routeNodes, eT);
    if s.Some? && t.Some? && !sp(c.sub, s.value.0, t.value.0).NodeMissing? then
      Searched(c, w, sp(c.sub, s.value.0, t.value.0), eS, eT, s.value)
    else
      var w1 := w.(routeNodes := c.allNodes);
      var s1 := Lookup(c.allNodes, eS);
      var t1 := Lookup(c.allNodes, eT);
      if s1.None? || t1.None? then Missing(w1.(missing := w1.missing + [(c.route, c.dir)]))
      else
        var p := sp(WholeView(c.es), s1.value.0, t1.value.0);
        if p.NodeMissing? then Halted(UnknownNode(s1.value.0))
        else Searched(c, w1, p, eS, eT, s1.value)
  }

  /** A pair of links not both indexed in `m`: `m[eS][0]` or `m[eT][0]` raises. */
  predicate Unindexed(m: map<Link, (Node, Node)>, eS: Link, eT: Link)
  {
    eS !in m || eT !in m
  }

  /** The first `try` of a stop pair fails: a link is not in the route's node index, or the subgraph lacks the source node. */
  predicate FallsBack(c: Ctx, sp: Oracle, w: Walk, eS: Link, eT: Link)
  {
    Unindexed(w.routeNodes, eS, eT) || sp(c.sub, w.routeNodes[eS].0, w.routeNodes[eT].0).NodeMissing?
  }

  /**
   * The missing-link rule both ways: a pair records a missing link exactly
   * when the first lookup fails and the whole-graph index lacks a link; the
   * node index is rebound to the whole-graph one exactly when the first
   * lookup fails.
   */
  lemma ResolveFallback(c: Ctx, sp: Oracle, w: Walk, eS: Link, eT: Link)
    ensures Resolve(c, sp, w, eS, eT).Missing? <==> FallsBack(c, sp, w, eS, eT) && Unindexed(c.allNodes, eS, eT)
    ensures FallsBack(c, sp, w, eS, eT) && !Resolve(c, sp, w, eS, eT).Halted? ==>
      Resolve(c, sp, w, eS, eT).w.routeNodes == c.allNodes
    ensures !FallsBack(c, sp, w, eS, eT) ==> Resolve(c, sp, w, eS, eT).Routed? || Resolve(c, sp, w, eS, eT).Halted?
    ensures !FallsBack(c, sp, w, eS, eT) && !Resolve(c, sp, w, eS, eT).Halted? ==>
      Resolve(c, sp, w, eS, eT).w.routeNodes == w.routeNodes
  {
  }

  /** "Include the source edge and exclude the target edge": prepend the source link if absent, then drop the last link if the target link occurs. */
  function Normalize(tl: seq<Link>, src: Link, tgt: Link): seq<Link>
  {
    var withSrc := if src in tl then tl else [src] + tl;
    if tgt in withSrc then withSrc[..|withSrc| - 1] else withSrc
  }

  /** `path_nodes[1:]`: every link of the list but the first. */
  function Later(tl: seq<Link>): seq<Link>
  {
    if tl == [] then [] else tl[1..]
  }

  /** `G[p[0]][p[1]][0]['total'] += amount` for each link's node pair, in order; an unindexed link aborts. */
  function PathLoads(es: seq<Edge>, allNodes: map<Link, (Node, Node)>, loads: seq<real>, ts: seq<Link>, amount: real): (r: Result<seq<real>, Abort>)
    requires |loads| == |es|
    ensures r.Ok? ==> |r.value| == |es|
    decreases |ts|
  {
    if ts == [] then Ok(loads)
    else if ts[0] !in allNodes then Fail(UnindexedLink(ts[0]))
    else
      var (u, v) := allNodes[ts[0]];
      var k := FirstId(es, u, v);
      if k.None? then Fail(NoEdgeBetween(u, v))
      else PathLoads(es, allNodes, loads[k.value := loads[k.value] + amount], ts[1..], amount)
  }

  /**
   * One stop pair i: locate it, then apply the source stop's load along the
   * links found.
   */
  function PairStep(c: Ctx, sp: Oracle, w: Walk, i: nat): (r: Step)
    requires i + 1 < |c.stops| && |w.loads| == |c.es|
    ensures !r.Aborted? ==> |r.w.loads| == |c.es|
  {
    match Resolve(c, sp, w, c.stops[i].link, c.stops[i + 1].link)
    case Halted(e) => Aborted(e)
    case Missing(w1) => Broke(w1)
    case Routed(w1, eS, eT, at) => Apply(c, w1, i, eS, eT, at)
  }

  /**
   * A located pair: normalise `tlinks` (none yet is fatal), reweight the
   * source stop, add the running total to the key-0 edge of the source link's
   * pair `at`, clamp or subtract the alightings, and add the new total along
   * the later links.
   */
  function Apply(c: Ctx, w: Walk, i: nat, eS: Link, eT: Link, at: (Node, Node)): (r: Step)
    requires i < |c.stops| && |w.loads| == |c.es|
    ensures !r.Aborted? ==> r.Next? && |r.w.loads| == |c.es|
  {
    if w.tlinks.None? then Aborted(NoPreviousPath)
    else
      var src := c.stops[i];
      var tl := Normalize(w.tlinks.value, eS, eT);
      var adj := AdjustRidership(src.ons, src.offs, c.totalOn, c.totalOff);
      if adj.Fail? then Aborted(adj.error)
      else
        var (aOn, aOff) := adj.value;
        var t0 := if i == 0 then w.total + aOn + aOff else w.total + aOn;
        var k := FirstId(c.es, at.0, at.1);
        if k.None? then Aborted(NoEdgeBetween(at.0, at.1))
        else Carry(c, w, tl, t0, aOff, k.value)
  }

  /**
   * The loads of a located pair: total t0 on edge k, then the clamped or
   * reduced total along the later links of `tl`.
   */
  function Carry(c: Ctx, w: Walk, tl: seq<Link>, t0: real, aOff: real, k: nat): (r: Step)
    requires k < |w.loads| == |c.es|
    ensures !r.Aborted? ==> r.Next? && |r.w.loads| == |c.es|
  {
    var t1 := if t0 < aOff then Larger(c.totalOn, c.totalOff) else t0 - aOff;
    var along := PathLoads(c.es, c.allNodes, w.loads[k := w.loads[k] + t0], Later(tl), t1);
    if along.Fail? then Aborted(along.error)
    else
      var bad := if t0 < aOff then w.bad + [(c.route, c.dir)] else w.bad;
      Next(w.(total := t1, loads := along.value, tlinks := Some(tl), bad := bad))
  }

  /** The stop loop from pair i on: a missing link ends the direction, an abort ends the run. */
  function WalkFrom(c: Ctx, sp: Oracle, w: Walk, i: nat): (r: Result<Walk, Abort>)
    requires |w.loads| == |c.es|
    ensures r.Ok? ==> |r.value.loads| == |c.es|
    decreases |c.stops| - i
  {
    if i + 1 >= |c.stops| then Ok(w)
    else
      match PairStep(c, sp, w, i)
      case Aborted(e) => Fail(e)
      case Broke(w1) => Ok(w1)
      case Next(w1) => WalkFrom(c, sp, w1, i + 1)
  }

  /** The loop over `path_nodes[1:]`, incrementing the key-0 edge of each link's node pair. */
  method AddAlongPath(g: MultiGraph, allNodes: map<Link, (Node, Node)>, ts: seq<Link>, amount: real) returns (err: Option<Abort>)
    requires g.Valid()
    modifies g
    ensures g.Valid() && g.edges == old(g.edges)
    ensures var spec := PathLoads(old(g.edges), allNodes, old(g.total), ts, amount);
      (err.None? <==> spec.Ok?) && (spec.Ok? ==> g.total == spec.value) && (spec.Fail? ==> err == Some(spec.error))
  {
    err := None;
    ghost var spec := PathLoads(g.edges, allNodes, g.total, ts, amount);
    assert ts[0..] == ts;
    var j := 0;
    while j < |ts|
      invariant 0 <= j <= |ts| && g.Valid() && g.edges == old(g.edges)
      invariant PathLoads(g.edges, allNodes, g.total, ts[j..], amount) == spec
    {
      ghost var rest := ts[j..];
      assert rest[0] == ts[j] && rest[1..] == ts[j + 1..];
      var l := ts[j];
      if l !in allNodes {
        assert spec == Fail(UnindexedLink(l));
        err := Some(UnindexedLink(l));
        return;
      }
      var (u, v) := allNodes[l];
      var k := FirstId(g.edges, u, v);
      if k.None? {
        assert spec == Fail(NoEdgeBetween(u, v));
        err := Some(NoEdgeBetween(u, v));
        return;
      }
      assert spec == PathLoads(g.edges, allNodes, g.total[k.value := g.total[k.value] + amount], ts[j + 1..], amount);
      g.Increment(k.value, amount);
      j := j + 1;
    }
    assert ts[j..] == [];
  }

  /** The two nested `try` blocks that locate a stop pair and search for its path. */
  method ResolvePair(g: MultiGraph, c: Ctx, sp: Oracle, w: Walk, eS: Link, eT: Link) returns (r: Resolved)
    requires g.edges == c.es
    ensures r == Resolve(c, sp, w, eS, eT)
  {
    var s := Lookup(w.routeNodes, eS);
    var t := Lookup(w.routeNodes, eT);
    var p := NodeMissing;
    var w1 := w;
    var at := (0, 0);
    if s.Some? && t.Some? {
      p := sp(c.sub, s.value.0, t.value.0);
      at := s.value;
    }
    if p.NodeMissing? {
      w1 := w.(routeNodes := c.allNodes);
      var s1 := Lookup(c.allNodes, eS);
      var t1 := Lookup(c.allNodes, eT);
      if s1.None? || t1.None? {
        r := Missing(w1.(missing := w1.missing + [(c.route, c.dir)]));
        return;
      }
      p := sp(WholeView(c.es), s1.value.0, t1.value.0);
      if p.NodeMissing? {
        r := Halted(UnknownNode(s1.value.0));
        return;
      }
      at := s1.value;
    }
    if p.Found? {
      var ls := GetTLINK(g, p.path, c.routeLinks);
      if ls.Fail? {
        r := Halted(ls.error);
        return;
      }
      w1 := w1.(tlinks := Some(ls.value));
    }
    r := Routed(w1, eS, eT, at);
  }

  /** The body of the stop loop for pair i. */
  method StopPair(g: MultiGraph, c: Ctx, sp: Oracle, w: Walk, i: nat) returns (st: Step)
    requires i + 1 < |c.stops| && g.Valid() && g.edges == c.es && g.total == w.loads
    modifies g
    ensures g.Valid() && g.edges == old(g.edges)
    ensures st == PairStep(c, sp, w, i)
    ensures !st.Aborted? ==> g.total == st.w.loads
  {
    var res := ResolvePair(g, c, sp, w, c.stops[i].link, c.stops[i + 1].link);
    if res.Halted? {
      st := Aborted(res.e);
    } else if res.Missing? {
      st := Broke(res.w);
    } else {
      st := ApplyPair(g, c, res.w, i, res.src, res.tgt, res.at);
    }
  }

  /** The normalisation of `tlinks` and the increments of one located pair. */
  method ApplyPair(g: MultiGraph, c: Ctx, w: Walk, i: nat, eS: Link, eT: Link, at: (Node, Node)) returns (st: Step)
    requires i < |c.stops| && g.Valid() && g.edges == c.es && g.total == w.loads
    modifies g
    ensures g.Valid() && g.edges == old(g.edges)
    ensures st == Apply(c, w, i, eS, eT, at)
    ensures !st.Aborted? ==> g.total == st.w.loads
  {
    if w.tlinks.None? {
      return Aborted(NoPreviousPath);
    }
    var src := c.stops[i];
    var tl := Normalize(w.tlinks.value, eS, eT);
    var adj := AdjustRidership(src.ons, src.offs, c.totalOn, c.totalOff);
    if adj.Fail? {
      return Aborted(adj.error);
    }
    var (aOn, aOff) := adj.value;
    var total := if i == 0 then w.total + aOn + aOff else w.total + aOn;
    var k := FirstId(g.edges, at.0, at.1);
    if k.None? {
      return Aborted(NoEdgeBetween(at.0, at.1));
    }
    st := CarryPair(g, c, w, tl, total, aOff, k.value);
  }

  /** `G[s][t][0]['total'] += total`, the alightings, and the loop over `path_nodes[1:]`. */
  method CarryPair(g: MultiGraph, c: Ctx, w: Walk, tl: seq<Link>, t0: real, aOff: real, k: nat) returns (st: Step)
    requires k < |w.loads| && g.Valid() && g.edges == c.es && g.total == w.loads
    modifies g
    ensures g.Valid() && g.edges == old(g.edges)
    ensures st == Carry(c, w, tl, t0, aOff, k)
    ensures !st.Aborted? ==> g.total == st.w.loads
  {
    g.Increment(k, t0);
    var total := t0;
    var bad := w.bad;
    if total < aOff {
      bad := bad + [(c.route, c.dir)];
      total := Larger(c.totalOn, c.totalOff);
    } else {
      total := total - aOff;
    }
    var err := AddAlongPath(g, c.allNodes, Later(tl), total);
    if err.Some? {
      return Aborted(err.value);
    }
    st := Next(w.(total := total, loads := g.total, tlinks := Some(tl), bad := bad));
  }

  /** `for i, s in enumerate(lstStops[0:len(lstStops) - 1])`. */
  method ApportionDirection(g: MultiGraph, c: Ctx, sp: Oracle, w0: Walk) returns (res: Result<Walk, Abort>)
    requires g.Valid() && g.edges == c.es && g.total == w0.loads
    modifies g
    ensures g.Valid() && g.edges == old(g.edges)
    ensures res == WalkFrom(c, sp, w0, 0)
    ensures res.Ok? ==> g.total == res.value.loads
  {
    var w := w0;
    var i := 0;
    while i + 1 < |c.stops|
      invariant g.Valid() && g.edges == c.es && g.total == w.loads
      invariant WalkFrom(c, sp, w, i) == WalkFrom(c, sp, w0, 0)
      decreases |c.stops| - i
    {
      var st := StopPair(g, c, sp, w, i);
      if st.Aborted? {
        return Fail(st.e);
      } else if st.Broke? {
        return Ok(st.w);
      }
      w := st.w;
      i := i + 1;
    }
    return Ok(w);
  }

  /** How many links of `ts` have edge e as the key-0 edge of their node pair. */
  function Hits(es: seq<Edge>, allNodes: map<Link, (Node, Node)>, ts: seq<Link>, e: nat): nat
    decreases |ts|
  {
    if ts == [] then 0
    else
      var hit := ts[0] in allNodes && FirstId(es, allNodes[ts[0]].0, allNodes[ts[0]].1) == Some(e);
      (if hit then 1 else 0) + Hits(es, allNodes, ts[1..], e)
  }

  /** The path increments succeed exactly when every link is indexed and its pair has an edge. */
  lemma {:induction false} PathLoadsOk(es: seq<Edge>, allNodes: map<Link, (Node, Node)>, loads: seq<real>, ts: seq<Link>, amount: real)
    requires |loads| == |es|
    ensures PathLoads(es, allNodes, loads, ts, amount).Ok? <==>
      forall j :: 0 <= j < |ts| ==> ts[j] in allNodes && FirstId(es, allNodes[ts[j]].0, allNodes[ts[j]].1).Some?
    decreases |ts|
  {
    if ts != [] && ts[0] in allNodes {
      var k := FirstId(es, allNodes[ts[0]].0, allNodes[ts[0]].1);
      if k.Some? {
        PathLoadsOk(es, allNodes, loads[k.value := loads[k.value] + amount], ts[1..], amount);
        assert forall j :: 1 <= j < |ts| ==> ts[j] == ts[1..][j - 1];
      }
    }
  }

  /** `amount` added n times over. */
  function Repeated(amount: real, n: nat): real
  {
    if n == 0 then 0.0 else Repeated(amount, n - 1) + amount
  }

  /** A non-negative amount repeated is non-negative. */
  lemma {:induction false} RepeatedNonNeg(amount: real, n: nat)
    requires amount >= 0.0
    ensures Repeated(amount, n) >= 0.0
  {
    if n > 0 {
      RepeatedNonNeg(amount, n - 1);
    }
  }

  /** Each edge gains the amount once per link of the path that lands on it. */
  lemma {:induction false} PathLoadsHits(es: seq<Edge>, allNodes: map<Link, (Node, Node)>, loads: seq<real>, ts: seq<Link>, amount: real, e: nat)
    requires |loads| == |es| && e < |es| && PathLoads(es, allNodes, loads, ts, amount).Ok?
    ensures PathLoads(es, allNodes, loads, ts, amount).value[e] == loads[e] + Repeated(amount, Hits(es, allNodes, ts, e))
    decreases |ts|
  {
    if ts != [] {
      var k := FirstId(es, allNodes[ts[0]].0, allNodes[ts[0]].1).value;
      var loads1 := loads[k := loads[k] + amount];
      PathLoadsHits(es, allNodes, loads1, ts[1..], amount, e);
      HitsStep(es, allNodes, ts, e, k);
    }
  }

  /** Unfolding Hits once, for a first link whose key-0 edge is k. */
  lemma HitsStep(es: seq<Edge>, allNodes: map<Link, (Node, Node)>, ts: seq<Link>, e: nat, k: nat)
    requires ts != [] && ts[0] in allNodes && FirstId(es, allNodes[ts[0]].0, allNodes[ts[0]].1) == Some(k)
    ensures Hits(es, allNodes, ts, e) == Hits(es, allNodes, ts[1..], e) + (if e == k then 1 else 0)
  {
  }

  /**
   * The recurrence of one located pair: the first pair seeds the running total
   * with the adjusted boardings and alightings, later pairs add the adjusted
   * boardings; the source pair's key-0 edge gains that total; then a total
   * below the adjusted alightings is bad data and is reset to the larger route
   * total, otherwise the alightings are subtracted; every later link's key-0
   * edge gains the new total.
   */
  lemma PairRecurrence(c: Ctx, w: Walk, i: nat, eS: Link, eT: Link, at: (Node, Node))
    requires i < |c.stops| && |w.loads| == |c.es| && Apply(c, w, i, eS, eT, at).Next?
    ensures var src := c.stops[i];
      var adj := AdjustRidership(src.ons, src.offs, c.totalOn, c.totalOff);
      var w' := Apply(c, w, i, eS, eT, at).w;
      w.tlinks.Some? && adj.Ok? && FirstId(c.es, at.0, at.1).Some? &&
      w'.tlinks == Some(Normalize(w.tlinks.value, eS, eT)) && w'.routeNodes == w.routeNodes && w'.missing == w.missing &&
      var t0 := if i == 0 then w.total + adj.value.0 + adj.value.1 else w.total + adj.value.0;
      (t0 < adj.value.1 ==> w'.total == Larger(c.totalOn, c.totalOff) && w'.bad == w.bad + [(c.route, c.dir)]) &&
      (t0 >= adj.value.1 ==> w'.total == t0 - adj.value.1 && w'.bad == w.bad) &&
      forall e :: 0 <= e < |c.es| ==>
        w'.loads[e] == w.loads[e] + (if FirstId(c.es, at.0, at.1) == Some(e) then t0 else 0.0)
                       + Repeated(w'.total, Hits(c.es, c.allNodes, Later(w'.tlinks.value), e))
  {
    var src := c.stops[i];
    var (aOn, aOff) := AdjustRidership(src.ons, src.offs, c.totalOn, c.totalOff).value;
    var t0 := if i == 0 then w.total + aOn + aOff else w.total + aOn;
    var k := FirstId(c.es, at.0, at.1).value;
    var t1 := if t0 < aOff then Larger(c.totalOn, c.totalOff) else t0 - aOff;
    var tl := Normalize(w.tlinks.value, eS, eT);
    var loads0 := w.loads[k := w.loads[k] + t0];
    assert Apply(c, w, i, eS, eT, at) == Carry(c, w, tl, t0, aOff, k);
    var along := PathLoads(c.es, c.allNodes, loads0, Later(tl), t1);
    assert along.Ok? && Apply(c, w, i, eS, eT, at).w.loads == along.value;
    forall e | 0 <= e < |c.es| {
      PathLoadsHits(c.es, c.allNodes, loads0, Later(tl), t1, e);
    }
  }

  /** The running total stays non-negative when the route totals are. */
  lemma PairTotalNonNeg(c: Ctx, w: Walk, i: nat, eS: Link, eT: Link, at: (Node, Node))
    requires i < |c.stops| && |w.loads| == |c.es| && Apply(c, w, i, eS, eT, at).Next?
    requires c.totalOn >= 0 && c.totalOff >= 0
    ensures Apply(c, w, i, eS, eT, at).w.total >= 0.0
  {
    PairRecurrence(c, w, i, eS, eT, at);
  }

  /** Every stop of the direction has non-negative boardings and alightings. */
  predicate NonNegStops(c: Ctx)
  {
    forall j :: 0 <= j < |c.stops| ==> c.stops[j].ons >= 0 && c.stops[j].offs >= 0
  }

  /** With non-negative counts, one pair only adds to edge loads and leaves a non-negative total. */
  lemma PairMonotone(c: Ctx, w: Walk, i: nat, eS: Link, eT: Link, at: (Node, Node))
    requires i < |c.stops| && |w.loads| == |c.es| && Apply(c, w, i, eS, eT, at).Next?
    requires NonNegStops(c) && c.totalOn >= 0 && c.totalOff >= 0 && w.total >= 0.0
    ensures Apply(c, w, i, eS, eT, at).w.total >= 0.0
    ensures forall e :: 0 <= e < |c.es| ==> w.loads[e] <= Apply(c, w, i, eS, eT, at).w.loads[e]
  {
    var src := c.stops[i];
    PairRecurrence(c, w, i, eS, eT, at);
    AdjustNonNeg(src.ons, src.offs, c.totalOn, c.totalOff);
    var w' := Apply(c, w, i, eS, eT, at).w;
    forall e | 0 <= e < |c.es| ensures w.loads[e] <= w'.loads[e] {
      RepeatedNonNeg(w'.total, Hits(c.es, c.allNodes, Later(w'.tlinks.value), e));
    }
  }

  /** With non-negative counts, a direction only adds to edge loads and ends with a non-negative total. */
  lemma {:induction false} WalkMonotone(c: Ctx, sp: Oracle, w: Walk, i: nat)
    requires |w.loads| == |c.es| && NonNegStops(c) && c.totalOn >= 0 && c.totalOff >= 0 && w.total >= 0.0
    ensures WalkFrom(c, sp, w, i).Ok? ==> WalkFrom(c, sp, w, i).value.total >= 0.0
    ensures WalkFrom(c, sp, w, i).Ok? ==> forall e :: 0 <= e < |c.es| ==> w.loads[e] <= WalkFrom(c, sp, w, i).value.loads[e]
    decreases |c.stops| - i
  {
    if i + 1 < |c.stops| {
      var r := Resolve(c, sp, w, c.stops[i].link, c.stops[i + 1].link);
      if r.Routed? && Apply(c, r.w, i, r.src, r.tgt, r.at).Next? {
        var w1 := Apply(c, r.w, i, r.src, r.tgt, r.at).w;
        PairMonotone(c, r.w, i, r.src, r.tgt, r.at);
        WalkMonotone(c, sp, w1, i + 1);
      }
    }
  }

  /** Once the node index is rebound to the whole-graph one, it stays so for the rest of the direction. */
  lemma {:induction false} FallbackPersists(c: Ctx, sp: Oracle, w: Walk, i: nat)
    requires |w.loads| == |c.es| && w.routeNodes == c.allNodes
    ensures WalkFrom(c, sp, w, i).Ok? ==> WalkFrom(c, sp, w, i).value.routeNodes == c.allNodes
    decreases |c.stops| - i
  {
    if i + 1 < |c.stops| {
      var st := PairStep(c, sp, w, i);
      if st.Next? {
        FallbackPersists(c, sp, st.w, i + 1);
      }
    }
  }

  /**
   * A stop pair breaks off exactly when its first lookup fails and a link is
   * not in the whole-graph index; the direction then ends with the node index
   * rebound, the missing link recorded and no load changed.
   */
  lemma MissingLinkStops(c: Ctx, sp: Oracle, w: Walk, i: nat)
    requires i + 1 < |c.stops| && |w.loads| == |c.es|
    ensures var (eS, eT) := (c.stops[i].link, c.stops[i + 1].link);
      PairStep(c, sp, w, i).Broke? <==> FallsBack(c, sp, w, eS, eT) && Unindexed(c.allNodes, eS, eT)
    ensures PairStep(c, sp, w, i).Broke? ==>
      WalkFrom(c, sp, w, i) == Ok(w.(routeNodes := c.allNodes, missing := w.missing + [(c.route, c.dir)]))
  {
    ResolveFallback(c, sp, w, c.stops[i].link, c.stops[i + 1].link);
  }

  /** A path that follows edges of the graph always converts to one link per step. */
  lemma FoundPathLinks(es: seq<Edge>, v: View, s: Node, t: Node, path: seq<Node>, routeLinks: seq<Link>)
    requires FoundPath(es, v, s, t, path)
    ensures PathLinks(es, path, routeLinks).Ok? && |PathLinks(es, path, routeLinks).value| == |path| - 1
  {
    forall j | 0 <= j < |path| - 1 ensures ParallelIds(es, path[j], path[j + 1]) != [] {
      var k :| k in v.ids && k < |es| && es[k].src == path[j] && es[k].dst == path[j + 1];
      ParallelIdsComplete(es, path[j], path[j + 1], k);
    }
    FirstGapNone(es, path);
    PathLinksSpec(es, path, routeLinks);
  }

  /**
   * With a search that honours its contract and the whole-graph node index of
   * the edges, locating a pair never aborts: whole-graph searches start at a
   * graph node, and found paths convert to links.
   */
  lemma ResolveNeverHalts(c: Ctx, sp: Oracle, w: Walk, eS: Link, eT: Link, scan: seq<nat>)
    requires ValidOracle(sp, c.es) && InRange(c.es, scan) && c.allNodes == NodeIndex(c.es, scan, None)
    ensures !Resolve(c, sp, w, eS, eT).Halted?
  {
    var s := Lookup(w.routeNodes, eS);
    var t := Lookup(w.routeNodes, eT);
    if s.Some? && t.Some? && !sp(c.sub, s.value.0, t.value.0).NodeMissing? {
      OracleAt(sp, c.es, c.sub, s.value.0, t.value.0);
      SearchedNeverHalts(c, w, sp(c.sub, s.value.0, t.value.0), eS, eT, s.value, c.sub, s.value.0, t.value.0);
    } else {
      var s1 := Lookup(c.allNodes, eS);
      var t1 := Lookup(c.allNodes, eT);
      if s1.Some? && t1.Some? {
        IndexedNodeInGraph(c.es, scan, eS);
        OracleAt(sp, c.es, WholeView(c.es), s1.value.0, t1.value.0);
        SearchedNeverHalts(c, w.(routeNodes := c.allNodes), sp(WholeView(c.es), s1.value.0, t1.value.0), eS, eT, s1.value,
                           WholeView(c.es), s1.value.0, t1.value.0);
      }
    }
  }

  /** The search contract at one view, source and target. */
  lemma OracleAt(sp: Oracle, es: seq<Edge>, v: View, s: Node, t: Node)
    requires ValidOracle(sp, es)
    ensures sp(v, s, t).NodeMissing? ==> s !in v.nodes
    ensures s !in v.nodes && s != t ==> sp(v, s, t).NodeMissing?
    ensures sp(v, s, t).Found? ==> FoundPath(es, v, s, t, sp(v, s, t).path)
  {
  }

  /** A search result whose path follows the graph's edges never aborts the pair. */
  lemma SearchedNeverHalts(c: Ctx, w: Walk, p: PathResult, src: Link, tgt: Link, at: (Node, Node), v: View, s: Node, t: Node)
    requires p.Found? ==> FoundPath(c.es, v, s, t, p.path)
    ensures !Searched(c, w, p, src, tgt, at).Halted?
  {
    if p.Found? {
      FoundPathLinks(c.es, v, s, t, p.path, c.routeLinks);
    }
  }

  /** The source node the whole-graph index gives for a link is a node of the graph. */
  lemma IndexedNodeInGraph(es: seq<Edge>, scan: seq<nat>, l: Link)
    requires InRange(es, scan) && l in NodeIndex(es, scan, None)
    ensures NodeIndex(es, scan, None)[l].0 in WholeView(es).nodes
  {
    NodeIndexValue(es, scan, None, l);
  }

  /** A search without a path on the first pair ever located aborts the run: there is no previous path to reuse. */
  lemma NoPathFirst(c: Ctx, sp: Oracle, w: Walk, i: nat)
    requires i + 1 < |c.stops| && |w.loads| == |c.es| && w.tlinks.None?
    requires Resolve(c, sp, w, c.stops[i].link, c.stops[i + 1].link).Routed?
    requires Resolve(c, sp, w, c.stops[i].link, c.stops[i + 1].link).w.tlinks.None?
    ensures PairStep(c, sp, w, i) == Aborted(NoPreviousPath)
  {
  }
}
