/** GetTLINK: a node path back to link ids, disambiguating parallel edges. */
module Links {
  import opened Wrappers
  import opened Fatal
  import opened Graph
  import opened EdgeScan

  /** GetTLINK's starting value `tlink = 0`, which also stands for "no route link found". */
  const Unset: Link := Some(0)

  /** The link of the last key whose link is on the route, or the sentinel Unset. */
  function RouteChoice(es: seq<Edge>, ks: seq<nat>, routeLinks: seq<Link>): Link
    requires InRange(es, ks)
  {
    if ks == [] then Unset
    else
      var k := ks[|ks| - 1];
      if es[k].link in routeLinks then es[k].link else RouteChoice(es, ks[..|ks| - 1], routeLinks)
  }

  /** The running (cost, tlink) of the cheapest-edge loop, started at (c0, l0). */
  function CheapScan(es: seq<Edge>, ks: seq<nat>, c0: real, l0: Link): (real, Link)
    requires InRange(es, ks)
  {
    if ks == [] then (c0, l0)
    else
      var k := ks[|ks| - 1];
      var prev := CheapScan(es, ks[..|ks| - 1], c0, l0);
      if es[k].cost <= prev.0 then (es[k].cost, es[k].link) else prev
  }

  /** The link chosen for the node pair (u, v); None when `G` has no u -> v edge. */
  function ChooseLink(es: seq<Edge>, u: Node, v: Node, routeLinks: seq<Link>): Option<Link>
  {
    var ks := ParallelIds(es, u, v);
    if ks == [] then None
    else
      var t := RouteChoice(es, ks, routeLinks);
      if t == Unset then Some(CheapScan(es, ks, es[ks[0]].cost, Unset).1) else Some(t)
  }

  /** The route choice is the link of the last key on the route, or Unset when there is none. */
  lemma {:induction false} RouteChoiceLast(es: seq<Edge>, ks: seq<nat>, routeLinks: seq<Link>)
    requires InRange(es, ks)
    ensures (forall j :: 0 <= j < |ks| ==> es[ks[j]].link !in routeLinks) ==> RouteChoice(es, ks, routeLinks) == Unset
    ensures (exists j :: 0 <= j < |ks| && es[ks[j]].link in routeLinks) ==>
      exists j :: 0 <= j < |ks| && es[ks[j]].link in routeLinks && RouteChoice(es, ks, routeLinks) == es[ks[j]].link &&
                  forall j' :: j < j' < |ks| ==> es[ks[j']].link !in routeLinks
  {
    if ks != [] {
      var n := |ks| - 1;
      var init := ks[..n];
      RouteChoiceLast(es, init, routeLinks);
      assert forall j :: 0 <= j < n ==> init[j] == ks[j];
    }
  }

  /**
   * Started on the first key's cost, the cheapest-edge loop ends on a
   * minimum cost and the link of the LAST key with that cost (ties go to the
   * later key, because the comparison is `<=`).
   */
  lemma {:induction false} CheapScanMin(es: seq<Edge>, ks: seq<nat>, c0: real, l0: Link)
    requires InRange(es, ks) && ks != [] && c0 == es[ks[0]].cost
    ensures var (c, l) := CheapScan(es, ks, c0, l0);
      (forall j :: 0 <= j < |ks| ==> c <= es[ks[j]].cost) &&
      exists j :: 0 <= j < |ks| && es[ks[j]].cost == c && l == es[ks[j]].link &&
                  forall j' :: j < j' < |ks| ==> es[ks[j']].cost > c
  {
    var n := |ks| - 1;
    var init := ks[..n];
    if n == 0 {
      assert CheapScan(es, init, c0, l0) == (c0, l0);
    } else {
      CheapScanMin(es, init, c0, l0);
      assert forall j :: 0 <= j < n ==> init[j] == ks[j];
    }
  }

  /** Key j is the last key of ks whose edge's link is on the route. */
  predicate LastOnRoute(es: seq<Edge>, ks: seq<nat>, routeLinks: seq<Link>, j: int)
    requires InRange(es, ks)
  {
    0 <= j < |ks| && es[ks[j]].link in routeLinks &&
    forall j' :: j < j' < |ks| ==> es[ks[j']].link !in routeLinks
  }

  /** Key j has a minimum cost among ks, and no later key has that cost. */
  predicate LastCheapest(es: seq<Edge>, ks: seq<nat>, j: int)
    requires InRange(es, ks)
  {
    0 <= j < |ks| && (forall j' :: 0 <= j' < |ks| ==> es[ks[j]].cost <= es[ks[j']].cost) &&
    forall j' :: j < j' < |ks| ==> es[ks[j']].cost > es[ks[j]].cost
  }

  /**
   * GetTLINK's choice per node pair: no link exactly when `G` has no u -> v
   * edge; the link of the last parallel edge on the route when that link is
   * non-zero; otherwise the link of the last minimum-cost parallel edge.
   */
  lemma ChooseLinkSpec(es: seq<Edge>, u: Node, v: Node, routeLinks: seq<Link>)
    ensures ChooseLink(es, u, v, routeLinks).None? <==> ParallelIds(es, u, v) == []
    ensures var ks := ParallelIds(es, u, v);
      forall j :: LastOnRoute(es, ks, routeLinks, j) && es[ks[j]].link != Unset ==>
        ChooseLink(es, u, v, routeLinks) == Some(es[ks[j]].link)
    ensures var ks := ParallelIds(es, u, v);
      ks != [] && (forall j :: LastOnRoute(es, ks, routeLinks, j) ==> es[ks[j]].link == Unset) ==>
        exists j :: LastCheapest(es, ks, j) && ChooseLink(es, u, v, routeLinks) == Some(es[ks[j]].link)
  {
    var ks := ParallelIds(es, u, v);
    if ks != [] {
      var t := RouteChoice(es, ks, routeLinks);
      RouteChoiceLast(es, ks, routeLinks);
      forall j | LastOnRoute(es, ks, routeLinks, j)
        ensures t == es[ks[j]].link
      {
        var i :| 0 <= i < |ks| && es[ks[i]].link in routeLinks && t == es[ks[i]].link &&
                 forall j' :: i < j' < |ks| ==> es[ks[j']].link !in routeLinks;
        assert i == j;
      }
      if t == Unset {
        CheapScanMin(es, ks, es[ks[0]].cost, Unset);
        var cl := CheapScan(es, ks, es[ks[0]].cost, Unset);
        var j :| 0 <= j < |ks| && es[ks[j]].cost == cl.0 && cl.1 == es[ks[j]].link &&
                 forall j' :: j < j' < |ks| ==> es[ks[j']].cost > cl.0;
        assert LastCheapest(es, ks, j);
      } else {
        var j :| 0 <= j < |ks| && es[ks[j]].link in routeLinks && t == es[ks[j]].link &&
                 forall j' :: j < j' < |ks| ==> es[ks[j']].link !in routeLinks;
        assert LastOnRoute(es, ks, routeLinks, j);
      }
    }
  }

  /** The first node pair of the path that has no edge in `G`, if any. */
  function FirstGap(es: seq<Edge>, path: seq<Node>): (r: Option<nat>)
    ensures r.Some? ==> r.value + 1 < |path| && ParallelIds(es, path[r.value], path[r.value + 1]) == []
    ensures r.Some? ==> forall i :: 0 <= i < r.value ==> ParallelIds(es, path[i], path[i + 1]) != []
    ensures r.None? ==> forall i :: 0 <= i < |path| - 1 ==> ParallelIds(es, path[i], path[i + 1]) != []
    decreases |path|
  {
    if |path| < 2 then None
    else if ParallelIds(es, path[0], path[1]) == [] then Some(0)
    else match FirstGap(es, path[1..])
      case None => None
      case Some(i) => Some(i + 1)
  }

  /** The links of a node path, one per consecutive pair, or the first pair with no edge. */
  function PathLinks(es: seq<Edge>, path: seq<Node>, routeLinks: seq<Link>): Result<seq<Link>, Abort>
    decreases |path|
  {
    if |path| < 2 then Ok([])
    else match ChooseLink(es, path[0], path[1], routeLinks)
      case None => Fail(NoEdgeBetween(path[0], path[1]))
      case Some(l) =>
        match PathLinks(es, path[1..], routeLinks)
        case Fail(e) => Fail(e)
        case Ok(ls) => Ok([l] + ls)
  }

  /**
   * A path without gaps yields exactly |path| - 1 links, the i-th chosen
   * among the parallel edges of the i-th node pair; otherwise the first gap
   * is reported.
   */
  lemma {:induction false} PathLinksSpec(es: seq<Edge>, path: seq<Node>, routeLinks: seq<Link>)
    ensures FirstGap(es, path).Some? ==>
              PathLinks(es, path, routeLinks) ==
              Fail(NoEdgeBetween(path[FirstGap(es, path).value], path[FirstGap(es, path).value + 1]))
    ensures FirstGap(es, path).None? ==>
              (PathLinks(es, path, routeLinks).Ok? &&
               |PathLinks(es, path, routeLinks).value| == (if |path| == 0 then 0 else |path| - 1) &&
               forall i :: 0 <= i < |PathLinks(es, path, routeLinks).value| ==>
                 Some(PathLinks(es, path, routeLinks).value[i]) == ChooseLink(es, path[i], path[i + 1], routeLinks))
    decreases |path|
  {
    if |path| >= 2 && ParallelIds(es, path[0], path[1]) != [] {
      PathLinksSpec(es, path[1..], routeLinks);
      var tail := path[1..];
      if FirstGap(es, tail).None? {
        var ls := PathLinks(es, tail, routeLinks).value;
        var l := ChooseLink(es, path[0], path[1], routeLinks).value;
        assert PathLinks(es, path, routeLinks) == Ok([l] + ls);
        forall i | 1 <= i < |ls| + 1 ensures ([l] + ls)[i] == ls[i - 1] && path[i] == tail[i - 1] && path[i + 1] == tail[i] {
        }
      }
    }
  }

  /** The loop body for one node pair: the route pass, then the cheapest-edge pass when it found nothing. */
  method PairLink(es: seq<Edge>, u: Node, v: Node, routeLinks: seq<Link>) returns (r: Option<Link>)
    ensures r == ChooseLink(es, u, v, routeLinks)
  {
    var ks := ParallelIds(es, u, v);
    if ks == [] {
      return None;
    }
    var tlink := Unset;
    var j := 0;
    while j < |ks|
      invariant 0 <= j <= |ks| && tlink == RouteChoice(es, ks[..j], routeLinks)
    {
      assert ks[..j + 1][..j] == ks[..j];
      if es[ks[j]].link in routeLinks {
        tlink := es[ks[j]].link;
      }
      j := j + 1;
    }
    assert ks[..j] == ks;
    if tlink == Unset {
      var cost := es[ks[0]].cost;
      j := 0;
      while j < |ks|
        invariant 0 <= j <= |ks| && (cost, tlink) == CheapScan(es, ks[..j], es[ks[0]].cost, Unset)
      {
        assert ks[..j + 1][..j] == ks[..j];
        if es[ks[j]].cost <= cost {
          cost := es[ks[j]].cost;
          tlink := es[ks[j]].link;
        }
        j := j + 1;
      }
      assert ks[..j] == ks;
    }
    r := Some(tlink);
  }

  /**
   * The source's loop: one link per consecutive node pair of the path, chosen
   * among the parallel edges of `G`; a pair without an edge aborts.
   */
  method GetTLINK(g: MultiGraph, path: seq<Node>, routeLinks: seq<Link>) returns (res: Result<seq<Link>, Abort>)
    ensures res == PathLinks(g.edges, path, routeLinks)
  {
    var es := g.edges;
    var links: seq<Link> := [];
    var i := 0;
    while i + 1 < |path|
      invariant 0 <= i && (|path| > 0 ==> i < |path|) && (|path| == 0 ==> i == 0)
      invariant |links| == i
      invariant forall j :: 0 <= j < i ==> Some(links[j]) == ChooseLink(es, path[j], path[j + 1], routeLinks)
    {
      var c := PairLink(es, path[i], path[i + 1], routeLinks);
      if c.None? {
        ChooseLinkNone(es, path, i, routeLinks);
        FirstGapAt(es, path, i);
        PathLinksSpec(es, path, routeLinks);
        return Fail(NoEdgeBetween(path[i], path[i + 1]));
      }
      links := links + [c.value];
      i := i + 1;
    }
    ChooseLinkAll(es, path, routeLinks);
    FirstGapNone(es, path);
    PathLinksSpec(es, path, routeLinks);
    var ls := PathLinks(es, path, routeLinks).value;
    assert |links| == |ls|;
    forall j | 0 <= j < |ls| ensures links[j] == ls[j] {
      assert j < i && Some(links[j]) == ChooseLink(es, path[j], path[j + 1], routeLinks);
      assert Some(ls[j]) == ChooseLink(es, path[j], path[j + 1], routeLinks);
    }
    assert links == ls;
    res := Ok(links);
  }

  lemma ChooseLinkNone(es: seq<Edge>, path: seq<Node>, i: nat, routeLinks: seq<Link>)
    requires i + 1 < |path| && ChooseLink(es, path[i], path[i + 1], routeLinks).None?
    requires forall j :: 0 <= j < i ==> ChooseLink(es, path[j], path[j + 1], routeLinks).Some?
    ensures ParallelIds(es, path[i], path[i + 1]) == []
    ensures forall j :: 0 <= j < i ==> ParallelIds(es, path[j], path[j + 1]) != []
  {
  }

  lemma ChooseLinkAll(es: seq<Edge>, path: seq<Node>, routeLinks: seq<Link>)
    requires forall j :: 0 <= j < |path| - 1 ==> ChooseLink(es, path[j], path[j + 1], routeLinks).Some?
    ensures forall j :: 0 <= j < |path| - 1 ==> ParallelIds(es, path[j], path[j + 1]) != []
  {
  }

  lemma {:induction false} FirstGapAt(es: seq<Edge>, path: seq<Node>, i: nat)
    requires i + 1 < |path| && ParallelIds(es, path[i], path[i + 1]) == []
    requires forall j :: 0 <= j < i ==> ParallelIds(es, path[j], path[j + 1]) != []
    ensures FirstGap(es, path) == Some(i)
  {
    if i > 0 {
      FirstGapAt(es, path[1..], i - 1);
    }
  }

  lemma {:induction false} FirstGapNone(es: seq<Edge>, path: seq<Node>)
    requires forall j :: 0 <= j < |path| - 1 ==> ParallelIds(es, path[j], path[j + 1]) != []
    ensures FirstGap(es, path) == None
    decreases |path|
  {
    if |path| >= 2 {
      FirstGapNone(es, path[1..]);
    }
  }
}
