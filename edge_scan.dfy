/**
 * Last-writer-wins indexes built by scanning the graph's edges
 * (NodeLookup, the route-local index of CreateSubgraph, and the output ledger).
 *
 * `G.edges()` yields every edge once, in an order the model takes as a
 * parameter `scan` (networkx keeps its adjacency in plain dictionaries, so the
 * order is not fixed by the source). For each yielded edge the source then
 * walks ALL parallel keys of that edge's (u, v) pair, ascending, and
 * overwrites the entry for each key's link.
 */
module EdgeScan {
  import opened Wrappers
  import opened Graph

  /** `scan` lists every edge id of the arena exactly once. */
  ghost predicate IsEdgeScan(es: seq<Edge>, scan: seq<nat>)
  {
    |scan| == |es| && InRange(es, scan) && forall i :: 0 <= i < |es| ==> i in scan
  }

  predicate InRange(es: seq<Edge>, ids: seq<nat>)
  {
    forall j :: 0 <= j < |ids| ==> ids[j] < |es|
  }

  /** Whether a link passes the filter: no filter, or membership in the route's link list. */
  predicate Selected(only: Option<seq<Link>>, l: Link)
  {
    only.None? || l in only.value
  }

  /** The keys walked for one yielded edge: all parallel edges of its pair. */
  function Block(es: seq<Edge>, e: nat): (ks: seq<nat>)
    requires e < |es|
    ensures InRange(es, ks) && e in ks
    ensures forall j :: 0 <= j < |ks| ==> es[ks[j]].src == es[e].src && es[ks[j]].dst == es[e].dst
  {
    ParallelIdsComplete(es, es[e].src, es[e].dst, e);
    ParallelIds(es, es[e].src, es[e].dst)
  }

  /** The endpoint pair of every edge, by id. */
  function Ends(es: seq<Edge>): (r: seq<(Node, Node)>)
    ensures |r| == |es| && forall i :: 0 <= i < |es| ==> r[i] == (es[i].src, es[i].dst)
  {
    seq(|es|, i requires 0 <= i < |es| => (es[i].src, es[i].dst))
  }

  /** Overwrites `m[link(k)] := vals[k]` for each selected key k of `ks`, in order. */
  function WriteKeys<V>(m: map<Link, V>, es: seq<Edge>, vals: seq<V>, ks: seq<nat>, only: Option<seq<Link>>): map<Link, V>
    requires |vals| == |es| && InRange(es, ks)
    decreases |ks|
  {
    if ks == [] then m
    else
      var l := es[ks[0]].link;
      WriteKeys(if Selected(only, l) then m[l := vals[ks[0]]] else m, es, vals, ks[1..], only)
  }

  /** The whole scan: the key writes of every yielded edge, in scan order. */
  function ScanWrite<V>(m: map<Link, V>, es: seq<Edge>, vals: seq<V>, scan: seq<nat>, only: Option<seq<Link>>): map<Link, V>
    requires |vals| == |es| && InRange(es, scan)
    decreases |scan|
  {
    if scan == [] then m
    else ScanWrite(WriteKeys(m, es, vals, Block(es, scan[0]), only), es, vals, scan[1..], only)
  }

  /** Key j of `ks` writes link l. */
  predicate Writes(es: seq<Edge>, ks: seq<nat>, j: int, l: Link)
    requires InRange(es, ks)
  {
    0 <= j < |ks| && es[ks[j]].link == l
  }

  /** Some key of `ks` writes link l. */
  ghost predicate AnyWrites(es: seq<Edge>, ks: seq<nat>, l: Link)
    requires InRange(es, ks)
  {
    exists j :: Writes(es, ks, j, l)
  }

  /** The write of key j is the last one of `ks` to link l. */
  ghost predicate LastWrite(es: seq<Edge>, ks: seq<nat>, j: int, l: Link)
    requires InRange(es, ks)
  {
    Writes(es, ks, j, l) && forall j' :: j < j' < |ks| ==> !Writes(es, ks, j', l)
  }

  /** One block's writes: a selected link ends up holding the value of its last key; other links are untouched. */
  lemma {:induction false} WriteKeysLast<V>(m: map<Link, V>, es: seq<Edge>, vals: seq<V>, ks: seq<nat>, only: Option<seq<Link>>, l: Link)
    requires |vals| == |es| && InRange(es, ks)
    ensures var r := WriteKeys(m, es, vals, ks, only);
      (l in r <==> l in m || (Selected(only, l) && AnyWrites(es, ks, l))) &&
      (!(Selected(only, l) && AnyWrites(es, ks, l)) && l in m ==> r[l] == m[l]) &&
      (Selected(only, l) && AnyWrites(es, ks, l) ==> exists j :: LastWrite(es, ks, j, l) && r[l] == vals[ks[j]])
    decreases |ks|
  {
    if ks != [] {
      var l0 := es[ks[0]].link;
      var m' := if Selected(only, l0) then m[l0 := vals[ks[0]]] else m;
      var tail := ks[1..];
      WriteKeysLast(m', es, vals, tail, only, l);
      var r := WriteKeys(m, es, vals, ks, only);
      assert r == WriteKeys(m', es, vals, tail, only);
      assert forall j :: 1 <= j < |ks| ==> (Writes(es, ks, j, l) <==> Writes(es, tail, j - 1, l));
      assert l0 == l ==> Writes(es, ks, 0, l);
      assert (l in m') <==> (l in m || (Selected(only, l) && l0 == l));
      if AnyWrites(es, tail, l) {
        var j :| Writes(es, tail, j, l);
        assert Writes(es, ks, j + 1, l);
      }
      if Selected(only, l) && AnyWrites(es, ks, l) {
        if AnyWrites(es, tail, l) {
          var j :| LastWrite(es, tail, j, l) && r[l] == vals[tail[j]];
          assert LastWrite(es, ks, j + 1, l);
        } else {
          assert LastWrite(es, ks, 0, l);
        }
      }
    }
  }

  /** Yielded edge p of the scan has a parallel key carrying link l. */
  ghost predicate BlockWrites(es: seq<Edge>, scan: seq<nat>, p: int, l: Link)
    requires InRange(es, scan)
  {
    0 <= p < |scan| && AnyWrites(es, Block(es, scan[p]), l)
  }

  /** Yielded edge p is the last one of the scan whose block carries link l. */
  ghost predicate LastBlock(es: seq<Edge>, scan: seq<nat>, p: int, l: Link)
    requires InRange(es, scan)
  {
    BlockWrites(es, scan, p, l) && forall p' :: p < p' < |scan| ==> !BlockWrites(es, scan, p', l)
  }

  /**
   * The whole scan: a selected link holds the value of the last key carrying
   * it, within the last yielded edge whose block carries it; every other
   * entry of `m` is untouched.
   */
  lemma {:induction false} ScanWriteLast<V>(m: map<Link, V>, es: seq<Edge>, vals: seq<V>, scan: seq<nat>, only: Option<seq<Link>>, l: Link)
    requires |vals| == |es| && InRange(es, scan)
    ensures var r := ScanWrite(m, es, vals, scan, only);
      (l in r <==> l in m || (Selected(only, l) && exists p :: BlockWrites(es, scan, p, l))) &&
      (!(Selected(only, l) && exists p :: BlockWrites(es, scan, p, l)) && l in m ==> r[l] == m[l]) &&
      (Selected(only, l) && (exists p :: BlockWrites(es, scan, p, l)) ==>
         exists p, j :: LastBlock(es, scan, p, l) && LastWrite(es, Block(es, scan[p]), j, l) &&
                        r[l] == vals[Block(es, scan[p])[j]])
    decreases |scan|
  {
    if scan != [] {
      var b := Block(es, scan[0]);
      var m1 := WriteKeys(m, es, vals, b, only);
      var tail := scan[1..];
      WriteKeysLast(m, es, vals, b, only, l);
      ScanWriteLast(m1, es, vals, tail, only, l);
      var r := ScanWrite(m, es, vals, scan, only);
      assert r == ScanWrite(m1, es, vals, tail, only);
      assert forall p :: 1 <= p < |scan| ==> Block(es, scan[p]) == Block(es, tail[p - 1]);
      assert forall p :: 1 <= p < |scan| ==> (BlockWrites(es, scan, p, l) <==> BlockWrites(es, tail, p - 1, l));
      if exists p :: BlockWrites(es, tail, p, l) {
        var p :| BlockWrites(es, tail, p, l);
        assert BlockWrites(es, scan, p + 1, l);
        if Selected(only, l) {
          var p', j :| LastBlock(es, tail, p', l) && LastWrite(es, Block(es, tail[p']), j, l) &&
                       r[l] == vals[Block(es, tail[p'])[j]];
          assert LastBlock(es, scan, p' + 1, l);
        }
      } else {
        if AnyWrites(es, b, l) {
          assert BlockWrites(es, scan, 0, l);
          if Selected(only, l) {
            var j :| LastWrite(es, b, j, l) && m1[l] == vals[b[j]];
            assert LastBlock(es, scan, 0, l);
          }
        }
      }
    }
  }

  /** The source's nested loops: for each yielded edge, for each key of its pair, overwrite. */
  method ScanInto<V>(es: seq<Edge>, vals: seq<V>, scan: seq<nat>, only: Option<seq<Link>>) returns (m: map<Link, V>)
    requires |vals| == |es| && InRange(es, scan)
    ensures m == ScanWrite(map[], es, vals, scan, only)
  {
    m := map[];
    var p := 0;
    while p < |scan|
      invariant 0 <= p <= |scan|
      invariant ScanWrite(m, es, vals, scan[p..], only) == ScanWrite(map[], es, vals, scan, only)
    {
      assert scan[p..][1..] == scan[p + 1..];
      var ks := Block(es, scan[p]);
      ghost var m0 := m;
      var j := 0;
      while j < |ks|
        invariant 0 <= j <= |ks|
        invariant WriteKeys(m, es, vals, ks[j..], only) == WriteKeys(m0, es, vals, ks, only)
      {
        assert ks[j..][1..] == ks[j + 1..];
        var k := ks[j];
        if Selected(only, es[k].link) {
          m := m[es[k].link := vals[k]];
        }
        j := j + 1;
      }
      p := p + 1;
    }
  }

  /** Link -> endpoint pair of the last scanned edge carrying it, restricted to the selected links. */
  function NodeIndex(es: seq<Edge>, scan: seq<nat>, only: Option<seq<Link>>): map<Link, (Node, Node)>
    requires InRange(es, scan)
  {
    ScanWrite(map[], es, Ends(es), scan, only)
  }

  /** Under a full scan, some yielded block carries l exactly when some edge carries l. */
  lemma BlocksCarryLinks(es: seq<Edge>, scan: seq<nat>, l: Link)
    requires IsEdgeScan(es, scan)
    ensures (exists p :: BlockWrites(es, scan, p, l)) <==> exists i :: 0 <= i < |es| && es[i].link == l
  {
    if exists p :: BlockWrites(es, scan, p, l) {
      var p :| BlockWrites(es, scan, p, l);
      var j :| Writes(es, Block(es, scan[p]), j, l);
      assert es[Block(es, scan[p])[j]].link == l;
    }
    if exists i :: 0 <= i < |es| && es[i].link == l {
      var i :| 0 <= i < |es| && es[i].link == l;
      assert i in scan;
      var p :| 0 <= p < |scan| && scan[p] == i;
      var ks := Block(es, scan[p]);
      var j :| 0 <= j < |ks| && ks[j] == i;
      assert Writes(es, ks, j, l);
      assert BlockWrites(es, scan, p, l);
    }
  }

  /** The index holds exactly the selected links that some edge carries. */
  lemma NodeIndexKeys(es: seq<Edge>, scan: seq<nat>, only: Option<seq<Link>>, l: Link)
    requires IsEdgeScan(es, scan)
    ensures l in NodeIndex(es, scan, only) <==> Selected(only, l) && exists i :: 0 <= i < |es| && es[i].link == l
  {
    ScanWriteLast(map[], es, Ends(es), scan, only, l);
    BlocksCarryLinks(es, scan, l);
  }
  /** A null link is a key like any other: when some edge carries one, the whole-graph index has an entry for `None`. */
  lemma NullLinkIndexed(es: seq<Edge>, scan: seq<nat>)
    requires IsEdgeScan(es, scan) && exists i :: 0 <= i < |es| && es[i].link.None?
    ensures None in NodeIndex(es, scan, None)
  {
    NodeIndexKeys(es, scan, None, None);
  }


  /**
   * An indexed link maps to the endpoints of the last yielded edge whose
   * parallel block carries it, which are the endpoints of an edge carrying it.
   */
  lemma NodeIndexValue(es: seq<Edge>, scan: seq<nat>, only: Option<seq<Link>>, l: Link)
    requires InRange(es, scan) && l in NodeIndex(es, scan, only)
    ensures exists p :: LastBlock(es, scan, p, l) && NodeIndex(es, scan, only)[l] == (es[scan[p]].src, es[scan[p]].dst)
    ensures exists i :: 0 <= i < |es| && es[i].link == l && NodeIndex(es, scan, only)[l] == (es[i].src, es[i].dst)
  {
    ScanWriteLast(map[], es, Ends(es), scan, only, l);
    var p, j :| LastBlock(es, scan, p, l) && LastWrite(es, Block(es, scan[p]), j, l) &&
                NodeIndex(es, scan, only)[l] == Ends(es)[Block(es, scan[p])[j]];
    var i := Block(es, scan[p])[j];
    assert es[i].link == l;
  }

  /** NodeLookup: the whole-graph index link -> (u, v). */
  method NodeLookup(g: MultiGraph, scan: seq<nat>) returns (m: map<Link, (Node, Node)>)
    requires InRange(g.edges, scan)
    ensures m == NodeIndex(g.edges, scan, None)
  {
    m := ScanInto(g.edges, Ends(g.edges), scan, None);
  }
}
