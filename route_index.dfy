/** SubgraphDataLookup: the links each route traverses, as route -> list of links. */
module RouteIndex {
  import opened Graph

  type Route = int

  /** One route-membership record (ROUTE_NUM, TLINK_ID). */
  datatype RouteRow = RouteRow(route: Route, link: Link)

  /** The links of route r, in record order, duplicates kept (independent reference). */
  function LinksOf(rows: seq<RouteRow>, r: Route): seq<Link>
  {
    if rows == [] then []
    else (if rows[0].route == r then [rows[0].link] else []) + LinksOf(rows[1..], r)
  }

  /** `dictRouteSegments[route].append(tlink)` over the records, one at a time. */
  function RouteSegments(rows: seq<RouteRow>): map<Route, seq<Link>>
  {
    if rows == [] then map[]
    else
      var m := RouteSegments(rows[..|rows| - 1]);
      var row := rows[|rows| - 1];
      m[row.route := (if row.route in m then m[row.route] else []) + [row.link]]
  }

  lemma {:induction false} LinksOfSnoc(rows: seq<RouteRow>, row: RouteRow, r: Route)
    ensures LinksOf(rows + [row], r) == LinksOf(rows, r) + (if row.route == r then [row.link] else [])
  {
    if rows != [] {
      assert (rows + [row])[1..] == rows[1..] + [row];
      LinksOfSnoc(rows[1..], row, r);
    }
  }

  /**
   * The index has an entry exactly for the routes that occur, and each entry
   * lists that route's links in record order.
   */
  lemma {:induction false} RouteSegmentsExact(rows: seq<RouteRow>, r: Route)
    ensures r in RouteSegments(rows) <==> exists i :: 0 <= i < |rows| && rows[i].route == r
    ensures r in RouteSegments(rows) ==> RouteSegments(rows)[r] == LinksOf(rows, r)
    ensures r !in RouteSegments(rows) ==> LinksOf(rows, r) == []
  {
    if rows != [] {
      var init, row := rows[..|rows| - 1], rows[|rows| - 1];
      assert rows == init + [row];
      RouteSegmentsExact(init, r);
      LinksOfSnoc(init, row, r);
      if exists i :: 0 <= i < |init| && init[i].route == r {
        var i :| 0 <= i < |init| && init[i].route == r;
        assert rows[i].route == r;
      }
      if exists i :: 0 <= i < |rows| && rows[i].route == r {
        var i :| 0 <= i < |rows| && rows[i].route == r;
        if i < |init| {
          assert init[i].route == r;
        }
      }
    }
  }

  /** A link is listed for a route exactly when some record pairs them. */
  lemma {:induction false} LinksOfMember(rows: seq<RouteRow>, r: Route, l: Link)
    ensures l in LinksOf(rows, r) <==> RouteRow(r, l) in rows
  {
    if rows != [] {
      LinksOfMember(rows[1..], r, l);
      assert rows == [rows[0]] + rows[1..];
    }
  }

  /** The source's loop over the membership records. */
  method SubgraphDataLookup(rows: seq<RouteRow>) returns (m: map<Route, seq<Link>>)
    ensures m == RouteSegments(rows)
  {
    m := map[];
    var i := 0;
    while i < |rows|
      invariant 0 <= i <= |rows|
      invariant m == RouteSegments(rows[..i])
    {
      assert rows[..i + 1][..i] == rows[..i];
      var row := rows[i];
      var links := if row.route in m then m[row.route] else [];
      m := m[row.route := links + [row.link]];
      i := i + 1;
    }
    assert rows[..i] == rows;
  }
}
