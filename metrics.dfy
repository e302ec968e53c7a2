/**
 * RouteDataLookup: per (direction, route) stop maps keyed by sequence number,
 * and running boarding/alighting totals.
 */
module Metrics {
  import opened Wrappers
  import opened Fatal
  import opened Graph
  import opened RouteIndex

  datatype Dir = Inbound | Outbound

  /** One ridership record, fields already typed; an unparseable link is None. */
  datatype MetricRow = MetricRow(route: Route, dir: string, sequence: real, ons: int, offs: int, link: Link)

  /** What the stop map keeps for one sequence number: `[tlink, ons, offs]`. */
  datatype Stop = Stop(link: Link, ons: int, offs: int)

  datatype Totals = Totals(ons: int, offs: int)

  datatype RouteMetrics = RouteMetrics(stops: map<(Dir, Route), map<real, Stop>>, totals: map<(Dir, Route), Totals>)

  predicate IsUpper(c: char)
  {
    'A' <= c <= 'Z'
  }

  /** `c` is the character `lc` itself or, when `lc` is a lower-case letter, its upper-case form. */
  predicate CaseVariant(c: char, lc: char)
  {
    c == lc || ('a' <= lc <= 'z' && c as int == lc as int - 32)
  }

  /** `s` spells `word` with any letters in either case. */
  predicate SpellsIgnoringCase(s: string, word: string)
  {
    |s| == |word| && forall i :: 0 <= i < |s| ==> CaseVariant(s[i], word[i])
  }

  /** ASCII lower-casing, as Python 2's `str.lower`: a case variant of the input with no upper-case letter left. */
  function Lower(s: string): (r: string)
    ensures SpellsIgnoringCase(s, r)
    ensures forall i :: 0 <= i < |r| ==> !IsUpper(r[i])
  {
    seq(|s|, i requires 0 <= i < |s| => if IsUpper(s[i]) then (s[i] as int + 32) as char else s[i])
  }

  /** The direction a record names, if it is one of the two keys of the metrics dictionary. */
  function ParseDir(s: string): Option<Dir>
  {
    var d := Lower(s);
    if d == "inbound" then Some(Inbound) else if d == "outbound" then Some(Outbound) else None
  }

  /** Lower-casing twice is lower-casing once, and a string without upper-case letters is its own lower case. */
  lemma LowerIdempotent(s: string)
    ensures Lower(Lower(s)) == Lower(s)
    ensures (forall i :: 0 <= i < |s| ==> !IsUpper(s[i])) ==> Lower(s) == s
  {
    LowerMatches(Lower(s), Lower(s));
    if forall i :: 0 <= i < |s| ==> !IsUpper(s[i]) {
      LowerMatches(s, s);
    }
  }

  /** A string lower-cases to a word without upper-case letters exactly when it spells that word in any case. */
  lemma {:induction false} LowerMatches(s: string, word: string)
    requires forall i :: 0 <= i < |word| ==> !IsUpper(word[i])
    ensures Lower(s) == word <==> SpellsIgnoringCase(s, word)
  {
    if SpellsIgnoringCase(s, word) {
      forall i | 0 <= i < |s| ensures Lower(s)[i] == word[i] {
        assert CaseVariant(s[i], Lower(s)[i]) && !IsUpper(Lower(s)[i]);
      }
    }
  }

  /**
   * Directions are matched whatever their case: a record is inbound exactly
   * when its direction spells "inbound" in any mix of cases, outbound
   * likewise, and unknown otherwise.
   */
  lemma ParseDirSpec(s: string)
    ensures ParseDir(s) == Some(Inbound) <==> SpellsIgnoringCase(s, "inbound")
    ensures ParseDir(s) == Some(Outbound) <==> SpellsIgnoringCase(s, "outbound")
    ensures ParseDir(s).None? <==> !SpellsIgnoringCase(s, "inbound") && !SpellsIgnoringCase(s, "outbound")
  {
    LowerMatches(s, "inbound");
    LowerMatches(s, "outbound");
  }

  /** A concrete instance: "InBound" is the inbound direction. */
  lemma ParseDirMixedCase()
    ensures ParseDir("InBound") == Some(Inbound)
  {
    ParseDirSpec("InBound");
    assert SpellsIgnoringCase("InBound", "inbound");
  }

  /** The stop map of (d, r); a pair never seen reads as empty (defaultdict). */
  function StopsOf(m: RouteMetrics, d: Dir, r: Route): map<real, Stop>
  {
    if (d, r) in m.stops then m.stops[(d, r)] else map[]
  }

  /** The totals of (d, r); a pair never seen reads as zero (defaultdict(int)). */
  function TotalsOf(m: RouteMetrics, d: Dir, r: Route): Totals
  {
    if (d, r) in m.totals then m.totals[(d, r)] else Totals(0, 0)
  }

  /** Adds one parsed record to the metrics. */
  function AddRow(m: RouteMetrics, d: Dir, row: MetricRow): RouteMetrics
  {
    var key := (d, row.route);
    var t := TotalsOf(m, d, row.route);
    RouteMetrics(m.stops[key := StopsOf(m, d, row.route)[row.sequence := Stop(row.link, row.ons, row.offs)]],
                 m.totals[key := Totals(t.ons + row.ons, t.offs + row.offs)])
  }

  /** The metrics after reading the records in order, or the first unknown direction. */
  function Load(rows: seq<MetricRow>): Result<RouteMetrics, Abort>
  {
    if rows == [] then Ok(RouteMetrics(map[], map[]))
    else
      var prev := Load(rows[..|rows| - 1]);
      var row := rows[|rows| - 1];
      if prev.Fail? then prev
      else match ParseDir(row.dir)
        case None => Fail(UnknownDirection(Lower(row.dir)))
        case Some(d) => Ok(AddRow(prev.value, d, row))
  }

  /** The record belongs to (d, r). */
  predicate Matches(row: MetricRow, d: Dir, r: Route)
  {
    ParseDir(row.dir) == Some(d) && row.route == r
  }

  /** Sum of boardings over every record of (d, r) (independent reference). */
  function SumOns(rows: seq<MetricRow>, d: Dir, r: Route): int
  {
    if rows == [] then 0
    else SumOns(rows[..|rows| - 1], d, r) + (if Matches(rows[|rows| - 1], d, r) then rows[|rows| - 1].ons else 0)
  }

  /** Sum of alightings over every record of (d, r) (independent reference). */
  function SumOffs(rows: seq<MetricRow>, d: Dir, r: Route): int
  {
    if rows == [] then 0
    else SumOffs(rows[..|rows| - 1], d, r) + (if Matches(rows[|rows| - 1], d, r) then rows[|rows| - 1].offs else 0)
  }

  /** Loading aborts exactly when some record has an unknown direction. */
  lemma {:induction false} LoadFails(rows: seq<MetricRow>)
    ensures Load(rows).Fail? <==> exists i :: 0 <= i < |rows| && ParseDir(rows[i].dir).None?
  {
    if rows != [] {
      var init := rows[..|rows| - 1];
      LoadFails(init);
      assert forall i :: 0 <= i < |init| ==> init[i] == rows[i];
      if exists i :: 0 <= i < |rows| && ParseDir(rows[i].dir).None? {
        var i :| 0 <= i < |rows| && ParseDir(rows[i].dir).None?;
        if i < |init| {
          assert ParseDir(init[i].dir).None?;
        }
      }
    }
  }

  /** The totals of (d, r) are the sums over every record of (d, r), overwritten ones included. */
  lemma {:induction false} LoadTotals(rows: seq<MetricRow>, d: Dir, r: Route)
    requires Load(rows).Ok?
    ensures TotalsOf(Load(rows).value, d, r) == Totals(SumOns(rows, d, r), SumOffs(rows, d, r))
  {
    if rows != [] {
      LoadTotals(rows[..|rows| - 1], d, r);
    }
  }

  /** Record i belongs to (d, r) and has sequence number s. */
  predicate RowAt(rows: seq<MetricRow>, i: int, d: Dir, r: Route, s: real)
  {
    0 <= i < |rows| && Matches(rows[i], d, r) && rows[i].sequence == s
  }

  /** Adding a record changes the stop of (d, r, s) only when the record is at that key. */
  lemma AddRowStop(m: RouteMetrics, d': Dir, row: MetricRow, d: Dir, r: Route, s: real)
    ensures var st := StopsOf(AddRow(m, d', row), d, r);
      if d' == d && row.route == r && row.sequence == s then s in st && st[s] == Stop(row.link, row.ons, row.offs)
      else (s in st <==> s in StopsOf(m, d, r)) && (s in st ==> st[s] == StopsOf(m, d, r)[s])
  {
  }

  /** The stop map of (d, r) has a key for exactly the sequence numbers of its records. */
  lemma {:induction false} LoadStopKeys(rows: seq<MetricRow>, d: Dir, r: Route, s: real)
    requires Load(rows).Ok?
    ensures s in StopsOf(Load(rows).value, d, r) <==> exists i :: RowAt(rows, i, d, r, s)
  {
    if rows != [] {
      var n := |rows| - 1;
      var init, row := rows[..n], rows[n];
      var prev := Load(init).value;
      LoadStopKeys(init, d, r, s);
      AddRowStop(prev, ParseDir(row.dir).value, row, d, r, s);
      assert Load(rows).value == AddRow(prev, ParseDir(row.dir).value, row);
      if RowAt(rows, n, d, r, s) {
        assert ParseDir(row.dir).value == d;
      } else {
        if s in StopsOf(prev, d, r) {
          var i :| RowAt(init, i, d, r, s);
          assert init[i] == rows[i];
          assert RowAt(rows, i, d, r, s);
        }
        if exists i :: RowAt(rows, i, d, r, s) {
          var i :| RowAt(rows, i, d, r, s);
          assert init[i] == rows[i];
          assert RowAt(init, i, d, r, s);
        }
      }
    }
  }

  /** The stop kept for a sequence number is the LAST record of (d, r) with it. */
  lemma {:induction false} LoadStopLast(rows: seq<MetricRow>, d: Dir, r: Route, s: real)
    requires Load(rows).Ok? && s in StopsOf(Load(rows).value, d, r)
    ensures exists i :: RowAt(rows, i, d, r, s) &&
                        StopsOf(Load(rows).value, d, r)[s] == Stop(rows[i].link, rows[i].ons, rows[i].offs) &&
                        forall j :: i < j < |rows| ==> !RowAt(rows, j, d, r, s)
  {
    var n := |rows| - 1;
    var init, row := rows[..n], rows[n];
    var prev := Load(init).value;
    AddRowStop(prev, ParseDir(row.dir).value, row, d, r, s);
    assert Load(rows).value == AddRow(prev, ParseDir(row.dir).value, row);
    var st := StopsOf(Load(rows).value, d, r)[s];
    if RowAt(rows, n, d, r, s) {
      assert st == Stop(rows[n].link, rows[n].ons, rows[n].offs);
    } else {
      LoadStopLast(init, d, r, s);
      var i :| RowAt(init, i, d, r, s) &&
        StopsOf(prev, d, r)[s] == Stop(init[i].link, init[i].ons, init[i].offs) &&
        forall j :: i < j < |init| ==> !RowAt(init, j, d, r, s);
      assert init[i] == rows[i];
      assert st == Stop(rows[i].link, rows[i].ons, rows[i].offs);
      assert RowAt(rows, i, d, r, s);
      forall j | i < j < |rows| ensures !RowAt(rows, j, d, r, s) {
        if j < n {
          assert init[j] == rows[j] && !RowAt(init, j, d, r, s);
        }
      }
    }
  }

  /** The source's loop over the ridership records. */
  method RouteDataLookup(rows: seq<MetricRow>) returns (res: Result<RouteMetrics, Abort>)
    ensures res == Load(rows)
  {
    var m := RouteMetrics(map[], map[]);
    var i := 0;
    while i < |rows|
      invariant 0 <= i <= |rows|
      invariant Load(rows[..i]) == Ok(m)
    {
      assert rows[..i + 1][..i] == rows[..i];
      var row := rows[i];
      var d := ParseDir(row.dir);
      if d.None? {
        res := Fail(UnknownDirection(Lower(row.dir)));
        LoadFailsLater(rows, i + 1);
        return;
      }
      m := AddRow(m, d.value, row);
      i := i + 1;
    }
    assert rows[..i] == rows;
    res := Ok(m);
  }

  /** Once a prefix has failed, every longer prefix fails with the same error. */
  lemma {:induction false} LoadFailsLater(rows: seq<MetricRow>, k: nat)
    requires k <= |rows| && Load(rows[..k]).Fail?
    ensures Load(rows) == Load(rows[..k])
    decreases |rows| - k
  {
    if k < |rows| {
      assert rows[..k + 1][..k] == rows[..k];
      LoadFailsLater(rows, k + 1);
    } else {
      assert rows[..k] == rows;
    }
  }

  /** Every record has non-negative boardings and alightings. */
  predicate NonNegRows(rows: seq<MetricRow>)
  {
    forall i :: 0 <= i < |rows| ==> rows[i].ons >= 0 && rows[i].offs >= 0
  }

  /** Every stop and every total of the metrics is non-negative. */
  ghost predicate NonNegMetrics(m: RouteMetrics)
  {
    (forall key, s :: key in m.stops && s in m.stops[key] ==> m.stops[key][s].ons >= 0 && m.stops[key][s].offs >= 0) &&
    (forall key :: key in m.totals ==> m.totals[key].ons >= 0 && m.totals[key].offs >= 0)
  }

  /** Records with non-negative counts load into non-negative stops and totals. */
  lemma {:induction false} LoadNonNeg(rows: seq<MetricRow>)
    requires NonNegRows(rows) && Load(rows).Ok?
    ensures NonNegMetrics(Load(rows).value)
  {
    if rows != [] {
      var n := |rows| - 1;
      assert NonNegRows(rows[..n]) by {
        forall i | 0 <= i < n ensures rows[..n][i].ons >= 0 && rows[..n][i].offs >= 0 {
          assert rows[..n][i] == rows[i];
        }
      }
      LoadNonNeg(rows[..n]);
    }
  }
}
