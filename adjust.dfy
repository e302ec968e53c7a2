/** AdjustRidership: proportional reweighting of a stop's boardings or alightings. */
module Adjust {
  import opened Wrappers
  import opened Fatal
  import opened Metrics

  /**
   * The smaller of the two route totals is scaled up to the larger one: when
   * boardings exceed alightings, the stop's alightings are multiplied by
   * totalOn / totalOff and its boardings kept; otherwise the boardings are
   * multiplied by totalOff / totalOn. A zero divisor aborts the run.
   */
  function AdjustRidership(ons: int, offs: int, totalOn: int, totalOff: int): (r: Result<(real, real), Abort>)
    ensures r.Fail? <==> (if totalOn > totalOff then totalOff == 0 else totalOn == 0)
    ensures r.Fail? ==> r.error == ZeroTotal
  {
    if totalOn > totalOff then
      if totalOff == 0 then Fail(ZeroTotal)
      else
        var diff := totalOn - totalOff;
        Ok((ons as real, offs as real + diff as real * (offs as real / totalOff as real)))
    else
      if totalOn == 0 then Fail(ZeroTotal)
      else
        var diff := totalOff - totalOn;
        Ok((ons as real + diff as real * (ons as real / totalOn as real), offs as real))
  }

  /**
   * The side with the larger total keeps its count; the other is scaled by
   * the ratio of the totals.
   */
  lemma AdjustScaling(ons: int, offs: int, totalOn: int, totalOff: int)
    ensures var r := AdjustRidership(ons, offs, totalOn, totalOff);
      r.Ok? && totalOn > totalOff ==>
        r.value.0 == ons as real && r.value.1 * totalOff as real == (offs * totalOn) as real
    ensures var r := AdjustRidership(ons, offs, totalOn, totalOff);
      r.Ok? && totalOn <= totalOff ==>
        r.value.1 == offs as real && r.value.0 * totalOn as real == (ons * totalOff) as real
  {
    if totalOn > totalOff && totalOff != 0 {
      var q := offs as real / totalOff as real;
      assert q * totalOff as real == offs as real;
      CastProduct(offs, totalOn);
    } else if totalOn <= totalOff && totalOn != 0 {
      var q := ons as real / totalOn as real;
      assert q * totalOn as real == ons as real;
      CastProduct(ons, totalOff);
    }
  }

  /** The worked example: (ons 10, offs 8) with totals (100, 80) becomes (10, 10.0). */
  lemma AdjustExample()
    ensures AdjustRidership(10, 8, 100, 80) == Ok((10.0, 10.0))
  {
  }

  function SumOffs(stops: seq<Stop>): int
  {
    if stops == [] then 0 else stops[0].offs + SumOffs(stops[1..])
  }

  function SumOns(stops: seq<Stop>): int
  {
    if stops == [] then 0 else stops[0].ons + SumOns(stops[1..])
  }

  /** Sum of the adjusted alightings of the stops (boardings exceed alightings). */
  function SumAdjustedOffs(stops: seq<Stop>, totalOn: int, totalOff: int): real
    requires totalOn > totalOff != 0
  {
    if stops == [] then 0.0
    else AdjustRidership(stops[0].ons, stops[0].offs, totalOn, totalOff).value.1 + SumAdjustedOffs(stops[1..], totalOn, totalOff)
  }

  /** Sum of the adjusted boardings of the stops (alightings at least boardings). */
  function SumAdjustedOns(stops: seq<Stop>, totalOn: int, totalOff: int): real
    requires totalOff >= totalOn != 0
  {
    if stops == [] then 0.0
    else AdjustRidership(stops[0].ons, stops[0].offs, totalOn, totalOff).value.0 + SumAdjustedOns(stops[1..], totalOn, totalOff)
  }

  lemma {:induction false} SumAdjustedOffsScaled(stops: seq<Stop>, totalOn: int, totalOff: int)
    requires totalOn > totalOff != 0
    ensures SumAdjustedOffs(stops, totalOn, totalOff) * totalOff as real == (SumOffs(stops) * totalOn) as real
  {
    if stops != [] {
      SumAdjustedOffsScaled(stops[1..], totalOn, totalOff);
    }
  }

  lemma {:induction false} SumAdjustedOnsScaled(stops: seq<Stop>, totalOn: int, totalOff: int)
    requires totalOff >= totalOn != 0
    ensures SumAdjustedOns(stops, totalOn, totalOff) * totalOn as real == (SumOns(stops) * totalOff) as real
  {
    if stops != [] {
      SumAdjustedOnsScaled(stops[1..], totalOn, totalOff);
    }
  }

  /** Converting a product of integers to a real is the product of the converted factors. */
  lemma CastProduct(x: int, y: int)
    ensures (x * y) as real == x as real * y as real
  {
  }

  /** A non-zero factor cancels from both sides of an equation. */
  lemma CancelFactor(a: real, b: real, c: real)
    requires c != 0.0 && a * c == b * c
    ensures a == b
  {
    assert (a - b) * c == 0.0;
  }

  /** A sum s with s * t == n * u, where the raw sum n equals the divisor t, is u. */
  lemma Rescale(s: real, n: int, t: int, u: int)
    requires t != 0 && n == t && s * t as real == (n * u) as real
    ensures s == u as real
  {
    CastProduct(n, u);
    CancelFactor(s, u as real, t as real);
  }

  /** Mass balance: over stops whose alightings sum to totalOff, the adjusted alightings sum to totalOn. */
  lemma AdjustedOffsBalance(stops: seq<Stop>, totalOn: int, totalOff: int)
    requires totalOn > totalOff != 0 && SumOffs(stops) == totalOff
    ensures SumAdjustedOffs(stops, totalOn, totalOff) == totalOn as real
  {
    SumAdjustedOffsScaled(stops, totalOn, totalOff);
    Rescale(SumAdjustedOffs(stops, totalOn, totalOff), SumOffs(stops), totalOff, totalOn);
  }

  /** Mass balance: over stops whose boardings sum to totalOn, the adjusted boardings sum to totalOff. */
  lemma AdjustedOnsBalance(stops: seq<Stop>, totalOn: int, totalOff: int)
    requires totalOff >= totalOn != 0 && SumOns(stops) == totalOn
    ensures SumAdjustedOns(stops, totalOn, totalOff) == totalOff as real
  {
    SumAdjustedOnsScaled(stops, totalOn, totalOff);
    Rescale(SumAdjustedOns(stops, totalOn, totalOff), SumOns(stops), totalOn, totalOff);
  }

  /** With non-negative counts and totals, reweighting never lowers a count: the side that is scaled only grows. */
  lemma AdjustNonNeg(ons: int, offs: int, totalOn: int, totalOff: int)
    requires ons >= 0 && offs >= 0 && totalOn >= 0 && totalOff >= 0
    requires AdjustRidership(ons, offs, totalOn, totalOff).Ok?
    ensures AdjustRidership(ons, offs, totalOn, totalOff).value.0 >= ons as real
    ensures AdjustRidership(ons, offs, totalOn, totalOff).value.1 >= offs as real
  {
    if totalOn > totalOff {
      var q := offs as real / totalOff as real;
      assert q >= 0.0;
      assert (totalOn - totalOff) as real * q >= 0.0;
    } else {
      var q := ons as real / totalOn as real;
      assert q >= 0.0;
      assert (totalOff - totalOn) as real * q >= 0.0;
    }
  }
}
