/**
 * The stand-alone radius helper: the radius at a position on the straight
 * line through two known (z, r) points, and the report that interpolates
 * rmin and rmax separately (each only when both of its end values are
 * given) and their difference when both were computed.
 */
module RadiusCalc {
  import opened Wrappers
  import opened Numerals

  const SameZMessage: string := "z1 and z2 cannot be the same value"

  /** `interpolate_radius`: the value at `z` of the line through `(z1, r1)` and `(z2, r2)`; equal z's raise. */
  function InterpolateRadius(z1: real, r1: real, z2: real, r2: real, z: real): (r: Result<real, string>)
    ensures r.Err? <==> z1 == z2
    ensures r.Err? ==> r.error == SameZMessage
  {
    if z1 == z2 then Err(SameZMessage)
    else Ok(r1 + (r2 - r1) * (z - z1) / (z2 - z1))
  }

  /** The result lies on the line: its rise over `z - z1` is the rise of the two points over their run. */
  lemma InterpolateOnLine(z1: real, r1: real, z2: real, r2: real, z: real)
    requires z1 != z2
    ensures (InterpolateRadius(z1, r1, z2, r2, z).value - r1) * (z2 - z1) == (r2 - r1) * (z - z1)
  {
    var q := (r2 - r1) * (z - z1);
    assert q / (z2 - z1) * (z2 - z1) == q;
  }

  /** Only one value lies on the line at each position. */
  lemma OnLineUnique(z1: real, r1: real, z2: real, r2: real, z: real, v: real)
    requires z1 != z2
    requires (v - r1) * (z2 - z1) == (r2 - r1) * (z - z1)
    ensures InterpolateRadius(z1, r1, z2, r2, z) == Ok(v)
  {
    InterpolateOnLine(z1, r1, z2, r2, z);
    var w := InterpolateRadius(z1, r1, z2, r2, z).value;
    ZeroFactor(w - v, z2 - z1);
  }

  /** At the two known positions the known radii come back. */
  lemma InterpolateAtEnds(z1: real, r1: real, z2: real, r2: real)
    requires z1 != z2
    ensures InterpolateRadius(z1, r1, z2, r2, z1) == Ok(r1)
    ensures InterpolateRadius(z1, r1, z2, r2, z2) == Ok(r2)
  {
    OnLineUnique(z1, r1, z2, r2, z1, r1);
    OnLineUnique(z1, r1, z2, r2, z2, r2);
  }

  /** The line does not depend on which of the two points is named first. */
  lemma InterpolateSymmetric(z1: real, r1: real, z2: real, r2: real, z: real)
    requires z1 != z2
    ensures InterpolateRadius(z1, r1, z2, r2, z) == InterpolateRadius(z2, r2, z1, r1, z)
  {
    InterpolateOnLine(z2, r2, z1, r1, z);
    var v := InterpolateRadius(z2, r2, z1, r1, z).value;
    assert (v - r1) * (z2 - z1) == (r2 - r1) * (z - z1);
    OnLineUnique(z1, r1, z2, r2, z, v);
  }

  /** Between the two known positions the radius lies between the two known radii. */
  lemma InterpolateBetween(z1: real, r1: real, z2: real, r2: real, z: real)
    requires z1 < z2 && z1 <= z <= z2
    ensures var v := InterpolateRadius(z1, r1, z2, r2, z).value;
      (r1 <= r2 ==> r1 <= v <= r2) && (r2 <= r1 ==> r2 <= v <= r1)
  {
    InterpolateOnLine(z1, r1, z2, r2, z);
    var v := InterpolateRadius(z1, r1, z2, r2, z).value;
    if r1 <= r2 {
      ScaledBetween(v - r1, r2 - r1, z - z1, z2 - z1);
    } else {
      ScaledBetween(r1 - v, r1 - r2, z - z1, z2 - z1);
    }
  }

  /** `d * run == rise * s` with `0 <= s <= run` and `rise >= 0` puts `d` in `[0, rise]`. */
  lemma ScaledBetween(d: real, rise: real, s: real, run: real)
    requires run > 0.0 && 0.0 <= s <= run && rise >= 0.0
    requires d * run == rise * s
    ensures 0.0 <= d <= rise
  {
    MulNonNegative(rise, s);
    MulNonNegative(rise, run - s);
    assert (rise - d) * run == rise * (run - s);
    PositiveFactor(d, run);
    PositiveFactor(rise - d, run);
  }

  /** A product that is not negative, with one factor positive, has the other factor not negative. */
  lemma PositiveFactor(x: real, y: real)
    requires y > 0.0 && x * y >= 0.0
    ensures x >= 0.0
  {
  }

  /** A zero product with one factor non-zero has the other factor zero. */
  lemma ZeroFactor(x: real, y: real)
    requires y != 0.0 && x * y == 0.0
    ensures x == 0.0
  {
  }

  /** When the radius is the same at both positions, it is that radius everywhere. */
  lemma InterpolateFlat(z1: real, r: real, z2: real, z: real)
    requires z1 != z2
    ensures InterpolateRadius(z1, r, z2, r, z) == Ok(r)
  {
    OnLineUnique(z1, r, z2, r, z, r);
  }

  // ---------------------------------------------------------------------
  // the report
  // ---------------------------------------------------------------------

  /**
   * The inputs of the report: the two planes' z and their rmin and rmax,
   * where `None` stands for the text `'na'` (the value not to compute), and
   * the position asked for.
   */
  datatype RadiusInputs = RadiusInputs(
    z1: real, rmin1: Option<real>, rmax1: Option<real>,
    z2: real, rmin2: Option<real>, rmax2: Option<real>,
    z: real)

  /** What the report computes: the `radius_results` dictionary and delta R when both radii are in it. */
  datatype RadiusReport = RadiusReport(results: map<string, real>, deltaR: Option<real>)

  predicate RminGiven(inp: RadiusInputs) { inp.rmin1.Some? && inp.rmin2.Some? }
  predicate RmaxGiven(inp: RadiusInputs) { inp.rmax1.Some? && inp.rmax2.Some? }

  /**
   * The report: rmin and then rmax are interpolated when both of their end
   * values are given and stored under `"rmin"` and `"rmax"`; the difference
   * is taken when both keys are present. An interpolation with equal z's
   * raises out of the script.
   */
  function Report(inp: RadiusInputs): (r: Result<RadiusReport, string>)
    ensures r.Err? <==> inp.z1 == inp.z2 && (RminGiven(inp) || RmaxGiven(inp))
    ensures r.Ok? ==> ("rmin" in r.value.results <==> RminGiven(inp))
    ensures r.Ok? ==> ("rmax" in r.value.results <==> RmaxGiven(inp))
    ensures r.Ok? ==> r.value.results.Keys <= {"rmin", "rmax"}
    ensures r.Ok? ==> (r.value.deltaR.Some? <==> RminGiven(inp) && RmaxGiven(inp))
  {
    var withMin :=
      if RminGiven(inp) then
        var v := InterpolateRadius(inp.z1, inp.rmin1.value, inp.z2, inp.rmin2.value, inp.z);
        if v.Err? then Err(v.error) else Ok(map["rmin" := v.value])
      else Ok(map[]);
    if withMin.Err? then Err(withMin.error)
    else
      var withMax :=
        if RmaxGiven(inp) then
          var v := InterpolateRadius(inp.z1, inp.rmax1.value, inp.z2, inp.rmax2.value, inp.z);
          if v.Err? then Err(v.error) else Ok(withMin.value["rmax" := v.value])
        else Ok(withMin.value);
      if withMax.Err? then Err(withMax.error)
      else
        var results := withMax.value;
        Ok(RadiusReport(results, if "rmin" in results && "rmax" in results then Some(results["rmax"] - results["rmin"]) else None))
  }

  /** Each stored radius is the interpolation of its own end values. */
  lemma ReportRadii(inp: RadiusInputs)
    requires Report(inp).Ok?
    ensures var res := Report(inp).value.results;
      ("rmin" in res ==> Ok(res["rmin"]) == InterpolateRadius(inp.z1, inp.rmin1.value, inp.z2, inp.rmin2.value, inp.z))
      && ("rmax" in res ==> Ok(res["rmax"]) == InterpolateRadius(inp.z1, inp.rmax1.value, inp.z2, inp.rmax2.value, inp.z))
  {
  }

  /** Delta R is the thickness interpolated between the two planes' thicknesses. */
  lemma DeltaIsInterpolatedThickness(inp: RadiusInputs)
    requires Report(inp).Ok? && Report(inp).value.deltaR.Some?
    ensures Ok(Report(inp).value.deltaR.value)
      == InterpolateRadius(inp.z1, inp.rmax1.value - inp.rmin1.value, inp.z2, inp.rmax2.value - inp.rmin2.value, inp.z)
  {
    ReportRadii(inp);
    var res := Report(inp).value.results;
    var z1, z2, z := inp.z1, inp.z2, inp.z;
    var a1, a2, b1, b2 := inp.rmin1.value, inp.rmin2.value, inp.rmax1.value, inp.rmax2.value;
    InterpolateOnLine(z1, a1, z2, a2, z);
    InterpolateOnLine(z1, b1, z2, b2, z);
    var d := res["rmax"] - res["rmin"];
    assert (d - (b1 - a1)) * (z2 - z1) == ((b2 - a2) - (b1 - a1)) * (z - z1) by {
      assert (res["rmax"] - b1) * (z2 - z1) == (b2 - b1) * (z - z1);
      assert (res["rmin"] - a1) * (z2 - z1) == (a2 - a1) * (z - z1);
    }
    OnLineUnique(z1, b1 - a1, z2, b2 - a2, z, d);
  }
}
