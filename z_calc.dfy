/**
 * The inverse helper: the position between two planes at which the
 * thickness `rmax - rmin`, changing linearly from one plane to the other,
 * takes a wanted value; and the script's report of that position, which
 * catches the helper's `ValueError`.
 */
module ZCalc {
  import opened Wrappers
  import opened RadiusCalc

  const NoMatchMessage: string := "Thickness does not change and does not match target delta."

  /**
   * What `interpolate_z_for_thickness` returns: a position, or (when the
   * thickness is the same on both planes and equals the target) the message
   * `"All z between {z1} and {z2} have thickness = {delta_r} cm"`, kept here
   * as the three values it shows.
   */
  datatype ZAnswer = Position(z: real) | AllPositions(z1: real, z2: real, thickness: real)

  /** `interpolate_z_for_thickness`. */
  function InterpolateZForThickness(z1: real, rmin1: real, rmax1: real, z2: real, rmin2: real, rmax2: real, deltaR: real): (r: Result<ZAnswer, string>)
    ensures r.Err? <==> rmax1 - rmin1 == rmax2 - rmin2 && rmax1 - rmin1 != deltaR
    ensures r.Err? ==> r.error == NoMatchMessage
    ensures r.Ok? && r.value.AllPositions? <==> rmax1 - rmin1 == rmax2 - rmin2 == deltaR
    ensures r.Ok? && r.value.AllPositions? ==> r.value == AllPositions(z1, z2, deltaR)
  {
    var thickness1 := rmax1 - rmin1;
    var thickness2 := rmax2 - rmin2;
    if thickness1 == thickness2 then
      if thickness1 == deltaR then Ok(AllPositions(z1, z2, deltaR))
      else Err(NoMatchMessage)
    else
      Ok(Position(z1 + (z2 - z1) * (deltaR - thickness1) / (thickness2 - thickness1)))
  }

  /**
   * The returned position lies on the thickness line: the thickness
   * interpolated there is the target. This holds for two distinct planes.
   */
  lemma ThicknessAtAnswer(z1: real, rmin1: real, rmax1: real, z2: real, rmin2: real, rmax2: real, deltaR: real)
    requires z1 != z2 && rmax1 - rmin1 != rmax2 - rmin2
    ensures var r := InterpolateZForThickness(z1, rmin1, rmax1, z2, rmin2, rmax2, deltaR);
      r.Ok? && r.value.Position?
      && InterpolateRadius(z1, rmax1 - rmin1, z2, rmax2 - rmin2, r.value.z) == Ok(deltaR)
  {
    var t1, t2 := rmax1 - rmin1, rmax2 - rmin2;
    var z := InterpolateZForThickness(z1, rmin1, rmax1, z2, rmin2, rmax2, deltaR).value.z;
    OnLine(z1, t1, z2, t2, deltaR, z);
    OnLineUnique(z1, t1, z2, t2, z, deltaR);
  }

  lemma OnLine(z1: real, t1: real, z2: real, t2: real, d: real, z: real)
    requires t1 != t2 && z == z1 + (z2 - z1) * (d - t1) / (t2 - t1)
    ensures (d - t1) * (z2 - z1) == (t2 - t1) * (z - z1)
  {
    var q := (z2 - z1) * (d - t1);
    assert q / (t2 - t1) * (t2 - t1) == q;
  }

  /**
   * Asking for the thickness that the radius helper interpolates at `z`
   * gives back `z`: the two helpers are inverse to each other.
   */
  lemma InverseOfInterpolation(z1: real, rmin1: real, rmax1: real, z2: real, rmin2: real, rmax2: real, z: real)
    requires z1 != z2 && rmax1 - rmin1 != rmax2 - rmin2
    ensures var t := InterpolateRadius(z1, rmax1 - rmin1, z2, rmax2 - rmin2, z).value;
      InterpolateZForThickness(z1, rmin1, rmax1, z2, rmin2, rmax2, t) == Ok(Position(z))
  {
    var t1, t2 := rmax1 - rmin1, rmax2 - rmin2;
    var d := InterpolateRadius(z1, t1, z2, t2, z).value;
    InterpolateOnLine(z1, t1, z2, t2, z);
    var y := InterpolateZForThickness(z1, rmin1, rmax1, z2, rmin2, rmax2, d).value.z;
    OnLine(z1, t1, z2, t2, d, y);
    assert (y - z) * (t2 - t1) == 0.0 by {
      assert (d - t1) * (z2 - z1) == (t2 - t1) * (y - z1);
      assert (d - t1) * (z2 - z1) == (t2 - t1) * (z - z1);
    }
    ZeroFactor(y - z, t2 - t1);
  }

  /** The thickness of the first plane is found at the first plane, that of the second plane at the second. */
  lemma AnswerAtEnds(z1: real, rmin1: real, rmax1: real, z2: real, rmin2: real, rmax2: real)
    requires rmax1 - rmin1 != rmax2 - rmin2
    ensures InterpolateZForThickness(z1, rmin1, rmax1, z2, rmin2, rmax2, rmax1 - rmin1) == Ok(Position(z1))
    ensures InterpolateZForThickness(z1, rmin1, rmax1, z2, rmin2, rmax2, rmax2 - rmin2) == Ok(Position(z2))
  {
    var t1, t2 := rmax1 - rmin1, rmax2 - rmin2;
    assert (z2 - z1) * (t1 - t1) / (t2 - t1) == 0.0;
    assert (z2 - z1) * (t2 - t1) / (t2 - t1) == z2 - z1;
  }

  /** A target between the two thicknesses is found between the two planes. */
  lemma AnswerBetween(z1: real, rmin1: real, rmax1: real, z2: real, rmin2: real, rmax2: real, deltaR: real)
    requires z1 < z2
    requires var t1, t2 := rmax1 - rmin1, rmax2 - rmin2;
      (t1 < t2 && t1 <= deltaR <= t2) || (t2 < t1 && t2 <= deltaR <= t1)
    ensures var r := InterpolateZForThickness(z1, rmin1, rmax1, z2, rmin2, rmax2, deltaR);
      r.Ok? && r.value.Position? && z1 <= r.value.z <= z2
  {
    var t1, t2 := rmax1 - rmin1, rmax2 - rmin2;
    var z := InterpolateZForThickness(z1, rmin1, rmax1, z2, rmin2, rmax2, deltaR).value.z;
    OnLine(z1, t1, z2, t2, deltaR, z);
    if t1 < t2 {
      ScaledBetween(z - z1, z2 - z1, deltaR - t1, t2 - t1);
    } else {
      assert (t1 - deltaR) * (z2 - z1) == (t1 - t2) * (z - z1);
      ScaledBetween(z - z1, z2 - z1, t1 - deltaR, t1 - t2);
    }
  }

  // ---------------------------------------------------------------------
  // the script's report
  // ---------------------------------------------------------------------

  /** What Python says when `:.5f` is applied to a string. */
  const FormatCodeMessage: string := "Unknown format code 'f' for object of type 'str'"

  /**
   * What the script prints: `At z = {z:.5f} cm, the thickness is {target} cm.`,
   * the intended line for a constant thickness, or `Error: {message}` for a
   * caught `ValueError`.
   */
  datatype ZReport =
    | Located(z: real, target: real)
    | AllPlanes(z1: real, z2: real, thickness: real)
    | ErrorLine(message: string)

  /**
   * The script as written: the answer is printed with `:.5f` inside the
   * `try`. A message string cannot be formatted that way, so the resulting
   * `ValueError` lands in the same `except` as the helper's own.
   */
  function ScriptReportAsWritten(z1: real, rmin1: real, rmax1: real, z2: real, rmin2: real, rmax2: real, target: real): (r: ZReport)
    ensures var a := InterpolateZForThickness(z1, rmin1, rmax1, z2, rmin2, rmax2, target);
      r.ErrorLine? <==> a.Err? || a.value.AllPositions?
  {
    match InterpolateZForThickness(z1, rmin1, rmax1, z2, rmin2, rmax2, target)
    case Err(e) => ErrorLine(e)
    case Ok(Position(z)) => Located(z, target)
    case Ok(AllPositions(_, _, _)) => ErrorLine(FormatCodeMessage)
  }

  /** When every position has the wanted thickness, the script as written prints a formatting error instead of saying so. */
  lemma ConstantThicknessHidden(z1: real, rmin1: real, rmax1: real, z2: real, rmin2: real, rmax2: real)
    requires rmax1 - rmin1 == rmax2 - rmin2
    ensures InterpolateZForThickness(z1, rmin1, rmax1, z2, rmin2, rmax2, rmax1 - rmin1).Ok?
    ensures ScriptReportAsWritten(z1, rmin1, rmax1, z2, rmin2, rmax2, rmax1 - rmin1) == ErrorLine(FormatCodeMessage)
  {
  }

  /** The script as evidently intended: the helper's message is printed as it is, and only the helper's error is an error. */
  function ScriptReport(z1: real, rmin1: real, rmax1: real, z2: real, rmin2: real, rmax2: real, target: real): (r: ZReport)
    ensures r.ErrorLine? <==> InterpolateZForThickness(z1, rmin1, rmax1, z2, rmin2, rmax2, target).Err?
  {
    match InterpolateZForThickness(z1, rmin1, rmax1, z2, rmin2, rmax2, target)
    case Err(e) => ErrorLine(e)
    case Ok(Position(z)) => Located(z, target)
    case Ok(AllPositions(a, b, t)) => AllPlanes(a, b, t)
  }

  /**
   * The intended report never raises and says exactly one of three things:
   * where the thickness is reached, that it holds everywhere, or why it
   * cannot be reached.
   */
  lemma ScriptReportCases(z1: real, rmin1: real, rmax1: real, z2: real, rmin2: real, rmax2: real, target: real)
    ensures var r := ScriptReport(z1, rmin1, rmax1, z2, rmin2, rmax2, target);
      var t1, t2 := rmax1 - rmin1, rmax2 - rmin2;
      (r.ErrorLine? <==> t1 == t2 && t1 != target)
      && (r.AllPlanes? <==> t1 == t2 == target)
      && (r.ErrorLine? ==> r.message == NoMatchMessage)
      && (r.AllPlanes? ==> r == AllPlanes(z1, z2, target))
      && (r.Located? ==> r.target == target && (z1 != z2 ==> InterpolateRadius(z1, t1, z2, t2, r.z) == Ok(target)))
  {
    var t1, t2 := rmax1 - rmin1, rmax2 - rmin2;
    if t1 != t2 && z1 != z2 {
      ThicknessAtAnswer(z1, rmin1, rmax1, z2, rmin2, rmax2, target);
    }
  }
}
