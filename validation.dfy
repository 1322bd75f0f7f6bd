/**
 * The validation of a requested outer-radius reduction of the tungsten
 * nozzle at the blackhole start: the nozzle's radii at that z are found
 * (an existing plane, an interpolation, or an extrapolation), the request
 * is judged against them, and an invalid request gets a suggested
 * reduction instead.
 */
module Validation {
  import opened Geometry
  import opened Interpolation
  import opened Numerals
  import opened Sorting
  import opened Text

  /** A plane of the validated component as `(z, rmin, rmax)`. */
  datatype Sample = Sample(z: real, rmin: real, rmax: real)

  /** Outcome of a check: `(is_valid, message, suggested_reduction)`. */
  datatype Verdict = Verdict(valid: bool, message: string, suggested: real)

  function SampleZ(s: Sample): real { s.z }

  /** A plane this close to the asked position is taken as it. */
  const PositionTolerance: real := 0.000001

  predicate Selected(e: Entry, prefix: string) {
    HasInfix(e.key.name, prefix) && e.key.z > 0.0
  }

  /** The planes of every component whose name contains `prefix`, at positive z, in table order. */
  function Relevant(t: Table, prefix: string): (ps: seq<Sample>)
    ensures |ps| <= |t|
  {
    if t == [] then []
    else
      var e := t[|t| - 1];
      Relevant(t[..|t| - 1], prefix) + (if Selected(e, prefix) then [Sample(e.key.z, e.radii.rmin, e.radii.rmax)] else [])
  }

  /** No plane is relevant exactly when no entry has a matching name at positive z. */
  lemma {:induction false} RelevantEmpty(t: Table, prefix: string)
    ensures Relevant(t, prefix) == [] <==> forall i :: 0 <= i < |t| ==> !Selected(t[i], prefix)
  {
    if t != [] {
      RelevantEmpty(t[..|t| - 1], prefix);
      assert forall i :: 0 <= i < |t| - 1 ==> t[..|t| - 1][i] == t[i];
    }
  }

  predicate Near(s: Sample, zPos: real) {
    Abs(s.z - zPos) < PositionTolerance
  }

  /** Index of the first plane within the tolerance of `zPos`, or -1. */
  function FirstNear(ps: seq<Sample>, zPos: real, from: nat := 0): (i: int)
    requires from <= |ps|
    ensures i == -1 || from <= i < |ps|
    ensures i >= 0 ==> Near(ps[i], zPos) && forall j :: from <= j < i ==> !Near(ps[j], zPos)
    ensures i == -1 ==> forall j :: from <= j < |ps| ==> !Near(ps[j], zPos)
    decreases |ps| - from
  {
    if from == |ps| then -1
    else if Near(ps[from], zPos) then from
    else FirstNear(ps, zPos, from + 1)
  }

  predicate Surrounds(ps: seq<Sample>, i: int, zPos: real)
    requires 0 <= i < |ps| - 1
  {
    ps[i].z <= zPos <= ps[i + 1].z
  }

  /** Index of the first pair of neighbouring planes around `zPos`, or -1. */
  function FirstSurrounding(ps: seq<Sample>, zPos: real, from: nat := 0): (i: int)
    requires from <= |ps|
    ensures i == -1 || from <= i < |ps| - 1
    ensures i >= 0 ==> Surrounds(ps, i, zPos) && forall j :: from <= j < i ==> !Surrounds(ps, j, zPos)
    ensures i == -1 ==> forall j :: from <= j < |ps| - 1 ==> !Surrounds(ps, j, zPos)
    decreases |ps| - from
  {
    if from + 1 >= |ps| then -1
    else if Surrounds(ps, from, zPos) then from
    else FirstSurrounding(ps, zPos, from + 1)
  }

  /**
   * `(rmin, rmax)` of the component at `zPos` from its planes sorted by z:
   * a plane within the tolerance, else the interpolation in the first
   * surrounding pair, else before the first plane the nozzle's linear outer
   * radius with a thickness of 1 cm, else the last plane.
   */
  function RadiiAt(ps: seq<Sample>, zPos: real): (r: Radii)
    requires ps != []
  {
    var m := FirstNear(ps, zPos);
    if m >= 0 then Radii(ps[m].rmin, ps[m].rmax)
    else
      var b := FirstSurrounding(ps, zPos);
      if b >= 0 then
        assert !Near(ps[b], zPos);
        var t := (zPos - ps[b].z) / (ps[b + 1].z - ps[b].z);
        Radii(Lerp(ps[b].rmin, ps[b + 1].rmin, t), Lerp(ps[b].rmax, ps[b + 1].rmax, t))
      else if zPos < ps[0].z then
        var rmax := NozzleRadiusAt(zPos);
        Radii(Max(0.0, rmax - 1.0), rmax)
      else Radii(ps[|ps| - 1].rmin, ps[|ps| - 1].rmax)
  }

  /** The message part `"{x:.4f}"`. */
  function F4(x: real): string {
    Fixed(x, 4)
  }

  /**
   * The three checks on the radii found at `zPos`, in the script's order:
   * the reduction must stay below the outer radius, must leave the minimum
   * thickness, and may use at most 90% of the available thickness.
   */
  function Judge(zPos: real, reduction: real, radii: Radii): (v: Verdict)
    ensures v.valid ==> v.suggested == reduction
    ensures !v.valid ==> v.suggested >= 0.0
  {
    var available := radii.rmax - radii.rmin;
    if reduction >= radii.rmax then
      var suggested := Min(radii.rmax * MaxReductionFactor, available - MinThicknessPreservation);
      Verdict(false, "Reduction " + F4(reduction) + " cm exceeds radius " + F4(radii.rmax) + " cm at z=" + F4(zPos) + " cm",
        Max(0.0, suggested))
    else if reduction >= available - MinThicknessPreservation then
      Verdict(false, "Reduction " + F4(reduction) + " cm would leave insufficient thickness at z=" + F4(zPos)
        + " cm (available: " + F4(available) + " cm)", Max(0.0, available * MaxReductionFactor))
    else if reduction > available * MaxReductionFactor then
      Verdict(false, "Reduction " + F4(reduction) + " cm exceeds 90.0% of available space at z=" + F4(zPos) + " cm",
        Max(0.0, available * MaxReductionFactor))
    else Verdict(true, "Reduction is valid", reduction)
  }

  /** What `validate_reduction_at_position` returns. */
  function ValidationAt(zPos: real, reduction: real, t: Table, prefix: string): Verdict {
    var relevant := Relevant(t, prefix);
    if relevant == [] then Verdict(false, "No " + prefix + " geometry found", 0.0)
    else Judge(zPos, reduction, RadiiAt(SortBy(relevant, SampleZ), zPos))
  }

  /** The first loop of `validate_reduction_at_position`: collect the relevant planes in table order. */
  method CollectRelevant(t: Table, prefix: string) returns (relevant: seq<Sample>)
    ensures relevant == Relevant(t, prefix)
  {
    relevant := [];
    var i := 0;
    while i < |t|
      invariant 0 <= i <= |t|
      invariant relevant == Relevant(t[..i], prefix)
    {
      var e := t[i];
      assert t[..i + 1][..i] == t[..i];
      if HasInfix(e.key.name, prefix) && e.key.z > 0.0 {
        relevant := relevant + [Sample(e.key.z, e.radii.rmin, e.radii.rmax)];
      }
      i := i + 1;
    }
    assert t[..|t|] == t;
  }

  /**
   * The search of `validate_reduction_at_position` for the radii at `zPos`
   * in the sorted planes: an existing plane, then a surrounding pair, then
   * the extrapolation.
   */
  method LocateRadii(ps: seq<Sample>, zPos: real) returns (r: Radii)
    requires ps != []
    ensures r == RadiiAt(ps, zPos)
  {
    var m := ScanNear(ps, zPos);
    if m >= 0 {
      return Radii(ps[m].rmin, ps[m].rmax);
    }
    var b := ScanSurrounding(ps, zPos);
    if b >= 0 {
      assert !Near(ps[b], zPos);
      var z1, z2 := ps[b].z, ps[b + 1].z;
      var t := (zPos - z1) / (z2 - z1);
      assert RadiiAt(ps, zPos) == Radii(Lerp(ps[b].rmin, ps[b + 1].rmin, t), Lerp(ps[b].rmax, ps[b + 1].rmax, t));
      return Radii(ps[b].rmin + t * (ps[b + 1].rmin - ps[b].rmin), ps[b].rmax + t * (ps[b + 1].rmax - ps[b].rmax));
    }
    if zPos < ps[0].z {
      var rmax := NozzleRadiusAt(zPos);
      r := Radii(Max(0.0, rmax - 1.0), rmax);
    } else {
      r := Radii(ps[|ps| - 1].rmin, ps[|ps| - 1].rmax);
    }
  }

  /** The first loop of the search: the first plane within the tolerance, or -1. */
  method ScanNear(ps: seq<Sample>, zPos: real) returns (m: int)
    ensures m == FirstNear(ps, zPos)
  {
    var i := 0;
    while i < |ps|
      invariant 0 <= i <= |ps|
      invariant forall j :: 0 <= j < i ==> !Near(ps[j], zPos)
    {
      if Abs(ps[i].z - zPos) < PositionTolerance {
        return i;
      }
      i := i + 1;
    }
    return -1;
  }

  /** The second loop of the search: the first pair of neighbouring planes around `zPos`, or -1. */
  method ScanSurrounding(ps: seq<Sample>, zPos: real) returns (b: int)
    ensures b == FirstSurrounding(ps, zPos)
  {
    var i := 0;
    while i < |ps| - 1
      invariant 0 <= i <= if |ps| == 0 then 0 else |ps| - 1
      invariant forall j :: 0 <= j < i ==> !Surrounds(ps, j, zPos)
    {
      if ps[i].z <= zPos <= ps[i + 1].z {
        assert Surrounds(ps, i, zPos);
        return i;
      }
      i := i + 1;
    }
    return -1;
  }

  /** `validate_reduction_at_position`. */
  method ValidateReductionAtPosition(zPos: real, reduction: real, t: Table, prefix: string := "NozzleW")
    returns (valid: bool, message: string, suggested: real)
    ensures Verdict(valid, message, suggested) == ValidationAt(zPos, reduction, t, prefix)
  {
    var relevant := CollectRelevant(t, prefix);
    if relevant == [] {
      return false, "No " + prefix + " geometry found", 0.0;
    }
    var ps := SortBy(relevant, SampleZ);
    var radii := LocateRadii(ps, zPos);
    var v := Judge(zPos, reduction, radii);
    return v.valid, v.message, v.suggested;
  }

  // ---------------------------------------------------------------------
  // properties of the verdict
  // ---------------------------------------------------------------------

  /** Without any plane of the component at positive z the request is refused with suggestion 0. */
  lemma ValidationWithoutPlanes(zPos: real, reduction: real, t: Table, prefix: string)
    requires forall i :: 0 <= i < |t| ==> !Selected(t[i], prefix)
    ensures ValidationAt(zPos, reduction, t, prefix) == Verdict(false, "No " + prefix + " geometry found", 0.0)
  {
    RelevantEmpty(t, prefix);
  }

  /**
   * A request is valid exactly when it is below the outer radius, leaves
   * more than the minimum thickness, and uses at most 90% of the available
   * thickness; a valid request is suggested unchanged.
   */
  lemma JudgeValid(zPos: real, reduction: real, radii: Radii)
    ensures var v := Judge(zPos, reduction, radii);
      var available := radii.rmax - radii.rmin;
      (v.valid <==> (reduction < radii.rmax && reduction < available - MinThicknessPreservation
        && reduction <= MaxReductionFactor * available))
      && (v.valid ==> v.suggested == reduction && v.message == "Reduction is valid")
      && (!v.valid ==> v.suggested >= 0.0)
  {
  }

  /** A refused request is always offered a non-negative reduction; an accepted one is offered itself. */
  lemma ValidationSuggestion(zPos: real, reduction: real, t: Table, prefix: string)
    ensures var v := ValidationAt(zPos, reduction, t, prefix);
      (!v.valid ==> v.suggested >= 0.0) && (v.valid ==> v.suggested == reduction)
  {
    var relevant := Relevant(t, prefix);
    if relevant != [] {
      JudgeValid(zPos, reduction, RadiiAt(SortBy(relevant, SampleZ), zPos));
    }
  }

  /**
   * When the request is refused because it leaves too little thickness or
   * uses too much of it, the suggestion (90% of the available thickness) is
   * itself accepted at the same position, provided that thickness exceeds
   * ten times the minimum.
   */
  lemma SuggestionAccepted(zPos: real, reduction: real, radii: Radii)
    requires reduction < radii.rmax && radii.rmin >= 0.0
    requires radii.rmax - radii.rmin > 10.0 * MinThicknessPreservation
    requires !Judge(zPos, reduction, radii).valid
    ensures Judge(zPos, Judge(zPos, reduction, radii).suggested, radii).valid
  {
  }

  /**
   * When the request reaches the outer radius and the available thickness
   * less the minimum is the smaller bound, the suggestion is that bound,
   * which the second check refuses again: the suggestion of the first check
   * is not itself a valid request.
   */
  lemma RadiusSuggestionRefused(zPos: real, reduction: real, radii: Radii)
    requires reduction >= radii.rmax
    requires 0.0 <= radii.rmax - radii.rmin - MinThicknessPreservation <= radii.rmax * MaxReductionFactor
    ensures var s := Judge(zPos, reduction, radii).suggested;
      s == radii.rmax - radii.rmin - MinThicknessPreservation && !Judge(zPos, s, radii).valid
  {
  }

  /** A plane of the component within the tolerance supplies the radii directly. */
  lemma RadiiAtExistingPlane(ps: seq<Sample>, zPos: real, i: int)
    requires 0 <= i < |ps| && Near(ps[i], zPos)
    requires forall j :: 0 <= j < |ps| && j != i ==> !Near(ps[j], zPos)
    ensures RadiiAt(ps, zPos) == Radii(ps[i].rmin, ps[i].rmax)
  {
    assert FirstNear(ps, zPos) == i;
  }

  /** Before the first plane the radii are the nozzle's linear outer radius and 1 cm less (not below 0). */
  lemma RadiiBeforeFirstPlane(ps: seq<Sample>, zPos: real)
    requires ps != [] && SortedBy(ps, SampleZ) && zPos < ps[0].z - PositionTolerance
    ensures RadiiAt(ps, zPos) == Radii(NozzleRadiusAt(zPos) - 1.0, NozzleRadiusAt(zPos))
  {
    assert forall j :: 0 <= j < |ps| ==> SampleZ(ps[0]) <= SampleZ(ps[j]);
  }

  // ---------------------------------------------------------------------
  // validate_configuration
  // ---------------------------------------------------------------------

  /** The smallest of a non-empty list (Python `min`). */
  function MinOf(s: seq<real>): (m: real)
    requires s != []
    ensures m in s && forall x :: x in s ==> m <= x
  {
    if |s| == 1 then s[0]
    else
      var rest := MinOf(s[1..]);
      assert forall x :: x in s[1..] ==> x in s;
      assert forall x :: x in s ==> x == s[0] || x in s[1..];
      if s[0] <= rest then s[0] else rest
  }

  /**
   * `validate_configuration`: checks the nozzle at the single position
   * `zStart`, collecting the message and suggestion of a refusal; the
   * suggestion returned is the smallest collected one, or 0.
   */
  method ValidateConfiguration(zStart: real, reduction: real, t: Table)
    returns (valid: bool, messages: seq<string>, suggested: real)
    ensures valid <==> messages == []
    ensures var v := ValidationAt(zStart, reduction, t, "NozzleW");
      valid == v.valid
      && messages == (if v.valid then [] else [v.message])
      && suggested == (if v.valid then 0.0 else v.suggested)
  {
    messages := [];
    valid := true;
    var suggestions: seq<real> := [];
    var zPositions := [zStart];
    var v := ValidationAt(zStart, reduction, t, "NozzleW");
    var i := 0;
    while i < |zPositions|
      invariant 0 <= i <= |zPositions|
      invariant |suggestions| == |messages|
      invariant valid <==> messages == []
      invariant i == 0 ==> messages == []
      invariant i == 1 ==> (messages == (if v.valid then [] else [v.message])
        && suggestions == (if v.valid then [] else [v.suggested]))
    {
      var ok, msg, s := ValidateReductionAtPosition(zPositions[i], reduction, t);
      if !ok {
        valid := false;
        messages := messages + [msg];
        suggestions := suggestions + [s];
      }
      i := i + 1;
    }
    suggested := if suggestions != [] then MinOf(suggestions) else 0.0;
  }
}
