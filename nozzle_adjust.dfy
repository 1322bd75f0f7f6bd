/**
 * `adjust_nozzle_for_blackhole`: the tungsten nozzle's inner radius is made
 * to meet the blackhole's new outer radius at every plane at or after the
 * start, without thinning the nozzle below the minimum thickness, and a
 * nozzle plane is added at the start on a side that has none there.
 */
module NozzleAdjust {
  import opened Wrappers
  import opened Geometry
  import opened Interpolation
  import opened Numerals
  import opened Text

  /** Distance within which an existing plane counts as one at the start. */
  const StartMatchTolerance: real := 0.000001

  predicate IsNozzle(name: string) {
    HasInfix(name, "NozzleW")
  }

  /** The rmin of a nozzle plane after the adjustment. */
  function AdjustedRmin(changes: map<real, real>, stepStart: real, e: Entry): (r: real)
    ensures Abs(e.key.z) < stepStart ==> r == e.radii.rmin
    ensures r == e.radii.rmin || r <= e.radii.rmax - MinThicknessPreservation
    ensures Abs(e.key.z) >= stepStart && e.key.z in changes && changes[e.key.z] < e.radii.rmax - MinThicknessPreservation
      ==> r == changes[e.key.z]
    ensures Abs(e.key.z) >= stepStart && e.key.z !in changes ==> r == e.radii.rmin
  {
    var rmin := e.radii.rmin;
    var rmax := e.radii.rmax;
    var newRmin := if Abs(e.key.z) < stepStart then rmin
                   else if e.key.z in changes then changes[e.key.z] else rmin;
    if newRmin >= rmax - MinThicknessPreservation then Max(rmin, rmax - MinThicknessPreservation) else newRmin
  }

  /** One entry after the first loop: other components are copied, nozzle planes get the adjusted rmin. */
  function AdjustEntry(changes: map<real, real>, stepStart: real, e: Entry): Entry {
    if !IsNozzle(e.key.name) then e
    else Entry(e.key, Radii(AdjustedRmin(changes, stepStart, e), e.radii.rmax))
  }

  /** The dict after the first loop: every entry adjusted in place, keys and order kept. */
  function Adjusted(t: Table, changes: map<real, real>, stepStart: real): (r: Table)
    ensures |r| == |t|
    ensures forall i :: 0 <= i < |t| ==> r[i] == AdjustEntry(changes, stepStart, t[i])
  {
    if t == [] then [] else Adjusted(t[..|t| - 1], changes, stepStart) + [AdjustEntry(changes, stepStart, t[|t| - 1])]
  }

  function SideName(side: string): string {
    "NozzleW_" + side
  }

  function SideZ(side: string, stepStart: real): real {
    if side == "right" then stepStart else -stepStart
  }

  /** The `any(...)` test: a plane of that component lies within the tolerance of the start distance. */
  predicate HasPlaneAtStart(t: Table, name: string, stepStart: real) {
    exists i :: 0 <= i < |t| && t[i].key.name == name && Abs(Abs(t[i].key.z) - stepStart) < StartMatchTolerance
  }

  /** Radii of an added start plane: the blackhole's new rmax, kept below the nozzle's outer radius there. */
  function StartPlane(blackholeRmax: real, stepStart: real): (r: Radii)
    ensures r.rmax == NozzleRadiusAt(stepStart)
    ensures 0.0 <= r.rmax - MinThicknessPreservation
    ensures r.rmin <= r.rmax - MinThicknessPreservation
    ensures blackholeRmax < r.rmax - MinThicknessPreservation ==> r.rmin == blackholeRmax
  {
    var rmax := NozzleRadiusAt(stepStart);
    if blackholeRmax >= rmax - MinThicknessPreservation then Radii(Max(0.0, rmax - MinThicknessPreservation), rmax)
    else Radii(blackholeRmax, rmax)
  }

  /** Whether the second loop adds a plane for this side. */
  predicate AddsPlane(t: Table, changes: map<real, real>, stepStart: real, side: string) {
    !HasPlaneAtStart(t, SideName(side), stepStart) && SideZ(side, stepStart) in changes
  }

  /** One iteration of the second loop. */
  function AddStartPlane(t: Table, changes: map<real, real>, stepStart: real, side: string): Table {
    if AddsPlane(t, changes, stepStart, side) then
      Put(t, Key(SideName(side), SideZ(side, stepStart)), StartPlane(changes[SideZ(side, stepStart)], stepStart))
    else t
  }

  /** The second loop over `sides`. */
  function AddStartPlanes(t: Table, changes: map<real, real>, stepStart: real, sides: seq<string>): Table
    decreases |sides|
  {
    if sides == [] then t
    else AddStartPlane(AddStartPlanes(t, changes, stepStart, sides[..|sides| - 1]), changes, stepStart, sides[|sides| - 1])
  }

  function StepStart(zStart: real): real {
    Max(MinBlackholeStart, zStart)
  }

  /** What `adjust_nozzle_for_blackhole` returns. */
  function AdjustNozzle(nozzle: Table, changes: map<real, real>, zStart: real): Table {
    var s := StepStart(zStart);
    AddStartPlanes(Adjusted(nozzle, changes, s), changes, s, ["right", "left"])
  }

  method AdjustNozzleForBlackhole(nozzle: Table, changes: map<real, real>, zStart: real) returns (adjusted: Table)
    requires IsDict(nozzle)
    ensures adjusted == AdjustNozzle(nozzle, changes, zStart)
  {
    var stepStart := MinBlackholeStart;
    if zStart > stepStart {
      stepStart := zStart;
    }
    assert stepStart == StepStart(zStart);
    adjusted := AdjustPlanes(nozzle, changes, stepStart);

    var sides := ["right", "left"];
    ghost var first := adjusted;
    var k := 0;
    while k < |sides|
      invariant 0 <= k <= |sides|
      invariant adjusted == AddStartPlanes(first, changes, stepStart, sides[..k])
    {
      assert sides[..k + 1][..k] == sides[..k];
      adjusted := EnsureStartPlane(adjusted, changes, stepStart, sides[k]);
      k := k + 1;
    }
    assert sides[..2] == sides;
  }

  /** The first loop of `adjust_nozzle_for_blackhole`. */
  method AdjustPlanes(nozzle: Table, changes: map<real, real>, stepStart: real) returns (adjusted: Table)
    requires IsDict(nozzle)
    ensures adjusted == Adjusted(nozzle, changes, stepStart)
  {
    adjusted := [];
    var i := 0;
    while i < |nozzle|
      invariant 0 <= i <= |nozzle|
      invariant adjusted == Adjusted(nozzle[..i], changes, stepStart)
    {
      var e := nozzle[i];
      AdjustedAppend(nozzle, changes, stepStart, i);
      var radii := AdjustOne(changes, stepStart, e);
      adjusted := Put(adjusted, e.key, radii);
      i := i + 1;
    }
    assert nozzle[..|nozzle|] == nozzle;
  }

  /** The body of the first loop for one plane: the radii written back under its key. */
  method AdjustOne(changes: map<real, real>, stepStart: real, e: Entry) returns (radii: Radii)
    ensures radii == AdjustEntry(changes, stepStart, e).radii
  {
    if !IsNozzle(e.key.name) {
      radii := e.radii;
    } else {
      var newRmin := e.radii.rmin;
      if Abs(e.key.z) >= stepStart && e.key.z in changes {
        newRmin := changes[e.key.z];
      }
      if newRmin >= e.radii.rmax - MinThicknessPreservation {
        newRmin := Max(e.radii.rmin, e.radii.rmax - MinThicknessPreservation);
      }
      radii := Radii(newRmin, e.radii.rmax);
    }
  }

  /** Writing the next plane's adjusted radii under its own (fresh) key extends the adjusted prefix. */
  lemma AdjustedAppend(nozzle: Table, changes: map<real, real>, stepStart: real, i: nat)
    requires IsDict(nozzle) && i < |nozzle|
    ensures Adjusted(nozzle[..i + 1], changes, stepStart)
      == Put(Adjusted(nozzle[..i], changes, stepStart), nozzle[i].key, AdjustEntry(changes, stepStart, nozzle[i]).radii)
  {
    var e := nozzle[i];
    var a := Adjusted(nozzle[..i], changes, stepStart);
    assert nozzle[..i + 1][..i] == nozzle[..i];
    assert forall j :: 0 <= j < |a| ==> a[j].key == nozzle[j].key;
    PutFresh(a, e.key, AdjustEntry(changes, stepStart, e).radii);
  }

  /** One iteration of the second loop: add the side's start plane unless one is there or the blackhole has none. */
  method EnsureStartPlane(adjusted: Table, changes: map<real, real>, stepStart: real, side: string) returns (r: Table)
    ensures r == AddStartPlane(adjusted, changes, stepStart, side)
  {
    var name := "NozzleW_" + side;
    var z := if side == "right" then stepStart else -stepStart;
    var existing := false;
    var j := 0;
    while j < |adjusted|
      invariant 0 <= j <= |adjusted|
      invariant existing <==>
        exists m :: 0 <= m < j && adjusted[m].key.name == name && Abs(Abs(adjusted[m].key.z) - stepStart) < StartMatchTolerance
    {
      if adjusted[j].key.name == name && Abs(Abs(adjusted[j].key.z) - stepStart) < StartMatchTolerance {
        existing := true;
      }
      j := j + 1;
    }
    r := adjusted;
    if !existing && z in changes {
      var newRmin := changes[z];
      var newRmax := NozzleRadiusAt(stepStart);
      if newRmin >= newRmax - MinThicknessPreservation {
        newRmin := Max(0.0, newRmax - MinThicknessPreservation);
      }
      r := Put(adjusted, Key(name, z), Radii(newRmin, newRmax));
    }
  }

  // ---------------------------------------------------------------------
  // what the adjustment guarantees
  // ---------------------------------------------------------------------

  /** The plane added for a side. */
  function StartEntry(changes: map<real, real>, stepStart: real, side: string): Entry
    requires SideZ(side, stepStart) in changes
  {
    Entry(Key(SideName(side), SideZ(side, stepStart)), StartPlane(changes[SideZ(side, stepStart)], stepStart))
  }

  /** The first loop keeps the keys and their order, so it keeps a dict a dict and the `any(...)` test unchanged. */
  lemma AdjustedKeys(t: Table, changes: map<real, real>, stepStart: real, name: string)
    ensures IsDict(t) ==> IsDict(Adjusted(t, changes, stepStart))
    ensures HasPlaneAtStart(Adjusted(t, changes, stepStart), name, stepStart) == HasPlaneAtStart(t, name, stepStart)
  {
    var a := Adjusted(t, changes, stepStart);
    assert forall i :: 0 <= i < |t| ==> a[i].key == t[i].key;
    if HasPlaneAtStart(t, name, stepStart) {
      var i :| 0 <= i < |t| && t[i].key.name == name && Abs(Abs(t[i].key.z) - stepStart) < StartMatchTolerance;
      assert a[i].key == t[i].key;
    }
  }

  /** A start plane is only added when no plane of that side is at the start, so it is appended after the others. */
  lemma AddStartPlaneAppends(t: Table, changes: map<real, real>, stepStart: real, side: string)
    requires stepStart > 0.0 && IsDict(t)
    ensures AddsPlane(t, changes, stepStart, side) ==>
      AddStartPlane(t, changes, stepStart, side) == t + [StartEntry(changes, stepStart, side)]
    ensures !AddsPlane(t, changes, stepStart, side) ==> AddStartPlane(t, changes, stepStart, side) == t
    ensures IsDict(AddStartPlane(t, changes, stepStart, side))
  {
    if AddsPlane(t, changes, stepStart, side) {
      var k := Key(SideName(side), SideZ(side, stepStart));
      assert Abs(Abs(k.z) - stepStart) == 0.0;
      assert forall j :: 0 <= j < |t| ==> t[j].key != k;
      PutFresh(t, k, StartPlane(changes[k.z], stepStart));
      PutIsDict(t, k, StartPlane(changes[k.z], stepStart));
    }
  }

  lemma AddStartPlanesTwo(a: Table, changes: map<real, real>, s: real)
    ensures AddStartPlanes(a, changes, s, ["right", "left"])
      == AddStartPlane(AddStartPlane(a, changes, s, "right"), changes, s, "left")
  {
    var sides := ["right", "left"];
    assert sides[..1] == ["right"] && sides[..1][..0] == [];
  }

  /** A right start plane does not count as a left plane at the start. */
  lemma RightPlaneNotLeft(a: Table, changes: map<real, real>, s: real)
    requires s > 0.0 && IsDict(a)
    ensures HasPlaneAtStart(AddStartPlane(a, changes, s, "right"), "NozzleW_left", s) == HasPlaneAtStart(a, "NozzleW_left", s)
  {
    AddStartPlaneAppends(a, changes, s, "right");
    var b := AddStartPlane(a, changes, s, "right");
    assert SideName("right") != "NozzleW_left";
    assert forall i :: 0 <= i < |a| ==> b[i] == a[i];
    assert forall i :: |a| <= i < |b| ==> b[i].key.name == SideName("right");
  }

  lemma RightStep(nozzle: Table, changes: map<real, real>, s: real)
    requires IsDict(nozzle) && s > 0.0
    ensures var a := Adjusted(nozzle, changes, s);
      var b := AddStartPlane(a, changes, s, "right");
      IsDict(b)
      && b == a + (if !HasPlaneAtStart(nozzle, "NozzleW_right", s) && s in changes then [StartEntry(changes, s, "right")] else [])
  {
    var a := Adjusted(nozzle, changes, s);
    AdjustedKeys(nozzle, changes, s, "NozzleW_right");
    assert SideName("right") == "NozzleW_right";
    AddStartPlaneAppends(a, changes, s, "right");
  }

  lemma LeftStep(nozzle: Table, changes: map<real, real>, s: real)
    requires IsDict(nozzle) && s > 0.0
    ensures var b := AddStartPlane(Adjusted(nozzle, changes, s), changes, s, "right");
      var c := AddStartPlane(b, changes, s, "left");
      IsDict(c)
      && c == b + (if !HasPlaneAtStart(nozzle, "NozzleW_left", s) && -s in changes then [StartEntry(changes, s, "left")] else [])
  {
    var a := Adjusted(nozzle, changes, s);
    var b := AddStartPlane(a, changes, s, "right");
    AdjustedKeys(nozzle, changes, s, "NozzleW_left");
    assert SideName("left") == "NozzleW_left";
    RightStep(nozzle, changes, s);
    RightPlaneNotLeft(a, changes, s);
    AddStartPlaneAppends(b, changes, s, "left");
  }

  /**
   * The whole result: the input planes in their order, each adjusted, then
   * a right start plane exactly when the input has no right plane within
   * 1e-6 of the start and the blackhole recorded a change at `+start`, then
   * likewise a left one at `-start`. The result is a dict.
   */
  lemma AdjustNozzleResult(nozzle: Table, changes: map<real, real>, zStart: real)
    requires IsDict(nozzle)
    ensures var s := StepStart(zStart);
      var addRight := !HasPlaneAtStart(nozzle, "NozzleW_right", s) && s in changes;
      var addLeft := !HasPlaneAtStart(nozzle, "NozzleW_left", s) && -s in changes;
      AdjustNozzle(nozzle, changes, zStart) ==
        Adjusted(nozzle, changes, s)
        + (if addRight then [StartEntry(changes, s, "right")] else [])
        + (if addLeft then [StartEntry(changes, s, "left")] else [])
    ensures IsDict(AdjustNozzle(nozzle, changes, zStart))
  {
    AdjustNozzleParts(nozzle, changes, StepStart(zStart), AdjustNozzle(nozzle, changes, zStart));
  }

  /** `AdjustNozzleResult` for the result `out` of the two loops at the start distance `s`. */
  lemma AdjustNozzleParts(nozzle: Table, changes: map<real, real>, s: real, out: Table)
    requires IsDict(nozzle) && s > 0.0
    requires out == AddStartPlanes(Adjusted(nozzle, changes, s), changes, s, ["right", "left"])
    ensures var addRight := !HasPlaneAtStart(nozzle, "NozzleW_right", s) && s in changes;
      var addLeft := !HasPlaneAtStart(nozzle, "NozzleW_left", s) && -s in changes;
      out == Adjusted(nozzle, changes, s)
        + (if addRight then [StartEntry(changes, s, "right")] else [])
        + (if addLeft then [StartEntry(changes, s, "left")] else [])
    ensures IsDict(out)
  {
    RightStep(nozzle, changes, s);
    LeftStep(nozzle, changes, s);
    AddStartPlanesTwo(Adjusted(nozzle, changes, s), changes, s);
  }

  /**
   * Planes of other components are copied; every plane keeps its key and its
   * outer radius; planes closer to the tip than the start are unchanged.
   */
  lemma AdjustKeepsPlanes(nozzle: Table, changes: map<real, real>, zStart: real, i: int)
    requires IsDict(nozzle) && 0 <= i < |nozzle|
    ensures var out := AdjustNozzle(nozzle, changes, zStart);
      i < |out| && out[i].key == nozzle[i].key && out[i].radii.rmax == nozzle[i].radii.rmax
      && (!IsNozzle(nozzle[i].key.name) ==> out[i] == nozzle[i])
      && (Abs(nozzle[i].key.z) < StepStart(zStart) ==> out[i] == nozzle[i])
  {
    AdjustNozzleResult(nozzle, changes, zStart);
  }

  /**
   * A nozzle plane at or after the start takes the blackhole's new rmax as
   * its rmin when that leaves the minimum thickness; otherwise it keeps its
   * rmin or is thinned to exactly the minimum thickness.
   */
  lemma AdjustMeetsBlackhole(nozzle: Table, changes: map<real, real>, zStart: real, i: int)
    requires IsDict(nozzle) && 0 <= i < |nozzle| && IsNozzle(nozzle[i].key.name)
    ensures var out := AdjustNozzle(nozzle, changes, zStart);
      var e := nozzle[i];
      i < |out|
      && (Abs(e.key.z) >= StepStart(zStart) && e.key.z in changes && changes[e.key.z] < e.radii.rmax - MinThicknessPreservation
          ==> out[i].radii.rmin == changes[e.key.z])
      && (out[i].radii.rmin == e.radii.rmin || out[i].radii.rmin <= e.radii.rmax - MinThicknessPreservation)
  {
    AdjustNozzleResult(nozzle, changes, zStart);
  }
}
