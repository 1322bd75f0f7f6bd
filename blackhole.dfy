/**
 * `modify_blackhole_geometry_absolute`: the blackhole (the inner vacuum
 * cone) of the nozzle is made to start at `zStart` from the tip and its
 * outer radius is reduced by a requested amount. Planes before the start are
 * dropped, the original first plane is moved to the start, and every
 * reduction is capped so that each plane keeps the minimum thickness. The
 * running reduction `actual` is carried from one entry to the next.
 */
module Blackhole {
  import opened Wrappers
  import opened Geometry
  import opened Interpolation
  import opened Numerals
  import opened Text

  predicate IsBlackhole(name: string) {
    HasInfix(name, "Blackhole")
  }

  /** `min(abs(z) for (name, z) in base if "Blackhole" in name)`, or None when there is no such entry. */
  function BlackholeMinAbsZ(t: Table): (r: Option<real>)
    ensures r.None? <==> forall i :: 0 <= i < |t| ==> !IsBlackhole(t[i].key.name)
    ensures r.Some? ==> (exists i :: 0 <= i < |t| && IsBlackhole(t[i].key.name) && Abs(t[i].key.z) == r.value)
    ensures r.Some? ==> forall i :: 0 <= i < |t| && IsBlackhole(t[i].key.name) ==> r.value <= Abs(t[i].key.z)
  {
    if t == [] then None
    else
      var rest := BlackholeMinAbsZ(t[..|t| - 1]);
      var e := t[|t| - 1];
      assert forall i :: 0 <= i < |t| - 1 ==> t[..|t| - 1][i] == t[i];
      if !IsBlackhole(e.key.name) then rest
      else if rest.None? || Abs(e.key.z) < rest.value then Some(Abs(e.key.z))
      else rest
  }

  /** What stays fixed during the loop over the entries. */
  datatype Context = Context(originalMinZ: real, start: real, requested: real, sorted: map<string, seq<Position>>)

  /** What the loop changes: the output dict, `blackhole_rmax_changes`, and `actual_reduction`. */
  datatype BhState = BhState(modified: Table, changes: map<real, real>, actual: real)

  function SideSign(z: real): real {
    if z > 0.0 then 1.0 else -1.0
  }

  /** A reduction capped so that the minimum thickness survives (the cap is never negative). */
  function Cap(reduction: real, available: real): (r: real)
    ensures reduction >= 0.0 ==> 0.0 <= r <= reduction
    ensures reduction < available - MinThicknessPreservation ==> r == reduction
  {
    if reduction >= available - MinThicknessPreservation then Max(0.0, available - MinThicknessPreservation)
    else reduction
  }

  /**
   * `(rmin, rmax)` of a new start plane before the original first plane:
   * from the first two planes of the matching nozzle component when it has
   * two, with a thickness of 0.001; otherwise `(0.0001, 0.001)`.
   */
  function StartRadii(start: real, sorted: map<string, seq<Position>>, name: string): (r: Radii)
    ensures r.rmin >= 0.0001
  {
    var nozzleName := ReplaceAll(name, "Blackhole", "W");
    var np := if nozzleName in sorted then sorted[nozzleName] else [];
    if |np| >= 2 then
      var rmaxAtStart := InterpolateGeometryValues(start, np[0].absZ, np[1].absZ, np[0].rmin, np[0].rmax, np[1].rmin, np[1].rmax).rmax;
      Radii(Max(0.0001, rmaxAtStart - 0.001), rmaxAtStart)
    else Radii(0.0001, 0.001)
  }

  /** A blackhole plane before the start that is not the original first plane is dropped. */
  predicate Skipped(ctx: Context, e: Entry) {
    Abs(e.key.z) < ctx.start && Abs(e.key.z) != ctx.originalMinZ
  }

  /** Where a kept blackhole plane is written: the original first plane moves to the start on its side. */
  function StepKey(ctx: Context, e: Entry): Key {
    if Abs(e.key.z) == ctx.originalMinZ then Key(e.key.name, SideSign(e.key.z) * ctx.start) else e.key
  }

  /** `actual_reduction` after a kept blackhole plane. */
  function StepActual(ctx: Context, st: BhState, e: Entry): real {
    if Abs(e.key.z) == ctx.originalMinZ then
      if ctx.start < ctx.originalMinZ then
        var s := StartRadii(ctx.start, ctx.sorted, e.key.name);
        var available := s.rmax - s.rmin;
        if ctx.requested >= available - MinThicknessPreservation then Max(0.0, available - MinThicknessPreservation)
        else st.actual
      else Cap(st.actual, e.radii.rmax - e.radii.rmin)
    else st.actual
  }

  /** The radii written for a kept blackhole plane. */
  function StepRadii(ctx: Context, st: BhState, e: Entry): (r: Radii)
    ensures r.rmax >= r.rmin + MinThicknessPreservation
  {
    var rmin := e.radii.rmin;
    var rmax := e.radii.rmax;
    if Abs(e.key.z) == ctx.originalMinZ then
      var actual := StepActual(ctx, st, e);
      if ctx.start < ctx.originalMinZ then
        var s := StartRadii(ctx.start, ctx.sorted, e.key.name);
        Radii(s.rmin, Max(s.rmin + MinThicknessPreservation, s.rmax - actual))
      else Radii(rmin, Max(rmin + MinThicknessPreservation, rmax - actual))
    else
      var pointReduction := Cap(st.actual, rmax - rmin);
      Radii(rmin, Max(rmin + MinThicknessPreservation, rmax - pointReduction))
  }

  /** Write a blackhole plane and record its new rmax at its z. */
  function Record(st: BhState, k: Key, r: Radii, actual: real): BhState {
    BhState(Put(st.modified, k, r), st.changes[k.z := r.rmax], actual)
  }

  /** One iteration of the loop over the base entries. */
  function Step(ctx: Context, st: BhState, e: Entry): BhState {
    if !IsBlackhole(e.key.name) then st.(modified := Put(st.modified, e.key, e.radii))
    else if Skipped(ctx, e) then st
    else Record(st, StepKey(ctx, e), StepRadii(ctx, st, e), StepActual(ctx, st, e))
  }

  /** The loop run over `entries` from state `st`. */
  function Run(ctx: Context, entries: Table, st: BhState): BhState
    decreases |entries|
  {
    if entries == [] then st
    else Step(ctx, Run(ctx, entries[..|entries| - 1], st), entries[|entries| - 1])
  }

  function Init(ctx: Context): BhState {
    BhState([], map[], ctx.requested)
  }

  lemma RunPrefix(ctx: Context, base: Table, n: nat, st: BhState)
    requires n < |base|
    ensures Run(ctx, base[..n + 1], st) == Step(ctx, Run(ctx, base[..n], st), base[n])
  {
    assert base[..n + 1][..n] == base[..n];
  }

  /** The fixed part of the loop for a base table, a start and a requested reduction. */
  function ContextFor(base: Table, zStart: real, requested: real): Context
    requires BlackholeMinAbsZ(base).Some?
  {
    Context(BlackholeMinAbsZ(base).value, Max(zStart, MinBlackholeStart), requested, SortedPositionsMap(base))
  }

  /** `modify_blackhole_geometry_absolute`; the empty `min()` of a table without blackhole entries is the error. */
  method ModifyBlackholeGeometryAbsolute(base: Table, zStart: real, rmaxReductionAbsolute: real)
    returns (res: Result<(Table, map<real, real>), string>)
    ensures res.Err? <==> forall i :: 0 <= i < |base| ==> !IsBlackhole(base[i].key.name)
    ensures res.Ok? ==>
      var st := Run(ContextFor(base, zStart, rmaxReductionAbsolute), base, Init(ContextFor(base, zStart, rmaxReductionAbsolute)));
      res.value == (st.modified, st.changes)
  {
    var minZ := BlackholeMinAbsZ(base);
    if minZ.None? {
      return Err("min() arg is an empty sequence");
    }
    var modified: Table := [];
    var changes: map<real, real> := map[];
    var originalMinZ := minZ.value;
    var actualZStart := zStart;
    if actualZStart < MinBlackholeStart {
      actualZStart := MinBlackholeStart;
    }
    var sortedPositions := SortedPositions(base);
    var actualReduction := rmaxReductionAbsolute;
    ghost var ctx := Context(originalMinZ, actualZStart, rmaxReductionAbsolute, sortedPositions);
    assert ctx == ContextFor(base, zStart, rmaxReductionAbsolute);

    var i := 0;
    while i < |base|
      invariant 0 <= i <= |base|
      invariant BhState(modified, changes, actualReduction) == Run(ctx, base[..i], Init(ctx))
    {
      RunPrefix(ctx, base, i, Init(ctx));
      modified, changes, actualReduction :=
        ProcessEntry(originalMinZ, actualZStart, rmaxReductionAbsolute, sortedPositions, base[i], modified, changes, actualReduction);
      i := i + 1;
    }
    assert base[..|base|] == base;
    return Ok((modified, changes));
  }

  /** The body of the loop of `modify_blackhole_geometry_absolute` for one base entry. */
  method ProcessEntry(originalMinZ: real, actualZStart: real, rmaxReductionAbsolute: real,
                      sortedPositions: map<string, seq<Position>>, e: Entry,
                      modified: Table, changes: map<real, real>, actualReduction: real)
    returns (modified': Table, changes': map<real, real>, actualReduction': real)
    ensures BhState(modified', changes', actualReduction')
      == Step(Context(originalMinZ, actualZStart, rmaxReductionAbsolute, sortedPositions), BhState(modified, changes, actualReduction), e)
  {
    ghost var ctx := Context(originalMinZ, actualZStart, rmaxReductionAbsolute, sortedPositions);
    ghost var before := BhState(modified, changes, actualReduction);
    modified', changes', actualReduction' := modified, changes, actualReduction;
    var name, z, rmin, rmax := e.key.name, e.key.z, e.radii.rmin, e.radii.rmax;
    if !IsBlackhole(name) {
      modified' := Put(modified, Key(name, z), Radii(rmin, rmax));
      return;
    }
    var absZ := Abs(z);
    var sign := if z > 0.0 then 1.0 else -1.0;
    if absZ < actualZStart && absZ != originalMinZ {
      return;
    }
    if absZ == originalMinZ {
      var rminAtStart, rmaxAtStart;
      if actualZStart < originalMinZ {
        rminAtStart, rmaxAtStart := StartPlaneRadii(name, actualZStart, sortedPositions);
        var availableSpace := rmaxAtStart - rminAtStart;
        if rmaxReductionAbsolute >= availableSpace - MinThicknessPreservation {
          actualReduction' := Max(0.0, availableSpace - MinThicknessPreservation);
        }
      } else {
        rminAtStart, rmaxAtStart := rmin, rmax;
        var availableSpace := rmax - rmin;
        if actualReduction' >= availableSpace - MinThicknessPreservation {
          actualReduction' := Max(0.0, availableSpace - MinThicknessPreservation);
        }
      }
      var newZ := sign * actualZStart;
      var newRmax := Max(rminAtStart + MinThicknessPreservation, rmaxAtStart - actualReduction');
      assert StepKey(ctx, e) == Key(name, newZ);
      assert StepActual(ctx, before, e) == actualReduction';
      assert StepRadii(ctx, before, e) == Radii(rminAtStart, newRmax);
      modified' := Put(modified, Key(name, newZ), Radii(rminAtStart, newRmax));
      changes' := changes[newZ := newRmax];
    } else {
      var availableSpace := rmax - rmin;
      var pointReduction := actualReduction;
      if pointReduction >= availableSpace - MinThicknessPreservation {
        pointReduction := Max(0.0, availableSpace - MinThicknessPreservation);
      }
      var newRmax := Max(rmin + MinThicknessPreservation, rmax - pointReduction);
      assert StepRadii(ctx, before, e) == Radii(rmin, newRmax);
      modified' := Put(modified, Key(name, z), Radii(rmin, newRmax));
      changes' := changes[z := newRmax];
    }
  }

  /** The radii of a new start plane before the original first plane, from the nozzle's first two planes or the fallback. */
  method StartPlaneRadii(name: string, actualZStart: real, sortedPositions: map<string, seq<Position>>)
    returns (rminAtStart: real, rmaxAtStart: real)
    ensures Radii(rminAtStart, rmaxAtStart) == StartRadii(actualZStart, sortedPositions, name)
  {
    var nozzleName := ReplaceAll(name, "Blackhole", "W");
    var nozzlePositions := if nozzleName in sortedPositions then sortedPositions[nozzleName] else [];
    if |nozzlePositions| >= 2 {
      var p0, p1 := nozzlePositions[0], nozzlePositions[1];
      rmaxAtStart := InterpolateGeometryValues(actualZStart, p0.absZ, p1.absZ, p0.rmin, p0.rmax, p1.rmin, p1.rmax).rmax;
      rminAtStart := rmaxAtStart - 0.001;
      rminAtStart := Max(0.0001, rminAtStart);
    } else {
      rminAtStart := 0.0001;
      rmaxAtStart := 0.001;
    }
  }
}
