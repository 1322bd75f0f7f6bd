/**
 * What `modify_blackhole_geometry_absolute` guarantees about its result,
 * proved on the fold `Blackhole.Run` that its loop computes.
 */
module BlackholeProperties {
  import opened Wrappers
  import opened Geometry
  import opened Interpolation
  import opened Numerals
  import opened Blackhole

  /** The dict and changes returned for a table with at least one blackhole entry. */
  function Outcome(base: Table, zStart: real, requested: real): BhState
    requires BlackholeMinAbsZ(base).Some?
  {
    var ctx := ContextFor(base, zStart, requested);
    Run(ctx, base, Init(ctx))
  }

  // ---------------------------------------------------------------------
  // invariants of the loop
  // ---------------------------------------------------------------------

  /** Every written blackhole plane keeps the minimum thickness and lies at or after the start. */
  ghost predicate BlackholePlanesSound(ctx: Context, st: BhState) {
    forall x :: x in st.modified && IsBlackhole(x.key.name) ==>
      x.radii.rmax >= x.radii.rmin + MinThicknessPreservation && Abs(x.key.z) >= ctx.start
  }

  /** Every other entry of the output is an entry of the base table. */
  ghost predicate OthersFromBase(base: Table, st: BhState) {
    forall x :: x in st.modified && !IsBlackhole(x.key.name) ==> x in base
  }

  /** The other entries among the first `n` base entries are in the output with their radii. */
  ghost predicate OthersCopied(base: Table, n: nat, st: BhState)
    requires n <= |base|
  {
    forall j :: 0 <= j < n && !IsBlackhole(base[j].key.name) ==> Get(st.modified, base[j].key) == Some(base[j].radii)
  }

  ghost predicate Shape(ctx: Context, base: Table, n: nat, st: BhState)
    requires n <= |base|
  {
    IsDict(st.modified) && BlackholePlanesSound(ctx, st) && OthersFromBase(base, st) && OthersCopied(base, n, st)
  }

  /** The start moved to on either side keeps its distance from the tip. */
  lemma StepKeyFacts(ctx: Context, e: Entry)
    requires ctx.start > 0.0 && IsBlackhole(e.key.name) && !Skipped(ctx, e)
    ensures StepKey(ctx, e).name == e.key.name
    ensures Abs(StepKey(ctx, e).z) >= ctx.start
    ensures StepKey(ctx, e).z > 0.0 <==> e.key.z > 0.0
  {
  }

  lemma StepShapeOther(ctx: Context, base: Table, n: nat, st: BhState)
    requires n < |base| && IsDict(base) && !IsBlackhole(base[n].key.name)
    requires Shape(ctx, base, n, st)
    ensures Shape(ctx, base, n + 1, Step(ctx, st, base[n]))
  {
    var e := base[n];
    var m := st.modified;
    var m' := Put(m, e.key, e.radii);
    PutIsDict(m, e.key, e.radii);
    PutMembers(m, e.key, e.radii);
    forall j | 0 <= j < n + 1 && !IsBlackhole(base[j].key.name)
      ensures Get(m', base[j].key) == Some(base[j].radii)
    {
      PutGet(m, e.key, e.radii, base[j].key);
    }
  }

  lemma StepShapeBlackhole(ctx: Context, base: Table, n: nat, st: BhState)
    requires n < |base| && IsDict(base) && ctx.start > 0.0
    requires IsBlackhole(base[n].key.name) && !Skipped(ctx, base[n])
    requires Shape(ctx, base, n, st)
    ensures Shape(ctx, base, n + 1, Step(ctx, st, base[n]))
  {
    var e := base[n];
    var m := st.modified;
    var k := StepKey(ctx, e);
    var r := StepRadii(ctx, st, e);
    var m' := Put(m, k, r);
    StepKeyFacts(ctx, e);
    PutIsDict(m, k, r);
    PutMembers(m, k, r);
    forall j | 0 <= j < n + 1 && !IsBlackhole(base[j].key.name)
      ensures Get(m', base[j].key) == Some(base[j].radii)
    {
      assert base[j].key != k;
      PutGet(m, k, r, base[j].key);
    }
  }

  lemma StepShape(ctx: Context, base: Table, n: nat, st: BhState)
    requires n < |base| && IsDict(base) && ctx.start > 0.0
    requires Shape(ctx, base, n, st)
    ensures Shape(ctx, base, n + 1, Step(ctx, st, base[n]))
  {
    if !IsBlackhole(base[n].key.name) {
      StepShapeOther(ctx, base, n, st);
    } else if !Skipped(ctx, base[n]) {
      StepShapeBlackhole(ctx, base, n, st);
    }
  }

  lemma {:induction false} RunShape(ctx: Context, base: Table, n: nat)
    requires n <= |base| && IsDict(base) && ctx.start > 0.0
    ensures Shape(ctx, base, n, Run(ctx, base[..n], Init(ctx)))
    decreases n
  {
    if n == 0 {
      assert base[..0] == [];
    } else {
      RunShape(ctx, base, n - 1);
      RunPrefix(ctx, base, n - 1, Init(ctx));
      StepShape(ctx, base, n - 1, Run(ctx, base[..n - 1], Init(ctx)));
    }
  }

  /** One step keeps the running reduction within `[0, requested]`. */
  lemma StepActualBounds(ctx: Context, st: BhState, e: Entry)
    requires 0.0 <= st.actual <= ctx.requested
    ensures 0.0 <= Step(ctx, st, e).actual <= ctx.requested
  {
  }

  lemma {:induction false} RunActualBounds(ctx: Context, entries: Table)
    requires 0.0 <= ctx.requested
    ensures 0.0 <= Run(ctx, entries, Init(ctx)).actual <= ctx.requested
    decreases |entries|
  {
    if entries != [] {
      RunActualBounds(ctx, entries[..|entries| - 1]);
      StepActualBounds(ctx, Run(ctx, entries[..|entries| - 1], Init(ctx)), entries[|entries| - 1]);
    }
  }

  /** The blackhole components: one name for the planes at positive z, one for the others. */
  predicate OneNamePerSide(base: Table) {
    forall i, j ::
      (0 <= i < |base| && 0 <= j < |base| && IsBlackhole(base[i].key.name) && IsBlackhole(base[j].key.name)
       && (base[i].key.z > 0.0 <==> base[j].key.z > 0.0)) ==> base[i].key.name == base[j].key.name
  }

  /** Every written blackhole plane has its rmax recorded at its z. */
  ghost predicate ChangesRecorded(st: BhState) {
    forall x :: x in st.modified && IsBlackhole(x.key.name) ==>
      x.key.z in st.changes && st.changes[x.key.z] == x.radii.rmax
  }

  /** A written blackhole plane carries the name of the base's blackhole planes on its side. */
  ghost predicate SidesNamed(base: Table, st: BhState) {
    forall x, j ::
      (x in st.modified && 0 <= j < |base| && IsBlackhole(x.key.name) && IsBlackhole(base[j].key.name)
       && (x.key.z > 0.0 <==> base[j].key.z > 0.0)) ==> x.key.name == base[j].key.name
  }

  lemma StepChanges(ctx: Context, base: Table, n: nat, st: BhState)
    requires n < |base| && ctx.start > 0.0 && OneNamePerSide(base)
    requires IsDict(st.modified) && ChangesRecorded(st) && SidesNamed(base, st)
    ensures ChangesRecorded(Step(ctx, st, base[n])) && SidesNamed(base, Step(ctx, st, base[n]))
  {
    var e := base[n];
    var m := st.modified;
    if !IsBlackhole(e.key.name) {
      PutMembers(m, e.key, e.radii);
    } else if !Skipped(ctx, e) {
      var k := StepKey(ctx, e);
      var r := StepRadii(ctx, st, e);
      var st' := Step(ctx, st, e);
      StepKeyFacts(ctx, e);
      PutMembers(m, k, r);
      forall x | x in m && IsBlackhole(x.key.name) && x.key != k
        ensures x.key.z != k.z
      {
        assert (x.key.z > 0.0 <==> base[n].key.z > 0.0) ==> x.key.name == e.key.name;
      }
    }
  }

  /** What the loop keeps about the written planes: a dict, each blackhole plane's rmax recorded, names by side. */
  ghost predicate ChangesKept(base: Table, st: BhState) {
    IsDict(st.modified) && ChangesRecorded(st) && SidesNamed(base, st)
  }

  lemma {:induction false} RunChanges(ctx: Context, base: Table, n: nat)
    requires n <= |base| && ctx.start > 0.0 && OneNamePerSide(base)
    ensures ChangesKept(base, Run(ctx, base[..n], Init(ctx)))
    decreases n
  {
    if n == 0 {
      InitChangesKept(ctx, base, Run(ctx, base[..0], Init(ctx)));
    } else {
      RunChanges(ctx, base, n - 1);
      StepKeepsChanges(ctx, base, n - 1, Run(ctx, base[..n - 1], Init(ctx)), Run(ctx, base[..n], Init(ctx)));
    }
  }

  /** Before the loop nothing is written, so there is nothing to keep. */
  lemma InitChangesKept(ctx: Context, base: Table, st: BhState)
    requires st == Run(ctx, base[..0], Init(ctx))
    ensures ChangesKept(base, st)
  {
    assert base[..0] == [];
  }

  /** One step of the loop keeps the written planes a dict, recorded and named by side. */
  lemma StepKeepsChanges(ctx: Context, base: Table, n: nat, st: BhState, next: BhState)
    requires n < |base| && ctx.start > 0.0 && OneNamePerSide(base)
    requires ChangesKept(base, st)
    requires st == Run(ctx, base[..n], Init(ctx)) && next == Run(ctx, base[..n + 1], Init(ctx))
    ensures ChangesKept(base, next)
  {
    RunPrefix(ctx, base, n, Init(ctx));
    StepChanges(ctx, base, n, st);
    PutIsDictStep(ctx, st, base[n]);
  }

  lemma PutIsDictStep(ctx: Context, st: BhState, e: Entry)
    requires IsDict(st.modified)
    ensures IsDict(Step(ctx, st, e).modified)
  {
    if !IsBlackhole(e.key.name) {
      PutIsDict(st.modified, e.key, e.radii);
    } else if !Skipped(ctx, e) {
      PutIsDict(st.modified, StepKey(ctx, e), StepRadii(ctx, st, e));
    }
  }

  /** Once a key is written, later steps never remove it. */
  lemma {:induction false} RunKeepsKeys(ctx: Context, base: Table, m: nat, n: nat, k: Key)
    requires m <= n <= |base|
    requires HasKey(Run(ctx, base[..m], Init(ctx)).modified, k)
    ensures HasKey(Run(ctx, base[..n], Init(ctx)).modified, k)
    decreases n - m
  {
    if m < n {
      RunPrefix(ctx, base, m, Init(ctx));
      var st := Run(ctx, base[..m], Init(ctx));
      var e := base[m];
      if !IsBlackhole(e.key.name) {
        PutKeepsKeys(st.modified, e.key, e.radii, k);
      } else if !Skipped(ctx, e) {
        PutKeepsKeys(st.modified, StepKey(ctx, e), StepRadii(ctx, st, e), k);
      }
      RunKeepsKeys(ctx, base, m + 1, n, k);
    }
  }

  lemma StepWritesKey(ctx: Context, st: BhState, e: Entry)
    requires IsBlackhole(e.key.name) && !Skipped(ctx, e)
    ensures HasKey(Step(ctx, st, e).modified, StepKey(ctx, e))
  {
    PutGet(st.modified, StepKey(ctx, e), StepRadii(ctx, st, e), StepKey(ctx, e));
  }

  // ---------------------------------------------------------------------
  // the guarantees, stated on the returned dict and changes
  // ---------------------------------------------------------------------

  /** The start is raised to the minimum start. */
  lemma StartClamped(base: Table, zStart: real, requested: real)
    requires BlackholeMinAbsZ(base).Some?
    ensures ContextFor(base, zStart, requested).start >= MinBlackholeStart
    ensures zStart >= MinBlackholeStart ==> ContextFor(base, zStart, requested).start == zStart
  {
  }

  /** Entries of other components are copied unchanged, and every other entry of the result comes from the base. */
  lemma ModifyCopiesOthers(base: Table, zStart: real, requested: real)
    requires BlackholeMinAbsZ(base).Some? && IsDict(base)
    ensures var out := Outcome(base, zStart, requested).modified;
      IsDict(out)
      && (forall j :: 0 <= j < |base| && !IsBlackhole(base[j].key.name) ==> Get(out, base[j].key) == Some(base[j].radii))
      && (forall x :: x in out && !IsBlackhole(x.key.name) ==> x in base)
  {
    var ctx := ContextFor(base, zStart, requested);
    RunShape(ctx, base, |base|);
    assert base[..|base|] == base;
  }

  /**
   * No blackhole plane lies closer to the tip than the start (planes before
   * it are dropped, the original first plane is moved to it), and every
   * blackhole plane keeps at least the minimum thickness.
   */
  lemma ModifyBlackholePlanes(base: Table, zStart: real, requested: real)
    requires BlackholeMinAbsZ(base).Some? && IsDict(base)
    ensures var out := Outcome(base, zStart, requested).modified;
      forall x :: x in out && IsBlackhole(x.key.name) ==>
        Abs(x.key.z) >= Max(zStart, MinBlackholeStart) && x.radii.rmax >= x.radii.rmin + MinThicknessPreservation
  {
    var ctx := ContextFor(base, zStart, requested);
    RunShape(ctx, base, |base|);
    assert base[..|base|] == base;
  }

  /**
   * Every blackhole plane of the base that is not dropped is written: the
   * original first plane at the start on its side, the others at their own z.
   */
  lemma RunWritesPlane(ctx: Context, base: Table, j: int)
    requires 0 <= j < |base| && IsBlackhole(base[j].key.name) && !Skipped(ctx, base[j])
    ensures HasKey(Run(ctx, base, Init(ctx)).modified, StepKey(ctx, base[j]))
  {
    RunPrefix(ctx, base, j, Init(ctx));
    StepWritesKey(ctx, Run(ctx, base[..j], Init(ctx)), base[j]);
    RunKeepsKeys(ctx, base, j + 1, |base|, StepKey(ctx, base[j]));
    assert base[..|base|] == base;
  }

  lemma ModifyKeepsPlanes(base: Table, zStart: real, requested: real, j: int)
    requires BlackholeMinAbsZ(base).Some?
    requires 0 <= j < |base| && IsBlackhole(base[j].key.name)
    requires Abs(base[j].key.z) >= Max(zStart, MinBlackholeStart) || Abs(base[j].key.z) == BlackholeMinAbsZ(base).value
    ensures var ctx := ContextFor(base, zStart, requested);
      HasKey(Outcome(base, zStart, requested).modified, StepKey(ctx, base[j]))
  {
    RunWritesPlane(ContextFor(base, zStart, requested), base, j);
  }

  /**
   * With one blackhole component per side, the rmax of every written
   * blackhole plane is the one recorded in the changes at its z.
   */
  lemma ModifyRecordsChanges(base: Table, zStart: real, requested: real)
    requires BlackholeMinAbsZ(base).Some? && OneNamePerSide(base)
    ensures var out := Outcome(base, zStart, requested);
      forall x :: x in out.modified && IsBlackhole(x.key.name) ==>
        x.key.z in out.changes && out.changes[x.key.z] == x.radii.rmax
  {
    var ctx := ContextFor(base, zStart, requested);
    RunChanges(ctx, base, |base|);
    assert base[..|base|] == base;
  }

  /** A non-negative requested reduction keeps the running reduction within `[0, requested]`. */
  lemma ModifyActualBounds(base: Table, zStart: real, requested: real)
    requires BlackholeMinAbsZ(base).Some? && requested >= 0.0
    ensures 0.0 <= Outcome(base, zStart, requested).actual <= requested
  {
    RunActualBounds(ContextFor(base, zStart, requested), base);
  }

  /**
   * A blackhole plane after the start keeps its rmin; its rmax loses the
   * running reduction, or less where the plane is too thin, so it never
   * drops below `rmax - actual`, and never grows when the plane had the
   * minimum thickness to begin with.
   */
  lemma RegularPlaneReduced(ctx: Context, st: BhState, e: Entry)
    requires IsBlackhole(e.key.name) && !Skipped(ctx, e) && Abs(e.key.z) != ctx.originalMinZ && st.actual >= 0.0
    ensures var r := StepRadii(ctx, st, e);
      r.rmin == e.radii.rmin
      && r.rmax >= e.radii.rmax - st.actual
      && (e.radii.rmax - e.radii.rmin >= MinThicknessPreservation ==> r.rmax <= e.radii.rmax)
      && (st.actual < e.radii.rmax - e.radii.rmin - MinThicknessPreservation ==> r.rmax == e.radii.rmax - st.actual)
    ensures Step(ctx, st, e).actual == st.actual
    ensures StepKey(ctx, e) == e.key
  {
  }

  /**
   * The running reduction is what the step at the original first plane
   * leaves: when the start lies before that plane it is capped by the
   * thickness of the new start plane and never by a later one.
   */
  lemma StartBeforeFirstPlaneCaps(ctx: Context, st: BhState, e: Entry)
    requires IsBlackhole(e.key.name) && Abs(e.key.z) == ctx.originalMinZ && ctx.start < ctx.originalMinZ
    ensures var s := StartRadii(ctx.start, ctx.sorted, e.key.name);
      ctx.requested >= s.rmax - s.rmin - MinThicknessPreservation ==>
        Step(ctx, st, e).actual == Max(0.0, s.rmax - s.rmin - MinThicknessPreservation)
  {
  }
}

/**
 * The blackhole rewrite as the variant generator calls it: on the blackhole
 * base table alone. That table holds no nozzle planes, so a new start plane
 * always gets the fallback radii, and a start before the right side's first
 * plane caps the running reduction at 0.0008 for every later plane.
 */
module BlackholeInGeneration {
  import opened Wrappers
  import opened Geometry
  import opened Interpolation
  import opened Numerals
  import opened Text
  import opened Blackhole
  import opened BlackholeProperties

  const RightName := "NozzleBlackhole_right"
  const LeftName := "NozzleBlackhole_left"

  /** Both blackhole component names contain "Blackhole" after "Nozzle". */
  lemma BlackholeNames()
    ensures IsBlackhole(RightName) && IsBlackhole(LeftName)
  {
    assert RightName[6..15] == "Blackhole";
    HasInfixAt(RightName, "Blackhole", 6);
    assert LeftName[6..15] == "Blackhole";
    HasInfixAt(LeftName, "Blackhole", 6);
  }

  /** The base table's planes: right side at positive z, left side at negative z, all at least 4.5176 from the tip. */
  lemma BaseLayout()
    ensures var b := BlackholeBase();
      |b| == 12
      && (forall i :: 0 <= i < |b| ==> Abs(b[i].key.z) >= 4.5176)
      && (forall i :: 0 <= i < |b| ==> (b[i].key.z > 0.0 ==> b[i].key.name == RightName))
      && (forall i :: 0 <= i < |b| ==> (b[i].key.z <= 0.0 ==> b[i].key.name == LeftName))
      && (forall i :: 1 <= i < |b| ==> Abs(b[i].key.z) > 4.5176)
      && b[0] == E(RightName, 4.5176, 0.79922, 0.79922)
  {
    var o := BlackholeOriginal();
    var b := BlackholeBase();
    assert forall i :: 0 <= i < |b| ==> b[i].key.z == o[i].key.z - 6.0 && b[i].key.name == o[i].key.name;
  }

  lemma BaseMinAbsZ()
    ensures BlackholeMinAbsZ(BlackholeBase()).Some?
    ensures BlackholeMinAbsZ(BlackholeBase()).value == 4.5176
  {
    BaseLayout();
    var b := BlackholeBase();
    BlackholeNames();
    assert b[0].key.name == RightName;
  }

  lemma BaseOneNamePerSide()
    ensures OneNamePerSide(BlackholeBase())
  {
    BaseLayout();
  }

  /** Both component names contain "Blackhole", and replacing it never yields a name of the table. */
  lemma NozzleNameAbsent(name: string)
    requires name == RightName || name == LeftName
    ensures ReplaceAll(name, "Blackhole", "W") !in NamesOf(BlackholeBase())
  {
    BaseLayout();
    BlackholeNames();
    ReplaceShrinks(name, "Blackhole", "W");
    var b := BlackholeBase();
    forall e | e in b
      ensures |e.key.name| >= 20
    {
    }
  }

  /** The fixed part of the loop when variant generation calls the rewrite on the blackhole base table. */
  function GenerationContext(zStart: real, requested: real): Context {
    Context(4.5176, Max(zStart, MinBlackholeStart), requested, SortedPositionsMap(BlackholeBase()))
  }

  lemma GenerationContextIs(zStart: real, requested: real)
    ensures BlackholeMinAbsZ(BlackholeBase()).Some?
    ensures ContextFor(BlackholeBase(), zStart, requested) == GenerationContext(zStart, requested)
  {
    BaseMinAbsZ();
  }

  /** During variant generation, a new start plane always gets the fallback radii `(0.0001, 0.001)`. */
  lemma GenerationStartRadii(zStart: real, requested: real, name: string)
    requires name == RightName || name == LeftName
    ensures var ctx := GenerationContext(zStart, requested);
      StartRadii(ctx.start, ctx.sorted, name) == Radii(0.0001, 0.001)
  {
    NozzleNameAbsent(name);
  }

  /** A start before the right side's first plane caps the reduction at 0.0008 on that first step. */
  lemma GenerationFirstStep(zStart: real, requested: real)
    requires Max(zStart, MinBlackholeStart) < 4.5176 && requested >= 0.0008
    ensures var ctx := GenerationContext(zStart, requested);
      Run(ctx, BlackholeBase()[..1], Init(ctx)).actual == 0.0008
  {
    var ctx := GenerationContext(zStart, requested);
    var b := BlackholeBase();
    BaseLayout();
    BlackholeNames();
    GenerationStartRadii(zStart, requested, RightName);
    RunPrefix(ctx, b, 0, Init(ctx));
    assert b[..0] == [];
  }

  /** After that first step the running reduction stays at 0.0008, whatever was requested. */
  lemma {:induction false} GenerationActualStays(zStart: real, requested: real, n: nat)
    requires Max(zStart, MinBlackholeStart) < 4.5176 && requested >= 0.0008
    requires 1 <= n <= |BlackholeBase()|
    ensures var ctx := GenerationContext(zStart, requested);
      Run(ctx, BlackholeBase()[..n], Init(ctx)).actual == 0.0008
    decreases n
  {
    var ctx := GenerationContext(zStart, requested);
    if n == 1 {
      GenerationFirstStep(zStart, requested);
    } else {
      BaseLayout();
      GenerationActualStays(zStart, requested, n - 1);
      RunPrefix(ctx, BlackholeBase(), n - 1, Init(ctx));
    }
  }

  /** The step at a base plane after the first writes that plane's key. */
  function WrittenKey(ctx: Context, e: Entry): Key {
    if IsBlackhole(e.key.name) then StepKey(ctx, e) else e.key
  }

  /** A value stays in the output while the later steps write other keys. */
  lemma {:induction false} RunGetStays(ctx: Context, base: Table, m: nat, n: nat, k: Key, v: Radii)
    requires m <= n <= |base|
    requires Get(Run(ctx, base[..m], Init(ctx)).modified, k) == Some(v)
    requires forall i :: m <= i < n ==> WrittenKey(ctx, base[i]) != k
    ensures Get(Run(ctx, base[..n], Init(ctx)).modified, k) == Some(v)
    decreases n - m
  {
    if m < n {
      RunPrefix(ctx, base, m, Init(ctx));
      var st := Run(ctx, base[..m], Init(ctx));
      var e := base[m];
      if !IsBlackhole(e.key.name) {
        PutGet(st.modified, e.key, e.radii, k);
      } else if !Skipped(ctx, e) {
        PutGet(st.modified, StepKey(ctx, e), StepRadii(ctx, st, e), k);
      }
      RunGetStays(ctx, base, m + 1, n, k, v);
    }
  }

  /**
   * Consequence: with a start before 4.5176 and any requested reduction of
   * at least 0.0008, every kept plane after the first keeps its rmin and
   * loses at most 0.0008 of its rmax in the returned dict (`GenerationContextIs`
   * makes this the dict `ModifyBlackholeGeometryAbsolute` returns).
   */
  lemma GenerationReductionCollapses(zStart: real, requested: real, j: int)
    requires Max(zStart, MinBlackholeStart) < 4.5176 && requested >= 0.0008
    requires 1 <= j < |BlackholeBase()| && Abs(BlackholeBase()[j].key.z) >= Max(zStart, MinBlackholeStart)
    ensures var e := BlackholeBase()[j];
      var ctx := GenerationContext(zStart, requested);
      var out := Run(ctx, BlackholeBase(), Init(ctx)).modified;
      Get(out, e.key).Some?
      && Get(out, e.key).value.rmin == e.radii.rmin
      && Get(out, e.key).value.rmax >= e.radii.rmax - 0.0008
  {
    var ctx := GenerationContext(zStart, requested);
    var b := BlackholeBase();
    var r := GenerationStepAt(zStart, requested, j);
    GenerationLaterKeys(zStart, requested, j);
    RunGetStays(ctx, b, j + 1, |b|, b[j].key, r);
    assert b[..|b|] == b;
  }

  /** The step at plane `j` writes radii with its rmin and at most 0.0008 less rmax under its key. */
  lemma GenerationStepAt(zStart: real, requested: real, j: int) returns (r: Radii)
    requires Max(zStart, MinBlackholeStart) < 4.5176 && requested >= 0.0008
    requires 1 <= j < |BlackholeBase()| && Abs(BlackholeBase()[j].key.z) >= Max(zStart, MinBlackholeStart)
    ensures var e := BlackholeBase()[j];
      var ctx := GenerationContext(zStart, requested);
      Get(Run(ctx, BlackholeBase()[..j + 1], Init(ctx)).modified, e.key) == Some(r)
      && r.rmin == e.radii.rmin && r.rmax >= e.radii.rmax - 0.0008
  {
    var ctx := GenerationContext(zStart, requested);
    var b := BlackholeBase();
    var e := b[j];
    BaseLayout();
    BlackholeNames();
    assert IsBlackhole(e.key.name);
    GenerationActualStays(zStart, requested, j);
    var st := Run(ctx, b[..j], Init(ctx));
    RegularPlaneReduced(ctx, st, e);
    r := StepRadii(ctx, st, e);
    RunPrefix(ctx, b, j, Init(ctx));
    PutGet(st.modified, e.key, r, e.key);
  }

  /** The steps after plane `j` write other keys. */
  lemma GenerationLaterKeys(zStart: real, requested: real, j: int)
    requires Max(zStart, MinBlackholeStart) < 4.5176
    requires 1 <= j < |BlackholeBase()|
    ensures var ctx := GenerationContext(zStart, requested);
      var b := BlackholeBase();
      forall i :: j + 1 <= i < |b| ==> WrittenKey(ctx, b[i]) != b[j].key
  {
    var ctx := GenerationContext(zStart, requested);
    var b := BlackholeBase();
    BaseLayout();
    BaseTablesAreDicts();
    BlackholeNames();
    forall i | j + 1 <= i < |b|
      ensures WrittenKey(ctx, b[i]) != b[j].key
    {
      assert b[i].key != b[j].key;
    }
  }
}
