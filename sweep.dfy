/**
 * The earlier 100-step sweep: at each step a kill zone made of the
 * tungsten planes at or beyond a moving front, a tungsten nozzle with a
 * shrinking inner radius, and the fixed borated polyethylene blocks are
 * written as one detector file; the include line of the steering geometry
 * is pointed at it; then every kill-zone outer radius shrinks by one step,
 * never below its plane's inner radius.
 */
module KillZoneSweep {
  import opened Wrappers
  import opened Text
  import opened Numerals
  import opened Interpolation

  // ---------------------------------------------------------------------
  // bounds and steps
  // ---------------------------------------------------------------------

  const ZStart: real := 6.0
  const ZEnd: real := 600.0
  const RStart: real := 50.0
  const REnd: real := 1.78
  const NumSteps: nat := 100
  /** `(z_end - z_start) / (num_steps - 1)`, with `num_steps - 1` written out as 99. */
  const ZStep: real := (ZEnd - ZStart) / 99.0
  /** `(r_start - r_end) / (num_steps - 1)`. */
  const RStep: real := (RStart - REnd) / 99.0

  /** `r = max(r_end, r_start - step * r_step)`: the nozzle's inner radius at a step. */
  function StepRadius(step: nat): (r: real)
    ensures REnd <= r <= RStart
  {
    Max(REnd, RStart - step as real * RStep)
  }

  /** `z_front = z_start + step * z_step`: where the kill zone begins at a step. */
  function ZFront(step: nat): (z: real)
    ensures z >= ZStart
  {
    ZStart + step as real * ZStep
  }

  /**
   * Within the sweep the radius falls linearly from 50 to 1.78 without the
   * lower bound ever applying, and it never grows from one step to the next.
   */
  lemma RadiusSchedule(step: nat)
    ensures REnd <= StepRadius(step) <= RStart
    ensures StepRadius(step + 1) <= StepRadius(step)
    ensures step < NumSteps ==> StepRadius(step) == RStart - step as real * RStep
    ensures StepRadius(0) == RStart && StepRadius(NumSteps - 1) == REnd
  {
    assert RStep == 48.22 / 99.0;
  }

  /** The front moves by 6 cm per step, from 6 at the first step to 600 at the last. */
  lemma FrontSchedule(step: nat)
    ensures ZStep == 6.0
    ensures ZFront(step) == 6.0 + 6.0 * step as real
    ensures ZFront(step) < ZFront(step + 1)
    ensures ZFront(0) == ZStart && ZFront(NumSteps - 1) == ZEnd
  {
  }

  /**
   * The nozzle's tip plane is written with the outer radius 2.59223, so for
   * the first 98 steps its inner radius exceeds its outer radius.
   */
  lemma TipPlaneInverted(step: nat)
    requires step <= 97
    ensures StepRadius(step) > NozzleRmaxValue
  {
    RadiusSchedule(step);
    assert RStep == 48.22 / 99.0;
  }

  // ---------------------------------------------------------------------
  // template constants
  // ---------------------------------------------------------------------

  const NozzleRmaxValue: real := 2.59223
  /** `str(nozzle_rmax)`. */
  const NozzleRmaxText: string := "2.59223"

  /**
   * The plane names. They only serve as keys of `rmax_dict` and never
   * appear in the written text, so they are an enumeration here.
   */
  datatype PlaneName = Tip | Kink1 | Kink2 | Z200 | Z600

  /** An entry of `zplanes_all`: `(name, z, rmax)`. */
  datatype PlaneSpec = PlaneSpec(name: PlaneName, z: real, rmax: real)

  function ZplanesAll(): seq<PlaneSpec> {
    [ PlaneSpec(Tip, 6.0, 2.49223),
      PlaneSpec(Kink1, 100.0, 13.53),
      PlaneSpec(Kink2, 100.0, 11.0),
      PlaneSpec(Z200, 200.0, 13.0),
      PlaneSpec(Z600, 600.0, 50.0) ]
  }

  /** `z_rmin_defaults`: the inner radius of the planes at each z. */
  function ZRminDefaults(): map<real, real> {
    map[6.0 := 0.3, 100.0 := 0.3, 200.0 := 0.596, 600.0 := 1.78]
  }

  /** The keys of `rmax_dict` in insertion order, that of `zplanes_all`. */
  function Names(): seq<PlaneName> {
    [Tip, Kink1, Kink2, Z200, Z600]
  }

  /** `rmax_dict = {name: r for name, _, r in zplanes_all}`: the outer radii before the first step. */
  function InitialRmax(): map<PlaneName, real> {
    map[Tip := 2.49223, Kink1 := 13.53, Kink2 := 11.0, Z200 := 13.0, Z600 := 50.0]
  }

  /** A dictionary with a value for every plane name. */
  predicate Complete(m: map<PlaneName, real>) {
    forall n: PlaneName :: n in m
  }

  /** Every plane of `zplanes_all` has its inner radius in `z_rmin_defaults` and its outer radius in a complete dictionary. */
  lemma PlanesDescribed(rmaxDict: map<PlaneName, real>)
    requires Complete(rmaxDict)
    ensures forall i :: 0 <= i < |ZplanesAll()| ==> Described(ZplanesAll()[i], rmaxDict)
  {
  }

  /** `zplanes_all` is listed by increasing z. */
  lemma PlanesSorted()
    ensures forall i, j :: 0 <= i < j < |ZplanesAll()| ==> ZplanesAll()[i].z <= ZplanesAll()[j].z
  {
  }

  lemma InitialComplete()
    ensures Complete(InitialRmax())
  {
    forall n: PlaneName
      ensures n in InitialRmax()
    {
      AllNames(n);
    }
  }

  lemma NamesDistinct()
    ensures forall i, j :: 0 <= i < j < |Names()| ==> Names()[i] != Names()[j]
  {
  }

  // ---------------------------------------------------------------------
  // the rmax_dict shrink loop
  // ---------------------------------------------------------------------

  /** `[z for n, z, _ in zplanes_all if n == key][0]`: the z of the first plane with that name. */
  function PlaneZ(name: PlaneName, planes: seq<PlaneSpec>): (r: Option<real>)
    ensures r.Some? <==> exists i :: 0 <= i < |planes| && planes[i].name == name
    decreases |planes|
  {
    if planes == [] then None
    else if planes[0].name == name then Some(planes[0].z)
    else
      var rest := PlaneZ(name, planes[1..]);
      assert forall i :: 1 <= i < |planes| ==> planes[1..][i - 1] == planes[i];
      rest
  }

  /** The first plane of a name decides its z. */
  lemma {:induction false} PlaneZAt(name: PlaneName, planes: seq<PlaneSpec>, i: nat)
    requires i < |planes| && planes[i].name == name
    requires forall j :: 0 <= j < i ==> planes[j].name != name
    ensures PlaneZ(name, planes) == Some(planes[i].z)
    decreases i
  {
    if i > 0 {
      PlaneZAt(name, planes[1..], i - 1);
    }
  }

  /** The z of each named plane, as the lookup finds it. */
  lemma PlaneZValues()
    ensures PlaneZ(Tip, ZplanesAll()) == Some(6.0)
    ensures PlaneZ(Kink1, ZplanesAll()) == Some(100.0)
    ensures PlaneZ(Kink2, ZplanesAll()) == Some(100.0)
    ensures PlaneZ(Z200, ZplanesAll()) == Some(200.0)
    ensures PlaneZ(Z600, ZplanesAll()) == Some(600.0)
  {
    PlaneZAt(Kink2, ZplanesAll(), 2);
    PlaneZAt(Z200, ZplanesAll(), 3);
    PlaneZAt(Z600, ZplanesAll(), 4);
  }

  /** The floor of each plane's outer radius: the inner radius at its z. */
  function MinR(name: PlaneName): real {
    match name
    case Tip => 0.3
    case Kink1 => 0.3
    case Kink2 => 0.3
    case Z200 => 0.596
    case Z600 => 1.78
  }

  /**
   * The floors are what `z_rmin_defaults[[z for n, z, _ in zplanes_all if n == key][0]]`
   * finds for each name.
   */
  lemma MinRIsLookup(name: PlaneName)
    ensures PlaneZ(name, ZplanesAll()).Some?
    ensures PlaneZ(name, ZplanesAll()).value in ZRminDefaults()
    ensures MinR(name) == ZRminDefaults()[PlaneZ(name, ZplanesAll()).value]
  {
    PlaneZValues();
    match name
    case Tip =>
    case Kink1 =>
    case Kink2 =>
    case Z200 =>
    case Z600 =>
  }

  /** Every plane starts above its floor. */
  lemma StartsAboveFloor(name: PlaneName)
    ensures 0.0 < MinR(name) < InitialRmax()[name]
  {
    match name
    case Tip =>
    case Kink1 =>
    case Kink2 =>
    case Z200 =>
    case Z600 =>
  }

  /** Every plane name is among the keys, whatever it is. */
  lemma AllNames(name: PlaneName)
    ensures name in Names() && name in InitialRmax()
  {
    match name
    case Tip =>
    case Kink1 =>
    case Kink2 =>
    case Z200 =>
    case Z600 =>
  }

  /** One pass of the shrink loop: every value drops by `r_step`, not below its floor. */
  function Shrunk(m: map<PlaneName, real>): (r: map<PlaneName, real>)
    ensures r.Keys == m.Keys
  {
    map n | n in m :: Max(MinR(n), m[n] - RStep)
  }

  /** `rmax_dict` at the start of step `k`. */
  function RmaxAfter(k: nat): (r: map<PlaneName, real>)
    ensures Complete(r)
  {
    if k == 0 then InitialComplete(); InitialRmax() else Shrunk(RmaxAfter(k - 1))
  }

  /** The shrink loop at the end of each step, over the keys in insertion order. */
  method ShrinkRmax(rmaxDict: map<PlaneName, real>) returns (next: map<PlaneName, real>)
    requires Complete(rmaxDict)
    ensures next == Shrunk(rmaxDict)
  {
    next := rmaxDict;
    var keys := Names();
    var i := 0;
    NamesDistinct();
    while i < |keys|
      invariant 0 <= i <= |keys|
      invariant next.Keys == rmaxDict.Keys
      invariant forall j :: 0 <= j < |keys| ==>
        next[keys[j]] == if j < i then Max(MinR(keys[j]), rmaxDict[keys[j]] - RStep) else rmaxDict[keys[j]]
    {
      var key := keys[i];
      MinRIsLookup(key);
      var minR := ZRminDefaults()[PlaneZ(key, ZplanesAll()).value];
      next := next[key := Max(minR, next[key] - RStep)];
      i := i + 1;
    }
    forall n | n in next
      ensures next[n] == Shrunk(rmaxDict)[n]
    {
      AllNames(n);
      var j :| 0 <= j < |keys| && keys[j] == n;
    }
  }

  /**
   * `rmax_dict` after `k` passes in closed form: the initial value lowered
   * by `k` steps, but never below its floor; so it never grows and never
   * falls below the floor.
   */
  lemma {:induction false} RmaxClosedForm(k: nat, n: PlaneName)
    ensures RmaxAfter(k)[n] == Max(MinR(n), InitialRmax()[n] - k as real * RStep)
    ensures MinR(n) <= RmaxAfter(k)[n]
    ensures RmaxAfter(k + 1)[n] <= RmaxAfter(k)[n]
  {
    StartsAboveFloor(n);
    RmaxIterated(k, n);
    RmaxIterated(k + 1, n);
    ClampedClosedForm(InitialRmax()[n], MinR(n), k);
    ClampedClosedForm(InitialRmax()[n], MinR(n), k + 1);
    assert RStep > 0.0;
  }

  /** A value lowered `k` times by `r_step`, never below `floor`. */
  function Clamped(start: real, floor: real, k: nat): real {
    if k == 0 then start else Max(floor, Clamped(start, floor, k - 1) - RStep)
  }

  lemma {:induction false} RmaxIterated(k: nat, n: PlaneName)
    ensures RmaxAfter(k)[n] == Clamped(InitialRmax()[n], MinR(n), k)
  {
    if k > 0 {
      RmaxIterated(k - 1, n);
      assert RmaxAfter(k) == Shrunk(RmaxAfter(k - 1));
    }
  }

  lemma {:induction false} ClampedClosedForm(start: real, floor: real, k: nat)
    requires floor <= start
    ensures Clamped(start, floor, k) == Max(floor, start - k as real * RStep)
  {
    if k > 0 {
      ClampedClosedForm(start, floor, k - 1);
      var a := start - (k - 1) as real * RStep;
      assert start - k as real * RStep == a - RStep;
      assert RStep > 0.0;
    }
  }

  // ---------------------------------------------------------------------
  // make_killzone
  // ---------------------------------------------------------------------

  /** The z text's sign: none on the right, `-` on the left. */
  function Sign(side: string): string {
    if side == "right" then "" else "-"
  }

  // The fixed pieces of the generated text, kept as named constants.
  const ZplaneOpen: string := "<zplane z=\""
  const RminAttr: string := "\" rmin=\""
  const RmaxAttr: string := "\" rmax=\""
  const ElementClose: string := "\"/>"
  const KillzoneOpen: string := "  <detector name=\"NozzleKillZone_"
  const KillzoneOpenTail: string :=
    "\" type=\"DD4hep_PolyconeSupport\" vis=\"NozzleKillZoneVis\" region=\"NozzleRegion\" limits=\"NozzleRegionLimitSet\">\n    <material name=\"Tungsten\"/>"
  const KillzoneClose: string := "  </detector>"

  /** A `<zplane .../>` element with its three attribute texts. */
  function ZplaneLine(indent: string, z: string, rmin: string, rmax: string): string {
    indent + ZplaneOpen + z + RminAttr + rmin + RmaxAttr + rmax + ElementClose
  }

  function KillzoneHeader(side: string): string {
    KillzoneOpen + side + KillzoneOpenTail
  }

  /** Where a plane's texts come from. */
  predicate Described(p: PlaneSpec, rmaxDict: map<PlaneName, real>) {
    p.z in ZRminDefaults() && p.name in rmaxDict
  }

  /** The line written for a kept plane. */
  function KillzoneLine(side: string, p: PlaneSpec, rmaxDict: map<PlaneName, real>): string
    requires Described(p, rmaxDict)
  {
    ZplaneLine("    ", Sign(side) + Fixed(p.z, 2) + "*cm", Fixed(ZRminDefaults()[p.z], 3) + "*cm", Fixed(rmaxDict[p.name], 5) + "*cm")
  }

  /** The planes at or beyond the front, in list order. */
  function Kept(planes: seq<PlaneSpec>, zFront: real): (r: seq<PlaneSpec>)
    ensures |r| <= |planes|
    decreases |planes|
  {
    if planes == [] then []
    else
      var rest := Kept(planes[..|planes| - 1], zFront);
      if planes[|planes| - 1].z >= zFront then rest + [planes[|planes| - 1]] else rest
  }

  /** The plane lines the loop collects, in list order. */
  function PlaneLines(side: string, planes: seq<PlaneSpec>, zFront: real, rmaxDict: map<PlaneName, real>): (r: seq<string>)
    requires forall i :: 0 <= i < |planes| ==> Described(planes[i], rmaxDict)
    ensures |r| == |Kept(planes, zFront)|
    decreases |planes|
  {
    if planes == [] then []
    else
      var rest := PlaneLines(side, planes[..|planes| - 1], zFront, rmaxDict);
      var p := planes[|planes| - 1];
      if p.z >= zFront then rest + [KillzoneLine(side, p, rmaxDict)] else rest
  }

  /** The collected lines are exactly the lines of the kept planes. */
  lemma {:induction false} PlaneLinesOfKept(side: string, planes: seq<PlaneSpec>, zFront: real, rmaxDict: map<PlaneName, real>)
    requires forall i :: 0 <= i < |planes| ==> Described(planes[i], rmaxDict)
    ensures var kept := Kept(planes, zFront);
      (forall j :: 0 <= j < |kept| ==> kept[j] in planes && Described(kept[j], rmaxDict))
      && forall j :: 0 <= j < |kept| ==> PlaneLines(side, planes, zFront, rmaxDict)[j] == KillzoneLine(side, kept[j], rmaxDict)
    decreases |planes|
  {
    if planes != [] {
      var init := planes[..|planes| - 1];
      var p := planes[|planes| - 1];
      PlaneLinesOfKept(side, init, zFront, rmaxDict);
      var kept, lines := Kept(planes, zFront), PlaneLines(side, planes, zFront, rmaxDict);
      var kept0, lines0 := Kept(init, zFront), PlaneLines(side, init, zFront, rmaxDict);
      if p.z >= zFront {
        assert kept == kept0 + [p];
        assert lines == lines0 + [KillzoneLine(side, p, rmaxDict)];
        forall j | 0 <= j < |kept|
          ensures kept[j] in planes && Described(kept[j], rmaxDict)
          ensures lines[j] == KillzoneLine(side, kept[j], rmaxDict)
        {
          if j < |kept0| {
            assert kept[j] == kept0[j] && lines[j] == lines0[j];
            assert kept0[j] in init;
          }
        }
      } else {
        assert kept == kept0 && lines == lines0;
        assert forall q :: q in init ==> q in planes;
      }
    }
  }

  /** The lines of a kill-zone block: header, one line per kept plane, footer. */
  function KillzoneLines(side: string, zFront: real, rmaxDict: map<PlaneName, real>): (r: seq<string>)
    requires Complete(rmaxDict)
  {
    PlanesDescribed(rmaxDict);
    [KillzoneHeader(side)] + PlaneLines(side, ZplanesAll(), zFront, rmaxDict) + [KillzoneClose]
  }

  /** `make_killzone(z_front, rmax_dict)`: the right block, a newline, the left block. */
  function KillzoneText(zFront: real, rmaxDict: map<PlaneName, real>): string
    requires Complete(rmaxDict)
  {
    Join(KillzoneLines("right", zFront, rmaxDict), '\n') + "\n" + Join(KillzoneLines("left", zFront, rmaxDict), '\n')
  }

  /** The inner `block(side)` of `make_killzone`: the header, the lines collected in a loop, the footer, joined. */
  method KillzoneBlock(side: string, zFront: real, rmaxDict: map<PlaneName, real>) returns (text: string)
    requires Complete(rmaxDict)
    ensures text == Join(KillzoneLines(side, zFront, rmaxDict), '\n')
  {
    PlanesDescribed(rmaxDict);
    var planeLines := CollectPlaneLines(side, ZplanesAll(), zFront, rmaxDict);
    var lines := [KillzoneHeader(side)] + planeLines + [KillzoneClose];
    text := Join(lines, '\n');
  }

  /** The loop of `block(side)`: one zplane line for every plane at or beyond the front, in list order. */
  method CollectPlaneLines(side: string, planes: seq<PlaneSpec>, zFront: real, rmaxDict: map<PlaneName, real>)
    returns (lines: seq<string>)
    requires forall k :: 0 <= k < |planes| ==> Described(planes[k], rmaxDict)
    ensures lines == PlaneLines(side, planes, zFront, rmaxDict)
  {
    lines := [];
    var i := 0;
    while i < |planes|
      invariant 0 <= i <= |planes|
      invariant lines == PlaneLines(side, planes[..i], zFront, rmaxDict)
    {
      var p := planes[i];
      PlaneLinesStep(side, planes, i, zFront, rmaxDict);
      if p.z >= zFront {
        var rmin := ZRminDefaults()[p.z];
        var rmaxVal := rmaxDict[p.name];
        var line := ZplaneLine("    ", Sign(side) + Fixed(p.z, 2) + "*cm", Fixed(rmin, 3) + "*cm", Fixed(rmaxVal, 5) + "*cm");
        lines := lines + [line];
      }
      i := i + 1;
    }
    assert planes[..|planes|] == planes;
  }

  /** One more plane adds its line exactly when it lies at or beyond the front. */
  lemma PlaneLinesStep(side: string, planes: seq<PlaneSpec>, i: nat, zFront: real, rmaxDict: map<PlaneName, real>)
    requires i < |planes|
    requires forall k :: 0 <= k < |planes| ==> Described(planes[k], rmaxDict)
    ensures PlaneLines(side, planes[..i + 1], zFront, rmaxDict)
      == PlaneLines(side, planes[..i], zFront, rmaxDict)
      + (if planes[i].z >= zFront then [KillzoneLine(side, planes[i], rmaxDict)] else [])
  {
    assert planes[..i + 1][..i] == planes[..i];
  }

  method MakeKillzone(zFront: real, rmaxDict: map<PlaneName, real>) returns (text: string)
    requires Complete(rmaxDict)
    ensures text == KillzoneText(zFront, rmaxDict)
  {
    var right := KillzoneBlock("right", zFront, rmaxDict);
    var left := KillzoneBlock("left", zFront, rmaxDict);
    text := right + "\n" + left;
  }

  /** When every plane lies before the front, none is kept. */
  lemma {:induction false} KeptNone(planes: seq<PlaneSpec>, zFront: real)
    requires forall i :: 0 <= i < |planes| ==> planes[i].z < zFront
    ensures Kept(planes, zFront) == []
    decreases |planes|
  {
    if planes != [] {
      KeptNone(planes[..|planes| - 1], zFront);
    }
  }

  /** The planes of a list sorted by z that are at or beyond a front form a suffix of it. */
  lemma {:induction false} KeptIsSuffix(planes: seq<PlaneSpec>, zFront: real)
    requires forall i, j :: 0 <= i < j < |planes| ==> planes[i].z <= planes[j].z
    ensures var k := |planes| - |Kept(planes, zFront)|;
      Kept(planes, zFront) == planes[k..]
      && forall i :: 0 <= i < k ==> planes[i].z < zFront
    decreases |planes|
  {
    if planes != [] {
      var init := planes[..|planes| - 1];
      var p := planes[|planes| - 1];
      if p.z >= zFront {
        KeptIsSuffix(init, zFront);
        var k := |init| - |Kept(init, zFront)|;
        assert Kept(planes, zFront) == Kept(init, zFront) + [p];
        assert init[k..] + [p] == planes[k..];
      } else {
        KeptNone(init, zFront);
        assert Kept(planes, zFront) == [];
      }
    }
  }

  /**
   * At every step the kill zone keeps a suffix of `zplanes_all`: everything
   * before the front is dropped, everything at or beyond it kept in order,
   * and the plane at 600 is always kept, so no block is ever empty.
   */
  lemma KillzoneAtStep(step: nat)
    requires step < NumSteps
    ensures var kept := Kept(ZplanesAll(), ZFront(step));
      var k := 5 - |kept|;
      0 <= k < 5 && kept == ZplanesAll()[k..]
      && (forall i :: 0 <= i < k ==> ZplanesAll()[i].z < ZFront(step))
      && kept[|kept| - 1] == PlaneSpec(Z600, 600.0, 50.0)
  {
    PlanesSorted();
    FrontSchedule(step);
    KeptIsSuffix(ZplanesAll(), ZFront(step));
    assert Kept(ZplanesAll(), ZFront(step)) == Kept(ZplanesAll()[..4], ZFront(step)) + [ZplanesAll()[4]];
  }

  /** A plane line starts with its indentation and its z text, and carries its inner radius between its delimiters. */
  lemma ZplaneLineParts(indent: string, z: string, rmin: string, rmax: string)
    ensures var line := ZplaneLine(indent, z, rmin, rmax);
      StartsWith(line, indent + ZplaneOpen + z)
      && HasInfix(line, RminAttr + rmin + RmaxAttr)
  {
    var line := ZplaneLine(indent, z, rmin, rmax);
    var head := indent + ZplaneOpen + z;
    var pat := RminAttr + rmin + RmaxAttr;
    assert line == head + pat + (rmax + ElementClose);
    assert line[..|head|] == head;
    assert line[|head|..|head| + |pat|] == pat;
    HasInfixAt(line, pat, |head|);
  }

  /** The z of a right-side plane line starts with a digit, that of a left-side line with `-` and a digit. */
  lemma KillzoneSigns(side: string, p: PlaneSpec, rmaxDict: map<PlaneName, real>)
    requires Described(p, rmaxDict) && p.z >= 0.0
    ensures var line := KillzoneLine(side, p, rmaxDict);
      var prefix := "    " + ZplaneOpen;
      StartsWith(line, prefix)
      && (side == "right" ==> IsDigit(line[|prefix|]))
      && (side != "right" ==> line[|prefix|] == '-' && IsDigit(line[|prefix| + 1]))
  {
    FixedShape(p.z, 2);
    var z := Sign(side) + Fixed(p.z, 2) + "*cm";
    ZplaneLineStart("    ", z, Fixed(ZRminDefaults()[p.z], 3) + "*cm", Fixed(rmaxDict[p.name], 5) + "*cm");
    if side == "right" {
      assert z[0] == Fixed(p.z, 2)[0];
    } else {
      assert z[1] == Fixed(p.z, 2)[0];
    }
  }

  /** A zplane line starts with its indent and tag, followed by the characters of its z text. */
  lemma ZplaneLineStart(indent: string, z: string, rmin: string, rmax: string)
    requires |z| >= 2
    ensures var line := ZplaneLine(indent, z, rmin, rmax);
      var prefix := indent + ZplaneOpen;
      StartsWith(line, prefix) && line[|prefix|] == z[0] && line[|prefix| + 1] == z[1]
  {
    var line := ZplaneLine(indent, z, rmin, rmax);
    var prefix := indent + ZplaneOpen;
    var head := prefix + z;
    assert line[..|head|] == head;
    assert line[..|prefix|] == prefix;
  }

  // ---------------------------------------------------------------------
  // make_nozzle
  // ---------------------------------------------------------------------

  /** The five zplane lines of a nozzle block; all carry the same inner radius. */
  function NozzleZplanes(side: string, z: real, rmin: real): seq<string> {
    var s := Sign(side);
    var r := Fixed(rmin, 5) + "*cm";
    [ ZplaneLine("  ", s + (Fixed(z, 2) + "*cm"), r, NozzleRmaxText + "*cm"),
      ZplaneLine("  ", s + "Nozzle_kink_z", r, "17.63*cm"),
      ZplaneLine("  ", s + "Nozzle_kink_z", r, "15*cm"),
      ZplaneLine("  ", s + "200*cm", r, "17*cm"),
      ZplaneLine("  ", s + "600*cm", r, "50*cm") ]
  }

  const NozzleOpen: string := "\n<detector name=\"NozzleW_"
  const NozzleOpenTail: string :=
    "\" type=\"DD4hep_PolyconeSupport\" vis=\"NozzleWVis\" region=\"NozzleRegion\">\n  <material name=\"Tungsten\"/>\n"
  const NozzleClose: string := "\n</detector>"

  /** The inner `block(side)` of `make_nozzle`. */
  function NozzleBlock(side: string, z: real, rmin: real): string {
    NozzleOpen + side + NozzleOpenTail + Join(NozzleZplanes(side, z, rmin), '\n') + NozzleClose
  }

  /** `make_nozzle(z, rmin)`: the right block, then the left block. */
  function MakeNozzle(z: real, rmin: real): string {
    NozzleBlock("right", z, rmin) + NozzleBlock("left", z, rmin)
  }

  /** A nozzle zplane line: the tag and the side's sign first, and the inner radius just before the outer one. */
  predicate NozzleLine(line: string, sign: string, rmin: string) {
    StartsWith(line, "  " + ZplaneOpen + sign) && HasInfix(line, RminAttr + rmin + RmaxAttr)
  }

  /** Each side's nozzle block has five zplanes, every one with the step's inner radius and the side's sign. */
  lemma NozzleSameRmin(side: string, z: real, rmin: real)
    ensures var ls := NozzleZplanes(side, z, rmin);
      |ls| == 5 && forall i :: 0 <= i < 5 ==> NozzleLine(ls[i], Sign(side), Fixed(rmin, 5) + "*cm")
  {
    var s, r := Sign(side), Fixed(rmin, 5) + "*cm";
    var ls := NozzleZplanes(side, z, rmin);
    SignedZplaneLine(s, Fixed(z, 2) + "*cm", r, NozzleRmaxText + "*cm", ls[0]);
    SignedZplaneLine(s, "Nozzle_kink_z", r, "17.63*cm", ls[1]);
    SignedZplaneLine(s, "Nozzle_kink_z", r, "15*cm", ls[2]);
    SignedZplaneLine(s, "200*cm", r, "17*cm", ls[3]);
    SignedZplaneLine(s, "600*cm", r, "50*cm", ls[4]);
  }

  lemma SignedZplaneLine(sign: string, z: string, rmin: string, rmax: string, line: string)
    requires line == ZplaneLine("  ", sign + z, rmin, rmax)
    ensures NozzleLine(line, sign, rmin)
  {
    var head := "  " + ZplaneOpen + sign;
    ZplaneLineParts("  ", sign + z, rmin, rmax);
    assert line == head + (z + RminAttr + rmin + RmaxAttr + rmax + ElementClose);
    assert line[..|head|] == head;
  }

  // ---------------------------------------------------------------------
  // one step's file
  // ---------------------------------------------------------------------

  /** The two `NozzleBCH` detectors, written unchanged at every step. */
  const BchBlock: string :=
    "\n<detector name=\"NozzleBCH_right\" type=\"DD4hep_PolyconeSupport\" vis=\"NozzleBCHVis\" region=\"NozzleRegion\">\n"
      + "  <material name=\"BCH2\"/>\n"
      + "  <zplane z=\"Nozzle_kink_z\" rmin=\"15*cm\" rmax=\"17.63*cm\" />\n"
      + "  <zplane z=\"200*cm\" rmin=\"17*cm\" rmax=\"26.104*cm\" />\n"
      + "  <zplane z=\"Nozzle_zmax\" rmin=\"50*cm\" rmax=\"60*cm\" />\n"
      + "</detector>\n"
      + "<detector name=\"NozzleBCH_left\" type=\"DD4hep_PolyconeSupport\" vis=\"NozzleBCHVis\" region=\"NozzleRegion\">\n"
      + "  <material name=\"BCH2\"/>\n"
      + "  <zplane z=\"-Nozzle_kink_z\" rmin=\"15*cm\" rmax=\"17.63*cm\" />\n"
      + "  <zplane z=\"-200*cm\" rmin=\"17*cm\" rmax=\"26.104*cm\" />\n"
      + "  <zplane z=\"-Nozzle_zmax\" rmin=\"50*cm\" rmax=\"60*cm\" />\n"
      + "</detector>\n"

  /** `base_template` up to its first field. */
  const TemplateHead: string :=
    "<lccdd>\n  <define>\n    <constant name=\"Nozzle_kink_z\" value=\"100*cm\"/>\n  </define>\n  <display>\n"
      + "    <vis name=\"NozzleWVis\" alpha=\"1.0\" r=\"0.0\" g=\"1.0\" b=\"1.0\" showDaughters=\"false\" visible=\"true\"/>\n"
      + "    <vis name=\"NozzleKillZoneVis\" alpha=\"1.0\" r=\"1.0\" g=\"1.0\" b=\"1.0\" showDaughters=\"false\" visible=\"true\"/>\n"
      + "    <vis name=\"NozzleBCHVis\" alpha=\"0.3\" r=\"1.0\" g=\"1.0\" b=\"1.0\" showDaughters=\"false\" visible=\"false\"/>\n"
      + "  </display>\n  <detectors>\n    "
  const TemplateGap: string := "\n    "
  const TemplateTail: string := "\n  </detectors>\n</lccdd>\n"

  /** `base_template.format(...)`. */
  function BaseTemplate(killzone: string, nozzle: string, bch: string): string {
    TemplateHead + killzone + TemplateGap + nozzle + TemplateGap + bch + TemplateTail
  }

  /** The file name of a step without its extension. */
  function Stem(step: nat, r: real, zFront: real): string {
    "nozzle_rstep" + ZeroPad(step, 3) + "_rdepth" + Fixed(r, 2) + "_zdepth" + Fixed(zFront, 2) + "_zstep" + ZeroPad(step, 3)
  }

  /** `nozzle_rstep{step:03}_rdepth{r:.2f}_zdepth{z_front:.2f}_zstep{step:03}.xml`. */
  function FileName(step: nat, r: real, zFront: real): string {
    Stem(step, r, zFront) + ".xml"
  }

  const OutputDir: string := "nozzle_killzone_scaled"

  /** The line the include patch writes. */
  function IncludeLine(fname: string): string {
    IncludeOpen + fname + IncludeClose
  }

  const IncludeOpen: string := "    <include ref=\""
  const IncludeClose: string := "\"/>\n"

  /** The include patch on the lines of the copied steering geometry. */
  function Patched(lines: seq<string>, fname: string): (r: seq<string>)
    ensures |r| == |lines|
  {
    if |lines| >= 197 then lines[196 := IncludeLine(fname)] else lines
  }

  /** `lines[196] = ...` when the file has at least 197 lines. */
  method PatchInclude(lines: array<string>, fname: string)
    modifies lines
    ensures lines[..] == Patched(old(lines[..]), fname)
  {
    if lines.Length >= 197 {
      lines[196] := IncludeOpen + fname + IncludeClose;
    }
  }

  /** The patch changes line index 196 of a long enough file, and nothing else. */
  lemma PatchOnlyLine196(lines: seq<string>, fname: string)
    ensures forall i :: 0 <= i < |lines| && i != 196 ==> Patched(lines, fname)[i] == lines[i]
    ensures |lines| >= 197 ==> Patched(lines, fname)[196] == IncludeLine(fname)
    ensures |lines| < 197 ==> Patched(lines, fname) == lines
  {
  }

  /** What one step writes. */
  datatype StepOutput = StepOutput(subdir: string, fileName: string, content: string, includeLines: seq<string>)

  function StepOutputAt(step: nat, exLines: seq<string>): StepOutput {
    var r := StepRadius(step);
    var zFront := ZFront(step);
    var fname := FileName(step, r, zFront);
    StepOutput(OutputDir + "/" + SplitExt(fname).0, fname,
      BaseTemplate(KillzoneText(zFront, RmaxAfter(step)), MakeNozzle(ZStart, r), BchBlock),
      Patched(exLines, fname))
  }

  /** `[f(0), ..., f(n - 1)]`, built by appending as a loop does. */
  function Tabulate<T>(n: nat, f: nat -> T): (r: seq<T>)
    ensures |r| == n
  {
    if n == 0 then [] else Tabulate(n - 1, f) + [f(n - 1)]
  }

  lemma {:induction false} TabulateAt<T>(n: nat, f: nat -> T, i: nat)
    requires i < n
    ensures Tabulate(n, f)[i] == f(i)
  {
    if i < n - 1 {
      TabulateAt(n - 1, f, i);
    }
  }

  /** The outputs of the first `n` steps, in order. */
  function StepOutputs(n: nat, exLines: seq<string>): (r: seq<StepOutput>)
    ensures |r| == n
  {
    Tabulate(n, (i: nat) => StepOutputAt(i, exLines))
  }

  /** Output `i` of the sweep is what step `i` writes. */
  lemma StepOutputsAt(n: nat, exLines: seq<string>, i: nat)
    requires i < n
    ensures StepOutputs(n, exLines)[i] == StepOutputAt(i, exLines)
  {
    TabulateAt(n, (i: nat) => StepOutputAt(i, exLines), i);
  }

  /**
   * The sweep: `exLines` are the lines of the copied steering geometry.
   * Step `i` writes `StepOutputAt(i)` (see `StepOutputsAt`). Creating
   * directories and copying the supporting files are left out.
   */
  method Sweep(exLines: seq<string>) returns (outputs: seq<StepOutput>)
    ensures outputs == StepOutputs(NumSteps, exLines)
  {
    var rmaxDict := InitialRmax();
    var z := ZStart;
    outputs := [];
    var step := 0;
    while step < NumSteps
      invariant 0 <= step <= NumSteps
      invariant rmaxDict == RmaxAfter(step)
      invariant outputs == StepOutputs(step, exLines)
    {
      var written := WriteStep(step, z, rmaxDict, exLines);
      outputs := outputs + [written];
      rmaxDict := ShrinkRmax(rmaxDict);
      step := step + 1;
    }
  }

  /** The body of the sweep for one step, before the shrink. */
  method WriteStep(step: nat, z: real, rmaxDict: map<PlaneName, real>, exLines: seq<string>) returns (written: StepOutput)
    requires z == ZStart && rmaxDict == RmaxAfter(step)
    ensures written == StepOutputAt(step, exLines)
  {
    var r := Max(REnd, RStart - step as real * RStep);
    var zFront := ZStart + step as real * ZStep;
    assert r == StepRadius(step) && zFront == ZFront(step);
    var xmlContent := StepContent(r, zFront, z, rmaxDict);

    var fname := FileName(step, r, zFront);
    var subdir := OutputDir + "/" + SplitExt(fname).0;
    var patched := PatchCopy(exLines, fname);
    written := StepOutput(subdir, fname, xmlContent, patched);
  }

  /** The copied steering geometry read into lines, patched, and written back. */
  method PatchCopy(exLines: seq<string>, fname: string) returns (patched: seq<string>)
    ensures patched == Patched(exLines, fname)
  {
    var lines := new string[|exLines|](i requires 0 <= i < |exLines| => exLines[i]);
    assert lines[..] == exLines;
    PatchInclude(lines, fname);
    patched := lines[..];
  }

  /** The detector file of one step: kill zone, nozzle and the fixed blocks in the template. */
  method StepContent(r: real, zFront: real, z: real, rmaxDict: map<PlaneName, real>) returns (xmlContent: string)
    requires Complete(rmaxDict)
    ensures xmlContent == BaseTemplate(KillzoneText(zFront, rmaxDict), MakeNozzle(z, r), BchBlock)
  {
    var killzoneBlock := MakeKillzone(zFront, rmaxDict);
    var nozzleBlock := MakeNozzle(z, r);
    xmlContent := BaseTemplate(killzoneBlock, nozzleBlock, BchBlock);
  }

  /**
   * Each step's directory is named after its file without ".xml", and the
   * file name records the step as exactly three digits.
   */
  lemma StepNames(step: nat, r: real, zFront: real)
    requires step < NumSteps
    ensures SplitExt(FileName(step, r, zFront)).0 == Stem(step, r, zFront)
    ensures |ZeroPad(step, 3)| == 3 && DigitsValue(ZeroPad(step, 3)) == step
    ensures StartsWith(FileName(step, r, zFront), "nozzle_rstep" + ZeroPad(step, 3) + "_rdepth")
  {
    DirectoryIsStem(step, r, zFront);
    ZeroPadLength(step, 3);
    ZeroPadValue(step, 3);
    FileNameHead(step, r, zFront);
  }

  lemma FileNameHead(step: nat, r: real, zFront: real)
    ensures StartsWith(FileName(step, r, zFront), "nozzle_rstep" + ZeroPad(step, 3) + "_rdepth")
  {
    var p := ZeroPad(step, 3);
    var t := "nozzle_rstep" + p + "_rdepth";
    assert StartsWith(t, t);
    PrefixOfAppend(t, Fixed(r, 2), t);
    t := t + Fixed(r, 2);
    PrefixOfAppend(t, "_zdepth", "nozzle_rstep" + p + "_rdepth");
    t := t + "_zdepth";
    PrefixOfAppend(t, Fixed(zFront, 2), "nozzle_rstep" + p + "_rdepth");
    t := t + Fixed(zFront, 2);
    PrefixOfAppend(t, "_zstep", "nozzle_rstep" + p + "_rdepth");
    t := t + "_zstep";
    PrefixOfAppend(t, p, "nozzle_rstep" + p + "_rdepth");
    t := t + p;
    PrefixOfAppend(t, ".xml", "nozzle_rstep" + p + "_rdepth");
  }

  /** A string keeps its prefixes when more is appended. */
  lemma PrefixOfAppend(a: string, b: string, p: string)
    requires StartsWith(a, p)
    ensures StartsWith(a + b, p)
  {
    assert (a + b)[..|p|] == a[..|p|];
  }

  lemma DirectoryIsStem(step: nat, r: real, zFront: real)
    ensures SplitExt(FileName(step, r, zFront)).0 == Stem(step, r, zFront)
  {
    var stem := Stem(step, r, zFront);
    StemShape(step, r, zFront);
    SplitExtOfName(stem, ".xml");
  }

  lemma StemShape(step: nat, r: real, zFront: real)
    ensures var s := Stem(step, r, zFront);
      s != [] && s[0] == 'n' && '/' !in s
  {
    var a, b := Fixed(r, 2), Fixed(zFront, 2);
    var p := ZeroPad(step, 3);
    NumeralNoSlash(a);
    NumeralNoSlash(b);
    NumeralNoSlash(p);
    var t := "nozzle_rstep";
    assert t[0] == 'n' && '/' !in t;
    AbsentFromConcat(t, p, '/');
    t := t + p;
    AbsentFromConcat(t, "_rdepth", '/');
    t := t + "_rdepth";
    AbsentFromConcat(t, a, '/');
    t := t + a;
    AbsentFromConcat(t, "_zdepth", '/');
    t := t + "_zdepth";
    AbsentFromConcat(t, b, '/');
    t := t + b;
    AbsentFromConcat(t, "_zstep", '/');
    t := t + "_zstep";
    AbsentFromConcat(t, p, '/');
    t := t + p;
    assert t == Stem(step, r, zFront);
  }

  /** A character absent from two strings is absent from their concatenation, whose first character is the first one's. */
  lemma AbsentFromConcat(a: string, b: string, c: char)
    requires c !in a && c !in b && a != []
    ensures c !in a + b && (a + b)[0] == a[0]
  {
    forall i | 0 <= i < |a + b|
      ensures (a + b)[i] != c
    {
      if i < |a| {
        assert (a + b)[i] == a[i];
      } else {
        assert (a + b)[i] == b[i - |a|];
      }
    }
  }

  /** A written number holds no path separator. */
  lemma NumeralNoSlash(s: string)
    requires (forall c :: c in s ==> IsDigit(c) || c == '.' || c == '-') || AllDigits(s)
    ensures '/' !in s
  {
  }
}
