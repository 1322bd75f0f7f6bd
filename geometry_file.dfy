/**
 * The zplane lists `modify_geometry_file` gives each target detector: the
 * detector's entries of the modification dict, moved back to the detector's
 * own coordinates, sorted by |z| and written with `format_units`; a detector
 * without entries only has the z of each plane looked up.
 */
module GeometryFile {
  import opened Wrappers
  import opened Geometry
  import opened Sorting
  import opened Numerals
  import opened Units

  /** The detectors whose planes are rewritten. */
  function TargetGeometry(): set<string> {
    {"NozzleW_right", "NozzleW_left", "NozzleBlackhole_right", "NozzleBlackhole_left"}
  }

  /** One item of `new_zplane_data`: z in the detector's own coordinates, and the new radii. */
  datatype Plane = Plane(z: real, rmin: real, rmax: real)

  /** The attributes of a `<zplane>` element; an attribute may be absent. */
  datatype Zplane = Zplane(z: Option<string>, rmin: Option<string>, rmax: Option<string>)

  /** The plane an entry is written as: its z moved back by the tip offset. */
  function PlaneOf(e: Entry): Plane {
    Plane(e.key.z - (-NozzleTipOriginalZ), e.radii.rmin, e.radii.rmax)
  }

  /** `new_zplane_data` for a detector: its entries, in dict order, as planes. */
  function PlanesFor(mods: Table, name: string): (r: seq<Plane>)
    ensures |r| <= |mods|
    ensures forall p :: p in r <==> exists i :: 0 <= i < |mods| && mods[i].key.name == name && p == PlaneOf(mods[i])
  {
    if mods == [] then []
    else
      var rest := PlanesFor(mods[..|mods| - 1], name);
      var e := mods[|mods| - 1];
      assert forall i :: 0 <= i < |mods| - 1 ==> mods[..|mods| - 1][i] == mods[i];
      if e.key.name == name then rest + [PlaneOf(e)] else rest
  }

  /** The sort key of `sorted(new_zplane_data, ...)`: |z|. */
  function PlaneAbsZ(p: Plane): real {
    if p.z >= 0.0 then p.z else -p.z
  }

  /** The element written for a plane. */
  function ZplaneOf(p: Plane): Zplane {
    Zplane(Some(FormatUnits(p.z, "cm")), Some(FormatUnits(p.rmin, "cm")), Some(FormatUnits(p.rmax, "cm")))
  }

  function ZplanesOf(ps: seq<Plane>): seq<Zplane> {
    seq(|ps|, i requires 0 <= i < |ps| => ZplaneOf(ps[i]))
  }

  /** The planes of a detector with entries, in the order they are appended. */
  function SortedPlanes(mods: Table, name: string): seq<Plane> {
    SortBy(PlanesFor(mods, name), PlaneAbsZ)
  }

  /** The loop collecting `new_zplane_data`. */
  method CollectPlanes(mods: Table, name: string) returns (data: seq<Plane>)
    ensures data == PlanesFor(mods, name)
  {
    data := [];
    var i := 0;
    while i < |mods|
      invariant 0 <= i <= |mods|
      invariant data == PlanesFor(mods[..i], name)
    {
      assert mods[..i + 1][..i] == mods[..i];
      var e := mods[i];
      if e.key.name == name {
        data := data + [Plane(e.key.z - (-NozzleTipOriginalZ), e.radii.rmin, e.radii.rmax)];
      }
      i := i + 1;
    }
    assert mods[..|mods|] == mods;
  }

  /** The new zplanes of a detector with entries: collected, sorted by |z|, then appended. */
  method BuildZplanes(mods: Table, name: string) returns (zplanes: seq<Zplane>)
    ensures zplanes == ZplanesOf(SortedPlanes(mods, name))
  {
    var data := CollectPlanes(mods, name);
    var sorted := SortBy(data, PlaneAbsZ);
    zplanes := EmitZplanes(sorted);
  }

  /** The loop appending one new `<zplane>` per sorted plane. */
  method EmitZplanes(sorted: seq<Plane>) returns (zplanes: seq<Zplane>)
    ensures zplanes == ZplanesOf(sorted)
  {
    zplanes := [];
    var i := 0;
    while i < |sorted|
      invariant 0 <= i <= |sorted| && |zplanes| == i
      invariant forall k :: 0 <= k < i ==> zplanes[k] == ZplaneOf(sorted[k])
    {
      zplanes := zplanes + [ZplaneOf(sorted[i])];
      i := i + 1;
    }
  }

  /** What `parse_units` raises when an attribute is missing and `None.strip()` is called. */
  const NoneStrip := "'NoneType' object has no attribute 'strip'"

  /**
   * The else branch for one existing `<zplane>` of a detector without
   * entries: its z is read, moved to tip-relative coordinates and looked up;
   * on a hit both radii are rewritten in their own units. A z or radius text
   * that `parse_units` refuses, or a missing radius on a hit, raises; rmin is
   * read before rmax, so the first of them that fails gives the error.
   */
  function UpdateZplane(name: string, zp: Zplane, mods: Table): (r: Result<Zplane, string>)
    ensures r.Ok? ==> r.value.z == zp.z
    ensures r.Ok? && r.value != zp ==> r.value.rmin.Some? && r.value.rmax.Some?
  {
    if zp.z.None? then Ok(zp)
    else
      var zv := ParseUnits(zp.z.value, DefaultConstants());
      if zv.Err? then Err(zv.error)
      else
        var hit := Get(mods, Key(name, ApplyZOffset(zv.value.0)));
        if hit.None? then Ok(zp)
        else if zp.rmin.None? then Err(NoneStrip)
        else
          var oldRmin := ParseUnits(zp.rmin.value, DefaultConstants());
          if oldRmin.Err? then Err(oldRmin.error)
          else if zp.rmax.None? then Err(NoneStrip)
          else
            var oldRmax := ParseUnits(zp.rmax.value, DefaultConstants());
            if oldRmax.Err? then Err(oldRmax.error)
            else Ok(Zplane(zp.z, Some(FormatUnits(hit.value.rmin, oldRmin.value.1)), Some(FormatUnits(hit.value.rmax, oldRmax.value.1))))
  }

  /** On a hit, an rmin text that `parse_units` refuses raises its own error, whatever rmax holds. */
  lemma RminReadFirst(name: string, zp: Zplane, mods: Table)
    requires zp.z.Some? && ParseUnits(zp.z.value, DefaultConstants()).Ok?
    requires Get(mods, Key(name, ApplyZOffset(ParseUnits(zp.z.value, DefaultConstants()).value.0))).Some?
    requires zp.rmin.Some? && ParseUnits(zp.rmin.value, DefaultConstants()).Err?
    ensures UpdateZplane(name, zp, mods) == Err(ParseUnits(zp.rmin.value, DefaultConstants()).error)
  {
  }

  /** The else branch over a detector's zplanes, stopping at the first that raises. */
  function UpdateZplanes(name: string, zps: seq<Zplane>, mods: Table): Result<seq<Zplane>, string>
    decreases |zps|
  {
    if zps == [] then Ok([])
    else
      var first := UpdateZplane(name, zps[0], mods);
      if first.Err? then Err(first.error)
      else
        var rest := UpdateZplanes(name, zps[1..], mods);
        if rest.Err? then rest else Ok([first.value] + rest.value)
  }

  /** The zplanes a detector ends with. */
  function DetectorZplanes(name: string, zps: seq<Zplane>, mods: Table): Result<seq<Zplane>, string> {
    if name !in TargetGeometry() then Ok(zps)
    else if PlanesFor(mods, name) != [] then Ok(ZplanesOf(SortedPlanes(mods, name)))
    else UpdateZplanes(name, zps, mods)
  }

  /** A `<detector>` element: its name (empty when the attribute is absent) and its zplanes. */
  datatype Detector = Detector(name: string, zplanes: seq<Zplane>)

  /**
   * The detectors `modify_geometry_file` writes, in document order: each
   * gets the zplanes `DetectorZplanes` gives it, and the first text that
   * `parse_units` refuses aborts the whole rewrite.
   */
  function ModifyDetectors(ds: seq<Detector>, mods: Table): (r: Result<seq<Detector>, string>)
    ensures r.Err? <==> exists i :: 0 <= i < |ds| && DetectorZplanes(ds[i].name, ds[i].zplanes, mods).Err?
    ensures r.Ok? ==> |r.value| == |ds| && forall i :: 0 <= i < |ds| ==>
      r.value[i] == Detector(ds[i].name, DetectorZplanes(ds[i].name, ds[i].zplanes, mods).value)
    decreases |ds|
  {
    if ds == [] then Ok([])
    else
      var first := DetectorZplanes(ds[0].name, ds[0].zplanes, mods);
      if first.Err? then Err(first.error)
      else
        var rest := ModifyDetectors(ds[1..], mods);
        assert forall i :: 1 <= i < |ds| ==> ds[1..][i - 1] == ds[i];
        if rest.Err? then Err(rest.error) else Ok([Detector(ds[0].name, first.value)] + rest.value)
  }

  // ---------------------------------------------------------------------
  // properties
  // ---------------------------------------------------------------------

  /** A dict's entries of one detector, as planes, each once. */
  lemma {:induction false} PlanesForCount(mods: Table, name: string, p: Plane)
    requires IsDict(mods)
    ensures multiset(PlanesFor(mods, name))[p] <= 1
    decreases |mods|
  {
    if mods != [] {
      var init := mods[..|mods| - 1];
      assert IsDict(init) by {
        assert forall i :: 0 <= i < |init| ==> init[i] == mods[i];
      }
      PlanesForCount(init, name, p);
      var e := mods[|mods| - 1];
      if e.key.name == name {
        assert forall i :: 0 <= i < |init| ==> init[i].key != e.key;
        assert PlaneOf(e) !in PlanesFor(init, name);
      }
    }
  }

  /**
   * The planes written for a target detector are exactly its entries, each
   * once, moved back to the detector's coordinates, in non-decreasing |z|.
   */
  lemma WrittenPlanes(mods: Table, name: string)
    requires IsDict(mods)
    ensures var w := SortedPlanes(mods, name);
      SortedBy(w, PlaneAbsZ)
      && multiset(w) == multiset(PlanesFor(mods, name))
      && (forall p :: p in w <==> exists i :: 0 <= i < |mods| && mods[i].key.name == name && p == PlaneOf(mods[i]))
      && (forall p :: multiset(w)[p] <= 1)
  {
    SortBySorted(PlanesFor(mods, name), PlaneAbsZ);
    SortByMembers(PlanesFor(mods, name), PlaneAbsZ);
    forall p
      ensures multiset(SortedPlanes(mods, name))[p] <= 1
    {
      PlanesForCount(mods, name, p);
    }
  }

  /** Writing undoes the tip offset: planes of a shifted table are at the original z. */
  lemma {:induction false} WritingRestoresOriginalZ(t: Table, name: string)
    ensures PlanesFor(Shifted(t, -NozzleTipOriginalZ), name) == OriginalPlanes(t, name)
    decreases |t|
  {
    if t != [] {
      var init := t[..|t| - 1];
      WritingRestoresOriginalZ(init, name);
      ShiftedPrefix(t, -NozzleTipOriginalZ, |t| - 1);
      var s := Shifted(t, -NozzleTipOriginalZ);
      assert s[..|s| - 1] == Shifted(init, -NozzleTipOriginalZ);
    }
  }

  /** The planes of the entries of a table given in the detector's own coordinates. */
  function OriginalPlanes(t: Table, name: string): seq<Plane>
    decreases |t|
  {
    if t == [] then []
    else
      var e := t[|t| - 1];
      OriginalPlanes(t[..|t| - 1], name) + if e.key.name == name then [Plane(e.key.z, e.radii.rmin, e.radii.rmax)] else []
  }

  /** Every written attribute reads back, in centimetres, as the value rounded to 8 decimals. */
  lemma WrittenAttributesParse(p: Plane)
    ensures ParseUnits(ZplaneOf(p).z.value, DefaultConstants()) == Ok((Round8(p.z), "cm"))
    ensures ParseUnits(ZplaneOf(p).rmin.value, DefaultConstants()) == Ok((Round8(p.rmin), "cm"))
    ensures ParseUnits(ZplaneOf(p).rmax.value, DefaultConstants()) == Ok((Round8(p.rmax), "cm"))
  {
    DefaultNamesNotNumeric();
    assert Text.Strip("cm") == "cm" by {
      Text.StripUnchanged("cm");
    }
    ParseFormatRoundTrip(p.z, "cm", DefaultConstants());
    ParseFormatRoundTrip(p.rmin, "cm", DefaultConstants());
    ParseFormatRoundTrip(p.rmax, "cm", DefaultConstants());
  }

  /**
   * The else branch only runs for a detector without entries, so no lookup
   * hits: it leaves every zplane as it was, unless a z text is refused.
   */
  lemma ElseBranchChangesNothing(name: string, zp: Zplane, mods: Table)
    requires PlanesFor(mods, name) == []
    ensures UpdateZplane(name, zp, mods).Ok? ==> UpdateZplane(name, zp, mods).value == zp
    ensures UpdateZplane(name, zp, mods).Err? ==> zp.z.Some? && ParseUnits(zp.z.value, DefaultConstants()).Err?
  {
    assert forall i :: 0 <= i < |mods| && mods[i].key.name == name ==> PlaneOf(mods[i]) in PlanesFor(mods, name);
  }

  /** Non-target detectors keep their zplanes; a detector without entries keeps them unless a z text is refused. */
  lemma {:induction false} DetectorWithoutEntriesUnchanged(name: string, zps: seq<Zplane>, mods: Table)
    requires PlanesFor(mods, name) == []
    requires forall i :: 0 <= i < |zps| && zps[i].z.Some? ==> ParseUnits(zps[i].z.value, DefaultConstants()).Ok?
    ensures DetectorZplanes(name, zps, mods) == Ok(zps)
    decreases |zps|
  {
    if name in TargetGeometry() && zps != [] {
      ElseBranchChangesNothing(name, zps[0], mods);
      DetectorWithoutEntriesUnchanged(name, zps[1..], mods);
      assert [zps[0]] + zps[1..] == zps;
    }
  }

  /**
   * A file whose target detectors all have entries is always rewritten:
   * non-targets are kept, and each target gets its entries' planes, sorted
   * by |z| and each written once.
   */
  lemma DetectorsWithEntriesRewritten(ds: seq<Detector>, mods: Table)
    requires forall i :: 0 <= i < |ds| && ds[i].name in TargetGeometry() ==> PlanesFor(mods, ds[i].name) != []
    ensures var r := ModifyDetectors(ds, mods);
      r.Ok? && |r.value| == |ds|
      && (forall i :: 0 <= i < |ds| && ds[i].name !in TargetGeometry() ==> r.value[i] == ds[i])
      && (forall i :: 0 <= i < |ds| && ds[i].name in TargetGeometry() ==>
            r.value[i] == Detector(ds[i].name, ZplanesOf(SortedPlanes(mods, ds[i].name))))
  {
  }
}
