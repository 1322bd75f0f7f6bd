/**
 * Radius interpolation of the variant generator: the linear model of the
 * nozzle's outer radius, the two-point interpolation of `(rmin, rmax)`, the
 * per-component lists of planes sorted by |z|, and the clamped lookup in
 * such a list.
 */
module Interpolation {
  import opened Geometry
  import opened Sorting
  import opened Numerals

  // ---------------------------------------------------------------------
  // get_nozzle_radius_at_z
  // ---------------------------------------------------------------------

  const TipRadius: real := 1.0
  /** Growth of the outer radius per cm between the tip and the kink. */
  const NozzleSlope: real := (17.57473619 - 1.0) / 94.0

  /** `get_nozzle_radius_at_z`: 1 cm at and before the tip, the kink radius from the kink on, linear between. */
  function NozzleRadiusAt(z: real): (r: real)
    ensures TipRadius <= r <= NozzleKinkMaxR
    ensures z <= 0.0 ==> r == TipRadius
    ensures z >= NozzleKinkZ ==> r == NozzleKinkMaxR
  {
    if z <= 0.0 then 1.0
    else if z >= 94.0 then 17.57473619
    else 1.0 + NozzleSlope * z
  }

  /** The radius never decreases along z. */
  lemma NozzleRadiusMonotone(a: real, b: real)
    requires a <= b
    ensures NozzleRadiusAt(a) <= NozzleRadiusAt(b)
  {
  }

  /**
   * Between any two positions the radius changes by at most the slope times
   * their distance: the three pieces meet without a jump at the tip and at
   * the kink.
   */
  lemma NozzleRadiusContinuous(a: real, b: real)
    requires a <= b
    ensures 0.0 <= NozzleRadiusAt(b) - NozzleRadiusAt(a) <= NozzleSlope * (b - a)
  {
  }

  /** Strictly between tip and kink the radius is the straight line through (0, 1) and (94, kink radius). */
  lemma NozzleRadiusLine(z: real)
    requires 0.0 < z < NozzleKinkZ
    ensures NozzleRadiusAt(z) * NozzleKinkZ == TipRadius * (NozzleKinkZ - z) + NozzleKinkMaxR * z
  {
  }

  // ---------------------------------------------------------------------
  // interpolate_geometry_values
  // ---------------------------------------------------------------------

  /** Two points closer than this along z are treated as one. */
  const ZTolerance: real := 0.0000000001

  function Lerp(a: real, b: real, t: real): real {
    a + t * (b - a)
  }

  /** For `0 <= t <= 1` the interpolated value lies between the two ends. */
  lemma LerpBetween(a: real, b: real, t: real)
    requires 0.0 <= t <= 1.0
    ensures a <= b ==> a <= Lerp(a, b, t) <= b
    ensures b <= a ==> b <= Lerp(a, b, t) <= a
  {
    if a <= b {
      MulNonNegative(t, b - a);
      MulNonNegative(1.0 - t, b - a);
    }
    if b <= a {
      MulNonNegative(t, a - b);
      MulNonNegative(1.0 - t, a - b);
    }
  }

  /**
   * `interpolate_geometry_values`: each radius at `zPos` lies on the line
   * through that radius at the two planes; planes closer than the tolerance
   * give the first plane's radii.
   */
  function InterpolateGeometryValues(zPos: real, z1: real, z2: real, rmin1: real, rmax1: real, rmin2: real, rmax2: real): (r: Radii)
    ensures Abs(z2 - z1) < ZTolerance ==> r == Radii(rmin1, rmax1)
    ensures Abs(z2 - z1) >= ZTolerance ==>
      (r.rmin - rmin1) * (z2 - z1) == (rmin2 - rmin1) * (zPos - z1)
      && (r.rmax - rmax1) * (z2 - z1) == (rmax2 - rmax1) * (zPos - z1)
  {
    if Abs(z2 - z1) < ZTolerance then Radii(rmin1, rmax1)
    else
      var t := (zPos - z1) / (z2 - z1);
      LerpOnLine(rmin1, rmin2, z1, z2, zPos);
      LerpOnLine(rmax1, rmax2, z1, z2, zPos);
      Radii(Lerp(rmin1, rmin2, t), Lerp(rmax1, rmax2, t))
  }

  /** The value interpolated at `zPos` lies on the line through `(z1, a)` and `(z2, b)`. */
  lemma LerpOnLine(a: real, b: real, z1: real, z2: real, zPos: real)
    requires z2 != z1
    ensures (Lerp(a, b, (zPos - z1) / (z2 - z1)) - a) * (z2 - z1) == (b - a) * (zPos - z1)
  {
    var t := (zPos - z1) / (z2 - z1);
    assert t * (z2 - z1) == zPos - z1;
    calc {
      (Lerp(a, b, t) - a) * (z2 - z1);
      t * (b - a) * (z2 - z1);
      (b - a) * (t * (z2 - z1));
    }
  }

  /** At the first plane the result is the first plane's radii. */
  lemma InterpolateAtFirst(z1: real, z2: real, rmin1: real, rmax1: real, rmin2: real, rmax2: real)
    ensures InterpolateGeometryValues(z1, z1, z2, rmin1, rmax1, rmin2, rmax2) == Radii(rmin1, rmax1)
  {
  }

  /** At the second plane the result is the second plane's radii, unless the planes are closer than the tolerance. */
  lemma InterpolateAtSecond(z1: real, z2: real, rmin1: real, rmax1: real, rmin2: real, rmax2: real)
    ensures InterpolateGeometryValues(z2, z1, z2, rmin1, rmax1, rmin2, rmax2)
      == if Abs(z2 - z1) < ZTolerance then Radii(rmin1, rmax1) else Radii(rmin2, rmax2)
  {
    if Abs(z2 - z1) >= ZTolerance {
      assert (z2 - z1) / (z2 - z1) == 1.0;
    }
  }

  /** Between the two planes each radius lies between the planes' radii. */
  lemma InterpolateBetween(zPos: real, z1: real, z2: real, rmin1: real, rmax1: real, rmin2: real, rmax2: real)
    requires z1 <= zPos <= z2
    ensures var r := InterpolateGeometryValues(zPos, z1, z2, rmin1, rmax1, rmin2, rmax2);
      Min(rmin1, rmin2) <= r.rmin <= Max(rmin1, rmin2) && Min(rmax1, rmax2) <= r.rmax <= Max(rmax1, rmax2)
  {
    if Abs(z2 - z1) >= ZTolerance {
      var t := (zPos - z1) / (z2 - z1);
      DivBetween(zPos - z1, z2 - z1);
      LerpBetween(rmin1, rmin2, t);
      LerpBetween(rmax1, rmax2, t);
    }
  }

  lemma DivBetween(a: real, b: real)
    requires 0.0 <= a <= b && b > 0.0
    ensures 0.0 <= a / b <= 1.0
  {
  }

  function Min(a: real, b: real): real { if a <= b then a else b }
  function Max(a: real, b: real): real { if a >= b then a else b }

  // ---------------------------------------------------------------------
  // sorted positions per component
  // ---------------------------------------------------------------------

  /** One plane of a component as `(abs(z), z, rmin, rmax)`. */
  datatype Position = Position(absZ: real, z: real, rmin: real, rmax: real)

  function AbsZ(p: Position): real { p.absZ }

  function PositionOf(e: Entry): Position {
    Position(Abs(e.key.z), e.key.z, e.radii.rmin, e.radii.rmax)
  }

  /** The planes of component `name`, in table order. */
  function PositionsOf(t: Table, name: string): (ps: seq<Position>)
    ensures |ps| <= |t|
    ensures forall p :: p in ps ==> exists e :: e in t && e.key.name == name && p == PositionOf(e)
  {
    if t == [] then []
    else
      var e := t[|t| - 1];
      PositionsOf(t[..|t| - 1], name) + (if e.key.name == name then [PositionOf(e)] else [])
  }

  /** The component names of a table. */
  function NamesOf(t: Table): set<string> {
    set e | e in t :: e.key.name
  }

  /** A component has planes exactly when its name occurs in the table. */
  lemma {:induction false} PositionsOfNonEmpty(t: Table, name: string)
    ensures PositionsOf(t, name) != [] <==> name in NamesOf(t)
  {
    if t != [] {
      var p := t[..|t| - 1];
      PositionsOfNonEmpty(p, name);
      assert t == p + [t[|t| - 1]];
      assert NamesOf(t) == NamesOf(p) + {t[|t| - 1].key.name};
    }
  }

  /** The per-component lists of `modify_blackhole_geometry_absolute`, each sorted by |z|. */
  function SortedPositionsMap(t: Table): map<string, seq<Position>> {
    map name | name in NamesOf(t) :: SortBy(PositionsOf(t, name), AbsZ)
  }

  /**
   * The dict of lists built at the top of `modify_blackhole_geometry_absolute`:
   * one list per component name, filled in table order, then each sorted by |z|.
   */
  method SortedPositions(t: Table) returns (m: map<string, seq<Position>>)
    ensures m == SortedPositionsMap(t)
  {
    var lists := GroupPositions(t);
    forall name
      ensures name in lists <==> name in NamesOf(t)
    {
      PositionsOfNonEmpty(t, name);
    }
    assert lists.Keys == NamesOf(t);
    m := map name | name in lists :: SortBy(lists[name], AbsZ);
  }

  /** The grouping loop of `get_sorted_positions`: each component's planes, in table order. */
  method GroupPositions(t: Table) returns (lists: map<string, seq<Position>>)
    ensures forall name :: name in lists <==> PositionsOf(t, name) != []
    ensures forall name :: name in lists ==> lists[name] == PositionsOf(t, name)
  {
    lists := map[];
    var i := 0;
    while i < |t|
      invariant 0 <= i <= |t|
      invariant forall name :: name in lists <==> PositionsOf(t[..i], name) != []
      invariant forall name :: name in lists ==> lists[name] == PositionsOf(t[..i], name)
    {
      var e := t[i];
      assert t[..i + 1][..i] == t[..i];
      if e.key.name !in lists {
        lists := lists[e.key.name := []];
      }
      lists := lists[e.key.name := lists[e.key.name] + [PositionOf(e)]];
      i := i + 1;
    }
    assert t[..|t|] == t;
  }

  /** Every listed component has its planes exactly once, in non-decreasing |z|. */
  lemma SortedPositionsContents(t: Table, name: string)
    requires name in NamesOf(t)
    ensures SortedBy(SortedPositionsMap(t)[name], AbsZ)
    ensures multiset(SortedPositionsMap(t)[name]) == multiset(PositionsOf(t, name))
  {
    SortBySorted(PositionsOf(t, name), AbsZ);
  }

  // ---------------------------------------------------------------------
  // get_interpolated_values
  // ---------------------------------------------------------------------

  predicate IsBracket(ps: seq<Position>, i: int, zPos: real)
    requires 0 <= i < |ps| - 1
  {
    ps[i].absZ <= zPos <= ps[i + 1].absZ
  }

  /** Index of the first pair of neighbouring planes around `zPos`, or -1. */
  function FirstBracket(ps: seq<Position>, zPos: real, from: nat := 0): (i: int)
    requires from <= |ps|
    ensures i == -1 || from <= i < |ps| - 1
    ensures i >= 0 ==> IsBracket(ps, i, zPos) && forall j :: from <= j < i ==> !IsBracket(ps, j, zPos)
    ensures i == -1 ==> forall j :: from <= j < |ps| - 1 ==> !IsBracket(ps, j, zPos)
    decreases |ps| - from
  {
    if from + 1 >= |ps| then -1
    else if IsBracket(ps, from, zPos) then from
    else FirstBracket(ps, zPos, from + 1)
  }

  /**
   * The values `get_interpolated_values` returns for the sorted list `ps`:
   * interpolated in the first surrounding pair, else clamped to the first
   * or last plane, else the fallback `(0.1, 0.2)`.
   */
  function InterpolatedValues(ps: seq<Position>, zPos: real): (r: Radii)
    ensures ps == [] ==> r == Radii(0.1, 0.2)
    ensures r == Radii(0.1, 0.2) || exists i :: 0 <= i < |ps| && NextToPlane(ps, i, r)
  {
    var b := FirstBracket(ps, zPos);
    if b >= 0 then
      var r := InterpolateGeometryValues(zPos, ps[b].absZ, ps[b + 1].absZ, ps[b].rmin, ps[b].rmax, ps[b + 1].rmin, ps[b + 1].rmax);
      InterpolateBetween(zPos, ps[b].absZ, ps[b + 1].absZ, ps[b].rmin, ps[b].rmax, ps[b + 1].rmin, ps[b + 1].rmax);
      assert NextToPlane(ps, b, r);
      r
    else if ps != [] && zPos < ps[0].absZ then
      assert NextToPlane(ps, 0, Radii(ps[0].rmin, ps[0].rmax));
      Radii(ps[0].rmin, ps[0].rmax)
    else if ps != [] && zPos > ps[|ps| - 1].absZ then
      assert NextToPlane(ps, |ps| - 1, Radii(ps[|ps| - 1].rmin, ps[|ps| - 1].rmax));
      Radii(ps[|ps| - 1].rmin, ps[|ps| - 1].rmax)
    else Radii(0.1, 0.2)
  }

  /**
   * `r` is plane `i`'s radii, or each radius lies between those of plane
   * `i` and the next plane.
   */
  predicate NextToPlane(ps: seq<Position>, i: int, r: Radii)
    requires 0 <= i < |ps|
  {
    r == Radii(ps[i].rmin, ps[i].rmax)
    || (i + 1 < |ps| && Min(ps[i].rmin, ps[i + 1].rmin) <= r.rmin <= Max(ps[i].rmin, ps[i + 1].rmin)
        && Min(ps[i].rmax, ps[i + 1].rmax) <= r.rmax <= Max(ps[i].rmax, ps[i + 1].rmax))
  }

  /** `get_interpolated_values`: look the component up, scan for a surrounding pair, clamp or fall back. */
  method GetInterpolatedValues(componentName: string, zPos: real, sortedPositions: map<string, seq<Position>>)
    returns (r: Radii)
    ensures r == InterpolatedValues(if componentName in sortedPositions then sortedPositions[componentName] else [], zPos)
  {
    var positions := if componentName in sortedPositions then sortedPositions[componentName] else [];
    var i := 0;
    while i < |positions| - 1
      invariant 0 <= i <= if |positions| == 0 then 0 else |positions| - 1
      invariant forall j :: 0 <= j < i ==> !IsBracket(positions, j, zPos)
    {
      var p1 := positions[i];
      var p2 := positions[i + 1];
      if p1.absZ <= zPos <= p2.absZ {
        assert IsBracket(positions, i, zPos);
        assert FirstBracket(positions, zPos) == i;
        r := InterpolateGeometryValues(zPos, p1.absZ, p2.absZ, p1.rmin, p1.rmax, p2.rmin, p2.rmax);
        return;
      }
      i := i + 1;
    }
    if |positions| > 0 && zPos < positions[0].absZ {
      return Radii(positions[0].rmin, positions[0].rmax);
    }
    if |positions| > 0 && zPos > positions[|positions| - 1].absZ {
      return Radii(positions[|positions| - 1].rmin, positions[|positions| - 1].rmax);
    }
    r := Radii(0.1, 0.2);
  }

  /** Before the first plane of a sorted list the first plane's radii are returned. */
  lemma InterpolatedClampsBelow(ps: seq<Position>, zPos: real)
    requires SortedBy(ps, AbsZ) && ps != [] && zPos < ps[0].absZ
    ensures InterpolatedValues(ps, zPos) == Radii(ps[0].rmin, ps[0].rmax)
  {
    assert forall j :: 0 < j < |ps| ==> AbsZ(ps[0]) <= AbsZ(ps[j]);
  }

  /** After the last plane of a sorted list the last plane's radii are returned. */
  lemma InterpolatedClampsAbove(ps: seq<Position>, zPos: real)
    requires SortedBy(ps, AbsZ) && ps != [] && zPos > ps[|ps| - 1].absZ
    ensures InterpolatedValues(ps, zPos) == Radii(ps[|ps| - 1].rmin, ps[|ps| - 1].rmax)
  {
    assert forall j :: 0 <= j < |ps| - 1 ==> AbsZ(ps[j]) <= AbsZ(ps[|ps| - 1]);
  }

  /** A component that is not in the dict gets the fallback radii. */
  lemma InterpolatedUnknownComponent(zPos: real)
    ensures InterpolatedValues([], zPos) == Radii(0.1, 0.2)
  {
  }

  /**
   * A component with a single plane, asked exactly at that plane, also gets
   * the fallback radii: there is no pair to interpolate in, and the position
   * is neither before nor after the plane.
   */
  lemma InterpolatedSinglePlane(p: Position)
    ensures InterpolatedValues([p], p.absZ) == Radii(0.1, 0.2)
  {
  }

  /** Within the range of a sorted list of at least two planes some neighbouring pair surrounds the position. */
  lemma {:induction false} BracketExists(ps: seq<Position>, zPos: real)
    requires SortedBy(ps, AbsZ) && |ps| >= 2 && ps[0].absZ <= zPos <= ps[|ps| - 1].absZ
    ensures FirstBracket(ps, zPos) >= 0
    decreases |ps|
  {
    if !IsBracket(ps, 0, zPos) {
      var rest := ps[1..];
      assert AbsZ(ps[1]) < zPos;
      if |rest| == 1 {
        assert false;
      } else {
        BracketExists(rest, zPos);
        var k := FirstBracket(rest, zPos);
        assert IsBracket(ps, k + 1, zPos);
      }
    }
  }

  /** Within the range of a sorted list the result lies between the radii of two neighbouring planes. */
  lemma InterpolatedWithinRange(ps: seq<Position>, zPos: real)
    requires SortedBy(ps, AbsZ) && |ps| >= 2 && ps[0].absZ <= zPos <= ps[|ps| - 1].absZ
    ensures exists i :: (0 <= i < |ps| - 1 && ps[i].absZ <= zPos <= ps[i + 1].absZ
      && Min(ps[i].rmin, ps[i + 1].rmin) <= InterpolatedValues(ps, zPos).rmin <= Max(ps[i].rmin, ps[i + 1].rmin)
      && Min(ps[i].rmax, ps[i + 1].rmax) <= InterpolatedValues(ps, zPos).rmax <= Max(ps[i].rmax, ps[i + 1].rmax))
  {
    BracketExists(ps, zPos);
    var b := FirstBracket(ps, zPos);
    InterpolateBetween(zPos, ps[b].absZ, ps[b + 1].absZ, ps[b].rmin, ps[b].rmax, ps[b + 1].rmin, ps[b + 1].rmax);
  }
}
