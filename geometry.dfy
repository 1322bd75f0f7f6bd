/**
 * Geometry tables of the nozzle variant generator: a Python dict keyed by
 * `(detector name, z)` whose values are `(rmin, rmax)`, kept as a sequence
 * of entries in insertion order. Assigning to a key overwrites its value in
 * place; assigning to a new key appends it. Radii and z are exact reals.
 */
module Geometry {
  import opened Wrappers
  import opened Text

  datatype Key = Key(name: string, z: real)
  datatype Radii = Radii(rmin: real, rmax: real)
  datatype Entry = Entry(key: Key, radii: Radii)
  type Table = seq<Entry>

  // ---------------------------------------------------------------------
  // constants of the script
  // ---------------------------------------------------------------------

  /** z of the nozzle tip in the detector's coordinates; the tables are shifted by its negative. */
  const NozzleTipOriginalZ: real := 6.0
  const NozzleKinkZ: real := 94.0
  const NozzleKinkMaxR: real := 17.57473619
  /** Smallest accepted blackhole start, relative to the tip. */
  const MinBlackholeStart: real := 0.00001
  /** A reduction may use at most this fraction of the available thickness. */
  const MaxReductionFactor: real := 0.9
  /** Thickness that every modified plane keeps at least. */
  const MinThicknessPreservation: real := 0.0001

  // ---------------------------------------------------------------------
  // the dict operations
  // ---------------------------------------------------------------------

  /** A dict never holds the same key twice. */
  predicate IsDict(t: Table) {
    forall i, j :: 0 <= i < j < |t| ==> t[i].key != t[j].key
  }

  /** Position of key `k` (its last position), or -1. */
  function Find(t: Table, k: Key): (i: int)
    ensures -1 <= i < |t|
    ensures 0 <= i ==> t[i].key == k && forall j :: i < j < |t| ==> t[j].key != k
    ensures i == -1 <==> forall j :: 0 <= j < |t| ==> t[j].key != k
  {
    if t == [] then -1
    else if t[|t| - 1].key == k then |t| - 1
    else Find(t[..|t| - 1], k)
  }

  /** Python `k in d`. */
  predicate HasKey(t: Table, k: Key) {
    Find(t, k) >= 0
  }

  /** Python `d.get(k)`. */
  function Get(t: Table, k: Key): (r: Option<Radii>)
    ensures r.Some? <==> exists i :: 0 <= i < |t| && t[i].key == k
    ensures r.Some? ==> Entry(k, r.value) in t
  {
    var i := Find(t, k);
    if i < 0 then None else Some(t[i].radii)
  }

  /**
   * Python `d[k] = v`: the keys already present keep their places, the
   * table grows by at most the one new key, and `k` now maps to `v`.
   */
  function Put(t: Table, k: Key, v: Radii): (r: Table)
    ensures |t| <= |r| <= |t| + 1
    ensures forall i :: 0 <= i < |t| ==> r[i].key == t[i].key
    ensures Entry(k, v) in r
  {
    var i := Find(t, k);
    if i >= 0 then t[i := Entry(k, v)] else t + [Entry(k, v)]
  }

  /** Finding a key depends only on the keys of the entries. */
  lemma FindSameKeys(t: Table, u: Table, k: Key)
    requires |t| == |u| && forall i :: 0 <= i < |t| ==> t[i].key == u[i].key
    ensures Find(t, k) == Find(u, k)
  {
    assert forall j :: 0 <= j < |t| ==> (t[j].key == k <==> u[j].key == k);
  }

  /** Assignment keeps the keys unique, and adds a key exactly when it was missing. */
  lemma PutIsDict(t: Table, k: Key, v: Radii)
    requires IsDict(t)
    ensures IsDict(Put(t, k, v))
    ensures |Put(t, k, v)| == if HasKey(t, k) then |t| else |t| + 1
  {
  }

  /** After `d[k] = v`, `d[k]` is `v` and every other key reads as before. */
  lemma PutGet(t: Table, k: Key, v: Radii, k': Key)
    ensures Get(Put(t, k, v), k') == if k' == k then Some(v) else Get(t, k')
  {
    var i := Find(t, k);
    var r := Put(t, k, v);
    if i >= 0 {
      FindSameKeys(t, r, k');
    } else {
      if k' != k {
        assert r[..|t|] == t;
      }
    }
  }

  /** The entries other than the assigned key keep their positions and values. */
  lemma PutKeepsOthers(t: Table, k: Key, v: Radii, i: int)
    requires 0 <= i < |t| && t[i].key != k
    ensures i < |Put(t, k, v)| && Put(t, k, v)[i] == t[i]
  {
  }

  /** After `d[k] = v` the entries are the new one and the old ones with other keys. */
  lemma PutMembers(t: Table, k: Key, v: Radii)
    requires IsDict(t)
    ensures Entry(k, v) in Put(t, k, v)
    ensures forall x :: x in Put(t, k, v) ==> x == Entry(k, v) || (x in t && x.key != k)
    ensures forall x :: x in t && x.key != k ==> x in Put(t, k, v)
  {
    var i := Find(t, k);
    var r := Put(t, k, v);
    if i >= 0 {
      assert r[i] == Entry(k, v);
      forall x | x in r
        ensures x == Entry(k, v) || (x in t && x.key != k)
      {
        var j :| 0 <= j < |r| && r[j] == x;
        if j != i {
          assert t[j] == x;
        }
      }
      forall x | x in t && x.key != k
        ensures x in r
      {
        var j :| 0 <= j < |t| && t[j] == x;
        assert r[j] == x;
      }
    }
  }

  /** Assignment never removes a key. */
  lemma PutKeepsKeys(t: Table, k: Key, v: Radii, k': Key)
    requires HasKey(t, k')
    ensures HasKey(Put(t, k, v), k')
  {
    PutGet(t, k, v, k');
  }

  /** Assigning a key that is not in the dict appends it. */
  lemma PutFresh(t: Table, k: Key, v: Radii)
    requires forall j :: 0 <= j < |t| ==> t[j].key != k
    ensures Put(t, k, v) == t + [Entry(k, v)]
  {
  }

  // ---------------------------------------------------------------------
  // the tip offset
  // ---------------------------------------------------------------------

  /** `apply_z_offset`: move a z by `offset` (by default to tip-relative coordinates). */
  function ApplyZOffset(z: real, offset: real := -NozzleTipOriginalZ): real {
    z + offset
  }

  /** Moving by an offset and by its negative gives back the coordinate. */
  lemma ApplyZOffsetRoundTrip(z: real, offset: real)
    ensures ApplyZOffset(ApplyZOffset(z, offset), -offset) == z
  {
  }

  function ShiftEntry(e: Entry, offset: real): Entry {
    Entry(Key(e.key.name, ApplyZOffset(e.key.z, offset)), e.radii)
  }

  /** Every entry moved by `offset` along z, name and radii kept. */
  function Shifted(t: Table, offset: real): (r: Table)
    ensures |r| == |t|
    ensures forall i :: 0 <= i < |t| ==>
      r[i].key.name == t[i].key.name && r[i].key.z == t[i].key.z + offset && r[i].radii == t[i].radii
  {
    if t == [] then [] else Shifted(t[..|t| - 1], offset) + [ShiftEntry(t[|t| - 1], offset)]
  }

  lemma ShiftedPrefix(t: Table, offset: real, i: nat)
    requires i < |t|
    ensures Shifted(t[..i + 1], offset) == Shifted(t[..i], offset) + [ShiftEntry(t[i], offset)]
  {
    assert t[..i + 1][..i] == t[..i];
  }

  /** Shifting a dict gives a dict: distinct keys stay distinct. */
  lemma ShiftedIsDict(t: Table, offset: real)
    requires IsDict(t)
    ensures IsDict(Shifted(t, offset))
  {
    var r := Shifted(t, offset);
    forall i, j | 0 <= i < j < |r|
      ensures r[i].key != r[j].key
    {
      assert t[i].key != t[j].key;
    }
  }

  /** Shifting back by the negative offset restores the table. */
  lemma ShiftedRoundTrip(t: Table, offset: real)
    ensures Shifted(Shifted(t, offset), -offset) == t
  {
    var r := Shifted(Shifted(t, offset), -offset);
    assert |r| == |t|;
    forall i | 0 <= i < |t|
      ensures r[i] == t[i]
    {
      assert r[i].key == t[i].key;
    }
  }

  /** A shifted dict answers at `z + offset` what the original answers at `z`. */
  lemma ShiftedGet(t: Table, offset: real, name: string, z: real)
    requires IsDict(t)
    ensures Get(Shifted(t, offset), Key(name, z + offset)) == Get(t, Key(name, z))
  {
    var r := Shifted(t, offset);
    var a := Find(t, Key(name, z));
    var b := Find(r, Key(name, z + offset));
    if a >= 0 {
      assert r[a].key == Key(name, z + offset);
    }
    if b >= 0 {
      assert t[b].key == Key(name, z);
    }
  }

  /**
   * `offset_geometry_dict`: a new dict filled entry by entry with the
   * shifted key and the same radii.
   */
  method OffsetGeometryDict(t: Table, offset: real := -NozzleTipOriginalZ) returns (r: Table)
    requires IsDict(t)
    ensures r == Shifted(t, offset)
  {
    r := [];
    var i := 0;
    while i < |t|
      invariant 0 <= i <= |t|
      invariant r == Shifted(t[..i], offset)
    {
      var e := t[i];
      var newKey := Key(e.key.name, ApplyZOffset(e.key.z, offset));
      forall j | 0 <= j < |r|
        ensures r[j].key != newKey
      {
        assert t[..i][j] == t[j];
      }
      PutFresh(r, newKey, e.radii);
      r := Put(r, newKey, e.radii);
      ShiftedPrefix(t, offset, i);
      i := i + 1;
    }
    assert t[..|t|] == t;
  }

  // ---------------------------------------------------------------------
  // base geometries
  // ---------------------------------------------------------------------

  function E(name: string, z: real, rmin: real, rmax: real): Entry {
    Entry(Key(name, z), Radii(rmin, rmax))
  }

  /** The blackhole planes in the detector's own coordinates. */
  function BlackholeOriginal(): Table {
    [ E("NozzleBlackhole_right", 10.5176, 0.79922, 0.79922),
      E("NozzleBlackhole_right", 15.0, 0.6, 1.58694),
      E("NozzleBlackhole_right", 99.99999999, 0.3, 16.57473619),
      E("NozzleBlackhole_right", 100.0, 0.3, 12.47473619),
      E("NozzleBlackhole_right", 204.48824, 0.6124092832, 12.47473619),
      E("NozzleBlackhole_right", 595.0, 1.78, 42.0),
      E("NozzleBlackhole_left", -10.5176, 0.79922, 0.79922),
      E("NozzleBlackhole_left", -15.0, 0.6, 1.58694),
      E("NozzleBlackhole_left", -99.99999999, 0.3, 16.57473619),
      E("NozzleBlackhole_left", -100.0, 0.3, 12.47473619),
      E("NozzleBlackhole_left", -204.48824, 0.6124092832, 12.47473619),
      E("NozzleBlackhole_left", -595.0, 1.78, 42.0) ]
  }

  /** The tungsten nozzle planes in the detector's own coordinates. */
  function NozzleOriginal(): Table {
    [ E("NozzleW_right", 6.0, 1.0, 1.0),
      E("NozzleW_right", 10.5176, 0.79922, 1.79923),
      E("NozzleW_right", 15.0, 1.58694, 2.58694),
      E("NozzleW_right", 99.99999999, 16.57473619, 17.57473619),
      E("NozzleW_right", 100.0, 12.47473619, 13.47473619),
      E("NozzleW_right", 204.48824, 12.47473619, 13.47473619),
      E("NozzleW_right", 595.0, 42.0, 43.0),
      E("NozzleW_left", -6.0, 1.0, 1.0),
      E("NozzleW_left", -10.5176, 0.79922, 1.79923),
      E("NozzleW_left", -15.0, 1.58694, 2.58694),
      E("NozzleW_left", -99.99999999, 16.57473619, 17.57473619),
      E("NozzleW_left", -100.0, 12.47473619, 13.47473619),
      E("NozzleW_left", -204.48824, 12.47473619, 13.47473619),
      E("NozzleW_left", -595.0, 42.0, 43.0) ]
  }

  /** `get_blackhole_base_geometry`: the blackhole planes in tip-relative coordinates. */
  function BlackholeBase(): (r: Table)
    ensures |r| == |BlackholeOriginal()|
    ensures Shifted(r, NozzleTipOriginalZ) == BlackholeOriginal()
  {
    ShiftedRoundTrip(BlackholeOriginal(), -NozzleTipOriginalZ);
    Shifted(BlackholeOriginal(), -NozzleTipOriginalZ)
  }

  /** `get_nozzle_base_geometry`: the nozzle planes in tip-relative coordinates. */
  function NozzleBase(): (r: Table)
    ensures |r| == |NozzleOriginal()|
    ensures Shifted(r, NozzleTipOriginalZ) == NozzleOriginal()
  {
    ShiftedRoundTrip(NozzleOriginal(), -NozzleTipOriginalZ);
    Shifted(NozzleOriginal(), -NozzleTipOriginalZ)
  }

  /**
   * The same offset of -6 is added on both sides, so the right side's first
   * plane moves towards the tip (10.5176 to 4.5176) while the left side's
   * moves away from it (-10.5176 to -16.5176): the two sides are no longer
   * mirror images, and the nozzle tip planes end at 0 and -12.
   */
  lemma BaseOffsetIsOneSided()
    ensures BlackholeBase()[0].key == Key("NozzleBlackhole_right", 4.5176)
    ensures BlackholeBase()[6].key == Key("NozzleBlackhole_left", -16.5176)
    ensures NozzleBase()[0].key == Key("NozzleW_right", 0.0)
    ensures NozzleBase()[7].key == Key("NozzleW_left", -12.0)
  {
  }

  /** Both base tables are dicts. */
  lemma BaseTablesAreDicts()
    ensures IsDict(BlackholeBase()) && IsDict(NozzleBase())
  {
    BlackholeOriginalIsDict();
    ShiftedIsDict(BlackholeOriginal(), -NozzleTipOriginalZ);
    NozzleOriginalIsDict();
    ShiftedIsDict(NozzleOriginal(), -NozzleTipOriginalZ);
  }

  lemma BlackholeOriginalIsDict()
    ensures IsDict(BlackholeOriginal())
  {
    var b := BlackholeOriginal();
    forall i, j | 0 <= i < j < |b|
      ensures b[i].key != b[j].key
    {
      if b[i].key.name == b[j].key.name {
        assert b[i].key.z != b[j].key.z;
      }
    }
  }

  lemma NozzleOriginalIsDict()
    ensures IsDict(NozzleOriginal())
  {
    var n := NozzleOriginal();
    forall i, j | 0 <= i < j < |n|
      ensures n[i].key != n[j].key
    {
      if n[i].key.name == n[j].key.name {
        assert n[i].key.z != n[j].key.z;
      }
    }
  }
}
