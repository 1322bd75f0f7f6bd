/**
 * The radius helper kept beside the modified-nozzle geometry: the same
 * two-point interpolation, used to derive a radius and the radius reduced
 * by a clearance of 0.4 cm.
 */
module ModdedRadiusCalc {
  import opened Wrappers
  import opened RadiusCalc

  /** The clearance taken off the interpolated radius. */
  const Clearance: real := 0.4

  /**
   * The script's two results, `radius` and `radius_at_z_minus_0_4`; the
   * first interpolation already raises when the two z's are equal.
   */
  function ModdedRadii(z1: real, r1: real, z2: real, r2: real, z: real): (r: Result<(real, real), string>)
    ensures r.Err? <==> z1 == z2
    ensures r.Ok? ==> Ok(r.value.0) == InterpolateRadius(z1, r1, z2, r2, z)
    ensures r.Ok? ==> r.value.0 - r.value.1 == Clearance
  {
    var radius := InterpolateRadius(z1, r1, z2, r2, z);
    if radius.Err? then Err(radius.error)
    else
      var reduced := InterpolateRadius(z1, r1, z2, r2, z);
      Ok((radius.value, reduced.value - 0.4))
  }

  /**
   * Between the two known points the reduced radius lies between the two
   * known radii, each less the clearance; at the known points it is the
   * known radius less the clearance.
   */
  lemma ReducedBetween(z1: real, r1: real, z2: real, r2: real, z: real)
    requires z1 < z2 && z1 <= z <= z2
    ensures var v := ModdedRadii(z1, r1, z2, r2, z).value.1;
      (r1 <= r2 ==> r1 - Clearance <= v <= r2 - Clearance) && (r2 <= r1 ==> r2 - Clearance <= v <= r1 - Clearance)
    ensures z == z1 ==> ModdedRadii(z1, r1, z2, r2, z) == Ok((r1, r1 - Clearance))
    ensures z == z2 ==> ModdedRadii(z1, r1, z2, r2, z) == Ok((r2, r2 - Clearance))
  {
    InterpolateBetween(z1, r1, z2, r2, z);
    InterpolateAtEnds(z1, r1, z2, r2);
  }
}
