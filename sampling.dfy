/**
  * The random vectors of `lib-raytracing/src/vec3.rs`. Every call of `random()` is replaced
  * by a given draw; a rejection loop reads its attempts from a finite sequence of draws and
  * answers `None` when the sequence runs out before a candidate is accepted.
  */
module Sampling {
  import opened Wrappers
  import opened Vectors
  import opened Transcendentals
  import Util

  /** Every component is a value `random()` can return. */
  predicate IsDraw(d: Vec3)
  {
    0.0 <= d.x < 1.0 && 0.0 <= d.y < 1.0 && 0.0 <= d.z < 1.0
  }

  /** `Vec3::random_range`: each component drawn from `[min, max)`. */
  function RandomRangeVec(min: real, max: real, draws: Vec3): (r: Vec3)
    ensures IsDraw(draws) && min < max ==>
      min <= r.x < max && min <= r.y < max && min <= r.z < max
  {
    Vec3(Util.RandomRange(min, max, draws.x),
         Util.RandomRange(min, max, draws.y),
         Util.RandomRange(min, max, draws.z))
  }

  /** The candidate that `random_in_unit_sphere` tests for one attempt. */
  function SphereCandidate(draws: Vec3): Vec3
  {
    RandomRangeVec(-1.0, 1.0, draws)
  }

  /**
    * `random_in_unit_sphere`: the first candidate strictly inside the unit sphere;
    * candidates with `length_squared >= 1` are discarded and the next attempt is made.
    */
  method RandomInUnitSphere(attempts: seq<Vec3>) returns (r: Option<Vec3>)
    ensures r.Some? ==> LengthSquared(r.value) < 1.0
    ensures r.Some? <==> exists k :: 0 <= k < |attempts| && LengthSquared(SphereCandidate(attempts[k])) < 1.0
    ensures r.Some? ==>
              exists k :: 0 <= k < |attempts| && r.value == SphereCandidate(attempts[k]) &&
                (forall j :: 0 <= j < k ==> LengthSquared(SphereCandidate(attempts[j])) >= 1.0)
  {
    var i := 0;
    while i < |attempts|
      invariant 0 <= i <= |attempts|
      invariant forall j :: 0 <= j < i ==> LengthSquared(SphereCandidate(attempts[j])) >= 1.0
    {
      var probant := SphereCandidate(attempts[i]);
      if LengthSquared(probant) >= 1.0 {
        i := i + 1;
      } else {
        return Some(probant);
      }
    }
    return None;
  }

  /** `random_unit_vector`: the accepted sphere sample scaled to length one. */
  function RandomUnitVector(sqrt: real -> real, inUnitSphere: Vec3): (r: Vec3)
    requires IsSqrt(sqrt) && inUnitSphere != Default()
    ensures LengthSquared(r) == 1.0
    ensures Dot(r, inUnitSphere) > 0.0
    ensures inUnitSphere == Scale(Length(sqrt, inUnitSphere), r)
  {
    var r := UnitVector(sqrt, inUnitSphere);
    var len := Length(sqrt, inUnitSphere);
    DotScaleRight(len, r, r);
    LengthSquaredIsDot(r);
    assert Dot(r, inUnitSphere) == len;
    r
  }

  /**
    * `random_in_hemisphere`: the sample when it lies on the normal's side, its negation
    * otherwise; either way the result is not on the far side of the normal.
    */
  function RandomInHemisphere(normal: Vec3, inUnitSphere: Vec3): (r: Vec3)
    ensures r == inUnitSphere || r == Negate(inUnitSphere)
    ensures Dot(r, normal) >= 0.0
    ensures LengthSquared(r) == LengthSquared(inUnitSphere)
  {
    if Dot(inUnitSphere, normal) > 0.0 then inUnitSphere
    else
      DotScaleLeft(-1.0, inUnitSphere, normal);
      LengthSquaredScale(-1.0, inUnitSphere);
      Negate(inUnitSphere)
  }

  /** The candidate that `random_in_unit_disk` tests for one attempt: a point of the plane z = 0. */
  function DiskCandidate(draws: (real, real)): Vec3
  {
    Vec3(Util.RandomRange(-1.0, 1.0, draws.0), Util.RandomRange(-1.0, 1.0, draws.1), 0.0)
  }

  /** `random_in_unit_disk`: the first candidate strictly inside the unit disk of the plane z = 0. */
  method RandomInUnitDisk(attempts: seq<(real, real)>) returns (r: Option<Vec3>)
    ensures r.Some? ==> r.value.z == 0.0 && LengthSquared(r.value) < 1.0
    ensures r.Some? <==> exists k :: 0 <= k < |attempts| && LengthSquared(DiskCandidate(attempts[k])) < 1.0
    ensures r.Some? ==>
              exists k :: 0 <= k < |attempts| && r.value == DiskCandidate(attempts[k]) &&
                (forall j :: 0 <= j < k ==> LengthSquared(DiskCandidate(attempts[j])) >= 1.0)
  {
    var i := 0;
    while i < |attempts|
      invariant 0 <= i <= |attempts|
      invariant forall j :: 0 <= j < i ==> LengthSquared(DiskCandidate(attempts[j])) >= 1.0
    {
      var probant := DiskCandidate(attempts[i]);
      if LengthSquared(probant) >= 1.0 {
        i := i + 1;
      } else {
        return Some(probant);
      }
    }
    return None;
  }
}
