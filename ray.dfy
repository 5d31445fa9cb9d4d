/**
  * The ray and the hit record the intersection tests and materials exchange. Their
  * definitions are not part of this model; only what the intersection code relies on is
  * kept: `at(t)` is `origin + t * direction`, and a hit record carries the fields the
  * intersection tests fill in.
  */
module Rays {
  import opened Vectors

  datatype Ray = Ray(origin: Vec3, direction: Vec3)

  /** `ray.at(t)`: the point reached after `t` times the direction. */
  function At(ray: Ray, t: real): (r: Vec3)
    ensures Sub(r, ray.origin) == Scale(t, ray.direction)
  {
    Add(ray.origin, Scale(t, ray.direction))
  }

  /**
    * `HitRecord`: where a ray met a surface, the surface normal there, the ray parameter
    * of the meeting, which side was hit, and the surface's material (of type `M`).
    */
  datatype HitRecord<M> = HitRecord(point: Vec3, normal: Vec3, distance: real, frontFace: bool, material: M)
}
