/** `Lambertian::scatter` of `src/materials/lambertian.rs`: diffuse reflection. */
module LambertianScatter {
  import opened Wrappers
  import opened Vectors
  import opened Rays
  import opened Materials

  /**
    * The ray leaves the hit point along the normal plus a random unit vector (`unitSample`,
    * the value of `random_unit_vector()`), or along the normal alone when that sum is
    * near zero. A diffuse surface never absorbs.
    */
  function Scatter<M>(color: Vec3, ray: Ray, record: HitRecord<M>, unitSample: Vec3): (r: Option<Scattered>)
    ensures r.Some? && r.value.attenuation == color && r.value.ray.origin == record.point
    ensures !NearZero(Add(record.normal, unitSample)) ==> r.value.ray.direction == Add(record.normal, unitSample)
    ensures NearZero(Add(record.normal, unitSample)) ==> r.value.ray.direction == record.normal
    ensures !NearZero(record.normal) ==> !NearZero(r.value.ray.direction)
  {
    var scatterDirection := Add(record.normal, unitSample);
    var scatterDirection := if NearZero(scatterDirection) then record.normal else scatterDirection;
    Some(Scattered(color, Ray(record.point, scatterDirection)))
  }
}
