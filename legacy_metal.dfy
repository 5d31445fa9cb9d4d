/** `Metal::scatter` of `src/materials/metal.rs`: pure mirror reflection, no randomness. */
module LegacyMetalScatter {
  import opened Wrappers
  import opened Transcendentals
  import opened Vectors
  import opened Rays
  import opened Materials
  import MetalScatter

  /**
    * The scattered ray starts at the hit point along the unit incoming direction reflected
    * at the normal, and is kept, with the metal's colour, exactly when it leaves on the
    * normal's side.
    */
  function Scatter<M>(sqrt: real -> real, color: Vec3, ray: Ray, record: HitRecord<M>): (r: Option<Scattered>)
    requires IsSqrt(sqrt) && ray.direction != Default()
    ensures r.Some? <==> Dot(Reflect(UnitVector(sqrt, ray.direction), record.normal), record.normal) > 0.0
    ensures r.Some? ==> r.value.attenuation == color
    ensures r.Some? ==> r.value.ray == Ray(record.point, Reflect(UnitVector(sqrt, ray.direction), record.normal))
  {
    var reflected := Reflect(UnitVector(sqrt, ray.direction), record.normal);
    var scattered := Ray(record.point, reflected);
    if Dot(scattered.direction, record.normal) > 0.0 then Some(Scattered(color, scattered))
    else None
  }

  /** With a unit normal the older metal keeps the ray exactly when it arrives against the normal. */
  lemma ScatterIff<M>(sqrt: real -> real, color: Vec3, ray: Ray, record: HitRecord<M>)
    requires IsSqrt(sqrt) && ray.direction != Default() && Dot(record.normal, record.normal) == 1.0
    ensures Scatter(sqrt, color, ray, record).Some? <==> Dot(ray.direction, record.normal) < 0.0
  {
    MetalScatter.ReflectedLeavesIff(sqrt, ray, record);
  }

  /** The older metal is the newer one with `fuzz == 0`, whatever the newer one's sample. */
  lemma IsFuzzlessMetal<M>(sqrt: real -> real, color: Vec3, ray: Ray, record: HitRecord<M>, inUnitSphere: Vec3)
    requires IsSqrt(sqrt) && ray.direction != Default()
    ensures Scatter(sqrt, color, ray, record) == MetalScatter.Scatter(sqrt, color, 0.0, ray, record, inUnitSphere)
  {
    var reflected := MetalScatter.Reflected(sqrt, ray, record);
    assert Add(reflected, Scale(0.0, inUnitSphere)) == reflected;
  }
}
