/** `Metal::scatter` of `lib-raytracing/src/materials/metal.rs`: mirror reflection blurred by `fuzz`. */
module MetalScatter {
  import opened Wrappers
  import opened RealArith
  import opened Transcendentals
  import opened Vectors
  import opened Rays
  import opened Materials

  /** The mirror direction: the unit incoming direction reflected at the record's normal. */
  function Reflected<M>(sqrt: real -> real, ray: Ray, record: HitRecord<M>): Vec3
    requires IsSqrt(sqrt) && ray.direction != Default()
  {
    Reflect(UnitVector(sqrt, ray.direction), record.normal)
  }

  /**
    * The scattered ray starts at the hit point and points along the mirror direction plus
    * `fuzz` times `inUnitSphere` (the value of `random_in_unit_sphere()`); it is kept, with
    * the metal's colour as attenuation, exactly when it leaves on the normal's side.
    */
  function Scatter<M>(sqrt: real -> real, color: Vec3, fuzz: real, ray: Ray, record: HitRecord<M>,
                      inUnitSphere: Vec3): (r: Option<Scattered>)
    requires IsSqrt(sqrt) && ray.direction != Default()
    ensures r.Some? <==> Dot(Add(Reflected(sqrt, ray, record), Scale(fuzz, inUnitSphere)), record.normal) > 0.0
    ensures r.Some? ==> r.value.attenuation == color
    ensures r.Some? ==> r.value.ray == Ray(record.point, Add(Reflected(sqrt, ray, record), Scale(fuzz, inUnitSphere)))
  {
    var reflected := Reflect(UnitVector(sqrt, ray.direction), record.normal);
    var scattered := Ray(record.point, Add(reflected, Scale(fuzz, inUnitSphere)));
    if Dot(scattered.direction, record.normal) > 0.0 then Some(Scattered(color, scattered))
    else None
  }

  /**
    * For a unit normal, the mirror direction leaves on the normal's side exactly when the
    * incoming ray arrives against the normal.
    */
  lemma ReflectedLeavesIff<M>(sqrt: real -> real, ray: Ray, record: HitRecord<M>)
    requires IsSqrt(sqrt) && ray.direction != Default() && Dot(record.normal, record.normal) == 1.0
    ensures Dot(Reflected(sqrt, ray, record), record.normal) > 0.0 <==> Dot(ray.direction, record.normal) < 0.0
  {
    var n := record.normal;
    var len := Length(sqrt, ray.direction);
    var unit := UnitVector(sqrt, ray.direction);
    ReflectAgainstNormal(unit, n);
    DotScaleLeft(len, unit, n);
    assert Dot(ray.direction, n) == len * Dot(unit, n);
    SignOfProduct(len, Dot(unit, n));
  }

  /** A positive factor does not change the sign. */
  lemma SignOfProduct(k: real, a: real)
    requires 0.0 < k
    ensures k * a < 0.0 <==> a < 0.0
  {
    if a >= 0.0 {
      assert k * a >= 0.0;
    }
  }

  /**
    * Without fuzz and with a unit normal, a metal keeps the ray exactly when it arrives
    * against the normal, whatever the random sample.
    */
  lemma FuzzlessScatterIff<M>(sqrt: real -> real, color: Vec3, ray: Ray, record: HitRecord<M>, inUnitSphere: Vec3)
    requires IsSqrt(sqrt) && ray.direction != Default() && Dot(record.normal, record.normal) == 1.0
    ensures Scatter(sqrt, color, 0.0, ray, record, inUnitSphere).Some? <==> Dot(ray.direction, record.normal) < 0.0
  {
    assert Add(Reflected(sqrt, ray, record), Scale(0.0, inUnitSphere)) == Reflected(sqrt, ray, record);
    ReflectedLeavesIff(sqrt, ray, record);
  }
}
