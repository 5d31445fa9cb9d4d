/**
  * `Dielectric::scatter` and `reflectance` of `src/materials/dielectric.rs`: glass that
  * reflects or refracts, choosing by total internal reflection and Schlick's approximation
  * against one draw of `random()`.
  */
module DielectricScatter {
  import opened Wrappers
  import opened RealArith
  import opened Transcendentals
  import opened Vectors
  import opened Rays
  import opened Materials

  /** The ratio of refractive indices: `1 / index` entering through the front face, `index` leaving. */
  function RefractionRatio(index: real, frontFace: bool): (r: real)
    requires frontFace ==> index != 0.0
    ensures frontFace ==> r * index == 1.0
    ensures !frontFace ==> r == index
  {
    if frontFace then 1.0 / index else index
  }

  /** `(1 - cosine)^5`, written as `powi(5)`. */
  function Pow5(x: real): (r: real)
    ensures 0.0 <= x <= 1.0 ==> 0.0 <= r <= 1.0
  {
    if 0.0 <= x <= 1.0 then
      ProductInUnit(x, x);
      ProductInUnit(x * x, x);
      ProductInUnit(x * x * x, x);
      ProductInUnit(x * x * x * x, x);
      x * x * x * x * x
    else
      x * x * x * x * x
  }

  /** The reflectance at normal incidence: the square of `(1 - ref_idx) / (1 + ref_idx)`. */
  function NormalReflectance(refIdx: real): real
    requires refIdx != -1.0
  {
    Square((1.0 - refIdx) / (1.0 + refIdx))
  }

  /** For a non-negative index the normal-incidence reflectance is a fraction. */
  lemma NormalReflectanceInUnit(refIdx: real)
    requires 0.0 <= refIdx
    ensures 0.0 <= NormalReflectance(refIdx) <= 1.0
  {
    var q := (1.0 - refIdx) / (1.0 + refIdx);
    assert q * (1.0 + refIdx) == 1.0 - refIdx;
    assert -1.0 <= q <= 1.0;
    SquareAtMostOne(q);
  }

  /**
    * `reflectance`: Schlick's approximation `r0 + (1 - r0) (1 - cosine)^5`. It equals the
    * normal-incidence value `r0` for `cosine == 1`, and for a cosine in `[0, 1]` and a
    * non-negative index it lies between `r0` and one.
    */
  function Reflectance(cosine: real, refIdx: real): (r: real)
    requires refIdx != -1.0
    ensures cosine == 1.0 ==> r == NormalReflectance(refIdx)
    ensures 0.0 <= cosine <= 1.0 && 0.0 <= refIdx ==> NormalReflectance(refIdx) <= r <= 1.0
  {
    var r0 := NormalReflectance(refIdx);
    var p := Pow5(1.0 - cosine);
    if 0.0 <= cosine <= 1.0 && 0.0 <= refIdx then
      NormalReflectanceInUnit(refIdx);
      ProductInUnit(1.0 - r0, p);
      r0 + (1.0 - r0) * p
    else
      r0 + (1.0 - r0) * p
  }

  /** Between media of equal index nothing is reflected head-on, and at grazing incidence everything is. */
  lemma ReflectanceMatchedAndGrazing(cosine: real, refIdx: real)
    requires refIdx != -1.0
    ensures NormalReflectance(1.0) == 0.0
    ensures Reflectance(0.0, refIdx) == 1.0
  {
  }

  /** `cos_theta`: the cosine between the reversed unit direction and the normal, capped at one. */
  function CosTheta(unitDirection: Vec3, normal: Vec3): (r: real)
    ensures r <= 1.0
    ensures -Dot(unitDirection, normal) <= 1.0 ==> r == -Dot(unitDirection, normal)
  {
    DotScaleLeft(-1.0, unitDirection, normal);
    Min(Dot(Scale(-1.0, unitDirection), normal), 1.0)
  }

  /** `sin_theta`: `sqrt(1 - cos_theta^2)`; a genuine sine when the cosine is one. */
  function SinTheta(sqrt: real -> real, cosTheta: real): (r: real)
    requires IsSqrt(sqrt)
    ensures Square(cosTheta) <= 1.0 ==> 0.0 <= r <= 1.0 && Square(r) + Square(cosTheta) == 1.0
  {
    if Square(cosTheta) <= 1.0 then
      SqrtAtMostOne(sqrt, 1.0 - Square(cosTheta));
      sqrt(1.0 - cosTheta * cosTheta)
    else
      sqrt(1.0 - cosTheta * cosTheta)
  }

  /** The guard that forces reflection: refraction would need a sine above one. */
  predicate TotalInternalReflection(ratio: real, sinTheta: real)
  {
    1.0 < ratio * sinTheta
  }

  /**
    * The scatter: the ray always continues from the hit point, unattenuated. It reflects
    * when refraction is impossible, and otherwise reflects exactly when the reflectance
    * exceeds `draw` (the value of `random()`); else it refracts.
    */
  function Scatter<M>(sqrt: real -> real, index: real, ray: Ray, record: HitRecord<M>, draw: real): (r: Option<Scattered>)
    requires IsSqrt(sqrt) && ray.direction != Default() && record.normal != Default()
    requires index != 0.0 && index != -1.0
    ensures r.Some? && r.value.attenuation == Vec3(1.0, 1.0, 1.0) && r.value.ray.origin == record.point
    ensures
      var unit := UnitVector(sqrt, ray.direction);
      var ratio := RefractionRatio(index, record.frontFace);
      var cosTheta := CosTheta(unit, record.normal);
      (TotalInternalReflection(ratio, SinTheta(sqrt, cosTheta)) ==> r.value.ray.direction == Reflect(unit, record.normal)) &&
      (!TotalInternalReflection(ratio, SinTheta(sqrt, cosTheta)) && Reflectance(cosTheta, ratio) > draw ==>
         r.value.ray.direction == Reflect(unit, record.normal)) &&
      (!TotalInternalReflection(ratio, SinTheta(sqrt, cosTheta)) && Reflectance(cosTheta, ratio) <= draw ==>
         unit != Default() && r.value.ray.direction == Refract(sqrt, unit, record.normal, ratio))
  {
    var refractionRatio := RefractionRatio(index, record.frontFace);
    var unitDirection := UnitVector(sqrt, ray.direction);
    var cosTheta := CosTheta(unitDirection, record.normal);
    var sinTheta := SinTheta(sqrt, cosTheta);
    var direction :=
      if TotalInternalReflection(refractionRatio, sinTheta) || Reflectance(cosTheta, refractionRatio) > draw then
        Reflect(unitDirection, record.normal)
      else
        assert LengthSquared(unitDirection) == 1.0;
        Refract(sqrt, unitDirection, record.normal, refractionRatio);
    Some(Scattered(Vec3(1.0, 1.0, 1.0), Ray(record.point, direction)))
  }

  /** A ratio of at most one never meets the total-internal-reflection guard. */
  lemma NoTotalInternalReflection(sqrt: real -> real, ratio: real, cosTheta: real)
    requires IsSqrt(sqrt) && Square(cosTheta) <= 1.0 && ratio <= 1.0
    ensures !TotalInternalReflection(ratio, SinTheta(sqrt, cosTheta))
  {
    var s := SinTheta(sqrt, cosTheta);
    assert ratio * s <= 1.0 by {
      if 0.0 <= ratio {
        ProductInUnit(ratio, s);
      } else {
        assert ratio * s <= 0.0;
      }
    }
    BelowGuard(ratio, s);
  }

  /** A product of at most one does not meet the guard. */
  lemma BelowGuard(ratio: real, sinTheta: real)
    requires ratio * sinTheta <= 1.0
    ensures !TotalInternalReflection(ratio, sinTheta)
  {
  }

  /**
    * Entering glass (`index >= 1`) through the front face with a unit normal, the ray is never
    * totally reflected: it reflects exactly when the reflectance exceeds the draw.
    */
  lemma EnteringDenserMedium<M>(sqrt: real -> real, index: real, ray: Ray, record: HitRecord<M>, draw: real)
    requires IsSqrt(sqrt) && ray.direction != Default() && LengthSquared(record.normal) == 1.0
    requires record.frontFace && 1.0 <= index
    ensures
      var unit := UnitVector(sqrt, ray.direction);
      var ratio := RefractionRatio(index, true);
      var cosTheta := CosTheta(unit, record.normal);
      var d := Scatter(sqrt, index, ray, record, draw).value.ray.direction;
      (Reflectance(cosTheta, ratio) > draw ==> d == Reflect(unit, record.normal)) &&
      (Reflectance(cosTheta, ratio) <= draw ==> d == Refract(sqrt, unit, record.normal, ratio))
  {
    var unit := UnitVector(sqrt, ray.direction);
    var ratio := RefractionRatio(index, true);
    assert ratio <= 1.0 by {
      assert ratio * index == 1.0;
    }
    DotOfUnitsBounded(unit, record.normal);
    var cosTheta := CosTheta(unit, record.normal);
    assert -1.0 <= cosTheta <= 1.0;
    SquareAtMostOne(cosTheta);
    NoTotalInternalReflection(sqrt, ratio, cosTheta);
  }
}
