/**
  * The sphere of `src/objects/sphere.rs` and its ray intersection. With `oc = origin - center`,
  * the ray meets the sphere where `a*t^2 + 2*b*t + c == 0` for `a = d.d`, the half coefficient
  * `b = d.oc` and `c = oc.oc - radius^2`; the nearer root in `[tMin, tMax]` is taken.
  */
module Spheres {
  import opened Wrappers
  import opened RealArith
  import opened Transcendentals
  import opened Vectors
  import opened Rays

  datatype Sphere<M> = Sphere(center: Vec3, radius: real, material: M)

  // The coefficients `hit` computes, named after its local variables.

  function HalfB<M>(sphere: Sphere<M>, ray: Ray): real
  {
    Dot(ray.direction, Sub(ray.origin, sphere.center))
  }

  function QuadA(ray: Ray): real
  {
    Dot(ray.direction, ray.direction)
  }

  function QuadC<M>(sphere: Sphere<M>, ray: Ray): real
  {
    Dot(Sub(ray.origin, sphere.center), Sub(ray.origin, sphere.center)) - sphere.radius * sphere.radius
  }

  function Discriminant<M>(sphere: Sphere<M>, ray: Ray): real
  {
    HalfB(sphere, ray) * HalfB(sphere, ray) - QuadA(ray) * QuadC(sphere, ray)
  }

  /**
    * A positive discriminant needs a non-zero direction and a non-zero radius: a zero
    * direction makes `a` and `b` zero, and a zero radius makes the discriminant
    * `-|d x oc|^2` (Lagrange's identity). So neither division in `hit` can be by zero.
    */
  lemma PositiveDiscriminant<M>(sphere: Sphere<M>, ray: Ray)
    requires Discriminant(sphere, ray) > 0.0
    ensures QuadA(ray) > 0.0 && sphere.radius != 0.0
  {
    QuadAIsLengthSquared(ray);
    if QuadA(ray) == 0.0 {
      ZeroDirectionDiscriminant(sphere, ray);
    }
    if sphere.radius == 0.0 {
      PointSphereDiscriminant(sphere, ray);
    }
  }

  /** `a` is the squared length of the direction: never negative, and zero only for a zero direction. */
  lemma QuadAIsLengthSquared(ray: Ray)
    ensures QuadA(ray) == LengthSquared(ray.direction)
    ensures QuadA(ray) == 0.0 <==> ray.direction == Default()
  {
    LengthSquaredIsDot(ray.direction);
    LengthSquaredZero(ray.direction);
  }

  /** A zero direction makes `a` and `b`, and so the discriminant, zero. */
  lemma ZeroDirectionDiscriminant<M>(sphere: Sphere<M>, ray: Ray)
    requires ray.direction == Default()
    ensures Discriminant(sphere, ray) == 0.0
  {
    DotZeroLeft(Sub(ray.origin, sphere.center));
    DotZeroLeft(ray.direction);
    ZeroCoefficients(HalfB(sphere, ray), QuadA(ray), QuadC(sphere, ray));
  }

  lemma ZeroCoefficients(b: real, a: real, c: real)
    requires a == 0.0 && b == 0.0
    ensures b * b - a * c == 0.0
  {
  }

  /** For a sphere of radius zero the discriminant is `-|d x oc|^2`, never positive. */
  lemma PointSphereDiscriminant<M>(sphere: Sphere<M>, ray: Ray)
    requires sphere.radius == 0.0
    ensures Discriminant(sphere, ray) <= 0.0
  {
    var d, oc := ray.direction, Sub(ray.origin, sphere.center);
    Lagrange(d, oc);
    LengthSquaredIsDot(d);
    LengthSquaredIsDot(oc);
    assert QuadC(sphere, ray) == LengthSquared(oc);
    ProductOfEquals(QuadA(ray), QuadC(sphere, ray), LengthSquared(d), LengthSquared(oc));
    NonPositiveDifference(HalfB(sphere, ray), QuadA(ray) * QuadC(sphere, ray), LengthSquared(Cross(d, oc)));
  }

  lemma NonPositiveDifference(b: real, ac: real, rest: real)
    requires ac == Square(b) + rest && 0.0 <= rest
    ensures b * b - ac <= 0.0
  {
  }

  /** The nearer solution `t_minus` and the farther one `t_plus`. */
  function TMinus<M>(sqrt: real -> real, sphere: Sphere<M>, ray: Ray): real
    requires Discriminant(sphere, ray) > 0.0
  {
    PositiveDiscriminant(sphere, ray);
    (-HalfB(sphere, ray) - sqrt(Discriminant(sphere, ray))) / QuadA(ray)
  }

  function TPlus<M>(sqrt: real -> real, sphere: Sphere<M>, ray: Ray): real
    requires Discriminant(sphere, ray) > 0.0
  {
    PositiveDiscriminant(sphere, ray);
    (-HalfB(sphere, ray) + sqrt(Discriminant(sphere, ray))) / QuadA(ray)
  }

  /** The outward normal at the point of the ray at `t`: the radius direction divided by the radius. */
  function OutwardNormal<M>(sphere: Sphere<M>, ray: Ray, t: real): Vec3
    requires sphere.radius != 0.0
  {
    Div(Sub(At(ray, t), sphere.center), sphere.radius)
  }

  /**
    * `Sphere::hit`. `setFaceNormal` stands for `HitRecord::set_face_normal`, which is not part
    * of this model: given the ray and the outward normal it yields the record's `front_face`
    * and `normal`. A non-positive discriminant (a miss, or a tangent ray) gives `None`;
    * otherwise `t_minus` is taken when it lies in `[tMin, tMax]`, else `t_plus` when it does,
    * else `None`.
    */
  function Hit<M>(sqrt: real -> real, setFaceNormal: (Ray, Vec3) -> (bool, Vec3),
                  sphere: Sphere<M>, ray: Ray, tMin: real, tMax: real): (r: Option<HitRecord<M>>)
    ensures Discriminant(sphere, ray) <= 0.0 ==> r.None?
    ensures r.Some? ==> tMin <= r.value.distance <= tMax
    ensures r.Some? ==> r.value.point == At(ray, r.value.distance)
    ensures r.Some? ==> r.value.material == sphere.material
    ensures r.Some? ==>
              Discriminant(sphere, ray) > 0.0 && sphere.radius != 0.0 &&
              (r.value.frontFace, r.value.normal) == setFaceNormal(ray, OutwardNormal(sphere, ray, r.value.distance))
    ensures Discriminant(sphere, ray) > 0.0 ==>
              var tMinus, tPlus := TMinus(sqrt, sphere, ray), TPlus(sqrt, sphere, ray);
              (tMin <= tMinus <= tMax ==> r.Some? && r.value.distance == tMinus) &&
              (!(tMin <= tMinus <= tMax) && tMin <= tPlus <= tMax ==> r.Some? && r.value.distance == tPlus) &&
              (!(tMin <= tMinus <= tMax) && !(tMin <= tPlus <= tMax) ==> r.None?)
  {
    var b := HalfB(sphere, ray);
    var a := QuadA(ray);
    var c := QuadC(sphere, ray);
    var discriminant := b * b - a * c;
    if discriminant <= 0.0 then None
    else
      PositiveDiscriminant(sphere, ray);
      var tMinus := TMinus(sqrt, sphere, ray);
      var tPlus := TPlus(sqrt, sphere, ray);
      if tMinus >= tMin && tMinus <= tMax then Some(Record(setFaceNormal, sphere, ray, tMinus))
      else if tPlus >= tMin && tPlus <= tMax then Some(Record(setFaceNormal, sphere, ray, tPlus))
      else None
  }

  /** The record `hit` builds at `t` and then updates with `set_face_normal`. */
  function Record<M>(setFaceNormal: (Ray, Vec3) -> (bool, Vec3), sphere: Sphere<M>, ray: Ray, t: real): HitRecord<M>
    requires sphere.radius != 0.0
  {
    var outwardNormal := OutwardNormal(sphere, ray, t);
    var record := HitRecord(At(ray, t), Div(Sub(At(ray, t), sphere.center), sphere.radius), t, false, sphere.material);
    var (frontFace, normal) := setFaceNormal(ray, outwardNormal);
    record.(frontFace := frontFace, normal := normal)
  }

  /** A ray with zero direction never hits: its discriminant is zero. */
  lemma ZeroDirectionMisses<M>(sqrt: real -> real, setFaceNormal: (Ray, Vec3) -> (bool, Vec3),
                               sphere: Sphere<M>, ray: Ray, tMin: real, tMax: real)
    requires ray.direction == Default()
    ensures Discriminant(sphere, ray) == 0.0
    ensures Hit(sqrt, setFaceNormal, sphere, ray, tMin, tMax).None?
  {
    ZeroDirectionDiscriminant(sphere, ray);
  }

  /** A sphere of radius zero is never hit. */
  lemma ZeroRadiusMisses<M>(sqrt: real -> real, setFaceNormal: (Ray, Vec3) -> (bool, Vec3),
                            sphere: Sphere<M>, ray: Ray, tMin: real, tMax: real)
    requires sphere.radius == 0.0
    ensures Hit(sqrt, setFaceNormal, sphere, ray, tMin, tMax).None?
  {
    if Discriminant(sphere, ray) > 0.0 {
      PositiveDiscriminant(sphere, ray);
    }
  }

  /** `t_minus` is the nearer of the two solutions. */
  lemma RootsOrdered<M>(sqrt: real -> real, sphere: Sphere<M>, ray: Ray)
    requires IsSqrt(sqrt) && Discriminant(sphere, ray) > 0.0
    ensures TMinus(sqrt, sphere, ray) < TPlus(sqrt, sphere, ray)
  {
    PositiveDiscriminant(sphere, ray);
    var a, b, root := QuadA(ray), HalfB(sphere, ray), sqrt(Discriminant(sphere, ray));
    SqrtPositive(sqrt, Discriminant(sphere, ray));
    assert TPlus(sqrt, sphere, ray) - TMinus(sqrt, sphere, ray) == (2.0 * root) / a;
  }

  /**
    * The returned point lies on the sphere: its distance to the centre is the radius, and the
    * outward normal passed to `set_face_normal` has length one.
    */
  lemma HitIsOnSurface<M>(sqrt: real -> real, setFaceNormal: (Ray, Vec3) -> (bool, Vec3),
                          sphere: Sphere<M>, ray: Ray, tMin: real, tMax: real)
    requires IsSqrt(sqrt)
    requires Hit(sqrt, setFaceNormal, sphere, ray, tMin, tMax).Some?
    ensures var p := Hit(sqrt, setFaceNormal, sphere, ray, tMin, tMax).value.point;
            LengthSquared(Sub(p, sphere.center)) == Square(sphere.radius)
    ensures sphere.radius != 0.0 &&
            LengthSquared(OutwardNormal(sphere, ray, Hit(sqrt, setFaceNormal, sphere, ray, tMin, tMax).value.distance)) == 1.0
  {
    var t := Hit(sqrt, setFaceNormal, sphere, ray, tMin, tMax).value.distance;
    PositiveDiscriminant(sphere, ray);
    RootSolvesQuadratic(sqrt, sphere, ray, t);
    var w := Sub(At(ray, t), sphere.center);
    UnitOutwardNormal(w, sphere.radius);
  }

  /** Both roots solve `a*t^2 + 2*b*t + c == 0`, so the ray at either is on the sphere. */
  lemma RootSolvesQuadratic<M>(sqrt: real -> real, sphere: Sphere<M>, ray: Ray, t: real)
    requires IsSqrt(sqrt) && Discriminant(sphere, ray) > 0.0
    requires t == TMinus(sqrt, sphere, ray) || t == TPlus(sqrt, sphere, ray)
    ensures QuadA(ray) * (t * t) + 2.0 * HalfB(sphere, ray) * t + QuadC(sphere, ray) == 0.0
    ensures LengthSquared(Sub(At(ray, t), sphere.center)) == Square(sphere.radius)
  {
    PositiveDiscriminant(sphere, ray);
    var a, b, c := QuadA(ray), HalfB(sphere, ray), QuadC(sphere, ray);
    var disc := Discriminant(sphere, ray);
    var root := sqrt(disc);
    assert root * root == b * b - a * c;
    if t == TMinus(sqrt, sphere, ray) {
      QuadraticRoot(a, b, c, -root, t);
    } else {
      QuadraticRoot(a, b, c, root, t);
    }
    var d, oc := ray.direction, Sub(ray.origin, sphere.center);
    assert Sub(At(ray, t), sphere.center) == Add(oc, Scale(t, d));
    LengthSquaredAlongRay(oc, d, t);
    LengthSquaredIsDot(oc);
    LengthSquaredIsDot(d);
  }

  /** `(-b + root) / a` solves `a*t^2 + 2*b*t + c == 0` when `root^2 == b^2 - a*c`. */
  lemma QuadraticRoot(a: real, b: real, c: real, root: real, t: real)
    requires a != 0.0 && root * root == b * b - a * c && t == (-b + root) / a
    ensures a * (t * t) + 2.0 * b * t + c == 0.0
  {
    assert a * t == -b + root;
    assert (a * t + b) * (a * t + b) == b * b - a * c;
    assert a * (a * (t * t) + 2.0 * b * t + c) == 0.0;
    ProductZero(a * (t * t) + 2.0 * b * t + c, a);
  }

  /** The squared length of `p + t*q`, expanded. */
  lemma LengthSquaredAlongRay(p: Vec3, q: Vec3, t: real)
    ensures LengthSquared(Add(p, Scale(t, q))) == LengthSquared(p) + 2.0 * t * Dot(q, p) + t * t * LengthSquared(q)
  {
    ExpandSquare(p.x, q.x, t);
    ExpandSquare(p.y, q.y, t);
    ExpandSquare(p.z, q.z, t);
  }

  lemma ExpandSquare(p: real, q: real, t: real)
    ensures Square(p + q * t) == Square(p) + 2.0 * t * (q * p) + t * t * Square(q)
  {
  }

  /** A vector of squared length `radius^2`, divided by the radius, has length one. */
  lemma UnitOutwardNormal(w: Vec3, radius: real)
    requires radius != 0.0 && LengthSquared(w) == Square(radius)
    ensures LengthSquared(Div(w, radius)) == 1.0
  {
    LengthSquaredScale(1.0 / radius, w);
    SquareOfProduct(1.0 / radius, radius);
    InverseProduct(radius);
    assert (1.0 / radius) * radius == 1.0;
  }
}
