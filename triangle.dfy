/**
  * The triangle of `lib-raytracing/src/objects/triangle.rs` and its ray intersection, the
  * Möller–Trumbore algorithm: solve `origin + t*direction == a + u*(b-a) + v*(c-a)` by
  * Cramer's rule and reject the ray at the first condition that fails.
  */
module Triangles {
  import opened Wrappers
  import opened Vectors
  import opened Rays

  /** The tolerance `EPSILON` of `hit`. */
  const EPSILON: real := 0.0000001

  /** A triangle with corners `a`, `b`, `c`, as `Triangle::new` stores them. */
  datatype Triangle<M> = Triangle(a: Vec3, b: Vec3, c: Vec3, material: M)

  /** `get_surface_normal`: the cross product of the two edges leaving `a`, orthogonal to both. */
  function SurfaceNormal<M>(tri: Triangle<M>): (r: Vec3)
    ensures Dot(r, Sub(tri.b, tri.a)) == 0.0 && Dot(r, Sub(tri.c, tri.a)) == 0.0
  {
    Cross(Sub(tri.b, tri.a), Sub(tri.c, tri.a))
  }

  // The quantities `hit` computes, named after its local variables.

  function Determinant<M>(tri: Triangle<M>, ray: Ray): real
  {
    Dot(Sub(tri.b, tri.a), Cross(ray.direction, Sub(tri.c, tri.a)))
  }

  function BaryU<M>(tri: Triangle<M>, ray: Ray): real
    requires Determinant(tri, ray) != 0.0
  {
    (1.0 / Determinant(tri, ray)) * Dot(Sub(ray.origin, tri.a), Cross(ray.direction, Sub(tri.c, tri.a)))
  }

  function BaryV<M>(tri: Triangle<M>, ray: Ray): real
    requires Determinant(tri, ray) != 0.0
  {
    (1.0 / Determinant(tri, ray)) * Dot(ray.direction, Cross(Sub(ray.origin, tri.a), Sub(tri.b, tri.a)))
  }

  function Distance<M>(tri: Triangle<M>, ray: Ray): real
    requires Determinant(tri, ray) != 0.0
  {
    (1.0 / Determinant(tri, ray)) * Dot(Sub(tri.c, tri.a), Cross(Sub(ray.origin, tri.a), Sub(tri.b, tri.a)))
  }

  /**
    * `Triangle::hit`. A ray (nearly) parallel to the plane, a `u` outside
    * `[-EPSILON, 1 + EPSILON]`, a negative `v` or `u + v > 1` (without slack), or a distance
    * not strictly inside `(max(EPSILON, tMin), tMax)` give `None`; a ray passing every test
    * gives a record at that distance, with the triangle's fixed normal and `front_face` false.
    */
  function Hit<M>(tri: Triangle<M>, ray: Ray, tMin: real, tMax: real): (r: Option<HitRecord<M>>)
    ensures Abs(Determinant(tri, ray)) < EPSILON ==> r.None?
    ensures Abs(Determinant(tri, ray)) >= EPSILON ==>
              (BaryU(tri, ray) < -EPSILON || BaryU(tri, ray) > 1.0 + EPSILON ==> r.None?)
    ensures Abs(Determinant(tri, ray)) >= EPSILON ==>
              (BaryV(tri, ray) < -EPSILON || BaryU(tri, ray) + BaryV(tri, ray) > 1.0 ==> r.None?)
    ensures r.Some? ==> EPSILON < r.value.distance && tMin < r.value.distance < tMax
    ensures r.Some? ==> r.value.point == At(ray, r.value.distance)
    ensures r.Some? ==> r.value.distance == Distance(tri, ray)
    ensures r.Some? ==> r.value.normal == SurfaceNormal(tri) && !r.value.frontFace
    ensures r.Some? ==> r.value.material == tri.material
    ensures (Abs(Determinant(tri, ray)) >= EPSILON &&
             -EPSILON <= BaryU(tri, ray) <= 1.0 + EPSILON &&
             -EPSILON <= BaryV(tri, ray) && BaryU(tri, ray) + BaryV(tri, ray) <= 1.0 &&
             EPSILON < Distance(tri, ray) && tMin < Distance(tri, ray) < tMax) ==> r.Some?
  {
    var determinant := Determinant(tri, ray);
    if Abs(determinant) < EPSILON then None
    else
      var u := BaryU(tri, ray);
      if u < -EPSILON || u > 1.0 + EPSILON then None
      else
        var v := BaryV(tri, ray);
        if v < -EPSILON || u + v > 1.0 then None
        else
          var t := Distance(tri, ray);
          if t > EPSILON && t < tMax && t > tMin then
            Some(HitRecord(At(ray, t), SurfaceNormal(tri), t, false, tri.material))
          else None
  }

  /**
    * The determinant is minus the component of the direction along the surface normal, so
    * the first test rejects exactly the rays running (nearly) parallel to the triangle's plane.
    */
  lemma DeterminantIsNormalComponent<M>(tri: Triangle<M>, ray: Ray)
    ensures Determinant(tri, ray) == -Dot(ray.direction, SurfaceNormal(tri))
  {
    var ab, ac, d := Sub(tri.b, tri.a), Sub(tri.c, tri.a), ray.direction;
    TripleProductSwap(ab, d, ac);
  }

  lemma TripleProductSwap(p: Vec3, q: Vec3, s: Vec3)
    ensures Dot(p, Cross(q, s)) == -Dot(q, Cross(p, s))
  {
  }

  /**
    * A returned hit point is the point with barycentric coordinates `(u, v)` of the
    * triangle, which lie in the accepted range; in particular it lies in the triangle's plane.
    */
  lemma HitIsBarycentric<M>(tri: Triangle<M>, ray: Ray, tMin: real, tMax: real)
    requires Hit(tri, ray, tMin, tMax).Some?
    ensures Determinant(tri, ray) != 0.0
    ensures Hit(tri, ray, tMin, tMax).value.point ==
            Add(tri.a, Add(Scale(BaryU(tri, ray), Sub(tri.b, tri.a)), Scale(BaryV(tri, ray), Sub(tri.c, tri.a))))
    ensures -EPSILON <= BaryU(tri, ray) <= 1.0 + EPSILON
    ensures -EPSILON <= BaryV(tri, ray) && BaryU(tri, ray) + BaryV(tri, ray) <= 1.0
    ensures Dot(Sub(Hit(tri, ray, tMin, tMax).value.point, tri.a), SurfaceNormal(tri)) == 0.0
  {
    var ab, ac := Sub(tri.b, tri.a), Sub(tri.c, tri.a);
    var u, v := BaryU(tri, ray), BaryV(tri, ray);
    SolvesRayTriangleSystem(tri, ray);
    var p := Hit(tri, ray, tMin, tMax).value.point;
    var inPlane := Add(Scale(u, ab), Scale(v, ac));
    assert Sub(p, tri.a) == inPlane;
    var n := SurfaceNormal(tri);
    DotAddLeft(Scale(u, ab), Scale(v, ac), n);
    DotScaleLeft(u, ab, n);
    DotScaleLeft(v, ac, n);
  }

  /**
    * Whenever the determinant is non-zero, `(u, v, t)` solve the ray/plane system: the ray
    * at `t` is the point with barycentric coordinates `(u, v)`.
    */
  lemma SolvesRayTriangleSystem<M>(tri: Triangle<M>, ray: Ray)
    requires Determinant(tri, ray) != 0.0
    ensures At(ray, Distance(tri, ray)) ==
            Add(tri.a, Add(Scale(BaryU(tri, ray), Sub(tri.b, tri.a)), Scale(BaryV(tri, ray), Sub(tri.c, tri.a))))
  {
    var ab, ac, d := Sub(tri.b, tri.a), Sub(tri.c, tri.a), ray.direction;
    var u, v, t := BaryU(tri, ray), BaryV(tri, ray), Distance(tri, ray);
    CramerSolved(ab, ac, d, Sub(ray.origin, tri.a), u, v, t);
    Recombine(ray.origin, tri.a, d, ab, ac, u, v, t);
  }

  lemma Recombine(o: Vec3, a: Vec3, d: Vec3, ab: Vec3, ac: Vec3, u: real, v: real, t: real)
    requires (o.x - a.x) + d.x * t == ab.x * u + ac.x * v
    requires (o.y - a.y) + d.y * t == ab.y * u + ac.y * v
    requires (o.z - a.z) + d.z * t == ab.z * u + ac.z * v
    ensures Add(o, Scale(t, d)) == Add(a, Add(Scale(u, ab), Scale(v, ac)))
  {
    assert o.x + d.x * t == a.x + (ab.x * u + ac.x * v);
    assert o.y + d.y * t == a.y + (ab.y * u + ac.y * v);
    assert o.z + d.z * t == a.z + (ab.z * u + ac.z * v);
    assert Add(o, Scale(t, d)) == Vec3(o.x + d.x * t, o.y + d.y * t, o.z + d.z * t);
    var w := Add(Scale(u, ab), Scale(v, ac));
    assert w == Vec3(ab.x * u + ac.x * v, ab.y * u + ac.y * v, ab.z * u + ac.z * v);
    assert Add(a, w) == Vec3(a.x + w.x, a.y + w.y, a.z + w.z);
  }

  /** Cramer's rule solved for `(u, v, t)` once the determinant is non-zero. */
  lemma CramerSolved(ab: Vec3, ac: Vec3, d: Vec3, tv: Vec3, u: real, v: real, t: real)
    requires Dot(ab, Cross(d, ac)) != 0.0
    requires u == (1.0 / Dot(ab, Cross(d, ac))) * Dot(tv, Cross(d, ac))
    requires v == (1.0 / Dot(ab, Cross(d, ac))) * Dot(d, Cross(tv, ab))
    requires t == (1.0 / Dot(ab, Cross(d, ac))) * Dot(ac, Cross(tv, ab))
    ensures tv.x + d.x * t == ab.x * u + ac.x * v
    ensures tv.y + d.y * t == ab.y * u + ac.y * v
    ensures tv.z + d.z * t == ab.z * u + ac.z * v
  {
    CramerSolvedComponent(ab, ac, d, tv, u, v, t, 0);
    CramerSolvedComponent(ab, ac, d, tv, u, v, t, 1);
    CramerSolvedComponent(ab, ac, d, tv, u, v, t, 2);
  }

  /** Coordinate `k` of a vector. */
  function Coordinate(w: Vec3, k: nat): real
  {
    if k == 0 then w.x else if k == 1 then w.y else w.z
  }

  lemma CramerSolvedComponent(ab: Vec3, ac: Vec3, d: Vec3, tv: Vec3, u: real, v: real, t: real, k: nat)
    requires Dot(ab, Cross(d, ac)) != 0.0
    requires u == (1.0 / Dot(ab, Cross(d, ac))) * Dot(tv, Cross(d, ac))
    requires v == (1.0 / Dot(ab, Cross(d, ac))) * Dot(d, Cross(tv, ab))
    requires t == (1.0 / Dot(ab, Cross(d, ac))) * Dot(ac, Cross(tv, ab))
    ensures Coordinate(tv, k) + Coordinate(d, k) * t == Coordinate(ab, k) * u + Coordinate(ac, k) * v
  {
    var det := Dot(ab, Cross(d, ac));
    var bu, bv, bt := Dot(tv, Cross(d, ac)), Dot(d, Cross(tv, ab)), Dot(ac, Cross(tv, ab));
    var x, a, c, e := Coordinate(tv, k), Coordinate(ab, k), Coordinate(ac, k), Coordinate(d, k);
    assert x * det == a * bu + c * bv - e * bt by {
      Cramer(ab, ac, d, tv);
    }
    SolveComponent(det, bu, bv, bt, u, v, t, x, a, c, e);
  }

  lemma SolveComponent(det: real, bu: real, bv: real, bt: real, u: real, v: real, t: real,
                       x: real, a: real, c: real, e: real)
    requires det != 0.0
    requires u == (1.0 / det) * bu && v == (1.0 / det) * bv && t == (1.0 / det) * bt
    requires x * det == a * bu + c * bv - e * bt
    ensures x + e * t == a * u + c * v
  {
    assert x == (x * det) * (1.0 / det);
  }

  /**
    * Cramer's rule for the system `u*ab + v*ac - t*d == tv`, with every quotient multiplied
    * out by the determinant `ab . (d x ac)`.
    */
  lemma Cramer(ab: Vec3, ac: Vec3, d: Vec3, tv: Vec3)
    ensures tv.x * Dot(ab, Cross(d, ac))
         == ab.x * Dot(tv, Cross(d, ac)) + ac.x * Dot(d, Cross(tv, ab)) - d.x * Dot(ac, Cross(tv, ab))
    ensures tv.y * Dot(ab, Cross(d, ac))
         == ab.y * Dot(tv, Cross(d, ac)) + ac.y * Dot(d, Cross(tv, ab)) - d.y * Dot(ac, Cross(tv, ab))
    ensures tv.z * Dot(ab, Cross(d, ac))
         == ab.z * Dot(tv, Cross(d, ac)) + ac.z * Dot(d, Cross(tv, ab)) - d.z * Dot(ac, Cross(tv, ab))
  {
    CramerX(ab, ac, d, tv);
    var ab1, ac1, d1, tv1 := Rotate(ab), Rotate(ac), Rotate(d), Rotate(tv);
    CramerX(ab1, ac1, d1, tv1);
    TripleRotate(ab, d, ac);
    TripleRotate(tv, d, ac);
    TripleRotate(d, tv, ab);
    TripleRotate(ac, tv, ab);
    CramerX(Rotate(ab1), Rotate(ac1), Rotate(d1), Rotate(tv1));
    TripleRotate(ab1, d1, ac1);
    TripleRotate(tv1, d1, ac1);
    TripleRotate(d1, tv1, ab1);
    TripleRotate(ac1, tv1, ab1);
  }

  /** The coordinates shifted cyclically, x <- y <- z <- x. */
  function Rotate(v: Vec3): Vec3
  {
    Vec3(v.y, v.z, v.x)
  }

  /** The triple product does not change when all three coordinates are shifted alike. */
  lemma TripleRotate(p: Vec3, q: Vec3, s: Vec3)
    ensures Dot(Rotate(p), Cross(Rotate(q), Rotate(s))) == Dot(p, Cross(q, s))
  {
  }

  lemma CramerX(ab: Vec3, ac: Vec3, d: Vec3, tv: Vec3)
    ensures tv.x * Dot(ab, Cross(d, ac))
         == ab.x * Dot(tv, Cross(d, ac)) + ac.x * Dot(d, Cross(tv, ab)) - d.x * Dot(ac, Cross(tv, ab))
  {
    CramerComponent(Dot(ab, Cross(d, ac)), Dot(tv, Cross(d, ac)), Dot(d, Cross(tv, ab)), Dot(ac, Cross(tv, ab)),
      ab.x, ab.y, ab.z, ac.x, ac.y, ac.z, d.x, d.y, d.z, tv.x, tv.y, tv.z);
  }

  /** The first coordinate of Cramer's rule, as a polynomial identity. */
  lemma CramerComponent(det: real, bu: real, bv: real, bt: real,
                        ax: real, ay: real, az: real, cx: real, cy: real, cz: real,
                        dx: real, dy: real, dz: real, tx: real, ty: real, tz: real)
    requires det == ax * (dy * cz - dz * cy) + ay * (dz * cx - dx * cz) + az * (dx * cy - dy * cx)
    requires bu == tx * (dy * cz - dz * cy) + ty * (dz * cx - dx * cz) + tz * (dx * cy - dy * cx)
    requires bv == dx * (ty * az - tz * ay) + dy * (tz * ax - tx * az) + dz * (tx * ay - ty * ax)
    requires bt == cx * (ty * az - tz * ay) + cy * (tz * ax - tx * az) + cz * (tx * ay - ty * ax)
    ensures tx * det == ax * bu + cx * bv - dx * bt
  {
  }
}
