/**
  * The 3-component vector of `lib-raytracing/src/vec3.rs`: colours, points and directions.
  * `f64` components are modelled as `real`, so every identity below is exact.
  */
module Vectors {
  import opened RealArith
  import opened Transcendentals

  datatype Vec3 = Vec3(x: real, y: real, z: real)

  /** `Default`: the zero vector. */
  function Default(): (r: Vec3)
    ensures NearZero(r)
  {
    Vec3(0.0, 0.0, 0.0)
  }

  /** The default vector is neutral for `+` and absorbing for scaling and the colour product. */
  lemma DefaultIsIdentity(v: Vec3, k: real)
    ensures Add(v, Default()) == v && Add(Default(), v) == v
    ensures Scale(k, Default()) == Default() && Mul(v, Default()) == Default()
  {
  }

  /** `Add<Vec3>`. */
  function Add(u: Vec3, v: Vec3): Vec3
  {
    Vec3(u.x + v.x, u.y + v.y, u.z + v.z)
  }

  /** `Sub<Vec3>`. */
  function Sub(u: Vec3, v: Vec3): Vec3
  {
    Vec3(u.x - v.x, u.y - v.y, u.z - v.z)
  }

  /** `Mul<Vec3>`: the componentwise (Hadamard) product used for colours. */
  function Mul(u: Vec3, v: Vec3): Vec3
  {
    Vec3(u.x * v.x, u.y * v.y, u.z * v.z)
  }

  /** `Mul<f64> for Vec3` and `Mul<Vec3> for f64`: scaling by a scalar. */
  function Scale(k: real, v: Vec3): Vec3
  {
    Vec3(v.x * k, v.y * k, v.z * k)
  }

  /** `Div<f64>`: multiplication by the reciprocal, as the Rust code computes it. */
  function Div(v: Vec3, k: real): Vec3
    requires k != 0.0
  {
    Scale(1.0 / k, v)
  }

  /** `negate`: the additive inverse. */
  function Negate(v: Vec3): (r: Vec3)
    ensures Add(v, r) == Default()
  {
    Scale(-1.0, v)
  }

  /** `length_squared`: never negative. */
  function LengthSquared(v: Vec3): (r: real)
    ensures 0.0 <= r
  {
    Square(v.x) + Square(v.y) + Square(v.z)
  }

  /** `length`: the square root of `length_squared`. */
  function Length(sqrt: real -> real, v: Vec3): real
  {
    sqrt(LengthSquared(v))
  }

  /** `dot`. */
  function Dot(u: Vec3, v: Vec3): real
  {
    u.x * v.x + u.y * v.y + u.z * v.z
  }

  /** `cross`: orthogonal to both of its arguments. */
  function Cross(u: Vec3, v: Vec3): (r: Vec3)
    ensures Dot(r, u) == 0.0 && Dot(r, v) == 0.0
  {
    Vec3(u.y * v.z - u.z * v.y,
         u.z * v.x - u.x * v.z,
         u.x * v.y - u.y * v.x)
  }

  /**
    * `unit_vector`: the vector divided by its length, a vector of length one pointing the
    * same way. The zero vector, whose length is zero, is excluded.
    */
  function UnitVector(sqrt: real -> real, v: Vec3): (r: Vec3)
    requires IsSqrt(sqrt) && v != Default()
    ensures LengthSquared(r) == 1.0
    ensures 0.0 < Length(sqrt, v) && v == Scale(Length(sqrt, v), r)
  {
    var len := Length(sqrt, v);
    LengthSquaredZero(v);
    SqrtPositive(sqrt, LengthSquared(v));
    InverseProduct(len);
    ScaleInverse(len, v);
    LengthSquaredScale(1.0 / len, v);
    assert LengthSquared(v) == Square(len);
    SquareOfProduct(1.0 / len, len);
    assert (1.0 / len) * len == 1.0;
    Div(v, len)
  }

  const NEAR_ZERO_APPROX: real := 0.00000001

  function Abs(a: real): real
  {
    if a < 0.0 then -a else a
  }

  function Min(a: real, b: real): real
  {
    if a < b then a else b
  }

  /** `near_zero`: every component is smaller than 1e-8 in magnitude. */
  predicate NearZero(v: Vec3)
  {
    Abs(v.x) < NEAR_ZERO_APPROX && Abs(v.y) < NEAR_ZERO_APPROX && Abs(v.z) < NEAR_ZERO_APPROX
  }

  /** `reflect`: mirror `v` at the plane whose normal is `n`. */
  function Reflect(v: Vec3, n: Vec3): Vec3
  {
    Sub(v, Scale(2.0 * Dot(v, n), n))
  }

  /** The perpendicular part `r_out_perp` computed by `refract`. */
  function RefractPerp(sqrt: real -> real, v: Vec3, n: Vec3, ratio: real): Vec3
    requires IsSqrt(sqrt) && v != Default() && n != Default()
  {
    var uv := UnitVector(sqrt, v);
    var nuv := UnitVector(sqrt, n);
    var cosTheta := Min(Dot(Scale(-1.0, uv), nuv), 1.0);
    Scale(ratio, Add(uv, Scale(cosTheta, nuv)))
  }

  /**
    * `refract`, as written: the parallel part is the unit normal scaled by
    * `-|1 - |r_out_perp|^2|`, without a square root.
    */
  function Refract(sqrt: real -> real, v: Vec3, n: Vec3, ratio: real): Vec3
    requires IsSqrt(sqrt) && v != Default() && n != Default()
  {
    var nuv := UnitVector(sqrt, n);
    var perp := RefractPerp(sqrt, v, n, ratio);
    var parallel := Scale(Abs(1.0 - LengthSquared(perp)), Scale(-1.0, nuv));
    Add(parallel, perp)
  }

  /** `pow`: each component raised to `exponent` by the library's `powf`. */
  function Pow(powf: (real, real) -> real, v: Vec3, exponent: real): Vec3
  {
    Vec3(powf(v.x, exponent), powf(v.y, exponent), powf(v.z, exponent))
  }

  /**
    * A `Vec3` place updated by the compound-assignment operators, which change the
    * components of `self` in place.
    */
  class Vec3Cell {
    var x: real
    var y: real
    var z: real

    function Value(): Vec3
      reads this
    {
      Vec3(x, y, z)
    }

    constructor (v: Vec3)
      ensures Value() == v
    {
      x, y, z := v.x, v.y, v.z;
    }

    /** `add_assign`: the place now holds the componentwise sum. */
    method AddAssign(other: Vec3)
      modifies this
      ensures Value() == Add(old(Value()), other)
    {
      x := x + other.x;
      y := y + other.y;
      z := z + other.z;
    }

    /** `mul_assign`: every component is scaled by `fact`. */
    method MulAssign(fact: real)
      modifies this
      ensures Value() == Scale(fact, old(Value()))
    {
      x := x * fact;
      y := y * fact;
      z := z * fact;
    }

    /** `div_assign`: exactly `mul_assign(1.0 / rhs)`. */
    method DivAssign(rhs: real)
      requires rhs != 0.0
      modifies this
      ensures Value() == Scale(1.0 / rhs, old(Value()))
      ensures Value() == Div(old(Value()), rhs)
    {
      MulAssign(1.0 / rhs);
    }
  }

  // ---------------------------------------------------------------------------------------
  // Algebra

  /** `dot(a, a)` is `length_squared(a)`. */
  lemma LengthSquaredIsDot(v: Vec3)
    ensures LengthSquared(v) == Dot(v, v)
  {
  }

  /** Negation keeps the length and changes every non-zero vector. */
  lemma NegateFlips(v: Vec3)
    ensures LengthSquared(Negate(v)) == LengthSquared(v)
    ensures v != Default() ==> Negate(v) != v
  {
    LengthSquaredScale(-1.0, v);
    assert Square(-1.0) == 1.0;
  }

  /** Only the zero vector has length zero. */
  lemma LengthSquaredZero(v: Vec3)
    ensures LengthSquared(v) == 0.0 <==> v == Default()
  {
    if v.x != 0.0 {
      SquarePositive(v.x);
    } else if v.y != 0.0 {
      SquarePositive(v.y);
    } else if v.z != 0.0 {
      SquarePositive(v.z);
    }
  }

  /** Scaling by `k` and then by its reciprocal gives the vector back. */
  lemma ScaleInverse(k: real, v: Vec3)
    requires k != 0.0
    ensures Scale(k, Scale(1.0 / k, v)) == v
  {
    InverseProduct(k);
  }

  lemma LengthSquaredScale(k: real, v: Vec3)
    ensures LengthSquared(Scale(k, v)) == Square(k) * LengthSquared(v)
  {
  }

  lemma DotScaleLeft(k: real, u: Vec3, v: Vec3)
    ensures Dot(Scale(k, u), v) == k * Dot(u, v)
  {
  }

  lemma DotScaleRight(k: real, u: Vec3, v: Vec3)
    ensures Dot(u, Scale(k, v)) == k * Dot(u, v)
  {
  }

  lemma DotZeroLeft(v: Vec3)
    ensures Dot(Default(), v) == 0.0
  {
  }

  lemma DotSub(u: Vec3, w: Vec3, v: Vec3)
    ensures Dot(Sub(u, w), v) == Dot(u, v) - Dot(w, v)
  {
  }

  /** Lagrange's identity, from which the Cauchy-Schwarz inequality follows. */
  lemma Lagrange(u: Vec3, v: Vec3)
    ensures LengthSquared(u) * LengthSquared(v) == Square(Dot(u, v)) + LengthSquared(Cross(u, v))
  {
    LagrangeCoordinates(u.x, u.y, u.z, v.x, v.y, v.z);
    ProductOfEquals(LengthSquared(u), LengthSquared(v),
                    Square(u.x) + Square(u.y) + Square(u.z), Square(v.x) + Square(v.y) + Square(v.z));
    assert Dot(u, v) == u.x * v.x + u.y * v.y + u.z * v.z;
    assert Square(Dot(u, v)) == Square(u.x * v.x + u.y * v.y + u.z * v.z);
    var c := Cross(u, v);
    assert c.x == u.y * v.z - u.z * v.y;
    assert c.y == u.z * v.x - u.x * v.z;
    assert c.z == u.x * v.y - u.y * v.x;
    assert LengthSquared(c) == Square(u.y * v.z - u.z * v.y) + Square(u.z * v.x - u.x * v.z) + Square(u.x * v.y - u.y * v.x);
  }

  lemma LagrangeCoordinates(a: real, b: real, c: real, d: real, e: real, f: real)
    ensures (Square(a) + Square(b) + Square(c)) * (Square(d) + Square(e) + Square(f))
         == Square(a * d + b * e + c * f)
          + (Square(b * f - c * e) + Square(c * d - a * f) + Square(a * e - b * d))
  {
  }

  lemma ProductOfEquals(a: real, b: real, c: real, d: real)
    requires a == c && b == d
    ensures a * b == c * d
  {
  }

  lemma DotAddLeft(u: Vec3, w: Vec3, v: Vec3)
    ensures Dot(Add(u, w), v) == Dot(u, v) + Dot(w, v)
  {
  }

  /** For unit vectors the dot product lies in [-1, 1]. */
  lemma DotOfUnitsBounded(u: Vec3, v: Vec3)
    requires LengthSquared(u) == 1.0 && LengthSquared(v) == 1.0
    ensures -1.0 <= Dot(u, v) <= 1.0
  {
    Lagrange(u, v);
    var d := Dot(u, v);
    assert d * d <= 1.0;
    assert (d - 1.0) * (d + 1.0) <= 0.0;
  }

  /** For a unit normal, reflection flips the normal component. */
  lemma ReflectAgainstNormal(v: Vec3, n: Vec3)
    requires Dot(n, n) == 1.0
    ensures Dot(Reflect(v, n), n) == -Dot(v, n)
  {
    var d := Dot(v, n);
    DotSub(v, Scale(2.0 * d, n), n);
    DotScaleLeft(2.0 * d, n, n);
  }

  /** For a unit normal, reflecting twice gives back the original vector. */
  lemma ReflectInvolution(v: Vec3, n: Vec3)
    requires Dot(n, n) == 1.0
    ensures Reflect(Reflect(v, n), n) == v
  {
    ReflectAgainstNormal(v, n);
    var d := Dot(v, n);
    var r := Reflect(v, n);
    assert Dot(r, n) == -d;
    assert Reflect(r, n) == Sub(r, Scale(-2.0 * d, n));
  }

  /** For a unit normal, reflection keeps the length of the vector. */
  lemma ReflectPreservesLength(v: Vec3, n: Vec3)
    requires Dot(n, n) == 1.0
    ensures LengthSquared(Reflect(v, n)) == LengthSquared(v)
  {
    var d := Dot(v, n);
    var r := Reflect(v, n);
    assert r == Sub(v, Scale(2.0 * d, n));
    calc {
      LengthSquared(r);
      Dot(Sub(v, Scale(2.0 * d, n)), Sub(v, Scale(2.0 * d, n)));
      Dot(v, v) - 4.0 * d * Dot(v, n) + 4.0 * d * d * Dot(n, n);
      Dot(v, v);
    }
  }

  /**
    * `refract` never points to the normal's side: the perpendicular part is orthogonal to
    * the unit normal, so only the parallel part, a non-positive multiple of it, remains.
    */
  lemma RefractOpposesNormal(sqrt: real -> real, v: Vec3, n: Vec3, ratio: real)
    requires IsSqrt(sqrt) && v != Default() && n != Default()
    ensures Dot(RefractPerp(sqrt, v, n, ratio), UnitVector(sqrt, n)) == 0.0
    ensures Dot(Refract(sqrt, v, n, ratio), UnitVector(sqrt, n)) <= 0.0
  {
    var uv := UnitVector(sqrt, v);
    var nuv := UnitVector(sqrt, n);
    var d := Dot(Scale(-1.0, uv), nuv);
    DotOfUnitsBounded(Scale(-1.0, uv), nuv);
    DotScaleLeft(-1.0, uv, nuv);
    assert Min(d, 1.0) == d;
    var perp := RefractPerp(sqrt, v, n, ratio);
    assert perp == Scale(ratio, Add(uv, Scale(d, nuv)));
    DotAddLeft(uv, Scale(d, nuv), nuv);
    DotScaleLeft(d, nuv, nuv);
    LengthSquaredIsDot(nuv);
    assert Dot(Add(uv, Scale(d, nuv)), nuv) == 0.0;
    DotScaleLeft(ratio, Add(uv, Scale(d, nuv)), nuv);
    var a := Abs(1.0 - LengthSquared(perp));
    DotScaleLeft(a, Scale(-1.0, nuv), nuv);
    DotScaleLeft(-1.0, nuv, nuv);
    assert Dot(Scale(a, Scale(-1.0, nuv)), nuv) == -a;
    DotAddLeft(Scale(a, Scale(-1.0, nuv)), perp, nuv);
  }
}
