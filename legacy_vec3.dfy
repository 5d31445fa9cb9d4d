/**
  * The older vector type of `src/vec3.rs`. It has the same three `f64` components as the
  * newer one, so it shares the `Vectors.Vec3` value (and `new` is its constructor); its own
  * operations are written out here as that file computes them and related to the newer ones.
  */
module LegacyVectors {
  import opened RealArith
  import opened Transcendentals
  import Vectors

  type Vec3 = Vectors.Vec3

  /** `negate`: every component multiplied by -1; the same as the newer `negate`. */
  function Negate(v: Vec3): (r: Vec3)
    ensures r.x == -v.x && r.y == -v.y && r.z == -v.z
    ensures r == Vectors.Negate(v)
  {
    Vectors.Vec3(v.x * -1.0, v.y * -1.0, v.z * -1.0)
  }

  /** `length_squared`: the sum of the squared components, never negative. */
  function LengthSquared(v: Vec3): (r: real)
    ensures r == Vectors.LengthSquared(v)
    ensures 0.0 <= r
    ensures r == 0.0 <==> v == Vectors.Default()
  {
    Vectors.LengthSquaredZero(v);
    v.x * v.x + v.y * v.y + v.z * v.z
  }

  /** `length`: a non-negative number whose square is `length_squared`. */
  function Length(sqrt: real -> real, v: Vec3): (r: real)
    requires IsSqrt(sqrt)
    ensures 0.0 <= r && r * r == LengthSquared(v)
    ensures r == Vectors.Length(sqrt, v)
  {
    var squared := LengthSquared(v);
    assert 0.0 <= sqrt(squared) && sqrt(squared) * sqrt(squared) == squared;
    sqrt(squared)
  }

  /** `Default`: the zero vector, of length zero. */
  function Default(): (r: Vec3)
    ensures r == Vectors.Default()
    ensures LengthSquared(r) == 0.0
  {
    Vectors.Vec3(0.0, 0.0, 0.0)
  }

  /** The older type's value updated in place by its compound-assignment operators. */
  class Vec3Cell {
    var x: real
    var y: real
    var z: real

    function Value(): Vec3
      reads this
    {
      Vectors.Vec3(x, y, z)
    }

    constructor (v: Vec3)
      ensures Value() == v
    {
      x, y, z := v.x, v.y, v.z;
    }

    /** `add_assign`: the componentwise sum; the argument is consumed unchanged. */
    method AddAssign(other: Vec3)
      modifies this
      ensures Value() == Vectors.Add(old(Value()), other)
    {
      x := x + other.x;
      y := y + other.y;
      z := z + other.z;
    }

    /** `mul_assign`: every component scaled by `fact`. */
    method MulAssign(fact: real)
      modifies this
      ensures Value() == Vectors.Scale(fact, old(Value()))
    {
      x := x * fact;
      y := y * fact;
      z := z * fact;
    }

    /** `div_assign`: delegates to `mul_assign` with the reciprocal. */
    method DivAssign(rhs: real)
      requires rhs != 0.0
      modifies this
      ensures Value() == Vectors.Scale(1.0 / rhs, old(Value()))
    {
      MulAssign(1.0 / rhs);
    }
  }
}
