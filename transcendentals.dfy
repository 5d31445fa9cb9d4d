/**
  * The floating-point library functions the renderer calls (`sqrt`, `tan`, `powf`, the
  * constant `PI`) are not modelled by value. Members that need them take them as parameters;
  * the only property ever assumed is the one for square roots stated here.
  */
module Transcendentals {

  /** `sqrt` behaves as the non-negative square root on non-negative arguments. */
  ghost predicate IsSqrt(sqrt: real -> real)
  {
    forall x: real :: 0.0 <= x ==> 0.0 <= sqrt(x) && sqrt(x) * sqrt(x) == x
  }

  lemma SqrtPositive(sqrt: real -> real, x: real)
    requires IsSqrt(sqrt) && 0.0 < x
    ensures 0.0 < sqrt(x)
  {
    assert sqrt(x) * sqrt(x) == x;
  }

  /** The square root of one is one. */
  lemma SqrtOne(sqrt: real -> real)
    requires IsSqrt(sqrt)
    ensures sqrt(1.0) == 1.0
  {
    var s := sqrt(1.0);
    assert 0.0 <= s && s * s == 1.0;
    assert (s - 1.0) * (s + 1.0) == 0.0;
    ProductZero(s - 1.0, s + 1.0);
  }

  /** Square roots of arguments in [0, 1] lie in [0, 1]. */
  lemma SqrtAtMostOne(sqrt: real -> real, x: real)
    requires IsSqrt(sqrt) && 0.0 <= x <= 1.0
    ensures 0.0 <= sqrt(x) <= 1.0
  {
    var s := sqrt(x);
    assert 0.0 <= s && s * s == x;
    assert (s - 1.0) * (s + 1.0) <= 0.0;
  }

  /** Comparing a square root with a non-negative bound is comparing squares. */
  lemma SqrtGreaterIff(sqrt: real -> real, x: real, bound: real)
    requires IsSqrt(sqrt) && 0.0 <= x && 0.0 <= bound
    ensures sqrt(x) > bound <==> x > bound * bound
  {
    var s := sqrt(x);
    assert 0.0 <= s && s * s == x;
    assert (s - bound) * (s + bound) == x - bound * bound;
    if s > bound {
      assert 0.0 < s + bound;
    }
  }

  lemma ProductZero(a: real, b: real)
    requires a * b == 0.0 && b != 0.0
    ensures a == 0.0
  {
    assert a == (a * b) / b;
  }
}
