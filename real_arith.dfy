/**
  * Facts about products of reals that the vector algebra builds on. Squares get a name of
  * their own so that their sign can be stated once and reused.
  */
module RealArith {

  function Square(a: real): (r: real)
    ensures 0.0 <= r
  {
    a * a
  }

  lemma SquareOfProduct(a: real, b: real)
    ensures Square(a) * Square(b) == Square(a * b)
  {
  }

  lemma InverseProduct(a: real)
    requires a != 0.0
    ensures a * (1.0 / a) == 1.0
  {
  }

  /** Only zero squares to zero. */
  lemma SquarePositive(a: real)
    requires a != 0.0
    ensures Square(a) > 0.0
  {
    InverseProduct(a);
    SquareOfProduct(a, 1.0 / a);
    assert Square(a * (1.0 / a)) == 1.0;
  }

  lemma SquareNegate(a: real)
    ensures Square(-a) == Square(a)
  {
  }

  /** A product of two numbers in [0, 1] stays in [0, 1]. */
  lemma ProductInUnit(a: real, b: real)
    requires 0.0 <= a <= 1.0 && 0.0 <= b <= 1.0
    ensures 0.0 <= a * b <= 1.0
  {
    assert 0.0 <= a * b;
    assert a * b <= 1.0 * b;
  }

  /** A number between -1 and 1 has a square of at most one. */
  lemma SquareAtMostOne(a: real)
    requires -1.0 <= a <= 1.0
    ensures Square(a) <= 1.0
  {
    if 0.0 <= a {
      ProductInUnit(a, a);
    } else {
      ProductInUnit(-a, -a);
      assert (-a) * (-a) == a * a;
    }
  }

  /** A square of at most one comes from a number between -1 and 1. */
  lemma SquareAtMostOneInverse(a: real)
    requires Square(a) <= 1.0
    ensures -1.0 <= a <= 1.0
  {
  }

  /** Scaling a positive number by a factor below one makes it smaller. */
  lemma ScaleBelowOne(a: real, b: real)
    ensures 0.0 < a && 0.0 <= b < 1.0 ==> 0.0 <= a * b < a
  {
    if 0.0 < a && 0.0 <= b < 1.0 {
      assert a * (1.0 - b) > 0.0;
      assert a * b >= 0.0;
    }
  }
}
