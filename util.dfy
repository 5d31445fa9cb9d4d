/**
  * The numeric helpers of `src/util.rs`: clamping, drawing from a range, degree
  * conversion, and the quantisation of one colour channel done by `write_color`.
  * `random()` is not modelled: every draw is a parameter, in [0, 1) when it matters.
  */
module Util {
  import opened Vectors
  import opened Transcendentals

  /** `clamp`: `x` forced into `[min, max]`, left alone when already inside. */
  function Clamp(x: real, min: real, max: real): (r: real)
    ensures min <= max ==> min <= r <= max
    ensures min <= x <= max ==> r == x
    ensures x < min ==> r == min
    ensures min <= max && max < x ==> r == max
  {
    if x < min then min
    else if x > max then max
    else x
  }

  /** Clamping a clamped value changes nothing. */
  lemma ClampIdempotent(x: real, min: real, max: real)
    requires min <= max
    ensures Clamp(Clamp(x, min, max), min, max) == Clamp(x, min, max)
  {
  }

  /** `random_range`, with the value of `random()` given as `draw`. */
  function RandomRange(min: real, max: real, draw: real): (r: real)
    ensures 0.0 <= draw < 1.0 && min < max ==> min <= r < max
  {
    var span := max - min;
    RealArith.ScaleBelowOne(span, draw);
    assert 0.0 <= draw < 1.0 && min < max ==> 0.0 <= span * draw < span;
    min + span * draw
  }

  /** `INFTY`: the largest finite `f64`, the far bound of every scene query. */
  const INFTY: real := 179769313486231570814527423731704356798070567525844996598917476803157260780028538760589558632766878171540458953514382464234321326889464182768467546703537516986049910576551282076245490090389328944075868508455133942304583236903222948165808559332123348274797826204144723168738177180919299881250404026184124858368.0

  /** `degrees_to_radians`, with the constant `PI` given as `pi`. */
  function DegreesToRadians(pi: real, degrees: real): (r: real)
    ensures r * 180.0 == degrees * pi
  {
    degrees * pi / 180.0
  }

  /** The conversion maps 0 to 0 and 180 degrees to `pi`, and preserves sums. */
  lemma DegreesToRadiansLinear(pi: real, a: real, b: real)
    ensures DegreesToRadians(pi, 0.0) == 0.0
    ensures DegreesToRadians(pi, 180.0) == pi
    ensures DegreesToRadians(pi, a + b) == DegreesToRadians(pi, a) + DegreesToRadians(pi, b)
  {
    assert (a + b) * pi == a * pi + b * pi;
  }

  /** `f64::round`: the nearest integer, halfway cases away from zero. */
  function Round(x: real): (r: int)
    ensures x - 0.5 <= r as real <= x + 0.5
    ensures 0.0 <= x ==> 0 <= r && x + 0.5 < r as real + 1.0
    ensures x < 0.0 ==> r <= 0 && r as real - 1.0 < x - 0.5
  {
    if x >= 0.0 then (x + 0.5).Floor else -((-x + 0.5).Floor)
  }

  /**
    * One channel as `write_color` prints it: the channel averaged over the samples,
    * gamma-corrected by a square root, clamped to [0, 0.999], scaled by 256 and rounded.
    * The `as i32` cast of a value in [0, 256] is exact, so the result can reach 256.
    */
  function Channel(sqrt: real -> real, c: real, samplesPerPixel: nat): (r: int)
    requires 0 < samplesPerPixel
    ensures 0 <= r <= 256
  {
    var scale := 1.0 / (samplesPerPixel as real);
    Round(256.0 * Clamp(sqrt(c * scale), 0.0, 0.999))
  }

  /** A fully saturated single-sample channel prints as 256, one past the byte range. */
  lemma ChannelCanReach256(sqrt: real -> real)
    requires IsSqrt(sqrt)
    ensures Channel(sqrt, 1.0, 1) == 256
  {
    SqrtOne(sqrt);
    assert Clamp(sqrt(1.0 * (1.0 / 1.0)), 0.0, 0.999) == 0.999;
    assert Round(256.0 * 0.999) == 256;
  }

  /** A black channel prints as 0, whatever the number of samples. */
  lemma ChannelOfBlack(sqrt: real -> real, samplesPerPixel: nat)
    requires IsSqrt(sqrt) && 0 < samplesPerPixel
    ensures Channel(sqrt, 0.0, samplesPerPixel) == 0
  {
    var s := sqrt(0.0 * (1.0 / (samplesPerPixel as real)));
    assert 0.0 <= s && s * s == 0.0;
    if s != 0.0 {
      RealArith.SquarePositive(s);
    }
    assert Round(256.0 * 0.0) == 0;
  }

  /** The three integers `write_color` prints for one pixel, in r, g, b order. */
  function ColorLine(sqrt: real -> real, pixelColor: Vec3, samplesPerPixel: nat): (r: seq<int>)
    requires 0 < samplesPerPixel
    ensures |r| == 3
    ensures forall k :: 0 <= k < 3 ==> 0 <= r[k] <= 256
  {
    [Channel(sqrt, pixelColor.x, samplesPerPixel),
     Channel(sqrt, pixelColor.y, samplesPerPixel),
     Channel(sqrt, pixelColor.z, samplesPerPixel)]
  }

  /**
    * The image output that `write_color` appends to, reduced to the integers written;
    * the text formatting and the writer itself are not modelled.
    */
  class ColorWriter {
    var written: seq<int>

    constructor ()
      ensures written == []
    {
      written := [];
    }

    /** `write_color`: appends exactly one line of three channel values. */
    method WriteColor(sqrt: real -> real, pixelColor: Vec3, samplesPerPixel: nat)
      requires 0 < samplesPerPixel
      modifies this
      ensures written == old(written) + ColorLine(sqrt, pixelColor, samplesPerPixel)
      ensures |written| == |old(written)| + 3
    {
      var line := ColorLine(sqrt, pixelColor, samplesPerPixel);
      written := written + line;
    }
  }
}
