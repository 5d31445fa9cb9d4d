/**
  * The windowed front end of `winit-example/src/main.rs`: every input event renders one more
  * sample per pixel, adds it to a running sum, and copies the gamma-corrected average into the
  * RGBA frame buffer of the window, until `SAMPLES_PER_PIXEL` passes have been made.
  */
module Progressive {
  import opened Vectors
  import Util
  import MainProgram

  const ASPECT_RATIO: real := 16.0 / 9.0
  const IMAGE_WIDTH: nat := 1080
  /** `((IMAGE_WIDTH as f64) / ASPECT_RATIO) as u32`: the cast truncates 607.5 to 607. */
  const IMAGE_HEIGHT: int := ((IMAGE_WIDTH as real) / ASPECT_RATIO).Floor
  const SAMPLES_PER_PIXEL: nat := 100
  const MAX_BOUNCE: nat := 50
  const FIELD_OF_VIEW: real := 20.0
  const GAMMA: real := 2.0

  lemma ImageHeightValue()
    ensures IMAGE_HEIGHT == 607
  {
    assert (IMAGE_WIDTH as real) / ASPECT_RATIO == 607.5;
  }

  /** A `u8` of the frame buffer. */
  newtype byte = x: int | 0 <= x < 256

  function MinNat(a: nat, b: nat): nat
  {
    if a <= b then a else b
  }

  // ---------------------------------------------------------------- accumulation

  /** The running sums before the first pass: one black pixel per image position. */
  function Black(n: nat): (r: seq<Vec3>)
    ensures |r| == n && forall k :: 0 <= k < n ==> r[k] == Default()
  {
    seq(n, k => Default())
  }

  /**
    * The `zip` of the freshly rendered pass with the running sums, adding them pixel by pixel;
    * `zip` stops at the shorter of the two.
    */
  function Accumulate(rendered: seq<Vec3>, pixels: seq<Vec3>): (r: seq<Vec3>)
    ensures |r| == MinNat(|rendered|, |pixels|)
  {
    seq(MinNat(|rendered|, |pixels|), k requires 0 <= k < MinNat(|rendered|, |pixels|) =>
      Add(rendered[k], pixels[k]))
  }

  /** The running sums after accumulating `passes`, in order, onto `init`. */
  function Accumulated(init: seq<Vec3>, passes: seq<seq<Vec3>>): seq<Vec3>
  {
    if |passes| == 0 then init
    else Accumulate(passes[|passes| - 1], Accumulated(init, passes[..|passes| - 1]))
  }

  /** Pixel `k` of every pass: the samples that position has received. */
  function Column(passes: seq<seq<Vec3>>, k: nat): (r: seq<Vec3>)
    requires forall p :: 0 <= p < |passes| ==> k < |passes[p]|
    ensures |r| == |passes|
  {
    seq(|passes|, p requires 0 <= p < |passes| => passes[p][k])
  }

  /** Passes that all cover the whole image keep the running sums the size of the image. */
  lemma {:induction false} AccumulatedLength(n: nat, passes: seq<seq<Vec3>>)
    requires forall p :: 0 <= p < |passes| ==> |passes[p]| == n
    ensures |Accumulated(Black(n), passes)| == n
  {
    if |passes| > 0 {
      AccumulatedLength(n, passes[..|passes| - 1]);
    }
  }

  /**
    * Accumulating whole-image passes onto black gives, at every position, the sum of the
    * samples that position received, in the order `reduce` adds them in `src/main.rs`.
    */
  lemma {:induction false} AccumulatedIsSum(n: nat, passes: seq<seq<Vec3>>, k: nat)
    requires forall p :: 0 <= p < |passes| ==> |passes[p]| == n
    requires k < n
    ensures |Accumulated(Black(n), passes)| == n
    ensures Accumulated(Black(n), passes)[k] == MainProgram.Sum(Column(passes, k))
  {
    AccumulatedLength(n, passes);
    if |passes| > 0 {
      var prefix := passes[..|passes| - 1];
      AccumulatedIsSum(n, prefix, k);
      assert Column(passes, k)[..|passes| - 1] == Column(prefix, k);
    }
  }

  /**
    * The values shown after `count` passes: each running sum divided by the number of passes
    * made, then raised to `1 / GAMMA` by `powf`.
    */
  function Display(powf: (real, real) -> real, pixels: seq<Vec3>, count: nat): (r: seq<Vec3>)
    requires 1 <= count
    ensures |r| == |pixels|
  {
    seq(|pixels|, k requires 0 <= k < |pixels| => Pow(powf, Div(pixels[k], count as real), 1.0 / GAMMA))
  }

  /**
    * After `n >= 1` whole-image passes, each displayed pixel is exactly the value
    * `src/main.rs` computes from the same `n` samples: their average, gamma-corrected.
    */
  lemma DisplayIsPixelValue(powf: (real, real) -> real, n: nat, passes: seq<seq<Vec3>>, k: nat)
    requires forall p :: 0 <= p < |passes| ==> |passes[p]| == n
    requires 1 <= |passes| && k < n
    ensures |Display(powf, Accumulated(Black(n), passes), |passes|)| == n
    ensures Display(powf, Accumulated(Black(n), passes), |passes|)[k] ==
            MainProgram.PixelValue(powf, Column(passes, k))
  {
    AccumulatedIsSum(n, passes, k);
    var sums := Accumulated(Black(n), passes);
    var column := Column(passes, k);
    assert MainProgram.Average(column) == Div(sums[k], |passes| as real);
    assert MainProgram.GAMMA == GAMMA;
  }

  // ---------------------------------------------------------------- the frame buffer

  /**
    * One colour channel as a frame byte: `(256 * clamp(c, 0, 0.999)).round() as u8`.
    * The rounded value can be 256, and the `as u8` cast saturates it to 255.
    */
  function ChannelByte(c: real): (r: byte)
    ensures r as real <= 256.0 * Util.Clamp(c, 0.0, 0.999) + 0.5
    ensures r == 255 || 256.0 * Util.Clamp(c, 0.0, 0.999) - 0.5 <= r as real
    ensures c <= 0.0 ==> r == 0
  {
    var rounded := Util.Round(256.0 * Util.Clamp(c, 0.0, 0.999));
    if rounded > 255 then 255 else rounded as byte
  }

  /**
    * A saturated channel: the rounding reaches 256, which the byte cast clips to 255, where
    * the integer cast of `write_color` in `src/util.rs` keeps 256.
    */
  lemma ChannelByteSaturates()
    ensures Util.Round(256.0 * Util.Clamp(1.0, 0.0, 0.999)) == 256
    ensures ChannelByte(1.0) == 255
  {
    assert Util.Clamp(1.0, 0.0, 0.999) == 0.999;
  }

  /** The four bytes of one pixel: red, green, blue and an opaque alpha. */
  function Rgba(p: Vec3): (r: seq<byte>)
    ensures |r| == 4 && r[3] == 255
  {
    [ChannelByte(p.x), ChannelByte(p.y), ChannelByte(p.z), 255]
  }

  /**
    * The frame buffer after `frame_copy`: every whole 4-byte chunk `i` holds `Rgba(pixels[i])`,
    * and the bytes after the last whole chunk keep their old values.
    */
  function Framed(pixels: seq<Vec3>, old_frame: seq<byte>): (r: seq<byte>)
    requires |old_frame| / 4 <= |pixels|
    ensures |r| == |old_frame|
  {
    seq(|old_frame|, k requires 0 <= k < |old_frame| =>
      if k < 4 * (|old_frame| / 4) then Rgba(pixels[k / 4])[k % 4] else old_frame[k])
  }

  /** Chunk `i` of the copied frame is the RGBA of pixel `i` alone, with alpha 255. */
  lemma FramedChunk(pixels: seq<Vec3>, old_frame: seq<byte>, i: nat)
    requires |old_frame| / 4 <= |pixels| && i < |old_frame| / 4
    ensures 4 * i + 4 <= |old_frame|
    ensures Framed(pixels, old_frame)[4 * i .. 4 * i + 4] == Rgba(pixels[i])
    ensures Framed(pixels, old_frame)[4 * i + 3] == 255
  {
    var r := Framed(pixels, old_frame);
    forall c | 0 <= c < 4
      ensures r[4 * i + c] == Rgba(pixels[i])[c]
    {
      assert (4 * i + c) / 4 == i && (4 * i + c) % 4 == c;
    }
  }

  /** `frame_copy`: writes `Rgba(pixels[i])` into every whole 4-byte chunk `i` of the frame. */
  method FrameCopy(pixels: seq<Vec3>, frame: array<byte>)
    requires frame.Length / 4 <= |pixels|
    modifies frame
    ensures frame[..] == Framed(pixels, old(frame[..]))
  {
    var i := 0;
    while i < frame.Length / 4
      invariant 0 <= i <= frame.Length / 4
      invariant forall k :: 0 <= k < 4 * i ==> frame[k] == Rgba(pixels[k / 4])[k % 4]
      invariant forall k :: 4 * i <= k < frame.Length ==> frame[k] == old(frame[k])
    {
      var rgba := Rgba(pixels[i]);
      frame[4 * i] := rgba[0];
      frame[4 * i + 1] := rgba[1];
      frame[4 * i + 2] := rgba[2];
      frame[4 * i + 3] := rgba[3];
      i := i + 1;
    }
  }

  // ---------------------------------------------------------------- the sample counter

  /** The sample counter after one input event. */
  function NextCount(n: nat): (r: nat)
  {
    if n < SAMPLES_PER_PIXEL then n + 1
    else if n == SAMPLES_PER_PIXEL then n + 1
    else n
  }

  /** The sample counter after `events` input events from the start. */
  function CountAfter(events: nat): nat
  {
    if events == 0 then 0 else NextCount(CountAfter(events - 1))
  }

  /**
    * The counter climbs by one per event up to `SAMPLES_PER_PIXEL + 1` and then stays there;
    * it passes through `SAMPLES_PER_PIXEL` without a render pass on the last step.
    */
  lemma {:induction false} CountSettles(events: nat)
    ensures CountAfter(events) == MinNat(events, SAMPLES_PER_PIXEL + 1)
  {
    if events > 0 {
      CountSettles(events - 1);
    }
  }

  /** An event renders a pass exactly while fewer than `SAMPLES_PER_PIXEL` have been made. */
  lemma PassesMade(events: nat)
    ensures CountAfter(events) < SAMPLES_PER_PIXEL <==> events < SAMPLES_PER_PIXEL
    ensures MinNat(CountAfter(events), SAMPLES_PER_PIXEL) == MinNat(events, SAMPLES_PER_PIXEL)
  {
    CountSettles(events);
  }

  /**
    * The state the event closure of `main` captures: the running sums and the counter,
    * with the passes accumulated so far as ghost history.
    */
  class RenderLoop {
    var pixels: seq<Vec3>
    var calculatedSamples: nat
    ghost var passes: seq<seq<Vec3>>

    /** The running sums are the passes made, one pass per counted sample up to the limit. */
    ghost predicate Valid()
      reads this
    {
      calculatedSamples <= SAMPLES_PER_PIXEL + 1 &&
      |passes| == MinNat(calculatedSamples, SAMPLES_PER_PIXEL) &&
      pixels == Accumulated(Black(IMAGE_WIDTH * IMAGE_HEIGHT), passes)
    }

    /** `vec![Vec3::new(0.0, 0.0, 0.0); IMAGE_WIDTH * IMAGE_HEIGHT]` and a counter of zero. */
    constructor ()
      ensures Valid()
      ensures pixels == Black(IMAGE_WIDTH * IMAGE_HEIGHT) && calculatedSamples == 0 && passes == []
    {
      ImageHeightValue();
      pixels := Black(IMAGE_WIDTH * IMAGE_HEIGHT);
      calculatedSamples := 0;
      passes := [];
    }

    /**
      * One input event: while passes remain, add the pass `rendered` to the sums, count it
      * and copy the new average into `frame`; at the limit, only move the counter past it.
      */
    method Update(powf: (real, real) -> real, rendered: seq<Vec3>, frame: array<byte>)
      requires Valid()
      requires calculatedSamples < SAMPLES_PER_PIXEL ==>
                 frame.Length / 4 <= |rendered| && frame.Length / 4 <= |pixels|
      modifies this, frame
      ensures Valid()
      ensures calculatedSamples == NextCount(old(calculatedSamples))
      ensures old(calculatedSamples) < SAMPLES_PER_PIXEL ==>
                pixels == Accumulate(rendered, old(pixels)) &&
                passes == old(passes) + [rendered] &&
                frame[..] == Framed(Display(powf, pixels, calculatedSamples), old(frame[..]))
      ensures SAMPLES_PER_PIXEL <= old(calculatedSamples) ==>
                pixels == old(pixels) && passes == old(passes) && frame[..] == old(frame[..])
    {
      if calculatedSamples < SAMPLES_PER_PIXEL {
        pixels := Accumulate(rendered, pixels);
        passes := passes + [rendered];
        assert passes[..|passes| - 1] == old(passes);
        calculatedSamples := calculatedSamples + 1;
        FrameCopy(Display(powf, pixels, calculatedSamples), frame);
      } else if calculatedSamples == SAMPLES_PER_PIXEL {
        calculatedSamples := calculatedSamples + 1;
      }
    }
  }
}
