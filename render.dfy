/**
  * The integrator and the image driver of `lib-raytracing/src/lib.rs` (`raytrace` is the same
  * recursion as `ray_color` in `src/main.rs`). The scene query `HittableList::hit` and each
  * material's `scatter` are parameters; `scatter` also receives the remaining depth, which
  * stands for the random draws it takes at that bounce.
  */
module Rendering {
  import opened Wrappers
  import opened RealArith
  import opened Transcendentals
  import opened Vectors
  import opened Rays
  import opened Materials
  import Util
  import Cameras

  /** The near bound of every scene query, which keeps a ray from re-hitting its own origin. */
  const T_MIN: real := 0.001

  const Black := Vec3(0.0, 0.0, 0.0)
  const White := Vec3(1.0, 1.0, 1.0)
  const SkyBlue := Vec3(0.5, 0.7, 1.0)

  /** Every channel between 0 and 1. */
  predicate InUnitCube(c: Vec3)
  {
    0.0 <= c.x <= 1.0 && 0.0 <= c.y <= 1.0 && 0.0 <= c.z <= 1.0
  }

  /** A scatter that never hands back a ray without a direction. */
  ghost predicate KeepsDirection<M(!new)>(scatter: (Ray, HitRecord<M>, nat) -> Option<Scattered>)
  {
    forall ray, record, depth :: scatter(ray, record, depth).Some? ==>
      scatter(ray, record, depth).value.ray.direction != Default()
  }

  /** A scatter whose attenuation never amplifies a channel. */
  ghost predicate AttenuatesInUnit<M(!new)>(scatter: (Ray, HitRecord<M>, nat) -> Option<Scattered>)
  {
    forall ray, record, depth :: scatter(ray, record, depth).Some? ==>
      InUnitCube(scatter(ray, record, depth).value.attenuation)
  }

  /** The blend parameter of the sky: the unit direction's height mapped from [-1, 1] to [0, 1]. */
  function SkyBlend(sqrt: real -> real, direction: Vec3): (t: real)
    requires IsSqrt(sqrt) && direction != Default()
    ensures 0.0 <= t <= 1.0
  {
    var unitDirection := UnitVector(sqrt, direction);
    assert Square(unitDirection.y) <= 1.0;
    SquareAtMostOneInverse(unitDirection.y);
    0.5 * (unitDirection.y + 1.0)
  }

  /** The sky box a missed ray sees: a blend from white (looking down) to light blue (looking up). */
  function Sky(sqrt: real -> real, direction: Vec3): (r: Vec3)
    requires IsSqrt(sqrt) && direction != Default()
    ensures InUnitCube(r)
  {
    var t := SkyBlend(sqrt, direction);
    Add(Scale(1.0 - t, White), Scale(t, SkyBlue))
  }

  /** Looking straight down shows white. */
  lemma SkyStraightDown(sqrt: real -> real, k: real)
    requires IsSqrt(sqrt) && 0.0 < k
    ensures Sky(sqrt, Vec3(0.0, -k, 0.0)) == White
  {
    StraightUnit(sqrt, Vec3(0.0, -k, 0.0), -1.0);
    SkyAtHeight(sqrt, Vec3(0.0, -k, 0.0), -1.0);
  }

  /** Looking straight up shows the light blue. */
  lemma SkyStraightUp(sqrt: real -> real, k: real)
    requires IsSqrt(sqrt) && 0.0 < k
    ensures Sky(sqrt, Vec3(0.0, k, 0.0)) == SkyBlue
  {
    StraightUnit(sqrt, Vec3(0.0, k, 0.0), 1.0);
    SkyAtHeight(sqrt, Vec3(0.0, k, 0.0), 1.0);
  }

  /** The sky colour in terms of the unit direction's height. */
  lemma SkyAtHeight(sqrt: real -> real, d: Vec3, y: real)
    requires IsSqrt(sqrt) && d != Default() && UnitVector(sqrt, d).y == y
    ensures Sky(sqrt, d) == Add(Scale(1.0 - 0.5 * (y + 1.0), White), Scale(0.5 * (y + 1.0), SkyBlue))
  {
  }

  /** A vertical direction's unit vector has height `sign`. */
  lemma StraightUnit(sqrt: real -> real, d: Vec3, sign: real)
    requires IsSqrt(sqrt) && d.x == 0.0 && d.z == 0.0 && d.y * sign > 0.0 && (sign == 1.0 || sign == -1.0)
    ensures d != Default() && UnitVector(sqrt, d).y == sign
  {
    assert d != Default();
    var u := UnitVector(sqrt, d);
    var len := Length(sqrt, d);
    VerticalUnit(d, u, len);
    SignMatch(u.y, len, d.y, sign);
  }

  /** A positive multiple of a unit vector that is vertical is itself vertical, of height ±1. */
  lemma VerticalUnit(d: Vec3, u: Vec3, len: real)
    requires d.x == 0.0 && d.z == 0.0 && 0.0 < len && d == Scale(len, u) && LengthSquared(u) == 1.0
    ensures u.y * u.y == 1.0 && u.y * len == d.y
  {
    ProductZero(u.x, len);
    ProductZero(u.z, len);
  }

  /** A unit height whose multiple by a positive length has the sign `sign` is `sign`. */
  lemma SignMatch(y: real, len: real, dy: real, sign: real)
    requires y * y == 1.0 && 0.0 < len && y * len == dy && dy * sign > 0.0
    requires sign == 1.0 || sign == -1.0
    ensures y == sign
  {
    assert (y - 1.0) * (y + 1.0) == 0.0;
    if y + 1.0 != 0.0 {
      ProductZero(y - 1.0, y + 1.0);
    }
    assert y == 1.0 || y == -1.0;
  }

  /**
    * `raytrace`: black once the bounce budget `depth` is spent; the sky colour when the scene
    * query from `T_MIN` to `INFTY` misses; black when the hit material absorbs; otherwise the
    * attenuation times the colour of the scattered ray with one bounce less.
    */
  function Raytrace<M(!new)>(sqrt: real -> real, hit: (Ray, real, real) -> Option<HitRecord<M>>,
                       scatter: (Ray, HitRecord<M>, nat) -> Option<Scattered>, ray: Ray, depth: nat): (r: Vec3)
    requires IsSqrt(sqrt) && ray.direction != Default() && KeepsDirection(scatter)
    ensures depth == 0 ==> r == Black
    ensures 0 < depth && hit(ray, T_MIN, Util.INFTY).None? ==> r == Sky(sqrt, ray.direction)
    ensures (0 < depth && hit(ray, T_MIN, Util.INFTY).Some? &&
             scatter(ray, hit(ray, T_MIN, Util.INFTY).value, depth).None?) ==> r == Black
    ensures (0 < depth && hit(ray, T_MIN, Util.INFTY).Some? &&
             scatter(ray, hit(ray, T_MIN, Util.INFTY).value, depth).Some?) ==>
              var s := scatter(ray, hit(ray, T_MIN, Util.INFTY).value, depth).value;
              r == Mul(s.attenuation, Raytrace(sqrt, hit, scatter, s.ray, depth - 1))
    decreases depth
  {
    if depth <= 0 then Black
    else
      match hit(ray, T_MIN, Util.INFTY)
      case Some(hitRecord) =>
        (match scatter(ray, hitRecord, depth)
         case Some(s) => Mul(s.attenuation, Raytrace(sqrt, hit, scatter, s.ray, depth - 1))
         case None => Black)
      case None => Sky(sqrt, ray.direction)
  }

  /** When every material attenuates, every traced colour has its channels in [0, 1]. */
  lemma {:induction false} ColorBounded<M(!new)>(sqrt: real -> real, hit: (Ray, real, real) -> Option<HitRecord<M>>,
                                           scatter: (Ray, HitRecord<M>, nat) -> Option<Scattered>, ray: Ray, depth: nat)
    requires IsSqrt(sqrt) && ray.direction != Default() && KeepsDirection(scatter) && AttenuatesInUnit(scatter)
    ensures InUnitCube(Raytrace(sqrt, hit, scatter, ray, depth))
    decreases depth
  {
    if depth > 0 && hit(ray, T_MIN, Util.INFTY).Some? {
      var hitRecord := hit(ray, T_MIN, Util.INFTY).value;
      if scatter(ray, hitRecord, depth).Some? {
        var s := scatter(ray, hitRecord, depth).value;
        ColorBounded(sqrt, hit, scatter, s.ray, depth - 1);
        MulInUnitCube(s.attenuation, Raytrace(sqrt, hit, scatter, s.ray, depth - 1));
      }
    }
  }

  /** The product of two colours of the unit cube stays in it. */
  lemma MulInUnitCube(a: Vec3, b: Vec3)
    requires InUnitCube(a) && InUnitCube(b)
    ensures InUnitCube(Mul(a, b))
  {
    ProductInUnit(a.x, b.x);
    ProductInUnit(a.y, b.y);
    ProductInUnit(a.z, b.z);
  }

  /** The scene queries `raytrace` makes, in order, as (ray, t_min, t_max). */
  function Queries<M(!new)>(hit: (Ray, real, real) -> Option<HitRecord<M>>,
                      scatter: (Ray, HitRecord<M>, nat) -> Option<Scattered>, ray: Ray, depth: nat): seq<(Ray, real, real)>
    decreases depth
  {
    if depth == 0 then []
    else
      [(ray, T_MIN, Util.INFTY)] +
      match hit(ray, T_MIN, Util.INFTY)
      case Some(hitRecord) =>
        (match scatter(ray, hitRecord, depth)
         case Some(s) => Queries(hit, scatter, s.ray, depth - 1)
         case None => [])
      case None => []
  }

  /**
    * The recursion queries the scene at most `depth` times, the first time with the given
    * ray, and always over `[0.001, INFTY]`.
    */
  lemma {:induction false} QueriesBounded<M(!new)>(hit: (Ray, real, real) -> Option<HitRecord<M>>,
                                             scatter: (Ray, HitRecord<M>, nat) -> Option<Scattered>, ray: Ray, depth: nat)
    ensures |Queries(hit, scatter, ray, depth)| <= depth
    ensures 0 < depth ==> Queries(hit, scatter, ray, depth)[0].0 == ray
    ensures forall k :: 0 <= k < |Queries(hit, scatter, ray, depth)| ==>
              Queries(hit, scatter, ray, depth)[k].1 == T_MIN && Queries(hit, scatter, ray, depth)[k].2 == Util.INFTY
    decreases depth
  {
    if depth > 0 && hit(ray, T_MIN, Util.INFTY).Some? {
      var hitRecord := hit(ray, T_MIN, Util.INFTY).value;
      if scatter(ray, hitRecord, depth).Some? {
        QueriesBounded(hit, scatter, scatter(ray, hitRecord, depth).value.ray, depth - 1);
      }
    }
  }

  /**
    * The pixel of flat index `x`: column `x % width` and row `height - x / width`, so every
    * column is in range, rows run from 1 to `height` (row 0 is never sampled), and the index
    * is recovered from them.
    */
  function PixelIndex(x: nat, imageHeight: nat, imageWidth: nat): (r: (nat, nat))
    requires x < imageHeight * imageWidth
    ensures 0 <= r.0 < imageWidth && 1 <= r.1 <= imageHeight
    ensures x == (imageHeight - r.1) * imageWidth + r.0
  {
    var i := x % imageWidth;
    DivBelowHeight(x, imageHeight, imageWidth);
    RemainderRemoved(x, imageWidth);
    var j := imageHeight - (x - i) / imageWidth;
    (i, j)
  }

  /** A flat index below `height * width` lies in a row below `height`. */
  lemma DivBelowHeight(x: nat, imageHeight: nat, imageWidth: nat)
    requires x < imageHeight * imageWidth
    ensures 0 < imageWidth && x / imageWidth < imageHeight
  {
  }

  /** Taking off the remainder leaves the quotient unchanged. */
  lemma RemainderRemoved(x: nat, w: nat)
    requires 0 < w
    ensures (x - x % w) / w == x / w
  {
    var q := x / w;
    assert x - x % w == q * w;
    ExactQuotient(q, w);
  }

  lemma ExactQuotient(q: int, w: int)
    requires 0 < w
    ensures (q * w) / w == q
  {
    var d := (q * w) / w;
    var m := (q * w) % w;
    assert q * w == d * w + m;
    assert (q - d) * w == m;
    if q - d >= 1 || q - d <= -1 {
      assert false;
    }
  }

  /** Different flat indices name different pixels. */
  lemma PixelIndexInjective(x: nat, y: nat, imageHeight: nat, imageWidth: nat)
    requires x < imageHeight * imageWidth && y < imageHeight * imageWidth
    requires PixelIndex(x, imageHeight, imageWidth) == PixelIndex(y, imageHeight, imageWidth)
    ensures x == y
  {
  }

  /** The two `random()` draws that jitter a sample inside its pixel, and the lens sample. */
  datatype SampleDraws = SampleDraws(dx: real, dy: real, inUnitDisk: Vec3)

  /** The viewport coordinates `((i + dx) / (w - 1), (j + dy) / (h - 1))` of one sample. */
  function ViewportCoordinates(i: nat, j: nat, imageHeight: nat, imageWidth: nat, draws: SampleDraws): (r: (real, real))
    requires 2 <= imageHeight && 2 <= imageWidth
    ensures r.0 * ((imageWidth - 1) as real) == i as real + draws.dx
    ensures r.1 * ((imageHeight - 1) as real) == j as real + draws.dy
  {
    ((i as real + draws.dx) / ((imageWidth - 1) as real), (j as real + draws.dy) / ((imageHeight - 1) as real))
  }

  /** The colour of one sample: the camera ray through the jittered pixel, traced `maxBounce` deep. */
  function Sample<M(!new)>(sqrt: real -> real, hit: (Ray, real, real) -> Option<HitRecord<M>>,
                     scatter: (Ray, HitRecord<M>, nat) -> Option<Scattered>, camera: Cameras.Camera,
                     i: nat, j: nat, imageHeight: nat, imageWidth: nat, maxBounce: nat, draws: SampleDraws): Vec3
    requires IsSqrt(sqrt) && KeepsDirection(scatter) && Cameras.Focused(camera)
    requires 2 <= imageHeight && 2 <= imageWidth
  {
    var uv := ViewportCoordinates(i, j, imageHeight, imageWidth, draws);
    Cameras.RayHeadsIntoView(camera, uv.0, uv.1, draws.inUnitDisk);
    Raytrace(sqrt, hit, scatter, Cameras.ShootRay(camera, uv.0, uv.1, draws.inUnitDisk), maxBounce)
  }

  /** When every material attenuates, every sample lies in the unit cube. */
  lemma SampleInUnitCube<M(!new)>(sqrt: real -> real, hit: (Ray, real, real) -> Option<HitRecord<M>>,
                                  scatter: (Ray, HitRecord<M>, nat) -> Option<Scattered>, camera: Cameras.Camera,
                                  i: nat, j: nat, imageHeight: nat, imageWidth: nat, maxBounce: nat, draws: SampleDraws)
    requires IsSqrt(sqrt) && KeepsDirection(scatter) && AttenuatesInUnit(scatter) && Cameras.Focused(camera)
    requires 2 <= imageHeight && 2 <= imageWidth
    ensures InUnitCube(Sample(sqrt, hit, scatter, camera, i, j, imageHeight, imageWidth, maxBounce, draws))
  {
    var uv := ViewportCoordinates(i, j, imageHeight, imageWidth, draws);
    Cameras.RayHeadsIntoView(camera, uv.0, uv.1, draws.inUnitDisk);
    ColorBounded(sqrt, hit, scatter, Cameras.ShootRay(camera, uv.0, uv.1, draws.inUnitDisk), maxBounce);
  }

  /**
    * `render_scene`: one colour per pixel, `height * width` of them, element `x` being one
    * sample of the pixel `PixelIndex(x)` with its own draws. The parallel map is taken in order.
    */
  function RenderScene<M(!new)>(sqrt: real -> real, hit: (Ray, real, real) -> Option<HitRecord<M>>,
                          scatter: (Ray, HitRecord<M>, nat) -> Option<Scattered>, camera: Cameras.Camera,
                          imageHeight: nat, imageWidth: nat, maxBounce: nat, draws: seq<SampleDraws>): (r: seq<Vec3>)
    requires IsSqrt(sqrt) && KeepsDirection(scatter) && Cameras.Focused(camera)
    requires imageHeight != 1 && imageWidth != 1 && |draws| == imageHeight * imageWidth
    ensures |r| == imageHeight * imageWidth
    ensures forall x :: 0 <= x < |r| ==>
              var ij := PixelIndex(x, imageHeight, imageWidth);
              r[x] == Sample(sqrt, hit, scatter, camera, ij.0, ij.1, imageHeight, imageWidth, maxBounce, draws[x])
  {
    seq(imageHeight * imageWidth, x requires 0 <= x < imageHeight * imageWidth =>
      var ij := PixelIndex(x, imageHeight, imageWidth);
      Sample(sqrt, hit, scatter, camera, ij.0, ij.1, imageHeight, imageWidth, maxBounce, draws[x]))
  }
}
