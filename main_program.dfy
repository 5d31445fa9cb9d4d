/**
  * The driver of the older binary, `src/main.rs` (its `random_scene` is repeated verbatim in
  * `winit-example/src/main.rs`): the scene of many small spheres, the per-pixel average of
  * the samples with gamma correction, and the image of averaged pixels.
  */
module MainProgram {
  import opened Wrappers
  import opened RealArith
  import opened Transcendentals
  import opened Vectors
  import opened Rays
  import opened Materials
  import opened Spheres
  import Util
  import Sampling
  import Cameras
  import Rendering

  const ASPECT_RATIO: real := 16.0 / 9.0
  const IMAGE_WIDTH: nat := 320
  /** `(IMAGE_WIDTH as f64 / ASPECT_RATIO) as u32`: the quotient truncated. */
  const IMAGE_HEIGHT: int := ((IMAGE_WIDTH as real) / ASPECT_RATIO).Floor
  const SAMPLES_PER_PIXEL: nat := 10
  const MAX_BOUNCE: nat := 12
  const FIELD_OF_VIEW: real := 20.0
  const GAMMA: real := 2.0

  /** The image is 320 by 180 pixels. */
  lemma ImageHeightValue()
    ensures IMAGE_HEIGHT == 180
  {
    assert (IMAGE_WIDTH as real) / ASPECT_RATIO == 180.0;
  }

  // ---------------------------------------------------------------- the scene

  /** The centre of the big spheres' ring, which small spheres keep away from. */
  const CLEARING := Vec3(4.0, 0.2, 0.0)

  const Ground := Sphere(Vec3(0.0, -1000.0, 0.0), 1000.0, Lambertian(Vec3(0.5, 0.5, 0.5)))
  const GlassBall := Sphere(Vec3(0.0, 1.0, 0.0), 1.0, Dielectric(1.5))
  const DiffuseBall := Sphere(Vec3(-4.0, 1.0, 0.0), 1.0, Lambertian(Vec3(0.4, 0.2, 0.1)))
  const MetalBall := Sphere(Vec3(4.0, 1.0, 0.0), 1.0, Metal(Vec3(0.7, 0.6, 0.5), 0.0))

  /** The grid runs over `a, b` in `-11..11`: 22 by 22 cells. */
  const CELLS: nat := 22 * 22

  /**
    * The draws of one grid cell, in the order `random_scene` takes them: the material
    * choice, the jitter of `x` and `z`, and the draws of the material it picks.
    */
  datatype CellDraws = CellDraws(chooseMat: real, dx: real, dz: real,
                                 albedo1: Vec3, albedo2: Vec3, metalColor: Vec3, fuzz: real)

  predicate IsCellDraw(d: CellDraws)
  {
    0.0 <= d.chooseMat < 1.0 && 0.0 <= d.dx < 1.0 && 0.0 <= d.dz < 1.0 &&
    Sampling.IsDraw(d.albedo1) && Sampling.IsDraw(d.albedo2) && Sampling.IsDraw(d.metalColor) &&
    0.0 <= d.fuzz < 1.0
  }

  /** The grid coordinates `(a, b)` of cell `n`, cells being numbered row by row. */
  function CellCoordinates(n: nat): (r: (int, int))
    ensures n < CELLS ==> -11 <= r.0 < 11 && -11 <= r.1 < 11
    ensures n == (r.0 + 11) * 22 + (r.1 + 11)
  {
    (n / 22 - 11, n % 22 - 11)
  }

  /** Cell `(a + 11) * 22 + (b + 11)` has coordinates `(a, b)`. */
  lemma CellOf(a: int, b: int)
    requires -11 <= a < 11 && -11 <= b < 11
    ensures CellCoordinates((a + 11) * 22 + (b + 11)) == (a, b)
  {
    var n := (a + 11) * 22 + (b + 11);
    var q, m := n / 22, n % 22;
    assert n == q * 22 + m && 0 <= m < 22;
    if q > a + 11 || q < a + 11 {
      assert false;
    }
  }

  /** The jittered centre of a small sphere: inside its cell, at height 0.2. */
  function CellCenter(n: nat, d: CellDraws): (r: Vec3)
    ensures r.y == 0.2
    ensures IsCellDraw(d) ==>
      var ab := CellCoordinates(n);
      ab.0 as real <= r.x < ab.0 as real + 0.9 && ab.1 as real <= r.z < ab.1 as real + 0.9
  {
    var ab := CellCoordinates(n);
    Vec3(ab.0 as real + 0.9 * d.dx, 0.2, ab.1 as real + 0.9 * d.dz)
  }

  /** The centre of cell `(a, b)` in the grid's own terms. */
  lemma CenterOfCell(a: int, b: int, d: CellDraws)
    requires -11 <= a < 11 && -11 <= b < 11
    ensures CellCenter((a + 11) * 22 + (b + 11), d) == Vec3(a as real + 0.9 * d.dx, 0.2, b as real + 0.9 * d.dz)
  {
    CellOf(a, b);
  }

  /**
    * The small sphere's material: diffuse below 0.8 with the product of two random colours,
    * metal below 0.95 with a colour in `[0.5, 1)` and a fuzz in `[0, 0.5)`, glass of index
    * 1.5 otherwise.
    */
  function SmallSphereMaterial(d: CellDraws): (r: Material)
    ensures d.chooseMat < 0.8 ==> r == Lambertian(Mul(d.albedo1, d.albedo2))
    ensures 0.8 <= d.chooseMat < 0.95 ==> r.Metal?
    ensures 0.8 <= d.chooseMat < 0.95 && IsCellDraw(d) ==>
      0.5 <= r.color.x < 1.0 && 0.5 <= r.color.y < 1.0 && 0.5 <= r.color.z < 1.0 && 0.0 <= r.fuzz < 0.5
    ensures 0.95 <= d.chooseMat ==> r == Dielectric(1.5)
  {
    if d.chooseMat < 0.8 then
      Lambertian(Mul(d.albedo1, d.albedo2))
    else if d.chooseMat < 0.95 then
      Metal(Sampling.RandomRangeVec(0.5, 1.0, d.metalColor), Util.RandomRange(0.0, 0.5, d.fuzz))
    else
      Dielectric(1.5)
  }

  /** A cell gets a sphere when its centre is more than 0.9 from the clearing. */
  predicate Keeps(sqrt: real -> real, n: nat, d: CellDraws)
  {
    Length(sqrt, Sub(CellCenter(n, d), CLEARING)) > 0.9
  }

  function SmallSphere(n: nat, d: CellDraws): Sphere<Material>
  {
    Sphere(CellCenter(n, d), 0.2, SmallSphereMaterial(d))
  }

  /** The small spheres of the first `n` cells, in the order they are added. */
  function SmallSpheres(sqrt: real -> real, draws: seq<CellDraws>, n: nat): seq<Sphere<Material>>
    requires n <= |draws|
  {
    if n == 0 then []
    else
      SmallSpheres(sqrt, draws, n - 1) +
      (if Keeps(sqrt, n - 1, draws[n - 1]) then [SmallSphere(n - 1, draws[n - 1])] else [])
  }

  /**
    * At most one sphere per cell; each is the cell's small sphere, of radius 0.2 at height
    * 0.2, with its squared distance from the clearing above 0.81.
    */
  lemma {:induction false} SmallSpheresShape(sqrt: real -> real, draws: seq<CellDraws>, n: nat)
    requires IsSqrt(sqrt) && n <= |draws|
    ensures |SmallSpheres(sqrt, draws, n)| <= n
    ensures forall s :: s in SmallSpheres(sqrt, draws, n) ==>
      s.radius == 0.2 && s.center.y == 0.2 && LengthSquared(Sub(s.center, CLEARING)) > 0.81 &&
      exists k :: 0 <= k < n && Keeps(sqrt, k, draws[k]) && s == SmallSphere(k, draws[k])
  {
    if n > 0 {
      SmallSpheresShape(sqrt, draws, n - 1);
      var d := draws[n - 1];
      if Keeps(sqrt, n - 1, d) {
        var distance := Sub(CellCenter(n - 1, d), CLEARING);
        SqrtGreaterIff(sqrt, LengthSquared(distance), 0.9);
      }
    }
  }

  /**
    * `random_scene`: the ground first, then one small sphere for every grid cell whose
    * jittered centre keeps clear of `(4, 0.2, 0)`, then the three big spheres. `draws`
    * holds the draws of every cell, row by row.
    */
  method RandomScene(sqrt: real -> real, draws: seq<CellDraws>) returns (world: seq<Sphere<Material>>)
    requires IsSqrt(sqrt) && |draws| == CELLS
    ensures world == [Ground] + SmallSpheres(sqrt, draws, CELLS) + [GlassBall, DiffuseBall, MetalBall]
  {
    world := [Ground];
    var a := -11;
    while a < 11
      invariant -11 <= a <= 11
      invariant world == [Ground] + SmallSpheres(sqrt, draws, (a + 11) * 22)
    {
      var b := -11;
      while b < 11
        invariant -11 <= b <= 11
        invariant world == [Ground] + SmallSpheres(sqrt, draws, (a + 11) * 22 + (b + 11))
      {
        var n := (a + 11) * 22 + (b + 11);
        var d := draws[n];
        var center := Vec3(a as real + 0.9 * d.dx, 0.2, b as real + 0.9 * d.dz);
        CenterOfCell(a, b, d);
        NextCell(sqrt, draws, n);
        if Length(sqrt, Sub(center, CLEARING)) > 0.9 {
          var material := SmallSphereMaterial(d);
          world := world + [Sphere(center, 0.2, material)];
        }
        b := b + 1;
      }
      a := a + 1;
    }
    world := world + [GlassBall, DiffuseBall, MetalBall];
  }

  /** One more cell appends its small sphere exactly when the cell keeps it. */
  lemma NextCell(sqrt: real -> real, draws: seq<CellDraws>, n: nat)
    requires n < |draws|
    ensures SmallSpheres(sqrt, draws, n + 1) ==
      SmallSpheres(sqrt, draws, n) + (if Keeps(sqrt, n, draws[n]) then [SmallSphere(n, draws[n])] else [])
  {
  }

  /**
    * The scene has between 4 and 488 spheres: the ground first, the three radius-1 spheres
    * last, and radius-0.2 spheres clear of `(4, 0.2, 0)` between them.
    */
  lemma SceneShape(sqrt: real -> real, draws: seq<CellDraws>, world: seq<Sphere<Material>>)
    requires IsSqrt(sqrt) && |draws| == CELLS
    requires world == [Ground] + SmallSpheres(sqrt, draws, CELLS) + [GlassBall, DiffuseBall, MetalBall]
    ensures 4 <= |world| <= 488
    ensures world[0] == Ground && world[0].radius == 1000.0
    ensures world[|world| - 3].radius == 1.0 && world[|world| - 2].radius == 1.0 && world[|world| - 1].radius == 1.0
    ensures forall k :: 1 <= k < |world| - 3 ==>
      world[k].radius == 0.2 && world[k].center.y == 0.2 && LengthSquared(Sub(world[k].center, CLEARING)) > 0.81
  {
    SmallSpheresShape(sqrt, draws, CELLS);
    var small := SmallSpheres(sqrt, draws, CELLS);
    forall k | 1 <= k < |world| - 3
      ensures world[k].radius == 0.2 && world[k].center.y == 0.2 && LengthSquared(Sub(world[k].center, CLEARING)) > 0.81
    {
      assert world[k] == small[k - 1];
      assert small[k - 1] in small;
    }
  }

  // ---------------------------------------------------------------- pixel values

  /** The `reduce` of the samples with `+` from `Vec3::default()`, taken left to right. */
  function Sum(samples: seq<Vec3>): Vec3
  {
    if |samples| == 0 then Default()
    else Add(Sum(samples[..|samples| - 1]), samples[|samples| - 1])
  }

  /** The sum of `n` copies of one colour is `n` times it. */
  lemma {:induction false} SumOfCopies(c: Vec3, samples: seq<Vec3>)
    requires forall k :: 0 <= k < |samples| ==> samples[k] == c
    ensures Sum(samples) == Scale(|samples| as real, c)
  {
    if |samples| > 0 {
      SumOfCopies(c, samples[..|samples| - 1]);
    }
  }

  /** A sum of `n` colours of the unit cube has every channel between 0 and `n`. */
  lemma {:induction false} SumBounded(samples: seq<Vec3>)
    requires forall k :: 0 <= k < |samples| ==> Rendering.InUnitCube(samples[k])
    ensures var s := Sum(samples);
      0.0 <= s.x <= |samples| as real && 0.0 <= s.y <= |samples| as real && 0.0 <= s.z <= |samples| as real
  {
    if |samples| > 0 {
      SumBounded(samples[..|samples| - 1]);
    }
  }

  /** The average of the samples, the sum divided by their number. */
  function Average(samples: seq<Vec3>): (r: Vec3)
    requires 0 < |samples|
  {
    Div(Sum(samples), |samples| as real)
  }

  /** Averaging copies of one colour gives that colour. */
  lemma AverageOfCopies(c: Vec3, samples: seq<Vec3>)
    requires 0 < |samples| && forall k :: 0 <= k < |samples| ==> samples[k] == c
    ensures Average(samples) == c
  {
    var n := |samples| as real;
    SumOfCopies(c, samples);
    ScaleInverse(n, c);
  }

  /** Averaging colours of the unit cube stays in the cube. */
  lemma AverageInUnitCube(samples: seq<Vec3>)
    requires 0 < |samples| && forall k :: 0 <= k < |samples| ==> Rendering.InUnitCube(samples[k])
    ensures Rendering.InUnitCube(Average(samples))
  {
    var n := |samples| as real;
    SumBounded(samples);
    var s := Sum(samples);
    DivideBound(s.x, n);
    DivideBound(s.y, n);
    DivideBound(s.z, n);
  }

  /** A number between 0 and `n` scaled by `1/n` lies between 0 and 1. */
  lemma DivideBound(a: real, n: real)
    requires 0.0 < n && 0.0 <= a <= n
    ensures 0.0 <= a * (1.0 / n) <= 1.0
  {
    assert a * (1.0 / n) == a / n;
  }

  /** The value of one pixel: the average of its samples raised to `1 / GAMMA` by `powf`. */
  function PixelValue(powf: (real, real) -> real, samples: seq<Vec3>): Vec3
    requires 0 < |samples|
  {
    Pow(powf, Average(samples), 1.0 / GAMMA)
  }

  /** The camera of `main`: from `(13, 2, 3)` towards the origin, aperture 0.1, focus distance 10. */
  function MainCamera(sqrt: real -> real, tan: real -> real, pi: real): (c: Cameras.Camera)
    requires IsSqrt(sqrt)
    ensures Cameras.Focused(c) && c.origin == Vec3(13.0, 2.0, 3.0) && c.lensRadius == 0.05
  {
    Cameras.UpNotParallel(sqrt, Vec3(13.0, 2.0, 3.0), Vec3(0.0, 0.0, 0.0));
    Cameras.NewIsFocused(sqrt, tan, pi, Vec3(13.0, 2.0, 3.0), Vec3(0.0, 0.0, 0.0), Vec3(0.0, 1.0, 0.0),
                         FIELD_OF_VIEW, ASPECT_RATIO, 0.1, 10.0);
    Cameras.New(sqrt, tan, pi, Vec3(13.0, 2.0, 3.0), Vec3(0.0, 0.0, 0.0), Vec3(0.0, 1.0, 0.0),
                FIELD_OF_VIEW, ASPECT_RATIO, 0.1, 10.0)
  }

  /** The samples of pixel `ij`, one per entry of its draws. */
  function PixelSamples<M(!new)>(sqrt: real -> real, hit: (Ray, real, real) -> Option<HitRecord<M>>,
                                 scatter: (Ray, HitRecord<M>, nat) -> Option<Scattered>, camera: Cameras.Camera,
                                 ij: (nat, nat), draws: seq<Rendering.SampleDraws>): (r: seq<Vec3>)
    requires IsSqrt(sqrt) && Rendering.KeepsDirection(scatter) && Cameras.Focused(camera)
    ensures |r| == |draws|
  {
    ImageHeightValue();
    seq(|draws|, s requires 0 <= s < |draws| =>
      Rendering.Sample(sqrt, hit, scatter, camera, ij.0, ij.1, IMAGE_HEIGHT, IMAGE_WIDTH, MAX_BOUNCE, draws[s]))
  }

  /** Pixel `x` of the image: the gamma-corrected average of its samples through the main camera. */
  function PixelColor<M(!new)>(sqrt: real -> real, tan: real -> real, pi: real, powf: (real, real) -> real,
                               hit: (Ray, real, real) -> Option<HitRecord<M>>,
                               scatter: (Ray, HitRecord<M>, nat) -> Option<Scattered>,
                               x: nat, draws: seq<Rendering.SampleDraws>): Vec3
    requires IsSqrt(sqrt) && Rendering.KeepsDirection(scatter)
    requires x < IMAGE_HEIGHT * IMAGE_WIDTH && |draws| == SAMPLES_PER_PIXEL
  {
    PixelValue(powf, PixelSamples(sqrt, hit, scatter, MainCamera(sqrt, tan, pi),
                                  Rendering.PixelIndex(x, IMAGE_HEIGHT, IMAGE_WIDTH), draws))
  }

  /**
    * The image `main` writes: `IMAGE_HEIGHT * IMAGE_WIDTH` pixels, each from its own
    * `SAMPLES_PER_PIXEL` draws.
    */
  function Image<M(!new)>(sqrt: real -> real, tan: real -> real, pi: real, powf: (real, real) -> real,
                          hit: (Ray, real, real) -> Option<HitRecord<M>>,
                          scatter: (Ray, HitRecord<M>, nat) -> Option<Scattered>,
                          draws: seq<seq<Rendering.SampleDraws>>): (r: seq<Vec3>)
    requires IsSqrt(sqrt) && Rendering.KeepsDirection(scatter)
    requires |draws| == IMAGE_HEIGHT * IMAGE_WIDTH
    requires forall x :: 0 <= x < |draws| ==> |draws[x]| == SAMPLES_PER_PIXEL
    ensures |r| == IMAGE_HEIGHT * IMAGE_WIDTH
    ensures forall x :: 0 <= x < |r| ==> r[x] == PixelColor(sqrt, tan, pi, powf, hit, scatter, x, draws[x])
  {
    seq(|draws|, x requires 0 <= x < |draws| => PixelColor(sqrt, tan, pi, powf, hit, scatter, x, draws[x]))
  }

  /**
    * When every material attenuates, each pixel's average lies in the unit cube before the
    * gamma correction.
    */
  lemma PixelAverageBounded<M(!new)>(sqrt: real -> real, hit: (Ray, real, real) -> Option<HitRecord<M>>,
                                     scatter: (Ray, HitRecord<M>, nat) -> Option<Scattered>, camera: Cameras.Camera,
                                     ij: (nat, nat), draws: seq<Rendering.SampleDraws>)
    requires IsSqrt(sqrt) && Rendering.KeepsDirection(scatter) && Rendering.AttenuatesInUnit(scatter)
    requires Cameras.Focused(camera) && 0 < |draws|
    ensures Rendering.InUnitCube(Average(PixelSamples(sqrt, hit, scatter, camera, ij, draws)))
  {
    var samples := PixelSamples(sqrt, hit, scatter, camera, ij, draws);
    ImageHeightValue();
    forall s | 0 <= s < |samples|
      ensures Rendering.InUnitCube(samples[s])
    {
      Rendering.SampleInUnitCube(sqrt, hit, scatter, camera, ij.0, ij.1, IMAGE_HEIGHT, IMAGE_WIDTH, MAX_BOUNCE, draws[s]);
    }
    AverageInUnitCube(samples);
  }
}
