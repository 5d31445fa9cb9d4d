# A verified model of a small Rust path tracer

This project models the deterministic core of `rust-raytracing` in Dafny. That core is a Monte-Carlo path tracer. The repository holds two snapshots of it:

- an older binary under `src/`, which writes a PPM image;
- a newer library under `lib-raytracing/`, with a windowed front end under `winit-example/` that refines the picture one sample per pixel per frame.

The model covers:

- **Vectors.** The vector algebra of both snapshots, including the in-place compound-assignment operators and the rejection-sampling loops.
- **Intersections.** The Möller–Trumbore triangle test and the quadratic sphere test.
- **Materials.** The Lambertian, metal (with and without fuzz) and dielectric scatter functions, the last with Snell's law and Schlick's reflectance.
- **Camera.** The thin-lens camera.
- **Integrator and drivers.** The recursive integrator and the pixel-index mapping, sample averaging and gamma correction.
- **Scenes.** The random scene builder.
- **Front end.** The progressive accumulation and sample-counter state machine of the windowed front end, and its RGBA frame copy.
- **Scene input.** The Wavefront OBJ line reader and the MTL material table.

Modelling choices:

- `f64` is modelled as `real`, so every identity below is exact.
- `u32` and `usize` are modelled as `nat`.
- `sqrt`, `tan`, `powf` and `PI` are parameters. The only property assumed is that `sqrt` is the non-negative square root of non-negative arguments (`Transcendentals.IsSqrt`).
- Every call of `random()` is replaced by an explicit draw.
- A rejection loop reads its attempts from a finite sequence of draws and answers `None` when they run out.
- A Rust panic is an `Err` of a `Result`.
- Scene intersection (`HittableList::hit`) and material dispatch are function parameters of the integrator.
- `set_face_normal` is a parameter of the sphere test.
- `Triangle::new` is the constructor of `Triangles.Triangle`.
- `str::parse` is a partial function passed as a parameter.
- The two snapshots' `Camera` and their `raytrace` (`lib-raytracing/src/lib.rs`) and `ray_color` (`src/main.rs`) compute the same values, so each is modelled once. The older `src/camera.rs` computes the same fields under shorter names (`u`, `v`, `w`), has public fields and no `impl Default`, and converts degrees with `util::degrees_to_radians` instead of a macro. The integrator's two copies differ only in names and borrows. The rows below cite both copies.

Edge cases of the code that the model keeps:

- The sphere test rejects a discriminant `<= 0`, so tangent rays miss.
- The sphere test accepts roots in the closed range `[t_min, t_max]`.
- The triangle test accepts only the open range `(t_min, t_max)`, and also requires `t > EPSILON`.
- `write_color` can print 256 for a saturated channel.
- The frame copy of the windowed front end saturates at 255.

## Model

| member | source | states |
|---|---|---|
| Vectors.Default | lib-raytracing/src/vec3.rs:131-139 | the default vector is `near_zero` |
| Vectors.DefaultIsIdentity | lib-raytracing/src/vec3.rs:131-139 | the default vector is the zero vector: adding it changes nothing, and scaling it or taking its product with any colour gives it back |
| Vectors.Negate | lib-raytracing/src/vec3.rs:25-27 | `v + negate(v)` is the zero vector |
| Vectors.NegateFlips | lib-raytracing/src/vec3.rs:25-27 | negation keeps the length, and it changes every non-zero vector |
| Vectors.LengthSquared | lib-raytracing/src/vec3.rs:29-31 | `length_squared` is never negative |
| Vectors.LengthSquaredIsDot | lib-raytracing/src/vec3.rs:267-274 | `dot(a, a) == length_squared(a)` |
| Vectors.LengthSquaredZero | lib-raytracing/src/vec3.rs:29-31 | `length_squared` is zero exactly for the zero vector |
| Vectors.Cross | lib-raytracing/src/vec3.rs:41-47 | `cross(u, v)` is orthogonal to `u` and to `v` |
| Vectors.Lagrange | lib-raytracing/src/vec3.rs:37-47 | `|u|²·|v|² == dot(u,v)² + |cross(u,v)|²` (Lagrange's identity) |
| Vectors.DotOfUnitsBounded | lib-raytracing/src/vec3.rs:37-39 | the dot product of two unit vectors lies in [-1, 1] |
| Vectors.UnitVector | lib-raytracing/src/vec3.rs:49-51 | for a non-zero vector: the result has length 1, the length is positive, and the vector is its length times the result |
| Vectors.ScaleInverse | lib-raytracing/src/vec3.rs:221-227 | dividing by `k` (multiplying by `1/k`) and then scaling by `k` restores the vector |
| Vectors.ReflectAgainstNormal | lib-raytracing/src/vec3.rs:96-98 | for a unit normal: `dot(reflect(v,n), n) == -dot(v,n)` |
| Vectors.ReflectInvolution | lib-raytracing/src/vec3.rs:96-98 | for a unit normal: `reflect(reflect(v,n),n) == v` |
| Vectors.ReflectPreservesLength | lib-raytracing/src/vec3.rs:96-98 | for a unit normal, reflection keeps the length |
| Vectors.RefractOpposesNormal | lib-raytracing/src/vec3.rs:100-113 | the perpendicular part of `refract` is orthogonal to the unit normal, and the result never points to the normal's side |
| Vectors.Vec3Cell.AddAssign | lib-raytracing/src/vec3.rs:141-147 | the place now holds the componentwise sum |
| Vectors.Vec3Cell.MulAssign | lib-raytracing/src/vec3.rs:149-155 | every component is scaled by the factor |
| Vectors.Vec3Cell.DivAssign | lib-raytracing/src/vec3.rs:157-161 | the effect is `mul_assign(1/rhs)`, i.e. division by `rhs` |
| Sampling.RandomRangeVec | lib-raytracing/src/vec3.rs:57-63 | with draws in [0,1) and `min < max`, every component lies in `[min, max)` |
| Sampling.RandomInUnitSphere | lib-raytracing/src/vec3.rs:65-74 | the answer is the first candidate with `length_squared < 1`; all earlier ones had `>= 1`; there is an answer iff some attempt is accepted |
| Sampling.RandomUnitVector | lib-raytracing/src/vec3.rs:76-78 | the result has length 1, and the sample is its positive length times the result, so both point the same way |
| Sampling.RandomInHemisphere | lib-raytracing/src/vec3.rs:80-87 | the result is the sample or its negation, it has `dot(result, n) >= 0`, and it keeps the length |
| Sampling.RandomInUnitDisk | lib-raytracing/src/vec3.rs:115-128 | the answer has `z == 0` and `length_squared < 1`, and it is the first accepted candidate |
| LegacyVectors.Negate | src/vec3.rs:21-27 | every component is multiplied by -1; the same value as the newer `negate` |
| LegacyVectors.LengthSquared | src/vec3.rs:29-31 | the value equals the newer `length_squared`, is `>= 0`, and is zero exactly for the zero vector |
| LegacyVectors.Length | src/vec3.rs:33-35 | a non-negative number whose square is `length_squared` |
| LegacyVectors.Default | src/vec3.rs:38-46 | the zero vector, of `length_squared` 0 |
| LegacyVectors.Vec3Cell.AddAssign | src/vec3.rs:48-54 | `self` becomes the componentwise sum; `other` is only read |
| LegacyVectors.Vec3Cell.MulAssign | src/vec3.rs:56-62 | every component of `self` is scaled by `fact` |
| LegacyVectors.Vec3Cell.DivAssign | src/vec3.rs:64-68 | exactly the effect of `mul_assign(1/rhs)` |
| Util.Clamp | src/util.rs:44-52 | the result lies in `[min, max]` when `min <= max`; `x` inside the range is returned unchanged; below it, `min` is returned; above it, `max` |
| Util.ClampIdempotent | src/util.rs:44-52 | clamping twice is clamping once |
| Util.RandomRange | src/util.rs:40-42 | a draw in [0,1) with `min < max` gives a value in `[min, max)` |
| Util.DegreesToRadians | src/util.rs:31-33 | `r * 180 == degrees * PI` |
| Util.DegreesToRadiansLinear | src/util.rs:31-33 | 0 maps to 0, 180 maps to `PI`, and the map is additive |
| Util.Round | src/util.rs:19-21 | `f64::round`: within 0.5 of the argument, with halves rounded away from zero |
| Util.Channel | src/util.rs:10-21 | a printed channel lies in [0, 256] |
| Util.ChannelCanReach256 | src/util.rs:19-21 | a saturated channel prints as 256, because the `as i32` cast does not saturate |
| Util.ChannelOfBlack | src/util.rs:10-21 | a zero channel prints as 0 |
| Util.ColorLine | src/util.rs:17-22 | exactly three integers per pixel, each in [0, 256] |
| Util.ColorWriter.WriteColor | src/util.rs:5-26 | the output grows by exactly the pixel's three channel values, in r, g, b order |
| Rays.At | src/objects/sphere.rs:16 | `at(t) - origin == t * direction` |
| Triangles.SurfaceNormal | lib-raytracing/src/objects/triangle.rs:17-21 | `get_surface_normal` is orthogonal to both edges leaving `a` |
| Triangles.Hit | lib-raytracing/src/objects/triangle.rs:25-63 | returns `None` in each case: a ray parallel within EPSILON; `u` outside `[-EPSILON, 1+EPSILON]`; `v < -EPSILON`; or `u + v > 1`. A hit has `EPSILON < t`, `t_min < t < t_max`, `point == at(t)`, `distance == t`, the fixed surface normal and `front_face == false`. Every ray passing all tests hits |
| Triangles.DeterminantIsNormalComponent | lib-raytracing/src/objects/triangle.rs:30-35 | the determinant is minus the ray direction's component along the surface normal, so "parallel" means "parallel to the plane" |
| Triangles.HitIsBarycentric | lib-raytracing/src/objects/triangle.rs:37-56 | a hit point equals `a + u(b-a) + v(c-a)`, with the accepted barycentric bounds, and it lies in the triangle's plane |
| Triangles.SolvesRayTriangleSystem | lib-raytracing/src/objects/triangle.rs:37-51 | Cramer's rule as written solves `origin + t·dir == a + u(b-a) + v(c-a)` |
| Spheres.Hit | src/objects/sphere.rs:15-55 | a discriminant `<= 0` misses. Otherwise the smaller root is taken when it lies in `[t_min, t_max]`, else the larger root when it does, else `None`. A hit has `point == at(t)`, the sphere's material, and the face/normal `set_face_normal` gives for `(at(t) - center)/radius` |
| Spheres.PositiveDiscriminant | src/objects/sphere.rs:28-35 | a positive discriminant implies `a > 0` and a non-zero radius, so both divisions are defined |
| Spheres.QuadAIsLengthSquared | src/objects/sphere.rs:25 | `a == length_squared(direction)`, zero exactly for a zero direction |
| Spheres.ZeroDirectionDiscriminant | src/objects/sphere.rs:24-28 | a zero direction makes the discriminant 0 |
| Spheres.ZeroDirectionMisses | src/objects/sphere.rs:24-31 | a zero direction never hits, so there is no division by zero |
| Spheres.PointSphereDiscriminant | src/objects/sphere.rs:26-28 | a sphere of radius 0 has a discriminant `<= 0` |
| Spheres.ZeroRadiusMisses | src/objects/sphere.rs:26-31 | a sphere of radius 0 is never hit, so the normal's division is defined |
| Spheres.RootsOrdered | src/objects/sphere.rs:32-35 | `t_minus < t_plus` |
| Spheres.RootSolvesQuadratic | src/objects/sphere.rs:16-35 | both roots solve `a t² + 2 b t + c == 0`, i.e. `|at(t) - center|² == radius²` |
| Spheres.HitIsOnSurface | src/objects/sphere.rs:44-50 | a hit point lies on the sphere, and the outward normal has length 1 |
| Spheres.UnitOutwardNormal | src/objects/sphere.rs:44 | `(p - center)/radius` has length 1 for `p` on the sphere |
| LambertianScatter.Scatter | src/materials/lambertian.rs:16-23 | always `Some`, with attenuation `color` and origin `record.point`. The direction is `normal + sample` unless that is `near_zero`, and then `normal`. A normal that is not `near_zero` never gives a `near_zero` direction |
| MetalScatter.Scatter | lib-raytracing/src/materials/metal.rs:13-22 | `Some` iff the fuzzed reflection has `dot(direction, normal) > 0`; then the attenuation is `color` and the ray is `(point, reflect(unit(dir), n) + fuzz·sample)` |
| MetalScatter.ReflectedLeavesIff | lib-raytracing/src/materials/metal.rs:13-18 | for a unit normal, the reflection leaves the surface iff the incoming direction meets it (`dot(dir, n) < 0`) |
| MetalScatter.FuzzlessScatterIff | lib-raytracing/src/materials/metal.rs:13-22 | with `fuzz == 0` and a unit normal: `Some` iff `dot(ray.direction, normal) < 0` |
| LegacyMetalScatter.Scatter | src/materials/metal.rs:16-22 | `Some` iff `dot(reflect(unit(dir), n), n) > 0`; then the attenuation is `color`, and the ray starts at the point along the plain reflection |
| LegacyMetalScatter.ScatterIff | src/materials/metal.rs:16-18 | for a unit normal: `Some` iff `dot(ray.direction, normal) < 0` |
| LegacyMetalScatter.IsFuzzlessMetal | src/materials/metal.rs:16-22 | the older metal equals the newer metal with `fuzz == 0`, whatever the sample |
| DielectricScatter.RefractionRatio | src/materials/dielectric.rs:13-17 | `1/index` on the front face, `index` on the back face |
| DielectricScatter.Pow5 | src/materials/dielectric.rs:42 | `powi(5)` maps [0,1] into [0,1] |
| DielectricScatter.NormalReflectanceInUnit | src/materials/dielectric.rs:39-41 | `r0 = ((1-r)/(1+r))²` lies in [0,1] for `r >= 0` |
| DielectricScatter.Reflectance | src/materials/dielectric.rs:38-43 | at `cosine == 1` the result is `r0`; for `cosine` in [0,1] and `r >= 0` it lies in `[r0, 1]` |
| DielectricScatter.ReflectanceMatchedAndGrazing | src/materials/dielectric.rs:38-43 | matched media (`r == 1`) give `r0 == 0`; grazing incidence (`cosine == 0`) reflects fully |
| DielectricScatter.CosTheta | src/materials/dielectric.rs:21 | `cos_theta <= 1` always, and it is `-dot(unit, n)` when that is at most 1 |
| DielectricScatter.SinTheta | src/materials/dielectric.rs:22 | for `cos² <= 1`: `sin` lies in [0,1] and `sin² + cos² == 1` |
| DielectricScatter.Scatter | src/materials/dielectric.rs:8-35 | always `Some`, with attenuation (1,1,1), from `record.point`. Under total internal reflection it reflects whatever the draw; otherwise it reflects iff `reflectance > draw`, and else refracts |
| DielectricScatter.NoTotalInternalReflection | src/materials/dielectric.rs:21-24 | with `cos² <= 1` and `ratio <= 1`, total internal reflection never triggers |
| DielectricScatter.EnteringDenserMedium | src/materials/dielectric.rs:13-30 | entering a medium of index `>= 1` through the front face of a unit normal, the direction depends only on the draw: reflect iff `reflectance > draw`, else refract |
| Cameras.ViewDirection | lib-raytracing/src/camera.rs:57 | `w = unit(lookfrom - lookat)` has length 1 |
| Cameras.New | lib-raytracing/src/camera.rs:41-74 | `origin == lookfrom`, `lens_radius == aperture/2`, `horizontal == focus_dist·aspect·height·u`, `vertical == focus_dist·height·v`, and `u, v, w` is orthonormal |
| Cameras.OrthonormalBasis | src/camera.rs:29-31 | when `lookfrom != lookat` and `view_up` is not parallel to `w`, the vectors `u, v, w` have unit length and are pairwise orthogonal |
| Cameras.ShootRay | lib-raytracing/src/camera.rs:76-86 | `origin + direction` is the viewport target, whatever the lens sample; with `lens_radius == 0`, the origin is the camera's |
| Cameras.ViewportCentre | lib-raytracing/src/camera.rs:63-68 | `lower_left + horizontal/2 + vertical/2 == lookfrom - focus_dist·w` |
| Cameras.RayThroughFocusPlane | src/camera.rs:48-54 | every generated ray passes through `lookfrom - focus_dist·w + (s-½)·horizontal + (t-½)·vertical`, for any lens sample |
| Cameras.PinholeCamera | lib-raytracing/src/camera.rs:77-84 | with `aperture == 0`, every ray starts at `lookfrom` |
| Cameras.NewIsFocused | src/camera.rs:33-40 | for `focus_dist != 0`, the corner lies `focus_dist` in front of the lens along `-w`, and `horizontal` and `vertical` are orthogonal to `w` |
| Cameras.RayHeadsIntoView | src/camera.rs:51-54 | every ray of a focused camera has the corner's depth along `w` and is never the zero vector |
| Cameras.DefaultCamera | lib-raytracing/src/camera.rs:14-38 | `Default` is at (0,1,10), has lens radius 0.05 and an orthogonal basis |
| Cameras.DefaultIsNonDegenerate | lib-raytracing/src/camera.rs:16-36 | the default arguments meet the basis' non-degeneracy condition |
| Cameras.UpNotParallel | src/camera.rs:29-30 | with `view_up = (0,1,0)`, any `lookfrom`/`lookat` differing in `z` is non-degenerate |
| Rendering.SkyBlend | lib-raytracing/src/lib.rs:49-50 | `t = 0.5(unit(dir).y + 1)` lies in [0, 1] |
| Rendering.Sky | lib-raytracing/src/lib.rs:48-52 | the sky colour lies in the unit cube |
| Rendering.SkyStraightDown | lib-raytracing/src/lib.rs:48-52 | straight down gives white |
| Rendering.SkyStraightUp | src/main.rs:37-41 | straight up gives (0.5, 0.7, 1) |
| Rendering.SkyAtHeight | src/main.rs:38-40 | the miss colour is `(1-t)·white + t·(0.5,0.7,1)` with `t` from `unit(dir).y` |
| Rendering.Raytrace | lib-raytracing/src/lib.rs:38-54 | depth 0 gives black; a miss at depth > 0 gives the sky; on a hit, an absorbing material gives black and a scattering one gives `attenuation ⊙ raytrace(scattered, depth-1)` |
| Rendering.ColorBounded | src/main.rs:25-41 | when each scatter attenuates within [0,1], every traced colour stays in the unit cube (by induction on the depth) |
| Rendering.QueriesBounded | lib-raytracing/src/lib.rs:43-45 | at most `depth` scene queries; the first is for the incoming ray; every query uses `t_min = 0.001` and `t_max = INFTY`. The query list `Rendering.Queries` follows the recursion of `Raytrace` branch for branch, by construction |
| Rendering.PixelIndex | lib-raytracing/src/lib.rs:27-28 | for `x < h·w`: `0 <= i < w`, `1 <= j <= h`, and `x == (h - j)·w + i`, so row 0 is never sampled |
| Rendering.PixelIndexInjective | src/main.rs:204-205 | distinct `x` give distinct `(i, j)` |
| Rendering.ViewportCoordinates | lib-raytracing/src/lib.rs:29-30 | `u·(w-1) == i + dx` and `v·(h-1) == j + dy` |
| Rendering.SampleInUnitCube | lib-raytracing/src/lib.rs:29-33 | one camera ray per sample, whose colour lies in the unit cube when materials attenuate |
| Rendering.RenderScene | lib-raytracing/src/lib.rs:17-36 | exactly `h·w` colours; element `x` is the sample of pixel `PixelIndex(x)` |
| MainProgram.ImageHeightValue | src/main.rs:155-157 | `IMAGE_HEIGHT == 180` |
| MainProgram.CellCoordinates | src/main.rs:65-66 | the 484 cells cover `a, b` in `-11..11`, row by row |
| MainProgram.CellOf | src/main.rs:65-66 | the cell numbering is inverted by `CellCoordinates` |
| MainProgram.CellCenter | src/main.rs:68-72 | `center.y == 0.2`, and the centre lies in its cell's `[a, a+0.9) × [b, b+0.9)` |
| MainProgram.CenterOfCell | src/main.rs:68-72 | the centre is `(a + 0.9·draw, 0.2, b + 0.9·draw)` |
| MainProgram.SmallSphereMaterial | src/main.rs:74-87 | a draw `< 0.8` gives Lambertian (product of two colours), `< 0.95` gives Metal (colour in [0.5,1), fuzz in [0,0.5)), and otherwise Dielectric(1.5) |
| MainProgram.SmallSpheresShape | src/main.rs:65-95 | at most one sphere per cell; each has radius 0.2, `center.y == 0.2`, distance > 0.9 from (4,0.2,0), and comes from a kept cell |
| MainProgram.RandomScene | winit-example/src/main.rs:27-121 | the nested loops build the ground, then the kept small spheres in cell order, then the glass, diffuse and metal balls |
| MainProgram.SceneShape | src/main.rs:45-139 | the ground at (0,-1000,0) with radius 1000 comes first, three radius-1 spheres come last, every small sphere is as above, and the count is between 4 and 488 |
| MainProgram.SumOfCopies | src/main.rs:216 | the `reduce` of `n` equal colours is `n` times the colour |
| MainProgram.SumBounded | src/main.rs:216 | a sum of `n` unit-cube colours has every channel in `[0, n]` |
| MainProgram.AverageOfCopies | src/main.rs:216-217 | averaging copies of a colour gives that colour |
| MainProgram.AverageInUnitCube | src/main.rs:216-217 | the average of unit-cube colours stays in the unit cube |
| MainProgram.MainCamera | src/main.rs:164-181 | the camera of `main` sits at (13,2,3) with lens radius 0.05 and is focused |
| MainProgram.PixelSamples | src/main.rs:206-215 | one sample per draw |
| MainProgram.Image | src/main.rs:200-220 | `IMAGE_HEIGHT·IMAGE_WIDTH` pixels, pixel `x` being `(sum of SAMPLES_PER_PIXEL samples / SAMPLES_PER_PIXEL)^(1/GAMMA)` |
| MainProgram.PixelAverageBounded | src/main.rs:206-217 | when materials attenuate, each pixel's average lies in the unit cube before gamma correction |
| Progressive.ImageHeightValue | winit-example/src/main.rs:129-131 | `IMAGE_HEIGHT == 607` (607.5 truncated) |
| Progressive.Accumulate | winit-example/src/main.rs:208-212 | the accumulated buffer has the length of the shorter of the two inputs |
| Progressive.AccumulatedIsSum | winit-example/src/main.rs:208-213 | after whole-image passes, each running sum is the `reduce` sum of the samples that position received |
| Progressive.DisplayIsPixelValue | winit-example/src/main.rs:213-218 | after `n >= 1` passes, each displayed pixel equals the gamma-corrected average `src/main.rs` computes from the same samples |
| Progressive.ChannelByte | winit-example/src/main.rs:235-237 | the byte is within 0.5 of `256·clamp(c, 0, 0.999)` unless saturated at 255; a non-positive channel gives 0 |
| Progressive.ChannelByteSaturates | winit-example/src/main.rs:235-237 | the rounding reaches 256, and the `as u8` cast clips it to 255 |
| Progressive.Rgba | winit-example/src/main.rs:234-239 | four bytes, alpha `0xff` |
| Progressive.FramedChunk | winit-example/src/main.rs:233-240 | chunk `i` of the copied frame is the RGBA of `pixels[i]` alone, with alpha 255 |
| Progressive.FrameCopy | winit-example/src/main.rs:232-242 | writes `Rgba(pixels[i])` into each of the `len/4` whole chunks; the trailing bytes are untouched; `pixels` must have at least `len/4` entries |
| Progressive.CountSettles | winit-example/src/main.rs:206-227 | after `k` events the counter is `min(k, SAMPLES_PER_PIXEL + 1)`, and then it never changes |
| Progressive.PassesMade | winit-example/src/main.rs:206-224 | an event renders iff fewer than `SAMPLES_PER_PIXEL` passes were made; exactly `min(k, SAMPLES_PER_PIXEL)` passes are made |
| Progressive.RenderLoop.constructor | winit-example/src/main.rs:178-179 | zero sums and a zero counter |
| Progressive.RenderLoop.Update | winit-example/src/main.rs:206-227 | while passes remain, it accumulates the rendered pass, counts it, and copies `(sum / count)^(1/GAMMA)` into the frame, with a divisor of at least 1. At the limit it only bumps the counter; past it nothing changes. The sums always equal the accumulated passes |
| ObjLoader.Split | lib-raytracing/src/scenes/objloader.rs:17 | at least one piece, no piece holds a space, and joining with single spaces restores the line |
| ObjLoader.SplitJoin | lib-raytracing/src/scenes/objloader.rs:17 | splitting undoes joining space-free pieces |
| ObjLoader.Coordinate | lib-raytracing/src/scenes/objloader.rs:56-58 | a coordinate is read iff the piece exists and parses; a missing piece is an index panic |
| ObjLoader.ParseVecOutcome | lib-raytracing/src/scenes/objloader.rs:51-61 | a vertex is read iff there are at least 4 pieces and pieces 1 to 3 parse; it is built from those three numbers; further pieces are ignored |
| ObjLoader.FaceIndices | lib-raytracing/src/scenes/objloader.rs:33-37 | one index per piece after the first; an unparsable piece becomes 0 |
| ObjLoader.Reference | lib-raytracing/src/scenes/objloader.rs:42-43 | a 1-based reference succeeds iff `1 <= index <= |vertices|`, giving `vertices[index - 1]` |
| ObjLoader.Fan | lib-raytracing/src/scenes/objloader.rs:39-48 | the windows from `from` on add `n - from - 1` triangles around the root, in order, iff all their references are valid |
| ObjLoader.ParseFace | lib-raytracing/src/scenes/objloader.rs:32-49 | succeeds iff there is an index, the RAW root index is below `|vertices|`, and, for 3 or more indices, all others are in `1..|vertices|`. It adds `max(0, n-2)` triangles; triangle `k` is `(vertices[idx[0]], vertices[idx[k+1]-1], vertices[idx[k+2]-1])`, all green Lambertian |
| ObjLoader.Step | lib-raytracing/src/scenes/objloader.rs:15-22 | a `v` line appends exactly one vertex; an `f` line appends its triangles and keeps the vertices; any other line changes nothing |
| ObjLoader.LoadFile | lib-raytracing/src/scenes/objloader.rs:11-29 | the loop's scene is the fold of `Step` over the readable lines; a file that cannot be opened gives an empty scene |
| ObjLoader.LoadStops | lib-raytracing/src/scenes/objloader.rs:14-24 | a panic on an earlier line ends the whole load |
| ObjLoader.LoadGrows | lib-raytracing/src/scenes/objloader.rs:19-20 | the vertex list and the scene only grow: each prefix's result is a prefix of the final one |
| ObjLoader.LoadedCornersAreVertices | lib-raytracing/src/scenes/objloader.rs:19-20 | every triangle corner of a successful load is one of the loaded vertices |
| ObjLoader.StepKeepsCorners | lib-raytracing/src/scenes/objloader.rs:38-43 | a face only references vertices already read |
| MtlLoader.ExtractedKind | lib-raytracing/src/scenes/mtlloader.rs:16-46 | Dielectric iff there is an optical density. Lambertian iff not, and both colours are present. Metal iff not, ambient and shininess are present, and diffuse is absent. `None` otherwise |
| MtlLoader.ExtractedValues | lib-raytracing/src/scenes/mtlloader.rs:17-42 | the density becomes the index whatever else is present; the Lambertian colour is `diffuse ⊙ ambient`; the metal takes the ambient colour and the unscaled shininess as fuzz |
| MtlLoader.DiffuseAloneIsNothing | lib-raytracing/src/scenes/mtlloader.rs:21-45 | a diffuse colour without an ambient one gives `None` |
| MtlLoader.LoadMaterials | lib-raytracing/src/scenes/mtlloader.rs:7-14 | one entry per material, in order, each the extracted material |

## Left out

- **File, image and window I/O.** This covers the PPM header and `BufWriter` writes, `read_lines`/`File::open`, the `winit` event loop, window, resize and escape handling, `request_redraw` and the `pixels` surface. Only the values written are modelled: the per-pixel integers of `write_color`, and the frame bytes of `frame_copy`.
- **Process concerns.** Logging, `dotenv`, and the timing with `Instant` are process concerns.
- **Parallelism.** `rayon` is modelled as a sequential, order-preserving map and a left-to-right sum. With exact reals the order of the sum does not matter.
- **Floating point.** Rounding, NaN and infinity are not modelled. `INFTY` is the exact value of `f64::MAX`.
- **Randomness.** The distribution of `random()` is not modelled, and neither is the probability that the rejection loops terminate. The loops read a finite list of attempts and answer `None` when it runs out.
- **Transcendentals.** `sqrt`, `tan`, `powf` and `PI` are parameters. Only `IsSqrt` is assumed of `sqrt`, and nothing is assumed of the others.
- **Declared but not shown.** `HittableList::hit`, `HittableList::add`, `set_face_normal` and `Triangle::new` are parameters or constructors here. So is the material dispatch `hit_record.material.scatter`: the integrator takes scatter as a parameter, so the per-material scatter functions are not wired into it.
- **Not part of this model.** `objloader::load_objects`, which `lib-raytracing/src/scenes/mod.rs` calls, is absent from `objloader.rs`, so `load_scene` and the `tobj` parser are left out. `LoadMaterials` takes `tobj` materials as values.
- **Also not part of this model.** The `degrees_to_radians!` macro and the library's `util.rs` are not shown. The library camera and the frame copy use the `src/util.rs` versions (`Util.DegreesToRadians`, `Util.Clamp`).
- **Missing in the older snapshot.** `src/vec3.rs` lacks `dot`, `cross`, `reflect` and `unit_vector`, and `src/hittable.rs` lacks the fields that `src/objects/sphere.rs` fills. The older materials and sphere use the newer vector operations and the full hit record.
- **`write_color` arity.** `src/main.rs:224` calls `write_color` with two arguments, but it takes three. The final writing loop of `main` is therefore not modelled: `MainProgram.Image` stops at the gamma-corrected pixel values, and `Util.ColorWriter.WriteColor` models `write_color` on its own.
- **Integer overflow.** The `u32` products `image_height * image_width` and the `u32` underflow of `image_width - 1` are not modelled. Widths and heights of 1 are excluded by preconditions, as is a zero-length direction passed to `unit_vector`.
- **Random scene draws.** `random_scene` draws its numbers one cell at a time. The model gives each cell one record of draws (`CellDraws`), and a record that is not kept is still consumed. The Rust code draws the material numbers only for kept cells.
- **Frame-buffer source.** The windowed front end loads its world from an OBJ file. `RenderLoop.Update` takes the rendered pass as an input (the result of `Rendering.RenderScene` for that frame's draws), so it is independent of the scene.
- Rendering.Raytrace: requires that every scatter keeps a non-zero direction (`KeepsDirection`). The Rust code has no such guard, and a zero direction would divide by a zero length in `unit_vector`.
- DielectricScatter.Scatter: requires a non-zero normal and `index` other than 0 and -1, where the Rust code would divide by zero. The random draw is read only when there is no total internal reflection (the `||` short-circuits); the model takes the draw as a parameter either way.
- Vectors.Refract: is modelled as written, with `|1 - |r_out_perp|²|` where Snell's law has a square root. Only the side of the normal it points to is proved.
- Progressive.RenderLoop.Update: `calculated_samples` is an `f64` in Rust and a `nat` here. The values stay small integers, so they are exact.
- Progressive.Accumulate: `zip` stops at the shorter buffer. `AccumulatedIsSum` covers only passes that cover the whole image.
- MainProgram.Image: pixels are sampled through `MainProgram.MainCamera`, which needs the focus distance 10 and the positions of `main`. The scene is the abstract `hit`.
