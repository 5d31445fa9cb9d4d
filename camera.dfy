/**
  * The thin-lens camera of `lib-raytracing/src/camera.rs` (the older `src/camera.rs` computes
  * the same fields under shorter names). `tan` and the constant `PI` are parameters.
  */
module Cameras {
  import opened RealArith
  import opened Transcendentals
  import opened Vectors
  import opened Rays
  import Util

  /** The camera's fields: `view_plane_vector_one`, `view_plane_vector_2`, `view_direction` are `u`, `v`, `w`. */
  datatype Camera = Camera(origin: Vec3, lowerLeftCorner: Vec3, horizontal: Vec3, vertical: Vec3,
                           u: Vec3, v: Vec3, w: Vec3, lensRadius: real)

  /** `w`: the unit vector from the target back to the eye. */
  function ViewDirection(sqrt: real -> real, lookfrom: Vec3, lookat: Vec3): (r: Vec3)
    requires IsSqrt(sqrt) && lookfrom != lookat
    ensures LengthSquared(r) == 1.0
  {
    assert Sub(lookfrom, lookat) != Default();
    UnitVector(sqrt, Sub(lookfrom, lookat))
  }

  /** The eye differs from the target and `view_up` is not parallel to the view direction. */
  predicate NonDegenerate(sqrt: real -> real, lookfrom: Vec3, lookat: Vec3, viewUp: Vec3)
    requires IsSqrt(sqrt)
  {
    lookfrom != lookat && Cross(viewUp, ViewDirection(sqrt, lookfrom, lookat)) != Default()
  }

  /** `viewport_height`: twice the tangent of half the vertical field of view. */
  function ViewportHeight(tan: real -> real, pi: real, verticalFieldOfViewDeg: real): (r: real)
    ensures r == 2.0 * tan(Util.DegreesToRadians(pi, verticalFieldOfViewDeg) / 2.0)
  {
    var theta := Util.DegreesToRadians(pi, verticalFieldOfViewDeg);
    var h := tan(theta / 2.0);
    2.0 * h
  }

  /**
    * `Camera::new`: the eye at `lookfrom`, an orthonormal basis `u`, `v`, `w` with `w`
    * pointing back from `lookat`, a viewport `aspect_ratio` times wider than high spanned by
    * `horizontal` and `vertical` on the focus plane, and a lens of half the aperture.
    */
  function New(sqrt: real -> real, tan: real -> real, pi: real, lookfrom: Vec3, lookat: Vec3, viewUp: Vec3,
               verticalFieldOfViewDeg: real, aspectRatio: real, aperture: real, focusDist: real): (r: Camera)
    requires IsSqrt(sqrt) && NonDegenerate(sqrt, lookfrom, lookat, viewUp)
    ensures r.origin == lookfrom && r.lensRadius * 2.0 == aperture
    ensures r.w == ViewDirection(sqrt, lookfrom, lookat)
    ensures r.horizontal == Scale(focusDist * (aspectRatio * ViewportHeight(tan, pi, verticalFieldOfViewDeg)), r.u)
    ensures r.vertical == Scale(focusDist * ViewportHeight(tan, pi, verticalFieldOfViewDeg), r.v)
    ensures LengthSquared(r.u) == 1.0 && LengthSquared(r.v) == 1.0 && LengthSquared(r.w) == 1.0
    ensures Dot(r.u, r.w) == 0.0 && Dot(r.v, r.w) == 0.0 && Dot(r.u, r.v) == 0.0
  {
    var viewportHeight := ViewportHeight(tan, pi, verticalFieldOfViewDeg);
    var viewportWidth := aspectRatio * viewportHeight;
    var w := ViewDirection(sqrt, lookfrom, lookat);
    var u := UnitVector(sqrt, Cross(viewUp, w));
    var v := Cross(w, u);
    OrthonormalBasis(sqrt, viewUp, w, u, v);
    Camera(lookfrom,
           Sub(Sub(Sub(lookfrom, Div(Scale(focusDist * viewportWidth, u), 2.0)),
                   Div(Scale(focusDist * viewportHeight, v), 2.0)),
               Scale(focusDist, w)),
           Scale(focusDist * viewportWidth, u),
           Scale(focusDist * viewportHeight, v),
           u, v, w,
           aperture / 2.0)
  }

  /** `u = unit(view_up × w)` and `v = w × u` complete the unit vector `w` to an orthonormal basis. */
  lemma OrthonormalBasis(sqrt: real -> real, viewUp: Vec3, w: Vec3, u: Vec3, v: Vec3)
    requires IsSqrt(sqrt) && LengthSquared(w) == 1.0 && Cross(viewUp, w) != Default()
    requires u == UnitVector(sqrt, Cross(viewUp, w)) && v == Cross(w, u)
    ensures LengthSquared(u) == 1.0 && LengthSquared(v) == 1.0
    ensures Dot(u, w) == 0.0 && Dot(v, w) == 0.0 && Dot(u, v) == 0.0
  {
    var c := Cross(viewUp, w);
    var len := Length(sqrt, c);
    assert c == Scale(len, u);
    DotScaleLeft(len, u, w);
    assert len * Dot(u, w) == 0.0;
    ProductZero(Dot(u, w), len);
    Lagrange(w, u);
    assert Square(Dot(w, u)) == 0.0;
  }

  /** The point of the focus plane that viewport coordinates `(s, t)` name. */
  function Target(camera: Camera, s: real, t: real): Vec3
  {
    Add(Add(camera.lowerLeftCorner, Scale(s, camera.horizontal)), Scale(t, camera.vertical))
  }

  /**
    * `shoot_ray`: the ray from a point of the lens (the eye moved by `lens_radius` times the
    * disk sample along `u` and `v`) to the target `(s, t)` on the focus plane. Whatever the
    * sample, origin plus direction is that target; with a lens of radius zero the ray starts
    * at the eye.
    */
  function ShootRay(camera: Camera, s: real, t: real, inUnitDisk: Vec3): (r: Ray)
    ensures Add(r.origin, r.direction) == Target(camera, s, t)
    ensures camera.lensRadius == 0.0 ==> r.origin == camera.origin
  {
    var randomXyPlaneOffset := Scale(camera.lensRadius, inUnitDisk);
    var offsetVector := Add(Scale(randomXyPlaneOffset.x, camera.u), Scale(randomXyPlaneOffset.y, camera.v));
    var viewportTarget := Target(camera, s, t);
    Ray(Add(camera.origin, offsetVector), Sub(Sub(viewportTarget, camera.origin), offsetVector))
  }

  /** The centre of the viewport lies on the view axis, `focus_dist` in front of the eye. */
  lemma ViewportCentre(sqrt: real -> real, tan: real -> real, pi: real, lookfrom: Vec3, lookat: Vec3, viewUp: Vec3,
                       verticalFieldOfViewDeg: real, aspectRatio: real, aperture: real, focusDist: real)
    requires IsSqrt(sqrt) && NonDegenerate(sqrt, lookfrom, lookat, viewUp)
    ensures
      var c := New(sqrt, tan, pi, lookfrom, lookat, viewUp, verticalFieldOfViewDeg, aspectRatio, aperture, focusDist);
      Target(c, 0.5, 0.5) == Sub(lookfrom, Scale(focusDist, c.w))
  {
  }

  /**
    * Every ray of a constructed camera, whatever the lens sample, reaches the focus plane at
    * the viewport centre moved by `s - 1/2` of `horizontal` and `t - 1/2` of `vertical`.
    */
  lemma RayThroughFocusPlane(sqrt: real -> real, tan: real -> real, pi: real, lookfrom: Vec3, lookat: Vec3,
                             viewUp: Vec3, verticalFieldOfViewDeg: real, aspectRatio: real, aperture: real,
                             focusDist: real, s: real, t: real, inUnitDisk: Vec3)
    requires IsSqrt(sqrt) && NonDegenerate(sqrt, lookfrom, lookat, viewUp)
    ensures
      var c := New(sqrt, tan, pi, lookfrom, lookat, viewUp, verticalFieldOfViewDeg, aspectRatio, aperture, focusDist);
      var r := ShootRay(c, s, t, inUnitDisk);
      Add(r.origin, r.direction) ==
        Add(Add(Sub(lookfrom, Scale(focusDist, c.w)), Scale(s - 0.5, c.horizontal)), Scale(t - 0.5, c.vertical))
  {
  }

  /** A camera with aperture 0 is a pinhole: every ray starts at `lookfrom`. */
  lemma PinholeCamera(sqrt: real -> real, tan: real -> real, pi: real, lookfrom: Vec3, lookat: Vec3, viewUp: Vec3,
                      verticalFieldOfViewDeg: real, aspectRatio: real, focusDist: real, s: real, t: real,
                      inUnitDisk: Vec3)
    requires IsSqrt(sqrt) && NonDegenerate(sqrt, lookfrom, lookat, viewUp)
    ensures
      var c := New(sqrt, tan, pi, lookfrom, lookat, viewUp, verticalFieldOfViewDeg, aspectRatio, 0.0, focusDist);
      ShootRay(c, s, t, inUnitDisk).origin == lookfrom
  {
  }

  /**
    * The viewport spans the plane at a fixed non-zero offset from the eye along `w`: the
    * basis vectors and the viewport edges are orthogonal to `w`, the corner is not level
    * with the eye.
    */
  predicate Focused(c: Camera)
  {
    Dot(c.u, c.w) == 0.0 && Dot(c.v, c.w) == 0.0 &&
    Dot(c.horizontal, c.w) == 0.0 && Dot(c.vertical, c.w) == 0.0 &&
    Dot(Sub(c.lowerLeftCorner, c.origin), c.w) != 0.0
  }

  /** A camera focused at a non-zero distance has its viewport `focus_dist` in front of the eye. */
  lemma NewIsFocused(sqrt: real -> real, tan: real -> real, pi: real, lookfrom: Vec3, lookat: Vec3, viewUp: Vec3,
                     verticalFieldOfViewDeg: real, aspectRatio: real, aperture: real, focusDist: real)
    requires IsSqrt(sqrt) && NonDegenerate(sqrt, lookfrom, lookat, viewUp) && focusDist != 0.0
    ensures
      var c := New(sqrt, tan, pi, lookfrom, lookat, viewUp, verticalFieldOfViewDeg, aspectRatio, aperture, focusDist);
      Focused(c) && Dot(Sub(c.lowerLeftCorner, c.origin), c.w) == -focusDist
  {
    var c := New(sqrt, tan, pi, lookfrom, lookat, viewUp, verticalFieldOfViewDeg, aspectRatio, aperture, focusDist);
    var a :| a == focusDist * (aspectRatio * ViewportHeight(tan, pi, verticalFieldOfViewDeg));
    var b :| b == focusDist * ViewportHeight(tan, pi, verticalFieldOfViewDeg);
    assert c.horizontal == Scale(a, c.u) && c.vertical == Scale(b, c.v);
    assert Dot(c.horizontal, c.w) == 0.0 by {
      DotScaleLeft(a, c.u, c.w);
    }
    assert Dot(c.vertical, c.w) == 0.0 by {
      DotScaleLeft(b, c.v, c.w);
    }
    LengthSquaredIsDot(c.w);
    assert c.lowerLeftCorner ==
      Sub(Sub(Sub(lookfrom, Div(Scale(a, c.u), 2.0)), Div(Scale(b, c.v), 2.0)), Scale(focusDist, c.w));
    CornerOffset(lookfrom, c.u, c.v, c.w, a, b, focusDist);
  }

  /** The corner's offset from the eye along `w`, for an orthonormal `w`. */
  lemma CornerOffset(o: Vec3, u: Vec3, v: Vec3, w: Vec3, a: real, b: real, f: real)
    requires Dot(u, w) == 0.0 && Dot(v, w) == 0.0 && Dot(w, w) == 1.0
    ensures Dot(Sub(Sub(Sub(Sub(o, Div(Scale(a, u), 2.0)), Div(Scale(b, v), 2.0)), Scale(f, w)), o), w) == -f
  {
    var corner := Sub(Sub(Sub(o, Div(Scale(a, u), 2.0)), Div(Scale(b, v), 2.0)), Scale(f, w));
    assert Sub(corner, o) == Add(Add(Scale(-a / 2.0, u), Scale(-b / 2.0, v)), Scale(-f, w));
    DotAddLeft(Add(Scale(-a / 2.0, u), Scale(-b / 2.0, v)), Scale(-f, w), w);
    DotAddLeft(Scale(-a / 2.0, u), Scale(-b / 2.0, v), w);
    DotScaleLeft(-a / 2.0, u, w);
    DotScaleLeft(-b / 2.0, v, w);
    DotScaleLeft(-f, w, w);
  }

  /**
    * Every ray of a focused camera heads into the view: its component along `w` is the
    * corner's, whatever the viewport coordinates and the lens sample, so it is never zero.
    */
  lemma RayHeadsIntoView(c: Camera, s: real, t: real, inUnitDisk: Vec3)
    requires Focused(c)
    ensures Dot(ShootRay(c, s, t, inUnitDisk).direction, c.w) == Dot(Sub(c.lowerLeftCorner, c.origin), c.w)
    ensures ShootRay(c, s, t, inUnitDisk).direction != Default()
  {
    var r := ShootRay(c, s, t, inUnitDisk);
    var rd := Scale(c.lensRadius, inUnitDisk);
    var offset := Add(Scale(rd.x, c.u), Scale(rd.y, c.v));
    var along := Add(Scale(s, c.horizontal), Scale(t, c.vertical));
    assert r.direction == Add(Sub(c.lowerLeftCorner, c.origin), Sub(along, offset));
    DotScaleLeft(rd.x, c.u, c.w);
    DotScaleLeft(rd.y, c.v, c.w);
    DotAddLeft(Scale(rd.x, c.u), Scale(rd.y, c.v), c.w);
    DotScaleLeft(s, c.horizontal, c.w);
    DotScaleLeft(t, c.vertical, c.w);
    DotAddLeft(Scale(s, c.horizontal), Scale(t, c.vertical), c.w);
    DotSub(along, offset, c.w);
    DotAddLeft(Sub(c.lowerLeftCorner, c.origin), Sub(along, offset), c.w);
    DotZeroLeft(c.w);
  }

  /**
    * `Camera::default`: the eye at `(0, 1, 10)` looking at the origin with `y` up, a 20 degree
    * field of view, a 16:9 viewport, aperture 0.1 and focus distance 10.
    */
  function DefaultCamera(sqrt: real -> real, tan: real -> real, pi: real): (r: Camera)
    requires IsSqrt(sqrt)
    ensures r.origin == Vec3(0.0, 1.0, 10.0) && r.lensRadius == 0.05
    ensures Dot(r.u, r.w) == 0.0 && Dot(r.v, r.w) == 0.0 && Dot(r.u, r.v) == 0.0
  {
    DefaultIsNonDegenerate(sqrt);
    New(sqrt, tan, pi, Vec3(0.0, 1.0, 10.0), Vec3(0.0, 0.0, 0.0), Vec3(0.0, 1.0, 0.0), 20.0, 16.0 / 9.0, 0.1, 10.0)
  }

  /** The default camera is well defined. */
  lemma DefaultIsNonDegenerate(sqrt: real -> real)
    requires IsSqrt(sqrt)
    ensures NonDegenerate(sqrt, Vec3(0.0, 1.0, 10.0), Vec3(0.0, 0.0, 0.0), Vec3(0.0, 1.0, 0.0))
  {
    UpNotParallel(sqrt, Vec3(0.0, 1.0, 10.0), Vec3(0.0, 0.0, 0.0));
  }

  /**
    * When the eye and the target differ in depth, the view direction has a non-zero `z`
    * component, so `y` up is not parallel to it.
    */
  lemma UpNotParallel(sqrt: real -> real, lookfrom: Vec3, lookat: Vec3)
    requires IsSqrt(sqrt) && lookfrom.z != lookat.z
    ensures NonDegenerate(sqrt, lookfrom, lookat, Vec3(0.0, 1.0, 0.0))
  {
    var d := Sub(lookfrom, lookat);
    assert d != Default();
    var w := ViewDirection(sqrt, lookfrom, lookat);
    var len := Length(sqrt, d);
    ScaledComponent(len, w, d);
    CrossWithUp(w);
  }

  lemma ScaledComponent(len: real, w: Vec3, d: Vec3)
    requires d == Scale(len, w) && d.z != 0.0
    ensures w.z != 0.0
  {
  }

  lemma CrossWithUp(w: Vec3)
    ensures Cross(Vec3(0.0, 1.0, 0.0), w) == Vec3(w.z, 0.0, -w.x)
  {
  }
}
