/**
 * Model of `src/camera.rs`: a thin-lens camera. `tan` and `Vec3::normalized` are
 * parameters of `NewCamera`, and the lens sample drawn by `get_ray` is a parameter
 * of `GetRay`.
 */
module Cameras {
  import opened Vectors
  import opened Rays

  datatype Camera = Camera(origin: Vec3, lowerLeftCorner: Vec3, horizontal: Vec3, vertical: Vec3,
                           right: Vec3, up: Vec3, lensRadius: real)

  /**
   * `Camera::new`. `tanHalfFov(vfov)` stands for `(vfov * PI / 180 / 2).tan()`, and
   * `normalize` for `Vec3::normalized`.
   */
  function NewCamera(origin: Vec3, up: Vec3, forward: Vec3, vfov: real, aspectRatio: real, aperture: real,
                     focusDistance: real, tanHalfFov: real -> real, normalize: Vec3 -> Vec3): (c: Camera)
    ensures c.origin == origin && c.up == normalize(up)
    ensures c.right == Cross(normalize(up), normalize(forward))
    ensures Dot(c.right, c.up) == 0.0 && Dot(c.right, normalize(forward)) == 0.0
    ensures var viewportHeight := 2.0 * tanHalfFov(vfov);
            && c.horizontal == ScalarMul(focusDistance * (aspectRatio * viewportHeight), c.right)
            && c.vertical == ScalarMul(focusDistance * viewportHeight, c.up)
    ensures c.lensRadius == aperture / 2.0
  {
    var viewportHeight := 2.0 * tanHalfFov(vfov);
    var viewportWidth := aspectRatio * viewportHeight;
    var up := normalize(up);
    var forward := normalize(forward);
    var right := Cross(up, forward);
    var horizontal := ScalarMul(focusDistance * viewportWidth, right);
    var vertical := ScalarMul(focusDistance * viewportHeight, up);
    Camera(origin,
           Add(Sub(Sub(origin, MulScalar(horizontal, 0.5)), MulScalar(vertical, 0.5)), MulScalar(forward, focusDistance)),
           horizontal, vertical, right, up, aperture / 2.0)
  }

  /** The centre of the viewport is `focusDistance` along the normalised forward direction. */
  lemma ViewportCentre(origin: Vec3, up: Vec3, forward: Vec3, vfov: real, aspectRatio: real, aperture: real,
                       focusDistance: real, tanHalfFov: real -> real, normalize: Vec3 -> Vec3)
    ensures var c := NewCamera(origin, up, forward, vfov, aspectRatio, aperture, focusDistance, tanHalfFov, normalize);
            Add(Add(c.lowerLeftCorner, MulScalar(c.horizontal, 0.5)), MulScalar(c.vertical, 0.5)) ==
            Add(origin, MulScalar(normalize(forward), focusDistance))
  {
  }

  /** The point of the viewport at fractions `u` across and `v` up. */
  function ViewportPoint(cam: Camera, u: real, v: real): Vec3
  {
    Add(Add(cam.lowerLeftCorner, ScalarMul(u, cam.horizontal)), ScalarMul(v, cam.vertical))
  }

  /**
   * `Camera::get_ray`. `diskSample` is the draw of `Vec3::random_in_unit_disk`.
   * Whatever the sample, the ray starts on the lens and reaches the viewport point
   * for `(u, v)` at `t = 1`.
   */
  function GetRay(cam: Camera, u: real, v: real, diskSample: Vec3): (r: Ray)
    ensures Add(r.origin, r.direction) == ViewportPoint(cam, u, v)
    ensures var rd := ScalarMul(cam.lensRadius, diskSample);
            Sub(r.origin, cam.origin) == Add(MulScalar(cam.right, rd.x), MulScalar(cam.up, rd.y))
    ensures cam.lensRadius == 0.0 ==> r.origin == cam.origin
  {
    var rd := ScalarMul(cam.lensRadius, diskSample);
    var offset := Add(MulScalar(cam.right, rd.x), MulScalar(cam.up, rd.y));
    Ray(Add(cam.origin, offset),
        Sub(Sub(Add(Add(cam.lowerLeftCorner, ScalarMul(u, cam.horizontal)), ScalarMul(v, cam.vertical)), cam.origin), offset))
  }

  /** A camera ray is at its viewport point after travelling one direction length. */
  lemma RayReachesViewport(cam: Camera, u: real, v: real, diskSample: Vec3)
    ensures GetRay(cam, u, v, diskSample).At(1.0) == ViewportPoint(cam, u, v)
  {
    var r := GetRay(cam, u, v, diskSample);
    assert ScalarMul(1.0, r.direction) == r.direction;
  }

  /** With aperture 0 (a pinhole), every ray starts at the camera origin. */
  lemma PinholeCamera(origin: Vec3, up: Vec3, forward: Vec3, vfov: real, aspectRatio: real,
                      focusDistance: real, tanHalfFov: real -> real, normalize: Vec3 -> Vec3,
                      u: real, v: real, diskSample: Vec3)
    ensures var c := NewCamera(origin, up, forward, vfov, aspectRatio, 0.0, focusDistance, tanHalfFov, normalize);
            GetRay(c, u, v, diskSample).origin == origin
  {
  }
}
