/**
 * The ray type used by every other module. Its source file, `src/ray.rs`, is not
 * part of this model; the datatype below is the ray as the rest of the code uses it:
 * an origin, a direction, and the point reached after travelling `t` directions.
 */
module Rays {
  import opened Vectors

  datatype Ray = Ray(origin: Vec3, direction: Vec3)
  {
    /** `at`: the point `origin + t * direction`. */
    function At(t: real): (p: Vec3)
      ensures Sub(p, origin) == ScalarMul(t, direction)
      ensures t == 0.0 ==> p == origin
    {
      Add(origin, ScalarMul(t, direction))
    }
  }
}
