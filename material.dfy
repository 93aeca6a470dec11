/**
 * Model of `src/material.rs`: how a surface scatters an incoming ray. The only
 * material whose code is part of this model is `Lambertian`; `Metal` and
 * `Dielectric` appear in scenes as data only.
 */
module Materials {
  import opened Wrappers
  import opened Vectors
  import opened Rays
  import opened Hits

  /** A diffuse surface of colour `albedo`. */
  datatype Lambertian = Lambertian(albedo: Vec3)

  /**
   * `Lambertian::scatter`: always scatters, from the hit point, in the direction
   * of the normal plus `unitSample` (the draw of `Vec3::random_unit_vector`), with
   * attenuation `albedo`. The incoming ray is not used.
   */
  function LambertianScatter<M>(m: Lambertian, rayIn: Ray, hit: Hit<M>, unitSample: Vec3): (r: Option<(Vec3, Ray)>)
    ensures r.Some?
    ensures r.value.0 == m.albedo
    ensures r.value.1.origin == hit.point
    ensures Sub(r.value.1.direction, hit.normal) == unitSample
  {
    Some((m.albedo, Ray(hit.point, Add(hit.normal, unitSample))))
  }

  /** Scattering does not depend on the incoming ray. */
  lemma LambertianIgnoresIncoming<M>(m: Lambertian, a: Ray, b: Ray, hit: Hit<M>, unitSample: Vec3)
    ensures LambertianScatter(m, a, hit, unitSample) == LambertianScatter(m, b, hit, unitSample)
  {
  }

  /**
   * With a unit normal and a unit sample, the scattered ray leaves the surface on
   * the side the normal faces: its component along the normal is `1 + n.s`, and
   * Cauchy-Schwarz keeps `n.s` at least -1.
   */
  lemma LambertianLeavesSurface<M>(m: Lambertian, rayIn: Ray, hit: Hit<M>, unitSample: Vec3)
    requires MagSquared(hit.normal) == 1.0
    requires MagSquared(unitSample) == 1.0
    ensures Dot(LambertianScatter(m, rayIn, hit, unitSample).value.1.direction, hit.normal) >= 0.0
  {
    var n, s := hit.normal, unitSample;
    CauchySchwarz(n, s);
    assert Dot(Add(n, s), n) == MagSquared(n) + Dot(n, s);
    SquareAtMostOne(Dot(n, s));
  }

  lemma SquareAtMostOne(x: real)
    requires Square(x) <= 1.0
    ensures x >= -1.0
  {
    if x < -1.0 {
      ProductPositive(-x - 1.0, -x + 1.0, Square(x) - 1.0);
    }
  }
}
