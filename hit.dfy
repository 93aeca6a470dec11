/**
 * Model of `src/hit.rs`: ray-object intersection. `Hittable` is a trait in the
 * source with two implementations, `Sphere` and `HittableList`; here it is a closed
 * datatype over the material type `M`, and `hit` is the function `Intersect`.
 */
module Hits {
  import opened Wrappers
  import opened Vectors
  import opened Rays

  // ---------------------------------------------------------------------------
  // Ranges of the ray parameter `t`.

  /** The end of a `Range<f64>`: a real number, or `f64::INFINITY`. */
  datatype Bound = Finite(value: real) | Unbounded

  /** A half-open `start..end` range, as `Range::contains` reads it. */
  datatype Interval = Interval(start: real, end: Bound)
  {
    predicate Contains(t: real)
    {
      start <= t && (end.Unbounded? || t < end.value)
    }

    /** An empty or inverted range (`start >= end`) contains nothing. */
    predicate IsEmpty()
    {
      end.Finite? && end.value <= start
    }

    /** The assignment `t_range.end = e`. */
    function WithEnd(e: real): (r: Interval)
      ensures r.start == start && r.end == Finite(e)
      ensures forall t :: r.Contains(t) <==> start <= t < e
    {
      Interval(start, Finite(e))
    }
  }

  /** `e` does not lie beyond the bound `b`. */
  predicate AtMost(e: real, b: Bound)
  {
    b.Unbounded? || e <= b.value
  }

  lemma EmptyContainsNothing(range: Interval, t: real)
    ensures range.IsEmpty() ==> !range.Contains(t)
    ensures !range.IsEmpty() ==> range.Contains(range.start)
  {
  }

  // ---------------------------------------------------------------------------
  // Hit records.

  datatype Hit<M> = Hit(point: Vec3, normal: Vec3, t: real, frontFace: bool, material: M)

  /** `Hit::new`: store the normal so that it faces against the incoming ray. */
  function NewHit<M>(point: Vec3, outwardNormal: Vec3, t: real, rayDirection: Vec3, material: M): (h: Hit<M>)
    ensures h.frontFace <==> Dot(rayDirection, outwardNormal) < 0.0
    ensures h.frontFace ==> h.normal == outwardNormal
    ensures !h.frontFace ==> h.normal == Neg(outwardNormal)
    ensures Dot(rayDirection, h.normal) <= 0.0
    ensures h.point == point && h.t == t && h.material == material
  {
    var frontFace := Dot(rayDirection, outwardNormal) < 0.0;
    Hit(point, if frontFace then outwardNormal else Neg(outwardNormal), t, frontFace, material)
  }

  // ---------------------------------------------------------------------------
  // Spheres.

  /** The quadratic `a t^2 + 2 halfB t + c = 0` whose roots are the intersections. */
  datatype Quadratic = Quadratic(a: real, halfB: real, c: real)
  {
    function Discriminant(): real
    {
      Square(halfB) - a * c
    }
  }

  /** The coefficients `Sphere::hit` computes for a ray against a sphere. */
  function SphereQuadratic(center: Vec3, radius: real, ray: Ray): (q: Quadratic)
    ensures q.Discriminant() > 0.0 ==> q.a > 0.0 && radius != 0.0
  {
    var oc := Sub(ray.origin, center);
    PositiveDiscriminant(oc, ray.direction, radius);
    Quadratic(MagSquared(ray.direction), Dot(oc, ray.direction), MagSquared(oc) - Square(radius))
  }

  /**
   * A positive discriminant needs a non-zero direction and a non-zero radius:
   * by Cauchy-Schwarz the discriminant is non-positive otherwise.
   */
  lemma PositiveDiscriminant(oc: Vec3, dir: Vec3, radius: real)
    ensures var q := Quadratic(MagSquared(dir), Dot(oc, dir), MagSquared(oc) - Square(radius));
            q.Discriminant() > 0.0 ==> q.a > 0.0 && radius != 0.0
  {
    CauchySchwarz(oc, dir);
    ZeroMagnitudeOrthogonal(oc, dir);
    var q := Quadratic(MagSquared(dir), Dot(oc, dir), MagSquared(oc) - Square(radius));
    DiscriminantSign(q, MagSquared(oc), radius);
  }

  /** The scalar core of the above; `o` stands for `|oc|^2`. */
  lemma DiscriminantSign(q: Quadratic, o: real, radius: real)
    requires q.a >= 0.0 && o >= 0.0
    requires Square(q.halfB) <= o * q.a
    requires q.a == 0.0 ==> q.halfB == 0.0
    requires q.c == o - Square(radius)
    ensures q.Discriminant() > 0.0 ==> q.a > 0.0 && radius != 0.0
  {
  }

  function NearRoot(q: Quadratic, root: real): real
    requires q.a != 0.0
  {
    (-q.halfB - root) / q.a
  }

  function FarRoot(q: Quadratic, root: real): real
    requires q.a != 0.0
  {
    (-q.halfB + root) / q.a
  }

  /** The hit record `Sphere::hit` builds for parameter `t`. */
  function SurfaceHit<M>(center: Vec3, radius: real, material: M, ray: Ray, t: real): (h: Hit<M>)
    requires radius != 0.0
    ensures h.point == ray.At(t) && h.t == t && h.material == material
    ensures var outward := Div(Sub(h.point, center), radius);
            && (h.frontFace <==> Dot(ray.direction, outward) < 0.0)
            && h.normal == (if h.frontFace then outward else Neg(outward))
    ensures Dot(ray.direction, h.normal) <= 0.0
  {
    var point := ray.At(t);
    NewHit(point, Div(Sub(point, center), radius), t, ray.direction, material)
  }

  /**
   * `Sphere::hit`: with a positive discriminant, the near root if it is in range,
   * otherwise the far root if it is in range; `None` in every other case.
   * `sqrt` stands for `f64::sqrt`.
   */
  function SphereHit<M>(center: Vec3, radius: real, material: M, ray: Ray, range: Interval,
                        sqrt: real -> real): (r: Option<Hit<M>>)
    ensures var q := SphereQuadratic(center, radius, ray);
            q.Discriminant() <= 0.0 ==> r.None?
    ensures var q := SphereQuadratic(center, radius, ray);
            q.Discriminant() > 0.0 ==>
              var near := NearRoot(q, sqrt(q.Discriminant()));
              var far := FarRoot(q, sqrt(q.Discriminant()));
              && (r.None? <==> !range.Contains(near) && !range.Contains(far))
              && (range.Contains(near) ==> r == Some(SurfaceHit(center, radius, material, ray, near)))
              && (!range.Contains(near) && range.Contains(far) ==> r == Some(SurfaceHit(center, radius, material, ray, far)))
    ensures r.Some? ==> range.Contains(r.value.t)
  {
    var q := SphereQuadratic(center, radius, ray);
    if q.Discriminant() > 0.0 then
      var root := sqrt(q.Discriminant());
      var near := NearRoot(q, root);
      if range.Contains(near) then
        Some(SurfaceHit(center, radius, material, ray, near))
      else
        var far := FarRoot(q, root);
        if range.Contains(far) then Some(SurfaceHit(center, radius, material, ray, far)) else None
    else
      None
  }

  /** With `a > 0` and a non-negative square root, the near root is the smaller one. */
  lemma RootsOrdered(q: Quadratic, root: real)
    requires q.a > 0.0 && root >= 0.0
    ensures NearRoot(q, root) <= FarRoot(q, root)
  {
    var near, far := NearRoot(q, root), FarRoot(q, root);
    assert far - near == (2.0 * root) / q.a;
    DivisionNonNegative(2.0 * root, q.a);
  }

  lemma DivisionNonNegative(n: real, d: real)
    requires n >= 0.0 && d > 0.0
    ensures n / d >= 0.0
  {
  }

  /** `f64::sqrt` only returns non-negative values; the proofs below assume this of `sqrt`. */
  ghost predicate SqrtNonNeg(sqrt: real -> real)
  {
    forall d: real :: 0.0 < d ==> 0.0 <= sqrt(d)
  }

  /**
   * The near root wins whenever it is in range, so with a non-negative square
   * root the hit `Sphere::hit` returns is the smallest root in range.
   */
  lemma SphereHitNearestRoot<M>(center: Vec3, radius: real, material: M, ray: Ray, range: Interval,
                                sqrt: real -> real)
    requires SqrtNonNeg(sqrt)
    ensures var r := SphereHit(center, radius, material, ray, range, sqrt);
            var q := SphereQuadratic(center, radius, ray);
            r.Some? ==>
              && q.Discriminant() > 0.0
              && var near := NearRoot(q, sqrt(q.Discriminant()));
                 var far := FarRoot(q, sqrt(q.Discriminant()));
                 && near <= far
                 && (r.value.t == near || r.value.t == far)
                 && (range.Contains(near) ==> r.value.t <= near)
                 && (range.Contains(far) ==> r.value.t <= far)
  {
    var q := SphereQuadratic(center, radius, ray);
    if q.Discriminant() > 0.0 {
      RootsOrdered(q, sqrt(q.Discriminant()));
    }
  }

  /** `sqrt` is an exact square root on positive arguments. */
  ghost predicate SqrtExact(sqrt: real -> real)
  {
    forall d: real :: 0.0 < d ==> 0.0 <= sqrt(d) && Square(sqrt(d)) == d
  }

  /**
   * With an exact square root, a returned hit lies on the sphere and its normal
   * has unit length.
   */
  lemma SphereHitOnSurface<M>(center: Vec3, radius: real, material: M, ray: Ray, range: Interval,
                              sqrt: real -> real)
    requires SqrtExact(sqrt)
    ensures var r := SphereHit(center, radius, material, ray, range, sqrt);
            r.Some? ==> MagSquared(Sub(r.value.point, center)) == Square(radius) && MagSquared(r.value.normal) == 1.0
  {
    var r := SphereHit(center, radius, material, ray, range, sqrt);
    if r.Some? {
      var q := SphereQuadratic(center, radius, ray);
      assert q.Discriminant() > 0.0;
      var root := sqrt(q.Discriminant());
      assert Square(root) == q.Discriminant();
      var t := r.value.t;
      assert t == NearRoot(q, root) || t == FarRoot(q, root);
      assert r.value == SurfaceHit(center, radius, material, ray, t);
      RootSolves(q, root, t);
      SurfacePoint(center, radius, material, ray, t);
    }
  }

  /** At a root of the quadratic, the hit point is on the sphere and the normal is a unit vector. */
  lemma SurfacePoint<M>(center: Vec3, radius: real, material: M, ray: Ray, t: real)
    requires radius != 0.0
    requires var q := SphereQuadratic(center, radius, ray);
             q.a * Square(t) + 2.0 * q.halfB * t + q.c == 0.0
    ensures var h := SurfaceHit(center, radius, material, ray, t);
            MagSquared(Sub(h.point, center)) == Square(radius) && MagSquared(h.normal) == 1.0
  {
    var h := SurfaceHit(center, radius, material, ray, t);
    var pc := Sub(h.point, center);
    SurfaceDistance(center, radius, ray, t);
    UnitNormal(pc, radius);
  }

  lemma SurfaceDistance(center: Vec3, radius: real, ray: Ray, t: real)
    requires var q := SphereQuadratic(center, radius, ray);
             q.a * Square(t) + 2.0 * q.halfB * t + q.c == 0.0
    ensures MagSquared(Sub(ray.At(t), center)) == Square(radius)
  {
    var oc := Sub(ray.origin, center);
    assert Sub(ray.At(t), center) == Add(oc, ScalarMul(t, ray.direction));
    MagSquaredAlongRay(oc, ray.direction, t);
  }

  /** Dividing a vector of length `|radius|` by `radius` gives a unit vector, either way round. */
  lemma UnitNormal(pc: Vec3, radius: real)
    requires radius != 0.0 && MagSquared(pc) == Square(radius)
    ensures MagSquared(Div(pc, radius)) == 1.0 && MagSquared(Neg(Div(pc, radius))) == 1.0
  {
    MagSquaredScaled(pc, radius);
    DivideOut(MagSquared(pc), Square(radius), 1.0);
    MagSquaredNeg(Div(pc, radius));
  }

  /** A root of the quadratic satisfies `a t^2 + 2 halfB t + c = 0`. */
  lemma RootSolves(q: Quadratic, root: real, t: real)
    requires q.a != 0.0 && Square(root) == q.Discriminant()
    requires t == NearRoot(q, root) || t == FarRoot(q, root)
    ensures q.a * Square(t) + 2.0 * q.halfB * t + q.c == 0.0
  {
    var u := q.a * t;
    assert u + q.halfB == root || u + q.halfB == -root;
    assert Square(u + q.halfB) == Square(root);
    assert q.a * (q.a * Square(t) + 2.0 * q.halfB * t + q.c) == Square(u + q.halfB) - Square(q.halfB) + q.a * q.c;
  }

  lemma MagSquaredAlongRay(oc: Vec3, dir: Vec3, t: real)
    ensures MagSquared(Add(oc, ScalarMul(t, dir))) ==
            MagSquared(oc) + 2.0 * t * Dot(oc, dir) + Square(t) * MagSquared(dir)
  {
  }

  lemma MagSquaredScaled(v: Vec3, c: real)
    requires c != 0.0
    ensures Square(c) != 0.0
    ensures MagSquared(Div(v, c)) == MagSquared(v) / Square(c)
  {
    SquareSign(c);
    var w := Div(v, c);
    assert v == ScalarMul(c, w);
    MagSquaredScalarMul(c, w);
    DivideOut(MagSquared(v), Square(c), MagSquared(w));
  }

  lemma MagSquaredScalarMul(c: real, w: Vec3)
    ensures MagSquared(ScalarMul(c, w)) == Square(c) * MagSquared(w)
  {
  }

  lemma DivideOut(m: real, s: real, x: real)
    requires s != 0.0 && m == s * x
    ensures m / s == x
  {
  }

  lemma MagSquaredNeg(v: Vec3)
    ensures MagSquared(Neg(v)) == MagSquared(v)
  {
  }


  // ---------------------------------------------------------------------------
  // Scenes: spheres and lists of hittables.

  datatype Hittable<M> = Sphere(center: Vec3, radius: real, material: M)
                       | HittableList(hittables: seq<Hittable<M>>)

  /**
   * `Hittable::hit`. A list is scanned child by child with `Scan`, which follows
   * the loop of `HittableList::hit`.
   */
  function Intersect<M>(x: Hittable<M>, ray: Ray, range: Interval, sqrt: real -> real): (r: Option<Hit<M>>)
    ensures r.Some? ==> range.Contains(r.value.t)
    ensures range.IsEmpty() ==> r.None?
    decreases x, 1, 0
  {
    match x
    case Sphere(center, radius, material) => SphereHit(center, radius, material, ray, range, sqrt)
    case HittableList(_) => Scan(x, 0, ray, range, None, sqrt)
  }

  /**
   * The loop of `HittableList::hit` from child `i` on, with the current range and
   * hit: each child that hits becomes the current hit and cuts the range at its `t`.
   */
  function Scan<M>(x: Hittable<M>, i: nat, ray: Ray, range: Interval, current: Option<Hit<M>>,
                   sqrt: real -> real): (r: Option<Hit<M>>)
    requires x.HittableList? && i <= |x.hittables|
    ensures r == current || (r.Some? && range.Contains(r.value.t))
    decreases x, 0, |x.hittables| - i
  {
    if i == |x.hittables| then
      current
    else
      match Intersect(x.hittables[i], ray, range, sqrt)
      case Some(h) => Scan(x, i + 1, ray, range.WithEnd(h.t), Some(h), sqrt)
      case None => Scan(x, i + 1, ray, range, current, sqrt)
  }

  /** A hit, kept only if it lies before `e`. */
  function Cut<M>(o: Option<Hit<M>>, e: real): (r: Option<Hit<M>>)
    ensures r.Some? <==> o.Some? && o.value.t < e
    ensures r.Some? ==> r == o
  {
    if o.Some? && o.value.t < e then o else None
  }

  /** The current hit only matters when no later child hits. */
  lemma {:induction false} ScanCurrent<M>(x: Hittable<M>, i: nat, ray: Ray, range: Interval,
                                          current: Option<Hit<M>>, sqrt: real -> real)
    requires x.HittableList? && i <= |x.hittables|
    ensures Scan(x, i, ray, range, current, sqrt) == OrElse(Scan(x, i, ray, range, None, sqrt), current)
    decreases |x.hittables| - i
  {
    if i < |x.hittables| {
      match Intersect(x.hittables[i], ray, range, sqrt)
      case Some(h) =>
      case None => ScanCurrent(x, i + 1, ray, range, current, sqrt);
    }
  }

  /**
   * Narrowing: hitting with the range cut at `e` is hitting with the whole range
   * and dropping a hit at or beyond `e`.
   */
  lemma {:induction false} Narrowing<M>(x: Hittable<M>, ray: Ray, range: Interval, e: real, sqrt: real -> real)
    requires SqrtNonNeg(sqrt) && AtMost(e, range.end)
    ensures Intersect(x, ray, range.WithEnd(e), sqrt) == Cut(Intersect(x, ray, range, sqrt), e)
    decreases x, 1, 0
  {
    match x
    case Sphere(center, radius, material) =>
      SphereHitNearestRoot(center, radius, material, ray, range, sqrt);
    case HittableList(_) =>
      ScanNarrowing(x, 0, ray, range, e, sqrt);
  }

  lemma {:induction false} ScanNarrowing<M>(x: Hittable<M>, i: nat, ray: Ray, range: Interval, e: real,
                                            sqrt: real -> real)
    requires x.HittableList? && i <= |x.hittables|
    requires SqrtNonNeg(sqrt) && AtMost(e, range.end)
    ensures Scan(x, i, ray, range.WithEnd(e), None, sqrt) == Cut(Scan(x, i, ray, range, None, sqrt), e)
    decreases x, 0, |x.hittables| - i
  {
    if i < |x.hittables| {
      var child := x.hittables[i];
      Narrowing(child, ray, range, e, sqrt);
      match Intersect(child, ray, range, sqrt)
      case None =>
        ScanNarrowing(x, i + 1, ray, range, e, sqrt);
      case Some(h) =>
        var cut := range.WithEnd(h.t);
        assert range.WithEnd(e).WithEnd(h.t) == cut;
        ScanCurrent(x, i + 1, ray, cut, Some(h), sqrt);
        if h.t >= e {
          assert cut.WithEnd(e) == range.WithEnd(e);
          ScanNarrowing(x, i + 1, ray, cut, e, sqrt);
        }
    }
  }

  // ---------------------------------------------------------------------------
  // The loop of `HittableList::hit` and its invariant.

  /** `o` misses, or hits strictly after `t`. */
  predicate After<M>(o: Option<Hit<M>>, t: real)
  {
    o.None? || o.value.t > t
  }

  /** `o` misses, or hits no earlier than `t`. */
  predicate NotBefore<M>(o: Option<Hit<M>>, t: real)
  {
    o.None? || o.value.t >= t
  }

  /** The hit of every child against the same range. */
  function ChildHits<M>(hs: seq<Hittable<M>>, ray: Ray, range: Interval, sqrt: real -> real): (r: seq<Option<Hit<M>>>)
    ensures |r| == |hs|
    ensures forall j :: 0 <= j < |hs| ==> r[j] == Intersect(hs[j], ray, range, sqrt)
  {
    seq(|hs|, j requires 0 <= j < |hs| => Intersect(hs[j], ray, range, sqrt))
  }

  /**
   * `current` is the nearest of `hits[..i]`, and on a tie the earliest: it is
   * `None` exactly when all of them miss, and otherwise it is some `hits[k]` that
   * every earlier hit comes strictly after and no later one comes before.
   */
  ghost predicate NearestAmong<M>(hits: seq<Option<Hit<M>>>, i: nat, current: Option<Hit<M>>)
    requires i <= |hits|
  {
    && (current.None? <==> forall j :: 0 <= j < i ==> hits[j].None?)
    && (current.Some? ==>
          exists k :: 0 <= k < i && hits[k] == current &&
            (forall j :: 0 <= j < k ==> After(hits[j], current.value.t)) &&
            (forall j :: k < j < i ==> NotBefore(hits[j], current.value.t)))
  }

  /**
   * One iteration of the loop keeps `NearestAmong`: child `i`, hit against the
   * range cut at the current hit, gives its own hit when that comes strictly
   * earlier and nothing otherwise.
   */
  lemma NearestStep<M>(hits: seq<Option<Hit<M>>>, i: nat, current: Option<Hit<M>>, next: Option<Hit<M>>)
    requires i < |hits| && NearestAmong(hits, i, current)
    requires next == if current.Some? then Cut(hits[i], current.value.t) else hits[i]
    ensures NearestAmong(hits, i + 1, if next.Some? then next else current)
  {
    if next.Some? {
      NearerHit(hits, i, current, next.value);
    } else {
      NoNearerHit(hits, i, current);
    }
  }

  /** Child `i` hits before the current hit: it becomes the nearest. */
  lemma NearerHit<M>(hits: seq<Option<Hit<M>>>, i: nat, current: Option<Hit<M>>, h: Hit<M>)
    requires i < |hits| && NearestAmong(hits, i, current)
    requires hits[i] == Some(h) && (current.Some? ==> h.t < current.value.t)
    ensures NearestAmong(hits, i + 1, Some(h))
  {
    assert forall j :: 0 <= j < i ==> After(hits[j], h.t);
  }

  /** Child `i` misses, or hits no earlier than the current hit: the current hit stays. */
  lemma NoNearerHit<M>(hits: seq<Option<Hit<M>>>, i: nat, current: Option<Hit<M>>)
    requires i < |hits| && NearestAmong(hits, i, current)
    requires current.Some? ==> NotBefore(hits[i], current.value.t)
    requires current.None? ==> hits[i].None?
    ensures NearestAmong(hits, i + 1, current)
  {
    if current.Some? {
      var k :| 0 <= k < i && hits[k] == current &&
               (forall j :: 0 <= j < k ==> After(hits[j], current.value.t)) &&
               (forall j :: k < j < i ==> NotBefore(hits[j], current.value.t));
      assert forall j :: k < j < i + 1 ==> NotBefore(hits[j], current.value.t);
      assert hits[k].Some?;
    } else {
      assert forall j :: 0 <= j < i + 1 ==> hits[j].None?;
    }
  }

  /**
   * `HittableList::hit`: try every child with the current range, and on each hit
   * cut the range at the hit's `t` and keep the hit. The result is `Intersect` of
   * the list and, when `sqrt` is non-negative, the nearest child hit in `range`,
   * the earliest child winning ties; `None` exactly when no child hits.
   */
  method HittableListHit<M>(hittables: seq<Hittable<M>>, ray: Ray, range: Interval, sqrt: real -> real)
    returns (current: Option<Hit<M>>)
    ensures current == Intersect(HittableList(hittables), ray, range, sqrt)
    ensures SqrtNonNeg(sqrt) ==> NearestAmong(ChildHits(hittables, ray, range, sqrt), |hittables|, current)
  {
    ghost var list := HittableList(hittables);
    ghost var hits := ChildHits(hittables, ray, range, sqrt);
    current := None;
    var tRange := range;
    for i := 0 to |hittables|
      invariant tRange == if current.Some? then range.WithEnd(current.value.t) else range
      invariant current.Some? ==> range.Contains(current.value.t)
      invariant Scan(list, i, ray, tRange, current, sqrt) == Intersect(list, ray, range, sqrt)
      invariant SqrtNonNeg(sqrt) ==> NearestAmong(hits, i, current)
    {
      var hit := Intersect(hittables[i], ray, tRange, sqrt);
      if SqrtNonNeg(sqrt) {
        if current.Some? {
          Narrowing(hittables[i], ray, range, current.value.t, sqrt);
        }
        NearestStep(hits, i, current, hit);
      }
      if hit.Some? {
        tRange := tRange.WithEnd(hit.value.t);
        current := hit;
      }
    }
  }
}
