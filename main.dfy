/**
 * Model of `src/main.rs`: the fixed-size binary that renders the random scene with
 * ten threads of ten samples each. Its `ray_color` takes a signed depth, and its
 * normalisation divides by the number of samples actually taken.
 */
module Program {
  import opened Wrappers
  import opened Vectors
  import opened Rays
  import opened Hits
  import opened Cameras
  import opened Materials
  import opened Renderer

  const AspectRatio: real := 16.0 / 9.0
  const ImageWidth: nat := 1920
  /** `(IMAGE_WIDTH as f64 / ASPECT_RATIO) as u32`: the cast truncates. */
  const ImageHeight: nat := ((ImageWidth as real) / AspectRatio).Floor
  const MaxDepth: int := 50
  const ThreadCount: nat := 10
  const SamplesPerThread: nat := 10

  /** The quotient is exactly 1080, so the truncation loses nothing. */
  lemma ImageHeightValue()
    ensures ImageHeight == 1080 && (ImageHeight as real) * AspectRatio == ImageWidth as real
  {
  }

  // ---------------------------------------------------------------------------
  // Colour of a ray.

  /**
   * `ray_color` of the binary: as in the library, but the depth is an `i32` and
   * every depth up to 0 gives black.
   */
  function RayColor<M, R>(scene: Hittable<M>, sqrt: real -> real, scatter: (M, Ray, Hit<M>, R) -> Option<(Vec3, Ray)>,
                          normalize: Vec3 -> Vec3, draws: nat -> R, ray: Ray, depth: int): (c: Vec3)
    ensures depth <= 0 ==> c == Zero
    decreases depth
  {
    if depth <= 0 then
      Zero
    else
      match Intersect(scene, ray, HitRange, sqrt)
      case Some(hit) =>
        (match scatter(hit.material, ray, hit, draws(depth))
         case Some((attenuation, scattered)) =>
           Mul(attenuation, RayColor(scene, sqrt, scatter, normalize, draws, scattered, depth - 1))
         case None => Zero)
      case None => Background(normalize(ray.direction))
  }

  /** On every depth the library also accepts, the two `ray_color`s agree. */
  lemma {:induction false} RayColorMatchesLibrary<M, R>(scene: Hittable<M>, sqrt: real -> real,
                                                        scatter: (M, Ray, Hit<M>, R) -> Option<(Vec3, Ray)>,
                                                        normalize: Vec3 -> Vec3, draws: nat -> R, ray: Ray, depth: int)
    requires depth >= 0
    ensures RayColor(scene, sqrt, scatter, normalize, draws, ray, depth) ==
            Renderer.RayColor(scene, sqrt, scatter, normalize, draws, ray, depth as nat)
    decreases depth
  {
    if depth > 0 {
      match Intersect(scene, ray, HitRange, sqrt)
      case Some(hit) =>
        match scatter(hit.material, ray, hit, draws(depth)) {
          case Some((attenuation, scattered)) =>
            RayColorMatchesLibrary(scene, sqrt, scatter, normalize, draws, scattered, depth - 1);
          case None =>
        }
      case None =>
    }
  }

  // ---------------------------------------------------------------------------
  // Rendering and merging.

  /**
   * Sample `s` of pixel `(i, j)` in the binary's `render` loop: the jittered viewport
   * fractions over `width - 1` and `height - 1`, `camera.get_ray`, and the binary's
   * `ray_color` at `depth`. The draws are as for `CameraSample`.
   */
  function BinarySample<M, R>(scene: Hittable<M>, cam: Camera, sqrt: real -> real,
                              scatter: (M, Ray, Hit<M>, R) -> Option<(Vec3, Ray)>, normalize: Vec3 -> Vec3,
                              jitter: (nat, nat, nat) -> (real, real), disk: (nat, nat, nat) -> Vec3,
                              draws: (nat, nat, nat) -> (nat -> R), width: nat, height: nat, depth: int)
    : (sample: (nat, nat, nat) -> Vec3)
    requires width != 1 && height != 1
  {
    (i: nat, j: nat, s: nat) =>
      var u := (i as real + jitter(i, j, s).0) / ((width - 1) as real);
      var v := (j as real + jitter(i, j, s).1) / ((height - 1) as real);
      RayColor(scene, sqrt, scatter, normalize, draws(i, j, s), GetRay(cam, u, v, disk(i, j, s)), depth)
  }

  /** For sizes other than 1 and a depth of at least 0, the binary samples as the library does. */
  lemma BinarySampleMatchesLibrary<M, R>(scene: Hittable<M>, cam: Camera, sqrt: real -> real,
                                         scatter: (M, Ray, Hit<M>, R) -> Option<(Vec3, Ray)>, normalize: Vec3 -> Vec3,
                                         jitter: (nat, nat, nat) -> (real, real), disk: (nat, nat, nat) -> Vec3,
                                         draws: (nat, nat, nat) -> (nat -> R), width: nat, height: nat, depth: int,
                                         i: nat, j: nat, s: nat)
    requires width != 1 && height != 1 && depth >= 0
    ensures BinarySample(scene, cam, sqrt, scatter, normalize, jitter, disk, draws, width, height, depth)(i, j, s) ==
            CameraSample(scene, cam, sqrt, scatter, normalize, jitter, disk, draws, width, height, depth as nat)(i, j, s)
  {
    var u := (i as real + jitter(i, j, s).0) / ((width - 1) as real);
    var v := (j as real + jitter(i, j, s).1) / ((height - 1) as real);
    RayColorMatchesLibrary(scene, sqrt, scatter, normalize, draws(i, j, s), GetRay(cam, u, v, disk(i, j, s)), depth);
  }

  /** The sample function of `render`: `IMAGE_WIDTH` by `IMAGE_HEIGHT` at `MAX_DEPTH`. */
  function PixelSample<M, R>(scene: Hittable<M>, cam: Camera, sqrt: real -> real,
                             scatter: (M, Ray, Hit<M>, R) -> Option<(Vec3, Ray)>, normalize: Vec3 -> Vec3,
                             jitter: (nat, nat, nat) -> (real, real), disk: (nat, nat, nat) -> Vec3,
                             draws: (nat, nat, nat) -> (nat -> R)): (sample: (nat, nat, nat) -> Vec3)
  {
    ImageHeightValue();
    BinarySample(scene, cam, sqrt, scatter, normalize, jitter, disk, draws, ImageWidth, ImageHeight, MaxDepth)
  }

  /** The binary's samples are the library's camera samples at depth 50 on a 1920 by 1080 image. */
  lemma PixelSampleMatchesLibrary<M, R>(scene: Hittable<M>, cam: Camera, sqrt: real -> real,
                                        scatter: (M, Ray, Hit<M>, R) -> Option<(Vec3, Ray)>, normalize: Vec3 -> Vec3,
                                        jitter: (nat, nat, nat) -> (real, real), disk: (nat, nat, nat) -> Vec3,
                                        draws: (nat, nat, nat) -> (nat -> R), i: nat, j: nat, s: nat)
    ensures ImageHeight != 1
    ensures PixelSample(scene, cam, sqrt, scatter, normalize, jitter, disk, draws)(i, j, s) ==
            CameraSample(scene, cam, sqrt, scatter, normalize, jitter, disk, draws, ImageWidth, ImageHeight, 50)(i, j, s)
  {
    ImageHeightValue();
    BinarySampleMatchesLibrary(scene, cam, sqrt, scatter, normalize, jitter, disk, draws,
                               ImageWidth, ImageHeight, MaxDepth, i, j, s);
  }

  /** With attenuations in [0, 1], every sample the binary adds is a colour in the unit cube. */
  lemma PixelSampleInUnitCube<M(!new), R(!new)>(scene: Hittable<M>, cam: Camera, sqrt: real -> real,
                                                scatter: (M, Ray, Hit<M>, R) -> Option<(Vec3, Ray)>,
                                                normalize: Vec3 -> Vec3, jitter: (nat, nat, nat) -> (real, real),
                                                disk: (nat, nat, nat) -> Vec3, draws: (nat, nat, nat) -> (nat -> R),
                                                i: nat, j: nat, s: nat)
    requires AttenuationsInUnitCube(scatter) && UnitHeight(normalize)
    ensures InUnitCube(PixelSample(scene, cam, sqrt, scatter, normalize, jitter, disk, draws)(i, j, s))
  {
    PixelSampleMatchesLibrary(scene, cam, sqrt, scatter, normalize, jitter, disk, draws, i, j, s);
    CameraSampleInUnitCube(scene, cam, sqrt, scatter, normalize, jitter, disk, draws, ImageWidth, ImageHeight, 50);
  }

  /** `render(scene, camera)`: one thread's buffer, each pixel the sum of `SAMPLES_PER_THREAD` `PixelSample`s. */
  method RenderScene<M, R>(scene: Hittable<M>, cam: Camera, sqrt: real -> real,
                           scatter: (M, Ray, Hit<M>, R) -> Option<(Vec3, Ray)>, normalize: Vec3 -> Vec3,
                           jitter: (nat, nat, nat) -> (real, real), disk: (nat, nat, nat) -> Vec3,
                           draws: (nat, nat, nat) -> (nat -> R))
    returns (pixels: seq<Vec3>)
    ensures pixels == ThreadImage(PixelSample(scene, cam, sqrt, scatter, normalize, jitter, disk, draws),
                                  ImageWidth, ImageHeight, SamplesPerThread)
    ensures |pixels| == ImageWidth * ImageHeight
  {
    pixels := Render(PixelSample(scene, cam, sqrt, scatter, normalize, jitter, disk, draws));
  }

  /**
   * The loops of `render`: one thread's buffer of `SAMPLES_PER_THREAD` samples per
   * pixel, for the thread's sample function (`PixelSample` in `RenderScene`).
   */
  method Render(sample: (nat, nat, nat) -> Vec3) returns (pixels: seq<Vec3>)
    ensures pixels == ThreadImage(sample, ImageWidth, ImageHeight, SamplesPerThread)
    ensures |pixels| == ImageWidth * ImageHeight
  {
    pixels := RenderThread(sample, ImageWidth, ImageHeight, SamplesPerThread);
  }

  /** The sample count the binary divides by. */
  const Divisor: nat := SamplesPerThread * ThreadCount

  /**
   * The image block of `main`: `THREAD_COUNT` buffers, the last one popped and the
   * others added to it, then every pixel divided by `SAMPLES_PER_THREAD *
   * THREAD_COUNT` and converted to bytes.
   */
  method RenderImage(samples: nat -> ((nat, nat, nat) -> Vec3)) returns (bytes: seq<byte>)
    ensures bytes == Quantise(MergedImage(ThreadImages(samples, ImageWidth, ImageHeight, SamplesPerThread, ThreadCount)),
                              Divisor as real)
    ensures |bytes| == 3 * (ImageWidth * ImageHeight)
  {
    var threadResults: seq<seq<Vec3>> := [];
    for t := 0 to ThreadCount
      invariant |threadResults| == t
      invariant forall k :: 0 <= k < t ==> threadResults[k] == ThreadImage(samples(k), ImageWidth, ImageHeight, SamplesPerThread)
      invariant forall k :: 0 <= k < t ==> |threadResults[k]| == ImageWidth * ImageHeight
    {
      var image := Render(samples(t));
      threadResults := threadResults + [image];
    }
    assert threadResults == ThreadImages(samples, ImageWidth, ImageHeight, SamplesPerThread, ThreadCount);
    var merged := MergeThreadImages(threadResults);
    bytes := Quantise(merged.value, Divisor as real);
  }

  /** The binary divides by exactly the number of samples its threads take per pixel. */
  lemma DivisorIsSamplesTaken()
    ensures Divisor == SamplesTaken(Divisor, ThreadCount) && Divisor / ThreadCount == SamplesPerThread
  {
  }

  /**
   * So a scene of constant colour comes out as that colour: unlike the library's
   * `render`, the binary keeps the mean.
   */
  lemma RenderImageKeepsMean(samples: nat -> ((nat, nat, nat) -> Vec3), c: Vec3, p: nat, i: nat)
    requires forall t, i', j', s' :: samples(t)(i', j', s') == c
    requires p < ImageWidth * ImageHeight && i < 3
    ensures var bytes := Quantise(MergedImage(ThreadImages(samples, ImageWidth, ImageHeight, SamplesPerThread,
                                                           ThreadCount)), Divisor as real);
            3 * p + i < |bytes| && bytes[3 * p + i] == ChannelByte(Component(c, i))
  {
    ConstantSceneBytes(samples, c, ImageWidth, ImageHeight, Divisor, ThreadCount, Divisor as real, p, i);
    MeanOfCopies(Divisor as real, c, i);
  }

  // ---------------------------------------------------------------------------
  // Scenes.

  /**
   * The materials the scenes use. `Metal` and `Dielectric` are constructed here
   * but their `scatter` is not part of this model.
   */
  datatype SceneMaterial = Diffuse(lambertian: Lambertian)
                         | Metal(albedo: Vec3, fuzz: real)
                         | Dielectric(refractionIndex: real)

  /** `test_scene`: a ground sphere and three spheres on it, one of them a hollow glass shell. */
  function TestScene(tanHalfFov: real -> real, normalize: Vec3 -> Vec3): (r: (Hittable<SceneMaterial>, Camera))
    ensures r.0.HittableList? && |r.0.hittables| == 4
    ensures forall k :: 0 <= k < 4 ==> r.0.hittables[k].Sphere?
    ensures r.1.lensRadius == 0.05 && r.1.origin == Vec3(0.0, 1.5, -2.0)
  {
    var ground := Sphere(Vec3(0.0, -100.5, 1.0), 100.0, Diffuse(Lambertian(Vec3(0.3, 0.8, 0.3))));
    var left := Sphere(Vec3(-1.0, 0.0, 1.0), 0.5, Diffuse(Lambertian(Vec3(0.7, 0.1, 0.1))));
    var middle := Sphere(Vec3(0.0, 0.0, 2.0), 0.5, Metal(Vec3(0.5, 0.5, 0.5), 0.3));
    var right := Sphere(Vec3(1.0, 0.0, 1.0), -0.5, Dielectric(1.5));
    var camera := NewCamera(Vec3(0.0, 1.5, -2.0), Vec3(0.0, 1.0, 0.3), Vec3(0.0, 0.0, 1.0), 90.0, AspectRatio, 0.1,
                            5.0, tanHalfFov, normalize);
    (HittableList([ground, left, middle, right]), camera)
  }

  /** The ground of the random scene. */
  const Ground: Hittable<SceneMaterial> := Sphere(Vec3(0.0, -1000.0, 0.0), 1000.0, Diffuse(Lambertian(Vec3(0.5, 0.5, 0.5))))

  /** `rng.gen::<f64>()` draws from [0, 1). */
  ghost predicate UnitDraws(draw: nat -> real)
  {
    forall n :: 0.0 <= draw(n) < 1.0
  }

  /** A small sphere of the random scene: radius 0.2, resting on the ground plane y = 0. */
  predicate SmallSphere(h: Hittable<SceneMaterial>)
  {
    h.Sphere? && h.radius == 0.2 && h.center.y == 0.2
  }

  /**
   * The sphere of grid cell `(a, b)`: its centre lies in the cell, and its material
   * is a diffuse colour in the unit cube, a metal of albedo in [0.5, 1) and fuzz in
   * [0, 0.5), or glass of index 1.5.
   */
  predicate InCell(h: Hittable<SceneMaterial>, a: int, b: int)
  {
    && h.Sphere?
    && a as real <= h.center.x < a as real + 0.9
    && b as real <= h.center.z < b as real + 0.9
    && match h.material
       case Diffuse(l) => InUnitCube(l.albedo)
       case Metal(albedo, fuzz) =>
         0.5 <= albedo.x < 1.0 && 0.5 <= albedo.y < 1.0 && 0.5 <= albedo.z < 1.0 && 0.0 <= fuzz < 0.5
       case Dielectric(index) => index == 1.5
  }

  /** Grid cell `(a, b)`, both in -11..=11, is the sphere pushed at this index. */
  function CellIndex(a: int, b: int): nat
    requires -11 <= a <= 11 && -11 <= b <= 11
  {
    1 + (a + 11) * 23 + (b + 11)
  }

  /** Index `k` of the object list holds the sphere of this cell. */
  function CellOf(k: nat): (cell: (int, int))
    requires k >= 1
  {
    ((k - 1) / 23 - 11, (k - 1) % 23 - 11)
  }

  lemma CellRoundTrip(a: int, b: int)
    requires -11 <= a <= 11 && -11 <= b <= 11
    ensures CellOf(CellIndex(a, b)) == (a, b)
  {
    var q := a + 11;
    var r := b + 11;
    assert CellIndex(a, b) - 1 == q * 23 + r;
    DivModUnique(q * 23 + r, q, r);
  }

  lemma DivModUnique(n: nat, q: nat, r: nat)
    requires r < 23 && n == q * 23 + r
    ensures n / 23 == q && n % 23 == r
  {
  }

  /** Every sphere of `objects` after the ground lies in the grid cell its index names. */
  ghost predicate CellsInPlace(objects: seq<Hittable<SceneMaterial>>)
  {
    forall k :: 1 <= k < |objects| ==> InCell(objects[k], CellOf(k).0, CellOf(k).1)
  }

  /** Pushing the sphere of cell `(a, b)` at that cell's index keeps every sphere in its cell. */
  lemma PlaceCell(objects: seq<Hittable<SceneMaterial>>, sphere: Hittable<SceneMaterial>, a: int, b: int)
    requires -11 <= a <= 11 && -11 <= b <= 11
    requires CellsInPlace(objects) && |objects| == CellIndex(a, b) && InCell(sphere, a, b)
    ensures CellsInPlace(objects + [sphere])
  {
    CellRoundTrip(a, b);
    var extended := objects + [sphere];
    forall k | 1 <= k < |extended|
      ensures InCell(extended[k], CellOf(k).0, CellOf(k).1)
    {
      if k < |objects| {
        assert extended[k] == objects[k];
      }
    }
  }

  /** Once the grid is full, cell `(a, b)`'s sphere is found at `CellIndex(a, b)`. */
  lemma CellsByIndex(objects: seq<Hittable<SceneMaterial>>)
    requires CellsInPlace(objects) && |objects| == 1 + 23 * 23
    ensures forall a, b :: -11 <= a <= 11 && -11 <= b <= 11 ==> InCell(objects[CellIndex(a, b)], a, b)
  {
    forall a, b | -11 <= a <= 11 && -11 <= b <= 11
      ensures InCell(objects[CellIndex(a, b)], a, b)
    {
      CellRoundTrip(a, b);
    }
  }

  /**
   * One cell of the grid in `random_scene`: a centre jittered inside cell `(a, b)` and a
   * material chosen by the third draw, taking the draws `draw(n)`, `draw(n + 1)`, …
   * and returning the index of the first draw not taken.
   */
  method CellSphere(a: int, b: int, draw: nat -> real, n: nat) returns (sphere: Hittable<SceneMaterial>, next: nat)
    ensures SmallSphere(sphere)
    ensures next == n + 3 || next == n + 6 || next == n + 7
    ensures UnitDraws(draw) ==> InCell(sphere, a, b)
  {
    var center := Vec3(a as real + 0.9 * draw(n), 0.2, b as real + 0.9 * draw(n + 1));
    var randomMat := draw(n + 2);
    next := n + 3;
    if randomMat < 0.75 {
      var albedo := Vec3(draw(next), draw(next + 1), draw(next + 2));
      next := next + 3;
      if UnitDraws(draw) {
        MulInUnitCube(albedo, albedo);
      }
      sphere := Sphere(center, 0.2, Diffuse(Lambertian(Mul(albedo, albedo))));
    } else if randomMat < 0.9 {
      var albedo := Vec3(draw(next) * 0.5 + 0.5, draw(next + 1) * 0.5 + 0.5, draw(next + 2) * 0.5 + 0.5);
      var fuzz := draw(next + 3) * 0.5;
      next := next + 4;
      sphere := Sphere(center, 0.2, Metal(albedo, fuzz));
    } else {
      sphere := Sphere(center, 0.2, Dielectric(1.5));
    }
  }

  /**
   * `random_scene`: the ground, then one small sphere per cell of the 23 by 23 grid
   * `-11..=11`, and the camera. `draw(n)` is the `n`-th `rng.gen::<f64>()` of the
   * thread's generator; `tanHalfFov` and `normalize` are as for `Camera::new`.
   */
  method RandomScene(draw: nat -> real, tanHalfFov: real -> real, normalize: Vec3 -> Vec3)
    returns (scene: Hittable<SceneMaterial>, camera: Camera)
    ensures scene.HittableList? && |scene.hittables| == 1 + 23 * 23
    ensures scene.hittables[0] == Ground
    ensures forall k :: 1 <= k < |scene.hittables| ==> SmallSphere(scene.hittables[k])
    ensures UnitDraws(draw) ==>
              forall a, b :: -11 <= a <= 11 && -11 <= b <= 11 ==> InCell(scene.hittables[CellIndex(a, b)], a, b)
    ensures var forward := normalize(Vec3(0.0, -0.2, 1.0));
            camera == NewCamera(Vec3(0.0, 1.0, -5.0), Cross(forward, Vec3(1.0, 0.0, 0.0)), forward, 30.0,
                                AspectRatio, 0.05, 4.0, tanHalfFov, normalize)
  {
    var objects: seq<Hittable<SceneMaterial>> := [Ground];
    var n: nat := 0;
    for a := -11 to 12
      invariant |objects| == 1 + (a + 11) * 23
      invariant objects[0] == Ground
      invariant forall k :: 1 <= k < |objects| ==> SmallSphere(objects[k])
      invariant UnitDraws(draw) ==> CellsInPlace(objects)
    {
      for b := -11 to 12
        invariant |objects| == 1 + (a + 11) * 23 + (b + 11)
        invariant objects[0] == Ground
        invariant forall k :: 1 <= k < |objects| ==> SmallSphere(objects[k])
        invariant UnitDraws(draw) ==> CellsInPlace(objects)
      {
        var sphere;
        sphere, n := CellSphere(a, b, draw, n);
        if UnitDraws(draw) {
          PlaceCell(objects, sphere, a, b);
        }
        objects := objects + [sphere];
      }
    }
    if UnitDraws(draw) {
      CellsByIndex(objects);
    }
    var forward := normalize(Vec3(0.0, -0.2, 1.0));
    var up := Cross(forward, Vec3(1.0, 0.0, 0.0));
    camera := NewCamera(Vec3(0.0, 1.0, -5.0), up, forward, 30.0, AspectRatio, 0.05, 4.0, tanHalfFov, normalize);
    scene := HittableList(objects);
  }
}
