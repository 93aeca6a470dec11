/**
 * Model of `src/lib.rs`: the colour of a ray, the per-thread image, the merge of
 * the thread images and the conversion to bytes.
 */
module Renderer {
  import opened Wrappers
  import opened Vectors
  import opened Rays
  import opened Hits
  import opened Cameras

  // ---------------------------------------------------------------------------
  // Colour of a ray.

  /** The range `0.000001..f64::INFINITY` every primary and scattered ray is hit with. */
  const HitRange: Interval := Interval(0.000001, Unbounded)

  /** The sky: a blend from white to light blue by the height of the unit direction. */
  function Background(unitDirection: Vec3): (c: Vec3)
    ensures -1.0 <= unitDirection.y <= 1.0 ==> 0.5 <= c.x <= 1.0 && 0.7 <= c.y <= 1.0 && c.z == 1.0
  {
    var t := 0.5 * (unitDirection.y + 1.0);
    Add(ScalarMul(1.0 - t, One), ScalarMul(t, Vec3(0.5, 0.7, 1.0)))
  }

  /**
   * `ray_color`. The scene is hit through `Intersect`; `scatter` stands for the
   * materials' `scatter`, each call taking the random draw `draws(depth)`;
   * `normalize` stands for `Vec3::normalized` and `sqrt` for `f64::sqrt`.
   */
  function RayColor<M, R>(scene: Hittable<M>, sqrt: real -> real, scatter: (M, Ray, Hit<M>, R) -> Option<(Vec3, Ray)>,
                          normalize: Vec3 -> Vec3, draws: nat -> R, ray: Ray, depth: nat): (c: Vec3)
    ensures depth == 0 ==> c == Zero
    decreases depth
  {
    if depth == 0 then
      Zero
    else
      match Intersect(scene, ray, HitRange, sqrt)
      case Some(hit) =>
        (match scatter(hit.material, ray, hit, draws(depth))
         case Some((attenuation, scattered)) =>
           Mul(attenuation, RayColor(scene, sqrt, scatter, normalize, draws, scattered, depth - 1))
         case None => Zero)
      case None => Background(normalize(ray.direction))
  }

  predicate InUnitCube(v: Vec3)
  {
    0.0 <= v.x <= 1.0 && 0.0 <= v.y <= 1.0 && 0.0 <= v.z <= 1.0
  }

  /** Every attenuation a material can return is a colour with components in [0, 1]. */
  ghost predicate AttenuationsInUnitCube<M(!new), R(!new)>(scatter: (M, Ray, Hit<M>, R) -> Option<(Vec3, Ray)>)
  {
    forall m: M, ray: Ray, hit: Hit<M>, draw: R :: scatter(m, ray, hit, draw).Some? ==>
      InUnitCube(scatter(m, ray, hit, draw).value.0)
  }

  /** `normalize` returns vectors whose y component lies in [-1, 1], as unit vectors do. */
  ghost predicate UnitHeight(normalize: Vec3 -> Vec3)
  {
    forall v: Vec3 :: -1.0 <= normalize(v).y <= 1.0
  }

  /**
   * No ray is brighter than white: with attenuations in [0, 1] every component of
   * `ray_color` stays in [0, 1], at every depth.
   */
  lemma {:induction false} RayColorBounded<M(!new), R(!new)>(scene: Hittable<M>, sqrt: real -> real,
                                                 scatter: (M, Ray, Hit<M>, R) -> Option<(Vec3, Ray)>,
                                                 normalize: Vec3 -> Vec3, draws: nat -> R, ray: Ray, depth: nat)
    requires AttenuationsInUnitCube(scatter) && UnitHeight(normalize)
    ensures InUnitCube(RayColor(scene, sqrt, scatter, normalize, draws, ray, depth))
    decreases depth
  {
    if depth > 0 {
      match Intersect(scene, ray, HitRange, sqrt)
      case Some(hit) =>
        match scatter(hit.material, ray, hit, draws(depth)) {
          case Some((attenuation, scattered)) =>
            RayColorBounded(scene, sqrt, scatter, normalize, draws, scattered, depth - 1);
            MulInUnitCube(attenuation, RayColor(scene, sqrt, scatter, normalize, draws, scattered, depth - 1));
          case None =>
        }
      case None =>
        assert -1.0 <= normalize(ray.direction).y <= 1.0;
    }
  }

  lemma MulInUnitCube(a: Vec3, b: Vec3)
    requires InUnitCube(a) && InUnitCube(b)
    ensures InUnitCube(Mul(a, b))
  {
    ProductInUnit(a.x, b.x);
    ProductInUnit(a.y, b.y);
    ProductInUnit(a.z, b.z);
  }

  lemma ProductInUnit(a: real, b: real)
    requires 0.0 <= a <= 1.0 && 0.0 <= b <= 1.0
    ensures 0.0 <= a * b <= 1.0
  {
    ProductNonNegative(a, b, a * b);
    ProductNonNegative(1.0 - a, b, b - a * b);
  }

  // ---------------------------------------------------------------------------
  // Conversion to bytes.

  /** `clamp`: `x.min(max).max(min)`, with `f64::min`/`f64::max` on numbers. */
  function Clamp(x: real, min: real, max: real): (r: real)
    ensures min <= max ==> min <= r <= max
    ensures min <= x <= max ==> r == x
    ensures x < min ==> r == min
    ensures min <= max && max < x ==> r == max
  {
    var low := if x <= max then x else max;
    if low >= min then low else min
  }

  newtype byte = b: int | 0 <= b < 256

  /** `(255.0 * clamp(c, 0.0, 0.999)) as u8`: the cast truncates a value in [0, 254.745]. */
  function ChannelByte(c: real): (b: byte)
    ensures b <= 254
    ensures 0.0 <= c <= 0.999 ==> b as int == (255.0 * c).Floor
    ensures c <= 0.0 ==> b == 0
    ensures c >= 0.999 ==> b == 254
  {
    var scaled := 255.0 * Clamp(c, 0.0, 0.999);
    assert 0.0 <= scaled <= 254.745;
    scaled.Floor as byte
  }

  /**
   * One colour component divided by the sample count `d`, then converted. For
   * `d == 0` the `f64` quotient is an infinity or NaN: `-inf` clamps to 0, while
   * `+inf` and NaN (`0 / 0`, which `f64::min` replaces by `0.999`) give 254.
   */
  function QuotientByte(c: real, d: real): (b: byte)
    ensures b <= 254
    ensures d != 0.0 ==> b == ChannelByte(c / d)
    ensures d == 0.0 ==> (b == 0 <==> c < 0.0)
    ensures d == 0.0 && c >= 0.0 ==> b == 254
  {
    if d != 0.0 then ChannelByte(c / d)
    else if c < 0.0 then 0
    else 254
  }

  /** The three bytes of one pixel, in the order `Vec3`'s iterator yields x, y, z. */
  function PixelBytes(c: Vec3, d: real): (r: seq<byte>)
    ensures |r| == 3
    ensures forall i :: 0 <= i < 3 ==> r[i] == QuotientByte(Component(c, i), d)
  {
    [QuotientByte(c.x, d), QuotientByte(c.y, d), QuotientByte(c.z, d)]
  }

  /** The `flat_map`/`map` chain of `render`: every pixel divided by `d` and converted. */
  function Quantise(pixels: seq<Vec3>, d: real): (r: seq<byte>)
    ensures |r| == 3 * |pixels|
    ensures forall k :: 0 <= k < |r| ==> r[k] <= 254
  {
    if |pixels| == 0 then [] else PixelBytes(pixels[0], d) + Quantise(pixels[1..], d)
  }

  /** Byte `3p + i` is component `i` of pixel `p`. */
  lemma {:induction false} QuantiseAt(pixels: seq<Vec3>, d: real, p: nat, i: nat)
    requires p < |pixels| && i < 3
    ensures Quantise(pixels, d)[3 * p + i] == QuotientByte(Component(pixels[p], i), d)
  {
    if p > 0 {
      QuantiseAt(pixels[1..], d, p - 1, i);
      assert pixels[1..][p - 1] == pixels[p];
    }
  }

  // ---------------------------------------------------------------------------
  // The image one thread renders.
  //
  // `sample(i, j, s)` stands for the colour of sample `s` of pixel `(i, j)`: the
  // jittered `u`, `v`, `camera.get_ray(u, v)` and `ray_color(ray, scene, max_depth)`,
  // with that thread's random draws.

  /** `ZERO` plus samples `0 .. n` of pixel `(i, j)`, added in order. */
  function SampleSum(sample: (nat, nat, nat) -> Vec3, i: nat, j: nat, n: nat): Vec3
    decreases n
  {
    if n == 0 then Zero else Add(SampleSum(sample, i, j, n - 1), sample(i, j, n - 1))
  }

  /** Row `j`, columns ascending. */
  function Row(sample: (nat, nat, nat) -> Vec3, j: nat, n: nat, width: nat): (r: seq<Vec3>)
    ensures |r| == width
    ensures forall i :: 0 <= i < width ==> r[i] == SampleSum(sample, i, j, n)
  {
    seq(width, i requires 0 <= i < width => SampleSum(sample, i, j, n))
  }

  /** The first `k` rows `render_thread` pushes: rows `height - 1` down to `height - k`. */
  function Rows(sample: (nat, nat, nat) -> Vec3, width: nat, height: nat, n: nat, k: nat): (r: seq<Vec3>)
    requires k <= height
    ensures |r| == k * width
  {
    if k == 0 then [] else Rows(sample, width, height, n, k - 1) + Row(sample, height - k, n, width)
  }

  /** The whole buffer `render_thread` returns. */
  function ThreadImage(sample: (nat, nat, nat) -> Vec3, width: nat, height: nat, n: nat): seq<Vec3>
  {
    Rows(sample, width, height, n, height)
  }

  /** Pixel `r * width + i` of the buffer is column `i` of row `height - 1 - r`. */
  lemma {:induction false} RowsAt(sample: (nat, nat, nat) -> Vec3, width: nat, height: nat, n: nat, k: nat,
                                  r: nat, i: nat)
    requires k <= height && r < k && i < width
    ensures r * width + i < k * width
    ensures Rows(sample, width, height, n, k)[r * width + i] == SampleSum(sample, i, height - 1 - r, n)
  {
    IndexInRow(width, k - 1, r, i);
    if r < k - 1 {
      RowsAt(sample, width, height, n, k - 1, r, i);
    }
  }

  lemma IndexInRow(width: nat, row: nat, r: nat, i: nat)
    requires r <= row && i < width
    ensures r * width + i < (row + 1) * width
    ensures r < row ==> r * width + i < row * width
    ensures r == row ==> r * width + i - row * width == i
  {
    if r < row {
      assert (r + 1) * width <= row * width;
    }
  }

  /** `render_thread` with the sample colours given by `sample`. */
  method RenderThread(sample: (nat, nat, nat) -> Vec3, width: nat, height: nat, samplesPerPixel: nat)
    returns (pixels: seq<Vec3>)
    ensures pixels == ThreadImage(sample, width, height, samplesPerPixel)
    ensures |pixels| == width * height
  {
    pixels := [];
    var j: nat := height;
    while j > 0
      invariant j <= height
      invariant pixels == Rows(sample, width, height, samplesPerPixel, height - j)
      decreases j
    {
      j := j - 1;
      ghost var done := pixels;
      for i := 0 to width
        invariant pixels == done + Row(sample, j, samplesPerPixel, width)[..i]
      {
        var pixelColor := Zero;
        for s := 0 to samplesPerPixel
          invariant pixelColor == SampleSum(sample, i, j, s)
        {
          pixelColor := Add(pixelColor, sample(i, j, s));
        }
        pixels := pixels + [pixelColor];
        assert Row(sample, j, samplesPerPixel, width)[..i + 1] == Row(sample, j, samplesPerPixel, width)[..i] + [pixelColor];
      }
      assert Row(sample, j, samplesPerPixel, width)[..width] == Row(sample, j, samplesPerPixel, width);
    }
    assert |pixels| == height * width;
  }

  /**
   * Sample `s` of pixel `(i, j)` as `render_thread` takes it: the viewport fractions
   * jittered by the two draws `jitter(i, j, s)`, `camera.get_ray` with the lens
   * sample `disk(i, j, s)`, and `ray_color` with the material draws `draws(i, j, s)`.
   */
  function CameraSample<M, R>(scene: Hittable<M>, cam: Camera, sqrt: real -> real,
                              scatter: (M, Ray, Hit<M>, R) -> Option<(Vec3, Ray)>, normalize: Vec3 -> Vec3,
                              jitter: (nat, nat, nat) -> (real, real), disk: (nat, nat, nat) -> Vec3,
                              draws: (nat, nat, nat) -> (nat -> R), width: nat, height: nat, maxDepth: nat)
    : (sample: (nat, nat, nat) -> Vec3)
    requires width != 1 && height != 1
  {
    (i: nat, j: nat, s: nat) =>
      var u := (i as real + jitter(i, j, s).0) / ((width - 1) as real);
      var v := (j as real + jitter(i, j, s).1) / ((height - 1) as real);
      RayColor(scene, sqrt, scatter, normalize, draws(i, j, s), GetRay(cam, u, v, disk(i, j, s)), maxDepth)
  }

  /** With attenuations in [0, 1], every camera sample is a colour in the unit cube. */
  lemma CameraSampleInUnitCube<M(!new), R(!new)>(scene: Hittable<M>, cam: Camera, sqrt: real -> real,
                                                 scatter: (M, Ray, Hit<M>, R) -> Option<(Vec3, Ray)>,
                                                 normalize: Vec3 -> Vec3, jitter: (nat, nat, nat) -> (real, real),
                                                 disk: (nat, nat, nat) -> Vec3, draws: (nat, nat, nat) -> (nat -> R),
                                                 width: nat, height: nat, maxDepth: nat)
    requires width != 1 && height != 1
    requires AttenuationsInUnitCube(scatter) && UnitHeight(normalize)
    ensures var sample := CameraSample(scene, cam, sqrt, scatter, normalize, jitter, disk, draws, width, height, maxDepth);
            forall i, j, s :: InUnitCube(sample(i, j, s))
  {
    var sample := CameraSample(scene, cam, sqrt, scatter, normalize, jitter, disk, draws, width, height, maxDepth);
    forall i: nat, j: nat, s: nat
      ensures InUnitCube(sample(i, j, s))
    {
      var u := (i as real + jitter(i, j, s).0) / ((width - 1) as real);
      var v := (j as real + jitter(i, j, s).1) / ((height - 1) as real);
      RayColorBounded(scene, sqrt, scatter, normalize, draws(i, j, s), GetRay(cam, u, v, disk(i, j, s)), maxDepth);
    }
  }

  /** A sum of `n` samples in the unit cube has every component in [0, n]. */
  lemma {:induction false} SampleSumBounded(sample: (nat, nat, nat) -> Vec3, i: nat, j: nat, n: nat)
    requires forall i', j', s' :: InUnitCube(sample(i', j', s'))
    ensures var c := SampleSum(sample, i, j, n);
            0.0 <= c.x <= n as real && 0.0 <= c.y <= n as real && 0.0 <= c.z <= n as real
    decreases n
  {
    if n > 0 {
      SampleSumBounded(sample, i, j, n - 1);
      assert InUnitCube(sample(i, j, n - 1));
    }
  }

  /** Every pixel of a thread buffer of `n` unit-cube samples has components in [0, n]. */
  lemma ThreadImageBounded(sample: (nat, nat, nat) -> Vec3, width: nat, height: nat, n: nat, p: nat)
    requires forall i', j', s' :: InUnitCube(sample(i', j', s'))
    requires p < width * height
    ensures var c := ThreadImage(sample, width, height, n)[p];
            0.0 <= c.x <= n as real && 0.0 <= c.y <= n as real && 0.0 <= c.z <= n as real
  {
    var r := p / width;
    var i := p % width;
    assert p == r * width + i;
    assert r < height;
    RowsAt(sample, width, height, n, height, r, i);
    SampleSumBounded(sample, i, height - 1 - r, n);
  }

  // ---------------------------------------------------------------------------
  // Merging the thread images.

  /** Pixel `p` of a buffer; a buffer too short to have one contributes nothing. */
  function PixelOr(buf: seq<Vec3>, p: nat): Vec3
  {
    if p < |buf| then buf[p] else Zero
  }

  /** `base` plus pixel `p` of each buffer, added in the order of `bufs`. */
  function Accumulate(base: Vec3, bufs: seq<seq<Vec3>>, p: nat): Vec3
    decreases |bufs|
  {
    if |bufs| == 0 then base else Add(Accumulate(base, bufs[..|bufs| - 1], p), PixelOr(bufs[|bufs| - 1], p))
  }

  /** The merge loop of `render`: `result_pixels[i] += thread_pixels[i]` for every buffer in turn. */
  method MergeInto(result: array<Vec3>, bufs: seq<seq<Vec3>>)
    requires forall k :: 0 <= k < |bufs| ==> |bufs[k]| <= result.Length
    modifies result
    ensures forall p :: 0 <= p < result.Length ==> result[p] == Accumulate(old(result[p]), bufs, p)
  {
    for k := 0 to |bufs|
      invariant forall p :: 0 <= p < result.Length ==> result[p] == Accumulate(old(result[p]), bufs[..k], p)
    {
      var buf := bufs[k];
      assert bufs[..k + 1][..k] == bufs[..k];
      for i := 0 to |buf|
        invariant forall p :: 0 <= p < i ==> result[p] == Accumulate(old(result[p]), bufs[..k + 1], p)
        invariant forall p :: i <= p < result.Length ==> result[p] == Accumulate(old(result[p]), bufs[..k], p)
      {
        result[i] := Add(result[i], buf[i]);
      }
      forall p | |buf| <= p < result.Length
        ensures result[p] == Accumulate(old(result[p]), bufs[..k + 1], p)
      {
        AddZero(Accumulate(old(result[p]), bufs[..k], p));
      }
    }
    assert bufs[..|bufs|] == bufs;
  }

  lemma AddZero(v: Vec3)
    ensures Add(v, Zero) == v
  {
  }

  /** The buffers of `count` threads, thread `k` taking its sample colours from `samples(k)`. */
  function ThreadImages(samples: nat -> ((nat, nat, nat) -> Vec3), width: nat, height: nat, n: nat,
                        count: nat): (r: seq<seq<Vec3>>)
    ensures |r| == count
    ensures forall k :: 0 <= k < count ==> r[k] == ThreadImage(samples(k), width, height, n)
  {
    seq(count, k requires 0 <= k < count => ThreadImage(samples(k), width, height, n))
  }

  /** The merged buffer: the last buffer with the others added to it, pixel by pixel, in order. */
  function MergedImage(images: seq<seq<Vec3>>): (r: seq<Vec3>)
    requires |images| > 0
    ensures |r| == |images[|images| - 1]|
    ensures forall p :: 0 <= p < |r| ==> r[p] == Accumulate(images[|images| - 1][p], images[..|images| - 1], p)
  {
    var last := images[|images| - 1];
    seq(|last|, p requires 0 <= p < |last| => Accumulate(last[p], images[..|images| - 1], p))
  }

  /**
   * `thread_results.pop().unwrap()` and the merge loop. With no buffer, `pop`
   * returns `None` and `unwrap` panics; that outcome is `None` here.
   */
  method MergeThreadImages(images: seq<seq<Vec3>>) returns (merged: Option<seq<Vec3>>)
    requires |images| > 0 ==> forall k :: 0 <= k < |images| - 1 ==> |images[k]| <= |images[|images| - 1]|
    ensures merged.None? <==> |images| == 0
    ensures merged.Some? ==> merged.value == MergedImage(images)
  {
    if |images| == 0 {
      return None;
    }
    var last := images[|images| - 1];
    var result := new Vec3[|last|](i requires 0 <= i < |last| => last[i]);
    MergeInto(result, images[..|images| - 1]);
    return Some(result[..]);
  }

  /**
   * The pixel sums of `render`: one thread with every sample when `threadCount` is
   * 1; otherwise `threadCount` threads of `samplesPerPixel / threadCount` samples
   * each (integer division), merged. No thread at all ends in the `unwrap` panic.
   */
  method RenderSums(samples: nat -> ((nat, nat, nat) -> Vec3), width: nat, height: nat, samplesPerPixel: nat,
                    threadCount: nat) returns (pixels: Option<seq<Vec3>>)
    ensures pixels.None? <==> threadCount == 0
    ensures threadCount == 1 ==> pixels == Some(ThreadImage(samples(0), width, height, samplesPerPixel))
    ensures threadCount > 1 ==>
              pixels == Some(MergedImage(ThreadImages(samples, width, height, samplesPerPixel / threadCount, threadCount)))
  {
    if threadCount == 1 {
      var image := RenderThread(samples(0), width, height, samplesPerPixel);
      return Some(image);
    }
    var threadResults: seq<seq<Vec3>> := [];
    for t := 0 to threadCount
      invariant |threadResults| == t
      invariant forall k :: 0 <= k < t ==> |threadResults[k]| == width * height
      invariant forall k :: 0 <= k < t ==>
                  threadResults[k] == ThreadImage(samples(k), width, height, samplesPerPixel / threadCount)
    {
      var image := RenderThread(samples(t), width, height, samplesPerPixel / threadCount);
      threadResults := threadResults + [image];
    }
    if threadCount > 1 {
      assert threadResults == ThreadImages(samples, width, height, samplesPerPixel / threadCount, threadCount);
    }
    pixels := MergeThreadImages(threadResults);
  }

  /** `render`: the pixel sums, each divided by `samples_per_pixel`, as bytes. */
  method Render(samples: nat -> ((nat, nat, nat) -> Vec3), width: nat, height: nat, samplesPerPixel: nat,
                threadCount: nat) returns (image: Option<seq<byte>>)
    ensures image.None? <==> threadCount == 0
    ensures threadCount == 1 ==>
              image == Some(Quantise(ThreadImage(samples(0), width, height, samplesPerPixel), samplesPerPixel as real))
    ensures threadCount > 1 ==>
              image == Some(Quantise(MergedImage(ThreadImages(samples, width, height, samplesPerPixel / threadCount,
                                                              threadCount)), samplesPerPixel as real))
  {
    var pixels := RenderSums(samples, width, height, samplesPerPixel, threadCount);
    if pixels.None? {
      return None;
    }
    return Some(Quantise(pixels.value, samplesPerPixel as real));
  }

  /** The number of samples each merged pixel actually sums. */
  function SamplesTaken(samplesPerPixel: nat, threadCount: nat): (n: nat)
    requires threadCount > 0
    ensures n <= samplesPerPixel
    ensures threadCount == 1 ==> n == samplesPerPixel
    ensures n == samplesPerPixel <==> samplesPerPixel % threadCount == 0
  {
    threadCount * (samplesPerPixel / threadCount)
  }

  /** `render` with the divisor the merged sums call for: the number of samples taken. */
  method RenderCorrected(samples: nat -> ((nat, nat, nat) -> Vec3), width: nat, height: nat, samplesPerPixel: nat,
                         threadCount: nat) returns (image: Option<seq<byte>>)
    ensures image.None? <==> threadCount == 0
    ensures threadCount == 1 ==>
              image == Some(Quantise(ThreadImage(samples(0), width, height, samplesPerPixel), samplesPerPixel as real))
    ensures threadCount > 1 ==>
              image == Some(Quantise(MergedImage(ThreadImages(samples, width, height, samplesPerPixel / threadCount,
                                                              threadCount)),
                                     SamplesTaken(samplesPerPixel, threadCount) as real))
  {
    var pixels := RenderSums(samples, width, height, samplesPerPixel, threadCount);
    if pixels.None? {
      return None;
    }
    return Some(Quantise(pixels.value, SamplesTaken(samplesPerPixel, threadCount) as real));
  }

  // ---------------------------------------------------------------------------
  // Sample counts: what the divisor has to match.

  /** Every sample of a pixel sum of `n` samples of constant colour `c` adds `c`. */
  lemma {:induction false} SampleSumConstant(sample: (nat, nat, nat) -> Vec3, c: Vec3, i: nat, j: nat, n: nat)
    requires forall i', j', s' :: sample(i', j', s') == c
    ensures SampleSum(sample, i, j, n) == ScalarMul(n as real, c)
    decreases n
  {
    if n > 0 {
      SampleSumConstant(sample, c, i, j, n - 1);
      assert sample(i, j, n - 1) == c;
    }
  }

  /** With no samples, every pixel of a thread's buffer is `ZERO`. */
  lemma ZeroSamplesBlack(sample: (nat, nat, nat) -> Vec3, width: nat, height: nat)
    ensures forall p :: 0 <= p < |ThreadImage(sample, width, height, 0)| ==> ThreadImage(sample, width, height, 0)[p] == Zero
  {
    RowsUniform(sample, width, height, 0, height, Zero);
  }

  /** A buffer whose every pixel sum is `v`. */
  lemma {:induction false} RowsUniform(sample: (nat, nat, nat) -> Vec3, width: nat, height: nat, n: nat, k: nat, v: Vec3)
    requires k <= height
    requires forall i, j :: SampleSum(sample, i, j, n) == v
    ensures forall p :: 0 <= p < |Rows(sample, width, height, n, k)| ==> Rows(sample, width, height, n, k)[p] == v
  {
    if k > 0 {
      RowsUniform(sample, width, height, n, k - 1, v);
    }
  }

  /** Adding pixel `p` of `m` buffers that all hold `v` there adds `m` times `v`. */
  lemma {:induction false} AccumulateUniform(base: Vec3, bufs: seq<seq<Vec3>>, p: nat, v: Vec3)
    requires forall k :: 0 <= k < |bufs| ==> p < |bufs[k]| && bufs[k][p] == v
    ensures Accumulate(base, bufs, p) == Add(base, ScalarMul(|bufs| as real, v))
    decreases |bufs|
  {
    if |bufs| > 0 {
      AccumulateUniform(base, bufs[..|bufs| - 1], p, v);
      assert bufs[|bufs| - 1][p] == v;
    }
  }

  /**
   * With every sample of every thread of constant colour `c`, each merged pixel is
   * `count * n` times `c`: the merge sums all `count * n` samples taken.
   */
  lemma MergedConstant(samples: nat -> ((nat, nat, nat) -> Vec3), c: Vec3, width: nat, height: nat, n: nat,
                       count: nat, p: nat)
    requires count > 0 && p < width * height
    requires forall t, i, j, s :: samples(t)(i, j, s) == c
    ensures var merged := MergedImage(ThreadImages(samples, width, height, n, count));
            p < |merged| && merged[p] == ScalarMul((count * n) as real, c)
  {
    var images := ThreadImages(samples, width, height, n, count);
    var v := ScalarMul(n as real, c);
    ThreadImagesUniform(samples, c, width, height, n, count, p);
    AccumulateUniform(images[count - 1][p], images[..count - 1], p, v);
    CopiesAdd(count, n, c);
  }

  /** Pixel `p` of every thread buffer is `n` times `c`. */
  lemma ThreadImagesUniform(samples: nat -> ((nat, nat, nat) -> Vec3), c: Vec3, width: nat, height: nat, n: nat,
                            count: nat, p: nat)
    requires p < width * height
    requires forall t, i, j, s :: samples(t)(i, j, s) == c
    ensures var images := ThreadImages(samples, width, height, n, count);
            forall t :: 0 <= t < count ==> p < |images[t]| && images[t][p] == ScalarMul(n as real, c)
  {
    var images := ThreadImages(samples, width, height, n, count);
    forall t | 0 <= t < count
      ensures p < |images[t]| && images[t][p] == ScalarMul(n as real, c)
    {
      forall i: nat, j: nat
        ensures SampleSum(samples(t), i, j, n) == ScalarMul(n as real, c)
      {
        SampleSumConstant(samples(t), c, i, j, n);
      }
      RowsUniform(samples(t), width, height, n, height, ScalarMul(n as real, c));
    }
  }

  lemma CopiesAdd(count: nat, n: nat, c: Vec3)
    requires count > 0
    ensures Add(ScalarMul(n as real, c), ScalarMul((count - 1) as real, ScalarMul(n as real, c))) ==
            ScalarMul((count * n) as real, c)
  {
    assert ((count - 1) as real + 1.0) * (n as real) == (count * n) as real;
  }

  /** Dividing `m` copies of a component by `m` gives the component back. */
  lemma MeanOfCopies(m: real, c: Vec3, i: nat)
    requires m > 0.0 && i < 3
    ensures QuotientByte(Component(ScalarMul(m, c), i), m) == ChannelByte(Component(c, i))
  {
    assert Component(ScalarMul(m, c), i) == m * Component(c, i);
    assert (m * Component(c, i)) / m == Component(c, i);
  }

  /**
   * With every sample of constant colour `c`, byte `3p + i` of a multi-thread image
   * divided by `d` is `SamplesTaken` copies of component `i` divided by `d`.
   */
  lemma ConstantSceneBytes(samples: nat -> ((nat, nat, nat) -> Vec3), c: Vec3, width: nat, height: nat,
                           samplesPerPixel: nat, threadCount: nat, d: real, p: nat, i: nat)
    requires threadCount > 0
    requires forall t, i', j', s' :: samples(t)(i', j', s') == c
    requires p < width * height && i < 3
    ensures var bytes := Quantise(MergedImage(ThreadImages(samples, width, height, samplesPerPixel / threadCount,
                                                           threadCount)), d);
            3 * p + i < |bytes| &&
            bytes[3 * p + i] == QuotientByte(Component(ScalarMul(SamplesTaken(samplesPerPixel, threadCount) as real, c), i), d)
  {
    var n := samplesPerPixel / threadCount;
    var merged := MergedImage(ThreadImages(samples, width, height, n, threadCount));
    MergedConstant(samples, c, width, height, n, threadCount, p);
    QuantiseAt(merged, d, p, i);
    assert SamplesTaken(samplesPerPixel, threadCount) == threadCount * n;
  }

  /**
   * As written, `render` divides by `samples_per_pixel` although each merged pixel
   * sums only `thread_count * (samples_per_pixel / thread_count)` samples. With 5
   * samples over 2 threads, a scene of constant colour 0.5 comes out as byte 102 in
   * every channel instead of the 127 of its mean colour.
   */
  lemma ThreadSplitDarkens(samples: nat -> ((nat, nat, nat) -> Vec3), width: nat, height: nat,
                           samplesPerPixel: nat, threadCount: nat, p: nat, i: nat)
    requires samplesPerPixel == 5 && threadCount == 2
    requires forall t, i', j', s' :: samples(t)(i', j', s') == Vec3(0.5, 0.5, 0.5)
    requires p < width * height && i < 3
    ensures var bytes := Quantise(MergedImage(ThreadImages(samples, width, height, samplesPerPixel / threadCount,
                                                           threadCount)), samplesPerPixel as real);
            3 * p + i < |bytes| && bytes[3 * p + i] == 102
    ensures ChannelByte(0.5) == 127
  {
    var grey := Vec3(0.5, 0.5, 0.5);
    ConstantSceneBytes(samples, grey, width, height, samplesPerPixel, threadCount, samplesPerPixel as real, p, i);
    assert SamplesTaken(samplesPerPixel, threadCount) == 4;
    assert Component(ScalarMul(4.0, grey), i) == 2.0;
    SplitQuotient();
  }

  lemma SplitQuotient()
    ensures QuotientByte(2.0, 5.0) == 102
    ensures ChannelByte(0.5) == 127
  {
    assert 2.0 / 5.0 == 0.4;
  }

  /**
   * With the corrected divisor, a scene of constant colour is rendered as that
   * colour, however the samples are split between threads.
   */
  lemma CorrectedKeepsMean(samples: nat -> ((nat, nat, nat) -> Vec3), c: Vec3, width: nat, height: nat,
                           samplesPerPixel: nat, threadCount: nat, p: nat, i: nat)
    requires 1 < threadCount <= samplesPerPixel
    requires forall t, i', j', s' :: samples(t)(i', j', s') == c
    requires p < width * height && i < 3
    ensures var bytes := Quantise(MergedImage(ThreadImages(samples, width, height, samplesPerPixel / threadCount,
                                                           threadCount)),
                                  SamplesTaken(samplesPerPixel, threadCount) as real);
            3 * p + i < |bytes| && bytes[3 * p + i] == ChannelByte(Component(c, i))
  {
    var taken := SamplesTaken(samplesPerPixel, threadCount);
    assert samplesPerPixel / threadCount >= 1;
    ConstantSceneBytes(samples, c, width, height, samplesPerPixel, threadCount, taken as real, p, i);
    MeanOfCopies(taken as real, c, i);
  }

  /**
   * The correction covers only splits that give every thread a sample: with more
   * threads than samples, each thread takes none, the divisor is 0, and a constant
   * colour with no negative components renders as 254 in every channel.
   */
  lemma CorrectedWithoutSamples(samples: nat -> ((nat, nat, nat) -> Vec3), c: Vec3, width: nat, height: nat,
                                samplesPerPixel: nat, threadCount: nat, p: nat, i: nat)
    requires samplesPerPixel < threadCount
    requires forall t, i', j', s' :: samples(t)(i', j', s') == c
    requires p < width * height && i < 3
    ensures SamplesTaken(samplesPerPixel, threadCount) == 0
    ensures var bytes := Quantise(MergedImage(ThreadImages(samples, width, height, samplesPerPixel / threadCount,
                                                           threadCount)),
                                  SamplesTaken(samplesPerPixel, threadCount) as real);
            3 * p + i < |bytes| && bytes[3 * p + i] == 254
  {
    assert samplesPerPixel / threadCount == 0;
    ConstantSceneBytes(samples, c, width, height, samplesPerPixel, threadCount, 0.0, p, i);
    assert Component(ScalarMul(0.0, c), i) == 0.0;
  }

}
