# raytrace in Dafny

A model of the core of `raytrace`, a small multithreaded path tracer written in Rust
after *Ray Tracing in One Weekend*. The model covers:

- vector algebra on `Vec3`;
- the sphere and list intersection protocol, with half-open `t` ranges;
- a thin-lens camera;
- Lambertian scattering;
- the recursive colour of a ray;
- the per-thread image buffers and the merge of the thread buffers;
- the sample-count normalisation and the conversion to 8-bit channels.

It also covers both entry points. The library's `render` takes the image size,
sample and thread counts as arguments. The binary's `main` renders the random scene
with fixed constants.

Modelling choices:

- All `f64` arithmetic is modelled on `real`, with no NaN and no infinity.
- Operations the model does not interpret are parameters of the functions that use
  them:
  - `sqrt`, standing for `f64::sqrt`;
  - `normalize`, standing for `Vec3::normalized`;
  - `tanHalfFov`, the `tan` of half the field of view;
  - a material's `scatter`.
- The properties that need facts about these parameters assume them explicitly:
  - `SqrtNonNeg`: the square root is non-negative;
  - `SqrtExact`: the square root is exact;
  - `UnitHeight`: normalised vectors have `y` in [-1, 1];
  - `AttenuationsInUnitCube`: attenuations lie in [0, 1].
- Random draws are inputs:
  - a finite sequence of draws for the rejection-sampling loops;
  - a function from draw number to value for `random_scene`;
  - the lens sample for `get_ray`;
  - the unit-vector sample for `Lambertian::scatter`;
  - one colour function per thread for the samples of a pixel (`CameraSample`
    builds it from `get_ray` and `ray_color`).
- The `Hittable` trait and its two implementations become the closed datatype
  `Hittable<M> = Sphere | HittableList`. `M` is the material type.
- Thread spawning and joining become a sequence of buffers, one per thread. The merge
  folds that sequence in order, into an array that is updated in place.

Files:

| file | module | models |
|---|---|---|
| `wrappers.dfy` | `Wrappers` | `Option` |
| `vec3.dfy` | `Vectors` | `src/vec3.rs` |
| `ray.dfy` | `Rays` | the `Ray` type |
| `hit.dfy` | `Hits` | `src/hit.rs` |
| `material.dfy` | `Materials` | `src/material.rs` |
| `camera.dfy` | `Cameras` | `src/camera.rs` |
| `lib.dfy` | `Renderer` | `src/lib.rs` |
| `main.dfy` | `Program` | `src/main.rs` |

`src/ray.rs` is not part of this model. `Ray(origin, direction)` with
`at(t) = origin + t * direction` is defined from how `hit.rs` and `camera.rs` use it.

## Model

| member | source | states |
|---|---|---|
| Vectors.Add | src/vec3.rs:8-14 | each component of the result is the sum of the operands' components |
| Vectors.AddScalar | src/vec3.rs:16-22 | the scalar is added to every component |
| Vectors.Sub | src/vec3.rs:24-30 | each component of the result is the difference of the operands' components |
| Vectors.SubScalar | src/vec3.rs:32-38 | the scalar is subtracted from every component |
| Vectors.MulScalar | src/vec3.rs:40-46 | vector times scalar scales every component |
| Vectors.ScalarMul | src/vec3.rs:48-54 | scalar times vector scales every component |
| Vectors.Mul | src/vec3.rs:56-62 | the Hadamard product multiplies matching components |
| Vectors.Div | src/vec3.rs:64-70 | every component is divided by the non-zero scalar |
| Vectors.Neg | src/vec3.rs:108-114 | every component is negated |
| Vectors.AddSubInverse | src/vec3.rs:8-30 | subtracting undoes adding, and `a - b == a + (-b)` |
| Vectors.ScalarOpsInverse | src/vec3.rs:16-70 | scalar `-` undoes scalar `+`; `/ c` undoes `* c` and equals `* (1/c)`; `v * c == c * v`; negation is an involution and equals `-1 * v` |
| Vectors.AddLaws | src/vec3.rs:8-14 | `+` is commutative and associative with `ZERO` as unit; `ONE` is the unit of the Hadamard product |
| Vectors.Vec3Cell.AddAssign | src/vec3.rs:72-76 | `+=` leaves the place holding the `+` of its old value and the operand |
| Vectors.Vec3Cell.AddAssignScalar | src/vec3.rs:78-82 | scalar `+=` leaves the place holding the scalar `+` of its old value |
| Vectors.Vec3Cell.SubAssign | src/vec3.rs:84-88 | `-=` leaves the place holding the `-` of its old value and the operand |
| Vectors.Vec3Cell.SubAssignScalar | src/vec3.rs:90-94 | scalar `-=` leaves the place holding the scalar `-` of its old value |
| Vectors.Vec3Cell.MulAssign | src/vec3.rs:96-100 | `*=` leaves the place holding its old value times the scalar |
| Vectors.Vec3Cell.DivAssign | src/vec3.rs:102-106 | `/=` leaves the place holding its old value divided by the scalar |
| Vectors.Dot | src/vec3.rs:164-166 | the sum of the component products; it has no contract of its own: `DotBilinear`, `DotZero` and `CauchySchwarz` state its laws and `Cross` states its zeros |
| Vectors.MagSquared | src/vec3.rs:160-162 | `v · v`; it has no contract of its own: `MagSquaredSign` states its sign and its only zero, and `CauchySchwarz` bounds `(a·b)²` by it |
| Vectors.MagSquaredSign | src/vec3.rs:160-166 | `mag_squared` is never negative, and it is 0 exactly for `ZERO` |
| Vectors.Cross | src/vec3.rs:168-174 | the cross product is orthogonal to both operands |
| Vectors.CrossAntiCommutes | src/vec3.rs:168-174 | `a × b == -(b × a)` |
| Vectors.LagrangeIdentity | src/vec3.rs:160-174 | `|a|²|b|² - (a·b)² == |a × b|²` |
| Vectors.CauchySchwarz | src/vec3.rs:160-174 | `(a·b)² <= |a|²|b|²` |
| Vectors.ZeroMagnitudeOrthogonal | src/vec3.rs:160-166 | a vector of squared magnitude 0 has dot product 0 with everything |
| Vectors.DotZero | src/vec3.rs:164-166 | the dot product with `ZERO` is 0 on either side |
| Vectors.DotBilinear | src/vec3.rs:164-166 | `dot` is linear in its first argument, `(a ± b)·n = a·n ± b·n` and `(k a)·b = k (a·b)`, and symmetric |
| Vectors.Reflect | src/vec3.rs:180-182 | for a unit normal, the reflection negates the component along the normal |
| Vectors.ReflectInvolution | src/vec3.rs:180-182 | reflecting twice in the same unit normal gives back the original vector |
| Vectors.RandomInUnitSphere | src/vec3.rs:120-132 | the loop returns the first trial in the unit ball; it returns one exactly when some trial is accepted, and the result has squared magnitude at most 1 |
| Vectors.RandomInUnitDisk | src/vec3.rs:134-146 | as for the sphere, with `z == 0` |
| Vectors.IterStep | src/vec3.rs:199-208 | one `next` call as a value: below index 3 the component at the index and the index plus one, otherwise `None` and the same index; the iterator classes' `Next` ensures it, and `IterYieldsComponents` states what repeated calls return |
| Vectors.IterYieldsComponents | src/vec3.rs:197-209 | successive `next` calls from index 0 yield x, y, z and then `None` forever; the index stops at 3 |
| Vectors.Vec3Iterator.constructor | src/vec3.rs:211-217 | `(&v).into_iter()` starts at index 0 over `v` |
| Vectors.Vec3Iterator.Next | src/vec3.rs:197-209 | `next` returns the component at the old index and advances, or returns `None` and stays at 3 or above |
| Vectors.Vec3IntoIterator.constructor | src/vec3.rs:238-244 | `v.into_iter()` starts at index 0 over its own copy of `v` |
| Vectors.Vec3IntoIterator.Next | src/vec3.rs:224-236 | same state machine as the borrowing iterator |
| Rays.Ray.At | src/hit.rs:64 | `at(t) - origin == t * direction`, and `at(0)` is the origin |
| Hits.Interval.WithEnd | src/hit.rs:103 | `t_range.end = e` keeps the start, and the new range holds exactly the `t` with `start <= t < e` |
| Hits.EmptyContainsNothing | src/hit.rs:63 | an empty or inverted range contains no `t`; a non-empty one contains its start |
| Hits.NewHit | src/hit.rs:16-35 | `front_face` holds iff `dir · outward < 0`; the normal is `outward` when facing front and `-outward` otherwise, so `dir · normal <= 0`; point, `t` and material pass through unchanged |
| Hits.SphereQuadratic | src/hit.rs:53-57 | a positive discriminant implies `a > 0` and a non-zero radius |
| Hits.PositiveDiscriminant | src/hit.rs:53-59 | the same fact, shown by Cauchy-Schwarz on `oc` and the direction |
| Hits.SurfaceHit | src/hit.rs:64-70 | the hit is at `ray.at(t)` and carries `t` and the sphere's material; with `o = (point - center) / radius`, `front_face` holds iff `dir · o < 0`, the normal is `o` when facing front and `-o` otherwise, so it faces the ray |
| Hits.SphereHit | src/hit.rs:52-88 | `None` whenever the discriminant is at most 0; otherwise the near root when it is in range, else the far root when that is, else `None`; a returned `t` is always in the half-open range |
| Hits.NearRoot | src/hit.rs:62 | the smaller candidate `(-half_b - root) / a`; it has no contract of its own: `RootsOrdered` places it below `FarRoot`, and `RootSolves` shows it solves the quadratic when `root` is the exact square root of the discriminant |
| Hits.FarRoot | src/hit.rs:74 | the larger candidate `(-half_b + root) / a`, with the same partner lemmas as `NearRoot` |
| Hits.RootsOrdered | src/hit.rs:60-74 | with `a > 0` and `root >= 0`, the near root is at most the far root |
| Hits.SphereHitNearestRoot | src/hit.rs:60-84 | with a non-negative `sqrt`, a returned hit is one of the two roots, no larger than any root in range |
| Hits.SphereHitOnSurface | src/hit.rs:60-79 | with an exact `sqrt`, a returned point lies on the sphere and its normal has unit length |
| Hits.SurfacePoint | src/hit.rs:64-67 | at a root of the quadratic, the point is on the sphere and `(point - center) / radius` is a unit vector |
| Hits.Intersect | src/hit.rs:52-109 | a returned hit's `t` lies in the range, and an empty or inverted range gives `None`, for spheres and lists alike |
| Hits.Scan | src/hit.rs:101-108 | the loop's result is the hit it started with or a hit in its range |
| Hits.Cut | src/hit.rs:103 | a hit survives a cut at `e` exactly when its `t` is below `e` |
| Hits.ScanCurrent | src/hit.rs:99-108 | the current hit of the loop survives only when no later child hits |
| Hits.Narrowing | src/hit.rs:98-109 | for a non-negative `sqrt` (`SqrtNonNeg(sqrt)`) and `e` not beyond the range's end (`AtMost(e, range.end)`), hitting with the range's end lowered to `e` equals hitting with the whole range and dropping a hit at `e` or beyond |
| Hits.ScanNarrowing | src/hit.rs:101-106 | under the same two hypotheses, `SqrtNonNeg(sqrt)` and `AtMost(e, range.end)`, the same for the rest of a list's loop |
| Hits.ChildHits | src/hit.rs:101-102 | entry `j` is child `j` hit against the original range |
| Hits.NearestStep | src/hit.rs:101-105 | one iteration keeps the invariant "the current hit is the nearest of the children seen, the earliest winning ties, and `None` iff all of them missed" |
| Hits.NearerHit | src/hit.rs:102-104 | a child that hits strictly before the current hit becomes the current hit |
| Hits.NoNearerHit | src/hit.rs:102-105 | a child that misses, or hits no earlier, leaves the current hit in place |
| Hits.HittableListHit | src/hit.rs:98-109 | the loop computes `Intersect` of the list; with a non-negative `sqrt` its result is `None` iff no child hits in the original range, and otherwise the hit of a child that is no later than every child's hit and strictly earlier than every earlier child's |
| Materials.LambertianScatter | src/material.rs:14-18 | scattering never absorbs; the attenuation is the albedo, the new ray starts at the hit point, and its direction minus the normal is the unit-vector sample |
| Materials.LambertianIgnoresIncoming | src/material.rs:14 | the incoming ray does not affect the result |
| Materials.LambertianLeavesSurface | src/material.rs:15 | with a unit normal and a unit sample, the scattered direction never points into the surface |
| Cameras.NewCamera | src/camera.rs:16-47 | the origin is kept; `up` is normalised; `right = up × forward` of the normalised inputs is orthogonal to both; the viewport height is `2h`, its width the aspect ratio times the height, and `horizontal`/`vertical` scale `right`/`up` by focus distance times width/height; `lens_radius = aperture / 2` |
| Cameras.ViewportCentre | src/camera.rs:35-42 | `lower_left_corner + horizontal/2 + vertical/2` is `origin + forward * focus_distance` |
| Cameras.GetRay | src/camera.rs:49-57 | origin plus direction is the viewport point at `(u, v)` for every lens sample; the origin is the camera origin offset by `right * rd.x + up * rd.y` with `rd = lens_radius * sample`, and exactly the camera origin when the lens radius is 0 |
| Cameras.RayReachesViewport | src/camera.rs:49-57 | the camera ray reaches its viewport point at `t = 1` |
| Cameras.PinholeCamera | src/camera.rs:43-54 | with aperture 0 every ray starts at the camera origin |
| Renderer.Background | src/lib.rs:126-130 | for `ŷ ∈ [-1, 1]` the sky colour lies between white and `(0.5, 0.7, 1.0)` in every component |
| Renderer.RayColor | src/lib.rs:114-132 | depth 0 gives `ZERO` whatever the scene |
| Renderer.RayColorBounded | src/lib.rs:114-132 | with attenuations in [0, 1], every component of `ray_color` stays in [0, 1] at every depth |
| Renderer.CameraSample | src/lib.rs:100-104 | sample `s` of pixel `(i, j)`: `ray_color` of the camera ray through the jittered viewport fractions `(i + du) / (width - 1)` and `(j + dv) / (height - 1)`; it has no contract of its own: `CameraSampleInUnitCube` bounds its colours and `RenderThread` sums them |
| Renderer.CameraSampleInUnitCube | src/lib.rs:99-104 | with attenuations in [0, 1], every sample colour `render_thread` adds is in the unit cube |
| Renderer.Clamp | src/lib.rs:136-138 | `clamp` returns `x` on `[min, max]`, `min` below it and `max` above it |
| Renderer.ChannelByte | src/lib.rs:77 | the byte is at most 254; on [0, 0.999] it is `floor(255 c)`, a non-positive channel gives 0 and a channel of 0.999 or more gives 254 |
| Renderer.QuotientByte | src/lib.rs:76-77 | division by a non-zero count and then conversion; for a zero count, 0 exactly for negative sums, otherwise 254 |
| Renderer.PixelBytes | src/lib.rs:76-77 | three bytes per pixel, x then y then z |
| Renderer.Quantise | src/lib.rs:76-78 | three bytes per pixel, each at most 254 |
| Renderer.QuantiseAt | src/lib.rs:76-78 | byte `3p + i` is component `i` of pixel `p`, divided and converted |
| Renderer.Row | src/lib.rs:97-108 | a row has `width` pixels, column `i` holding the sum of its samples |
| Renderer.Rows | src/lib.rs:93-109 | `k` rows hold `k * width` pixels |
| Renderer.RowsAt | src/lib.rs:93-109 | pixel `r * width + i` is column `i` of row `height - 1 - r`: rows descend, columns ascend |
| Renderer.RenderThread | src/lib.rs:81-112 | the buffer has `width * height` pixels and equals the row-by-row image of per-pixel sample sums |
| Renderer.SampleSum | src/lib.rs:98-105 | the sum of a pixel's first `n` samples, in sample order; it has no contract of its own: `SampleSumConstant` and `SampleSumBounded` state its value and bounds |
| Renderer.SampleSumConstant | src/lib.rs:98-105 | a pixel whose samples are all `c` sums to `n * c` |
| Renderer.ZeroSamplesBlack | src/lib.rs:98-107 | with 0 samples every pixel is `ZERO` |
| Renderer.RowsUniform | src/lib.rs:93-109 | when every pixel sum is `v`, every pixel of the buffer is `v` |
| Renderer.SampleSumBounded | src/lib.rs:98-105 | `n` samples in the unit cube sum to a colour with components in [0, n] |
| Renderer.ThreadImageBounded | src/lib.rs:93-109 | every pixel of such a buffer has components in [0, n] |
| Renderer.MergeInto | src/lib.rs:65-70 | after the merge loop every pixel is its old value plus that pixel of each buffer, in order; the buffer keeps its length |
| Renderer.Accumulate | src/lib.rs:65-70 | pixel `p` of the result after adding the buffers in order, a missing pixel reading as `ZERO`; it has no contract of its own: `MergeInto` ensures the merge loop computes it and `AccumulateUniform` gives its value for uniform buffers |
| Renderer.AccumulateUniform | src/lib.rs:65-70 | adding `m` buffers that all hold `v` at a pixel adds `m * v` |
| Renderer.ThreadImages | src/lib.rs:48-59 | thread `k`'s buffer is rendered from its own samples |
| Renderer.MergedImage | src/lib.rs:64-71 | the merged buffer is the popped last buffer plus the others, pixel by pixel |
| Renderer.MergeThreadImages | src/lib.rs:64-71 | `None`, the `unwrap` panic, exactly when there is no buffer; otherwise the merged buffer |
| Renderer.RenderSums | src/lib.rs:33-74 | no sums, the panic, iff the thread count is 0; one thread takes every sample; more threads each take `samples_per_pixel / thread_count` samples and are merged |
| Renderer.Render | src/lib.rs:23-79 | the image is those sums divided by `samples_per_pixel` and quantised; `None` iff the thread count is 0 |
| Renderer.SamplesTaken | src/lib.rs:56 | the samples a merged pixel sums are at most `samples_per_pixel`, and equal to it iff the thread count divides it |
| Renderer.MergedConstant | src/lib.rs:48-71 | with every sample `c`, each merged pixel is `count * n * c` |
| Renderer.ThreadImagesUniform | src/lib.rs:48-59 | with every sample `c`, pixel `p` of every thread buffer is `n * c` |
| Renderer.MeanOfCopies | src/lib.rs:76-77 | `m` copies of a channel divided by `m` convert to the channel's own byte |
| Renderer.ConstantSceneBytes | src/lib.rs:48-78 | with every sample `c`, each output byte is the samples actually taken times the channel of `c`, divided by the divisor and converted |
| Renderer.ThreadSplitDarkens | src/lib.rs:56-76 | at any image size, 5 samples of colour 0.5 over 2 threads give byte 102 in every channel, not the 127 of the mean |
| Renderer.RenderCorrected | src/lib.rs:23-79 | `render` dividing by the samples actually taken |
| Renderer.CorrectedKeepsMean | src/lib.rs:56-76 | with the corrected divisor and `1 < thread_count <= samples_per_pixel`, a constant colour is rendered as that colour |
| Renderer.CorrectedWithoutSamples | src/lib.rs:56-76 | with more threads than samples every thread takes none, the corrected divisor is 0, and a constant colour with no negative component renders as 254 in every channel |
| Program.ImageHeightValue | src/main.rs:20-22 | `IMAGE_HEIGHT` is 1080, and the truncating cast loses nothing |
| Program.RayColor | src/main.rs:28-46 | every depth at most 0, negative ones included, gives `ZERO` |
| Program.RayColorMatchesLibrary | src/main.rs:28-46 | for every depth at least 0 the binary's `ray_color` is the library's: same hit, absorb and miss cases, depth decreasing by 1 |
| Program.BinarySample | src/main.rs:192-196 | sample `s` of pixel `(i, j)`: the binary's `ray_color` at the given depth of the camera ray through the jittered viewport fractions; `BinarySampleMatchesLibrary` ties it to the library's sample |
| Program.BinarySampleMatchesLibrary | src/main.rs:192-196 | for sizes other than 1 and a depth of at least 0 the binary's sample is the library's `CameraSample` at the same depth |
| Program.PixelSample | src/main.rs:192-196 | the sample of `render`: 1920 by 1080 at `MAX_DEPTH`; `PixelSampleMatchesLibrary` and `PixelSampleInUnitCube` state what it is and its bound |
| Program.PixelSampleMatchesLibrary | src/main.rs:21-23 | `IMAGE_HEIGHT` is not 1, and each sample of `render` is the library's camera sample at depth 50 on the binary's image size |
| Program.PixelSampleInUnitCube | src/main.rs:192-196 | with attenuations in [0, 1], every sample `render` adds is in the unit cube |
| Program.Render | src/main.rs:187-203 | `IMAGE_WIDTH * IMAGE_HEIGHT` pixels, each the sum of `SAMPLES_PER_THREAD` samples |
| Program.RenderScene | src/main.rs:183-204 | `render(scene, camera)`: the buffer is the row-by-row image of the sums of `SAMPLES_PER_THREAD` `PixelSample`s, `IMAGE_WIDTH * IMAGE_HEIGHT` pixels |
| Program.RenderImage | src/main.rs:218-242 | `THREAD_COUNT` buffers merged into the popped one, divided by `SAMPLES_PER_THREAD * THREAD_COUNT` and quantised: 3 bytes per pixel |
| Program.DivisorIsSamplesTaken | src/main.rs:25-26 | the binary's divisor equals the samples its threads take per pixel |
| Program.RenderImageKeepsMean | src/main.rs:236-239 | so a constant colour is rendered as that colour |
| Program.TestScene | src/main.rs:48-101 | the test scene has 4 spheres; the camera sits at `(0, 1.5, -2)` with lens radius 0.05 |
| Program.CellRoundTrip | src/main.rs:118-119 | the object index of grid cell `(a, b)` maps back to `(a, b)` |
| Program.PlaceCell | src/main.rs:118-160 | pushing cell `(a, b)`'s sphere at that cell's index keeps every pushed sphere in the cell its index names |
| Program.CellsByIndex | src/main.rs:118-160 | once all 23·23 cells are pushed, cell `(a, b)`'s sphere sits at index `1 + 23(a + 11) + (b + 11)` |
| Program.CellSphere | src/main.rs:120-159 | one grid cell: a sphere of radius 0.2 at height 0.2, taking 3, 6 or 7 draws; with draws in [0, 1) its centre lies in cell `(a, b)` and its material has the diffuse, metal or glass parameter ranges |
| Program.RandomScene | src/main.rs:103-181 | 1 + 23·23 = 530 objects: the ground first, then spheres of radius 0.2 at height 0.2; with draws in [0, 1), cell `(a, b)`'s sphere has its centre in the cell and a diffuse, metal or glass material with the stated parameter ranges; the camera is built from the normalised forward direction |

## Left out

- Printing, command-line arguments, the output file and the PNG encoder in `main`
  are I/O, as is the progress output of `render_thread`. They are not modelled.
- Thread spawning and joining are concurrency. The buffers are produced in order,
  one per thread. `join().unwrap()` cannot fail in the model.
- `serialize_scene` and `deserialize_scene` are wrappers over serialisation
  libraries. They are not modelled.
- `mag`, `normalized`, `refract`, `random_unit_vector` and the degree-to-radian
  `tan` computation are floating-point numerics. They are parameters, or outside the
  model.
- The scatter of `Metal` and `Dielectric` is not part of this model. Their source is
  not among the modelled files, so `ray_color` takes a generic `scatter` function.
- f64 rounding is not modelled. NaN and infinities are modelled only where a
  division by a zero sample count produces them (`QuotientByte`). Saturation of
  `as u8` beyond the clamped range cannot occur.
- `Renderer.CameraSample`: the viewport fractions divide by `width - 1` and
  `height - 1`. It requires neither size to be 1. A size of 1 divides by zero
  (f64 infinity or NaN, which the model does not represent). A size of 0 gives an
  empty buffer: the subtraction sits inside the loops and never runs.
- `Renderer.RenderCorrected`: the corrected divisor keeps the mean only when every
  thread takes at least one sample. With more threads than samples it is 0 as
  well, which `Renderer.CorrectedWithoutSamples` shows; the source as written divides
  the zero sums by `samples_per_pixel` instead, which gives black when that is positive. Neither is a meaningful image, and the model does not choose
  a divisor for that case.
- `Renderer.RenderThread`: the buffer's capacity `(img_width * img_height) as usize`
  is a product of two `u32` values (src/lib.rs:91). At 2^32 pixels or more it wraps,
  or panics in a debug build. The model multiplies unbounded naturals.
- `Vectors.RandomInUnitSphere`, `Vectors.RandomInUnitDisk`: the Rust loops draw
  forever. The model reads a finite sequence of draws and returns `None` when it
  runs out.
- `Hits.HittableListHit`: the "nearest hit" half of the contract assumes a
  non-negative `sqrt`. The first half holds for any `sqrt`.
- `Hits.SphereHitOnSurface`: assumes an exact `sqrt`. `f64::sqrt` rounds.
- `Renderer.RayColor`: the per-bounce random draws are a function of the remaining
  depth. That is how the model threads one generator's draws through the recursion.
- The random generator itself is not modelled. Every draw is an input.

## Findings

| source | as written | input that shows it | evidently intended | confidence | as-written member | corrected member |
|---|---|---|---|---|---|---|
| src/lib.rs:56-76 | each of `thread_count > 1` threads takes `samples_per_pixel / thread_count` samples (integer division), but the merged sums are divided by `samples_per_pixel` | any image size, `samples_per_pixel = 5`, `thread_count = 2`, every sample `(0.5, 0.5, 0.5)`: each pixel sums 4 samples to 2.0, and 2.0 / 5 gives byte 102 instead of 127 | divide by the samples actually taken, `thread_count * (samples_per_pixel / thread_count)`, as `main` does with `SAMPLES_PER_THREAD * THREAD_COUNT` | not executed | Renderer.Render (lemma Renderer.ThreadSplitDarkens) | Renderer.RenderCorrected (lemma Renderer.CorrectedKeepsMean) |
