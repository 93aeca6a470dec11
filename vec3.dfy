/** Model of `src/vec3.rs`: the 3-component vector used for points, directions and colours. */
module Vectors {
  import opened Wrappers

  /** `Vec3(f64, f64, f64)`, with `f64` taken as an exact real (no rounding, NaN or infinity). */
  datatype Vec3 = Vec3(x: real, y: real, z: real)

  const Zero: Vec3 := Vec3(0.0, 0.0, 0.0)
  const One: Vec3 := Vec3(1.0, 1.0, 1.0)

  /** The i-th component, in the order the iterators yield them: x, y, z. */
  function Component(v: Vec3, i: nat): real
    requires i < 3
  {
    if i == 0 then v.x else if i == 1 then v.y else v.z
  }

  // ---------------------------------------------------------------------------
  // Operator impls. Each one acts on every component separately.

  /** `impl Add<Vec3> for Vec3` */
  function Add(a: Vec3, b: Vec3): (r: Vec3)
    ensures forall i :: 0 <= i < 3 ==> Component(r, i) == Component(a, i) + Component(b, i)
  {
    Vec3(a.x + b.x, a.y + b.y, a.z + b.z)
  }

  /** `impl Add<f64> for Vec3` */
  function AddScalar(v: Vec3, c: real): (r: Vec3)
    ensures forall i :: 0 <= i < 3 ==> Component(r, i) == Component(v, i) + c
  {
    Vec3(v.x + c, v.y + c, v.z + c)
  }

  /** `impl Sub<Vec3> for Vec3` */
  function Sub(a: Vec3, b: Vec3): (r: Vec3)
    ensures forall i :: 0 <= i < 3 ==> Component(r, i) == Component(a, i) - Component(b, i)
  {
    Vec3(a.x - b.x, a.y - b.y, a.z - b.z)
  }

  /** `impl Sub<f64> for Vec3` */
  function SubScalar(v: Vec3, c: real): (r: Vec3)
    ensures forall i :: 0 <= i < 3 ==> Component(r, i) == Component(v, i) - c
  {
    Vec3(v.x - c, v.y - c, v.z - c)
  }

  /** `impl Mul<f64> for Vec3`: `v * c` */
  function MulScalar(v: Vec3, c: real): (r: Vec3)
    ensures forall i :: 0 <= i < 3 ==> Component(r, i) == Component(v, i) * c
  {
    Vec3(v.x * c, v.y * c, v.z * c)
  }

  /** `impl Mul<Vec3> for f64`: `c * v` */
  function ScalarMul(c: real, v: Vec3): (r: Vec3)
    ensures forall i :: 0 <= i < 3 ==> Component(r, i) == c * Component(v, i)
  {
    Vec3(c * v.x, c * v.y, c * v.z)
  }

  /** `impl Mul<Vec3> for Vec3`: the component-wise (Hadamard) product, used for colours. */
  function Mul(a: Vec3, b: Vec3): (r: Vec3)
    ensures forall i :: 0 <= i < 3 ==> Component(r, i) == Component(a, i) * Component(b, i)
  {
    Vec3(a.x * b.x, a.y * b.y, a.z * b.z)
  }

  /** `impl Div<f64> for Vec3`. Division by 0.0 (an infinity or NaN in f64) is excluded. */
  function Div(v: Vec3, c: real): (r: Vec3)
    requires c != 0.0
    ensures forall i :: 0 <= i < 3 ==> Component(r, i) == Component(v, i) / c
  {
    Vec3(v.x / c, v.y / c, v.z / c)
  }

  /** `impl Neg for Vec3` */
  function Neg(v: Vec3): (r: Vec3)
    ensures forall i :: 0 <= i < 3 ==> Component(r, i) == -Component(v, i)
  {
    Vec3(-v.x, -v.y, -v.z)
  }

  // Algebraic partners of the operators.

  lemma AddSubInverse(a: Vec3, b: Vec3)
    ensures Sub(Add(a, b), b) == a && Add(Sub(a, b), b) == a
    ensures Sub(a, b) == Add(a, Neg(b))
  {
  }

  lemma ScalarOpsInverse(v: Vec3, c: real)
    ensures SubScalar(AddScalar(v, c), c) == v
    ensures c != 0.0 ==> Div(MulScalar(v, c), c) == v && Div(v, c) == MulScalar(v, 1.0 / c)
    ensures MulScalar(v, c) == ScalarMul(c, v)
    ensures Neg(Neg(v)) == v && Neg(v) == ScalarMul(-1.0, v)
  {
  }

  lemma AddLaws(a: Vec3, b: Vec3, c: Vec3)
    ensures Add(a, b) == Add(b, a)
    ensures Add(Add(a, b), c) == Add(a, Add(b, c))
    ensures Add(a, Zero) == a && Add(Zero, a) == a
    ensures Mul(a, One) == a
  {
  }

  // ---------------------------------------------------------------------------
  // Products and magnitudes.

  function Dot(a: Vec3, b: Vec3): real
  {
    a.x * b.x + a.y * b.y + a.z * b.z
  }

  /** `mag_squared`: the dot product of a vector with itself. */
  function MagSquared(v: Vec3): real
  {
    Dot(v, v)
  }

  /** A squared magnitude is never negative, and it is 0 only for `ZERO`. */
  lemma MagSquaredSign(v: Vec3)
    ensures MagSquared(v) >= 0.0
    ensures MagSquared(v) == 0.0 <==> v == Zero
  {
    SquareSign(v.x);
    SquareSign(v.y);
    SquareSign(v.z);
    assert MagSquared(v) == Square(v.x) + Square(v.y) + Square(v.z);
  }

  /**
   * A real square. Facts about squares are stated through this function so that
   * the solver keeps them as linear facts about the term `Square(a)`.
   */
  function Square(a: real): real
  {
    a * a
  }

  lemma ProductPositive(a: real, b: real, p: real)
    requires 0.0 < a && 0.0 < b && p == a * b
    ensures 0.0 < p
  {
  }

  lemma ProductNonNegative(a: real, b: real, p: real)
    requires 0.0 <= a && 0.0 <= b && p == a * b
    ensures 0.0 <= p
  {
    if a > 0.0 && b > 0.0 {
      ProductPositive(a, b, p);
    }
  }

  lemma SquareSign(a: real)
    ensures Square(a) >= 0.0
    ensures a != 0.0 ==> Square(a) > 0.0
  {
    if a < 0.0 {
      ProductPositive(-a, -a, Square(a));
    } else if a > 0.0 {
      ProductPositive(a, a, Square(a));
    }
  }

  /** `cross`: the result is orthogonal to both operands. */
  function Cross(a: Vec3, b: Vec3): (r: Vec3)
    ensures Dot(r, a) == 0.0 && Dot(r, b) == 0.0
  {
    Vec3(a.y * b.z - a.z * b.y, a.z * b.x - a.x * b.z, a.x * b.y - a.y * b.x)
  }

  lemma CrossAntiCommutes(a: Vec3, b: Vec3)
    ensures Cross(a, b) == Neg(Cross(b, a))
  {
  }

  /** Lagrange's identity, which gives the Cauchy-Schwarz inequality below. */
  lemma LagrangeIdentity(a: Vec3, b: Vec3)
    ensures MagSquared(a) * MagSquared(b) - Dot(a, b) * Dot(a, b) == MagSquared(Cross(a, b))
  {
  }

  /** The Cauchy-Schwarz inequality. */
  lemma CauchySchwarz(a: Vec3, b: Vec3)
    ensures Square(Dot(a, b)) <= MagSquared(a) * MagSquared(b)
  {
    LagrangeIdentity(a, b);
    MagSquaredSign(Cross(a, b));
    assert Dot(a, b) * Dot(a, b) <= MagSquared(a) * MagSquared(b);
  }

  /** A zero vector is orthogonal to everything. */
  lemma ZeroMagnitudeOrthogonal(a: Vec3, b: Vec3)
    ensures MagSquared(b) == 0.0 ==> Dot(a, b) == 0.0
  {
    MagSquaredSign(b);
    if MagSquared(b) == 0.0 {
      assert b == Zero;
      DotZero(a);
    }
  }

  lemma DotZero(a: Vec3)
    ensures Dot(a, Zero) == 0.0 && Dot(Zero, a) == 0.0
  {
  }

  lemma DotBilinear(a: Vec3, b: Vec3, n: Vec3, k: real)
    ensures Dot(Add(a, b), n) == Dot(a, n) + Dot(b, n)
    ensures Dot(Sub(a, b), n) == Dot(a, n) - Dot(b, n)
    ensures Dot(ScalarMul(k, a), b) == k * Dot(a, b)
    ensures Dot(ScalarMul(k, n), n) == k * Dot(n, n)
    ensures Dot(a, n) == Dot(n, a)
  {
  }

  /** `reflect`: mirror `v` in the plane whose normal is `normal`. */
  function Reflect(v: Vec3, normal: Vec3): (r: Vec3)
    ensures MagSquared(normal) == 1.0 ==> Dot(r, normal) == -Dot(v, normal)
  {
    DotBilinear(v, ScalarMul(2.0 * Dot(v, normal), normal), normal, 2.0 * Dot(v, normal));
    Sub(v, ScalarMul(2.0 * Dot(v, normal), normal))
  }

  /** Reflecting twice in the same unit normal gives back the original vector. */
  lemma ReflectInvolution(v: Vec3, normal: Vec3)
    requires MagSquared(normal) == 1.0
    ensures Reflect(Reflect(v, normal), normal) == v
  {
    var r := Reflect(v, normal);
    assert Dot(r, normal) == -Dot(v, normal);
    calc {
      Reflect(r, normal);
      Sub(r, ScalarMul(2.0 * Dot(r, normal), normal));
      Sub(r, ScalarMul(-2.0 * Dot(v, normal), normal));
      v;
    }
  }

  // ---------------------------------------------------------------------------
  // Rejection sampling. The random generator is replaced by a finite sequence of
  // draws, each standing for one `rng.gen::<f64>()`; trial k uses the draws
  // starting at 3k (sphere) or 2k (disk). The Rust loops never give up; here
  // `None` means that the supplied draws ran out before a candidate was accepted.

  function SphereTrial(draws: seq<real>, k: nat): Vec3
    requires 3 * k + 3 <= |draws|
  {
    Vec3(draws[3 * k] * 2.0 - 1.0, draws[3 * k + 1] * 2.0 - 1.0, draws[3 * k + 2] * 2.0 - 1.0)
  }

  function DiskTrial(draws: seq<real>, k: nat): Vec3
    requires 2 * k + 2 <= |draws|
  {
    Vec3(draws[2 * k] * 2.0 - 1.0, draws[2 * k + 1] * 2.0 - 1.0, 0.0)
  }

  /** `random_in_unit_sphere`: the first trial whose squared magnitude is at most 1. */
  method RandomInUnitSphere(draws: seq<real>) returns (v: Option<Vec3>)
    ensures v.Some? ==> MagSquared(v.value) <= 1.0
    ensures v.Some? <==> exists k: nat :: 3 * k + 3 <= |draws| && MagSquared(SphereTrial(draws, k)) <= 1.0
    ensures v.Some? ==> exists k: nat :: 3 * k + 3 <= |draws| && v.value == SphereTrial(draws, k) &&
                          forall j: nat :: j < k ==> MagSquared(SphereTrial(draws, j)) > 1.0
  {
    var k: nat := 0;
    while 3 * k + 3 <= |draws|
      invariant 3 * k <= |draws|
      invariant forall j: nat :: j < k ==> MagSquared(SphereTrial(draws, j)) > 1.0
      decreases |draws| - 3 * k
    {
      var candidate := SphereTrial(draws, k);
      if MagSquared(candidate) <= 1.0 {
        return Some(candidate);
      }
      k := k + 1;
    }
    return None;
  }

  /** `random_in_unit_disk`: as above, with the z component fixed at 0. */
  method RandomInUnitDisk(draws: seq<real>) returns (v: Option<Vec3>)
    ensures v.Some? ==> MagSquared(v.value) <= 1.0 && v.value.z == 0.0
    ensures v.Some? <==> exists k: nat :: 2 * k + 2 <= |draws| && MagSquared(DiskTrial(draws, k)) <= 1.0
    ensures v.Some? ==> exists k: nat :: 2 * k + 2 <= |draws| && v.value == DiskTrial(draws, k) &&
                          forall j: nat :: j < k ==> MagSquared(DiskTrial(draws, j)) > 1.0
  {
    var k: nat := 0;
    while 2 * k + 2 <= |draws|
      invariant 2 * k <= |draws|
      invariant forall j: nat :: j < k ==> MagSquared(DiskTrial(draws, j)) > 1.0
      decreases |draws| - 2 * k
    {
      var candidate := DiskTrial(draws, k);
      if MagSquared(candidate) <= 1.0 {
        return Some(candidate);
      }
      k := k + 1;
    }
    return None;
  }

  // ---------------------------------------------------------------------------
  // Compound assignment. `&mut Vec3` is a mutable place holding a vector.

  class Vec3Cell {
    var value: Vec3

    constructor (v: Vec3)
      ensures value == v
    {
      value := v;
    }

    /** `impl AddAssign<Vec3> for Vec3` */
    method AddAssign(other: Vec3)
      modifies this
      ensures value == Add(old(value), other)
    {
      value := Vec3(value.x + other.x, value.y + other.y, value.z + other.z);
    }

    /** `impl AddAssign<f64> for Vec3` */
    method AddAssignScalar(c: real)
      modifies this
      ensures value == AddScalar(old(value), c)
    {
      value := Vec3(value.x + c, value.y + c, value.z + c);
    }

    /** `impl SubAssign<Vec3> for Vec3` */
    method SubAssign(other: Vec3)
      modifies this
      ensures value == Sub(old(value), other)
    {
      value := Vec3(value.x - other.x, value.y - other.y, value.z - other.z);
    }

    /** `impl SubAssign<f64> for Vec3` */
    method SubAssignScalar(c: real)
      modifies this
      ensures value == SubScalar(old(value), c)
    {
      value := Vec3(value.x - c, value.y - c, value.z - c);
    }

    /** `impl MulAssign<f64> for Vec3` */
    method MulAssign(c: real)
      modifies this
      ensures value == MulScalar(old(value), c)
    {
      value := Vec3(value.x * c, value.y * c, value.z * c);
    }

    /** `impl DivAssign<f64> for Vec3` */
    method DivAssign(c: real)
      requires c != 0.0
      modifies this
      ensures value == Div(old(value), c)
    {
      value := Vec3(value.x / c, value.y / c, value.z / c);
    }
  }

  // ---------------------------------------------------------------------------
  // Iterators over the three components. Both Rust iterators share this state
  // machine: indices 0, 1, 2 yield x, y, z and advance; any later index yields
  // `None` and stays where it is.

  function IterStep(v: Vec3, index: nat): (Option<real>, nat)
  {
    if index < 3 then (Some(Component(v, index)), index + 1) else (None, index)
  }

  /** The items returned by `n` consecutive calls of `next`, starting from `index`. */
  function IterRun(v: Vec3, index: nat, n: nat): seq<Option<real>>
    decreases n
  {
    if n == 0 then [] else [IterStep(v, index).0] + IterRun(v, IterStep(v, index).1, n - 1)
  }

  /** The index reached after `n` calls of `next`, starting from `index`. */
  function IterIndex(v: Vec3, index: nat, n: nat): nat
    decreases n
  {
    if n == 0 then index else IterIndex(v, IterStep(v, index).1, n - 1)
  }

  /** A fresh iterator yields x, y, z in that order and then `None` on every later call;
      its index never passes 3. */
  lemma {:induction false} IterYieldsComponents(v: Vec3, index: nat, n: nat)
    requires index <= 3
    ensures |IterRun(v, index, n)| == n
    ensures forall k :: 0 <= k < n ==>
      IterRun(v, index, n)[k] == (if index + k < 3 then Some(Component(v, index + k)) else None)
    ensures IterIndex(v, index, n) == if index + n < 3 then index + n else 3
    decreases n
  {
    if n > 0 {
      var next := IterStep(v, index).1;
      IterYieldsComponents(v, next, n - 1);
      forall k | 0 <= k < n
        ensures IterRun(v, index, n)[k] == (if index + k < 3 then Some(Component(v, index + k)) else None)
      {
        if k > 0 {
          assert IterRun(v, index, n)[k] == IterRun(v, next, n - 1)[k - 1];
          if index == 3 {
            assert next == 3;
          } else {
            assert next + (k - 1) == index + k;
          }
        }
      }
    }
  }

  /** `Vec3Iterator`, the iterator `impl IntoIterator for &Vec3` returns. The borrowed
      vector cannot change while it is borrowed, so the iterator keeps its value. */
  class Vec3Iterator {
    const v: Vec3
    var index: nat

    ghost predicate Valid()
      reads this
    {
      index <= 3
    }

    /** `(&v).into_iter()` */
    constructor (v: Vec3)
      ensures this.v == v && index == 0 && Valid()
    {
      this.v := v;
      index := 0;
    }

    method Next() returns (item: Option<real>)
      requires Valid()
      modifies this
      ensures Valid()
      ensures (item, index) == IterStep(v, old(index))
    {
      if index == 0 {
        item := Some(v.x);
      } else if index == 1 {
        item := Some(v.y);
      } else if index == 2 {
        item := Some(v.z);
      } else {
        return None;
      }
      index := index + 1;
    }
  }

  /** `Vec3IntoIterator`, the iterator `impl IntoIterator for Vec3` returns; it owns its copy. */
  class Vec3IntoIterator {
    const v: Vec3
    var index: nat

    ghost predicate Valid()
      reads this
    {
      index <= 3
    }

    /** `v.into_iter()` */
    constructor (v: Vec3)
      ensures this.v == v && index == 0 && Valid()
    {
      this.v := v;
      index := 0;
    }

    method Next() returns (item: Option<real>)
      requires Valid()
      modifies this
      ensures Valid()
      ensures (item, index) == IterStep(v, old(index))
    {
      if index == 0 {
        item := Some(v.x);
      } else if index == 1 {
        item := Some(v.y);
      } else if index == 2 {
        item := Some(v.z);
      } else {
        return None;
      }
      index := index + 1;
    }
  }
}
