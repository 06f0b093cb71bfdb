/**
 * The in-place extensions that src/zdog.ts adds to zdog's `Vector`, together with the
 * vector arithmetic the engine uses. Coordinates are reals: IEEE rounding is not modelled.
 */
module Vectors {
  import opened Wrappers

  /** The three coordinates of a zdog vector, as a value. */
  datatype Vec3 = Vec3(x: real, y: real, z: real)

  const Zero: Vec3 := Vec3(0.0, 0.0, 0.0)

  function Add(a: Vec3, b: Vec3): Vec3 {
    Vec3(a.x + b.x, a.y + b.y, a.z + b.z)
  }

  function Sub(a: Vec3, b: Vec3): Vec3 {
    Vec3(a.x - b.x, a.y - b.y, a.z - b.z)
  }

  function Scaled(a: Vec3, factor: real): Vec3 {
    Vec3(a.x * factor, a.y * factor, a.z * factor)
  }

  /** The squared length, the argument `magnitude()` hands to the square root. */
  function MagnitudeSq(a: Vec3): real {
    a.x * a.x + a.y * a.y + a.z * a.z
  }

  /** `Math.round`: the nearest integer, halves rounded towards positive infinity. */
  function RoundReal(r: real): (n: int)
    ensures r - 0.5 < n as real <= r + 0.5
  {
    (r + 0.5).Floor
  }

  function Rounded(a: Vec3): Vec3 {
    Vec3(RoundReal(a.x) as real, RoundReal(a.y) as real, RoundReal(a.z) as real)
  }

  predicate IsWhole(a: Vec3) {
    a.x == a.x.Floor as real && a.y == a.y.Floor as real && a.z == a.z.Floor as real
  }

  /**
   * The argument of `add2`/`subtract2`: any object with optional `x`, `y`, `z`;
   * `None` stands for a missing or falsy component.
   */
  datatype Partial = Partial(x: Option<real>, y: Option<real>, z: Option<real>)

  /** A full vector seen as an `add2` argument. */
  function Whole(a: Vec3): Partial {
    Partial(Some(a.x), Some(a.y), Some(a.z))
  }

  /** `c || 0`: a missing component counts as 0 (a present 0 is 0 either way). */
  function OrZero(c: Option<real>): real {
    c.GetOr(0.0)
  }

  function AddPartial(a: Vec3, p: Partial): Vec3 {
    Vec3(a.x + OrZero(p.x), a.y + OrZero(p.y), a.z + OrZero(p.z))
  }

  function SubtractPartial(a: Vec3, p: Partial): Vec3 {
    Vec3(a.x - OrZero(p.x), a.y - OrZero(p.y), a.z - OrZero(p.z))
  }

  /** zdog's `lerp(a, b, alpha) = (b - a) * alpha + a`, per coordinate. */
  function Lerp(a: Vec3, b: Vec3, alpha: real): Vec3 {
    Vec3((b.x - a.x) * alpha + a.x, (b.y - a.y) * alpha + a.y, (b.z - a.z) * alpha + a.z)
  }

  /** What the model assumes of the host's `Math.sqrt`: a non-negative square root. */
  ghost predicate IsSqrt(sqrt: real -> real) {
    forall r: real {:trigger Root(sqrt, r)} :: 0.0 <= r ==> 0.0 <= Root(sqrt, r) && Root(sqrt, r) * Root(sqrt, r) == r
  }

  /** `sqrt(r)`, named so that the law above is applied only where a proof mentions it. */
  ghost function Root(sqrt: real -> real, r: real): real {
    sqrt(r)
  }

  /** zdog's `magnitude()`: the square root of the squared length. */
  function Magnitude(a: Vec3, sqrt: real -> real): real
    requires IsSqrt(sqrt)
  {
    sqrt(MagnitudeSq(a))
  }

  /** The magnitude is non-negative and squares to the squared length. */
  lemma MagnitudeSquared(a: Vec3, sqrt: real -> real)
    requires IsSqrt(sqrt)
    ensures 0.0 <= Magnitude(a, sqrt)
    ensures Magnitude(a, sqrt) * Magnitude(a, sqrt) == MagnitudeSq(a)
  {
    SumOfSquaresNonNegative(a);
    var m := Root(sqrt, MagnitudeSq(a));
  }

  lemma SumOfSquaresNonNegative(a: Vec3)
    ensures 0.0 <= MagnitudeSq(a)
  {
    SquareNonNegative(a.x);
    SquareNonNegative(a.y);
    SquareNonNegative(a.z);
  }

  lemma SquareNonNegative(r: real)
    ensures 0.0 <= r * r
  {
    if r < 0.0 {
      var s := -r;
      assert r * r == s * s;
    }
  }

  /** Squaring is strictly increasing on the non-negative reals. */
  lemma SquareMonotone(a: real, b: real)
    requires 0.0 <= a < b
    ensures a * a < b * b
  {
    var ab := a * b;
    assert a * a <= ab;
    assert ab < b * b;
  }

  /** A non-negative number is the square root of its square. */
  lemma SqrtOfSquare(sqrt: real -> real, r: real)
    requires IsSqrt(sqrt) && 0.0 <= r
    ensures sqrt(r * r) == r
  {
    var s := Root(sqrt, r * r);
    assert 0.0 <= s && s * s == r * r;
    if s < r {
      SquareMonotone(s, r);
    } else if r < s {
      SquareMonotone(r, s);
    }
  }

  /** The zero vector has magnitude zero. */
  lemma MagnitudeOfZero(sqrt: real -> real)
    requires IsSqrt(sqrt)
    ensures Magnitude(Zero, sqrt) == 0.0
  {
    SqrtOfSquare(sqrt, 0.0);
  }

  /**
   * Interpolating towards the origin by a fraction `t` in [0, 1] shrinks the magnitude
   * by exactly that fraction.
   */
  lemma LerpToOrigin(a: Vec3, t: real, sqrt: real -> real)
    requires IsSqrt(sqrt) && 0.0 <= t <= 1.0
    ensures Lerp(a, Zero, t) == Scaled(a, 1.0 - t)
    ensures Magnitude(Lerp(a, Zero, t), sqrt) == (1.0 - t) * Magnitude(a, sqrt)
  {
    var m := Magnitude(a, sqrt);
    MagnitudeSquared(a, sqrt);
    var k := 1.0 - t;
    assert Lerp(a, Zero, t) == Scaled(a, k);
    var km := k * m;
    ScaledMagnitudeSq(a, k);
    SquareOfProduct(k, m);
    assert MagnitudeSq(Scaled(a, k)) == km * km;
    assert 0.0 <= km;
    SqrtOfSquare(sqrt, km);
  }

  lemma SquareOfProduct(k: real, m: real)
    ensures (k * m) * (k * m) == k * k * (m * m)
  {
  }

  lemma ScaledMagnitudeSq(a: Vec3, k: real)
    ensures MagnitudeSq(Scaled(a, k)) == k * k * MagnitudeSq(a)
  {
    SquareOfProduct(k, a.x);
    SquareOfProduct(k, a.y);
    SquareOfProduct(k, a.z);
    var kk := k * k;
    assert kk * (a.x * a.x) + kk * (a.y * a.y) + kk * (a.z * a.z) == kk * MagnitudeSq(a);
  }

  lemma {:induction false} RoundRealOfInteger(n: int)
    ensures RoundReal(n as real) == n
  {
  }

  /** Every coordinate of a rounded vector is an integer, and rounding again changes nothing. */
  lemma RoundedIsWhole(a: Vec3)
    ensures IsWhole(Rounded(a))
    ensures Rounded(Rounded(a)) == Rounded(a)
  {
    RoundRealOfInteger(RoundReal(a.x));
    RoundRealOfInteger(RoundReal(a.y));
    RoundRealOfInteger(RoundReal(a.z));
  }

  /** Over reals, `subtract2(p)` undoes `add2(p)`, and the other way round. */
  lemma SubtractUndoesAdd(a: Vec3, p: Partial)
    ensures SubtractPartial(AddPartial(a, p), p) == a
    ensures AddPartial(SubtractPartial(a, p), p) == a
  {
  }

  /** Adding the zero vector changes nothing. */
  lemma AddZero(a: Vec3)
    ensures Add(a, Zero) == a
  {
  }

  /** `scale(0)` yields the zero vector; `scale(s)` then `scale(t)` is `scale(s * t)`. */
  lemma ScaleLaws(a: Vec3, s: real, t: real)
    ensures Scaled(a, 0.0) == Zero
    ensures Scaled(Scaled(a, s), t) == Scaled(a, s * t)
  {
  }

  /** zdog's `Vector` with the extensions of src/zdog.ts; every mutator returns the receiver. */
  class Vector {
    var x: real
    var y: real
    var z: real

    function Value(): Vec3
      reads this
    {
      Vec3(x, y, z)
    }

    constructor (v: Vec3)
      ensures Value() == v
    {
      x, y, z := v.x, v.y, v.z;
    }

    function IsZero(): (zero: bool)
      reads this
      ensures zero <==> Value() == Zero
    {
      x == 0.0 && y == 0.0 && z == 0.0
    }

    method Add2(position: Partial) returns (self: Vector)
      modifies this
      ensures self == this
      ensures Value() == AddPartial(old(Value()), position)
    {
      x := x + OrZero(position.x);
      y := y + OrZero(position.y);
      z := z + OrZero(position.z);
      self := this;
    }

    method Subtract2(position: Partial) returns (self: Vector)
      modifies this
      ensures self == this
      ensures Value() == SubtractPartial(old(Value()), position)
    {
      x := x - OrZero(position.x);
      y := y - OrZero(position.y);
      z := z - OrZero(position.z);
      self := this;
    }

    method Scale(factor: real) returns (self: Vector)
      modifies this
      ensures self == this
      ensures Value() == Scaled(old(Value()), factor)
    {
      x := x * factor;
      y := y * factor;
      z := z * factor;
      self := this;
    }

    method Round() returns (self: Vector)
      modifies this
      ensures self == this
      ensures Value() == Rounded(old(Value())) && IsWhole(Value())
    {
      RoundedIsWhole(Value());
      x := RoundReal(x) as real;
      y := RoundReal(y) as real;
      z := RoundReal(z) as real;
      self := this;
    }
  }
}
