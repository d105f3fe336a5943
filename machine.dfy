/**
 * Machine integers of the 64-bit targets the library is built for: `isize`
 * (the metric value type), the wrap-around of atomic `fetch_add`, Rust's
 * truncating integer division, and the saturating `as isize` cast of floats.
 */
module Machine {

  const ISIZE_MIN: int := -0x8000_0000_0000_0000
  const ISIZE_MAX: int := 0x7FFF_FFFF_FFFF_FFFF
  const TWO_64: int := 0x1_0000_0000_0000_0000

  /** The values an `isize` can hold. */
  type ISize = x: int | ISIZE_MIN <= x <= ISIZE_MAX

  /** Two's-complement addition, as `AtomicIsize::fetch_add` performs it. */
  function WrapAdd(a: ISize, b: ISize): (r: ISize)
    ensures ISIZE_MIN <= a + b <= ISIZE_MAX ==> r == a + b
  {
    var s := a + b;
    if s > ISIZE_MAX then s - TWO_64 else if s < ISIZE_MIN then s + TWO_64 else s
  }

  /** The wrapped sum differs from the exact sum by a multiple of 2^64. */
  lemma WrapAddCongruent(a: ISize, b: ISize)
    ensures var r := WrapAdd(a, b);
      r == a + b || r == a + b - TWO_64 || r == a + b + TWO_64
  {
  }

  /**
   * Rust's `/` on signed integers: the quotient is truncated toward zero
   * (Dafny's `/` is Euclidean). Division by zero panics in the source, hence
   * the precondition.
   */
  function TruncDiv(a: int, b: int): (q: int)
    requires b != 0
    ensures Abs(q) * Abs(b) <= Abs(a) < (Abs(q) + 1) * Abs(b)
    ensures (a >= 0) == (b > 0) ==> q >= 0
    ensures (a >= 0) != (b > 0) ==> q <= 0
  {
    var m := Abs(a) / Abs(b);
    DivBounds(Abs(a), Abs(b));
    var q := if (a < 0) == (b < 0) then m else -m;
    assert Abs(q) == m;
    q
  }

  /** Dividing by one changes nothing. */
  lemma TruncDivByOne(a: int)
    ensures TruncDiv(a, 1) == a
  {
  }

  /** The Euclidean quotient of two naturals brackets the dividend between two multiples of the divisor. */
  lemma DivBounds(x: nat, y: nat)
    requires y > 0
    ensures (x / y) * y <= x < (x / y + 1) * y
  {
    assert x == (x / y) * y + x % y;
  }

  function Abs(x: int): (r: nat)
    ensures r == x || r == -x
  {
    if x < 0 then -x else x
  }

  /** The remainder `a - q * b` of a truncating division takes the sign of the dividend, and is smaller than the divisor. */
  lemma TruncDivRemainder(a: int, b: int)
    requires b != 0
    ensures var r := a - TruncDiv(a, b) * b;
      (a >= 0 ==> 0 <= r) && (a <= 0 ==> r <= 0) && Abs(r) < Abs(b)
  {
    var m := Abs(a) / Abs(b);
    var e := Abs(a) % Abs(b);
    assert Abs(a) == m * Abs(b) + e;
    var q := TruncDiv(a, b);
    if a >= 0 && b > 0 {
      assert a - q * b == e;
    } else if a >= 0 {
      assert q * b == m * Abs(b);
      assert a - q * b == e;
    } else if b > 0 {
      assert q * b == -(m * Abs(b));
      assert a - q * b == -e;
    } else {
      assert q * b == -(m * Abs(b));
      assert a - q * b == -e;
    }
  }

  /** On a non-negative dividend and a positive divisor, truncation and Euclidean division agree. */
  lemma TruncDivMatchesEuclid(a: nat, b: int)
    requires b > 0
    ensures TruncDiv(a, b) == a / b
  {
  }

  /**
   * `f64::round` followed by `as isize` of the rational `num / den` (den >= 0):
   * round half away from zero, and saturate at the isize bounds as Rust's
   * float-to-int casts do. A zero denominator is the float division by zero:
   * +inf saturates to MAX, -inf to MIN, and NaN (0 / 0) casts to 0.
   * The rounding error of the intermediate f64 is not modelled.
   */
  function RoundToISize(num: int, den: nat): (r: ISize)
    ensures den == 0 && num > 0 ==> r == ISIZE_MAX
    ensures den == 0 && num < 0 ==> r == ISIZE_MIN
  {
    if den == 0 then
      (if num > 0 then ISIZE_MAX else if num < 0 then ISIZE_MIN else 0)
    else
      var q := if num >= 0 then (2 * num + den) / (2 * den) else -((2 * -num + den) / (2 * den));
      Clamp(q)
  }

  function Clamp(x: int): (r: ISize)
    ensures ISIZE_MIN <= x <= ISIZE_MAX ==> r == x
    ensures x > ISIZE_MAX ==> r == ISIZE_MAX
    ensures x < ISIZE_MIN ==> r == ISIZE_MIN
  {
    if x > ISIZE_MAX then ISIZE_MAX else if x < ISIZE_MIN then ISIZE_MIN else x
  }

  function Pow2(n: nat): (r: nat)
    ensures r >= 1
  {
    if n == 0 then 1 else 2 * Pow2(n - 1)
  }

  lemma {:induction false} Pow2Monotone(a: nat, b: nat)
    requires a <= b
    ensures Pow2(a) <= Pow2(b)
  {
    if a < b {
      Pow2Monotone(a, b - 1);
    }
  }

  /**
   * `x << n` on u64 as a release build computes it: the shift amount is taken
   * modulo 64 and the bits shifted past bit 63 are dropped. A debug build
   * panics instead when n >= 64; see ShlOverflows.
   */
  function Shl64(x: bv64, n: nat): (r: bv64)
    ensures n % 64 == 0 ==> r == x
  {
    x << (n % 64)
  }

  predicate ShlOverflows(n: nat)
  {
    n >= 64
  }
}
