/**
 * Machine integers and the bitwise AND that the width getter applies to the
 * layout reply. Dafny integers are unbounded, so the fixed widths of the
 * source (`int` is 64 bits, `libc::c_int` is 32 bits) are written out here.
 */
module Numeric {

  /** A 32-bit signed integer (`libc::c_int`, the payload of an int jsval). */
  newtype int32 = x: int | -0x8000_0000 <= x < 0x8000_0000

  /** A 64-bit signed integer (the source's pointer-sized `int`). */
  newtype int64 = x: int | -0x8000_0000_0000_0000 <= x < 0x8000_0000_0000_0000

  /** `i32::max_value`. */
  const I32Max: int := 0x7FFF_FFFF

  /** 2^64: the modulus of the 64-bit two's complement representation. */
  const TwoTo64: int := 0x1_0000_0000_0000_0000

  /** Bitwise AND of two non-negative integers, bit by bit from the lowest bit. */
  function BitAnd(a: nat, b: nat): nat
    decreases a
  {
    if a == 0 || b == 0 then 0
    else 2 * BitAnd(a / 2, b / 2) + (if a % 2 == 1 && b % 2 == 1 then 1 else 0)
  }

  /** The unsigned reading of the 64 bits that hold `w` in two's complement. */
  function TwosComplement(w: int64): (u: nat)
    ensures u == w as int % TwoTo64
  {
    if w < 0 then
      DivModUnique(w as int, TwoTo64, -1, w as int + TwoTo64);
      w as int + TwoTo64
    else
      DivModUnique(w as int, TwoTo64, 0, w as int);
      w as int
  }

  /** 2^k. */
  function Pow2(k: nat): (r: nat)
    ensures r >= 1
  {
    if k == 0 then 1 else 2 * Pow2(k - 1)
  }

  /** The mask `i32::max_value` is 2^31 - 1. */
  lemma Pow2Of31()
    ensures Pow2(31) == 0x8000_0000
  {
    assert Pow2(0) == 1;
    assert Pow2(8) == 0x100;
    assert Pow2(16) == 0x1_0000;
    assert Pow2(24) == 0x100_0000;
  }

  lemma MulOutsideUnit(d: int, k: int)
    requires d > 0
    ensures k >= 1 ==> d * k >= d
    ensures k <= -1 ==> d * k <= -d
  {}

  /** Quotient and remainder are determined by `x == d * q + r` with `0 <= r < d`. */
  lemma DivModUnique(x: int, d: int, q: int, r: int)
    requires d > 0 && x == d * q + r && 0 <= r < d
    ensures x % d == r && x / d == q
  {
    var q', r' := x / d, x % d;
    assert x == d * q' + r';
    assert d * (q - q') == r' - r;
    MulOutsideUnit(d, q - q');
  }

  /** `2 * (a / 2 % m) + a % 2` is `a` modulo `2 * m`: one bit of the mask proof. */
  lemma ModDouble(a: nat, m: nat)
    requires m > 0
    ensures 2 * (a / 2 % m) + a % 2 == a % (2 * m)
  {
    var q := a / 2 / m;
    var r := a / 2 % m;
    assert a / 2 == m * q + r;
    assert a == (2 * m) * q + (2 * r + a % 2);
    DivModUnique(a, 2 * m, q, 2 * r + a % 2);
  }

  /** Halving the mask 2h - 1 drops its lowest bit, which is set, and leaves h - 1. */
  lemma HalveLowMask(h: nat)
    requires h >= 1
    ensures (2 * h - 1) / 2 == h - 1 && (2 * h - 1) % 2 == 1
  {
    DivModUnique(2 * h - 1, 2, h - 1, 1);
  }

  /** ANDing with the low mask 2^k - 1 keeps the `k` low bits: `a` modulo 2^k. */
  lemma {:induction false} BitAndLowMask(a: nat, k: nat)
    ensures BitAnd(a, Pow2(k) - 1) == a % Pow2(k)
  {
    if k == 0 {
      assert BitAnd(a, 0) == 0;
    } else if a == 0 {
      assert BitAnd(a, Pow2(k) - 1) == 0;
    } else {
      var h := Pow2(k - 1);
      assert Pow2(k) == 2 * h;
      HalveLowMask(h);
      BitAndLowMask(a / 2, k - 1);
      var b := BitAnd(a / 2, h - 1);
      assert b == a / 2 % h;
      assert BitAnd(a, 2 * h - 1) == 2 * b + a % 2;
      ModDouble(a, h);
    }
  }

  /** Reducing modulo a multiple `k * m` first does not change the residue modulo `m`. */
  lemma ModOfMod(x: int, m: nat, k: nat)
    requires m > 0 && k > 0
    ensures x % (k * m) % m == x % m
  {
    var q := x / (k * m);
    var r := x % (k * m);
    assert x == (k * m) * q + r;
    var q2 := r / m;
    assert r == m * q2 + r % m;
    assert x == m * (k * q + q2) + r % m;
    DivModUnique(x, m, k * q + q2, r % m);
  }

  /**
   * `w & (i32::max_value as int)` on a 64-bit `w`: a bitwise AND with the low
   * 31-bit mask, not a saturating clamp. It is the Euclidean residue of `w`
   * modulo 2^31, so it always lies in [0, 2^31 - 1] and leaves every value
   * already in that range unchanged.
   */
  function MaskToI32Max(w: int64): (r: int)
    ensures r == w as int % 0x8000_0000
    ensures 0 <= r <= I32Max
    ensures 0 <= w as int <= I32Max ==> r == w as int
  {
    MaskIsResidue(w);
    if 0 <= w as int <= I32Max then
      DivModUnique(w as int, 0x8000_0000, 0, w as int);
      BitAnd(TwosComplement(w), I32Max)
    else
      BitAnd(TwosComplement(w), I32Max)
  }

  /** The AND with the 31-bit mask of the two's complement bits is the residue modulo 2^31. */
  lemma MaskIsResidue(w: int64)
    ensures BitAnd(TwosComplement(w), I32Max) == w as int % 0x8000_0000
  {
    var u := TwosComplement(w);
    Pow2Of31();
    BitAndLowMask(u, 31);
    assert BitAnd(u, I32Max) == u % 0x8000_0000;
    assert 0x2_0000_0000 * 0x8000_0000 == TwoTo64;
    ModOfMod(w as int, 0x8000_0000, 0x2_0000_0000);
  }

  /** Widths at or above 2^31 wrap around instead of saturating at `i32::max_value`. */
  lemma {:induction false} MaskWrapsAboveRange(w: int64)
    requires 0x8000_0000 <= w as int < 0x1_0000_0000
    ensures MaskToI32Max(w) == w as int - 0x8000_0000
    ensures w as int == 0x8000_0000 ==> MaskToI32Max(w) == 0
  {
    DivModUnique(w as int, 0x8000_0000, 1, w as int - 0x8000_0000);
  }
}
