/** The JavaScript integer operations the photo hash uses: `&` on 32-bit two's-complement
    integers (ECMAScript's ToInt32 conversion of both operands, then bitwise AND) and `Math.abs`. */
module JsNumber {

  const TWO_24: int := 0x100_0000
  const TWO_31: int := 0x8000_0000
  const TWO_32: int := 0x1_0000_0000

  /** 2 to the power `n`. */
  function Pow2(n: nat): (p: nat)
    ensures p > 0
  {
    if n == 0 then 1 else 2 * Pow2(n - 1)
  }

  /** Exponents add: 2^(a+b) == 2^a * 2^b. */
  lemma {:induction false} Pow2Add(a: nat, b: nat)
    ensures Pow2(a + b) == Pow2(a) * Pow2(b)
    decreases a
  {
    if a > 0 {
      Pow2Add(a - 1, b);
    }
  }

  /** The mask `0xffffff` is 2^24 - 1. */
  lemma Pow2Of24()
    ensures Pow2(24) == TWO_24
  {
    assert Pow2(8) == 256;
    Pow2Add(8, 8);
    Pow2Add(16, 8);
  }

  /** The low `n` bits of `a` and `b` AND-ed bit by bit, least significant bit first. */
  function AndBits(a: nat, b: nat, n: nat): (r: nat)
    ensures r < Pow2(n)
  {
    if n == 0 then 0 else 2 * AndBits(a / 2, b / 2, n - 1) + (a % 2) * (b % 2)
  }

  /** ECMAScript ToUint32 on an integral number: its residue modulo 2^32. */
  function ToUint32(x: int): (r: nat)
    ensures r < TWO_32
    ensures (x - r) % TWO_32 == 0
  {
    x % TWO_32
  }

  /** ECMAScript ToInt32 on an integral number: the 32-bit pattern read as two's complement. */
  function ToInt32(x: int): (r: int)
    ensures -TWO_31 <= r < TWO_31
    ensures (x - r) % TWO_32 == 0
  {
    var u := ToUint32(x);
    if u < TWO_31 then u else u - TWO_32
  }

  /** `a & b`: both operands go through ToInt32, their 32-bit patterns are AND-ed, and the
      resulting pattern is read back as a signed 32-bit integer. */
  function BitAnd(a: int, b: int): (r: int)
    ensures -TWO_31 <= r < TWO_31
  {
    ToInt32(AndBits(ToUint32(ToInt32(a)), ToUint32(ToInt32(b)), 32))
  }

  /** `Math.abs` on an integer. */
  function Abs(x: int): (r: nat)
    ensures r == x || r == -x
  {
    if x < 0 then -x else x
  }

  /** AND-ing with the mask of the low `k` bits (within `n` bits) keeps the residue modulo 2^k. */
  lemma {:induction false} AndLowMask(x: nat, k: nat, n: nat)
    requires k <= n
    ensures AndBits(x, Pow2(k) - 1, n) == x % Pow2(k)
    decreases n
  {
    if n == 0 {
    } else if k == 0 {
      AndZero(x, n);
    } else {
      var p := Pow2(k - 1);
      var m := Pow2(k) - 1;
      assert m == 2 * (p - 1) + 1;
      assert m / 2 == p - 1 && m % 2 == 1;
      AndLowMask(x / 2, k - 1, n - 1);
      assert AndBits(x / 2, m / 2, n - 1) == (x / 2) % p;
      assert (x % 2) * (m % 2) == x % 2;
      assert AndBits(x, m, n) == 2 * ((x / 2) % p) + x % 2;
      HalveMod(x, p);
    }
  }

  /** AND with zero is zero. */
  lemma {:induction false} AndZero(x: nat, n: nat)
    ensures AndBits(x, 0, n) == 0
  {
    if n > 0 {
      AndZero(x / 2, n - 1);
    }
  }

  /** Splitting off the lowest bit: `x mod 2p == 2 * ((x / 2) mod p) + x mod 2`. */
  lemma HalveMod(x: nat, p: nat)
    requires p > 0
    ensures x % (2 * p) == 2 * ((x / 2) % p) + x % 2
  {
    var q := (x / 2) / p;
    var r := (x / 2) % p;
    assert x / 2 == q * p + r;
    assert x == 2 * (x / 2) + x % 2;
    assert x == q * (2 * p) + (2 * r + x % 2);
    DivModUnique(x, 2 * p, q, 2 * r + x % 2);
  }

  /** Euclidean division is unique: a quotient and an in-range remainder determine `x % d`. */
  lemma DivModUnique(x: int, d: int, q: int, r: int)
    requires d > 0 && 0 <= r < d && x == q * d + r
    ensures x % d == r
  {
    var q' := x / d;
    var r' := x % d;
    assert x == q' * d + r';
    assert (q - q') * d == r' - r;
    MulAtLeast(q - q', d);
    MulAtLeast(q' - q, d);
  }

  /** Adding a multiple of `d` does not change the residue modulo `d`. */
  lemma ModAddMultiple(y: int, k: int, d: int)
    requires d > 0
    ensures (k * d + y) % d == y % d
  {
    var q := y / d;
    assert y == q * d + y % d;
    assert k * d + y == (k + q) * d + y % d;
    DivModUnique(k * d + y, d, k + q, y % d);
  }

  /** A positive multiple of `d` is at least `d`. */
  lemma MulAtLeast(k: int, d: int)
    ensures k >= 1 && d > 0 ==> k * d >= d
  {
    if k >= 1 && d > 0 {
      var j := k - 1;
      assert j * d >= 0;
      assert k * d == j * d + d;
    }
  }

  /** Reducing modulo 2^32 first does not change the residue modulo 2^24. */
  lemma ModOfMod(x: int)
    ensures (x % TWO_32) % TWO_24 == x % TWO_24
  {
    var q := x / TWO_32;
    var u := x % TWO_32;
    var q' := u / TWO_24;
    var r := u % TWO_24;
    assert u == q' * TWO_24 + r;
    assert x == q * TWO_32 + u;
    assert x == (q * 256 + q') * TWO_24 + r;
    DivModUnique(x, TWO_24, q * 256 + q', r);
  }

  /** `x & 0xffffff` is `x mod 2^24`, for every integer `x`, negative ones included. */
  lemma MaskIsMod(x: int)
    ensures BitAnd(x, 0xFF_FFFF) == x % TWO_24
  {
    Pow2Of24();
    var u := ToUint32(ToInt32(x));
    assert u == x % TWO_32;
    AndLowMask(u, 24, 32);
    ModOfMod(x);
  }
}
