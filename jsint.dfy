/**
 * The 32-bit integer semantics of the JavaScript bitwise operators used by the
 * simulator: every operand of `~`, `&`, `|`, `^`, `<<`, `>>` and `>>>` is first
 * converted to a 32-bit two's-complement integer, and shift counts are taken
 * modulo 32. Numbers are modelled by unbounded integers; the conversions are
 * written out explicitly.
 */
module JsInt {

  const TWO31: int := 0x8000_0000
  const TWO32: int := 0x1_0000_0000

  function Pow2(n: nat): (r: nat)
    ensures r >= 1
  {
    if n == 0 then 1 else 2 * Pow2(n - 1)
  }

  lemma {:induction false} Pow2Add(a: nat, b: nat)
    ensures Pow2(a + b) == Pow2(a) * Pow2(b)
  {
    if a > 0 {
      Pow2Add(a - 1, b);
      assert Pow2(a + b) == 2 * Pow2(a - 1 + b);
    }
  }

  lemma {:induction false} Pow2Monotone(a: nat, b: nat)
    requires a <= b
    ensures Pow2(a) <= Pow2(b)
  {
    if a < b {
      Pow2Monotone(a, b - 1);
    }
  }

  lemma Pow2Known()
    ensures Pow2(31) == TWO31 && Pow2(32) == TWO32
    ensures Pow2(5) == 32 && Pow2(6) == 64 && Pow2(7) == 128 && Pow2(8) == 256
    ensures Pow2(10) == 1024
  {
    assert Pow2(10) == 1024;
    assert Pow2(20) == 1024 * 1024 by { Pow2Add(10, 10); }
    assert Pow2(30) == 1024 * 1024 * 1024 by { Pow2Add(20, 10); }
  }

  /** JavaScript's ToUint32: the value modulo 2^32. */
  function ToUint32(x: int): (r: int)
    ensures 0 <= r < TWO32
    ensures 0 <= x < TWO32 ==> r == x
  {
    x % TWO32
  }

  /** JavaScript's ToInt32: the value modulo 2^32, read as two's complement. */
  function ToInt32(x: int): (r: int)
    ensures -TWO31 <= r < TWO31
    ensures -TWO31 <= x < TWO31 ==> r == x
  {
    var m := x % TWO32;
    if m >= TWO31 then m - TWO32 else m
  }

  /** Bitwise AND of two naturals, bit by bit from the least significant. */
  function BitAnd(a: nat, b: nat): nat
    decreases a
  {
    if a == 0 then 0
    else 2 * BitAnd(a / 2, b / 2) + (if a % 2 == 1 && b % 2 == 1 then 1 else 0)
  }

  function BitOr(a: nat, b: nat): nat
    decreases a + b
  {
    if a == 0 then b
    else if b == 0 then a
    else 2 * BitOr(a / 2, b / 2) + (if a % 2 == 1 || b % 2 == 1 then 1 else 0)
  }

  function BitXor(a: nat, b: nat): nat
    decreases a + b
  {
    if a == 0 then b
    else if b == 0 then a
    else 2 * BitXor(a / 2, b / 2) + (if a % 2 != b % 2 then 1 else 0)
  }

  // The JavaScript operators on numbers.

  function And(a: int, b: int): int { ToInt32(BitAnd(ToUint32(a), ToUint32(b))) }

  function Or(a: int, b: int): int { ToInt32(BitOr(ToUint32(a), ToUint32(b))) }

  function Xor(a: int, b: int): int { ToInt32(BitXor(ToUint32(a), ToUint32(b))) }

  /** `~a`: the complement of the 32-bit pattern, which is -a - 1 in two's complement. */
  function Not(a: int): int { -ToInt32(a) - 1 }

  /** `a << b`: the count is taken modulo 32 and the product wraps to 32 bits. */
  function Shl(a: int, b: int): int { ToInt32(ToInt32(a) * Pow2(ToUint32(b) % 32)) }

  /** `a >> b`: arithmetic shift, i.e. floor division by a power of two. */
  function Sar(a: int, b: int): int { ToInt32(a) / Pow2(ToUint32(b) % 32) }

  /** `a >>> b`: logical shift of the unsigned 32-bit pattern. */
  function Shr(a: int, b: int): int { ToUint32(a) / Pow2(ToUint32(b) % 32) }

  // Properties of the bit operations.

  lemma {:induction false} BitAndLowMask(a: nat, k: nat)
    ensures BitAnd(a, Pow2(k) - 1) == a % Pow2(k)
  {
    if k == 0 {
      BitAndZero(a);
    } else if a == 0 {
    } else {
      var m := Pow2(k) - 1;
      assert m % 2 == 1 && m / 2 == Pow2(k - 1) - 1;
      BitAndLowMask(a / 2, k - 1);
      DivModPow2(a, k);
    }
  }

  lemma {:induction false} BitAndZero(a: nat)
    ensures BitAnd(a, 0) == 0
  {
    if a != 0 {
      BitAndZero(a / 2);
    }
  }

  /** a mod 2^k is 2 (a/2 mod 2^(k-1)) plus the lowest bit of a. */
  lemma DivModPow2(a: nat, k: nat)
    requires k >= 1
    ensures a % Pow2(k) == 2 * ((a / 2) % Pow2(k - 1)) + a % 2
  {
    var p := Pow2(k - 1);
    var q := (a / 2) / p;
    var r := (a / 2) % p;
    assert a / 2 == q * p + r;
    assert a == (2 * p) * q + (2 * r + a % 2);
    assert 0 <= 2 * r + a % 2 < 2 * p;
    DivModUnique(a, 2 * p, q, 2 * r + a % 2);
  }

  lemma DivModUnique(a: int, d: int, q: int, r: int)
    requires d > 0 && a == d * q + r && 0 <= r < d
    ensures a / d == q && a % d == r
  {
    var q' := a / d;
    var r' := a % d;
    assert a == d * q' + r';
    if q' > q {
      MulDistSub(d, q', q);
      MulAtLeast(d, q' - q);
    } else if q' < q {
      MulDistSub(d, q, q');
      MulAtLeast(d, q - q');
    }
  }

  lemma MulDistSub(d: int, x: int, y: int)
    ensures d * (x - y) == d * x - d * y
  {
  }

  lemma MulAtLeast(d: nat, n: int)
    requires n >= 1
    ensures d * n >= d
  {
    assert d * n == d * (n - 1) + d;
    assert d * (n - 1) >= 0;
  }

  lemma BitAndOne(a: nat)
    ensures BitAnd(a, 1) == a % 2
  {
    BitAndLowMask(a, 1);
  }

  lemma {:induction false} BitXorZero(a: nat, b: nat)
    ensures BitXor(a, b) == 0 <==> a == b
    decreases a + b
  {
    if a != 0 && b != 0 {
      BitXorZero(a / 2, b / 2);
    }
  }

  lemma {:induction false} BitOrZero(a: nat, b: nat)
    ensures BitOr(a, b) == 0 <==> a == 0 && b == 0
    decreases a + b
  {
    if a != 0 && b != 0 {
      BitOrZero(a / 2, b / 2);
    }
  }

  lemma {:induction false} BitOrBound(a: nat, b: nat, n: nat)
    requires a < Pow2(n) && b < Pow2(n)
    ensures BitOr(a, b) < Pow2(n)
    decreases a + b
  {
    if a != 0 && b != 0 {
      assert n >= 1;
      BitOrBound(a / 2, b / 2, n - 1);
    }
  }

  lemma {:induction false} BitXorBound(a: nat, b: nat, n: nat)
    requires a < Pow2(n) && b < Pow2(n)
    ensures BitXor(a, b) < Pow2(n)
    decreases a + b
  {
    if a != 0 && b != 0 {
      assert n >= 1;
      BitXorBound(a / 2, b / 2, n - 1);
    }
  }

  /** OR with a value shifted clear of the low k bits is addition. */
  lemma {:induction false} BitOrDisjoint(a: nat, b: nat, k: nat)
    requires a < Pow2(k)
    ensures BitOr(a, b * Pow2(k)) == a + b * Pow2(k)
    decreases k
  {
    if k == 0 {
    } else if a == 0 || b == 0 {
    } else {
      var c := b * Pow2(k);
      assert c == 2 * (b * Pow2(k - 1));
      assert c % 2 == 0 && c / 2 == b * Pow2(k - 1);
      BitOrDisjoint(a / 2, b, k - 1);
    }
  }

  /** For a non-negative 32-bit value, `(v >> i) & 1` is bit i of v. */
  lemma BitOfShift(v: int, i: nat)
    requires 0 <= v < TWO31 && i < 32
    ensures And(Sar(v, i), 1) == (v / Pow2(i)) % 2
  {
    var p := Pow2(i);
    assert ToInt32(v) == v && ToUint32(i) % 32 == i;
    var q := v / p;
    DivBounds(v, p);
    assert Sar(v, i) == q;
    assert ToUint32(q) == q && ToUint32(1) == 1;
    BitAndOne(q);
    assert And(q, 1) == ToInt32(q % 2);
  }

  lemma DivBounds(v: nat, p: nat)
    requires p >= 1
    ensures 0 <= v / p <= v
  {
    var q := v / p;
    assert v == p * q + v % p;
    if q >= 1 {
      MulAtLeast(q, p);
    }
  }

  lemma ShlExact(v: int, s: nat)
    requires s < 32 && -TWO31 <= v < TWO31
    ensures Shl(v, s) == ToInt32(v * Pow2(s))
  {
    assert ToUint32(s) % 32 == s;
  }

  lemma SarExact(x: int, s: nat)
    requires s < 32 && -TWO31 <= x < TWO31
    ensures Sar(x, s) == x / Pow2(s)
  {
    assert ToUint32(s) % 32 == s;
  }

  /** The pair `(v << (32 - k)) >> (32 - k)` sign-extends a k-bit field. */
  lemma SignExtend(v: int, k: nat)
    requires 1 <= k <= 32 && 0 <= v < Pow2(k)
    ensures Sar(Shl(v, 32 - k), 32 - k) == if v < Pow2(k - 1) then v else v - Pow2(k)
  {
    Pow2Known();
    if k == 32 {
      SignExtendFull(v);
    } else {
      SignExtendPartial(v, k);
    }
  }

  lemma SignExtendFull(v: int)
    requires 0 <= v < TWO32
    ensures Sar(Shl(v, 0), 0) == if v < TWO31 then v else v - TWO32
  {
    var t := ToInt32(v);
    assert Pow2(0) == 1;
    ShlExact(t, 0);
    assert t * 1 == t;
    SarExact(t, 0);
    assert t / 1 == t;
  }

  lemma SignExtendPartial(v: int, k: nat)
    requires 1 <= k < 32 && 0 <= v < Pow2(k)
    ensures Sar(Shl(v, 32 - k), 32 - k) == if v < Pow2(k - 1) then v else v - Pow2(k)
  {
    var s := 32 - k;
    var h := Pow2(k - 1);
    assert Pow2(k) == 2 * h;
    assert Pow2(s) * h == TWO31 by {
      Pow2Add(s, k - 1);
      Pow2Known();
    }
    SignExtendSplit(v, s, Pow2(s), h);
  }

  /** The two cases of sign extension, with p = 2^s and p h = 2^31. */
  lemma SignExtendSplit(v: int, s: nat, p: nat, h: nat)
    requires 1 <= s < 32 && p == Pow2(s) && p * h == TWO31 && 0 <= v < 2 * h
    ensures Sar(Shl(v, s), s) == if v < h then v else v - 2 * h
  {
    assert v * p < 2 * h * p by {
      MulLtMono(v, 2 * h, p);
    }
    if v < h {
      assert v * p < h * p by {
        MulLtMono(v, h, p);
      }
      SarShlLow(v, s, p);
    } else {
      assert h * p <= v * p by {
        MulLeMono(h, v, p);
      }
      assert v < TWO31 by {
        assert p >= 2;
        MulLeMono(2, p, h);
      }
      SarShlHigh(v, s, p, 2 * h);
    }
  }

  lemma SarShlLow(v: int, s: nat, p: nat)
    requires s < 32 && p == Pow2(s) && 0 <= v && v * p < TWO31
    ensures Sar(Shl(v, s), s) == v
  {
    assert 0 <= v * p by {
      if v > 0 {
        MulAtLeast(p, v);
      }
    }
    assert Shl(v, s) == v * p by {
      ShlExact(v, s);
      assert ToInt32(v * p) == v * p;
    }
    assert Sar(v * p, s) == v by {
      SarExact(v * p, s);
      assert v * p == p * v;
      DivModUnique(v * p, p, v, 0);
    }
  }

  lemma SarShlHigh(v: int, s: nat, p: nat, m: int)
    requires s < 32 && p == Pow2(s) && 0 <= v < TWO31
    requires TWO31 <= v * p < TWO32 && m * p == TWO32
    ensures Sar(Shl(v, s), s) == v - m
  {
    ShlExact(v, s);
    assert Shl(v, s) == v * p - TWO32;
    MulDistSub(p, v, m);
    assert v * p - TWO32 == p * (v - m);
    SarExact(p * (v - m), s);
    DivModUnique(p * (v - m), p, v - m, 0);
  }

  lemma MulLtMono(a: nat, b: nat, p: nat)
    requires a < b && p >= 1
    ensures a * p < b * p
  {
    MulDistSub(p, b, a);
    MulAtLeast(p, b - a);
  }

  lemma MulLeMono(a: nat, b: nat, p: nat)
    requires a <= b
    ensures a * p <= b * p
  {
    if a < b && p >= 1 {
      MulLtMono(a, b, p);
    }
  }

  /** The example of a 4-bit field 0b1000 sign-extending to -8. */
  lemma SignExtendFourBits()
    ensures Sar(Shl(8, 28), 28) == -8
  {
    SignExtend(8, 4);
  }

  /** `a ^ b` is zero exactly when a and b agree as 32-bit integers. */
  lemma XorZero(a: int, b: int)
    ensures Xor(a, b) == 0 <==> ToInt32(a) == ToInt32(b)
  {
    Pow2Known();
    BitXorZero(ToUint32(a), ToUint32(b));
    BitXorBound(ToUint32(a), ToUint32(b), 32);
  }

  /** `a | b` is zero exactly when both operands are zero as 32-bit integers. */
  lemma OrZero(a: int, b: int)
    ensures Or(a, b) == 0 <==> ToInt32(a) == 0 && ToInt32(b) == 0
  {
    Pow2Known();
    BitOrZero(ToUint32(a), ToUint32(b));
    BitOrBound(ToUint32(a), ToUint32(b), 32);
  }

  /** JavaScript's `%` on integers: the remainder takes the sign of the dividend. */
  function Rem(a: int, d: int): (r: int)
    requires d > 0
    ensures a >= 0 ==> r == a % d
    ensures a < 0 ==> -d < r <= 0
  {
    if a >= 0 then a % d else -((-a) % d)
  }

  /** Bit i of the 32-bit pattern of v. */
  function Bit(v: int, i: nat): (b: int)
    ensures b == 0 || b == 1
  {
    (ToUint32(v) / Pow2(i)) % 2
  }

  lemma DivModAddMultiple(a: int, d: int, c: int)
    requires d > 0
    ensures (a + d * c) / d == a / d + c
    ensures (a + d * c) % d == a % d
  {
    var q := a / d;
    var r := a % d;
    assert a + d * c == d * (q + c) + r by {
      assert d * (q + c) == d * q + d * c;
    }
    DivModUnique(a + d * c, d, q + c, r);
  }

  /** Reducing modulo 2^32 first does not change the value modulo 2^k, k <= 32. */
  lemma ModOfUint32(x: int, k: nat)
    requires k <= 32
    ensures ToUint32(x) % Pow2(k) == x % Pow2(k)
  {
    var m := Pow2(k);
    var c := Pow2(32 - k);
    Pow2Split(k);
    var u := ToUint32(x);
    var n := x / TWO32;
    assert x == TWO32 * n + u;
    MulAssoc(m, c, n);
    DivModAddMultiple(u, m, c * n);
  }

  lemma Pow2Split(k: nat)
    requires k <= 32
    ensures Pow2(k) * Pow2(32 - k) == TWO32
  {
    Pow2Add(k, 32 - k);
    Pow2Known();
  }

  lemma MulAssoc(a: int, b: int, c: int)
    ensures (a * b) * c == a * (b * c)
  {
  }

  /** The low k bits of the 32-bit pattern of `v >> i` are bits i .. i+k-1 of v. */
  lemma SarBits(v: int, i: nat, k: nat)
    requires i < 32 && i + k <= 32
    ensures ToUint32(Sar(v, i)) % Pow2(k) == (ToUint32(v) / Pow2(i)) % Pow2(k)
  {
    var t := ToInt32(v);
    SarIs(v, i);
    ModOfUint32(t / Pow2(i), k);
    UintOfInt(v);
    if t < 0 {
      SarBitsNegative(t, i, k);
    }
  }

  /** For a negative pattern t, shifting t + 2^32 keeps the low k bits of t / 2^i. */
  lemma SarBitsNegative(t: int, i: nat, k: nat)
    requires i < 32 && i + k <= 32 && -TWO31 <= t < 0
    ensures ((t + TWO32) / Pow2(i)) % Pow2(k) == (t / Pow2(i)) % Pow2(k)
  {
    Pow2Split(i);
    Pow2Add(k, 32 - i - k);
    ShiftWrapped(t, Pow2(i), Pow2(32 - i), Pow2(k), Pow2(32 - i - k));
  }

  lemma UintOfInt(v: int)
    ensures ToUint32(v) == if ToInt32(v) < 0 then ToInt32(v) + TWO32 else ToInt32(v)
  {
  }

  lemma SarIs(v: int, i: nat)
    requires i < 32
    ensures Sar(v, i) == ToInt32(v) / Pow2(i)
  {
    assert ToUint32(i) % 32 == i;
  }

  /** Adding 2^32 = p c to a negative pattern t adds c to t / p, a multiple of m. */
  lemma ShiftWrapped(t: int, p: int, c: int, m: int, e: int)
    requires p > 0 && m > 0 && c == m * e && p * c == TWO32
    requires -TWO31 <= t < 0
    ensures ((t + TWO32) / p) % m == (t / p) % m
  {
    DivModAddMultiple(t, p, c);
    DivModAddMultiple(t / p, m, e);
  }

  /** `x & (2^k - 1)` is the low k bits of the 32-bit pattern of x. */
  lemma AndMaskIs(x: int, k: nat)
    requires 1 <= k <= 31
    ensures And(x, Pow2(k) - 1) == ToUint32(x) % Pow2(k)
  {
    var m := Pow2(k);
    assert m <= TWO31 by {
      Pow2Monotone(k, 31);
      Pow2Known();
    }
    var u := ToUint32(x);
    assert ToUint32(m - 1) == m - 1;
    assert BitAnd(u, m - 1) == u % m by {
      BitAndLowMask(u, k);
    }
    assert ToInt32(u % m) == u % m;
  }

  /** `(v >> i) & (2^k - 1)` extracts bits i .. i+k-1 of v. */
  lemma SarMask(v: int, i: nat, k: nat)
    requires i < 32 && 1 <= k <= 31 && i + k <= 32
    ensures And(Sar(v, i), Pow2(k) - 1) == (ToUint32(v) / Pow2(i)) % Pow2(k)
  {
    AndMaskIs(Sar(v, i), k);
    SarBits(v, i, k);
  }

  /** `(v >> i) & 1` is bit i of v. */
  lemma SarBit(v: int, i: nat)
    requires i < 32
    ensures And(Sar(v, i), 1) == Bit(v, i)
  {
    SarMask(v, i, 1);
  }

  /** `v & (2^k - 1)` is v modulo 2^k, for every integer v. */
  lemma AndLowMask(v: int, k: nat)
    requires 1 <= k <= 31
    ensures And(v, Pow2(k) - 1) == v % Pow2(k)
  {
    AndMaskIs(v, k);
    ModOfUint32(v, k);
  }

  lemma BitXorLow(a: nat, b: nat)
    ensures BitXor(a, b) % 2 == (a % 2 + b % 2) % 2
  {
  }

  /** The lowest bit of `a ^ b` is the sum of the lowest bits modulo 2. */
  lemma XorLowBit(a: int, b: int)
    ensures And(Xor(a, b), 1) == (Bit(a, 0) + Bit(b, 0)) % 2
  {
    Pow2Known();
    var x := BitXor(ToUint32(a), ToUint32(b));
    BitXorBound(ToUint32(a), ToUint32(b), 32);
    assert ToUint32(ToInt32(x)) == x;
    assert ToUint32(1) == 1;
    BitAndOne(x);
    BitXorLow(ToUint32(a), ToUint32(b));
  }

  /** Two single bits packed as `(hi << 1) | lo`. */
  lemma PackTwoBits(hi: int, lo: int)
    requires (hi == 0 || hi == 1) && (lo == 0 || lo == 1)
    ensures Or(Shl(hi, 1), lo) == 2 * hi + lo
  {
    assert Pow2(1) == 2;
    ShlExact(hi, 1);
    BitOrDisjoint(lo, hi, 1);
    BitOrComm(2 * hi, lo);
  }

  lemma {:induction false} BitOrComm(a: nat, b: nat)
    ensures BitOr(a, b) == BitOr(b, a)
    decreases a + b
  {
    if a != 0 && b != 0 {
      BitOrComm(a / 2, b / 2);
    }
  }
  /** Dividing by 2^(k+1) is halving, then dividing by 2^k. */
  lemma HalveThenDivide(x: nat, k: nat)
    ensures x / Pow2(k + 1) == (x / 2) / Pow2(k)
  {
    var p := Pow2(k);
    var h := x / 2;
    var q := h / p;
    var r := h % p;
    assert h == p * q + r;
    MulAssoc(2, p, q);
    assert x == (2 * p) * q + (2 * r + x % 2);
    DivModUnique(x, 2 * p, q, 2 * r + x % 2);
  }

  lemma {:induction false} BitAndBelow(a: nat, b: nat)
    ensures BitAnd(a, b) <= a
    decreases a
  {
    if a != 0 {
      BitAndBelow(a / 2, b / 2);
    }
  }

  /** Digit k of 2c + lo is lo for k = 0 and digit k - 1 of c otherwise. */
  lemma DigitOfDouble(c: nat, lo: nat, k: nat)
    requires lo < 2
    ensures ((2 * c + lo) / Pow2(k)) % 2 == if k == 0 then lo else (c / Pow2(k - 1)) % 2
  {
    if k != 0 {
      HalveThenDivide(2 * c + lo, k - 1);
      assert (2 * c + lo) / 2 == c;
    }
  }

  /** Binary digit k of BitAnd(a, b) is the product of the digits k of a and b. */
  lemma {:induction false} BitAndDigit(a: nat, b: nat, k: nat)
    ensures (BitAnd(a, b) / Pow2(k)) % 2 == ((a / Pow2(k)) % 2) * ((b / Pow2(k)) % 2)
    decreases k
  {
    if a != 0 {
      var lo := if a % 2 == 1 && b % 2 == 1 then 1 else 0;
      assert BitAnd(a, b) == 2 * BitAnd(a / 2, b / 2) + lo;
      DigitOfDouble(BitAnd(a / 2, b / 2), lo, k);
      DigitOfDouble(a / 2, a % 2, k);
      DigitOfDouble(b / 2, b % 2, k);
      if k != 0 {
        BitAndDigit(a / 2, b / 2, k - 1);
      }
    }
  }

  /** Binary digit k of BitOr(a, b) is 1 exactly when digit k of a or of b is. */
  lemma {:induction false} BitOrDigit(a: nat, b: nat, k: nat)
    ensures (BitOr(a, b) / Pow2(k)) % 2 == if (a / Pow2(k)) % 2 == 1 || (b / Pow2(k)) % 2 == 1 then 1 else 0
    decreases k
  {
    if a != 0 && b != 0 {
      var lo := if a % 2 == 1 || b % 2 == 1 then 1 else 0;
      assert BitOr(a, b) == 2 * BitOr(a / 2, b / 2) + lo;
      DigitOfDouble(BitOr(a / 2, b / 2), lo, k);
      DigitOfDouble(a / 2, a % 2, k);
      DigitOfDouble(b / 2, b % 2, k);
      if k != 0 {
        BitOrDigit(a / 2, b / 2, k - 1);
      }
    }
  }

  /** A 32-bit pattern read as int32 has the same pattern. */
  lemma Uint32OfInt32(x: int)
    requires 0 <= x < TWO32
    ensures ToUint32(ToInt32(x)) == x
  {
    if x >= TWO31 {
      DivModUnique(x - TWO32, TWO32, -1, x);
    }
  }

  /** `a & b` sets bit k exactly when both a and b have it set. */
  lemma AndBit(a: int, b: int, k: nat)
    ensures Bit(And(a, b), k) == Bit(a, k) * Bit(b, k)
  {
    var x := BitAnd(ToUint32(a), ToUint32(b));
    BitAndBelow(ToUint32(a), ToUint32(b));
    Uint32OfInt32(x);
    BitAndDigit(ToUint32(a), ToUint32(b), k);
  }

  /** `a | b` sets bit k exactly when a or b has it set. */
  lemma OrBit(a: int, b: int, k: nat)
    ensures Bit(Or(a, b), k) == if Bit(a, k) == 1 || Bit(b, k) == 1 then 1 else 0
  {
    var x := BitOr(ToUint32(a), ToUint32(b));
    Pow2Known();
    BitOrBound(ToUint32(a), ToUint32(b), 32);
    Uint32OfInt32(x);
    BitOrDigit(ToUint32(a), ToUint32(b), k);
  }
}
