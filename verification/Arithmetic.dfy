/** 64-bit division built from the x86 DIVL instruction (lib/arithmetic.c).

    Machine integers are mathematical integers restricted to their range; every place
    where the C code may wrap is written out with `% B32`, `% B64` or the two's
    complement reading `AsS32`/`AsS64`. */
module Arithmetic {

  const B31: int := 0x8000_0000
  const B32: int := 0x1_0000_0000
  const B63: int := 0x8000_0000_0000_0000
  const B64: int := 0x1_0000_0000_0000_0000

  type U32 = x: int | 0 <= x < B32
  type U64 = x: int | 0 <= x < B64
  type S32 = x: int | -B31 <= x < B31
  type S64 = x: int | -B63 <= x < B63

  /** A machine computation: a value, or the divide error #DE. */
  datatype Outcome<+T> = Trap | Value(value: T)

  function Pow2(n: nat): (p: nat)
    ensures p > 0
  {
    if n == 0 then 1 else 2 * Pow2(n - 1)
  }

  /** Two's complement reading of a 64-bit (32-bit) word. */
  function AsS64(x: int): S64 { var w := x % B64; if w < B63 then w else w - B64 }
  function AsS32(x: int): S32 { var w := x % B32; if w < B31 then w else w - B32 }

  /** C's signed quotient and remainder: truncation toward zero. */
  function TruncDiv(n: int, d: int): int
    requires d != 0
  {
    var q := Abs(n) / Abs(d);
    if (n < 0) == (d < 0) then q else -q
  }

  function TruncRem(n: int, d: int): int
    requires d != 0
  {
    n - d * TruncDiv(n, d)
  }

  function Abs(x: int): nat { if x < 0 then -x else x }

  /** The DIVL instruction: traps when the divisor is zero or when the quotient does not
      fit in 32 bits. */
  function Divl(n: U64, d: U32): Outcome<U32> {
    if d == 0 || n / d >= B32 then Trap else Value(n / d)
  }

  /** Number of leading zero bits: the shift that moves the top set bit to bit 31. */
  method Nlz(x0: U32) returns (n: nat)
    requires x0 != 0
    ensures n <= 31 && B31 <= x0 * Pow2(n) < B32
  {
    var x := x0;
    n := 0;
    n, x := SkipZeros(x0, n, x, 0x0000FFFF, 16, 0x1_0000);
    n, x := SkipZeros(x0, n, x, 0x00FFFFFF, 8, 0x100);
    n, x := SkipZeros(x0, n, x, 0x0FFFFFFF, 4, 0x10);
    n, x := SkipZeros(x0, n, x, 0x3FFFFFFF, 2, 0x4);
    if x <= 0x7FFFFFFF {
      ShiftLeft(x0, n, x, 1, 2);
      n := n + 1;
    }
    ShlIsProduct(x0, n);
  }

  /** One of the four blocks of `nlz`: if the top k bits are clear, shift them out. */
  method SkipZeros(ghost x0: U32, n: nat, x: U32, limit: U32, k: nat, p: int)
      returns (n': nat, x': U32)
    requires x == Shl(x0, n) && (k, p) in {(2, 4), (4, 0x10), (8, 0x100), (16, 0x1_0000)}
    requires (limit + 1) * p == B32
    ensures n <= n' <= n + k && x' == Shl(x0, n')
    ensures x > limit / p ==> x' > limit
  {
    n', x' := n, x;
    if x <= limit {
      ShiftLeft(x0, n, x, k, p);
      n' := n + k;
      x' := x * p % B32;
    }
  }

  /** `udiv64`: traps exactly on a zero divisor and is floor division otherwise; in
      particular neither of its DIVL instructions traps on a nonzero divisor. */
  method UDiv64(n: U64, d: U64) returns (r: Outcome<U64>)
    ensures r == if d == 0 then Trap else Value(n / d)
  {
    if d / B32 == 0 {
      r := UDivShort(n, d);
    } else if n < d {
      DivUnique(n, d, 0);
      r := Value(0);
    } else {
      r := UDivWide(n, d);
    }
  }

  /** The branch of `udiv64` for a divisor of one word. */
  method UDivShort(n: U64, d: U32) returns (r: Outcome<U64>)
    ensures r == if d == 0 then Trap else Value(n / d)
  {
    if d == 0 {
      return Trap;  // n1 % 0
    }
    var n1: U32, n0: U32 := n / B32, n % B32;
    var part: U64, high: U64 := (B32 * (n1 % d) + n0) % B64, B32 * (n1 / d) % B64;
    ShortDivision(n, d, part, high);
    var q := Divl(part, d);
    if q.Trap? {
      return Trap;
    }
    r := Value((q.value + high) % B64);
  }

  /** The branch of `udiv64` for a divisor of two words: estimate and correct. */
  method UDivWide(n: U64, d: U64) returns (r: Outcome<U64>)
    requires B32 <= d <= n
    ensures r == Value(n / d)
  {
    var s := Nlz(d / B32);
    var v: U32 := d * Pow2(s) % B64 / B32;
    LongDivision(n, d, s, v);
    var q1 := Divl(n / 2, v);
    if q1.Trap? {
      return Trap;
    }
    var q: U64 := q1.value / Pow2(31 - s);
    var q': U64 := (q - 1) % B64;
    r := Value(if (n - q' * d) % B64 < d then q' else q);
  }

  /** `umod64`: the true remainder cut to 32 bits. */
  method UMod64(n: U64, d: U64) returns (r: Outcome<U32>)
    ensures r == if d == 0 then Trap else Value(n % d % B32)
  {
    var q := UDiv64(n, d);
    if q.Trap? {
      return Trap;
    }
    Remainder(n, d);
    r := Value((n - d * q.value) % B64 % B32);
  }

  /** `__umoddi3` returns the remainder a caller asked for exactly when it fits 32 bits. */
  method UModDi3(n: U64, d: U64) returns (r: Outcome<U64>)
    ensures d == 0 <==> r.Trap?
    ensures d != 0 ==> (r.value == n % d <==> n % d < B32)
  {
    var w := UMod64(n, d);
    r := match w case Trap => Trap case Value(v) => Value(v);
    if d != 0 && n % d < B32 {
      SmallModSelf(n % d, B32);
    }
  }

  /** A remainder that `__umoddi3` gets wrong: 2^32 mod (2^32 + 1) comes back as 0. */
  lemma UModTruncates()
    ensures B32 % (B32 + 1) == B32 && B32 % (B32 + 1) % B32 == 0
  {
  }

  /** `sdiv64`: truncating division, except that INT64_MIN / -1 wraps to INT64_MIN. */
  method SDiv64(n: S64, d: S64) returns (r: Outcome<S64>)
    ensures r == if d == 0 then Trap else Value(AsS64(TruncDiv(n, d)))
    ensures d != 0 ==> (r.value == TruncDiv(n, d) <==> !(n == -B63 && d == -1))
  {
    var nAbs: U64 := if n >= 0 then n else (B64 - n % B64) % B64;
    var dAbs: U64 := if d >= 0 then d else (B64 - d % B64) % B64;
    NegateWord(n);
    NegateWord(d);
    var q := UDiv64(nAbs, dAbs);
    if q.Trap? {
      return Trap;
    }
    SignedQuotient(n, d, q.value);
    r := Value(if (n < 0) == (d < 0) then AsS64(q.value) else AsS64(0 - AsS64(q.value)));
  }

  /** `smod64`/`__moddi3`: the truncating remainder wrapped to 32 bits, hence right exactly
      when it fits a signed 32-bit word (also for INT64_MIN, -1, whose quotient wraps). */
  method SMod64(n: S64, d: S64) returns (r: Outcome<S32>)
    ensures r == if d == 0 then Trap else Value(AsS32(TruncRem(n, d)))
    ensures d != 0 ==> (r.value == TruncRem(n, d) <==> -B31 <= TruncRem(n, d) < B31)
  {
    var q := SDiv64(n, d);
    if q.Trap? {
      return Trap;
    }
    WrapProduct(n, d, TruncDiv(n, d));
    r := Value(AsS32(AsS64(n - d * q.value)));
  }

  // ----- lemmas -----

  lemma {:induction false} Pow2Add(a: nat, b: nat)
    ensures Pow2(a + b) == Pow2(a) * Pow2(b)
  {
    if b > 0 {
      Pow2Add(a, b - 1);
      assert a + b - 1 == a + (b - 1);
    }
  }

  function Shl(x: nat, n: nat): nat {
    if n == 0 then x else 2 * Shl(x, n - 1)
  }

  lemma {:induction false} ShlIsProduct(x: nat, n: nat)
    ensures Shl(x, n) == x * Pow2(n)
  {
    if n > 0 {
      ShlIsProduct(x, n - 1);
    }
  }

  lemma {:induction false} ShlAdd(x: nat, n: nat, k: nat)
    ensures Shl(x, n + k) == Shl(Shl(x, n), k)
  {
    if k > 0 {
      ShlAdd(x, n, k - 1);
      assert n + k - 1 == n + (k - 1);
    }
  }

  lemma ShlValues(y: nat)
    ensures Shl(y, 1) == 2 * y && Shl(y, 2) == 4 * y && Shl(y, 4) == 0x10 * y
    ensures Shl(y, 8) == 0x100 * y && Shl(y, 16) == 0x1_0000 * y
  {
    ShlAdd(y, 2, 2);
    ShlAdd(y, 4, 2);
    ShlAdd(y, 6, 2);
    ShlAdd(y, 8, 2);
    ShlAdd(y, 10, 2);
    ShlAdd(y, 12, 2);
    ShlAdd(y, 14, 2);
  }

  lemma Pow2Word()
    ensures Pow2(32) == B32
  {
    ShlIsProduct(1, 32);
    ShlAdd(1, 16, 16);
    ShlValues(1);
    ShlValues(0x1_0000);
  }

  /** One step of the binary search for the top bit loses no bits. */
  lemma ShiftLeft(x0: U32, n: nat, x: U32, k: nat, p: int)
    requires x == Shl(x0, n) && x * p < B32
    requires (k, p) in {(1, 0x2), (2, 0x4), (4, 0x10), (8, 0x100), (16, 0x1_0000)}
    ensures x * p % B32 == x * p == Shl(x0, n + k)
  {
    ShlAdd(x0, n, k);
    ShlValues(x);
  }

  lemma MulMonotone(a: int, b: int, c: int)
    requires a <= b && c >= 0
    ensures a * c <= b * c
  {
  }

  lemma MulCancelLess(a: int, b: int, c: int)
    requires c > 0 && a * c < b * c
    ensures a < b
  {
  }

  lemma DivMod(n: int, d: int)
    requires d > 0
    ensures n / d * d <= n < (n / d + 1) * d == n / d * d + d
    ensures n == n / d * d + n % d
  {
  }

  /** The quotient is the only number whose multiples bracket the dividend. */
  lemma DivUnique(n: int, d: int, q: int)
    requires d > 0 && q * d <= n < (q + 1) * d
    ensures n / d == q
  {
    DivMod(n, d);
    MulCancelLess(n / d, q + 1, d);
    MulCancelLess(q, n / d + 1, d);
  }

  lemma DivBelow(n: int, d: int, m: int)
    requires d > 0 && n < m * d
    ensures n / d < m
  {
    DivMod(n, d);
    MulCancelLess(n / d, m, d);
  }

  lemma DivAtLeast(n: int, d: int, m: int)
    requires d > 0 && m * d <= n
    ensures m <= n / d
  {
    DivMod(n, d);
    MulCancelLess(m, n / d + 1, d);
  }

  /** Dividing twice is dividing by the product. */
  lemma DivDiv(n: nat, a: int, b: int)
    requires a > 0 && b > 0
    ensures a * b > 0 && n / a / b == n / (a * b)
  {
    var q, k := n / a, n / a / b;
    DivMod(n, a);
    DivMod(q, b);
    assert k * (a * b) == k * b * a;
    assert (k + 1) * (a * b) == (k + 1) * b * a;
    MulMonotone(k * b, q, a);
    MulMonotone(q + 1, (k + 1) * b, a);
    DivUnique(n, a * b, k);
  }

  lemma QuotientBound(n: nat, d: int)
    requires d > 0
    ensures 0 <= n / d <= n
  {
    MulMonotone(1, d, n + 1);
    assert d * (n + 1) == (n + 1) * d;
    DivBelow(n, d, n + 1);
    DivAtLeast(n, d, 0);
  }

  lemma SmallModSelf(x: nat, m: int)
    requires x < m
    ensures x % m == x
  {
  }

  /** The case of a 32-bit divisor: schoolbook division in base 2^32. */
  lemma ShortDivision(n: U64, d: U32, part: U64, high: U64)
    requires d > 0
    requires part == (B32 * (n / B32 % d) + n % B32) % B64 && high == B32 * (n / B32 / d) % B64
    ensures part / d < B32
    ensures (part / d + high) % B64 == n / d
  {
    var n1, n0 := n / B32, n % B32;
    var t := n1 / d;
    DivMod(n1, d);
    QuotientBound(n1, d);
    SmallModSelf(B32 * (n1 % d) + n0, B64);
    SmallModSelf(B32 * t, B64);
    var q := part / d;
    DivMod(part, d);
    DivBelow(part, d, B32);
    assert n == B32 * (t * d) + part;
    assert (q + B32 * t) * d == q * d + B32 * (t * d);
    assert (q + B32 * t + 1) * d == (q + B32 * t) * d + d;
    DivUnique(n, d, q + B32 * t);
    QuotientBound(n, d);
  }

  /** The case of a wide divisor, from `nlz` to the final selection. */
  lemma LongDivision(n: U64, d: U64, s: nat, v: U32)
    requires B32 <= d <= n
    requires s <= 31 && B31 <= d / B32 * Pow2(s) < B32
    requires v == d * Pow2(s) % B64 / B32
    ensures 0 < v && n / 2 / v < B32
    ensures var q := n / 2 / v / Pow2(31 - s);
            && 1 <= q < B64
            && n / d == if (n - (q - 1) % B64 * d) % B64 < d then (q - 1) % B64 else q
  {
    NormalizedDivisor(d, s);
    EstimateBounds(n, d, s);
    SelectQuotient(n, d, n / 2 / v / Pow2(31 - s));
  }

  /** Shifting the divisor left until its top bit is set loses nothing, and its high word is
      the divisor without its low 32 - s bits. */
  lemma NormalizedDivisor(d: U64, s: nat)
    requires s <= 31 && B31 <= d / B32 * Pow2(s) < B32
    ensures Pow2(32 - s) == 2 * Pow2(31 - s)
    ensures d * Pow2(s) % B64 / B32 == d / Pow2(32 - s)
    ensures B31 <= d / Pow2(32 - s) < B32
  {
    var a, x := Pow2(s), Pow2(32 - s);
    Pow2Add(s, 32 - s);
    Pow2Word();
    ShiftedRange(d, d / B32, a, x);
    SmallModSelf(d * a, B64);
    ScaleQuotient(d, a, x);
    DivBelow(d * a, B32, B32);
    DivAtLeast(d * a, B32, B31);
  }

  lemma ShiftedRange(d: U64, d1: int, a: int, x: int)
    requires d1 == d / B32 && a > 0 && a * x == B32 && B31 <= d1 * a < B32
    ensures B31 * B32 <= d * a < B64
  {
    assert d1 * a < x * a;
    MulCancelLess(d1, x, a);
    MulMonotone(d1 + 1, x, a);
    MulMonotone(d1 * B32, d, a);
    MulMonotone(d + 1, (d1 + 1) * B32, a);
    assert (d + 1) * a == d * a + a;
    assert d1 * B32 * a == d1 * a * B32;
    assert (d1 + 1) * B32 * a == (d1 + 1) * a * B32;
  }

  /** Scaling dividend and divisor alike keeps the quotient. */
  lemma ScaleQuotient(d: int, a: int, x: int)
    requires a > 0 && x > 0
    ensures a * x > 0 && d * a / (a * x) == d / x
  {
    var v := d / x;
    DivMod(d, x);
    assert v * (a * x) == v * x * a;
    assert (v + 1) * (a * x) == (v + 1) * x * a;
    MulMonotone(v * x, d, a);
    assert d * a < (v + 1) * x * a;
    DivUnique(d * a, a * x, v);
  }

  /** The heart of the algorithm: cutting the low bits of the divisor makes the estimate too
      large by at most one, and the instruction that computes it cannot trap. */
  lemma EstimateBounds(n: U64, d: U64, s: nat)
    requires s <= 31 && 0 < d <= n
    requires Pow2(32 - s) == 2 * Pow2(31 - s)
    requires B31 <= d / Pow2(32 - s) < B32
    ensures n / 2 / (d / Pow2(32 - s)) < B32
    ensures n / d <= n / 2 / (d / Pow2(32 - s)) / Pow2(31 - s) <= n / d + 1
  {
    var x, h := Pow2(32 - s), Pow2(31 - s);
    var v := d / x;
    MulMonotone(B31, v, B32);
    assert v * B32 == B32 * v;
    DivBelow(n / 2, v, B32);
    DivDiv(n / 2, v, h);
    DivDiv(n, 2, v * h);
    assert 2 * (v * h) == v * x;
    DivMod(d, x);
    MulMonotone(B31, v, x);
    CutBound(n, d, v * x, x);
  }

  /** With c = d cut to a multiple of x, n / c exceeds n / d by at most one. */
  lemma CutBound(n: U64, d: U64, c: int, x: int)
    requires 0 < x && B31 * x <= c <= d < c + x
    ensures n / d <= n / c <= n / d + 1
  {
    DivMod(n, d);
    DivAtLeast(n, d, 0);
    CutQuotient(n, d, c, x, n / d);
  }

  lemma CutQuotient(n: U64, d: int, c: int, x: int, q: nat)
    requires 0 < x && B31 * x <= c <= d < c + x && q * d <= n < (q + 1) * d
    ensures q <= n / c <= q + 1
  {
    CutAbove(n, d, c, q);
    CutBelow(n, d, c, x, q);
    DivBelow(n, c, q + 2);
  }

  lemma CutBelow(n: U64, d: int, c: int, x: int, q: nat)
    requires 0 < x && B31 * x <= c <= d < c + x && q * d <= n < (q + 1) * d
    ensures n < (q + 2) * c
  {
    if (q + 2) * c < (q + 1) * d {
      CutExcess(q + 1, d, c, x);
      TooWide(n, d, q, x);
    }
  }

  lemma CutAbove(n: nat, d: int, c: int, q: int)
    requires 0 < c <= d && 0 <= q && q * d <= n
    ensures q <= n / c
  {
    MulMonotone(c, d, q);
    assert c * q == q * c && d * q == q * d;
    DivAtLeast(n, c, q);
  }

  lemma CutExcess(m: int, d: int, c: int, x: int)
    requires m >= 0 && d < c + x && (m + 1) * c < m * d
    ensures c < m * (x - 1)
  {
    assert m * d == m * c + m * (d - c);
    assert (m + 1) * c == m * c + c;
    MulMonotone(d - c, x - 1, m);
    assert (d - c) * m == m * (d - c) && (x - 1) * m == m * (x - 1);
  }

  /** If 2^31 x < (q + 1) (x - 1) then q times a divisor of at least 2^31 x reaches 2^64. */
  lemma TooWide(n: int, d: int, q: int, x: int)
    requires q >= 0 && x >= 1 && B31 * x <= d && q * d <= n
    requires B31 * x < (q + 1) * (x - 1)
    ensures n >= B64
  {
    var y := x - 1;
    assert (q + 1) * y == q * y + y;
    assert q * x == q * y + q;
    assert B31 * y < (q + 1) * y;
    MulCancelLess(B31, q + 1, y);
    assert q * x >= 4 * B31;
    MulMonotone(B31 * x, d, q);
    assert q * (B31 * x) == B31 * (q * x);
  }

  /** The last line of `udiv64`: from an estimate that is right or one too large, comparing
      n - (q - 1) d with d selects the quotient, and nothing wraps. */
  lemma SelectQuotient(n: U64, d: U64, q: int)
    requires B32 <= d <= n && n / d <= q <= n / d + 1
    ensures 1 <= q < B64
    ensures n / d == if (n - (q - 1) % B64 * d) % B64 < d then (q - 1) % B64 else q
  {
    var k := n / d;
    DivMod(n, d);
    MulMonotone(B32, d, B32);
    assert B32 * B32 == B64;
    DivBelow(n, d, B32);
    DivAtLeast(n, d, 1);
    SmallModSelf(q - 1, B64);
    assert (k - 1) * d == k * d - d;
    MulMonotone(0, k - 1, d);
    SmallModSelf(n - (q - 1) * d, B64);
  }

  lemma Remainder(n: U64, d: U64)
    requires d > 0
    ensures (n - d * (n / d)) % B64 == n % d
  {
    DivMod(n, d);
    assert d * (n / d) == n / d * d;
  }

  /** Negating an unsigned word gives the magnitude of a negative number. */
  lemma NegateWord(n: S64)
    ensures n < 0 ==> (B64 - n % B64) % B64 == 0 - n
  {
    if n < 0 {
      assert n % B64 == n + B64;
    }
  }

  /** The magnitude of a quotient is at most 2^63, and 2^63 only for INT64_MIN / +-1. */
  lemma SignedQuotient(n: S64, d: S64, q: int)
    requires d != 0 && q == Abs(n) / Abs(d)
    ensures AsS64(TruncDiv(n, d)) ==
            if (n < 0) == (d < 0) then AsS64(q) else AsS64(0 - AsS64(q))
    ensures AsS64(TruncDiv(n, d)) == TruncDiv(n, d) <==> !(n == -B63 && d == -1)
  {
    QuotientMagnitude(Abs(n), Abs(d));
    if q == B63 {
    } else {
      WordInRange(q);
      WordInRange(-q);
    }
  }

  lemma WordInRange(x: int)
    requires -B63 <= x < B63
    ensures AsS64(x) == x
  {
  }

  lemma QuotientMagnitude(a: nat, b: nat)
    requires a <= B63 && 0 < b
    ensures 0 <= a / b <= B63
    ensures a / b == B63 <==> a == B63 && b == 1
  {
    QuotientBound(a, b);
    if b == 1 {
      DivUnique(a, 1, a);
    } else {
      MulMonotone(2, b, B63);
      assert B63 * b == b * B63;
      DivBelow(a, b, B63);
    }
  }

  /** Wrapping the quotient first does not change the wrapped remainder. */
  lemma WrapProduct(n: S64, d: S64, q: int)
    requires d != 0 && q == TruncDiv(n, d)
    ensures AsS32(AsS64(n - d * AsS64(q))) == AsS32(n - d * q)
  {
    QuotientBound(Abs(n), Abs(d));
    assert AsS64(q) == q || AsS64(q) == q - B64;
    var w := AsS64(q);
    if w == q - B64 {
      assert d * w == d * q - d * B64;
      ModShift(n - d * q, d, B64);
    }
    ModMod32(n - d * w);
    ModMod32(n - d * q);
  }

  lemma ModShift(x: int, k: int, m: int)
    requires m > 0
    ensures (x + k * m) % m == x % m
  {
    DivMod(x, m);
    var r, t := x % m, x / m;
    assert (x + k * m) == (t + k) * m + r;
    assert (t + k + 1) * m == (t + k) * m + m;
    DivUnique(x + k * m, m, t + k);
    DivMod(x + k * m, m);
  }

  lemma ModMod32(x: int)
    ensures AsS32(AsS64(x)) == AsS32(x)
  {
    var w := AsS64(x);
    assert x == x / B64 * B64 + x % B64;
    assert exists k :: w == x + k * B64 by {
      assert w == x + (-(x / B64)) * B64 || w == x + (-(x / B64) - 1) * B64;
    }
    var k :| w == x + k * B64;
    ModShift(x, k * B32, B32);
    assert k * B32 * B32 == k * B64;
  }
}
