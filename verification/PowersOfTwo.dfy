/** Bitwise AND on naturals and the power-of-two tests of lib/kernel/hash.c. */
module PowersOfTwo {
  import opened Arithmetic

  /** Bitwise AND. */
  function And(x: nat, y: nat): nat {
    if x == 0 || y == 0 then 0 else (x % 2) * (y % 2) + 2 * And(x / 2, y / 2)
  }

  /** `turn_off_least_1bit`. */
  function TurnOff(x: nat): nat
    requires 0 < x
  {
    And(x, x - 1)
  }

  /** `is_power_of_2`. */
  predicate IsPow2(x: nat) { x != 0 && TurnOff(x) == 0 }

  lemma {:induction false} AndSelf(x: nat)
    ensures And(x, x) == x
  {
    if x != 0 {
      AndSelf(x / 2);
      assert x % 2 == 0 || x % 2 == 1;
    }
  }

  lemma AndZero(x: nat)
    ensures And(x, 0) == 0
  {
  }

  /** The lowest bit set is the last bit, or the lowest one of the half. */
  lemma TurnOffStep(x: nat)
    requires 0 < x
    ensures x % 2 == 1 ==> TurnOff(x) == x - 1
    ensures x % 2 == 0 ==> TurnOff(x) == 2 * TurnOff(x / 2)
  {
    if x % 2 == 1 {
      AndSelf(x / 2);
      assert (x - 1) / 2 == x / 2 && (x - 1) % 2 == 0;
    } else {
      assert (x - 1) / 2 == x / 2 - 1 && (x - 1) % 2 == 1;
    }
  }

  lemma {:induction false} TurnOffLess(x: nat)
    requires 0 < x
    ensures TurnOff(x) < x
  {
    TurnOffStep(x);
    if x % 2 == 0 {
      TurnOffLess(x / 2);
    }
  }

  /** Position of the highest bit set. */
  function Log2(x: nat): (k: nat)
    requires 0 < x
    ensures Pow2(k) <= x < 2 * Pow2(k)
  {
    if x == 1 then 0 else Log2(x / 2) + 1
  }

  /** The test recognises exactly the powers of two. */
  lemma {:induction false} PowerTest(x: nat)
    requires 0 < x
    ensures IsPow2(x) <==> x == Pow2(Log2(x))
  {
    TurnOffStep(x);
    if x % 2 == 0 {
      PowerTest(x / 2);
    } else if x != 1 {
      assert Pow2(Log2(x)) == 2 * Pow2(Log2(x) - 1);
    }
  }

  lemma {:induction false} PowerIsPower(k: nat)
    ensures IsPow2(Pow2(k)) && Log2(Pow2(k)) == k
  {
    if k > 0 {
      PowerIsPower(k - 1);
      TurnOffStep(Pow2(k));
      assert Pow2(k) / 2 == Pow2(k - 1);
    } else {
      AndZero(1);
    }
  }

  /** Turning off the lowest bit of a number with several bits keeps the highest. */
  lemma {:induction false} TurnOffKeepsTop(x: nat)
    requires 0 < x && !IsPow2(x)
    ensures 0 < TurnOff(x) < x && Pow2(Log2(x)) <= TurnOff(x)
  {
    TurnOffStep(x);
    TurnOffLess(x);
    if x % 2 == 0 {
      TurnOffKeepsTop(x / 2);
    } else {
      PowerTest(x);
      assert x != 1;
    }
  }

  lemma {:induction false} LogBetween(x: nat, y: nat)
    requires 0 < y <= x && Pow2(Log2(x)) <= y
    ensures Log2(y) == Log2(x)
  {
    if x != 1 {
      assert Pow2(Log2(x)) == 2 * Pow2(Log2(x / 2));
      LogBetween(x / 2, y / 2);
    }
  }

  /** Masking with a power of two less one is the remainder. */
  lemma {:induction false} MaskIsRemainder(x: nat, k: nat)
    ensures And(x, Pow2(k) - 1) == x % Pow2(k)
    decreases k
  {
    if k == 0 {
      AndZero(x);
    } else if x == 0 {
      assert Pow2(k) > 0;
    } else {
      var p := Pow2(k - 1);
      MaskIsRemainder(x / 2, k - 1);
      AndStep(x, p);
      HalfRemainder(x, p);
    }
  }

  lemma AndStep(x: nat, p: nat)
    requires 0 < p
    ensures And(x, 2 * p - 1) == x % 2 + 2 * And(x / 2, p - 1)
  {
    var y := 2 * (p - 1) + 1;
    assert y / 2 == p - 1 && y % 2 == 1;
  }

  lemma HalfRemainder(x: nat, p: nat)
    requires 0 < p
    ensures x % (2 * p) == x % 2 + 2 * (x / 2 % p)
  {
    var q, r := x / 2 / p, x / 2 % p;
    DivMod(x / 2, p);
    var m := x % 2 + 2 * r;
    assert q * (2 * p) == 2 * (q * p);
    Remainder(x, 2 * p, q, m);
  }

  lemma Remainder(x: nat, d: nat, q: nat, m: nat)
    requires x == q * d + m && m < d
    ensures x % d == m
  {
    assert (q + 1) * d == q * d + d;
    DivUnique(x, d, q);
    DivMod(x, d);
  }

  /** The loop of `rehash` that rounds down to a power of two, by clearing low bits. */
  method RoundDown(x: nat) returns (r: nat)
    requires 0 < x
    ensures IsPow2(r) && r == Pow2(Log2(x)) && r <= x < 2 * r
  {
    hide Pow2, Log2, TurnOff;
    r := x;
    while !IsPow2(r)
      invariant 0 < r <= x && Log2(r) == Log2(x)
      decreases r
    {
      TurnOffKeepsTop(r);
      LogBetween(r, TurnOff(r));
      r := TurnOff(r);
    }
    PowerTest(r);
  }
}
