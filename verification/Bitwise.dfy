// lib/kernel/hash.c: bitwise AND on natural numbers, and powers of two.

module Bitwise {
  import opened Arithmetic

  function And(x: int, y: int): (z: int)
    ensures 0 <= z && (0 <= x ==> z <= x)
    decreases x
  {
    if x <= 0 || y <= 0 then 0 else 2 * And(x / 2, y / 2) + if x % 2 == 1 && y % 2 == 1 then 1 else 0
  }

  // The highest power of two not above X.
  function TopPow(x: int): (p: int)
    ensures p > 0 && (0 < x ==> p <= x < 2 * p)
  {
    if x < 2 then 1 else 2 * TopPow(x / 2)
  }

  // turn_off_least_1bit and is_power_of_2.
  function TurnOff(x: int): (z: int) { And(x, x - 1) }

  predicate Pow2Test(x: int) { x != 0 && TurnOff(x) == 0 }

  lemma TurnOffHalves(x: int)
    requires 0 < x
    ensures TurnOff(2 * x) == 2 * TurnOff(x) && TurnOff(2 * x + 1) == 2 * x
  {
    assert (2 * x - 1) / 2 == x - 1;
    AndSelf(x);
  }

  lemma {:induction false} AndSelf(x: int)
    requires 0 <= x
    ensures And(x, x) == x
    decreases x
  {
    if x > 0 { AndSelf(x / 2); }
  }

  lemma {:induction false} TurnOffLess(x: int)
    requires 0 < x
    ensures 0 <= TurnOff(x) < x
    decreases x
  {
    if x > 1 {
      TurnOffHalves(x / 2);
      TurnOffLess(x / 2);
      assert x == 2 * (x / 2) || x == 2 * (x / 2) + 1;
    }
  }

  // The test is right.
  lemma {:induction false} Pow2TestRight(x: int)
    requires 0 <= x
    ensures Pow2Test(x) <==> 0 < x && TopPow(x) == x
    decreases x
  {
    if x > 1 {
      TurnOffHalves(x / 2);
      Pow2TestRight(x / 2);
      assert x == 2 * (x / 2) || x == 2 * (x / 2) + 1;
    }
  }

  // Turning off the lowest of several bits leaves the highest alone.
  lemma {:induction false} TopPowKept(x: int)
    requires 0 < x && !Pow2Test(x)
    ensures TurnOff(x) > 0 && TopPow(TurnOff(x)) == TopPow(x)
    decreases x
  {
    if x > 1 {
      var y := x / 2;
      TurnOffHalves(y);
      if x == 2 * y {
        TopPowKept(y);
        assert TurnOff(x) / 2 == TurnOff(y);
      } else {
        assert TurnOff(x) == 2 * y;
      }
    }
  }

  lemma {:induction false} TopPowIsPow2(x: int) returns (k: int)
    ensures 0 <= k && TopPow(x) == Pow2(k)
    decreases x
  {
    if x < 2 { k := 0; } else { k := TopPowIsPow2(x / 2); k := k + 1; }
  }

  // Masking with a power of two less one is the remainder.
  lemma {:induction false} AndMask(x: int, k: int)
    requires 0 <= x && 0 <= k
    ensures And(x, Pow2(k) - 1) == x % Pow2(k)
    decreases k
  {
    if k > 0 {
      AndMask(x / 2, k - 1);
      HalfMod(x, Pow2(k - 1));
      AndOdd(x, Pow2(k - 1), x / 2 % Pow2(k - 1));
    } else {
      assert Pow2(0) == 1;
    }
  }

  lemma AndOdd(x: int, p: int, r: int)
    requires 0 <= x && 0 < p && And(x / 2, p - 1) == r && (x == 0 ==> r == 0)
    ensures And(x, 2 * p - 1) == 2 * r + x % 2
  {
    OddHalf(p);
    AndUnfold(x, 2 * p - 1);
  }

  lemma OddHalf(p: int)
    ensures (2 * p - 1) / 2 == p - 1 && (2 * p - 1) % 2 == 1
  {}

  lemma AndUnfold(x: int, y: int)
    requires 0 <= x && 0 < y && y % 2 == 1
    ensures And(x, y) == 2 * And(x / 2, y / 2) + x % 2
  {}

  lemma HalfMod(x: int, p: int)
    requires 0 < p
    ensures x % (2 * p) == 2 * (x / 2 % p) + x % 2
  {
    Floor(x / 2, p);
    var q, r := x / 2 / p, x / 2 % p;
    assert x == 2 * (q * p + r) + x % 2;
    FloorIs(x, 2 * p, q);
    Floor(x, 2 * p);
  }
}
