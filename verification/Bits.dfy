/** Bitwise "and" on unsigned integers, and the masks built from powers of two. */
module Bits {

  function Pow2(k: nat): (p: nat)
    ensures p >= 1
  {
    if k == 0 then 1 else 2 * Pow2(k - 1)
  }

  ghost predicate IsPow2(a: nat) {
    exists k: nat :: a == Pow2(k)
  }

  function BitAnd(x: nat, y: nat): nat {
    if x == 0 || y == 0 then 0
    else 2 * BitAnd(x / 2, y / 2) + (if x % 2 == 1 && y % 2 == 1 then 1 else 0)
  }

  lemma ModDouble(x: nat, m: nat)
    requires m > 0
    ensures x % (2 * m) == 2 * ((x / 2) % m) + x % 2
  {
    var q, r := (x / 2) / m, (x / 2) % m;
    assert x / 2 == q * m + r;
    assert x == q * (2 * m) + (2 * r + x % 2);
    UniqueRemainder(x, 2 * m, q, 2 * r + x % 2);
  }

  lemma MultipleTooSmall(d: int, m: int)
    requires 0 < m && -m < d * m < m
    ensures d == 0
  {
    if d > 0 {
    } else if d < 0 {
    }
  }

  lemma UniqueRemainder(x: nat, m: nat, q: nat, r: nat)
    requires m > 0 && r < m && x == q * m + r
    ensures x % m == r && x / m == q
  {
    var d := x / m - q;
    assert x == (x / m) * m + x % m;
    assert d * m == r - x % m;
    MultipleTooSmall(d, m);
  }

  lemma AndStep(x: nat, y: nat, h: nat, b: nat)
    requires y == 2 * h + b && b < 2
    ensures BitAnd(x, y) == 2 * BitAnd(x / 2, h) + b * (x % 2)
  {
    assert y / 2 == h && y % 2 == b;
    assert b == 0 || b == 1;
  }

  lemma MaskNone(x: nat)
    ensures BitAnd(x, 0) == x % 1
  {
    UniqueRemainder(x, 1, x, 0);
  }

  /** `x & (2^k - 1)` is the remainder: how the trace ring turns a counter into a slot. */
  lemma {:induction false} MaskLow(x: nat, k: nat)
    ensures BitAnd(x, Pow2(k) - 1) == x % Pow2(k)
  {
    if k == 0 {
      MaskNone(x);
    } else {
      MaskLow(x / 2, k - 1);
      MaskLowStep(x, Pow2(k - 1), Pow2(k));
    }
  }

  lemma MaskLowStep(x: nat, m: nat, p: nat)
    requires m > 0 && p == 2 * m && BitAnd(x / 2, m - 1) == (x / 2) % m
    ensures BitAnd(x, p - 1) == x % p
  {
    AndStep(x, p - 1, m - 1, 1);
    ModDouble(x, m);
  }

  /** `x & ~(2^k - 1)` in an n-bit word clears the remainder: how the arena rounds addresses. */
  lemma {:induction false} MaskHigh(x: nat, k: nat, n: nat)
    requires k <= n && x < Pow2(n)
    ensures Pow2(k) <= Pow2(n)
    ensures BitAnd(x, Pow2(n) - Pow2(k)) == x - x % Pow2(k)
  {
    if k == 0 {
      MaskLow(x, n);
      MaskAllOnes(x, Pow2(k), Pow2(n));
    } else {
      MaskHigh(x / 2, k - 1, n - 1);
      MaskHighStep(x, Pow2(k - 1), Pow2(n - 1), Pow2(k), Pow2(n));
    }
  }

  lemma MaskAllOnes(x: nat, p: nat, q: nat)
    requires p == 1 && x < q && BitAnd(x, q - 1) == x % q
    ensures BitAnd(x, q - p) == x - x % p
  {
    UniqueRemainder(x, q, 0, x);
    UniqueRemainder(x, 1, x, 0);
  }

  lemma MaskHighStep(x: nat, m: nat, w: nat, p: nat, q: nat)
    requires 0 < m <= w && p == 2 * m && q == 2 * w
    requires BitAnd(x / 2, w - m) == x / 2 - (x / 2) % m
    ensures BitAnd(x, q - p) == x - x % p
  {
    AndStep(x, q - p, w - m, 0);
    ModDouble(x, m);
  }

  /** The test `a & (a - 1)` is zero exactly for powers of two. */
  lemma {:induction false} PowerOfTwoTest(a: nat)
    requires a > 0
    ensures BitAnd(a, a - 1) == 0 <==> IsPow2(a)
    decreases a
  {
    if a == 1 {
      assert Pow2(0) == 1;
    } else if a % 2 == 1 {
      assert (a - 1) / 2 == a / 2;
      AndSelf(a / 2);
      assert BitAnd(a, a - 1) == 2 * (a / 2);
      forall k: nat
        ensures a != Pow2(k)
      {
        if k > 0 {
          assert Pow2(k) == 2 * Pow2(k - 1);
        }
      }
    } else {
      var h := a / 2;
      assert (a - 1) / 2 == h - 1;
      PowerOfTwoTest(h);
      if IsPow2(h) {
        var k: nat :| h == Pow2(k);
        assert a == Pow2(k + 1);
      }
      if IsPow2(a) {
        var k: nat :| a == Pow2(k);
        assert k > 0 && h == Pow2(k - 1);
      }
    }
  }

  lemma {:induction false} AndSelf(x: nat)
    ensures BitAnd(x, x) == x
  {
    if x > 0 {
      AndSelf(x / 2);
    }
  }
}
