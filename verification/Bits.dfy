// The bit-mask arithmetic of defines.h on unbounded integers.

module Bits {
  import opened Bytes

  function Pow2(k: nat): (p: nat)
    ensures p > 0
  {
    if k == 0 then 1 else 2 * Pow2(k - 1)
  }

  // Bitwise conjunction.
  function And(a: nat, b: nat): (r: nat)
    ensures r <= a && r <= b
  {
    if a == 0 || b == 0 then 0
    else (if a % 2 == 1 && b % 2 == 1 then 1 else 0) + 2 * And(a / 2, b / 2)
  }

  // Bitwise exclusive disjunction.
  function Xor(a: nat, b: nat): nat
    decreases a + b
  {
    if a == 0 && b == 0 then 0
    else (if a % 2 != b % 2 then 1 else 0) + 2 * Xor(a / 2, b / 2)
  }

  lemma {:induction false} XorUndoes(a: nat, b: nat)
    ensures Xor(Xor(a, b), b) == a
    decreases a + b
  {
    if a > 0 || b > 0 {
      XorUndoes(a / 2, b / 2);
      var x := Xor(a, b);
      assert x / 2 == Xor(a / 2, b / 2) && (x % 2 == 1 <==> a % 2 != b % 2);
    }
  }

  lemma {:induction false} XorBelow(a: nat, b: nat, k: nat)
    requires a < Pow2(k) && b < Pow2(k)
    ensures Xor(a, b) < Pow2(k)
    decreases k
  {
    if k > 0 { XorBelow(a / 2, b / 2, k - 1); }
  }

  ghost predicate PowerOfTwo(n: nat) {
    exists k: nat :: Pow2(k) == n
  }

  // IS_POWER_OF_TWO
  predicate IsPowerOfTwo(n: nat) { n > 0 && And(n, n - 1) == 0 }

  // IS_ALIGNED, and the endpoint packet size test of the host
  predicate IsAligned(x: nat, y: nat)
    requires y > 0
  {
    And(x, y - 1) == 0
  }

  // ALIGN_UP: the complement of a mask clears exactly the bits that the mask selects.
  function AlignUp(x: nat, y: nat): (r: int)
    requires y > 0
  {
    var sum := x + (y - 1);
    sum - And(sum, y - 1)
  }

  lemma HalfRemainder(x: nat, p: nat)
    requires p > 0
    ensures x % (2 * p) == 2 * ((x / 2) % p) + x % 2
  {
    var h := x / 2;
    var q, r := h / p, h % p;
    assert h == q * p + r;
    assert q * (2 * p) == 2 * (q * p);
    ModUnique(x, 2 * p, q, 2 * r + x % 2);
  }

  lemma {:induction false} MaskIsRemainder(x: nat, k: nat)
    ensures And(x, Pow2(k) - 1) == x % Pow2(k)
    decreases k
  {
    if k > 0 {
      MaskIsRemainder(x / 2, k - 1);
      MaskStep(x, Pow2(k - 1));
    } else {
      ModUnique(x, 1, x, 0);
    }
  }

  lemma MaskStep(x: nat, p: nat)
    requires p > 0 && And(x / 2, p - 1) == (x / 2) % p
    ensures And(x, 2 * p - 1) == x % (2 * p)
  {
    HalfRemainder(x, p);
    AndHalves(x, p);
  }

  lemma AndHalves(x: nat, p: nat)
    requires p > 0
    ensures And(x, 2 * p - 1) == x % 2 + 2 * And(x / 2, p - 1)
  {
    HalvesOfMask(p);
  }

  lemma HalvesOfMask(p: nat)
    requires p > 0
    ensures (2 * p - 1) / 2 == p - 1 && (2 * p - 1) % 2 == 1
  {
  }

  // The mask test recognises exactly the powers of two.
  lemma {:induction false} PowerOfTwoTest(n: nat)
    ensures IsPowerOfTwo(n) <==> PowerOfTwo(n)
  {
    if n == 1 {
      assert Pow2(0) == 1;
    } else if n > 1 {
      PowerOfTwoTest(n / 2);
      if n % 2 == 0 {
        assert (n - 1) / 2 == n / 2 - 1;
        if n > 0 && IsPowerOfTwo(n / 2) {
          var k: nat :| Pow2(k) == n / 2;
          assert Pow2(k + 1) == n;
        }
        if PowerOfTwo(n) {
          var k: nat :| Pow2(k) == n;
          assert Pow2(k - 1) == n / 2;
        }
      } else {
        assert (n - 1) / 2 == n / 2;
        AndSelf(n / 2);
        if k: nat :| Pow2(k) == n { PowersAreEven(k); }
      }
    }
  }

  lemma PowersAreEven(k: nat)
    ensures k > 0 ==> Pow2(k) % 2 == 0
  {
  }

  lemma {:induction false} AndSelf(n: nat)
    ensures And(n, n) == n
  {
    if n > 0 { AndSelf(n / 2); }
  }

  lemma AlignedMeansMultiple(x: nat, y: nat)
    requires PowerOfTwo(y) && y > 0
    ensures IsAligned(x, y) <==> x % y == 0
  {
    var k: nat :| Pow2(k) == y;
    MaskIsRemainder(x, k);
  }

  // ALIGN_UP is the least multiple at or above its argument.
  lemma AlignUpIsLeast(x: nat, y: nat)
    requires PowerOfTwo(y) && y > 0
    ensures var r := AlignUp(x, y); x <= r < x + y && r % y == 0
    ensures x % y == 0 ==> AlignUp(x, y) == x
  {
    var sum := x + (y - 1);
    var k: nat :| Pow2(k) == y;
    MaskIsRemainder(sum, k);
    DownToMultiple(sum, y);
    if x % y == 0 { AddBelow(x, y, y - 1); }
  }

  // ALIGN_DOWN
  function AlignDown(x: nat, y: nat): (r: nat)
    requires y > 0
    ensures r <= x
  {
    x - And(x, y - 1)
  }

  lemma AlignDownIsGreatest(x: nat, y: nat)
    requires PowerOfTwo(y) && y > 0
    ensures AlignDown(x, y) == x - x % y && AlignDown(x, y) % y == 0
  {
    var k: nat :| Pow2(k) == y;
    MaskIsRemainder(x, k);
    DownToMultiple(x, y);
  }

  lemma DownToMultiple(n: nat, y: nat)
    requires y > 0
    ensures (n - n % y) % y == 0
  {
    assert n == (n / y) * y + n % y;
    ModUnique(n - n % y, y, n / y, 0);
  }

  lemma AddBelow(x: nat, y: nat, r: nat)
    requires y > 0 && x % y == 0 && r < y
    ensures (x + r) % y == r
  {
    assert x == (x / y) * y + x % y;
    ModUnique(x + r, y, x / y, r);
  }
}
