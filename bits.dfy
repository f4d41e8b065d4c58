/**
 * Bit-level arithmetic on non-negative integers: powers of two, the bits of a
 * two's-complement integer (`(x >> i) & 1`), exclusive or, and, and the
 * population count. Node identifiers of a hypercube are read as bit vectors
 * through these functions.
 */
module Bits {

  /** `1 << n` */
  function Pow2(n: nat): (r: nat)
    ensures r >= 1
  {
    if n == 0 then 1 else 2 * Pow2(n - 1)
  }

  /** `(x >> i) & 1`, the arithmetic shift of a two's-complement integer. */
  function Bit(x: int, i: nat): (b: int)
    ensures b == 0 || b == 1
    decreases i
  {
    if i == 0 then x % 2 else Bit(x / 2, i - 1)
  }

  /** `a ^ b` on non-negative operands. */
  function Xor(a: nat, b: nat): nat
    decreases a + b
  {
    if a == 0 then b
    else if b == 0 then a
    else 2 * Xor(a / 2, b / 2) + (if a % 2 == b % 2 then 0 else 1)
  }

  /** `a & b` on non-negative operands. */
  function And(a: nat, b: nat): nat
  {
    if a == 0 || b == 0 then 0
    else 2 * And(a / 2, b / 2) + (if a % 2 == 1 && b % 2 == 1 then 1 else 0)
  }

  /** `a | b` on non-negative operands. */
  function Or(a: nat, b: nat): nat
  {
    if a == 0 then b
    else if b == 0 then a
    else 2 * Or(a / 2, b / 2) + (if a % 2 == 1 || b % 2 == 1 then 1 else 0)
  }

  /** Setting a bit that is still clear adds its value. */
  lemma {:induction false} OrFreshBit(a: nat, i: nat)
    requires a < Pow2(i)
    ensures Or(a, Pow2(i)) == a + Pow2(i)
  {
    if i > 0 && a > 0 {
      assert Pow2(i) % 2 == 0 && Pow2(i) / 2 == Pow2(i - 1);
      OrFreshBit(a / 2, i - 1);
    }
  }

  /** Number of one bits of `x`, counted from the least significant end. */
  function Popcount(x: nat): nat
  {
    if x == 0 then 0 else x % 2 + Popcount(x / 2)
  }

  /** `x` is a power of two. */
  predicate IsPow2(x: nat)
  {
    x == 1 || (x > 1 && x % 2 == 0 && IsPow2(x / 2))
  }

  lemma {:induction false} Pow2Monotone(i: nat, j: nat)
    requires i <= j
    ensures Pow2(i) <= Pow2(j)
  {
    if i < j { Pow2Monotone(i, j - 1); }
  }

  lemma {:induction false} PowersOfTwoAreIsPow2(d: nat)
    ensures IsPow2(Pow2(d))
  {
    if d > 0 { PowersOfTwoAreIsPow2(d - 1); }
  }

  lemma {:induction false} IsPow2IsPower(x: nat)
    requires IsPow2(x)
    ensures exists d: nat :: x == Pow2(d)
  {
    if x == 1 {
      assert x == Pow2(0);
    } else {
      IsPow2IsPower(x / 2);
      var d: nat :| x / 2 == Pow2(d);
      assert x == Pow2(d + 1);
    }
  }

  /** Bit `i` of `2^d` is set exactly when `i == d`. */
  lemma {:induction false} BitOfPow2(d: nat, i: nat)
    ensures Bit(Pow2(d), i) == if i == d then 1 else 0
  {
    if i == 0 {
    } else if d == 0 {
      BitOfZero(i - 1);
    } else {
      BitOfPow2(d - 1, i - 1);
    }
  }

  lemma {:induction false} BitOfZero(i: nat)
    ensures Bit(0, i) == 0
  {
    if i > 0 { BitOfZero(i - 1); }
  }

  /** A number below `2^n` has no bit set at or above position `n`. */
  lemma {:induction false} BitAboveWidth(x: nat, n: nat, i: nat)
    requires x < Pow2(n) && n <= i
    ensures Bit(x, i) == 0
  {
    if n == 0 {
      assert x == 0;
      BitOfZero(i);
    } else {
      BitAboveWidth(x / 2, n - 1, i - 1);
    }
  }

  /** Two numbers below `2^n` that agree on their `n` low bits are equal. */
  lemma {:induction false} BitsDetermine(a: nat, b: nat, n: nat)
    requires a < Pow2(n) && b < Pow2(n)
    requires forall i :: 0 <= i < n ==> Bit(a, i) == Bit(b, i)
    ensures a == b
  {
    if n > 0 {
      assert Bit(a, 0) == Bit(b, 0);
      forall i | 0 <= i < n - 1 ensures Bit(a / 2, i) == Bit(b / 2, i) {
        assert Bit(a, i + 1) == Bit(b, i + 1);
      }
      BitsDetermine(a / 2, b / 2, n - 1);
    }
  }

  lemma XorStep(a: nat, b: nat)
    ensures Xor(a, b) % 2 == (if a % 2 == b % 2 then 0 else 1)
    ensures Xor(a, b) / 2 == Xor(a / 2, b / 2)
  {
    if a != 0 && b != 0 {
      HalfOfDouble(Xor(a / 2, b / 2), if a % 2 == b % 2 then 0 else 1);
    } else if a == 0 {
      assert Xor(a / 2, b / 2) == b / 2;
    } else {
      assert Xor(a / 2, b / 2) == a / 2;
    }
  }

  lemma HalfOfDouble(x: nat, r: nat)
    requires r < 2
    ensures (2 * x + r) % 2 == r && (2 * x + r) / 2 == x
  {
  }

  /** Bit `i` of `a ^ b` is set exactly when the bits of `a` and `b` differ there. */
  lemma {:induction false} BitOfXor(a: nat, b: nat, i: nat)
    ensures Bit(Xor(a, b), i) == if Bit(a, i) == Bit(b, i) then 0 else 1
  {
    XorStep(a, b);
    if i > 0 { BitOfXor(a / 2, b / 2, i - 1); }
  }

  lemma {:induction false} XorBelow(a: nat, b: nat, n: nat)
    requires a < Pow2(n) && b < Pow2(n)
    ensures Xor(a, b) < Pow2(n)
  {
    if n > 0 && a != 0 && b != 0 { XorBelow(a / 2, b / 2, n - 1); }
  }

  lemma {:induction false} XorSelf(a: nat)
    ensures Xor(a, a) == 0
  {
    if a != 0 { XorSelf(a / 2); }
  }

  lemma {:induction false} XorZeroMeansEqual(a: nat, b: nat)
    requires Xor(a, b) == 0
    ensures a == b
  {
    if a != 0 && b != 0 { XorZeroMeansEqual(a / 2, b / 2); }
  }

  lemma {:induction false} XorCommutes(a: nat, b: nat)
    ensures Xor(a, b) == Xor(b, a)
    decreases a + b
  {
    if a != 0 && b != 0 { XorCommutes(a / 2, b / 2); }
  }

  /** Flipping bit `d` adds `2^d` when the bit is clear and subtracts it when set. */
  lemma {:induction false} FlipValue(a: nat, d: nat)
    ensures Xor(a, Pow2(d)) == if Bit(a, d) == 0 then a + Pow2(d) else a - Pow2(d)
  {
    if a == 0 {
      BitOfZero(d);
    } else if d > 0 {
      assert Pow2(d) % 2 == 0 && Pow2(d) / 2 == Pow2(d - 1);
      assert Bit(a, d) == Bit(a / 2, d - 1);
      FlipValue(a / 2, d - 1);
    }
  }

  /** Flipping bit `d` twice gives back the number. */
  lemma FlipTwice(a: nat, d: nat)
    ensures Xor(Xor(a, Pow2(d)), Pow2(d)) == a
  {
    FlipValue(a, d);
    var b := Xor(a, Pow2(d));
    FlipValue(b, d);
    FlipBitOf(a, d, d);
  }

  /** The bits of `a ^ 2^d`: bit `d` inverted, every other bit kept. */
  lemma FlipBitOf(a: nat, d: nat, i: nat)
    ensures Bit(Xor(a, Pow2(d)), i) == if i == d then 1 - Bit(a, i) else Bit(a, i)
  {
    BitOfXor(a, Pow2(d), i);
    BitOfPow2(d, i);
  }

  lemma FlipBelow(a: nat, d: nat, n: nat)
    requires a < Pow2(n) && d < n
    ensures Xor(a, Pow2(d)) < Pow2(n)
  {
    Pow2Below(d, n);
    XorBelow(a, Pow2(d), n);
  }

  lemma {:induction false} Pow2Below(d: nat, n: nat)
    requires d < n
    ensures Pow2(d) < Pow2(n)
  {
    if d < n - 1 { Pow2Below(d, n - 1); }
  }

  /** A power of two is the only kind of positive number with `x & (x - 1) == 0`. */
  lemma {:induction false} AndPredecessor(x: nat)
    requires x > 0
    ensures (And(x, x - 1) == 0) <==> IsPow2(x)
  {
    if x == 1 {
    } else if x % 2 == 1 {
      // x - 1 is even and shares every higher bit with x
      assert And(x, x - 1) == 2 * And(x / 2, (x - 1) / 2) + 0;
      assert (x - 1) / 2 == x / 2;
      AndSelf(x / 2);
    } else {
      assert (x - 1) / 2 == x / 2 - 1 && (x - 1) % 2 == 1;
      assert And(x, x - 1) == 2 * And(x / 2, x / 2 - 1);
      AndPredecessor(x / 2);
    }
  }

  lemma {:induction false} AndSelf(x: nat)
    ensures And(x, x) == x
  {
    if x != 0 { AndSelf(x / 2); }
  }

  /** A number has exactly one bit set exactly when it is a power of two. */
  lemma {:induction false} PopcountOne(x: nat)
    ensures (Popcount(x) == 1) <==> IsPow2(x)
  {
    if x > 1 {
      PopcountOne(x / 2);
      if x % 2 == 1 { PopcountZero(x / 2); }
    }
  }

  lemma {:induction false} PopcountZero(x: nat)
    ensures (Popcount(x) == 0) <==> x == 0
  {
    if x > 0 { PopcountZero(x / 2); }
  }

  lemma {:induction false} XorAssociates(a: nat, b: nat, c: nat)
    ensures Xor(Xor(a, b), c) == Xor(a, Xor(b, c))
    decreases a + b + c
  {
    if a + b + c > 0 {
      XorStep(a, b); XorStep(Xor(a, b), c);
      XorStep(b, c); XorStep(a, Xor(b, c));
      XorAssociates(a / 2, b / 2, c / 2);
    }
  }

  /** Flipping bit `d` of `m` flips it in `m ^ t` too. */
  lemma FlipInXor(m: nat, t: nat, d: nat)
    ensures Xor(Xor(m, Pow2(d)), t) == Xor(Xor(m, t), Pow2(d))
  {
    XorAssociates(m, Pow2(d), t);
    XorCommutes(Pow2(d), t);
    XorAssociates(m, t, Pow2(d));
  }

  /** Clearing a set bit lowers the population count by one. */
  lemma {:induction false} PopcountClear(x: nat, d: nat)
    requires Bit(x, d) == 1
    ensures x >= Pow2(d) && Popcount(x - Pow2(d)) + 1 == Popcount(x)
  {
    if d > 0 {
      PopcountClear(x / 2, d - 1);
      assert (x - Pow2(d)) / 2 == x / 2 - Pow2(d - 1) && (x - Pow2(d)) % 2 == x % 2;
    }
  }
}
