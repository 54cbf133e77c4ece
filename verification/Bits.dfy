/** Python's unbounded integers read as infinite two's-complement bit strings: `>> 1` is division by two
    rounding down, so a negative number has ones all the way up. Shifts, single flips and the number of
    differing low bits, by recursion on the lowest bit. */
module Bits {

  function Pow2(n: nat): (p: nat)
    ensures p > 0
  {
    if n == 0 then 1 else 2 * Pow2(n - 1)
  }

  predicate BitAt(v: int, i: nat)
    decreases i
  {
    if i == 0 then v % 2 == 1 else BitAt(v / 2, i - 1)
  }

  /** `v >> n` */
  function Shift(v: int, n: nat): int
    decreases n
  {
    if n == 0 then v else Shift(v / 2, n - 1)
  }

  /** `v ^ (1 << i)` */
  function Flip(v: int, i: nat): int
    decreases i
  {
    if i == 0 then (if v % 2 == 0 then v + 1 else v - 1)
    else 2 * Flip(v / 2, i - 1) + v % 2
  }

  /** How many of the low `n` bits of `a` and `b` differ. */
  function Distance(a: int, b: int, n: nat): nat
    decreases n
  {
    if n == 0 then 0
    else (if a % 2 != b % 2 then 1 else 0) + Distance(a / 2, b / 2, n - 1)
  }

  /** `Flip` really is the exclusive or with `1 << i`: it adds or takes away that power of two. */
  lemma {:induction false} FlipArithmetic(v: int, i: nat)
    ensures Flip(v, i) == if BitAt(v, i) then v - Pow2(i) else v + Pow2(i)
    decreases i
  {
    if i > 0 {
      FlipArithmetic(v / 2, i - 1);
    }
  }

  /** A flip inverts bit `i` and no other. */
  lemma {:induction false} BitAfterFlip(v: int, i: nat, j: nat)
    ensures BitAt(Flip(v, i), j) == if i == j then !BitAt(v, j) else BitAt(v, j)
    decreases i
  {
    if i > 0 && j > 0 {
      BitAfterFlip(v / 2, i - 1, j - 1);
    }
  }

  lemma {:induction false} ShiftAfterFlip(v: int, i: nat, n: nat)
    requires i < n
    ensures Shift(Flip(v, i), n) == Shift(v, n)
    decreases i
  {
    if i > 0 {
      ShiftAfterFlip(v / 2, i - 1, n - 1);
    } else {
      assert Flip(v, 0) / 2 == v / 2;
    }
  }

  lemma {:induction false} DistanceAfterFlip(a: int, b: int, i: nat, n: nat)
    requires i < n
    ensures Distance(a, Flip(b, i), n) == if BitAt(a, i) == BitAt(b, i) then Distance(a, b, n) + 1 else Distance(a, b, n) - 1
    decreases i
  {
    if i > 0 {
      DistanceAfterFlip(a / 2, b / 2, i - 1, n - 1);
    } else {
      assert Flip(b, 0) / 2 == b / 2;
    }
  }

  lemma {:induction false} DistanceSelf(a: int, n: nat)
    ensures Distance(a, a, n) == 0
    decreases n
  {
    if n > 0 {
      DistanceSelf(a / 2, n - 1);
    }
  }

  /** No differing low bit and equal high parts: the numbers are equal. */
  lemma {:induction false} DistanceZero(a: int, b: int, n: nat)
    requires Shift(a, n) == Shift(b, n) && Distance(a, b, n) == 0
    ensures a == b
    decreases n
  {
    if n > 0 {
      DistanceZero(a / 2, b / 2, n - 1);
    }
  }

  /** A positive distance is witnessed by a differing bit, the lowest one. */
  lemma {:induction false} LowestDifference(a: int, b: int, n: nat) returns (i: nat)
    requires Distance(a, b, n) > 0
    ensures i < n && BitAt(a, i) != BitAt(b, i)
    ensures forall k: nat :: k < i ==> BitAt(a, k) == BitAt(b, k)
    decreases n
  {
    if a % 2 != b % 2 {
      i := 0;
    } else {
      i := LowestDifference(a / 2, b / 2, n - 1);
      forall k: nat | k < i + 1 ensures BitAt(a, k) == BitAt(b, k) {
        if k > 0 {
          assert BitAt(a / 2, k - 1) == BitAt(b / 2, k - 1);
        }
      }
      i := i + 1;
    }
  }

  lemma {:induction false} DistanceSymmetric(a: int, b: int, n: nat)
    ensures Distance(a, b, n) == Distance(b, a, n)
    decreases n
  {
    if n > 0 {
      DistanceSymmetric(a / 2, b / 2, n - 1);
    }
  }

  lemma {:induction false} DistanceTriangle(a: int, b: int, c: int, n: nat)
    ensures Distance(a, c, n) <= Distance(a, b, n) + Distance(b, c, n)
    decreases n
  {
    if n > 0 {
      DistanceTriangle(a / 2, b / 2, c / 2, n - 1);
    }
  }

  lemma {:induction false} ShiftRange(v: int, n: nat)
    ensures Shift(v, n) * Pow2(n) <= v < (Shift(v, n) + 1) * Pow2(n)
    decreases n
  {
    if n > 0 {
      ShiftRange(v / 2, n - 1);
      Doubled(Shift(v, n), Pow2(n - 1));
      Doubled(Shift(v, n) + 1, Pow2(n - 1));
    }
  }

  lemma Doubled(s: int, p: int)
    ensures s * (2 * p) == 2 * (s * p)
  {
  }

  /** Adding a multiple of 2^n does not touch the low n bits. */
  lemma {:induction false} DistanceModulo(a: int, b: int, k: int, n: nat)
    ensures Distance(a + k * Pow2(n), b, n) == Distance(a, b, n)
    decreases n
  {
    if n > 0 {
      var p := Pow2(n - 1);
      assert k * Pow2(n) == 2 * (k * p);
      assert (a + k * Pow2(n)) / 2 == a / 2 + k * p;
      DistanceModulo(a / 2, b / 2, k, n - 1);
    }
  }

  // Values of exactly n bits, unsigned and signed.

  predicate Unsigned(v: int, n: nat) { 0 <= v < Pow2(n) }

  predicate Signed(v: int, n: nat)
    requires n > 0
  {
    -(Pow2(n - 1) as int) <= v < Pow2(n - 1)
  }

  lemma UnsignedShift(v: int, n: nat)
    ensures Unsigned(v, n) <==> Shift(v, n) == 0
  {
    ShiftRange(v, n);
    var s, p := Shift(v, n), Pow2(n);
    if s >= 1 {
      assert s * p >= p by { Scale(1, s, p); }
    } else if s <= -1 {
      assert (s + 1) * p <= 0 by { Scale(s + 1, 0, p); }
    }
  }

  lemma SignedShift(v: int, n: nat)
    requires n > 0
    ensures Signed(v, n) <==> Shift(v, n - 1) == 0 || Shift(v, n - 1) == -1
    ensures Signed(v, n) ==> (v < 0 <==> Shift(v, n - 1) == -1)
  {
    ShiftRange(v, n - 1);
    var s, p := Shift(v, n - 1), Pow2(n - 1);
    if s >= 1 {
      assert s * p >= p by { Scale(1, s, p); }
    } else if s <= -2 {
      assert (s + 1) * p <= -p by { Scale(s + 1, -1, p); }
    }
  }

  lemma Scale(a: int, b: int, p: nat)
    requires a <= b
    ensures a * p <= b * p
  {
    assert (b - a) * p >= 0;
  }
}
