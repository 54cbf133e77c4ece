/** The "within two bit flips" test of artbox_exemplar_backfill.py: instead of comparing every
    candidate with every exemplar, it enumerates the candidate's neighbours and looks each one up. */
module ArtboxCoverage {
  // The width is a parameter as in the source, whose callers all use its default of 64; what is
  // proved holds for every width.

  import opened Bits

  // ----- the neighbour generator -----

  function Singles(v: int, bits: nat, i: nat): seq<int>
    decreases bits - i
  {
    if i >= bits then [] else [Flip(v, i)] + Singles(v, bits, i + 1)
  }

  function PairRow(v: int, bits: nat, i: nat, j: nat): seq<int>
    decreases bits - j
  {
    if j >= bits then [] else [Flip(Flip(v, i), j)] + PairRow(v, bits, i, j + 1)
  }

  function PairRows(v: int, bits: nat, i: nat): seq<int>
    decreases bits - i
  {
    if i >= bits then [] else PairRow(v, bits, i, i + 1) + PairRows(v, bits, i + 1)
  }

  function Variants(v: int, bits: nat): seq<int> {
    [v] + Singles(v, bits, 0) + PairRows(v, bits, 0)
  }

  /** The generator itself, yielding into `out`. */
  method RadiusTwoVariants(value: int, bits: nat) returns (out: seq<int>)
    ensures out == Variants(value, bits)
  {
    out := [value];
    for i := 0 to bits
      invariant out + Singles(value, bits, i) == [value] + Singles(value, bits, 0)
    {
      Next(out, Flip(value, i), Singles(value, bits, i + 1));
      out := out + [Flip(value, i)];
    }
    assert out == [value] + Singles(value, bits, 0);
    for i := 0 to bits
      invariant out + PairRows(value, bits, i) == Variants(value, bits)
    {
      ghost var rest := PairRows(value, bits, i + 1);
      Regroup(out, PairRow(value, bits, i, i + 1), rest);
      for j := i + 1 to bits
        invariant out + (PairRow(value, bits, i, j) + rest) == Variants(value, bits)
      {
        var w := Flip(Flip(value, i), j);
        Next(out, w, PairRow(value, bits, i, j + 1));
        Regroup(out, PairRow(value, bits, i, j), rest);
        Regroup(out + [w], PairRow(value, bits, i, j + 1), rest);
        out := out + [w];
      }
      assert [] + rest == rest;
    }
    assert out + [] == out;
  }

  lemma Next(out: seq<int>, w: int, rest: seq<int>)
    ensures out + ([w] + rest) == (out + [w]) + rest
  {
  }

  lemma Regroup(a: seq<int>, b: seq<int>, c: seq<int>)
    ensures a + (b + c) == (a + b) + c
  {
  }

  lemma {:induction false} SinglesMembers(v: int, w: int, bits: nat, i: nat)
    ensures w in Singles(v, bits, i) <==> exists k: nat :: i <= k < bits && w == Flip(v, k)
    decreases bits - i
  {
    if i < bits {
      SinglesMembers(v, w, bits, i + 1);
      assert Singles(v, bits, i) == [Flip(v, i)] + Singles(v, bits, i + 1);
      assert w in Singles(v, bits, i) <==> w == Flip(v, i) || w in Singles(v, bits, i + 1);
      if w in Singles(v, bits, i) {
        var k: nat :| i <= k < bits && w == Flip(v, k);
      } else if k: nat :| i <= k < bits && w == Flip(v, k) {
        assert k == i || i + 1 <= k < bits;
      }
    }
  }

  /** `w` is `v` with bit `i` and one more flipped, that one at `j` or above. */
  ghost predicate RowFlipped(v: int, w: int, bits: nat, i: nat, j: nat) {
    exists k: nat :: j <= k < bits && w == Flip(Flip(v, i), k)
  }

  lemma {:induction false} PairRowMembers(v: int, w: int, bits: nat, i: nat, j: nat)
    ensures w in PairRow(v, bits, i, j) <==> RowFlipped(v, w, bits, i, j)
    decreases bits - j
  {
    if j < bits {
      PairRowMembers(v, w, bits, i, j + 1);
      RowStep(v, w, bits, i, j);
      assert PairRow(v, bits, i, j) == [Flip(Flip(v, i), j)] + PairRow(v, bits, i, j + 1);
      assert w in PairRow(v, bits, i, j) <==> w == Flip(Flip(v, i), j) || w in PairRow(v, bits, i, j + 1);
    }
  }

  lemma RowStep(v: int, w: int, bits: nat, i: nat, j: nat)
    requires j < bits
    ensures RowFlipped(v, w, bits, i, j) <==> w == Flip(Flip(v, i), j) || RowFlipped(v, w, bits, i, j + 1)
  {
    if RowFlipped(v, w, bits, i, j) && w != Flip(Flip(v, i), j) {
      var k: nat :| j <= k < bits && w == Flip(Flip(v, i), k);
      assert k != j;
    }
  }

  /** `w` is `v` with two bits flipped, the lower one at `i` or above. */
  ghost predicate TwoFlipped(v: int, w: int, bits: nat, i: nat) {
    exists k: nat, l: nat :: i <= k < l < bits && w == Flip(Flip(v, k), l)
  }

  lemma {:induction false} PairRowsMembers(v: int, w: int, bits: nat, i: nat)
    ensures w in PairRows(v, bits, i) <==> TwoFlipped(v, w, bits, i)
    decreases bits - i
  {
    if i < bits {
      PairRowsMembers(v, w, bits, i + 1);
      LowerOfTwo(v, w, bits, i);
      PairRowMembers(v, w, bits, i, i + 1);
      var row, rest := PairRow(v, bits, i, i + 1), PairRows(v, bits, i + 1);
      assert w in row + rest <==> w in row || w in rest;
    }
  }

  lemma LowerOfTwo(v: int, w: int, bits: nat, i: nat)
    requires i < bits
    ensures TwoFlipped(v, w, bits, i) <==> RowFlipped(v, w, bits, i, i + 1) || TwoFlipped(v, w, bits, i + 1)
  {
    if TwoFlipped(v, w, bits, i) {
      var k: nat, l: nat :| i <= k < l < bits && w == Flip(Flip(v, k), l);
      if k == i {
        assert w == Flip(Flip(v, i), l);
      } else {
        FlippedTwice(v, w, bits, i + 1, k, l);
      }
    }
    if RowFlipped(v, w, bits, i, i + 1) {
      var l: nat :| i + 1 <= l < bits && w == Flip(Flip(v, i), l);
      FlippedTwice(v, w, bits, i, i, l);
    }
    if TwoFlipped(v, w, bits, i + 1) {
      var k: nat, l: nat :| i + 1 <= k < l < bits && w == Flip(Flip(v, k), l);
      FlippedTwice(v, w, bits, i, k, l);
    }
  }

  lemma FlippedTwice(v: int, w: int, bits: nat, i: nat, k: nat, l: nat)
    requires i <= k < l < bits && w == Flip(Flip(v, k), l)
    ensures TwoFlipped(v, w, bits, i)
  {
  }

  lemma FlippedAway(v: int, bits: nat, k: nat, l: nat)
    requires k < bits && l < bits && k != l
    ensures Shift(Flip(v, k), bits) == Shift(v, bits) && Distance(v, Flip(v, k), bits) == 1
    ensures Shift(Flip(Flip(v, k), l), bits) == Shift(v, bits) && Distance(v, Flip(Flip(v, k), l), bits) == 2
  {
    ShiftAfterFlip(v, k, bits);
    ShiftAfterFlip(Flip(v, k), l, bits);
    DistanceSelf(v, bits);
    DistanceAfterFlip(v, v, k, bits);
    BitAfterFlip(v, k, l);
    DistanceAfterFlip(v, Flip(v, k), l, bits);
  }

  /** Two numbers that differ in one or two low bits are reached by flipping exactly those. */
  lemma FlipsFrom(v: int, w: int, bits: nat) returns (k: nat, l: nat)
    requires Shift(v, bits) == Shift(w, bits) && 1 <= Distance(v, w, bits) <= 2
    ensures k < bits
    ensures Distance(v, w, bits) == 1 ==> w == Flip(v, k)
    ensures Distance(v, w, bits) == 2 ==> k < l < bits && w == Flip(Flip(v, k), l)
  {
    k := LowestDifference(v, w, bits);
    var u := Flip(v, k);
    ShiftAfterFlip(v, k, bits);
    DistanceSymmetric(v, w, bits);
    DistanceAfterFlip(w, v, k, bits);
    if Distance(w, u, bits) == 0 {
      DistanceZero(w, u, bits);
      l := k;
    } else {
      DistanceSymmetric(u, w, bits);
      l := LowestDifference(u, w, bits);
      BitAfterFlip(v, k, l);
      assert l >= k by {
        assert forall m: nat :: m < k ==> BitAt(v, m) == BitAt(w, m);
        assert BitAt(u, l) != BitAt(w, l);
      }
      ShiftAfterFlip(u, l, bits);
      DistanceAfterFlip(w, u, l, bits);
      DistanceZero(w, Flip(u, l), bits);
    }
  }

  /** What the generator yields: exactly the numbers that agree above the low `bits` bits and
      differ in at most two of them. */
  lemma VariantsExact(v: int, w: int, bits: nat)
    ensures w in Variants(v, bits) <==> Shift(w, bits) == Shift(v, bits) && Distance(v, w, bits) <= 2
  {
    SinglesMembers(v, w, bits, 0);
    PairRowsMembers(v, w, bits, 0);
    DistanceSelf(v, bits);
    if w in Variants(v, bits) && w != v {
      if w in Singles(v, bits, 0) {
        var k: nat :| k < bits && w == Flip(v, k);
        ShiftAfterFlip(v, k, bits);
        DistanceAfterFlip(v, v, k, bits);
      } else {
        var k: nat, l: nat :| k < l < bits && w == Flip(Flip(v, k), l);
        FlippedAway(v, bits, k, l);
      }
    }
    if Shift(w, bits) == Shift(v, bits) && Distance(v, w, bits) <= 2 {
      if Distance(v, w, bits) == 0 {
        DistanceZero(v, w, bits);
      } else {
        var k, l := FlipsFrom(v, w, bits);
      }
    }
  }

  // ----- each neighbour once -----

  ghost predicate NoDuplicates(s: seq<int>) {
    forall a, b :: 0 <= a < b < |s| ==> s[a] != s[b]
  }

  lemma JoinDistinct(s: seq<int>, t: seq<int>)
    requires NoDuplicates(s) && NoDuplicates(t) && forall x :: x in s ==> x !in t
    ensures NoDuplicates(s + t)
  {
    forall a, b | 0 <= a < b < |s + t| ensures (s + t)[a] != (s + t)[b] {
      if a < |s| <= b {
        assert s[a] in s && t[b - |s|] in t;
      }
    }
  }

  lemma {:induction false} SinglesDistinct(v: int, bits: nat, i: nat)
    ensures NoDuplicates(Singles(v, bits, i)) && |Singles(v, bits, i)| == if i < bits then bits - i else 0
    decreases bits - i
  {
    if i < bits {
      SinglesDistinct(v, bits, i + 1);
      SinglesMembers(v, Flip(v, i), bits, i + 1);
      forall k: nat | i < k < bits ensures Flip(v, i) != Flip(v, k) {
        BitAfterFlip(v, i, i);
        BitAfterFlip(v, k, i);
      }
      JoinDistinct([Flip(v, i)], Singles(v, bits, i + 1));
    }
  }

  lemma {:induction false} PairRowDistinct(v: int, bits: nat, i: nat, j: nat)
    requires i < j
    ensures NoDuplicates(PairRow(v, bits, i, j)) && |PairRow(v, bits, i, j)| == if j < bits then bits - j else 0
    decreases bits - j
  {
    if j < bits {
      PairRowDistinct(v, bits, i, j + 1);
      var u := Flip(v, i);
      PairRowMembers(v, Flip(u, j), bits, i, j + 1);
      forall k: nat | j < k < bits ensures Flip(u, j) != Flip(u, k) {
        BitAfterFlip(u, j, j);
        BitAfterFlip(u, k, j);
      }
      JoinDistinct([Flip(u, j)], PairRow(v, bits, i, j + 1));
    }
  }

  lemma {:induction false} PairRowsDistinct(v: int, bits: nat, i: nat)
    ensures NoDuplicates(PairRows(v, bits, i))
    ensures i <= bits ==> 2 * |PairRows(v, bits, i)| == (bits - i) * (bits - i - 1)
    decreases bits - i
  {
    if i < bits {
      PairRowsDistinct(v, bits, i + 1);
      PairRowDistinct(v, bits, i, i + 1);
      var row, rest := PairRow(v, bits, i, i + 1), PairRows(v, bits, i + 1);
      forall x | x in row ensures x !in rest {
        BitInRow(v, x, bits, i);
        BitInRows(v, x, bits, i);
      }
      JoinDistinct(row, rest);
      Triangle(bits - i);
    }
  }

  lemma Triangle(m: int)
    ensures m * (m - 1) == 2 * (m - 1) + (m - 1) * (m - 2)
  {
  }

  /** The row of `i` flips bit i, and no later row does. */
  lemma BitInRow(v: int, x: int, bits: nat, i: nat)
    requires x in PairRow(v, bits, i, i + 1)
    ensures BitAt(x, i) != BitAt(v, i)
  {
    PairRowMembers(v, x, bits, i, i + 1);
    var k: nat :| i + 1 <= k < bits && x == Flip(Flip(v, i), k);
    BitAfterFlip(v, i, i);
    BitAfterFlip(Flip(v, i), k, i);
  }

  lemma BitInRows(v: int, x: int, bits: nat, i: nat)
    ensures x in PairRows(v, bits, i + 1) ==> BitAt(x, i) == BitAt(v, i)
  {
    if x in PairRows(v, bits, i + 1) {
      var k, l := FlippedPair(v, x, bits, i + 1);
      FlipsElsewhere(v, k, l, i);
    }
  }

  lemma FlippedPair(v: int, x: int, bits: nat, i: nat) returns (k: nat, l: nat)
    requires x in PairRows(v, bits, i)
    ensures i <= k < l < bits && x == Flip(Flip(v, k), l)
  {
    PairRowsMembers(v, x, bits, i);
    k, l :| i <= k < l < bits && x == Flip(Flip(v, k), l);
  }

  lemma FlipsElsewhere(v: int, k: nat, l: nat, i: nat)
    requires k != i && l != i
    ensures BitAt(Flip(Flip(v, k), l), i) == BitAt(v, i)
  {
    BitAfterFlip(v, k, i);
    BitAfterFlip(Flip(v, k), l, i);
  }

  lemma DistanceBySection(v: int, x: int, bits: nat)
    ensures x in Singles(v, bits, 0) ==> Distance(v, x, bits) == 1
    ensures x in PairRows(v, bits, 0) ==> Distance(v, x, bits) == 2
  {
    SinglesMembers(v, x, bits, 0);
    PairRowsMembers(v, x, bits, 0);
    if x in Singles(v, bits, 0) {
      var k: nat :| k < bits && x == Flip(v, k);
      DistanceSelf(v, bits);
      DistanceAfterFlip(v, v, k, bits);
    }
    if x in PairRows(v, bits, 0) {
      var k: nat, l: nat :| k < l < bits && x == Flip(Flip(v, k), l);
      FlippedAway(v, bits, k, l);
    }
  }

  /** 1 + bits + bits * (bits - 1) / 2 of them: 2,081 at the default width of 64. */
  lemma VariantsCount(v: int, bits: nat)
    ensures 2 * |Variants(v, bits)| == 2 + bits + bits * bits
  {
    SinglesDistinct(v, bits, 0);
    PairRowsDistinct(v, bits, 0);
    assert bits * (bits - 1) == bits * bits - bits;
  }

  /** Nothing is yielded twice. */
  lemma VariantsDistinct(v: int, bits: nat)
    ensures NoDuplicates(Variants(v, bits))
  {
    SinglesDistinct(v, bits, 0);
    PairRowsDistinct(v, bits, 0);
    var singles, pairs := Singles(v, bits, 0), PairRows(v, bits, 0);
    DistanceSelf(v, bits);
    DistanceBySection(v, v, bits);
    forall x | x in singles ensures x !in pairs { DistanceBySection(v, x, bits); }
    JoinDistinct([v], singles);
    JoinDistinct([v] + singles, pairs);
  }

  // ----- what the stored representation does to it -----

  /** utils.twos_complement: how a hash is held in a signed column. */
  function Stored(u: int, bits: nat): int
    requires bits > 0
  {
    if BitAt(u, bits - 1) then u - Pow2(bits) else u
  }

  lemma {:induction false} ShiftStep(v: int, n: nat)
    ensures Shift(v, n + 1) == Shift(v, n) / 2
    ensures BitAt(v, n) <==> Shift(v, n) % 2 == 1
    decreases n
  {
    if n > 0 {
      ShiftStep(v / 2, n - 1);
    }
  }

  lemma SignOfStored(u: int, bits: nat)
    requires bits > 0
    requires Unsigned(u, bits)
    ensures Signed(Stored(u, bits), bits)
    ensures Stored(u, bits) < 0 <==> BitAt(u, bits - 1)
    ensures Stored(u, bits) == u || Stored(u, bits) == u - Pow2(bits)
  {
    UnsignedShift(u, bits);
    ShiftStep(u, bits - 1);
    ShiftRange(u, bits - 1);
    assert Pow2(bits) == 2 * Pow2(bits - 1);
    var s := Shift(u, bits - 1);
    assert s == 0 || s == 1;
  }

  lemma StoredDistance(u: int, w: int, bits: nat)
    requires bits > 0
    ensures Distance(Stored(u, bits), Stored(w, bits), bits) == Distance(u, w, bits)
  {
    var n := bits;
    DistanceModulo(u, Stored(w, bits), -1, n);
    DistanceSymmetric(u, Stored(w, bits), n);
    DistanceModulo(w, u, -1, n);
    DistanceSymmetric(w, u, n);
    DistanceSymmetric(Stored(u, bits), Stored(w, bits), n);
  }

  /** Hashes held as unsigned numbers: membership is exactly "at most two bits apart". */
  lemma UnsignedMembership(candidate: int, exemplar: int, bits: nat)
    requires Unsigned(candidate, bits)
    ensures exemplar in Variants(candidate, bits)
            <==> Unsigned(exemplar, bits) && Distance(candidate, exemplar, bits) <= 2
  {
    VariantsExact(candidate, exemplar, bits);
    UnsignedShift(candidate, bits);
    UnsignedShift(exemplar, bits);
  }

  /** Hashes held signed, as the column holds them: flipping the top bit leaves the signed range, so an
      exemplar is met if and only if it is at most two bits away and has the same sign. */
  lemma SignedMembership(candidate: int, exemplar: int, bits: nat)
    requires bits > 0
    requires Signed(candidate, bits) && Signed(exemplar, bits)
    ensures exemplar in Variants(candidate, bits)
            <==> Distance(candidate, exemplar, bits) <= 2 && (candidate < 0 <==> exemplar < 0)
  {
    VariantsExact(candidate, exemplar, bits);
    SignedShift(candidate, bits);
    SignedShift(exemplar, bits);
    ShiftStep(candidate, bits - 1);
    ShiftStep(exemplar, bits - 1);
  }

  /** The same in terms of the hashes themselves: the test is exact on pairs that agree in
      the top bit and blind to every other pair. */
  lemma StoredMembership(candidate: int, exemplar: int, bits: nat)
    requires bits > 0
    requires Unsigned(candidate, bits) && Unsigned(exemplar, bits)
    ensures Stored(exemplar, bits) in Variants(Stored(candidate, bits), bits)
            <==> Distance(candidate, exemplar, bits) <= 2
                 && BitAt(candidate, bits - 1) == BitAt(exemplar, bits - 1)
  {
    SignOfStored(candidate, bits);
    SignOfStored(exemplar, bits);
    StoredDistance(candidate, exemplar, bits);
    SignedMembership(Stored(candidate, bits), Stored(exemplar, bits), bits);
  }

  /** Every hash has a neighbour one bit away that the measurement misses. */
  lemma TopBitNeighbourMissed(candidate: int, bits: nat)
    requires bits > 0
    requires Unsigned(candidate, bits)
    ensures var near := Flip(candidate, bits - 1);
            && Unsigned(near, bits) && Distance(candidate, near, bits) == 1
            && Stored(near, bits) !in Variants(Stored(candidate, bits), bits)
  {
    var near := Flip(candidate, bits - 1);
    UnsignedShift(candidate, bits);
    ShiftAfterFlip(candidate, bits - 1, bits);
    UnsignedShift(near, bits);
    DistanceSelf(candidate, bits);
    DistanceAfterFlip(candidate, candidate, bits - 1, bits);
    BitAfterFlip(candidate, bits - 1, bits - 1);
    StoredMembership(candidate, near, bits);
  }

  // ----- the coverage counts -----

  datatype Coverage = Coverage(considered: nat, atDistance0: nat, atDistanceLe2: nat)

  function CountIf(s: seq<int>, p: int -> bool): nat {
    if s == [] then 0 else (if p(s[0]) then 1 else 0) + CountIf(s[1..], p)
  }

  function MeasureUnresolvedCoverage(exemplarHashes: seq<int>, candidateHashes: seq<int>, bits: nat): Coverage {
    var exemplars := set e | e in exemplarHashes;
    Coverage(|candidateHashes|,
             CountIf(candidateHashes, c => c in exemplars),
             CountIf(candidateHashes, c => exists w | w in Variants(c, bits) :: w in exemplars))
  }

  /** The brute-force question the enumeration stands in for. */
  predicate Near(c: int, exemplarHashes: seq<int>, bits: nat) {
    exists e | e in exemplarHashes :: Distance(c, e, bits) <= 2
  }

  /** The brute-force form of the other count. */
  predicate Identical(c: int, exemplarHashes: seq<int>, bits: nat) {
    exists e | e in exemplarHashes :: Distance(c, e, bits) == 0
  }

  predicate NearWithSameSign(c: int, exemplarHashes: seq<int>, bits: nat) {
    exists e | e in exemplarHashes :: Distance(c, e, bits) <= 2 && (c < 0 <==> e < 0)
  }

  lemma {:induction false} CountMonotone(s: seq<int>, p: int -> bool, q: int -> bool)
    requires forall c :: c in s && p(c) ==> q(c)
    ensures CountIf(s, p) <= CountIf(s, q) <= |s|
    ensures CountIf(s, p) == CountIf(s, q) <==> forall c :: c in s && q(c) ==> p(c)
  {
    if s != [] {
      CountMonotone(s[1..], p, q);
      assert forall c :: c in s <==> c == s[0] || c in s[1..];
    }
  }

  /** Two hashes without a differing bit are the same number, in either representation. */
  lemma ZeroMeansEqual(a: int, b: int, bits: nat)
    requires (Unsigned(a, bits) && Unsigned(b, bits)) || (bits > 0 && Signed(a, bits) && Signed(b, bits))
    ensures Distance(a, b, bits) == 0 <==> a == b
  {
    DistanceSelf(a, bits);
    if Distance(a, b, bits) == 0 {
      if Unsigned(a, bits) && Unsigned(b, bits) {
        UnsignedShift(a, bits);
        UnsignedShift(b, bits);
      } else {
        SameSign(a, b, bits);
      }
      DistanceZero(a, b, bits);
    }
  }

  lemma SameSign(a: int, b: int, bits: nat)
    requires bits > 0 && Signed(a, bits) && Signed(b, bits) && Distance(a, b, bits) == 0
    ensures Shift(a, bits) == Shift(b, bits)
  {
    DistanceByShift(a, b, bits - 1);
    SignedShift(a, bits);
    SignedShift(b, bits);
    ShiftStep(a, bits - 1);
    ShiftStep(b, bits - 1);
  }

  /** The top bit's share of the distance. */
  lemma {:induction false} DistanceByShift(a: int, b: int, n: nat)
    ensures Distance(a, b, n + 1) == Distance(a, b, n) + if Shift(a, n) % 2 != Shift(b, n) % 2 then 1 else 0
    decreases n
  {
    if n > 0 {
      DistanceByShift(a / 2, b / 2, n - 1);
    }
  }

  lemma IdenticalExact(c: int, exemplarHashes: seq<int>, bits: nat)
    requires forall e :: e in exemplarHashes ==> (Unsigned(c, bits) && Unsigned(e, bits)) || (bits > 0 && Signed(c, bits) && Signed(e, bits))
    ensures Identical(c, exemplarHashes, bits) <==> c in exemplarHashes
  {
    forall e | e in exemplarHashes ensures Distance(c, e, bits) == 0 <==> c == e { ZeroMeansEqual(c, e, bits); }
  }

  /** A candidate is counted at distance 0 exactly if no bit tells it from some exemplar. */
  lemma ExactMatchesCounted(exemplarHashes: seq<int>, candidateHashes: seq<int>, bits: nat)
    requires forall c, e :: c in candidateHashes && e in exemplarHashes ==>
        (Unsigned(c, bits) && Unsigned(e, bits)) || (bits > 0 && Signed(c, bits) && Signed(e, bits))
    ensures MeasureUnresolvedCoverage(exemplarHashes, candidateHashes, bits).atDistance0
            == CountIf(candidateHashes, c => Identical(c, exemplarHashes, bits))
  {
    var exemplars := set e | e in exemplarHashes;
    var fast := (c: int) => c in exemplars;
    var brute := (c: int) => Identical(c, exemplarHashes, bits);
    forall c | c in candidateHashes ensures fast(c) == brute(c) { IdenticalExact(c, exemplarHashes, bits); }
    CountMonotone(candidateHashes, fast, brute);
  }

  /** Unsigned hashes: the fast count is the brute-force count over all pairs. */
  lemma UnsignedCoverageExact(exemplarHashes: seq<int>, candidateHashes: seq<int>, bits: nat)
    requires forall h :: h in exemplarHashes || h in candidateHashes ==> Unsigned(h, bits)
    ensures var r := MeasureUnresolvedCoverage(exemplarHashes, candidateHashes, bits);
            && r.atDistanceLe2 == CountIf(candidateHashes, c => Near(c, exemplarHashes, bits))
            && r.atDistance0 <= r.atDistanceLe2 <= r.considered
  {
    var exemplars := set e | e in exemplarHashes;
    var fast := (c: int) => exists w | w in Variants(c, bits) :: w in exemplars;
    var brute := (c: int) => Near(c, exemplarHashes, bits);
    forall c | c in candidateHashes ensures fast(c) == brute(c) {
      forall e ensures Unsigned(c, bits) && Unsigned(e, bits) ==>
          (e in Variants(c, bits) <==> Distance(c, e, bits) <= 2) {
        if Unsigned(c, bits) { UnsignedMembership(c, e, bits); }
      }
    }
    CountMonotone(candidateHashes, fast, brute);
    forall c | c in candidateHashes && c in exemplars ensures fast(c) { assert c == Variants(c, bits)[0]; }
    CountMonotone(candidateHashes, c => c in exemplars, fast);
  }

  /** Stored hashes: the fast count is the same-sign count; it never exceeds the brute-force count,
      and equals it exactly when no candidate's near exemplars all have the other sign. */
  lemma StoredCoverageExact(exemplarHashes: seq<int>, candidateHashes: seq<int>, bits: nat)
    requires bits > 0
    requires forall h :: h in exemplarHashes || h in candidateHashes ==> Signed(h, bits)
    ensures var r := MeasureUnresolvedCoverage(exemplarHashes, candidateHashes, bits);
            && r.atDistanceLe2 == CountIf(candidateHashes, c => NearWithSameSign(c, exemplarHashes, bits))
            && r.atDistance0 <= r.atDistanceLe2 <= CountIf(candidateHashes, c => Near(c, exemplarHashes, bits)) <= r.considered
            && (r.atDistanceLe2 == CountIf(candidateHashes, c => Near(c, exemplarHashes, bits))
                <==> forall c :: c in candidateHashes && Near(c, exemplarHashes, bits) ==> NearWithSameSign(c, exemplarHashes, bits))
  {
    var exemplars := set e | e in exemplarHashes;
    var fast := (c: int) => exists w | w in Variants(c, bits) :: w in exemplars;
    var same := (c: int) => NearWithSameSign(c, exemplarHashes, bits);
    var brute := (c: int) => Near(c, exemplarHashes, bits);
    forall c | c in candidateHashes ensures fast(c) == same(c) {
      forall e | e in exemplarHashes
        ensures e in Variants(c, bits) <==> Distance(c, e, bits) <= 2 && (c < 0 <==> e < 0) {
        SignedMembership(c, e, bits);
      }
    }
    CountMonotone(candidateHashes, fast, same);
    CountMonotone(candidateHashes, same, brute);
    forall c | c in candidateHashes && c in exemplars ensures fast(c) { assert c == Variants(c, bits)[0]; }
    CountMonotone(candidateHashes, c => c in exemplars, fast);
  }
}
