/** The distance of two hash texts, read off their digits (federation-hash-tool/hash_my_cards.py). */
module HexText {
  import opened Wrappers
  import opened Bits
  import opened FederationHash

  const DIGITS: string := "0123456789abcdef"
  const CAPITALS: string := "0123456789ABCDEF"

  /** The value of a digit is its place among the digits, in small letters or in capitals. */
  predicate IsDigit(c: char, d: nat) { d < 16 && (c == DIGITS[d] || c == CAPITALS[d]) }

  /** `ds` are the digits of the text. */
  predicate Digits(text: string, ds: seq<nat>) { |ds| == |text| && forall i :: 0 <= i < |text| ==> IsDigit(text[i], ds[i]) }

  ghost predicate IsHex(text: string) { text != "" && exists ds :: Digits(text, ds) }

  lemma DigitPlaces()
    ensures forall d :: 0 <= d < 10 ==> DIGITS[d] as int == 48 + d && CAPITALS[d] as int == 48 + d
    ensures forall d :: 10 <= d < 16 ==> DIGITS[d] as int == 87 + d && CAPITALS[d] as int == 55 + d
  {
  }

  lemma DigitExact(c: char, d: nat)
    ensures HexDigit(c) == Some(d) <==> IsDigit(c, d)
    ensures HexDigit(c).Some? ==> HexDigit(c).value < 16
  {
    DigitPlaces();
  }

  /** The value of a text, with nothing for the empty one. */
  function ValueOf(text: string): nat { if ParseHex(text).Some? then ParseHex(text).value else 0 }

  predicate Parses(text: string) { text == "" || ParseHex(text).Some? }

  lemma LastDigit(text: string)
    requires text != ""
    ensures var front, last := text[..|text| - 1], text[|text| - 1];
            && (ParseHex(text).Some? <==> Parses(front) && HexDigit(last).Some?)
            && (ParseHex(text).Some? ==> ValueOf(text) == 16 * ValueOf(front) + HexDigit(last).value)
  {
  }

  lemma {:induction false} ParsedDigits(text: string) returns (ds: seq<nat>)
    requires Parses(text)
    ensures Digits(text, ds)
  {
    ds := [];
    if text != "" {
      var front, last := text[..|text| - 1], text[|text| - 1];
      LastDigit(text);
      var d := HexDigit(last).value;
      DigitExact(last, d);
      var before := ParsedDigits(front);
      ds := before + [d];
      assert text == front + [last];
    }
  }

  lemma {:induction false} DigitsParse(text: string, ds: seq<nat>)
    requires Digits(text, ds)
    ensures Parses(text)
  {
    if text != "" {
      LastDigit(text);
      DigitExact(text[|text| - 1], ds[|text| - 1]);
      DigitsParse(text[..|text| - 1], ds[..|text| - 1]);
    }
  }

  /** A text parses exactly if it is not empty and has a digit at every place. */
  lemma ParsesIffHex(text: string)
    ensures ParseHex(text).Some? <==> IsHex(text)
  {
    if ParseHex(text).Some? {
      var ds := ParsedDigits(text);
    }
    if IsHex(text) {
      var ds :| Digits(text, ds);
      DigitsParse(text, ds);
    }
  }

  // ----- a digit below the rest -----

  /** `x` moved up by `m` places, with the low `m` bits of `d` below it. */
  function Put(x: nat, d: nat, m: nat): nat
    decreases m
  {
    if m == 0 then x else 2 * Put(x, d / 2, m - 1) + d % 2
  }

  lemma {:induction false} PutExact(x: nat, d: nat, m: nat)
    requires d < Pow2(m)
    ensures Put(x, d, m) == Pow2(m) * x + d
    decreases m
  {
    if m > 0 {
      PutExact(x, d / 2, m - 1);
      Doubled(x, Pow2(m - 1));
    }
  }

  lemma PutSixteen(x: nat, d: nat)
    requires d < 16
    ensures Put(x, d, 4) == 16 * x + d
  {
    assert Pow2(1) == 2 && Pow2(2) == 4 && Pow2(3) == 8 && Pow2(4) == 16;
    PutExact(x, d, 4);
  }

  lemma {:induction false} PutBit(x: nat, d: nat, m: nat, i: nat)
    ensures BitAt(Put(x, d, m), i) <==> if i < m then BitAt(d, i) else BitAt(x, i - m)
    decreases m
  {
    if m > 0 && i > 0 {
      PutBit(x, d / 2, m - 1, i - 1);
    }
  }

  lemma {:induction false} PutShift(x: nat, d: nat, m: nat, n: nat)
    ensures Shift(Put(x, d, m), n + m) == Shift(x, n)
    decreases m
  {
    if m > 0 {
      PutShift(x, d / 2, m - 1, n);
      assert Put(x, d, m) / 2 == Put(x, d / 2, m - 1);
    }
  }

  lemma {:induction false} PutDistance(x: nat, d: nat, y: nat, e: nat, m: nat, n: nat)
    ensures Distance(Put(x, d, m), Put(y, e, m), n + m) == Distance(x, y, n) + Distance(d, e, m)
    decreases m
  {
    if m > 0 {
      PutDistance(x, d / 2, y, e / 2, m - 1, n);
    }
  }

  // ----- base sixteen -----

  lemma DigitBelow(text: string, ds: seq<nat>)
    requires Digits(text, ds) && text != ""
    ensures var n := |text| - 1; Digits(text[..n], ds[..n]) && ValueOf(text) == Put(ValueOf(text[..n]), ds[n], 4)
  {
    var n := |text| - 1;
    DigitsParse(text, ds);
    LastDigit(text);
    DigitExact(text[n], ds[n]);
    PutSixteen(ValueOf(text[..n]), ds[n]);
  }

  lemma BitsOfLast(text: string, ds: seq<nat>, j: nat)
    requires Digits(text, ds) && text != "" && j < 4
    ensures BitAt(ValueOf(text), j) <==> BitAt(ds[|text| - 1], j)
  {
    DigitBelow(text, ds);
    PutBit(ValueOf(text[..|text| - 1]), ds[|text| - 1], 4, j);
  }

  lemma BitsAbove(text: string, ds: seq<nat>, i: nat)
    requires Digits(text, ds) && text != ""
    ensures BitAt(ValueOf(text), i + 4) <==> BitAt(ValueOf(text[..|text| - 1]), i)
  {
    DigitBelow(text, ds);
    PutBit(ValueOf(text[..|text| - 1]), ds[|text| - 1], 4, i + 4);
  }

  lemma PrefixBits(text: string, ds: seq<nat>, m: nat, i: nat)
    requires Digits(text, ds) && 0 < m <= |text|
    ensures i < 4 ==> (BitAt(ValueOf(text[..m]), i) <==> BitAt(ds[m - 1], i))
    ensures BitAt(ValueOf(text[..m]), i + 4) <==> BitAt(ValueOf(text[..m - 1]), i)
  {
    assert text[..m][..m - 1] == text[..m - 1];
    if i < 4 {
      BitsOfLast(text[..m], ds[..m], i);
    }
    BitsAbove(text[..m], ds[..m], i);
  }

  lemma {:induction false} BitsOfPrefix(text: string, ds: seq<nat>, m: nat, k: nat, j: nat)
    requires Digits(text, ds) && k < m <= |text| && j < 4
    ensures BitAt(ValueOf(text[..m]), 4 * k + j) <==> BitAt(ds[m - 1 - k], j)
    decreases k
  {
    var i: nat := 4 * k + j;
    if k == 0 {
      PrefixBits(text, ds, m, i);
    } else {
      PrefixBits(text, ds, m, i - 4);
      BitsOfPrefix(text, ds, m - 1, k - 1, j);
      assert i - 4 == 4 * (k - 1) + j;
    }
  }

  /** A text is read in base sixteen, its last digit the lowest: bit 4k + j of the value is bit j of the k-th
      digit from the right. */
  lemma ValueBits(text: string, ds: seq<nat>, k: nat, j: nat)
    requires Digits(text, ds) && k < |text| && j < 4
    ensures BitAt(ValueOf(text), 4 * k + j) <==> BitAt(ds[|text| - 1 - k], j)
  {
    BitsOfPrefix(text, ds, |text|, k, j);
    assert text[..|text|] == text;
  }

  /** And no bit of it lies beyond the text. */
  lemma {:induction false} ValueFitsText(text: string)
    requires Parses(text)
    ensures Shift(ValueOf(text), 4 * |text|) == 0
  {
    if text != "" {
      var n := |text| - 1;
      LastDigit(text);
      var d := HexDigit(text[n]).value;
      DigitExact(text[n], d);
      ValueFitsText(text[..n]);
      PutSixteen(ValueOf(text[..n]), d);
      PutShift(ValueOf(text[..n]), d, 4, 4 * n);
    }
  }

  // ----- distance, digit by digit -----

  /** In how many bits the digits differ, place by place. */
  function DigitDistance(x: seq<nat>, y: seq<nat>): nat
    requires |x| == |y|
  {
    if x == [] then 0 else DigitDistance(x[..|x| - 1], y[..|y| - 1]) + Distance(x[|x| - 1], y[|y| - 1], 4)
  }

  lemma {:induction false} DigitsAddUp(a: string, b: string, x: seq<nat>, y: seq<nat>)
    requires |a| == |b| && Digits(a, x) && Digits(b, y)
    ensures Distance(ValueOf(a), ValueOf(b), 4 * |a|) == DigitDistance(x, y)
    decreases |a|
  {
    if a != "" {
      var n := |a| - 1;
      DigitBelow(a, x);
      DigitBelow(b, y);
      DigitsAddUp(a[..n], b[..n], x[..n], y[..n]);
      OneMoreDigit(ValueOf(a), ValueOf(a[..n]), x, ValueOf(b), ValueOf(b[..n]), y);
    }
  }

  lemma OneMoreDigit(v: nat, v0: nat, x: seq<nat>, w: nat, w0: nat, y: seq<nat>)
    requires |x| == |y| > 0
    requires var n := |x| - 1;
             && v == Put(v0, x[n], 4) && w == Put(w0, y[n], 4)
             && Distance(v0, w0, 4 * n) == DigitDistance(x[..n], y[..n])
    ensures Distance(v, w, 4 * |x|) == DigitDistance(x, y)
  {
    var n := |x| - 1;
    PutDistance(v0, x[n], w0, y[n], 4, 4 * n);
    assert 4 * n + 4 == 4 * |x|;
  }

  /** Two texts have a distance exactly if both are hexadecimal. */
  lemma DistanceIffHex(a: string, b: string)
    ensures TextDistance(a, b).Some? <==> IsHex(a) && IsHex(b)
  {
    ParsesIffHex(a);
    ParsesIffHex(b);
  }

  /** Texts of one length are as far apart as their digits are. */
  lemma DistanceOfDigits(a: string, b: string, x: seq<nat>, y: seq<nat>)
    requires |a| == |b| > 0 && Digits(a, x) && Digits(b, y)
    ensures TextDistance(a, b) == Some(DigitDistance(x, y))
  {
    DigitsParse(a, x);
    DigitsParse(b, y);
    ValueFitsText(a);
    ValueFitsText(b);
    HammingIsBitDistance(ValueOf(a), ValueOf(b), 4 * |a|);
    DigitsAddUp(a, b, x, y);
  }

  predicate NoCapitals(text: string) { forall i :: 0 <= i < |text| ==> !('A' <= text[i] <= 'F') }

  lemma SmallDigit(c: char, d: nat, e: char)
    requires IsDigit(c, d) && IsDigit(e, d) && !('A' <= c <= 'F') && !('A' <= e <= 'F')
    ensures c == e
  {
    DigitPlaces();
  }

  lemma {:induction false} SameValue(a: string, b: string)
    requires |a| == |b| && Parses(a) && Parses(b) && NoCapitals(a) && NoCapitals(b) && ValueOf(a) == ValueOf(b)
    ensures a == b
    decreases |a|
  {
    if a != "" {
      var n := |a| - 1;
      LastDigit(a);
      LastDigit(b);
      var d, e := HexDigit(a[n]).value, HexDigit(b[n]).value;
      DigitExact(a[n], d);
      DigitExact(b[n], e);
      OneWay(ValueOf(a[..n]), d, ValueOf(b[..n]), e);
      SmallDigit(a[n], d, b[n]);
      SameValue(a[..n], b[..n]);
      Rejoin(a, b);
    }
  }

  lemma OneWay(x: nat, d: nat, y: nat, e: nat)
    requires 16 * x + d == 16 * y + e && d < 16 && e < 16
    ensures x == y && d == e
  {
  }

  lemma Rejoin(a: string, b: string)
    requires |a| == |b| > 0 && a[..|a| - 1] == b[..|b| - 1] && a[|a| - 1] == b[|b| - 1]
    ensures a == b
  {
    assert a == a[..|a| - 1] + [a[|a| - 1]] && b == b[..|b| - 1] + [b[|b| - 1]];
  }

  /** Texts of one length in small letters are at distance zero exactly if they are equal. */
  lemma ZeroIffEqual(a: string, b: string)
    requires |a| == |b| && IsHex(a) && IsHex(b) && NoCapitals(a) && NoCapitals(b)
    ensures TextDistance(a, b) == Some(0) <==> a == b
  {
    ParsesIffHex(a);
    ParsesIffHex(b);
    HammingIsMetric(ValueOf(a), ValueOf(b), 0);
    if ValueOf(a) == ValueOf(b) {
      SameValue(a, b);
    }
  }

  // ----- the match list -----

  ghost predicate Comparable(localHash: string, r: Record) { Hashed(r) ==> IsHex(localHash) && IsHex(r.contentPhash.value) }

  /** The digits of the local hash and of a hashed record, where there are as many of each. */
  predicate SideBySide(localHash: string, r: Record, x: seq<nat>, y: seq<nat>) {
    Hashed(r) && Digits(localHash, x) && Digits(r.contentPhash.value, y) && |x| == |y|
  }

  /** The search raises exactly if there is a hashed record to compare with and one of the texts is not
      hexadecimal; otherwise a record whose hash is as long as the local one is listed exactly if their
      digits differ in no more bits than the threshold, and that many is its distance. */
  lemma MatchesByDigits(localHash: string, records: seq<Record>, threshold: int)
    ensures Nearest(localHash, records, threshold).Some? <==> forall r :: r in records ==> Comparable(localHash, r)
    ensures Nearest(localHash, records, threshold).Some? ==>
              forall r, d: nat, x, y :: SideBySide(localHash, r, x, y) ==>
                (Match(r, d) in Nearest(localHash, records, threshold).value <==> r in records && d == DigitDistance(x, y) && d <= threshold)
  {
    NearestExact(localHash, records, threshold);
    forall r | r in records ensures Readable(localHash, r) <==> Comparable(localHash, r) {
      if Hashed(r) { DistanceIffHex(localHash, r.contentPhash.value); }
    }
    forall r, x, y | SideBySide(localHash, r, x, y) ensures TextDistance(localHash, r.contentPhash.value) == Some(DigitDistance(x, y)) {
      DistanceOfDigits(localHash, r.contentPhash.value, x, y);
    }
  }
}
