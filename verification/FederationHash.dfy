/** Distances and nearest-match search of federation-hash-tool/hash_my_cards.py. */
module FederationHash {
  import opened Wrappers
  import opened Bits
  import opened Sorting

  // ----- int(text, 16) and the bit count -----

  function HexDigit(c: char): Option<nat> {
    if '0' <= c <= '9' then Some((c - '0') as nat)
    else if 'a' <= c <= 'f' then Some(10 + (c - 'a') as nat)
    else if 'A' <= c <= 'F' then Some(10 + (c - 'A') as nat)
    else None
  }

  /** None stands for the ValueError of a malformed text, the empty one included. */
  function ParseHex(text: string): Option<nat> {
    if text == [] then None
    else
      var last := HexDigit(text[|text| - 1]);
      if last.None? then None
      else if |text| == 1 then last
      else
        var front := ParseHex(text[..|text| - 1]);
        if front.None? then None else Some(16 * front.value + last.value)
  }

  function Xor(a: nat, b: nat): nat
    decreases a + b
  {
    if a == 0 && b == 0 then 0
    else (if a % 2 != b % 2 then 1 else 0) + 2 * Xor(a / 2, b / 2)
  }

  /** `bin(v).count("1")` */
  function PopCount(v: nat): nat {
    if v == 0 then 0 else v % 2 + PopCount(v / 2)
  }

  function HammingDistance(x: nat, y: nat): nat { PopCount(Xor(x, y)) }

  /** The text-level distance counts differing bits, so it is the distance of the stored hashes. */
  lemma {:induction false} HammingIsBitDistance(x: nat, y: nat, n: nat)
    requires Shift(x, n) == 0 && Shift(y, n) == 0
    ensures HammingDistance(x, y) == Distance(x, y, n)
    decreases n
  {
    if n > 0 {
      HammingIsBitDistance(x / 2, y / 2, n - 1);
      if x > 0 || y > 0 {
        var rest := Xor(x / 2, y / 2);
        assert Xor(x, y) / 2 == rest && Xor(x, y) % 2 == if x % 2 != y % 2 then 1 else 0;
      } else {
        assert x / 2 == 0 && y / 2 == 0;
      }
    }
  }

  lemma {:induction false} ShiftVanishes(v: nat, n: nat)
    requires v <= n
    ensures Shift(v, n) == 0
    decreases n
  {
    if n > 0 {
      ShiftVanishes(v / 2, n - 1);
    }
  }

  /** The distance is a metric on hash values. */
  lemma HammingIsMetric(x: nat, y: nat, z: nat)
    ensures HammingDistance(x, y) == 0 <==> x == y
    ensures HammingDistance(x, y) == HammingDistance(y, x)
    ensures HammingDistance(x, z) <= HammingDistance(x, y) + HammingDistance(y, z)
  {
    var n := x + y + z;
    ShiftVanishes(x, n);
    ShiftVanishes(y, n);
    ShiftVanishes(z, n);
    HammingIsBitDistance(x, y, n);
    HammingIsBitDistance(y, x, n);
    HammingIsBitDistance(y, z, n);
    HammingIsBitDistance(x, z, n);
    DistanceSymmetric(x, y, n);
    DistanceTriangle(x, y, z, n);
    if x == y {
      DistanceSelf(x, n);
    } else if Distance(x, y, n) == 0 {
      DistanceZero(x, y, n);
    }
  }

  // ----- matching -----

  datatype Record = Record(contentPhash: Option<string>, payload: string)
  datatype Match = Match(record: Record, distance: nat)
  datatype BadHash = BadHash

  predicate Hashed(r: Record) { r.contentPhash.Some? && r.contentPhash.value != "" }

  /** hamming_distance as the source has it: on texts, raising on a malformed one. */
  function TextDistance(a: string, b: string): Option<nat> {
    var x, y := ParseHex(a), ParseHex(b);
    if x.None? || y.None? then None else Some(HammingDistance(x.value, y.value))
  }

  /** The records within the threshold in export order, or None when a distance raises. */
  function Within(localHash: string, records: seq<Record>, threshold: int): Option<seq<Match>> {
    if records == [] then Some([])
    else
      var before := Within(localHash, records[..|records| - 1], threshold);
      var r := records[|records| - 1];
      if before.None? || !Hashed(r) then before
      else
        var d := TextDistance(localHash, r.contentPhash.value);
        if d.None? then None
        else Some(before.value + if d.value <= threshold then [Match(r, d.value)] else [])
  }

  function Nearest(localHash: string, records: seq<Record>, threshold: int): Option<seq<Match>> {
    var within := Within(localHash, records, threshold);
    if within.None? then None else Some(Sort(within.value, (a: Match, b: Match) => a.distance <= b.distance))
  }

  method FindMatches(localHashes: map<string, string>, records: seq<Record>, threshold: int)
    returns (r: Result<map<string, seq<Match>>, BadHash>)
    ensures r.Raised? <==> exists f :: f in localHashes && Nearest(localHashes[f], records, threshold).None?
    ensures r.Ok? ==> r.value.Keys == localHashes.Keys
    ensures r.Ok? ==> forall f :: f in localHashes ==> Nearest(localHashes[f], records, threshold) == Some(r.value[f])
  {
    var matches: map<string, seq<Match>> := map[];
    var todo := localHashes.Keys;
    while todo != {}
      invariant todo <= localHashes.Keys && matches.Keys == localHashes.Keys - todo
      invariant forall f :: f in matches ==> Nearest(localHashes[f], records, threshold) == Some(matches[f])
    {
      var filename :| filename in todo;
      var localHash := localHashes[filename];
      var found: seq<Match> := [];
      for i := 0 to |records|
        invariant Within(localHash, records[..i], threshold) == Some(found)
      {
        var record := records[i];
        assert records[..i + 1][..i] == records[..i] && found + [] == found;
        if Hashed(record) {
          var distance := TextDistance(localHash, record.contentPhash.value);
          if distance.None? {
            RaisesOnPrefix(localHash, records, i + 1, threshold);
            return Raised(BadHash);
          }
          if distance.value <= threshold {
            found := found + [Match(record, distance.value)];
          }
        }
      }
      assert records[..|records|] == records;
      found := Sort(found, (a: Match, b: Match) => a.distance <= b.distance);
      matches := matches[filename := found];
      todo := todo - {filename};
    }
    return Ok(matches);
  }

  lemma {:induction false} RaisesOnPrefix(localHash: string, records: seq<Record>, i: nat, threshold: int)
    requires i <= |records| && Within(localHash, records[..i], threshold).None?
    ensures Within(localHash, records, threshold).None?
    decreases |records|
  {
    if i < |records| {
      var front := records[..|records| - 1];
      assert front[..i] == records[..i];
      RaisesOnPrefix(localHash, front, i, threshold);
    } else {
      assert records[..i] == records;
    }
  }

  ghost predicate Readable(localHash: string, r: Record) {
    Hashed(r) ==> TextDistance(localHash, r.contentPhash.value).Some?
  }

  lemma {:induction false} WithinExact(localHash: string, records: seq<Record>, threshold: int)
    ensures Within(localHash, records, threshold).Some? <==> forall r :: r in records ==> Readable(localHash, r)
    ensures Within(localHash, records, threshold).Some? ==> forall m ::
        m in Within(localHash, records, threshold).value
        <==> m.record in records && Hashed(m.record) && m.distance <= threshold
             && TextDistance(localHash, m.record.contentPhash.value) == Some(m.distance)
  {
    if records != [] {
      var front, last := records[..|records| - 1], records[|records| - 1];
      WithinExact(localHash, front, threshold);
      assert records == front + [last];
      assert Readable(localHash, last) <==> !Hashed(last) || TextDistance(localHash, last.contentPhash.value).Some?;
      if Within(localHash, records, threshold).Some? {
        forall r | r in records ensures Readable(localHash, r) { assert r in front || r == last; }
      } else if Within(localHash, front, threshold).Some? {
        assert last in records && !Readable(localHash, last);
      }
    }
  }

  function AtDistance(found: seq<Match>, d: nat): seq<Match> { Filter(found, (m: Match) => m.distance == d) }

  /** One file's matches: exactly the hashed records within the threshold with their true
      distances, nearest first, equally distant ones in export order; the search raises exactly when
      some hashed record or the local hash is not hexadecimal. */
  lemma NearestExact(localHash: string, records: seq<Record>, threshold: int)
    ensures Nearest(localHash, records, threshold).Some? <==> forall r :: r in records ==> Readable(localHash, r)
    ensures Nearest(localHash, records, threshold).Some? ==>
              var found := Nearest(localHash, records, threshold).value;
              && (forall m :: m in found <==> m.record in records && Hashed(m.record) && m.distance <= threshold
                                              && TextDistance(localHash, m.record.contentPhash.value) == Some(m.distance))
              && (forall i, j :: 0 <= i < j < |found| ==> found[i].distance <= found[j].distance)
              && (forall d: nat :: AtDistance(found, d) == AtDistance(Within(localHash, records, threshold).value, d))
  {
    WithinExact(localHash, records, threshold);
    var within := Within(localHash, records, threshold);
    if within.Some? {
      var leq := (a: Match, b: Match) => a.distance <= b.distance;
      SortContents(within.value, leq);
      SortSorted(within.value, leq);
      forall d: nat ensures AtDistance(Sort(within.value, leq), d) == AtDistance(within.value, d) {
        SortStable(within.value, leq, (m: Match) => m.distance == d);
      }
    }
  }

  /** Looking from a hash k bits away, nothing is lost by widening the threshold by k. */
  lemma WidenedThresholdKeepsMatch(hash: string, other: string, records: seq<Record>, threshold: int, m: Match)
    requires Nearest(hash, records, threshold).Some? && m in Nearest(hash, records, threshold).value
    requires TextDistance(hash, other).Some?
    ensures var k := TextDistance(hash, other).value;
            var wide := Nearest(other, records, threshold + k);
            wide.Some? && exists d: nat :: d <= m.distance + k && Match(m.record, d) in wide.value
  {
    var k := TextDistance(hash, other).value;
    NearestExact(hash, records, threshold);
    NearestExact(other, records, threshold + k);
    forall r | r in records ensures Readable(other, r) { assert Readable(hash, r); }
    var x, y, z := ParseHex(other).value, ParseHex(hash).value, ParseHex(m.record.contentPhash.value).value;
    HammingIsMetric(x, y, z);
    HammingIsMetric(y, x, z);
    var d := HammingDistance(x, z);
    assert TextDistance(other, m.record.contentPhash.value) == Some(d);
    assert Match(m.record, d) in Nearest(other, records, threshold + k).value;
  }
}
