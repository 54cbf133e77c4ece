/** The bounded per-expansion cache of collector_line_artist.PrintingArtistLookup. */
module PrintingArtists {
  import opened Wrappers

  datatype Printing = Printing(expansionCode: string, collectorNumber: string, artist: string)

  /** The reference table and the text functions the lookup goes through. */
  datatype Reference = Reference(rows: seq<Printing>, lower: string -> string, sameCode: (string, string) -> bool,
                                 normalizeNumber: string -> string)

  const MAX_CACHED_EXPANSIONS: nat := 64

  /** The map one query builds for an expansion; later rows overwrite earlier ones. */
  function Load(ref: Reference, rows: seq<Printing>, code: string): map<string, string> {
    if rows == [] then map[]
    else
      var before, row := Load(ref, rows[..|rows| - 1], code), rows[|rows| - 1];
      if ref.sameCode(row.expansionCode, code) then before[ref.normalizeNumber(row.collectorNumber) := row.artist] else before
  }

  /** The last row of the table denoting this printing, asked directly. */
  function LastArtist(ref: Reference, rows: seq<Printing>, code: string, number: string): Option<string> {
    if rows == [] then None
    else
      var row := rows[|rows| - 1];
      if ref.sameCode(row.expansionCode, code) && ref.normalizeNumber(row.collectorNumber) == number then Some(row.artist)
      else LastArtist(ref, rows[..|rows| - 1], code, number)
  }

  /** What every lookup should answer. */
  function Direct(ref: Reference, setCode: Option<string>, number: Option<string>): Option<string> {
    if setCode.None? || setCode.value == "" || number.None? || number.value == "" then None
    else LastArtist(ref, ref.rows, ref.lower(setCode.value), ref.normalizeNumber(number.value))
  }

  lemma {:induction false} LoadedAnswersDirectly(ref: Reference, rows: seq<Printing>, code: string, number: string)
    ensures var loaded := Load(ref, rows, code);
            LastArtist(ref, rows, code, number) == if number in loaded then Some(loaded[number]) else None
  {
    if rows != [] {
      LoadedAnswersDirectly(ref, rows[..|rows| - 1], code, number);
    }
  }

  // ----- the cache, a dict in insertion order -----

  datatype Cached = Cached(code: string, artists: map<string, string>)

  function Find(cache: seq<Cached>, code: string): Option<map<string, string>> {
    if cache == [] then None
    else if cache[0].code == code then Some(cache[0].artists)
    else Find(cache[1..], code)
  }

  function Codes(cache: seq<Cached>): set<string> {
    if cache == [] then {} else {cache[0].code} + Codes(cache[1..])
  }

  /** The cache after one lookup: a hit changes nothing, a miss evicts the oldest of a full cache. */
  function Touch(ref: Reference, cache: seq<Cached>, code: string): seq<Cached> {
    if Find(cache, code).Some? then cache
    else (if |cache| >= MAX_CACHED_EXPANSIONS then cache[1..] else cache) + [Cached(code, Load(ref, ref.rows, code))]
  }

  predicate Faithful(ref: Reference, cache: seq<Cached>) {
    && |cache| <= MAX_CACHED_EXPANSIONS
    && (forall i :: 0 <= i < |cache| ==> cache[i].artists == Load(ref, ref.rows, cache[i].code))
    && (forall i, j :: 0 <= i < j < |cache| ==> cache[i].code != cache[j].code)
  }

  class PrintingArtistLookup {
    const ref: Reference
    var byExpansion: seq<Cached>

    ghost predicate Valid()
      reads this
    {
      Faithful(ref, byExpansion)
    }

    constructor (ref: Reference)
      ensures Valid() && byExpansion == [] && this.ref == ref
    {
      this.ref := ref;
      byExpansion := [];
    }

    method Call(setCode: Option<string>, number: Option<string>) returns (artist: Option<string>)
      requires Valid()
      modifies this
      ensures Valid()
      ensures artist == Direct(ref, setCode, number)
    {
      if setCode.None? || setCode.value == "" || number.None? || number.value == "" {
        return None;
      }
      var code := ref.lower(setCode.value);
      var expansion := ArtistsForExpansion(code);
      var key := ref.normalizeNumber(number.value);
      LoadedAnswersDirectly(ref, ref.rows, code, key);
      return if key in expansion then Some(expansion[key]) else None;
    }

    method ArtistsForExpansion(code: string) returns (artists: map<string, string>)
      requires Valid()
      modifies this
      ensures Valid() && artists == Load(ref, ref.rows, code)
      ensures byExpansion == Touch(ref, old(byExpansion), code)
    {
      FindExact(byExpansion, code);
      TouchKeepsFaithful(ref, byExpansion, code);
      var cached := Find(byExpansion, code);
      if cached.Some? {
        return cached.value;
      }
      var loaded := Load(ref, ref.rows, code);
      if |byExpansion| >= MAX_CACHED_EXPANSIONS {
        byExpansion := byExpansion[1..];
      }
      byExpansion := byExpansion + [Cached(code, loaded)];
      return loaded;
    }
  }

  lemma {:induction false} FindExact(cache: seq<Cached>, code: string)
    ensures Find(cache, code).None? <==> forall i :: 0 <= i < |cache| ==> cache[i].code != code
    ensures Find(cache, code).Some? ==> exists i :: 0 <= i < |cache| && cache[i] == Cached(code, Find(cache, code).value)
    ensures Find(cache, code).Some? <==> code in Codes(cache)
  {
    if cache != [] {
      FindExact(cache[1..], code);
      assert forall i :: 0 < i < |cache| ==> cache[i] == cache[1..][i - 1];
      if cache[0].code != code && Find(cache, code).Some? {
        var i :| 0 <= i < |cache[1..]| && cache[1..][i] == Cached(code, Find(cache, code).value);
        assert cache[i + 1] == Cached(code, Find(cache, code).value);
      } else if cache[0].code == code {
        assert cache[0] == Cached(code, Find(cache, code).value);
      }
    }
  }

  lemma TouchKeepsFaithful(ref: Reference, cache: seq<Cached>, code: string)
    requires Faithful(ref, cache)
    ensures Faithful(ref, Touch(ref, cache, code))
  {
    FindExact(cache, code);
  }

  // ----- sequences of lookups -----

  function TouchAll(ref: Reference, cache: seq<Cached>, codes: seq<string>): seq<Cached> {
    if codes == [] then cache else Touch(ref, TouchAll(ref, cache, codes[..|codes| - 1]), codes[|codes| - 1])
  }

  /** How many queries the lookups cost. */
  function Queries(ref: Reference, cache: seq<Cached>, codes: seq<string>): nat {
    if codes == [] then 0
    else
      Queries(ref, cache, codes[..|codes| - 1]) +
      if Find(TouchAll(ref, cache, codes[..|codes| - 1]), codes[|codes| - 1]).None? then 1 else 0
  }

  function Distinct(codes: seq<string>): set<string> {
    if codes == [] then {} else Distinct(codes[..|codes| - 1]) + {codes[|codes| - 1]}
  }

  /** However many expansions go by and are evicted, the cache stays bounded and each map in it is the
      table's own. */
  lemma {:induction false} AnyLookupsKeepFaithful(ref: Reference, codes: seq<string>)
    ensures Faithful(ref, TouchAll(ref, [], codes)) && |TouchAll(ref, [], codes)| <= 64
  {
    if codes != [] {
      AnyLookupsKeepFaithful(ref, codes[..|codes| - 1]);
      TouchKeepsFaithful(ref, TouchAll(ref, [], codes[..|codes| - 1]), codes[|codes| - 1]);
    }
  }

  /** The expansions that were queried for, in order. */
  function Missed(ref: Reference, codes: seq<string>): seq<string> {
    if codes == [] then []
    else
      var front, last := codes[..|codes| - 1], codes[|codes| - 1];
      Missed(ref, front) + if Find(TouchAll(ref, [], front), last).None? then [last] else []
  }

  function CodeList(cache: seq<Cached>): (codes: seq<string>)
    ensures |codes| == |cache|
  {
    if cache == [] then [] else CodeList(cache[..|cache| - 1]) + [cache[|cache| - 1].code]
  }

  lemma {:induction false} CodeListAt(cache: seq<Cached>, i: nat)
    requires i < |cache|
    ensures CodeList(cache)[i] == cache[i].code
  {
    if i < |cache| - 1 {
      CodeListAt(cache[..|cache| - 1], i);
    }
  }

  /** The cache holds the expansions queried for last, 64 of them if there were as many. */
  lemma {:induction false} HoldsLatest(ref: Reference, codes: seq<string>)
    ensures var held, missed := CodeList(TouchAll(ref, [], codes)), Missed(ref, codes);
            && |held| == (if |missed| <= 64 then |missed| else 64)
            && held == missed[|missed| - |held|..]
  {
    if codes != [] {
      var front, last := codes[..|codes| - 1], codes[|codes| - 1];
      HoldsLatest(ref, front);
      var cache := TouchAll(ref, [], front);
      if Find(cache, last).None? {
        LoadedLast(ref, cache, last);
      }
    }
  }

  lemma LoadedLast(ref: Reference, cache: seq<Cached>, code: string)
    requires Find(cache, code).None?
    ensures CodeList(Touch(ref, cache, code)) == CodeList(cache)[if |cache| >= 64 then 1 else 0..] + [code]
  {
    var after := Touch(ref, cache, code);
    forall i | 0 <= i < |cache| ensures CodeList(cache)[i] == cache[i].code { CodeListAt(cache, i); }
    forall i | 0 <= i < |after| ensures CodeList(after)[i] == after[i].code { CodeListAt(after, i); }
  }

  lemma {:induction false} CodesCount(ref: Reference, cache: seq<Cached>)
    requires forall i, j :: 0 <= i < j < |cache| ==> cache[i].code != cache[j].code
    ensures |Codes(cache)| == |cache|
  {
    if cache != [] {
      CodesCount(ref, cache[1..]);
      FindExact(cache[1..], cache[0].code);
    }
  }

  lemma {:induction false} CodesAppend(a: seq<Cached>, c: Cached)
    ensures Codes(a + [c]) == Codes(a) + {c.code}
  {
    if a == [] {
      assert a + [c] == [c] && [c][1..] == [];
    } else {
      CodesAppend(a[1..], c);
      assert (a + [c])[1..] == a[1..] + [c];
    }
  }

  /** One query per expansion, as long as the lookups do not touch more expansions than the cache
      holds. */
  lemma {:induction false} OneQueryPerExpansion(ref: Reference, codes: seq<string>)
    requires |Distinct(codes)| <= 64
    ensures Queries(ref, [], codes) == |Distinct(codes)| && Codes(TouchAll(ref, [], codes)) == Distinct(codes)
  {
    if codes != [] {
      var front, last := codes[..|codes| - 1], codes[|codes| - 1];
      var cache := TouchAll(ref, [], front);
      DistinctGrows(codes);
      OneQueryPerExpansion(ref, front);
      AnyLookupsKeepFaithful(ref, front);
      CodesCount(ref, cache);
      FindExact(cache, last);
      CodesAppend(cache, Cached(last, Load(ref, ref.rows, last)));
    }
  }

  lemma DistinctGrows(codes: seq<string>)
    requires codes != []
    ensures var front, last := Distinct(codes[..|codes| - 1]), codes[|codes| - 1];
            |Distinct(codes)| == |front| + if last in front then 0 else 1
  {
    var front, last := Distinct(codes[..|codes| - 1]), codes[|codes| - 1];
    if last in front {
      assert Distinct(codes) == front;
    }
  }
}
