/** When a window of OCR text reads as an artist, and as which, told from the names in the lexicon and the
    similarity alone (collector_line_artist._score_candidate). */
module ArtistBars {
  import opened Wrappers
  import opened Sorting
  import opened ArtistText
  import opened ArtistReading

  // ----- the rule -----

  /** A name the window is compared with: it begins with the same character, and it is longer than the text
      only where a clipped name may stand and at least seven characters of it are left. */
  predicate Fits(w: Window, name: string) {
    var text, whole := Normalize(w.text), Normalize(name);
    && text != "" && whole != "" && whole[0] == text[0]
    && (|whole| > |text| ==> w.truncationEligible && |text| >= 7)
  }

  /** How alike: a longer name by as much of it as the text shows, any other as a whole. */
  function Likeness(ratio: Similarity, w: Window, name: string): real {
    var text, whole := Normalize(w.text), Normalize(name);
    if |whole| > |text| then ratio(text, whole[..|text|]) else ratio(text, whole)
  }

  /** What it takes for a name to be believed. */
  function Bar(w: Window, name: string): real {
    if |Normalize(name)| > |Normalize(w.text)| then 0.92 else if w.wordCount == 1 then 0.92 else 0.85
  }

  /** The first name, in lexicon order, that nothing compared exceeds. */
  ghost predicate Leads(ratio: Similarity, w: Window, names: seq<string>, k: int) {
    && 0 <= k < |names| && Fits(w, names[k])
    && (forall j :: 0 <= j < |names| && Fits(w, names[j]) ==> Likeness(ratio, w, names[j]) <= Likeness(ratio, w, names[k]))
    && (forall j :: 0 <= j < k && Fits(w, names[j]) ==> Likeness(ratio, w, names[j]) < Likeness(ratio, w, names[k]))
  }

  /** The text is long enough and its leading name meets its bar. */
  ghost predicate MeetsBar(ratio: Similarity, w: Window, names: seq<string>, k: int) {
    |Normalize(w.text)| >= 5 && Leads(ratio, w, names, k) && Likeness(ratio, w, names[k]) >= Bar(w, names[k])
  }

  predicate Near(ratio: Similarity, w: Window, name: string, top: real) { Fits(w, name) && Likeness(ratio, w, name) >= top - 0.15 }

  // ----- the scan over a bucket, name by name -----

  function NameHits(ratio: Similarity, w: Window, names: seq<string>): seq<Hit> {
    if names == [] then []
    else
      var n := names[|names| - 1];
      NameHits(ratio, w, names[..|names| - 1]) + if Fits(w, n) then [Hit(Likeness(ratio, w, n), Bar(w, n), n)] else []
  }

  lemma {:induction false} HitsOfNames(ratio: Similarity, w: Window, names: seq<string>)
    requires Normalize(w.text) != ""
    ensures Hits(ratio, Normalize(w.text), w, Bucket(names, Normalize(w.text)[0])) == NameHits(ratio, w, names)
  {
    if names != [] {
      var text, front, n := Normalize(w.text), names[..|names| - 1], names[|names| - 1];
      HitsOfNames(ratio, w, front);
      var bucket := Bucket(front, text[0]);
      if Normalize(n) != "" && Normalize(n)[0] == text[0] {
        HitAppended(ratio, w, bucket, n);
      } else {
        assert bucket + [] == bucket && NameHits(ratio, w, front) + [] == NameHits(ratio, w, front);
      }
    }
  }

  lemma HitAppended(ratio: Similarity, w: Window, bucket: seq<Entry>, n: string)
    requires Normalize(w.text) != "" && Normalize(n) != "" && Normalize(n)[0] == Normalize(w.text)[0]
    ensures Hits(ratio, Normalize(w.text), w, bucket + [Entry(n, Normalize(n))])
            == Hits(ratio, Normalize(w.text), w, bucket) + if Fits(w, n) then [Hit(Likeness(ratio, w, n), Bar(w, n), n)] else []
  {
    assert (bucket + [Entry(n, Normalize(n))])[..|bucket|] == bucket;
  }

  /** The running maximum over the names. */
  ghost predicate TopFits(ratio: Similarity, w: Window, names: seq<string>, top: Top) {
    && top.ratio >= 0.0
    && (forall j :: 0 <= j < |names| && Fits(w, names[j]) ==> Likeness(ratio, w, names[j]) <= top.ratio)
    && if top.ratio > 0.0 then exists k :: Leads(ratio, w, names, k) && top == Top(Likeness(ratio, w, names[k]), Bar(w, names[k]))
       else top == Top(0.0, 1.0)
  }

  lemma {:induction false} TopOfNames(ratio: Similarity, w: Window, names: seq<string>)
    ensures TopFits(ratio, w, names, TopOf(NameHits(ratio, w, names)))
  {
    if names != [] {
      var front, n := names[..|names| - 1], names[|names| - 1];
      TopOfNames(ratio, w, front);
      var hits := NameHits(ratio, w, front);
      if Fits(w, n) {
        var h := Hit(Likeness(ratio, w, n), Bar(w, n), n);
        assert (hits + [h])[..|hits|] == hits;
        TopStep(ratio, w, front, n, TopOf(hits));
        assert names == front + [n];
      } else {
        assert hits + [] == hits;
        TopKept(ratio, w, front, n, TopOf(hits));
        assert names == front + [n];
      }
    }
  }

  lemma TopStep(ratio: Similarity, w: Window, front: seq<string>, n: string, top: Top)
    requires TopFits(ratio, w, front, top) && Fits(w, n)
    ensures var like := Likeness(ratio, w, n);
            TopFits(ratio, w, front + [n], if like > top.ratio then Top(like, Bar(w, n)) else top)
  {
    var names, like := front + [n], Likeness(ratio, w, n);
    if like > top.ratio {
      assert Leads(ratio, w, names, |front|);
    } else {
      TopKept(ratio, w, front, n, top);
    }
  }

  lemma TopKept(ratio: Similarity, w: Window, front: seq<string>, n: string, top: Top)
    requires TopFits(ratio, w, front, top) && (Fits(w, n) ==> Likeness(ratio, w, n) <= top.ratio)
    ensures TopFits(ratio, w, front + [n], top)
  {
    var names := front + [n];
    if top.ratio > 0.0 {
      var k :| Leads(ratio, w, front, k) && top == Top(Likeness(ratio, w, front[k]), Bar(w, front[k]));
      assert names[k] == front[k] && Leads(ratio, w, names, k);
    }
  }

  lemma OneLeader(ratio: Similarity, w: Window, names: seq<string>, k: int, l: int)
    requires Leads(ratio, w, names, k) && Leads(ratio, w, names, l)
    ensures k == l
  {
  }

  // ----- when a window has a band, and what is in it -----

  /** A window has a band exactly if its text has at least five characters and the leading name, the first
      in lexicon order to reach the greatest similarity, meets its own bar; that similarity is the top. */
  lemma BandIff(ratio: Similarity, w: Window, lexicon: ArtistLexicon)
    requires Built(lexicon)
    ensures Band(ratio, w, lexicon).Some? <==> exists k :: MeetsBar(ratio, w, lexicon.names, k)
    ensures forall k :: MeetsBar(ratio, w, lexicon.names, k) ==> TopRatio(ratio, w, lexicon) == Likeness(ratio, w, lexicon.names[k])
  {
    if Band(ratio, w, lexicon).Some? {
      var k := LeaderOfBand(ratio, w, lexicon);
    }
    forall k | MeetsBar(ratio, w, lexicon.names, k)
      ensures Band(ratio, w, lexicon).Some? && TopRatio(ratio, w, lexicon) == Likeness(ratio, w, lexicon.names[k]) {
      BandOfLeader(ratio, w, lexicon, k);
    }
  }

  lemma LeaderOfBand(ratio: Similarity, w: Window, lexicon: ArtistLexicon) returns (k: int)
    requires Built(lexicon) && Band(ratio, w, lexicon).Some?
    ensures MeetsBar(ratio, w, lexicon.names, k)
  {
    PoolHits(ratio, w, lexicon);
    TopOfNames(ratio, w, lexicon.names);
    var top := TopOf(NameHits(ratio, w, lexicon.names));
    k :| Leads(ratio, w, lexicon.names, k) && top == Top(Likeness(ratio, w, lexicon.names[k]), Bar(w, lexicon.names[k]));
  }

  lemma BandOfLeader(ratio: Similarity, w: Window, lexicon: ArtistLexicon, k: int)
    requires Built(lexicon) && MeetsBar(ratio, w, lexicon.names, k)
    ensures Band(ratio, w, lexicon).Some? && TopRatio(ratio, w, lexicon) == Likeness(ratio, w, lexicon.names[k])
  {
    PoolHits(ratio, w, lexicon);
    TopOfNames(ratio, w, lexicon.names);
    var hits := NameHits(ratio, w, lexicon.names);
    var l :| Leads(ratio, w, lexicon.names, l) && TopOf(hits) == Top(Likeness(ratio, w, lexicon.names[l]), Bar(w, lexicon.names[l]));
    OneLeader(ratio, w, lexicon.names, k, l);
    assert hits != [];
  }

  lemma PoolHits(ratio: Similarity, w: Window, lexicon: ArtistLexicon)
    requires Built(lexicon) && Normalize(w.text) != ""
    ensures Hits(ratio, Normalize(w.text), w, lexicon.PoolFor(Normalize(w.text))) == NameHits(ratio, w, lexicon.names)
  {
    HitsOfNames(ratio, w, lexicon.names);
    assert BucketIn(lexicon.byFirst, Normalize(w.text)[0]) == Bucket(lexicon.names, Normalize(w.text)[0]);
  }

  lemma BandStep(hits: seq<Hit>, h: Hit, top: real)
    ensures NamesInBand(hits + [h], top) == NamesInBand(hits, top) + if h.ratio >= top - 0.15 then [h.name] else []
  {
    assert (hits + [h])[..|hits|] == hits;
  }

  lemma NearStep(ratio: Similarity, w: Window, names: seq<string>, top: real)
    requires names != []
    ensures var front, last := names[..|names| - 1], names[|names| - 1];
            NamesInBand(NameHits(ratio, w, names), top)
            == NamesInBand(NameHits(ratio, w, front), top) + if Near(ratio, w, last, top) then [last] else []
  {
    var front, last := names[..|names| - 1], names[|names| - 1];
    var hits := NameHits(ratio, w, front);
    if Fits(w, last) {
      BandStep(hits, Hit(Likeness(ratio, w, last), Bar(w, last), last), top);
    } else {
      assert hits + [] == hits;
    }
  }

  lemma {:induction false} NearNames(ratio: Similarity, w: Window, names: seq<string>, top: real, n: string)
    ensures multiset(NamesInBand(NameHits(ratio, w, names), top))[n] == if Near(ratio, w, n, top) then multiset(names)[n] else 0
  {
    if names != [] {
      var front, last := names[..|names| - 1], names[|names| - 1];
      NearNames(ratio, w, front, top, n);
      NearStep(ratio, w, names, top);
      assert names == front + [last];
    }
  }

  /** A band is in alphabetical order and holds each lexicon name that is compared and no more than 0.15
      below the leader, as often as the lexicon does, and nothing else. */
  lemma BandContents(ratio: Similarity, w: Window, lexicon: ArtistLexicon, k: int, n: string)
    requires Built(lexicon) && MeetsBar(ratio, w, lexicon.names, k)
    ensures Band(ratio, w, lexicon).Some? && Sorted(Band(ratio, w, lexicon).value, StringLeq)
    ensures multiset(Band(ratio, w, lexicon).value)[n]
            == if Near(ratio, w, n, Likeness(ratio, w, lexicon.names[k])) then multiset(lexicon.names)[n] else 0
  {
    BandIff(ratio, w, lexicon);
    PoolHits(ratio, w, lexicon);
    var top := TopRatio(ratio, w, lexicon);
    var near := NamesInBand(NameHits(ratio, w, lexicon.names), top);
    NearNames(ratio, w, lexicon.names, top, n);
    StringOrder();
    SortSorted(near, StringLeq);
    SortMultiset(near, StringLeq);
  }

  // ----- narrowing and the cap -----

  predicate Wanted(allowed: Option<set<string>>, name: string) { allowed.Some? && Normalize(name) in allowed.value }

  /** If any name of the band is wanted, exactly those stay, as often as they were there; else all do. */
  lemma {:induction false} AllowedCounts(band: seq<string>, allowed: set<string>, n: string)
    ensures multiset(Allowed(band, allowed))[n] == if Normalize(n) in allowed then multiset(band)[n] else 0
  {
    if band != [] {
      AllowedCounts(band[1..], allowed, n);
      assert band == [band[0]] + band[1..];
    }
  }

  lemma NarrowContents(band: seq<string>, allowed: Option<set<string>>, n: string)
    ensures if exists m :: m in band && Wanted(allowed, m)
            then multiset(Narrow(band, allowed))[n] == if Wanted(allowed, n) then multiset(band)[n] else 0
            else Narrow(band, allowed) == band
  {
    if allowed.Some? {
      AllowedCounts(band, allowed.value, n);
      AllowedExact(band, allowed.value);
      var kept := Allowed(band, allowed.value);
      if m :| m in band && Wanted(allowed, m) {
        assert m in kept;
      } else if kept != [] {
        assert kept[0] in kept;
      }
    }
  }

  /** The band after narrowing. */
  function Kept(ratio: Similarity, w: Window, lexicon: ArtistLexicon, allowed: Option<set<string>>): seq<string> {
    if Band(ratio, w, lexicon).None? then [] else Narrow(Band(ratio, w, lexicon).value, allowed)
  }

  ghost predicate Believed(ratio: Similarity, w: Window, lexicon: ArtistLexicon, allowed: Option<set<string>>) {
    (exists k :: MeetsBar(ratio, w, lexicon.names, k)) && |Kept(ratio, w, lexicon, allowed)| <= 6
  }

  /** A window reads exactly if its leader meets its bar and at most six names are left of its band; the
      reading has the leader's similarity and the length of the text. */
  lemma ReadIff(ratio: Similarity, w: Window, lexicon: ArtistLexicon, allowed: Option<set<string>>)
    requires Built(lexicon)
    ensures Read(ratio, w, lexicon, allowed).Some? <==> Believed(ratio, w, lexicon, allowed)
    ensures forall k :: MeetsBar(ratio, w, lexicon.names, k) && Read(ratio, w, lexicon, allowed).Some? ==>
              Read(ratio, w, lexicon, allowed).value
              == Reading(Likeness(ratio, w, lexicon.names[k]), Kept(ratio, w, lexicon, allowed), |Normalize(w.text)|)
  {
    BandIff(ratio, w, lexicon);
  }

  /** A text reads exactly if some window of it does. */
  lemma TextReadsIff(ratio: Similarity, ws: seq<Window>, lexicon: ArtistLexicon, allowed: Option<set<string>>)
    requires Built(lexicon)
    ensures BestOf(Reader(ratio, lexicon, allowed), ws).Some? <==> exists w :: w in ws && Believed(ratio, w, lexicon, allowed)
  {
    var read := Reader(ratio, lexicon, allowed);
    forall w ensures read(w).Some? <==> Believed(ratio, w, lexicon, allowed) {
      ReadIff(ratio, w, lexicon, allowed);
    }
    var i := BestIsFirstMaximum(read, ws);
    if BestOf(read, ws).Some? {
      BestWindow(read, ws);
    }
  }

  /** What the card's name allows: the normal forms of the names given, the empty one aside; nothing
      usable switches the narrowing off. */
  lemma AllowedSetExact(names: seq<string>)
    ensures NormalizedAllowed(None) == None
    ensures NormalizedAllowed(Some(names)).Some? <==> exists n :: n in names && Normalize(n) != ""
    ensures NormalizedAllowed(Some(names)).Some? ==>
              forall x :: x in NormalizedAllowed(Some(names)).value <==> x != "" && exists n :: n in names && Normalize(n) == x
  {
    forall n ensures n == "" ==> Normalize(n) == "" {}
    if n :| n in names && Normalize(n) != "" {
      assert n != "";
      assert Normalize(n) in (set m | m in names && m != "" :: Normalize(m)) - {""};
    }
  }
}
