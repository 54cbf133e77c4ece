/** Narrowing the plausible artists by the card's name is said never to change which read wins
    (collector_line_artist._score_candidate). It can, because it runs before the cap on the names: here are
    the lexicons and texts that show it, for any similarity. */
module NarrowingCounterexample {
  import opened Wrappers
  import opened Sorting
  import opened ArtistText
  import opened ArtistReading

  predicate Plain(s: string) { forall i :: 0 <= i < |s| ==> Alphanumeric(s[i]) }

  lemma {:induction false} PlainNormalizes(s: string)
    requires Plain(s)
    ensures Normalize(s) == s
  {
    if s != "" {
      PlainNormalizes(s[1..]);
      assert LowerText(s) == [s[0]] + LowerText(s[1..]);
      assert LowerText(s)[1..] == LowerText(s[1..]);
      assert s == [s[0]] + s[1..];
    }
  }

  function Entries(names: seq<string>): (entries: seq<Entry>)
    ensures |entries| == |names|
  {
    if names == [] then [] else Entries(names[..|names| - 1]) + [Entry(names[|names| - 1], names[|names| - 1])]
  }

  predicate AllPlain(names: seq<string>, c: char, length: nat) {
    forall i :: 0 <= i < |names| ==> Plain(names[i]) && 0 < |names[i]| <= length && names[i][0] == c
  }

  lemma {:induction false} BucketOfPlain(names: seq<string>, c: char, d: char, length: nat)
    requires AllPlain(names, c, length)
    ensures Bucket(names, d) == if c == d then Entries(names) else []
  {
    if names != [] {
      BucketOfPlain(names[..|names| - 1], c, d, length);
      PlainNormalizes(names[|names| - 1]);
    }
  }

  /** Every name is no longer than the text and looks much like it. */
  ghost predicate Alike(ratio: Similarity, text: string, names: seq<string>) {
    forall i :: 0 <= i < |names| ==> |names[i]| <= |text| && 1.0 - COMPATIBLE_BAND <= ratio(text, names[i]) <= 1.0
  }

  predicate TopFits(top: Top, exact: bool) {
    top.ratio <= 1.0 && top.floor == MIN_RATIO_FULL_SINGLE_WORD && (exact ==> top.ratio == 1.0)
  }

  /** What every name scores. */
  function FullHits(ratio: Similarity, text: string, names: seq<string>): seq<Hit> {
    if names == [] then []
    else
      var last := names[|names| - 1];
      FullHits(ratio, text, names[..|names| - 1]) + [Hit(ratio(text, last), MIN_RATIO_FULL_SINGLE_WORD, last)]
  }

  lemma {:induction false} EveryoneHits(ratio: Similarity, names: seq<string>, w: Window)
    requires w.wordCount == 1 && Alike(ratio, w.text, names)
    ensures Hits(ratio, w.text, w, Entries(names)) == FullHits(ratio, w.text, names)
  {
    if names != [] {
      var front, last := names[..|names| - 1], names[|names| - 1];
      EveryoneHits(ratio, front, w);
      assert Entries(names)[..|front|] == Entries(front);
    }
  }

  lemma {:induction false} EveryoneInBand(ratio: Similarity, text: string, names: seq<string>)
    requires Alike(ratio, text, names) && ratio(text, text) == 1.0
    ensures InBand(FullHits(ratio, text, names), names, text in names)
  {
    if names != [] {
      var front, last := names[..|names| - 1], names[|names| - 1];
      EveryoneInBand(ratio, text, front);
      assert names == front + [last];
      assert text in names <==> text in front || text == last;
      HitAppended(FullHits(ratio, text, front), front, Hit(ratio(text, last), MIN_RATIO_FULL_SINGLE_WORD, last), text in front, text == last);
    }
  }

  predicate InBand(hits: seq<Hit>, names: seq<string>, exact: bool) {
    if names == [] then hits == [] && !exact
    else hits != [] && NamesInBand(hits, 1.0) == names && TopFits(TopOf(hits), exact)
  }

  lemma HitAppended(hits: seq<Hit>, names: seq<string>, h: Hit, before: bool, now: bool)
    requires 1.0 - COMPATIBLE_BAND <= h.ratio <= 1.0 && h.floor == MIN_RATIO_FULL_SINGLE_WORD && (now ==> h.ratio == 1.0)
    requires InBand(hits, names, before)
    ensures InBand(hits + [h], names + [h.name], before || now)
  {
    assert (hits + [h])[..|hits|] == hits;
  }

  lemma BandIsEveryone(ratio: Similarity, names: seq<string>, c: char, w: Window, lexicon: ArtistLexicon)
    requires w.wordCount == 1 && w.text in names
    requires Plain(w.text) && |w.text| >= MIN_CANDIDATE_LETTERS && w.text[0] == c
    requires Alike(ratio, w.text, names) && ratio(w.text, w.text) == 1.0
    requires Built(lexicon) && Bucket(lexicon.names, c) == Entries(names)
    ensures Band(ratio, w, lexicon) == Some(Sort(names, StringLeq)) && TopRatio(ratio, w, lexicon) == 1.0
  {
    PlainNormalizes(w.text);
    assert BucketIn(lexicon.byFirst, c) == Entries(names);
    EveryoneHits(ratio, names, w);
    EveryoneInBand(ratio, w.text, names);
  }

  lemma {:induction false} AllowedCount(names: seq<string>, x: string)
    requires Plain(x) && forall i :: 0 <= i < |names| ==> Plain(names[i])
    ensures |Allowed(names, {x})| == multiset(names)[x]
  {
    if names != [] {
      AllowedCount(names[1..], x);
      PlainNormalizes(names[0]);
      assert names == [names[0]] + names[1..];
    }
  }

  lemma OnlyOneKept(many: seq<string>, x: string, length: nat)
    requires AllPlain(many, 'a', length) && x in many && multiset(many)[x] == 1
    ensures Narrow(Sort(many, StringLeq), Some({x})) == [x]
  {
    var band := Sort(many, StringLeq);
    SortMultiset(many, StringLeq);
    SortContents(many, StringLeq);
    forall i | 0 <= i < |band| ensures Plain(band[i]) { assert band[i] in many; }
    AllowedCount(band, x);
    AllowedExact(band, {x});
    PlainNormalizes(x);
    var kept := Allowed(band, {x});
    assert kept[0] in kept && kept[0] in many;
    PlainNormalizes(kept[0]);
    assert kept == [x];
  }

  lemma OtherIsNotNarrowed(other: string, x: string)
    requires Plain(other) && Plain(x) && other != x
    ensures Sort([other], StringLeq) == [other] && Narrow([other], Some({x})) == [other]
  {
    PlainNormalizes(other);
    PlainNormalizes(x);
    assert [other][1..] == [];
    assert Allowed([other], {x}) == [];
  }

  lemma BothBuckets(many: seq<string>, other: string, length: nat)
    requires AllPlain(many, 'a', length) && Plain(other) && other != "" && other[0] == 'b'
    ensures Bucket(many + [other], 'a') == Entries(many) && Bucket(many + [other], 'b') == Entries([other])
  {
    PlainNormalizes(other);
    assert (many + [other])[..|many|] == many && [other][..0] == [];
    BucketOfPlain(many, 'a', 'a', length);
    BucketOfPlain(many, 'a', 'b', length);
    assert Entries([other]) == [Entry(other, other)];
  }

  /** The alike names fill the band of `long`; the one name under 'b' has a band of its own. */
  lemma BandOfMany(ratio: Similarity, many: seq<string>, other: string, long: string, lexicon: ArtistLexicon)
    requires AllPlain(many, 'a', |long|) && long in many && Alike(ratio, long, many) && ratio(long, long) == 1.0
    requires Plain(other) && other != "" && other[0] == 'b' && MIN_CANDIDATE_LETTERS <= |long|
    requires Built(lexicon) && lexicon.names == many + [other]
    ensures Band(ratio, Window(long, 1, false), lexicon) == Some(Sort(many, StringLeq))
    ensures TopRatio(ratio, Window(long, 1, false), lexicon) == 1.0
  {
    BothBuckets(many, other, |long|);
    BandIsEveryone(ratio, many, 'a', Window(long, 1, false), lexicon);
  }

  lemma BandOfOther(ratio: Similarity, many: seq<string>, other: string, length: nat, lexicon: ArtistLexicon)
    requires AllPlain(many, 'a', length) && Plain(other) && other != "" && other[0] == 'b' && MIN_CANDIDATE_LETTERS <= |other|
    requires ratio(other, other) == 1.0 && Built(lexicon) && lexicon.names == many + [other]
    ensures Band(ratio, Window(other, 1, false), lexicon) == Some(Sort([other], StringLeq))
    ensures TopRatio(ratio, Window(other, 1, false), lexicon) == 1.0
  {
    BothBuckets(many, other, length);
    BandIsEveryone(ratio, [other], 'b', Window(other, 1, false), lexicon);
  }

  /** The legal line's windows when it shows two words on two lines. */
  lemma TwoWordText(first: string, second: string)
    requires !Stopword(first) && !Stopword(second)
    ensures CardWindows([], [[first], [second]]) == [Window(first, 1, false), Window(second, 1, false)]
  {
    OneWordLine(first);
    OneWordLine(second);
    var lines := [[first], [second]];
    assert lines[..1] == [[first]] && [[first]][..0] == [];
    assert TextWindows([[first]], false) == [] + Mask(Windows([first]), false);
    assert TextWindows(lines, false) == TextWindows([[first]], false) + Mask(Windows([second]), false);
    assert CardWindows([], lines) == TextWindows(lines, false) + [];
  }

  lemma OneWordLine(word: string)
    requires !Stopword(word)
    ensures Mask(Windows([word]), false) == [Window(word, 1, false)]
  {
    var line, w := [word], Window(word, 1, true);
    assert WindowsFrom(line, 1, 1) == [] && WindowsFrom(line, 2, 0) == [] && WindowsFrom(line, 3, 0) == [] && WindowsFrom(line, 4, 0) == [];
    assert line[0..1] == [word] && WindowAt(line, 0, 1) == w && Admissible(line, 0, 1);
    assert WindowsFrom(line, 1, 0) == [w];
    assert WindowsUpTo(line, 1) == [w];
    assert WindowsUpTo(line, 2) == [w];
    assert WindowsUpTo(line, 3) == [w];
    assert Windows(line) == [w];
    assert [w][..0] == [];
  }

  lemma BestOfTwo(read: WindowReader, w1: Window, w2: Window)
    ensures BestOf(read, [w1, w2]) == Merge(One(w1, read(w1)), One(w2, read(w2)))
  {
    BestStep(read, [], w1);
    BestStep(read, [w1], w2);
    assert [] + [w1] == [w1] && [w1] + [w2] == [w1, w2];
  }

  /** Take any similarity under which more than six one-word names beginning with 'a' are all close to
      `long`, which is one of them, and another name that begins with 'b'. A legal line showing `other`
      and then `long` reads `other` against the full lexicon, since the band of `long` is over the cap.
      Told that the card's name goes with `long`, the code reads `long`: a different artist, not a
      smaller set. */
  lemma NarrowingCanChangeTheRead(ratio: Similarity, many: seq<string>, other: string, long: string, lexicon: ArtistLexicon)
    requires IsRatio(ratio) && Built(lexicon) && lexicon.names == many + [other]
    requires |many| > MAX_COMPATIBLE && AllPlain(many, 'a', |long|) && Alike(ratio, long, many) && multiset(many)[long] == 1
    requires AllPlain([other], 'b', |other|) && MIN_CANDIDATE_LETTERS <= |other| < |long| && !Stopword(other) && !Stopword(long)
    ensures var ws := CardWindows([], [[other], [long]]);
            && BestOf(Reader(ratio, lexicon, None), ws) == Some(Best(Window(other, 1, false), Reading(1.0, [other], |other|)))
            && BestOf(Reader(ratio, lexicon, Some({long})), ws) == Some(Best(Window(long, 1, false), Reading(1.0, [long], |long|)))
  {
    var w1, w2 := Window(other, 1, false), Window(long, 1, false);
    assert long in many;
    TwoWordText(other, long);
    assert [other][0] == other;
    BandOfMany(ratio, many, other, long, lexicon);
    BandOfOther(ratio, many, other, |long|, lexicon);
    PlainNormalizes(other);
    PlainNormalizes(long);
    SortContents(many, StringLeq);
    OnlyOneKept(many, long, |long|);
    OtherIsNotNarrowed(other, long);
    BestOfTwo(Reader(ratio, lexicon, None), w1, w2);
    BestOfTwo(Reader(ratio, lexicon, Some({long})), w1, w2);
  }

  const ALIKE: seq<string> := ["andersona", "andersonb", "andersonc", "andersond", "andersone", "andersonf", "andersong"]

  lemma {:induction false} LowerPlain(s: string)
    requires Plain(s)
    ensures LowerText(s) == s
  {
    if s != "" {
      LowerPlain(s[1..]);
      assert s == [s[0]] + s[1..];
    }
  }

  lemma PlainStopword(s: string)
    requires Plain(s) && s != ""
    ensures Stopword(s) <==> s in CANDIDATE_STOPWORDS
  {
    LowerPlain(s);
    assert s[0] != '.' && s[|s| - 1] != '.';
  }

  /** Seven names of nine letters that differ in the last one, which difflib rates at 8/9: all that is
      asked of the similarity is that it finds them 85% alike. Neither word shown is in the stopword list. */
  lemma SevenNamesChangeTheRead(ratio: Similarity, lexicon: ArtistLexicon)
    requires IsRatio(ratio) && Built(lexicon) && lexicon.names == ALIKE + ["baker"]
    requires forall i :: 0 <= i < |ALIKE| ==> ratio("andersona", ALIKE[i]) >= 0.85
    requires "baker" !in CANDIDATE_STOPWORDS && "andersona" !in CANDIDATE_STOPWORDS
    ensures var ws := CardWindows([], [["baker"], ["andersona"]]);
            && BestOf(Reader(ratio, lexicon, None), ws) == Some(Best(Window("baker", 1, false), Reading(1.0, ["baker"], 5)))
            && BestOf(Reader(ratio, lexicon, Some({"andersona"})), ws)
               == Some(Best(Window("andersona", 1, false), Reading(1.0, ["andersona"], 9)))
  {
    PlainNames();
    assert Plain("baker") && Plain("andersona") by { assert ["baker"][0] == "baker" && ["andersona"][0] == "andersona"; }
    PlainStopword("baker");
    PlainStopword("andersona");
    AlikeCount();
    AlikeNames(ratio);
    NarrowingCanChangeTheRead(ratio, ALIKE, "baker", "andersona", lexicon);
  }

  lemma PlainNames()
    ensures AllPlain(["baker"], 'b', 5) && AllPlain(["andersona"], 'a', 9) && AllPlain(ALIKE, 'a', 9)
  {
  }

  lemma AlikeNames(ratio: Similarity)
    requires IsRatio(ratio) && forall i :: 0 <= i < |ALIKE| ==> ratio("andersona", ALIKE[i]) >= 0.85
    ensures Alike(ratio, "andersona", ALIKE)
  {
  }

  lemma AlikeCount()
    ensures multiset(ALIKE)["andersona"] == 1
  {
    var rest := ALIKE[1..];
    assert ALIKE == ["andersona"] + rest;
    forall i | 0 <= i < |rest| ensures rest[i][8] != 'a' {}
    assert "andersona" !in rest;
  }
}
