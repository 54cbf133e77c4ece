/** Recovering an artist from the two OCR texts of a card (collector_line_artist.py). Texts are given as
    lines of tokens; the similarity ratio is a parameter. */
module ArtistReading {
  import opened Wrappers
  import opened Sorting
  import opened ArtistText

  const MAX_CANDIDATE_WORDS: nat := 4
  const MIN_CANDIDATE_LETTERS: nat := 5
  const MIN_TRUNCATED_LETTERS: nat := 7
  const MIN_RATIO_TRUNCATED: real := 0.92
  const MIN_RATIO_FULL_MULTI_WORD: real := 0.85
  const MIN_RATIO_FULL_SINGLE_WORD: real := 0.92
  const COMPATIBLE_BAND: real := 0.15
  const MAX_COMPATIBLE: nat := 6
  const MAX_DROPPABLE_PREFIX_LEN: nat := 3

  const CANDIDATE_STOPWORDS: set<string> := {
    "en", "fr", "de", "jp", "it", "pt", "es", "ru", "ko", "zh", "ja", "nl", "cn", "cs", "ct", "sp", "ph",
    "ai", "ft", "not", "for", "sale", "proxy", "proxies", "custom", "unofficial",
    "fan", "content", "card", "cards", "cardconjurer", "mpcautofill", "com",
    "mtg", "mtgx", "ndp", "playtest", "org", "organized", "play", "only",
    "casual", "use", "midjourney", "midiourney", "invalidcards",
    "unknown", "cemodens", "noxproxy", "nox", "polite", "frog", "proxycard",
    "the", "and", "with", "from", "into", "onto", "then", "when", "after", "before"
  }

  // ----- candidate windows -----

  function TrimDotsLeft(s: string): string { if s != "" && s[0] == '.' then TrimDotsLeft(s[1..]) else s }

  function TrimDotsRight(s: string): string {
    if s != "" && s[|s| - 1] == '.' then TrimDotsRight(s[..|s| - 1]) else s
  }

  predicate Stopword(token: string) { TrimDotsRight(TrimDotsLeft(LowerText(token))) in CANDIDATE_STOPWORDS }

  function Join(words: seq<string>): string {
    if words == [] then "" else if |words| == 1 then words[0] else words[0] + " " + Join(words[1..])
  }

  datatype Window = Window(text: string, wordCount: nat, truncationEligible: bool)

  /** Nothing but structural tokens or glyph garble directly left of `start`. */
  predicate WholeTail(tokens: seq<string>, start: nat)
    requires start <= |tokens|
  {
    start == 0 || Stopword(tokens[start - 1]) || |tokens[start - 1]| <= MAX_DROPPABLE_PREFIX_LEN
  }

  predicate Admissible(tokens: seq<string>, start: nat, width: nat) {
    && 1 <= width <= MAX_CANDIDATE_WORDS && start + width <= |tokens|
    && forall i :: start <= i < start + width ==> !Stopword(tokens[i])
  }

  function WindowAt(tokens: seq<string>, start: nat, width: nat): Window
    requires start + width <= |tokens|
  {
    Window(Join(tokens[start..start + width]), width, start + width == |tokens| && WholeTail(tokens, start))
  }

  /** The windows of one width, from `start` on. */
  function WindowsFrom(tokens: seq<string>, width: nat, start: nat): seq<Window>
    decreases |tokens| - start
  {
    if start + width > |tokens| || start >= |tokens| then []
    else (if Admissible(tokens, start, width) then [WindowAt(tokens, start, width)] else []) + WindowsFrom(tokens, width, start + 1)
  }

  /** The windows up to a width, narrow ones first. */
  function WindowsUpTo(tokens: seq<string>, width: nat): seq<Window> {
    if width == 0 then [] else WindowsUpTo(tokens, width - 1) + WindowsFrom(tokens, width, 0)
  }

  function Windows(tokens: seq<string>): seq<Window> { WindowsUpTo(tokens, MAX_CANDIDATE_WORDS) }

  method CandidateWindows(tokens: seq<string>) returns (windows: seq<Window>)
    ensures windows == Windows(tokens)
  {
    windows := [];
    var total := |tokens|;
    for width := 1 to MAX_CANDIDATE_WORDS + 1
      invariant windows == WindowsUpTo(tokens, width - 1)
    {
      var start := 0;
      while start + width <= total
        invariant 0 <= start && windows + WindowsFrom(tokens, width, start) == WindowsUpTo(tokens, width)
        decreases total - start
      {
        var words := tokens[start..start + width];
        ghost var rest := WindowsFrom(tokens, width, start + 1);
        var stopped := exists w | w in words :: Stopword(w);
        StoppedMeansInadmissible(tokens, start, width);
        if !stopped {
          var window := Window(Join(words), width, start + width == total && WholeTail(tokens, start));
          assert windows + ([window] + rest) == windows + [window] + rest;
          windows := windows + [window];
        } else {
          assert [] + rest == rest;
        }
        start := start + 1;
      }
      assert windows + [] == windows;
    }
  }

  lemma StoppedMeansInadmissible(tokens: seq<string>, start: nat, width: nat)
    requires 1 <= width <= MAX_CANDIDATE_WORDS && start + width <= |tokens|
    ensures Admissible(tokens, start, width) <==> forall w :: w in tokens[start..start + width] ==> !Stopword(w)
  {
    if forall w :: w in tokens[start..start + width] ==> !Stopword(w) {
      forall i | start <= i < start + width ensures !Stopword(tokens[i]) {
        assert tokens[start..start + width][i - start] == tokens[i];
      }
    }
  }

  lemma {:induction false} WindowsFromExact(tokens: seq<string>, width: nat, start: nat)
    ensures forall w :: w in WindowsFrom(tokens, width, start) <==>
              exists s: nat :: start <= s && Admissible(tokens, s, width) && w == WindowAt(tokens, s, width)
    decreases |tokens| - start
  {
    if start + width <= |tokens| && start < |tokens| {
      WindowsFromExact(tokens, width, start + 1);
    }
  }

  lemma {:induction false} WindowsUpToExact(tokens: seq<string>, width: nat)
    ensures forall w :: w in WindowsUpTo(tokens, width) <==>
              exists s: nat, n: nat :: n <= width && Admissible(tokens, s, n) && w == WindowAt(tokens, s, n)
  {
    if width > 0 {
      WindowsUpToExact(tokens, width - 1);
      WindowsFromExact(tokens, width, 0);
    }
  }

  /** The windows of a line are its stopword-free stretches of one to four words. */
  lemma WindowOfLine(tokens: seq<string>, w: Window) returns (start: nat)
    requires w in Windows(tokens)
    ensures Admissible(tokens, start, w.wordCount) && w == WindowAt(tokens, start, w.wordCount)
  {
    WindowsUpToExact(tokens, MAX_CANDIDATE_WORDS);
    var s: nat, n: nat :| n <= MAX_CANDIDATE_WORDS && Admissible(tokens, s, n) && w == WindowAt(tokens, s, n);
    start := s;
  }

  lemma EveryStretchIsAWindow(tokens: seq<string>, start: nat, width: nat)
    requires Admissible(tokens, start, width)
    ensures WindowAt(tokens, start, width) in Windows(tokens)
  {
    WindowsUpToExact(tokens, MAX_CANDIDATE_WORDS);
  }

  // ----- the lexicon -----

  datatype Entry = Entry(name: string, normalized: string)
  datatype ArtistLexicon = ArtistLexicon(names: seq<string>, byFirst: map<char, seq<Entry>>) {

    function PoolFor(normalized: string): seq<Entry> {
      if normalized == "" || normalized[0] !in byFirst then [] else byFirst[normalized[0]]
    }
  }

  /** The names that belong in one bucket, in order. */
  function Bucket(names: seq<string>, c: char): seq<Entry> {
    if names == [] then []
    else
      var name := names[|names| - 1];
      Bucket(names[..|names| - 1], c) +
      if Normalize(name) != "" && Normalize(name)[0] == c then [Entry(name, Normalize(name))] else []
  }

  function BucketIn(byFirst: map<char, seq<Entry>>, c: char): seq<Entry> { if c in byFirst then byFirst[c] else [] }

  ghost predicate Bucketed(byFirst: map<char, seq<Entry>>, names: seq<string>) {
    forall c :: BucketIn(byFirst, c) == Bucket(names, c)
  }

  ghost predicate Built(lexicon: ArtistLexicon) { Bucketed(lexicon.byFirst, lexicon.names) }

  /** One name goes at the end of its own bucket; one that normalizes to nothing goes nowhere. */
  function AddName(byFirst: map<char, seq<Entry>>, name: string): map<char, seq<Entry>> {
    var normalized := Normalize(name);
    if normalized == "" then byFirst
    else byFirst[normalized[0] := BucketIn(byFirst, normalized[0]) + [Entry(name, normalized)]]
  }

  lemma AddedNameBucketed(byFirst: map<char, seq<Entry>>, names: seq<string>, name: string)
    requires Bucketed(byFirst, names)
    ensures Bucketed(AddName(byFirst, name), names + [name])
  {
    assert (names + [name])[..|names|] == names;
    forall c ensures BucketIn(AddName(byFirst, name), c) == Bucket(names + [name], c) {
      assert BucketIn(byFirst, c) == Bucket(names, c) && Bucket(names, c) + [] == Bucket(names, c);
    }
  }

  method BuildArtistLexicon(names: seq<string>) returns (lexicon: ArtistLexicon)
    ensures lexicon.names == names && Built(lexicon)
  {
    var byFirst: map<char, seq<Entry>> := map[];
    for i := 0 to |names|
      invariant Bucketed(byFirst, names[..i])
    {
      AddedNameBucketed(byFirst, names[..i], names[i]);
      assert names[..i + 1] == names[..i] + [names[i]];
      byFirst := AddName(byFirst, names[i]);
    }
    assert names[..|names|] == names;
    lexicon := ArtistLexicon(names, byFirst);
  }

  lemma {:induction false} BucketExact(names: seq<string>, c: char)
    ensures forall e :: e in Bucket(names, c) <==>
              e.name in names && e.normalized == Normalize(e.name) && e.normalized != "" && e.normalized[0] == c
  {
    if names != [] {
      BucketExact(names[..|names| - 1], c);
      assert names == names[..|names| - 1] + [names[|names| - 1]];
    }
  }

  lemma PoolExact(lexicon: ArtistLexicon, normalized: string)
    requires Built(lexicon) && normalized != ""
    ensures forall e :: e in lexicon.PoolFor(normalized) <==>
              e.name in lexicon.names && e.normalized == Normalize(e.name) && e.normalized != "" && e.normalized[0] == normalized[0]
  {
    BucketExact(lexicon.names, normalized[0]);
  }

  // ----- scoring one window -----

  type Similarity = (string, string) -> real

  ghost predicate IsRatio(ratio: Similarity) {
    && (forall a, b :: 0.0 <= ratio(a, b) <= 1.0)
    && (forall a :: ratio(a, a) == 1.0)
  }

  datatype Hit = Hit(ratio: real, floor: real, name: string)

  /** An entry longer than the candidate is only tried in truncated mode. */
  predicate Tried(normalized: string, eligible: bool, e: Entry) {
    |e.normalized| <= |normalized| || (eligible && |normalized| >= MIN_TRUNCATED_LETTERS)
  }

  function Score(ratio: Similarity, normalized: string, wordCount: nat, e: Entry): Hit {
    if |e.normalized| > |normalized| then Hit(ratio(normalized, e.normalized[..|normalized|]), MIN_RATIO_TRUNCATED, e.name)
    else
      Hit(ratio(normalized, e.normalized),
          if wordCount == 1 then MIN_RATIO_FULL_SINGLE_WORD else MIN_RATIO_FULL_MULTI_WORD, e.name)
  }

  function Hits(ratio: Similarity, normalized: string, w: Window, pool: seq<Entry>): seq<Hit> {
    if pool == [] then []
    else
      Hits(ratio, normalized, w, pool[..|pool| - 1]) +
      (var e := pool[|pool| - 1];
       if Tried(normalized, w.truncationEligible, e) then [Score(ratio, normalized, w.wordCount, e)] else [])
  }

  datatype Top = Top(ratio: real, floor: real)

  /** The loop's running maximum; the floor is that of the first hit to reach it. */
  function TopOf(hits: seq<Hit>): Top {
    if hits == [] then Top(0.0, 1.0)
    else
      var before, h := TopOf(hits[..|hits| - 1]), hits[|hits| - 1];
      if h.ratio > before.ratio then Top(h.ratio, h.floor) else before
  }

  function NamesInBand(hits: seq<Hit>, top: real): seq<string> {
    if hits == [] then []
    else
      NamesInBand(hits[..|hits| - 1], top) +
      if hits[|hits| - 1].ratio >= top - COMPATIBLE_BAND then [hits[|hits| - 1].name] else []
  }

  function Allowed(names: seq<string>, allowed: set<string>): seq<string> {
    if names == [] then [] else (if Normalize(names[0]) in allowed then [names[0]] else []) + Allowed(names[1..], allowed)
  }

  /** The card-name narrowing: an intersection, unless that is empty or nothing was supplied. */
  function Narrow(band: seq<string>, allowed: Option<set<string>>): seq<string> {
    if allowed.None? || allowed.value == {} || Allowed(band, allowed.value) == [] then band else Allowed(band, allowed.value)
  }

  /** The band of plausible names, or None when the best one misses its bar. */
  function Band(ratio: Similarity, w: Window, lexicon: ArtistLexicon): Option<seq<string>> {
    var normalized := Normalize(w.text);
    if |normalized| < MIN_CANDIDATE_LETTERS then None
    else
      var hits := Hits(ratio, normalized, w, lexicon.PoolFor(normalized));
      var top := TopOf(hits);
      if hits == [] || top.ratio < top.floor then None
      else Some(Sort(NamesInBand(hits, top.ratio), StringLeq))
  }

  function TopRatio(ratio: Similarity, w: Window, lexicon: ArtistLexicon): real {
    TopOf(Hits(ratio, Normalize(w.text), w, lexicon.PoolFor(Normalize(w.text)))).ratio
  }

  datatype Reading = Reading(ratio: real, names: seq<string>, length: nat)

  /** What a window reads as: its band, narrowed, unless too many names are left. */
  function Read(ratio: Similarity, w: Window, lexicon: ArtistLexicon, allowed: Option<set<string>>): Option<Reading> {
    var band := Band(ratio, w, lexicon);
    if band.None? || |Narrow(band.value, allowed)| > MAX_COMPATIBLE then None
    else Some(Reading(TopRatio(ratio, w, lexicon), Narrow(band.value, allowed), |Normalize(w.text)|))
  }

  /** The loop over the entries that share the candidate's first character. */
  method ScorePool(ratio: Similarity, normalized: string, w: Window, pool: seq<Entry>)
    returns (scored: seq<Hit>, topRatio: real, topFloor: real)
    ensures scored == Hits(ratio, normalized, w, pool) && Top(topRatio, topFloor) == TopOf(scored)
  {
    scored, topRatio, topFloor := [], 0.0, 1.0;
    for i := 0 to |pool|
      invariant scored == Hits(ratio, normalized, w, pool[..i]) && Top(topRatio, topFloor) == TopOf(scored)
    {
      assert pool[..i + 1][..i] == pool[..i];
      var entry := pool[i];
      var similarity, floor;
      if |entry.normalized| > |normalized| {
        if !w.truncationEligible || |normalized| < MIN_TRUNCATED_LETTERS {
          continue;
        }
        similarity, floor := ratio(normalized, entry.normalized[..|normalized|]), MIN_RATIO_TRUNCATED;
      } else {
        similarity := ratio(normalized, entry.normalized);
        floor := if w.wordCount == 1 then MIN_RATIO_FULL_SINGLE_WORD else MIN_RATIO_FULL_MULTI_WORD;
      }
      assert (scored + [Hit(similarity, floor, entry.name)])[..|scored|] == scored;
      scored := scored + [Hit(similarity, floor, entry.name)];
      if similarity > topRatio {
        topRatio, topFloor := similarity, floor;
      }
    }
    assert pool[..|pool|] == pool;
  }

  method ScoreCandidate(ratio: Similarity, w: Window, lexicon: ArtistLexicon, allowed: Option<set<string>>)
    returns (r: Option<Reading>)
    ensures r == Read(ratio, w, lexicon, allowed)
  {
    var normalized := Normalize(w.text);
    if |normalized| < MIN_CANDIDATE_LETTERS {
      return None;
    }
    var scored, topRatio, topFloor := ScorePool(ratio, normalized, w, lexicon.PoolFor(normalized));
    if scored == [] || topRatio < topFloor {
      return None;
    }
    var compatible := Sort(NamesInBand(scored, topRatio), StringLeq);
    compatible := Narrow(compatible, allowed);
    if |compatible| > MAX_COMPATIBLE {
      return None;
    }
    return Some(Reading(topRatio, compatible, |normalized|));
  }

  // ----- the best reading of a text -----

  /** The ranking key: ratio first, then length. */
  predicate Beats(a: Reading, b: Reading) { a.ratio > b.ratio || (a.ratio == b.ratio && a.length > b.length) }

  type WindowReader = Window -> Option<Reading>

  function Reader(ratio: Similarity, lexicon: ArtistLexicon, allowed: Option<set<string>>): WindowReader {
    w => Read(ratio, w, lexicon, allowed)
  }

  datatype Best = Best(window: Window, reading: Reading)

  /** The later one only on a strictly better key. */
  function Merge(a: Option<Best>, b: Option<Best>): Option<Best> {
    if b.Some? && (a.None? || Beats(b.value.reading, a.value.reading)) then b else a
  }

  function One(w: Window, r: Option<Reading>): Option<Best> { if r.None? then None else Some(Best(w, r.value)) }

  /** The scan: a later reading replaces the best so far only with a strictly better key. */
  function BestOf(read: WindowReader, ws: seq<Window>): Option<Best> {
    if ws == [] then None
    else
      var last := ws[|ws| - 1];
      Merge(BestOf(read, ws[..|ws| - 1]), One(last, read(last)))
  }

  lemma BestStep(read: WindowReader, ws: seq<Window>, w: Window)
    ensures BestOf(read, ws + [w]) == Merge(BestOf(read, ws), One(w, read(w)))
  {
    assert (ws + [w])[..|ws|] == ws;
  }

  lemma {:induction false} BestAppend(read: WindowReader, a: seq<Window>, b: seq<Window>)
    ensures BestOf(read, a + b) == Merge(BestOf(read, a), BestOf(read, b))
    decreases |b|
  {
    if b == [] {
      assert a + b == a;
    } else {
      var front, last := b[..|b| - 1], b[|b| - 1];
      BestAppend(read, a, front);
      assert front + [last] == b && a + front + [last] == a + b;
      BestStep(read, front, last);
      BestStep(read, a + front, last);
      MergeAssociative(BestOf(read, a), BestOf(read, front), One(last, read(last)));
    }
  }

  lemma MergeAssociative(a: Option<Best>, b: Option<Best>, c: Option<Best>)
    ensures Merge(Merge(a, b), c) == Merge(a, Merge(b, c))
  {
  }

  /** `truncation_eligible and truncation_allowed` */
  function MaskOne(w: Window, truncationAllowed: bool): Window {
    w.(truncationEligible := w.truncationEligible && truncationAllowed)
  }

  function Mask(ws: seq<Window>, truncationAllowed: bool): seq<Window> {
    if ws == [] then []
    else
      Mask(ws[..|ws| - 1], truncationAllowed) + [MaskOne(ws[|ws| - 1], truncationAllowed)]
  }

  function TextWindows(lines: seq<seq<string>>, truncationAllowed: bool): seq<Window> {
    if lines == [] then []
    else TextWindows(lines[..|lines| - 1], truncationAllowed) + Mask(Windows(lines[|lines| - 1]), truncationAllowed)
  }

  function Recovered(best: Option<Best>): Option<RecoveredArtist> {
    if best.None? then None
    else Some(RecoveredArtist(best.value.window.text, best.value.reading.ratio, best.value.reading.names))
  }

  method BestReading(ratio: Similarity, lines: seq<seq<string>>, lexicon: ArtistLexicon, allowed: Option<set<string>>,
                     truncationAllowed: bool) returns (best: Option<Best>)
    ensures best == BestOf(Reader(ratio, lexicon, allowed), TextWindows(lines, truncationAllowed))
  {
    best := None;
    for i := 0 to |lines|
      invariant best == BestOf(Reader(ratio, lexicon, allowed), TextWindows(lines[..i], truncationAllowed))
    {
      assert lines[..i + 1][..i] == lines[..i];
      var windows := CandidateWindows(lines[i]);
      best := ScanLine(ratio, windows, lexicon, allowed, truncationAllowed, best, TextWindows(lines[..i], truncationAllowed));
    }
    assert lines[..|lines|] == lines;
  }

  /** The inner loop, over the windows of one line. */
  method ScanLine(ratio: Similarity, windows: seq<Window>, lexicon: ArtistLexicon, allowed: Option<set<string>>,
                  truncationAllowed: bool, before: Option<Best>, ghost earlier: seq<Window>) returns (best: Option<Best>)
    requires before == BestOf(Reader(ratio, lexicon, allowed), earlier)
    ensures best == BestOf(Reader(ratio, lexicon, allowed), earlier + Mask(windows, truncationAllowed))
  {
    best := before;
    assert earlier + Mask([], truncationAllowed) == earlier;
    for j := 0 to |windows|
      invariant best == BestOf(Reader(ratio, lexicon, allowed), earlier + Mask(windows[..j], truncationAllowed))
    {
      assert windows[..j + 1][..j] == windows[..j];
      var w := MaskOne(windows[j], truncationAllowed);
      var scored := ScoreCandidate(ratio, w, lexicon, allowed);
      BestStep(Reader(ratio, lexicon, allowed), earlier + Mask(windows[..j], truncationAllowed), w);
      assert earlier + Mask(windows[..j + 1], truncationAllowed) == earlier + Mask(windows[..j], truncationAllowed) + [w];
      if scored.Some? && (best.None? || Beats(scored.value, best.value.reading)) {
        best := Some(Best(w, scored.value));
      }
    }
    assert windows[..|windows|] == windows;
  }

  /** _normalized_allowed: nothing usable means no narrowing. */
  function NormalizedAllowed(names: Option<seq<string>>): Option<set<string>> {
    if names.None? then None
    else
      var normalized := (set n | n in names.value && n != "" :: Normalize(n)) - {""};
      if normalized == {} then None else Some(normalized)
  }

  /** Everything recover_artist_from_card_text looks at: the legal line without truncation, then the
      collector line with it. */
  function CardWindows(collector: seq<seq<string>>, legal: seq<seq<string>>): seq<Window> {
    TextWindows(legal, false) + TextWindows(collector, true)
  }

  method RecoverFromCardText(ratio: Similarity, collector: seq<seq<string>>, legal: seq<seq<string>>, lexicon: ArtistLexicon,
                             allowedNames: Option<seq<string>>) returns (r: Option<RecoveredArtist>)
    ensures r == Recovered(BestOf(Reader(ratio, lexicon, NormalizedAllowed(allowedNames)), CardWindows(collector, legal)))
  {
    var allowed := NormalizedAllowed(allowedNames);
    var legalReading := BestReading(ratio, legal, lexicon, allowed, false);
    var collectorReading := BestReading(ratio, collector, lexicon, allowed, true);
    var readings := [legalReading, collectorReading];
    var best: Option<Best> := None;
    for i := 0 to 2
      invariant i == 0 ==> best == None
      invariant i == 1 ==> best == legalReading
      invariant i == 2 ==> best == Merge(legalReading, collectorReading)
    {
      if readings[i].Some? && (best.None? || Beats(readings[i].value.reading, best.value.reading)) {
        best := readings[i];
      }
    }
    BestAppend(Reader(ratio, lexicon, allowed), TextWindows(legal, false), TextWindows(collector, true));
    return Recovered(best);
  }

  // ----- what the best reading is -----

  /** Window `i` reads, no reading beats it, and it beats everything before it. */
  ghost predicate Wins(read: WindowReader, ws: seq<Window>, i: nat) {
    && i < |ws| && read(ws[i]).Some?
    && (forall j :: 0 <= j < |ws| && read(ws[j]).Some? ==> !Beats(read(ws[j]).value, read(ws[i]).value))
    && (forall j :: 0 <= j < i && read(ws[j]).Some? ==> Beats(read(ws[i]).value, read(ws[j]).value))
  }

  /** The best reading is the lexicographic maximum of (ratio, length), the earliest on a tie, and there
      is none exactly when no window reads. */
  lemma {:induction false} BestIsFirstMaximum(read: WindowReader, ws: seq<Window>) returns (i: nat)
    ensures if forall w :: w in ws ==> read(w).None? then BestOf(read, ws).None?
            else Wins(read, ws, i) && BestOf(read, ws) == One(ws[i], read(ws[i]))
  {
    i := 0;
    if ws != [] {
      var front, last := ws[..|ws| - 1], ws[|ws| - 1];
      i := BestIsFirstMaximum(read, front);
      assert ws == front + [last];
      if BestOf(read, front).None? {
        assert forall j :: 0 <= j < |front| ==> ws[j] in front;
        i := |front|;
      } else {
        assert ws[i] in ws && Wins(read, front, i);
        i := WinnerAfterOneMore(read, front, last, i);
      }
    }
  }

  lemma WinnerAfterOneMore(read: WindowReader, front: seq<Window>, last: Window, i: nat) returns (k: nat)
    requires Wins(read, front, i)
    ensures Wins(read, front + [last], k)
    ensures k == if read(last).Some? && Beats(read(last).value, read(front[i]).value) then |front| else i
  {
    k := if read(last).Some? && Beats(read(last).value, read(front[i]).value) then |front| else i;
  }

  lemma OnlyOneWins(read: WindowReader, ws: seq<Window>, i: nat)
    requires Wins(read, ws, i)
    ensures BestOf(read, ws) == One(ws[i], read(ws[i]))
  {
    var k := BestIsFirstMaximum(read, ws);
    assert ws[i] in ws;
  }

  // ----- what a band holds -----

  lemma {:induction false} HitsExact(ratio: Similarity, normalized: string, w: Window, pool: seq<Entry>)
    ensures forall h :: h in Hits(ratio, normalized, w, pool) <==>
              exists e :: e in pool && Tried(normalized, w.truncationEligible, e) && h == Score(ratio, normalized, w.wordCount, e)
  {
    if pool != [] {
      HitsExact(ratio, normalized, w, pool[..|pool| - 1]);
      assert pool == pool[..|pool| - 1] + [pool[|pool| - 1]];
    }
  }

  lemma {:induction false} NamesInBandExact(hits: seq<Hit>, top: real)
    ensures forall n :: n in NamesInBand(hits, top) <==> exists h :: h in hits && h.name == n && h.ratio >= top - COMPATIBLE_BAND
  {
    if hits != [] {
      NamesInBandExact(hits[..|hits| - 1], top);
      assert hits == hits[..|hits| - 1] + [hits[|hits| - 1]];
    }
  }

  /** The top is the greatest ratio, and its floor is the first one that reaches it. */
  lemma {:induction false} TopIsFirstMaximum(hits: seq<Hit>)
    ensures forall h :: h in hits ==> h.ratio <= TopOf(hits).ratio
    ensures TopOf(hits).ratio > 0.0 ==> exists i :: 0 <= i < |hits| && TopOf(hits) == Top(hits[i].ratio, hits[i].floor)
                                                    && forall j :: 0 <= j < i ==> hits[j].ratio < hits[i].ratio
    ensures TopOf(hits).ratio <= 0.0 ==> TopOf(hits) == Top(0.0, 1.0)
  {
    if hits != [] {
      var front := hits[..|hits| - 1];
      TopIsFirstMaximum(front);
      assert hits == front + [hits[|hits| - 1]];
      assert forall j :: 0 <= j < |front| ==> hits[j] in front;
    }
  }

  /** A name the window is compared with: same first character, in a mode the window may use. */
  predicate Comparable(w: Window, name: string) {
    var normalized := Normalize(w.text);
    && normalized != "" && Normalize(name) != "" && Normalize(name)[0] == normalized[0]
    && (|Normalize(name)| > |normalized| ==> w.truncationEligible && |normalized| >= MIN_TRUNCATED_LETTERS)
  }

  function RatioOf(ratio: Similarity, w: Window, name: string): real {
    Score(ratio, Normalize(w.text), w.wordCount, Entry(name, Normalize(name))).ratio
  }

  lemma HitNames(ratio: Similarity, w: Window, lexicon: ArtistLexicon)
    requires Built(lexicon) && Normalize(w.text) != ""
    ensures var hits := Hits(ratio, Normalize(w.text), w, lexicon.PoolFor(Normalize(w.text)));
            && (forall h :: h in hits ==> h.name in lexicon.names && Comparable(w, h.name) && h.ratio == RatioOf(ratio, w, h.name))
            && (forall n :: n in lexicon.names && Comparable(w, n) ==>
                  Score(ratio, Normalize(w.text), w.wordCount, Entry(n, Normalize(n))) in hits)
  {
    var normalized := Normalize(w.text);
    PoolExact(lexicon, normalized);
    HitsExact(ratio, normalized, w, lexicon.PoolFor(normalized));
    forall n | n in lexicon.names && Comparable(w, n)
      ensures Score(ratio, normalized, w.wordCount, Entry(n, Normalize(n))) in Hits(ratio, normalized, w, lexicon.PoolFor(normalized)) {
      assert Entry(n, Normalize(n)) in lexicon.PoolFor(normalized);
    }
  }

  /** A band holds exactly the comparable lexicon names whose ratio is within the band of the best one,
      and that best ratio is the greatest of them all. */
  lemma BandExact(ratio: Similarity, w: Window, lexicon: ArtistLexicon)
    requires Built(lexicon) && Band(ratio, w, lexicon).Some?
    ensures |Normalize(w.text)| >= MIN_CANDIDATE_LETTERS
    ensures forall n :: n in Band(ratio, w, lexicon).value <==>
              n in lexicon.names && Comparable(w, n) && RatioOf(ratio, w, n) >= TopRatio(ratio, w, lexicon) - COMPATIBLE_BAND
    ensures forall n :: n in lexicon.names && Comparable(w, n) ==> RatioOf(ratio, w, n) <= TopRatio(ratio, w, lexicon)
  {
    TopIsGreatest(ratio, w, lexicon);
    forall n ensures n in Band(ratio, w, lexicon).value <==>
                       n in lexicon.names && Comparable(w, n) && RatioOf(ratio, w, n) >= TopRatio(ratio, w, lexicon) - COMPATIBLE_BAND {
      BandName(ratio, w, lexicon, n);
    }
  }

  lemma BandName(ratio: Similarity, w: Window, lexicon: ArtistLexicon, n: string)
    requires Built(lexicon) && Band(ratio, w, lexicon).Some?
    ensures n in Band(ratio, w, lexicon).value <==>
              n in lexicon.names && Comparable(w, n) && RatioOf(ratio, w, n) >= TopRatio(ratio, w, lexicon) - COMPATIBLE_BAND
  {
    HitNames(ratio, w, lexicon);
    BandOfHits(ratio, w, lexicon);
    var hits := Hits(ratio, Normalize(w.text), w, lexicon.PoolFor(Normalize(w.text)));
    if n in Band(ratio, w, lexicon).value {
      var h :| h in hits && h.name == n && h.ratio >= TopRatio(ratio, w, lexicon) - COMPATIBLE_BAND;
    } else if n in lexicon.names && Comparable(w, n) {
      assert Score(ratio, Normalize(w.text), w.wordCount, Entry(n, Normalize(n))) in hits;
    }
  }

  lemma TopIsGreatest(ratio: Similarity, w: Window, lexicon: ArtistLexicon)
    requires Built(lexicon) && Normalize(w.text) != ""
    ensures forall n :: n in lexicon.names && Comparable(w, n) ==> RatioOf(ratio, w, n) <= TopRatio(ratio, w, lexicon)
  {
    HitNames(ratio, w, lexicon);
    TopIsFirstMaximum(Hits(ratio, Normalize(w.text), w, lexicon.PoolFor(Normalize(w.text))));
  }

  lemma BandOfHits(ratio: Similarity, w: Window, lexicon: ArtistLexicon)
    requires Band(ratio, w, lexicon).Some?
    ensures var hits := Hits(ratio, Normalize(w.text), w, lexicon.PoolFor(Normalize(w.text)));
            forall n :: n in Band(ratio, w, lexicon).value <==>
                        exists h :: h in hits && h.name == n && h.ratio >= TopRatio(ratio, w, lexicon) - COMPATIBLE_BAND
  {
    var hits := Hits(ratio, Normalize(w.text), w, lexicon.PoolFor(Normalize(w.text)));
    NamesInBandExact(hits, TopOf(hits).ratio);
    SortContents(NamesInBand(hits, TopOf(hits).ratio), StringLeq);
  }

  lemma {:induction false} AllowedExact(names: seq<string>, allowed: set<string>)
    ensures forall n :: n in Allowed(names, allowed) <==> n in names && Normalize(n) in allowed
    ensures |Allowed(names, allowed)| <= |names|
  {
    if names != [] {
      AllowedExact(names[1..], allowed);
      assert names == [names[0]] + names[1..];
    }
  }

  lemma NarrowShrinks(band: seq<string>, allowed: Option<set<string>>)
    ensures |Narrow(band, allowed)| <= |band| && (forall n :: n in Narrow(band, allowed) ==> n in band)
    ensures band != [] ==> Narrow(band, allowed) != []
  {
    if allowed.Some? {
      AllowedExact(band, allowed.value);
    }
  }

  predicate LongerThan(name: string, w: Window) { |Normalize(name)| > |Normalize(w.text)| }

  lemma BestWindow(read: WindowReader, ws: seq<Window>)
    requires BestOf(read, ws).Some?
    ensures BestOf(read, ws).value.window in ws && read(BestOf(read, ws).value.window) == Some(BestOf(read, ws).value.reading)
  {
    var i := BestIsFirstMaximum(read, ws);
    assert ws[i] in ws;
  }

  /** A name in one window's reading. */
  lemma ReadNames(ratio: Similarity, w: Window, lexicon: ArtistLexicon, allowed: Option<set<string>>, name: string)
    requires Built(lexicon)
    requires var r := Read(ratio, w, lexicon, allowed); r.Some? && name in r.value.names
    ensures name in lexicon.names && Comparable(w, name)
  {
    BandExact(ratio, w, lexicon);
    NarrowShrinks(Band(ratio, w, lexicon).value, allowed);
  }

  /** A name in the best reading of a text. */
  lemma BestNames(ratio: Similarity, ws: seq<Window>, lexicon: ArtistLexicon, allowed: Option<set<string>>, name: string)
    requires Built(lexicon)
    requires var best := BestOf(Reader(ratio, lexicon, allowed), ws); best.Some? && name in best.value.reading.names
    ensures var w := BestOf(Reader(ratio, lexicon, allowed), ws).value.window;
            && w in ws && name in lexicon.names && Normalize(name) != ""
            && (LongerThan(name, w) ==> w.truncationEligible && |Normalize(w.text)| >= MIN_TRUNCATED_LETTERS)
  {
    BestWindow(Reader(ratio, lexicon, allowed), ws);
    ReadNames(ratio, BestOf(Reader(ratio, lexicon, allowed), ws).value.window, lexicon, allowed, name);
  }

  /** Storage is never fuzzy: a canonical name, when there is one, is a lexicon entry verbatim. */
  lemma RecoveredNamesAreLexiconNames(ratio: Similarity, ws: seq<Window>, lexicon: ArtistLexicon, allowed: Option<set<string>>)
    requires Built(lexicon)
    ensures var r := Recovered(BestOf(Reader(ratio, lexicon, allowed), ws));
            r.Some? ==> (forall n :: n in r.value.compatibleNames ==> n in lexicon.names && Normalize(n) != "")
                        && (r.value.HasCanonicalName() ==> r.value.CanonicalName() in lexicon.names)
  {
    var best := BestOf(Reader(ratio, lexicon, allowed), ws);
    if best.Some? {
      forall n | n in best.value.reading.names ensures n in lexicon.names && Normalize(n) != "" {
        BestNames(ratio, ws, lexicon, allowed, n);
      }
    }
  }

  /** The contradiction test on a recovered reading: the credit itself or one of its components must be
      read, and a component that normalizes to nothing never decides it. */
  lemma RecoveredCompatibility(ratio: Similarity, ws: seq<Window>, lexicon: ArtistLexicon, allowed: Option<set<string>>, artist: string)
    requires Built(lexicon) && artist != "" && BestOf(Reader(ratio, lexicon, allowed), ws).Some?
    ensures var r := Recovered(BestOf(Reader(ratio, lexicon, allowed), ws)).value;
            r.IsCompatibleWith(artist) <==>
              (Normalize(artist) != "" && Normalize(artist) in NormalForms(r.compatibleNames))
              || exists c :: c in JointComponents(artist) && Normalize(c) != "" && Normalize(c) in NormalForms(r.compatibleNames)
  {
    RecoveredNamesAreLexiconNames(ratio, ws, lexicon, allowed);
    EmptyComponentNeverMatches(Recovered(BestOf(Reader(ratio, lexicon, allowed), ws)).value, artist);
  }

  // ----- card-name narrowing -----

  /** One window: narrowing keeps ratio and length, only takes names away, and never abstains where
      the full lexicon reads; where it reads and the full lexicon does not, the band was over the cap. */
  lemma NarrowingOneWindow(ratio: Similarity, w: Window, lexicon: ArtistLexicon, allowed: Option<set<string>>)
    ensures var full, narrowed := Read(ratio, w, lexicon, None), Read(ratio, w, lexicon, allowed);
            && (full.Some? ==> narrowed.Some? && narrowed.value.ratio == full.value.ratio && narrowed.value.length == full.value.length
                               && forall n :: n in narrowed.value.names ==> n in full.value.names)
            && (narrowed.Some? ==> Band(ratio, w, lexicon).Some?
                                   && (forall n :: n in narrowed.value.names ==> n in Band(ratio, w, lexicon).value)
                                   && (full.None? <==> |Band(ratio, w, lexicon).value| > MAX_COMPATIBLE))
  {
    var band := Band(ratio, w, lexicon);
    if band.Some? {
      NarrowShrinks(band.value, allowed);
    }
  }

  /** A whole text: wherever the full lexicon recovers something, so does the narrowed read, with a key
      at least as good. */
  lemma NarrowingNeverLoses(ratio: Similarity, ws: seq<Window>, lexicon: ArtistLexicon, allowed: Option<set<string>>)
    ensures var full, narrowed := BestOf(Reader(ratio, lexicon, None), ws), BestOf(Reader(ratio, lexicon, allowed), ws);
            full.Some? ==> narrowed.Some? && !Beats(full.value.reading, narrowed.value.reading)
  {
    var full, narrowed := Reader(ratio, lexicon, None), Reader(ratio, lexicon, allowed);
    if BestOf(full, ws).Some? {
      BestWindow(full, ws);
      NarrowingOneWindow(ratio, BestOf(full, ws).value.window, lexicon, allowed);
      var k := BestIsFirstMaximum(narrowed, ws);
    }
  }

  predicate SameKey(a: Reading, b: Reading) { a.ratio == b.ratio && a.length == b.length }

  /** Where a reader only gains readings, a winner also wins without the gain exactly if it was there. */
  lemma WinnerAmongFewer(fewer: WindowReader, more: WindowReader, ws: seq<Window>, i: nat)
    requires Wins(more, ws, i)
    requires forall j :: 0 <= j < |ws| && fewer(ws[j]).Some? ==> more(ws[j]).Some? && SameKey(fewer(ws[j]).value, more(ws[j]).value)
    ensures Wins(fewer, ws, i) <==> fewer(ws[i]).Some?
  {
  }

  /** Whether narrowing changes which read wins: the narrowed winner is the full lexicon's winner if and
      only if its own band is within the cap. */
  lemma NarrowingKeepsWinnerIff(ratio: Similarity, ws: seq<Window>, lexicon: ArtistLexicon, allowed: Option<set<string>>, i: nat)
    requires Wins(Reader(ratio, lexicon, allowed), ws, i)
    ensures Band(ratio, ws[i], lexicon).Some?
    ensures Wins(Reader(ratio, lexicon, None), ws, i) <==> |Band(ratio, ws[i], lexicon).value| <= MAX_COMPATIBLE
  {
    var full, narrowed := Reader(ratio, lexicon, None), Reader(ratio, lexicon, allowed);
    forall j | 0 <= j < |ws| && full(ws[j]).Some? ensures narrowed(ws[j]).Some? && SameKey(full(ws[j]).value, narrowed(ws[j]).value) {
      NarrowingOneWindow(ratio, ws[j], lexicon, allowed);
    }
    WinnerAmongFewer(full, narrowed, ws, i);
    NarrowingOneWindow(ratio, ws[i], lexicon, allowed);
  }

  /** Checked before the call: where no window's band is over the cap, narrowing leaves the winning window
      and its key alone. */
  lemma NarrowingKeepsReadBelowCap(ratio: Similarity, ws: seq<Window>, lexicon: ArtistLexicon, allowed: Option<set<string>>)
    requires forall w :: w in ws && Band(ratio, w, lexicon).Some? ==> |Band(ratio, w, lexicon).value| <= MAX_COMPATIBLE
    ensures var full, narrowed := BestOf(Reader(ratio, lexicon, None), ws), BestOf(Reader(ratio, lexicon, allowed), ws);
            && (full.None? <==> narrowed.None?)
            && (full.Some? ==> full.value.window == narrowed.value.window && SameKey(full.value.reading, narrowed.value.reading))
  {
    var full, narrowed := Reader(ratio, lexicon, None), Reader(ratio, lexicon, allowed);
    NarrowingNeverLoses(ratio, ws, lexicon, allowed);
    var i := BestIsFirstMaximum(narrowed, ws);
    if BestOf(narrowed, ws).Some? {
      NarrowingKeepsWinnerIff(ratio, ws, lexicon, allowed, i);
      assert ws[i] in ws;
      OnlyOneWins(full, ws, i);
      NarrowingOneWindow(ratio, ws[i], lexicon, allowed);
    }
  }

  // ----- the truncation guard -----

  lemma {:induction false} MaskExact(ws: seq<Window>, truncationAllowed: bool, w: Window)
    ensures w in Mask(ws, truncationAllowed) <==> exists v :: v in ws && w == MaskOne(v, truncationAllowed)
  {
    if ws != [] {
      MaskExact(ws[..|ws| - 1], truncationAllowed, w);
      assert ws == ws[..|ws| - 1] + [ws[|ws| - 1]];
    }
  }

  predicate StandsAt(w: Window, line: seq<string>, start: nat, truncationAllowed: bool) {
    Admissible(line, start, w.wordCount) && w == MaskOne(WindowAt(line, start, w.wordCount), truncationAllowed)
  }

  lemma WindowOfMaskedLine(line: seq<string>, truncationAllowed: bool, w: Window) returns (start: nat)
    requires w in Mask(Windows(line), truncationAllowed)
    ensures StandsAt(w, line, start, truncationAllowed)
  {
    MaskExact(Windows(line), truncationAllowed, w);
    var v :| v in Windows(line) && w == MaskOne(v, truncationAllowed);
    start := WindowOfLine(line, v);
  }

  /** Every window of a text stands somewhere on one of its lines. */
  lemma {:induction false} WindowOfText(lines: seq<seq<string>>, truncationAllowed: bool, w: Window) returns (line: seq<string>, start: nat)
    requires w in TextWindows(lines, truncationAllowed)
    ensures line in lines && StandsAt(w, line, start, truncationAllowed)
  {
    var front, last := lines[..|lines| - 1], lines[|lines| - 1];
    if w in TextWindows(front, truncationAllowed) {
      line, start := WindowOfText(front, truncationAllowed, w);
      assert line in lines;
    } else {
      line := last;
      start := WindowOfMaskedLine(last, truncationAllowed, w);
    }
  }

  /** A reading may name someone longer than the text it matched only from the clipped end of a
      collector line: with at least seven letters kept, and with nothing dropped on its left but
      structural tokens or garble. */
  lemma TruncationGuard(ratio: Similarity, collector: seq<seq<string>>, legal: seq<seq<string>>, lexicon: ArtistLexicon,
                        allowed: Option<set<string>>, name: string) returns (line: seq<string>, start: nat)
    requires Built(lexicon)
    requires var best := BestOf(Reader(ratio, lexicon, allowed), CardWindows(collector, legal));
             best.Some? && name in best.value.reading.names && LongerThan(name, best.value.window)
    ensures var w := BestOf(Reader(ratio, lexicon, allowed), CardWindows(collector, legal)).value.window;
            && line in collector && StandsAt(w, line, start, true)
            && start + w.wordCount == |line| && WholeTail(line, start)
            && |Normalize(w.text)| >= MIN_TRUNCATED_LETTERS
  {
    var w := BestOf(Reader(ratio, lexicon, allowed), CardWindows(collector, legal)).value.window;
    BestNames(ratio, CardWindows(collector, legal), lexicon, allowed, name);
    if w in TextWindows(legal, false) {
      line, start := WindowOfText(legal, false, w);
    } else {
      line, start := WindowOfText(collector, true, w);
    }
  }

  /** The full-width legal line alone never names anyone longer than what it shows. */
  lemma LegalLineNeverTruncates(ratio: Similarity, legal: seq<seq<string>>, lexicon: ArtistLexicon, allowed: Option<set<string>>, name: string)
    requires Built(lexicon)
    requires var best := BestOf(Reader(ratio, lexicon, allowed), TextWindows(legal, false));
             best.Some? && name in best.value.reading.names
    ensures !LongerThan(name, BestOf(Reader(ratio, lexicon, allowed), TextWindows(legal, false)).value.window)
  {
    BestNames(ratio, TextWindows(legal, false), lexicon, allowed, name);
    var line, start := WindowOfText(legal, false, BestOf(Reader(ratio, lexicon, allowed), TextWindows(legal, false)).value.window);
  }
}
