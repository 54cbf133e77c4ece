/** The windows of a line, read off its tokens: which stretches of words are tried as a name, which may be
    the rest of a clipped one, and which of the card's two texts is believed
    (collector_line_artist._candidate_windows, recover_artist_from_card_text). */
module ArtistTokens {
  import opened Wrappers
  import opened ArtistText
  import opened ArtistReading

  // ----- tokens -----

  predicate AllDots(s: string) { forall i :: 0 <= i < |s| ==> s[i] == '.' }

  lemma {:induction false} LeftDots(a: string, s: string)
    requires AllDots(a) && (s != "" ==> s[0] != '.')
    ensures TrimDotsLeft(a + s) == s
    decreases |a|
  {
    if a == "" {
      assert a + s == s;
    } else {
      assert (a + s)[1..] == a[1..] + s;
      LeftDots(a[1..], s);
    }
  }

  lemma {:induction false} RightDots(s: string, b: string)
    requires AllDots(b) && (s != "" ==> s[|s| - 1] != '.')
    ensures TrimDotsRight(s + b) == s
    decreases |b|
  {
    if b == "" {
      assert s + b == s;
    } else {
      assert (s + b)[..|s + b| - 1] == s + b[..|b| - 1] && (s + b)[|s + b| - 1] == b[|b| - 1];
      RightDots(s, b[..|b| - 1]);
    }
  }

  /** Whether a token is a stopword: in lower case, without the dots at its ends. */
  lemma StopwordOfDotted(token: string, left: string, word: string, right: string)
    requires LowerText(token) == left + word + right && AllDots(left) && AllDots(right)
    requires word != "" ==> word[0] != '.' && word[|word| - 1] != '.'
    ensures Stopword(token) <==> word in CANDIDATE_STOPWORDS
  {
    if word == "" {
      assert left + word + right == (left + right) + "";
      LeftDots(left + right, "");
    } else {
      assert left + word + right == left + (word + right) && (word + right)[0] == word[0];
      LeftDots(left, word + right);
      RightDots(word, right);
    }
  }

  // ----- windows -----

  /** Words are shown with one space between any two. */
  lemma {:induction false} JoinMore(a: seq<string>, b: seq<string>)
    ensures |a| == 1 ==> Join(a) == a[0]
    ensures a != [] && b != [] ==> Join(a + b) == Join(a) + " " + Join(b)
    decreases |a|
  {
    if |a| > 1 && b != [] {
      JoinMore(a[1..], b);
      assert (a + b)[1..] == a[1..] + b && (a + b)[0] == a[0];
      assert Join(a + b) == a[0] + " " + (Join(a[1..]) + " " + Join(b));
    } else if |a| == 1 && b != [] {
      assert (a + b)[1..] == b && (a + b)[0] == a[0];
    }
  }

  /** A window of the line, told from the tokens: one to four words, none a stopword; it may stand for a
      clipped name if it ends the line and has nothing, a stopword or at most three characters before it. */
  predicate Stands(tokens: seq<string>, w: Window, start: nat) {
    && 1 <= w.wordCount <= 4 && start + w.wordCount <= |tokens|
    && (forall i :: start <= i < start + w.wordCount ==> !Stopword(tokens[i]))
    && w.text == Join(tokens[start..start + w.wordCount])
    && (w.truncationEligible <==> start + w.wordCount == |tokens|
                                  && (start == 0 || Stopword(tokens[start - 1]) || |tokens[start - 1]| <= 3))
  }

  lemma WindowExact(tokens: seq<string>, w: Window)
    ensures w in Windows(tokens) <==> exists start: nat :: Stands(tokens, w, start)
  {
    if w in Windows(tokens) {
      var start := WindowOfLine(tokens, w);
      assert Stands(tokens, w, start);
    }
    if start: nat :| Stands(tokens, w, start) {
      EveryStretchIsAWindow(tokens, start, w.wordCount);
      assert w == WindowAt(tokens, start, w.wordCount);
    }
  }

  // ----- two texts -----

  /** The collector line's reading is taken only where it is strictly better: the legal line wins ties. */
  lemma LegalLineWinsTies(ratio: Similarity, collector: seq<seq<string>>, legal: seq<seq<string>>, lexicon: ArtistLexicon,
                          allowed: Option<set<string>>)
    ensures var read := Reader(ratio, lexicon, allowed);
            var l, c := BestOf(read, TextWindows(legal, false)), BestOf(read, TextWindows(collector, true));
            BestOf(read, CardWindows(collector, legal))
            == if l.None? then c
               else if c.None? then l
               else if c.value.reading.ratio > l.value.reading.ratio
                       || (c.value.reading.ratio == l.value.reading.ratio && c.value.reading.length > l.value.reading.length) then c
               else l
  {
    BestAppend(Reader(ratio, lexicon, allowed), TextWindows(legal, false), TextWindows(collector, true));
  }
}
