/** What the artist backfill leaves in the table and in its counters, told row by row: which rows wait for
    a name, which of them a limited run reaches, and what each gets
    (collector_line_artist.run_collector_line_artist_backfill). */
module ArtistFills {
  import opened Wrappers
  import opened ArtistText
  import opened ArtistReading
  import opened ArtistBackfill

  // ----- the rule for one row -----

  /** A row that waits for a name: blank, of the card's current image, with something read on it, and not
      stamped with a checksum that the card has since left behind. */
  predicate Waiting(row: Row) {
    && row.artistOcrName == ""
    && row.cardContentPhash == Some(row.contentHash)
    && (row.collectorLineRawText != "" || row.legalLineRawText != "")
    && (row.md5.Some? && row.cardMd5.Some? ==> row.md5.value == row.cardMd5.value)
  }

  function WaitingBefore(rows: seq<Row>, i: nat): nat
    requires i <= |rows|
  {
    if i == 0 then 0 else WaitingBefore(rows, i - 1) + if Waiting(rows[i - 1]) then 1 else 0
  }

  /** The row's turn comes before the limit is used up. */
  predicate Reached(rows: seq<Row>, limit: Option<nat>, i: nat)
    requires i < |rows|
  {
    Waiting(rows[i]) && (limit.None? || WaitingBefore(rows, i) < limit.value)
  }

  /** The best reading of the row's legal line, whole, and then of its collector line, clipped. */
  function RowBest(res: Resolvers, row: Row): Option<Best> {
    BestOf(Reader(res.ratio, res.lexicon, NormalizedAllowed(Some(res.artistsForName(row.cardName)))),
           TextWindows(res.tokenLines(row.legalLineRawText), false) + TextWindows(res.tokenLines(row.collectorLineRawText), true))
  }

  predicate NamesOne(res: Resolvers, row: Row) { RowBest(res, row).Some? && |RowBest(res, row).value.reading.names| == 1 }

  lemma {:induction false} WaitingIsEligible(rows: seq<Row>, i: nat)
    requires i <= |rows|
    ensures WaitingBefore(rows, i) == EligibleCount(rows[..i])
  {
    if i > 0 {
      WaitingIsEligible(rows, i - 1);
      assert rows[..i][..i - 1] == rows[..i - 1];
    }
  }

  lemma ReachedIsConsidered(rows: seq<Row>, limit: Option<nat>, i: nat)
    requires i < |rows|
    ensures Reached(rows, limit, i) <==> Considered(rows, limit, i)
  {
    WaitingIsEligible(rows, i);
  }

  lemma RowJudged(res: Resolvers, row: Row)
    ensures Judgements(res)(row) == if RowBest(res, row).None? then NoReading
                                    else if !NamesOne(res, row) then Ambiguous
                                    else Fill(RowBest(res, row).value.reading.names[0])
  {
  }

  // ----- the table -----

  /** After a write run a row has the one name its best reading leaves, if it waited, was reached within the
      limit and the reading leaves one; every other row, and every other column, is as it was. */
  lemma FinalRowExact(res: Resolvers, rows: seq<Row>, limit: Option<nat>, i: nat)
    requires i < |rows|
    ensures WrittenUpTo(rows, AllDecisions(Judgements(res), rows, limit), |rows|)[i]
            == if Reached(rows, limit, i) && NamesOne(res, rows[i])
               then rows[i].(artistOcrName := RowBest(res, rows[i]).value.reading.names[0]) else rows[i]
  {
    TableRow(Judgements(res), rows, limit, i);
    ReachedIsConsidered(rows, limit, i);
    RowJudged(res, rows[i]);
  }

  /** A stored name longer than the text it was read from comes from the row's collector line: from the whole
      name-shaped tail of a line, with at least seven characters of it left. */
  lemma LongNameFromCollector(res: Resolvers, row: Row) returns (line: seq<string>, start: nat)
    requires Built(res.lexicon) && NamesOne(res, row)
    requires |Normalize(RowBest(res, row).value.reading.names[0])| > |Normalize(RowBest(res, row).value.window.text)|
    ensures var w := RowBest(res, row).value.window;
            && line in res.tokenLines(row.collectorLineRawText)
            && start < |line| && w.text == Join(line[start..])
            && (start == 0 || Stopword(line[start - 1]) || |line[start - 1]| <= 3)
            && |Normalize(w.text)| >= 7
  {
    line, start := ClippedTail(res.ratio, res.tokenLines(row.collectorLineRawText), res.tokenLines(row.legalLineRawText), res.lexicon,
                               NormalizedAllowed(Some(res.artistsForName(row.cardName))));
  }

  lemma ClippedTail(ratio: Similarity, collector: seq<seq<string>>, legal: seq<seq<string>>, lexicon: ArtistLexicon,
                    allowed: Option<set<string>>) returns (line: seq<string>, start: nat)
    requires Built(lexicon)
    requires var best := BestOf(Reader(ratio, lexicon, allowed), TextWindows(legal, false) + TextWindows(collector, true));
             best.Some? && |best.value.reading.names| == 1
             && |Normalize(best.value.reading.names[0])| > |Normalize(best.value.window.text)|
    ensures var w := BestOf(Reader(ratio, lexicon, allowed), TextWindows(legal, false) + TextWindows(collector, true)).value.window;
            && line in collector && start < |line| && w.text == Join(line[start..])
            && (start == 0 || Stopword(line[start - 1]) || |line[start - 1]| <= 3)
            && |Normalize(w.text)| >= 7
  {
    var best := BestOf(Reader(ratio, lexicon, allowed), CardWindows(collector, legal)).value;
    line, start := TruncationGuard(ratio, collector, legal, lexicon, allowed, best.reading.names[0]);
    TailText(best.window, line, start);
  }

  lemma TailText(w: Window, line: seq<string>, start: nat)
    requires StandsAt(w, line, start, true) && start + w.wordCount == |line| && WholeTail(line, start)
    ensures start < |line| && w.text == Join(line[start..])
    ensures start == 0 || Stopword(line[start - 1]) || |line[start - 1]| <= 3
  {
    assert line[start..start + w.wordCount] == line[start..];
  }

  // ----- the counters -----

  datatype Kind = Any | Unread | Several | Filled

  predicate IsKind(d: Decision, k: Kind) {
    match k
    case Any => d.Consider?
    case Unread => d == Consider(NoReading)
    case Several => d == Consider(Ambiguous)
    case Filled => d.Consider? && d.outcome.Fill?
  }

  function Counter(c: Counts, k: Kind): nat {
    match k
    case Any => c.considered
    case Unread => c.noReading
    case Several => c.ambiguous
    case Filled => c.wouldFill
  }

  /** The rows before `i` that came out this way. */
  function With(ds: seq<Decision>, i: nat, k: Kind): set<nat>
    requires i <= |ds|
  {
    set j: nat | j < i && IsKind(ds[j], k)
  }

  /** Each counter is the number of rows with its outcome. */
  lemma {:induction false} CountersExact(ds: seq<Decision>, i: nat, k: Kind)
    requires i <= |ds|
    ensures Counter(CountsUpTo(ds, i), k) == |With(ds, i, k)|
  {
    if i > 0 {
      CountersExact(ds, i - 1, k);
      WithOneMore(ds, i - 1, k);
    } else {
      assert With(ds, i, k) == {};
    }
  }

  lemma WithOneMore(ds: seq<Decision>, i: nat, k: Kind)
    requires i < |ds|
    ensures |With(ds, i + 1, k)| == |With(ds, i, k)| + if IsKind(ds[i], k) then 1 else 0
  {
    assert With(ds, i + 1, k) == With(ds, i, k) + if IsKind(ds[i], k) then {i} else {};
  }
}
