/** The chunked backfill of blank artist names (collector_line_artist.run_collector_line_artist_backfill). */
module ArtistBackfill {
  import opened Wrappers
  import opened Chunks
  import opened Currency
  import opened ArtistText
  import opened ArtistReading

  /** An evidence row with what the queryset reads off its card. Rows are listed in pk order and named by
      their position. */
  datatype Row = Row(artistOcrName: string, collectorLineRawText: string, legalLineRawText: string, contentHash: int,
                     md5: Option<string>, cardName: string, cardContentPhash: Option<int>, cardMd5: Option<string>)

  /** What one run resolves against: built once, never per row. */
  datatype Resolvers = Resolvers(ratio: Similarity, tokenLines: string -> seq<seq<string>>, lexicon: ArtistLexicon,
                                 artistsForName: string -> seq<string>)

  /** backfill_eligible_evidence_queryset */
  predicate Eligible(row: Row) {
    && row.artistOcrName == "" && row.cardContentPhash == Some(row.contentHash)
    && !(row.collectorLineRawText == "" && row.legalLineRawText == "") && Md5Current(row.md5, row.cardMd5)
  }

  /** recover_artist_from_card_text on the row's stored strings, narrowed by its card's name. */
  function Recovery(res: Resolvers, row: Row): Option<RecoveredArtist> {
    Recovered(BestOf(Reader(res.ratio, res.lexicon, NormalizedAllowed(Some(res.artistsForName(row.cardName)))),
                     CardWindows(res.tokenLines(row.collectorLineRawText), res.tokenLines(row.legalLineRawText))))
  }

  datatype Outcome = NoReading | Ambiguous | Fill(name: string)

  function OutcomeOf(recovered: Option<RecoveredArtist>): Outcome {
    if recovered.None? then NoReading
    else if !recovered.value.HasCanonicalName() then Ambiguous
    else Fill(recovered.value.CanonicalName())
  }

  type Judgement = Row -> Outcome

  function Judgements(res: Resolvers): Judgement { row => OutcomeOf(Recovery(res, row)) }

  /** The per-row work, which the loop takes as the function this computes: re-read the two strings and see
      whether exactly one artist fits. */
  method Judge(res: Resolvers, row: Row) returns (outcome: Outcome)
    ensures outcome == Judgements(res)(row)
  {
    var recovered := RecoverFromCardText(res.ratio, res.tokenLines(row.collectorLineRawText), res.tokenLines(row.legalLineRawText),
                                         res.lexicon, Some(res.artistsForName(row.cardName)));
    if recovered.None? {
      return NoReading;
    }
    if !recovered.value.HasCanonicalName() {
      return Ambiguous;
    }
    return Fill(recovered.value.CanonicalName());
  }

  // ----- the row-wise map -----

  function EligibleCount(rows: seq<Row>): nat {
    if rows == [] then 0 else EligibleCount(rows[..|rows| - 1]) + if Eligible(rows[|rows| - 1]) then 1 else 0
  }

  /** Whether row `i` is among the first `limit` eligible ones. */
  predicate Considered(rows: seq<Row>, limit: Option<nat>, i: nat)
    requires i < |rows|
  {
    Eligible(rows[i]) && (limit.None? || EligibleCount(rows[..i]) < limit.value)
  }

  /** What the loop does with a row. */
  datatype Decision = Skip | Consider(outcome: Outcome)

  function Decide(judge: Judgement, rows: seq<Row>, limit: Option<nat>, i: nat): Decision
    requires i < |rows|
  {
    if Considered(rows, limit, i) then Consider(judge(rows[i])) else Skip
  }

  function DecisionsUpTo(judge: Judgement, rows: seq<Row>, limit: Option<nat>, n: nat): (ds: seq<Decision>)
    requires n <= |rows|
    ensures |ds| == n
  {
    if n == 0 then [] else DecisionsUpTo(judge, rows, limit, n - 1) + [Decide(judge, rows, limit, n - 1)]
  }

  function AllDecisions(judge: Judgement, rows: seq<Row>, limit: Option<nat>): (ds: seq<Decision>)
    ensures |ds| == |rows|
  {
    DecisionsUpTo(judge, rows, limit, |rows|)
  }

  lemma {:induction false} DecisionAt(judge: Judgement, rows: seq<Row>, limit: Option<nat>, n: nat, i: nat)
    requires i < n <= |rows|
    ensures DecisionsUpTo(judge, rows, limit, n)[i] == Decide(judge, rows, limit, i)
  {
    if i < n - 1 {
      DecisionAt(judge, rows, limit, n - 1, i);
    }
  }

  predicate IsFill(d: Decision) { d.Consider? && d.outcome.Fill? }

  /** The row-wise map. */
  function Target(row: Row, d: Decision): Row {
    if IsFill(d) then row.(artistOcrName := d.outcome.name) else row
  }

  /** The table once everything before `done` has been written. */
  function WrittenUpTo(rows: seq<Row>, ds: seq<Decision>, done: nat): (r: seq<Row>)
    requires |ds| == |rows| && done <= |rows|
    ensures |r| == |rows| && forall i :: 0 <= i < |rows| ==> r[i] == if i < done then Target(rows[i], ds[i]) else rows[i]
  {
    if done == 0 then rows else WrittenUpTo(rows, ds, done - 1)[done - 1 := Target(rows[done - 1], ds[done - 1])]
  }

  datatype Update = Update(position: nat, name: string)

  /** The staged writes for the rows from `start` up to `stop`. */
  function Staged(ds: seq<Decision>, start: nat, stop: nat): seq<Update>
    requires start <= stop <= |ds|
    decreases stop
  {
    if start == stop then []
    else Staged(ds, start, stop - 1) + if IsFill(ds[stop - 1]) then [Update(stop - 1, ds[stop - 1].outcome.name)] else []
  }

  /** `bulk_update(pending, ["artist_ocr_name"])`: one column of the named rows. */
  function BulkUpdate(rows: seq<Row>, updates: seq<Update>): (r: seq<Row>)
    ensures |r| == |rows|
  {
    if updates == [] then rows
    else
      var before, u := BulkUpdate(rows, updates[..|updates| - 1]), updates[|updates| - 1];
      if u.position < |before| then before[u.position := before[u.position].(artistOcrName := u.name)] else before
  }

  lemma {:induction false} StagedWritesTarget(rows: seq<Row>, ds: seq<Decision>, start: nat, stop: nat)
    requires |ds| == |rows| && start <= stop <= |rows|
    ensures BulkUpdate(WrittenUpTo(rows, ds, start), Staged(ds, start, stop)) == WrittenUpTo(rows, ds, stop)
    decreases stop
  {
    if start < stop {
      StagedWritesTarget(rows, ds, start, stop - 1);
      var staged, before := Staged(ds, start, stop - 1), WrittenUpTo(rows, ds, stop - 1);
      if IsFill(ds[stop - 1]) {
        assert (staged + [Update(stop - 1, ds[stop - 1].outcome.name)])[..|staged|] == staged;
      } else {
        assert staged + [] == staged && before[stop - 1 := rows[stop - 1]] == before;
      }
    }
  }

  // ----- counting -----

  datatype Counts = Counts(considered: nat, noReading: nat, ambiguous: nat, wouldFill: nat)

  function Count(c: Counts, d: Decision): Counts {
    match d
    case Skip => c
    case Consider(NoReading) => Counts(c.considered + 1, c.noReading + 1, c.ambiguous, c.wouldFill)
    case Consider(Ambiguous) => Counts(c.considered + 1, c.noReading, c.ambiguous + 1, c.wouldFill)
    case Consider(Fill(_)) => Counts(c.considered + 1, c.noReading, c.ambiguous, c.wouldFill + 1)
  }

  /** The counters after the rows before `i`. */
  function CountsUpTo(ds: seq<Decision>, i: nat): Counts
    requires i <= |ds|
  {
    if i == 0 then Counts(0, 0, 0, 0) else Count(CountsUpTo(ds, i - 1), ds[i - 1])
  }

  /** Counters of any decisions that consider the first `limit` eligible rows. */
  lemma {:induction false} CountsOf(ds: seq<Decision>, rows: seq<Row>, limit: Option<nat>, i: nat)
    requires i <= |rows| && |ds| == |rows|
    requires forall j :: 0 <= j < |rows| ==> (ds[j].Consider? <==> Considered(rows, limit, j))
    ensures var c, eligible := CountsUpTo(ds, i), EligibleCount(rows[..i]);
            && c.considered == c.noReading + c.ambiguous + c.wouldFill
            && c.considered == if limit.None? || eligible <= limit.value then eligible else limit.value
  {
    if i > 0 {
      CountsOf(ds, rows, limit, i - 1);
      assert rows[..i][..i - 1] == rows[..i - 1];
      assert ds[i - 1].Consider? <==> Considered(rows, limit, i - 1);
    }
  }

  /** Every row considered has exactly one outcome, and the limit caps how many are considered. */
  lemma CountsAddUp(judge: Judgement, rows: seq<Row>, limit: Option<nat>, i: nat)
    requires i <= |rows|
    ensures var c, eligible := CountsUpTo(AllDecisions(judge, rows, limit), i), EligibleCount(rows[..i]);
            && c.considered == c.noReading + c.ambiguous + c.wouldFill
            && c.considered == if limit.None? || eligible <= limit.value then eligible else limit.value
  {
    var ds := AllDecisions(judge, rows, limit);
    forall j | 0 <= j < |rows| ensures ds[j].Consider? <==> Considered(rows, limit, j) {
      DecisionAt(judge, rows, limit, |rows|, j);
    }
    CountsOf(ds, rows, limit, i);
  }

  lemma {:induction false} StagedCount(ds: seq<Decision>, start: nat, stop: nat)
    requires start <= stop <= |ds|
    ensures |Staged(ds, start, stop)| == CountsUpTo(ds, stop).wouldFill - CountsUpTo(ds, start).wouldFill
    decreases stop
  {
    if start < stop {
      StagedCount(ds, start, stop - 1);
    }
  }

  // ----- the run -----

  datatype BackfillResult = BackfillResult(counts: Counts, filled: nat)

  /** A moment right after a database write. */
  datatype Moment = Moment(rows: seq<Row>, filled: nat)

  /** The rows written are those before some point, and `filled` counts exactly them. */
  ghost predicate Honest(before: seq<Row>, ds: seq<Decision>, m: Moment)
    requires |ds| == |before|
  {
    exists k :: 0 <= k <= |before| && m == Moment(WrittenUpTo(before, ds, k), CountsUpTo(ds, k).wouldFill)
  }

  /** The counter after each write: a chunk further every time, and at the end everything. */
  ghost predicate Clocked(moments: seq<Moment>, size: nat, filled: nat) {
    && ChunksFor(|moments|, size, filled)
    && forall k :: 0 <= k < |moments| ==> moments[k].filled == Cut(k + 1, size, filled)
  }

  ghost predicate Full(moments: seq<Moment>, size: nat, filled: nat) { Clocked(moments, size, filled) && filled == |moments| * size }

  lemma Tick(moments: seq<Moment>, size: nat, m: Moment)
    requires Clocked(moments, size, |moments| * size) && |moments| * size < m.filled <= |moments| * size + size
    ensures Clocked(moments + [m], size, m.filled)
    ensures m.filled == |moments| * size + size ==> m.filled == (|moments| + 1) * size
  {
    OneMoreChunk(|moments|, size, m.filled - |moments| * size);
  }

  /** The loop body's decision on one row; `taken` counts the eligible rows up to it. */
  method DecideRow(judge: Judgement, rows: seq<Row>, limit: Option<nat>, i: nat, taken: nat, ghost ds: seq<Decision>)
    returns (d: Decision, taken': nat)
    requires i < |rows| && taken == EligibleCount(rows[..i]) && ds == AllDecisions(judge, rows, limit)
    ensures d == ds[i] && taken' == EligibleCount(rows[..i + 1])
  {
    assert rows[..i + 1][..i] == rows[..i];
    DecisionAt(judge, rows, limit, |rows|, i);
    if !Eligible(rows[i]) {
      return Skip, taken;
    }
    if limit.Some? && taken >= limit.value {
      return Skip, taken + 1;
    }
    return Consider(judge(rows[i])), taken + 1;
  }

  class EvidenceTable {
    var rows: seq<Row>

    method RunBackfill(res: Resolvers, dryRun: bool, chunkSize: nat, limit: Option<nat>)
      returns (result: BackfillResult, ghost moments: seq<Moment>)
      requires chunkSize > 0
      modifies this
      ensures var ds := AllDecisions(Judgements(res), old(rows), limit);
              && rows == (if dryRun then old(rows) else WrittenUpTo(old(rows), ds, |ds|))
              && result.counts == CountsUpTo(ds, |ds|)
              && result.filled == (if dryRun then 0 else result.counts.wouldFill)
              && Clocked(moments, chunkSize, result.filled) && (forall m :: m in moments ==> Honest(old(rows), ds, m))
              && (moments != [] ==> moments[|moments| - 1] == Moment(rows, result.filled))
    {
      result, moments := Walk(Judgements(res), dryRun, chunkSize, limit, AllDecisions(Judgements(res), rows, limit));
    }

    method Walk(judge: Judgement, dryRun: bool, chunkSize: nat, limit: Option<nat>, ghost ds: seq<Decision>)
      returns (result: BackfillResult, ghost moments: seq<Moment>)
      requires chunkSize > 0 && ds == AllDecisions(judge, rows, limit)
      modifies this
      ensures rows == (if dryRun then old(rows) else WrittenUpTo(old(rows), ds, |ds|))
      ensures result.counts == CountsUpTo(ds, |ds|)
      ensures result.filled == (if dryRun then 0 else result.counts.wouldFill)
      ensures Clocked(moments, chunkSize, result.filled) && forall m :: m in moments ==> Honest(old(rows), ds, m)
      ensures moments != [] ==> moments[|moments| - 1] == Moment(rows, result.filled)
    {
      ghost var before := rows;
      var counts, pending, filled;
      ghost var written;
      counts, pending, filled, written, moments := VisitRows(judge, dryRun, chunkSize, limit, ds);
      if !dryRun {
        filled, moments := Flush(pending, filled, chunkSize, before, ds, written, |before|, moments);
      }
      result := BackfillResult(counts, filled);
    }

    /** The loop over the rows the query let through. */
    method VisitRows(judge: Judgement, dryRun: bool, chunkSize: nat, limit: Option<nat>, ghost ds: seq<Decision>)
      returns (counts: Counts, pending: seq<Update>, filled: nat, ghost written: nat, ghost moments: seq<Moment>)
      requires chunkSize > 0 && ds == AllDecisions(judge, rows, limit)
      modifies this
      ensures counts == CountsUpTo(ds, |ds|) && (dryRun ==> written == 0)
      ensures Staging(old(rows), ds, written, if dryRun then written else |ds|, pending, filled, moments)
      ensures Full(moments, chunkSize, filled) && |pending| < chunkSize
    {
      var snapshot := rows;
      counts, pending, filled, moments, written := Counts(0, 0, 0, 0), [], 0, [], 0;
      var taken: nat := 0;
      for i := 0 to |snapshot|
        invariant taken == EligibleCount(snapshot[..i]) && counts == CountsUpTo(ds, i) && (dryRun ==> written == 0)
        invariant Staging(snapshot, ds, written, if dryRun then written else i, pending, filled, moments)
        invariant Full(moments, chunkSize, filled) && |pending| < chunkSize
      {
        var d;
        d, taken := DecideRow(judge, snapshot, limit, i, taken, ds);
        counts := Count(counts, d);
        if !dryRun {
          pending, filled, written, moments := Stage(pending, filled, chunkSize, i, d, snapshot, ds, written, moments);
        }
      }
    }

    /** Everything before `written` is in the table and counted; what is pending is what lies from there
        to `i`. */
    ghost predicate Staging(before: seq<Row>, ds: seq<Decision>, written: nat, i: nat, pending: seq<Update>, filled: nat,
                            moments: seq<Moment>)
      reads this
    {
      && |ds| == |before| && written <= i <= |before| && rows == WrittenUpTo(before, ds, written)
      && pending == Staged(ds, written, i) && filled == CountsUpTo(ds, written).wouldFill
      && (forall m :: m in moments ==> Honest(before, ds, m))
      && (moments != [] ==> moments[|moments| - 1] == Moment(rows, filled))
    }

    /** `pending.append(row)` when there is something to fill, and a flush once a chunk is full. */
    method Stage(pending: seq<Update>, filled: nat, chunkSize: nat, i: nat, d: Decision, ghost before: seq<Row>,
                 ghost ds: seq<Decision>, ghost written: nat, ghost moments: seq<Moment>)
      returns (pending': seq<Update>, filled': nat, ghost written': nat, ghost moments': seq<Moment>)
      requires Staging(before, ds, written, i, pending, filled, moments) && i < |before| && ds[i] == d
      requires Full(moments, chunkSize, filled) && |pending| < chunkSize
      modifies this
      ensures Staging(before, ds, written', i + 1, pending', filled', moments')
      ensures Full(moments', chunkSize, filled') && |pending'| < chunkSize
    {
      pending', filled', written', moments' := pending, filled, written, moments;
      if !IsFill(d) {
        assert pending + [] == pending;
        return;
      }
      pending' := pending + [Update(i, d.outcome.name)];
      if |pending'| >= chunkSize {
        filled', moments' := Flush(pending', filled, chunkSize, before, ds, written, i + 1, moments);
        pending', written' := [], i + 1;
      }
    }

    /** `_flush`: the counter moves only after the write. */
    method Flush(pending: seq<Update>, filled: nat, ghost chunkSize: nat, ghost before: seq<Row>, ghost ds: seq<Decision>,
                 ghost start: nat, ghost stop: nat, ghost moments: seq<Moment>)
      returns (filled': nat, ghost moments': seq<Moment>)
      requires Staging(before, ds, start, stop, pending, filled, moments) && Full(moments, chunkSize, filled) && |pending| <= chunkSize
      modifies this
      ensures Staging(before, ds, stop, stop, [], filled', moments') && Clocked(moments', chunkSize, filled')
      ensures |pending| == chunkSize ==> Full(moments', chunkSize, filled')
    {
      StagedWritesTarget(before, ds, start, stop);
      StagedCount(ds, start, stop);
      filled', moments' := filled, moments;
      if pending == [] {
        return;
      }
      rows := BulkUpdate(rows, pending);
      filled' := filled + |pending|;
      Tick(moments, chunkSize, Moment(rows, filled'));
      moments' := moments + [Moment(rows, filled')];
    }
  }

  // ----- what the final table promises -----

  lemma TableRow(judge: Judgement, rows: seq<Row>, limit: Option<nat>, i: nat)
    requires i < |rows|
    ensures WrittenUpTo(rows, AllDecisions(judge, rows, limit), |rows|)[i]
            == if Considered(rows, limit, i) && judge(rows[i]).Fill? then rows[i].(artistOcrName := judge(rows[i]).name) else rows[i]
  {
    DecisionAt(judge, rows, limit, |rows|, i);
  }

  lemma FilledName(res: Resolvers, row: Row)
    requires Built(res.lexicon)
    ensures var outcome, recovered := Judgements(res)(row), Recovery(res, row);
            outcome.Fill? ==> outcome.name in res.lexicon.names && recovered.Some? && recovered.value.compatibleNames == [outcome.name]
  {
    RecoveredNamesAreLexiconNames(res.ratio, CardWindows(res.tokenLines(row.collectorLineRawText), res.tokenLines(row.legalLineRawText)),
                                  res.lexicon, NormalizedAllowed(Some(res.artistsForName(row.cardName))));
  }

  /** The anchor's own reading is never overwritten, nothing but the artist column changes, a value is
      stored only when the reading names exactly one artist, and then it is that lexicon name. */
  lemma FinalTable(res: Resolvers, rows: seq<Row>, limit: Option<nat>, i: nat)
    requires i < |rows| && Built(res.lexicon)
    ensures var row := WrittenUpTo(rows, AllDecisions(Judgements(res), rows, limit), |rows|)[i];
            && row.(artistOcrName := rows[i].artistOcrName) == rows[i]
            && (rows[i].artistOcrName != "" ==> row == rows[i])
            && (row != rows[i] ==> Eligible(rows[i]) && row.artistOcrName in res.lexicon.names
                                   && Recovery(res, rows[i]).Some? && Recovery(res, rows[i]).value.compatibleNames == [row.artistOcrName])
  {
    TableRow(Judgements(res), rows, limit, i);
    FilledName(res, rows[i]);
  }
}
