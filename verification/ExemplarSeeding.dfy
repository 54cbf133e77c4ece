/** Seeding of artbox exemplars (artbox_exemplar_backfill.py): human resolutions first, join-key machine
    votes second, one shared limit, chunked reads, resumable by the absence of a row. */
module ExemplarSeeding {
  import opened Wrappers
  import opened Currency
  import opened ByCard

  type CardId = int
  type PrintingId = int

  datatype Card = Card(contentPhash: Option<int>, md5: Option<string>, resolved: bool, inferredPrinting: Option<PrintingId>)
  datatype Evidence = Evidence(card: CardId, contentHash: int, artboxPhash: Option<int>, md5: Option<string>)
  datatype Vote = Vote(pk: int, card: CardId, printing: Option<PrintingId>, anonymousId: string, isNoMatch: bool, confidence: real)

  /** One snapshot of the tables the backfill reads; `evidence` is in card order, `votes` in pk order. */
  datatype Catalog = Catalog(cards: map<CardId, Card>, evidence: seq<Evidence>, votes: seq<Vote>,
                             illustration: map<PrintingId, Option<string>>)

  datatype SeedKind = HumanResolution | JoinKeyMachine
  datatype SeedGroup = Md5Group(md5: string) | CardGroup(card: CardId) | VoteGroup(vote: int)
  datatype Seed = Seed(illustrationId: string, artboxPhash: int, printing: PrintingId, seedKind: SeedKind, isHumanBacked: bool,
                       sourceVote: Option<int>, confidence: Option<real>, seedGroup: SeedGroup, contentHash: int)
  type Fields = OnCard<Seed>

  const JOIN_KEY_ANONYMOUS_ID: string := "stage-d-join-key-v1"
  const JOIN_KEY_SEED_CONFIDENCE_FLOOR: real := 0.75

  // ----- the queries -----

  /** _current_artbox_evidence_queryset */
  predicate CurrentArtbox(cat: Catalog, e: Evidence) {
    && e.card in cat.cards && e.artboxPhash.Some?
    && cat.cards[e.card].contentPhash == Some(e.contentHash)
    && Md5Current(e.md5, cat.cards[e.card].md5)
  }

  predicate Illustrated(cat: Catalog, p: Option<PrintingId>) {
    p.Some? && p.value in cat.illustration && cat.illustration[p.value].Some?
  }

  predicate HumanCandidate(cat: Catalog, e: Evidence) {
    CurrentArtbox(cat, e) && cat.cards[e.card].resolved && Illustrated(cat, cat.cards[e.card].inferredPrinting)
  }

  function HumanField(cat: Catalog, e: Evidence): Fields
    requires HumanCandidate(cat, e)
  {
    var card := cat.cards[e.card];
    OnCard(e.card, Seed(cat.illustration[card.inferredPrinting.value].value, e.artboxPhash.value, card.inferredPrinting.value,
                        HumanResolution, true, None, None,
                        if card.md5.Some? then Md5Group(card.md5.value) else CardGroup(e.card), e.contentHash))
  }

  function HumanFields(cat: Catalog, excluded: set<CardId>, evidence: seq<Evidence>): seq<Fields> {
    if evidence == [] then []
    else
      (if HumanCandidate(cat, evidence[0]) && evidence[0].card !in excluded then [HumanField(cat, evidence[0])] else [])
      + HumanFields(cat, excluded, evidence[1..])
  }

  predicate JoinKeyVote(cat: Catalog, v: Vote) {
    && v.anonymousId == JOIN_KEY_ANONYMOUS_ID && !v.isNoMatch && v.confidence >= JOIN_KEY_SEED_CONFIDENCE_FLOOR
    && Illustrated(cat, v.printing)
  }

  /** The `votes_queryset`, run against a table that already holds `seeded`. */
  function VotesQuery(cat: Catalog, seeded: set<CardId>, votes: seq<Vote>): seq<Vote> {
    if votes == [] then []
    else
      var v := votes[|votes| - 1];
      VotesQuery(cat, seeded, votes[..|votes| - 1]) + if JoinKeyVote(cat, v) && v.card !in seeded then [v] else []
  }

  /** The current artbox evidence of a card; a dict built from rows keeps the last one. */
  function EvidenceOf(cat: Catalog, card: CardId, evidence: seq<Evidence>): Option<Evidence> {
    if evidence == [] then None
    else
      var last := evidence[|evidence| - 1];
      if last.card == card && CurrentArtbox(cat, last) then Some(last) else EvidenceOf(cat, card, evidence[..|evidence| - 1])
  }

  lemma {:induction false} EvidenceOfIsCurrent(cat: Catalog, card: CardId, evidence: seq<Evidence>)
    ensures EvidenceOf(cat, card, evidence).Some? ==>
              EvidenceOf(cat, card, evidence).value in evidence && CurrentArtbox(cat, EvidenceOf(cat, card, evidence).value)
              && EvidenceOf(cat, card, evidence).value.card == card
    ensures EvidenceOf(cat, card, evidence).None? <==> forall e :: e in evidence && e.card == card ==> !CurrentArtbox(cat, e)
  {
    if evidence != [] {
      EvidenceOfIsCurrent(cat, card, evidence[..|evidence| - 1]);
      assert evidence == evidence[..|evidence| - 1] + [evidence[|evidence| - 1]];
    }
  }

  function VoteEvidence(cat: Catalog, v: Vote): (e: Option<Evidence>)
    ensures e.Some? ==> e.value.artboxPhash.Some?
  {
    EvidenceOfIsCurrent(cat, v.card, cat.evidence);
    EvidenceOf(cat, v.card, cat.evidence)
  }

  function MachineField(cat: Catalog, v: Vote): Fields
    requires JoinKeyVote(cat, v) && VoteEvidence(cat, v).Some?
  {
    var e := VoteEvidence(cat, v).value;
    OnCard(v.card, Seed(cat.illustration[v.printing.value].value, e.artboxPhash.value, v.printing.value, JoinKeyMachine, false,
                        Some(v.pk), Some(v.confidence), VoteGroup(v.pk), e.contentHash))
  }

  /** What the machine pass offers: every admissible vote of a card not excluded, in order. */
  function MachineFields(cat: Catalog, excluded: set<CardId>, votes: seq<Vote>): seq<Fields> {
    if votes == [] then []
    else
      MachineFields(cat, excluded, votes[..|votes| - 1]) +
      (var v := votes[|votes| - 1];
       if JoinKeyVote(cat, v) && v.card !in excluded && VoteEvidence(cat, v).Some? then [MachineField(cat, v)] else [])
  }

  function MachineSkips(cat: Catalog, excluded: set<CardId>, votes: seq<Vote>): nat {
    if votes == [] then 0
    else
      MachineSkips(cat, excluded, votes[..|votes| - 1]) +
      (var v := votes[|votes| - 1];
       if JoinKeyVote(cat, v) && v.card !in excluded && VoteEvidence(cat, v).None? then 1 else 0)
  }

  // ----- what one run should write -----

  /** Python's `s[:limit]`, negative limits included. */
  function Slice(s: seq<Fields>, limit: Option<int>): seq<Fields> {
    if limit.None? || limit.value >= |s| then s
    else if limit.value >= 0 then s[..limit.value]
    else if -limit.value >= |s| then [] else s[..|s| + limit.value]
  }

  function Room(limit: Option<int>, used: nat): Option<int> {
    if limit.None? then None else Some(if limit.value > used then limit.value - used else 0)
  }

  function HumanPlan(cat: Catalog, seeded: set<CardId>, limit: Option<int>): seq<Fields> {
    Slice(HumanFields(cat, seeded, cat.evidence), limit)
  }

  function MachinePlan(cat: Catalog, seeded: set<CardId>, limit: Option<int>): seq<Fields> {
    var human := HumanPlan(cat, seeded, limit);
    Slice(MachineFields(cat, seeded + CardsOf(human), cat.votes), Room(limit, |human|))
  }

  /** The first `limit` human candidates, then admissible machine votes of other cards in pk order for
      whatever of the limit is left. Batches do not appear in it. */
  function Plan(cat: Catalog, seeded: set<CardId>, limit: Option<int>): seq<Fields> {
    HumanPlan(cat, seeded, limit) + MachinePlan(cat, seeded, limit)
  }

  function Rows(fields: seq<Fields>): map<CardId, Fields> {
    if fields == [] then map[] else Rows(fields[..|fields| - 1])[fields[|fields| - 1].card := fields[|fields| - 1]]
  }

  function Illustrations(fields: seq<Fields>): set<string> {
    if fields == [] then {} else Illustrations(fields[..|fields| - 1]) + {fields[|fields| - 1].it.illustrationId}
  }

  // ----- the table and the run -----

  datatype IntegrityError = IntegrityError
  datatype BackfillResult = BackfillResult(dryRun: bool, humanBackedSeeded: nat, machineSeeded: nat, machineSkipped: nat,
                                           distinctIllustrationIds: nat)

  predicate Reports(r: BackfillResult, dryRun: bool, human: seq<Fields>, machine: seq<Fields>) {
    && r.dryRun == dryRun && r.humanBackedSeeded == |human| && r.machineSeeded == |machine|
    && r.distinctIllustrationIds == |Illustrations(human + machine)|
  }

  /** Exactly the cards that are new in the table carry this run's identifier. */
  ghost predicate Stamped(seeds0: map<CardId, Fields>, ids0: map<CardId, Option<string>>, seeds: map<CardId, Fields>,
                          ids: map<CardId, Option<string>>, runId: Option<string>) {
    seeds0.Keys <= seeds.Keys && ids == ids0 + map c | c in seeds.Keys - seeds0.Keys :: runId
  }

  lemma StampedTwice(seeds0: map<CardId, Fields>, ids0: map<CardId, Option<string>>, seeds1: map<CardId, Fields>,
                     ids1: map<CardId, Option<string>>, seeds2: map<CardId, Fields>, ids2: map<CardId, Option<string>>,
                     runId: Option<string>)
    requires Stamped(seeds0, ids0, seeds1, ids1, runId) && Stamped(seeds1, ids1, seeds2, ids2, runId)
    ensures Stamped(seeds0, ids0, seeds2, ids2, runId)
  {
  }

  /** The exemplar table; the card is a one-to-one key. */
  class ExemplarTable {
    var seeds: map<CardId, Fields>
    var runIds: map<CardId, Option<string>>

    /** One atomic insert: all rows or, when a card already has one or comes twice, none. */
    method BulkCreate(fields: seq<Fields>, runId: Option<string>) returns (ok: bool)
      modifies this
      ensures ok <==> DistinctCards(fields) && CardsOf(fields) !! old(seeds).Keys
      ensures seeds == if ok then old(seeds) + Rows(fields) else old(seeds)
      ensures Stamped(old(seeds), old(runIds), seeds, runIds, runId)
    {
      var added: map<CardId, Fields> := map[];
      for i := 0 to |fields|
        invariant added == Rows(fields[..i]) && added.Keys == CardsOf(fields[..i])
        invariant DistinctCards(fields[..i]) && CardsOf(fields[..i]) !! seeds.Keys
        invariant seeds == old(seeds) && runIds == old(runIds)
      {
        assert fields[..i + 1][..i] == fields[..i];
        if fields[i].card in seeds || fields[i].card in added {
          assert fields == fields[..i + 1] + fields[i + 1..];
          DistinctAppend(fields[..i + 1], fields[i + 1..]);
          return false;
        }
        added := added[fields[i].card := fields[i]];
      }
      assert fields[..|fields|] == fields;
      seeds := seeds + added;
      runIds := runIds + map c | c in CardsOf(fields) :: runId;
      assert seeds.Keys - old(seeds.Keys) == CardsOf(fields);
      return true;
    }

    method RunBackfill(cat: Catalog, dryRun: bool, batchSize: nat, limit: Option<int>, runId: Option<string>)
      returns (r: Result<BackfillResult, IntegrityError>)
      requires batchSize > 0
      modifies this
      ensures Concluded(r.Ok?, dryRun, old(seeds), seeds, Plan(cat, old(seeds).Keys, limit))
      ensures Stamped(old(seeds), old(runIds), seeds, runIds, runId)
      ensures r.Ok? ==> Reports(r.value, dryRun, HumanPlan(cat, old(seeds).Keys, limit), MachinePlan(cat, old(seeds).Keys, limit))
      ensures r.Ok? && limit.None? ==>
                r.value.machineSkipped
                == MachineSkips(cat, old(seeds).Keys + CardsOf(HumanPlan(cat, old(seeds).Keys, limit)), cat.votes)
    {
      var human := Slice(HumanFields(cat, seeds.Keys, cat.evidence), limit);
      HumanAvoidsSeeded(cat, seeds.Keys, limit);
      r := BothPasses(cat, dryRun, batchSize, limit, runId, human, MachinePlan(cat, seeds.Keys, limit));
    }

    /** The run after its human candidates are known; `machine` is what the second pass should add. */
    method BothPasses(cat: Catalog, dryRun: bool, batchSize: nat, limit: Option<int>, runId: Option<string>, human: seq<Fields>,
                      ghost machine: seq<Fields>)
      returns (r: Result<BackfillResult, IntegrityError>)
      requires batchSize > 0 && CardsOf(human) !! seeds.Keys
      requires machine == Slice(MachineFields(cat, seeds.Keys + CardsOf(human), cat.votes), Room(limit, |human|))
      modifies this
      ensures Concluded(r.Ok?, dryRun, old(seeds), seeds, human + machine)
      ensures Stamped(old(seeds), old(runIds), seeds, runIds, runId)
      ensures r.Ok? ==> Reports(r.value, dryRun, human, machine)
      ensures r.Ok? && limit.None? ==> r.value.machineSkipped == MachineSkips(cat, old(seeds).Keys + CardsOf(human), cat.votes)
    {
      ghost var base := seeds;
      var ok := HumanPass(human, dryRun, runId);
      if !ok {
        NothingInserted(base, human, machine);
        return Raised(IntegrityError);
      }
      ghost var seeds1, ids1 := seeds, runIds;
      r := AfterHumans(cat, dryRun, batchSize, limit, runId, human, machine, base);
      StampedTwice(old(seeds), old(runIds), seeds1, ids1, seeds, runIds, runId);
    }

    method HumanPass(human: seq<Fields>, dryRun: bool, runId: Option<string>) returns (ok: bool)
      requires CardsOf(human) !! seeds.Keys
      modifies this
      ensures ok <==> dryRun || DistinctCards(human)
      ensures Holds(old(seeds), if ok then human else [], dryRun)
      ensures Stamped(old(seeds), old(runIds), seeds, runIds, runId)
    {
      assert [] + human == human;
      ok := true;
      if human != [] {
        ok := InsertBatch(human, dryRun, runId, seeds, []);
      }
    }

    method AfterHumans(cat: Catalog, dryRun: bool, batchSize: nat, limit: Option<int>, runId: Option<string>, human: seq<Fields>,
                       ghost machine: seq<Fields>, ghost base: map<CardId, Fields>)
      returns (r: Result<BackfillResult, IntegrityError>)
      requires batchSize > 0 && Holds(base, human, dryRun)
      requires machine == Slice(MachineFields(cat, base.Keys + CardsOf(human), cat.votes), Room(limit, |human|))
      modifies this
      ensures Concluded(r.Ok?, dryRun, base, seeds, human + machine)
      ensures Stamped(old(seeds), old(runIds), seeds, runIds, runId)
      ensures r.Ok? ==> Reports(r.value, dryRun, human, machine)
      ensures r.Ok? && limit.None? ==> r.value.machineSkipped == MachineSkips(cat, base.Keys + CardsOf(human), cat.votes)
    {
      var remaining := Room(limit, |human|);
      if remaining.Some? && remaining.value <= 0 {
        assert human + machine == human;
        return Ok(BackfillResult(dryRun, |human|, 0, 0, |Illustrations(human)|));
      }
      var ok, count, skipped, illustrations, written := MachinePass(cat, dryRun, batchSize, remaining, runId, human, base);
      PassConcludes(ok, dryRun, base, seeds, human, written, machine);
      if !ok {
        return Raised(IntegrityError);
      }
      IllustrationsAppend(human, written);
      return Ok(BackfillResult(dryRun, |human|, count, skipped, |Illustrations(human) + illustrations|));
    }

    /** The second pass, over the cards that neither the table nor the human pass has. */
    method MachinePass(cat: Catalog, dryRun: bool, batchSize: nat, remaining: Option<int>, runId: Option<string>, human: seq<Fields>,
                       ghost base: map<CardId, Fields>)
      returns (ok: bool, count: nat, skipped: nat, illustrations: set<string>, ghost written: seq<Fields>)
      requires batchSize > 0 && (remaining.Some? ==> remaining.value > 0) && Holds(base, human, dryRun)
      modifies this
      ensures var excluded := base.Keys + CardsOf(human);
              && Written(ok, dryRun, human, written, Slice(MachineFields(cat, excluded, cat.votes), remaining))
              && (ok && remaining.None? ==> skipped == MachineSkips(cat, excluded, cat.votes))
      ensures ok ==> count == |written| && illustrations == Illustrations(written)
      ensures Holds(base, human + written, dryRun)
      ensures Stamped(old(seeds), old(runIds), seeds, runIds, runId)
    {
      RowsKeys(human);
      var alreadySeeded := CardsOf(human);
      ghost var excluded := base.Keys + alreadySeeded;
      assert seeds.Keys + alreadySeeded == excluded;
      var batches := JoinKeyBatches(cat, seeds.Keys, alreadySeeded, batchSize);
      MachineAvoidsExcluded(cat, excluded);
      ok, count, skipped, illustrations, written := WriteBatches(batches, dryRun, remaining, runId, base, human);
    }

    /** What the table holds once `rows` are planned: everything, or in a dry run nothing new. */
    ghost predicate Holds(base: map<CardId, Fields>, rows: seq<Fields>, dryRun: bool)
      reads this
    {
      if dryRun then seeds == base else seeds == base + Rows(rows) && DistinctCards(rows)
    }

    /** One batch's insert, after the rows `rows`; skipped in a dry run. */
    method InsertBatch(batch: seq<Fields>, dryRun: bool, runId: Option<string>, ghost base: map<CardId, Fields>, ghost rows: seq<Fields>)
      returns (ok: bool)
      requires Holds(base, rows, dryRun) && CardsOf(batch) !! base.Keys
      modifies this
      ensures ok <==> dryRun || DistinctCards(rows + batch)
      ensures Holds(base, if ok then rows + batch else rows, dryRun)
      ensures Stamped(old(seeds), old(runIds), seeds, runIds, runId)
    {
      if dryRun {
        return true;
      }
      InsertAfter(base, rows, batch);
      ok := BulkCreate(batch, runId);
    }

    /** Cuts one batch down to what is left of the limit and inserts that, unless nothing is left. */
    method TakeBatch(fields: seq<Fields>, dryRun: bool, remaining: Option<int>, runId: Option<string>, ghost base: map<CardId, Fields>,
                     ghost before: seq<Fields>, ghost written: seq<Fields>, ghost offered: seq<Fields>, ghost sofar: seq<Fields>,
                     ghost limit: Option<int>)
      returns (ok: bool, batch: seq<Fields>, left: Option<int>)
      requires Holds(base, before + written, dryRun) && CardsOf(offered) !! base.Keys
      requires Progress(offered, sofar, limit, remaining, written) && remaining != Some(0) && sofar + fields <= offered
      modifies this
      ensures Holds(base, before + (if ok then written + batch else written), dryRun)
      ensures Stamped(old(seeds), old(runIds), seeds, runIds, runId)
      ensures if ok then Progress(offered, sofar + fields, limit, left, written + batch)
              else Refused(dryRun, before, written, Slice(offered, limit))
    {
      Advance(offered, sofar, fields, limit, remaining, written);
      batch := Slice(fields, remaining);
      left := Left(remaining, batch);
      if batch == [] {
        assert written + batch == written;
        return true, batch, left;
      }
      Regroup(before, written, batch, Slice(offered, limit));
      ok := InsertBatch(batch, dryRun, runId, base, before + written);
    }

    /** What the loop has counted once the first `i` batches are taken. */
    ghost predicate Counted(t: Tally, batches: seq<Batch>, i: nat, limit: Option<int>, written: seq<Fields>) {
      && i <= |batches| && t.skipped == AllSkips(batches[..i]) && t.count == |written| && t.illustrations == Illustrations(written)
      && Progress(AllFields(batches), AllFields(batches[..i]), limit, t.remaining, written)
    }

    /** The loop body. */
    method VisitBatch(batches: seq<Batch>, i: nat, t: Tally, dryRun: bool, runId: Option<string>, ghost limit: Option<int>,
                      ghost base: map<CardId, Fields>, ghost before: seq<Fields>, ghost written: seq<Fields>,
                      ghost seeds0: map<CardId, Fields>, ghost ids0: map<CardId, Option<string>>)
      returns (ok: bool, t': Tally, ghost written': seq<Fields>)
      requires i < |batches| && Counted(t, batches, i, limit, written) && t.remaining != Some(0)
      requires Holds(base, before + written, dryRun) && CardsOf(AllFields(batches)) !! base.Keys
      requires Stamped(seeds0, ids0, seeds, runIds, runId)
      modifies this
      ensures Holds(base, before + written', dryRun)
      ensures Stamped(seeds0, ids0, seeds, runIds, runId)
      ensures if ok then Counted(t', batches, i + 1, limit, written')
              else Refused(dryRun, before, written', Slice(AllFields(batches), limit))
    {
      OneMoreBatch(batches, i);
      var batch, left;
      ok, batch, left := TakeBatch(batches[i].fields, dryRun, t.remaining, runId, base, before, written, AllFields(batches), AllFields(batches[..i]), limit);
      StampedTwice(seeds0, ids0, old(seeds), old(runIds), seeds, runIds, runId);
      if !ok {
        return false, t, written;
      }
      IllustrationsAppend(written, batch);
      t' := Tally(t.count + |batch|, t.skipped + batches[i].skipped, t.illustrations + Illustrations(batch), left);
      written' := written + batch;
    }

    /** The loop over the generator's batches; `done` of them were taken when it ended. */
    method WalkBatches(batches: seq<Batch>, dryRun: bool, limit: Option<int>, runId: Option<string>,
                       ghost base: map<CardId, Fields>, ghost before: seq<Fields>)
      returns (ok: bool, t: Tally, ghost done: nat, ghost written: seq<Fields>)
      requires (limit.Some? ==> limit.value > 0) && CardsOf(AllFields(batches)) !! base.Keys
      requires Holds(base, before, dryRun)
      modifies this
      ensures if ok then Counted(t, batches, done, limit, written) && (done == |batches| || t.remaining == Some(0))
              else Refused(dryRun, before, written, Slice(AllFields(batches), limit))
      ensures Holds(base, before + written, dryRun)
      ensures Stamped(old(seeds), old(runIds), seeds, runIds, runId)
    {
      t, written, done, ok := Tally(0, 0, {}, limit), [], 0, true;
      assert before + written == before && [] <= Slice(AllFields(batches), limit);
      var i: nat := 0;
      while i < |batches| && (t.remaining.None? || t.remaining.value > 0)
        invariant Counted(t, batches, i, limit, written)
        invariant Holds(base, before + written, dryRun) && Stamped(old(seeds), old(runIds), seeds, runIds, runId)
        decreases |batches| - i
      {
        ok, t, written := VisitBatch(batches, i, t, dryRun, runId, limit, base, before, written, old(seeds), old(runIds));
        if !ok {
          return;
        }
        i := i + 1;
      }
      ok, done := true, i;
    }

    /** The machine pass, after the rows `before` of the human pass. */
    method WriteBatches(batches: seq<Batch>, dryRun: bool, limit: Option<int>, runId: Option<string>,
                        ghost base: map<CardId, Fields>, ghost before: seq<Fields>)
      returns (ok: bool, count: nat, skipped: nat, illustrations: set<string>, ghost written: seq<Fields>)
      requires (limit.Some? ==> limit.value > 0) && CardsOf(AllFields(batches)) !! base.Keys
      requires Holds(base, before, dryRun)
      modifies this
      ensures Written(ok, dryRun, before, written, Slice(AllFields(batches), limit))
      ensures ok ==> count == |written| && illustrations == Illustrations(written)
      ensures ok && limit.None? ==> skipped == AllSkips(batches)
      ensures Holds(base, before + written, dryRun)
      ensures Stamped(old(seeds), old(runIds), seeds, runIds, runId)
    {
      var t;
      ghost var done;
      ok, t, done, written := WalkBatches(batches, dryRun, limit, runId, base, before);
      count, skipped, illustrations := t.count, t.skipped, t.illustrations;
      assert batches[..|batches|] == batches;
    }
  }

  /** The table `after` a run over `base` that was to add `plan`: all of it, nothing in a dry run, and
      when a card would come twice a part of it and an error. */
  ghost predicate Concluded(ok: bool, dryRun: bool, base: map<CardId, Fields>, after: map<CardId, Fields>, plan: seq<Fields>) {
    if dryRun then ok && after == base
    else if DistinctCards(plan) then ok && after == base + Rows(plan)
    else !ok && exists k :: 0 <= k <= |plan| && after == base + Rows(plan[..k])
  }

  lemma NothingInserted(base: map<CardId, Fields>, human: seq<Fields>, machine: seq<Fields>)
    requires !DistinctCards(human)
    ensures Concluded(false, false, base, base, human + machine)
  {
    DistinctAppend(human, machine);
    assert base == base + Rows((human + machine)[..0]);
  }

  lemma PassConcludes(ok: bool, dryRun: bool, base: map<CardId, Fields>, after: map<CardId, Fields>, human: seq<Fields>,
                      written: seq<Fields>, machine: seq<Fields>)
    requires Written(ok, dryRun, human, written, machine)
    requires if dryRun then after == base else after == base + Rows(human + written) && DistinctCards(human + written)
    ensures Concluded(ok, dryRun, base, after, human + machine)
  {
    if !ok {
      assert (human + machine)[..|human + written|] == human + written;
    }
  }

  lemma InsertAfter(base: map<CardId, Fields>, rows: seq<Fields>, batch: seq<Fields>)
    ensures base + Rows(rows) + Rows(batch) == base + Rows(rows + batch)
    ensures DistinctCards(rows) && CardsOf(batch) !! base.Keys ==>
              (DistinctCards(rows + batch) <==> DistinctCards(batch) && CardsOf(batch) !! (base + Rows(rows)).Keys)
  {
    RowsKeys(rows);
    RowsAppend(rows, batch);
    DistinctAppend(rows, batch);
    assert (base + Rows(rows)).Keys == base.Keys + CardsOf(rows);
  }

  datatype Batch = Batch(fields: seq<Fields>, skipped: nat)

  function AllFields(batches: seq<Batch>): seq<Fields> {
    if batches == [] then [] else AllFields(batches[..|batches| - 1]) + batches[|batches| - 1].fields
  }

  function AllSkips(batches: seq<Batch>): nat {
    if batches == [] then 0 else AllSkips(batches[..|batches| - 1]) + batches[|batches| - 1].skipped
  }

  function Left(remaining: Option<int>, batch: seq<Fields>): Option<int> {
    if remaining.Some? then Some(remaining.value - |batch|) else None
  }

  /** How the loop ends: with everything it should write, or stopped by a card that comes twice. */
  predicate Written(ok: bool, dryRun: bool, before: seq<Fields>, written: seq<Fields>, target: seq<Fields>) {
    if ok then written == target && (dryRun || DistinctCards(before + target)) else Refused(dryRun, before, written, target)
  }

  predicate Refused(dryRun: bool, before: seq<Fields>, written: seq<Fields>, target: seq<Fields>) {
    !dryRun && written <= target && !DistinctCards(before + target)
  }

  /** The loop's counters. */
  datatype Tally = Tally(count: nat, skipped: nat, illustrations: set<string>, remaining: Option<int>)

  /** Where the loop stands: of the rows `offered` in all, those in `sofar` have been looked at. */
  ghost predicate Progress(offered: seq<Fields>, sofar: seq<Fields>, limit: Option<int>, remaining: Option<int>, written: seq<Fields>) {
    && written <= Slice(offered, limit)
    && (remaining.Some? <==> limit.Some?)
    && (limit.Some? ==> remaining.value == limit.value - |written| >= 0)
    && written == if remaining == Some(0) then Slice(offered, limit) else sofar
  }

  lemma Advance(offered: seq<Fields>, sofar: seq<Fields>, full: seq<Fields>, limit: Option<int>, remaining: Option<int>, written: seq<Fields>)
    requires Progress(offered, sofar, limit, remaining, written) && remaining != Some(0) && sofar + full <= offered
    ensures var batch := Slice(full, remaining);
            && written + batch <= Slice(offered, limit)
            && CardsOf(batch) <= CardsOf(offered)
            && Progress(offered, sofar + full, limit, Left(remaining, batch), written + batch)
  {
    SliceStep(offered, written, full, limit, remaining);
  }

  lemma OneMoreBatch(batches: seq<Batch>, i: nat)
    requires i < |batches|
    ensures AllSkips(batches[..i + 1]) == AllSkips(batches[..i]) + batches[i].skipped
    ensures AllFields(batches[..i + 1]) == AllFields(batches[..i]) + batches[i].fields <= AllFields(batches)
  {
    assert batches[..i + 1][..i] == batches[..i];
    BatchesPrefix(batches, i + 1);
  }

  lemma {:induction false} BatchesPrefix(batches: seq<Batch>, i: nat)
    requires i <= |batches|
    ensures AllFields(batches[..i]) <= AllFields(batches)
    decreases |batches| - i
  {
    if i < |batches| {
      BatchesPrefix(batches, i + 1);
      assert batches[..i + 1][..i] == batches[..i];
    } else {
      assert batches[..i] == batches;
    }
  }

  lemma Regroup(before: seq<Fields>, written: seq<Fields>, batch: seq<Fields>, target: seq<Fields>)
    requires written + batch <= target
    ensures before + written + batch == before + (written + batch)
    ensures DistinctCards(before + target) ==> DistinctCards(before + (written + batch))
  {
    var now := before + (written + batch);
    assert before + target == now + target[|written + batch|..];
    DistinctAppend(now, target[|written + batch|..]);
  }

  /** _join_key_machine_candidates run to its end: what it yields depends only on the snapshot it
      reads, never on what its consumer writes in between. */
  method JoinKeyBatches(cat: Catalog, seeded: set<CardId>, alreadySeeded: set<CardId>, batchSize: nat) returns (batches: seq<Batch>)
    requires batchSize > 0
    ensures AllFields(batches) == MachineFields(cat, seeded + alreadySeeded, cat.votes)
    ensures AllSkips(batches) == MachineSkips(cat, seeded + alreadySeeded, cat.votes)
  {
    var votes := VotesQuery(cat, seeded, cat.votes);
    QueryThenFilter(cat, seeded, alreadySeeded, cat.votes);
    batches := [];
    var position := 0;
    while position < |votes|
      invariant 0 <= position <= |votes|
      invariant AllFields(batches) == MachineFields(cat, alreadySeeded, votes[..position])
      invariant AllSkips(batches) == MachineSkips(cat, alreadySeeded, votes[..position])
      decreases |votes| - position
    {
      var end := if position + batchSize < |votes| then position + batchSize else |votes|;
      var fields, skipped := NextBatch(cat, alreadySeeded, votes[position..end]);
      TwoChunks(cat, alreadySeeded, votes, position, end);
      BatchAppended(batches, Batch(fields, skipped));
      position := end;
      if fields == [] && skipped == 0 {
        continue;
      }
      batches := batches + [Batch(fields, skipped)];
    }
    assert votes[..|votes|] == votes;
  }

  lemma TwoChunks(cat: Catalog, excluded: set<CardId>, votes: seq<Vote>, position: nat, end: nat)
    requires position <= end <= |votes|
    ensures MachineFields(cat, excluded, votes[..end])
            == MachineFields(cat, excluded, votes[..position]) + MachineFields(cat, excluded, votes[position..end])
    ensures MachineSkips(cat, excluded, votes[..end])
            == MachineSkips(cat, excluded, votes[..position]) + MachineSkips(cat, excluded, votes[position..end])
  {
    assert votes[..position] + votes[position..end] == votes[..end];
    MachineAppend(cat, excluded, votes[..position], votes[position..end]);
  }

  lemma BatchAppended(batches: seq<Batch>, batch: Batch)
    ensures AllFields(batches + [batch]) == AllFields(batches) + batch.fields
    ensures AllSkips(batches + [batch]) == AllSkips(batches) + batch.skipped
    ensures batch.fields == [] ==> AllFields(batches) + batch.fields == AllFields(batches)
  {
    assert (batches + [batch])[..|batches|] == batches;
  }

  /** One step of the generator: look the chunk's evidence up, keep the votes that have some. */
  method NextBatch(cat: Catalog, alreadySeeded: set<CardId>, chunk: seq<Vote>) returns (batch: seq<Fields>, skipped: nat)
    requires forall v :: v in chunk ==> JoinKeyVote(cat, v)
    ensures batch == MachineFields(cat, alreadySeeded, chunk) && skipped == MachineSkips(cat, alreadySeeded, chunk)
  {
    batch, skipped := [], 0;
    for i := 0 to |chunk|
      invariant batch == MachineFields(cat, alreadySeeded, chunk[..i])
      invariant skipped == MachineSkips(cat, alreadySeeded, chunk[..i])
    {
      assert chunk[..i + 1][..i] == chunk[..i];
      var vote := chunk[i];
      if vote.card !in alreadySeeded {
        var evidence := VoteEvidence(cat, vote);
        if evidence.None? {
          skipped := skipped + 1;
        } else {
          batch := batch + [MachineField(cat, vote)];
        }
      }
    }
    assert chunk[..|chunk|] == chunk;
  }

  // ----- small facts the run needs -----

  lemma SliceIsPrefix(s: seq<Fields>, limit: Option<int>)
    ensures Slice(s, limit) <= s
  {
  }

  /** Cutting each batch to what is left of the limit cuts the whole offer to the limit. */
  lemma SliceStep(offered: seq<Fields>, written: seq<Fields>, full: seq<Fields>, limit: Option<int>, remaining: Option<int>)
    requires written + full <= offered && (limit.Some? <==> remaining.Some?)
    requires limit.Some? ==> remaining.value == limit.value - |written| > 0
    ensures var batch := Slice(full, remaining);
            && written + batch <= Slice(offered, limit) && written + batch <= offered
            && (remaining.Some? && |batch| >= remaining.value ==> written + batch == Slice(offered, limit))
            && (remaining.Some? ==> |batch| <= remaining.value)
            && (remaining.None? || |batch| < remaining.value ==> batch == full)
            && CardsOf(batch) <= CardsOf(offered)
  {
    var batch := Slice(full, remaining);
    assert written + batch <= written + full;
    assert offered == written + batch + offered[|written + batch|..];
    DistinctAppend(written, batch);
    DistinctAppend(written + batch, offered[|written + batch|..]);
  }

  lemma {:induction false} HumanFieldsExact(cat: Catalog, excluded: set<CardId>, evidence: seq<Evidence>)
    ensures forall f :: f in HumanFields(cat, excluded, evidence) <==>
              exists e :: e in evidence && HumanCandidate(cat, e) && e.card !in excluded && f == HumanField(cat, e)
  {
    if evidence != [] {
      HumanFieldsExact(cat, excluded, evidence[1..]);
      assert evidence == [evidence[0]] + evidence[1..];
    }
  }

  lemma HumanAvoidsSeeded(cat: Catalog, seeded: set<CardId>, limit: Option<int>)
    ensures CardsOf(HumanPlan(cat, seeded, limit)) !! seeded
  {
    SliceIsPrefix(HumanFields(cat, seeded, cat.evidence), limit);
    HumanFieldsExact(cat, seeded, cat.evidence);
    CardsMembers(HumanPlan(cat, seeded, limit));
    forall c | c in CardsOf(HumanPlan(cat, seeded, limit)) ensures c !in seeded {
      var f :| f in HumanPlan(cat, seeded, limit) && f.card == c;
      assert f in HumanFields(cat, seeded, cat.evidence);
    }
  }

  lemma MachineAvoidsExcluded(cat: Catalog, excluded: set<CardId>)
    ensures CardsOf(MachineFields(cat, excluded, cat.votes)) !! excluded
  {
    MachineFieldsExact(cat, excluded, cat.votes);
    CardsMembers(MachineFields(cat, excluded, cat.votes));
    forall c | c in CardsOf(MachineFields(cat, excluded, cat.votes)) ensures c !in excluded {
      var f :| f in MachineFields(cat, excluded, cat.votes) && f.card == c;
    }
  }

  lemma {:induction false} MachineFieldsExact(cat: Catalog, excluded: set<CardId>, votes: seq<Vote>)
    ensures forall f :: f in MachineFields(cat, excluded, votes) <==>
              exists v :: v in votes && JoinKeyVote(cat, v) && v.card !in excluded && VoteEvidence(cat, v).Some? && f == MachineField(cat, v)
  {
    if votes != [] {
      MachineFieldsExact(cat, excluded, votes[..|votes| - 1]);
      assert votes == votes[..|votes| - 1] + [votes[|votes| - 1]];
    }
  }

  /** Excluding in the query and again in memory is excluding once. */
  lemma {:induction false} QueryThenFilter(cat: Catalog, seeded: set<CardId>, already: set<CardId>, votes: seq<Vote>)
    ensures MachineFields(cat, already, VotesQuery(cat, seeded, votes)) == MachineFields(cat, seeded + already, votes)
    ensures MachineSkips(cat, already, VotesQuery(cat, seeded, votes)) == MachineSkips(cat, seeded + already, votes)
    ensures forall v :: v in VotesQuery(cat, seeded, votes) ==> JoinKeyVote(cat, v)
  {
    if votes != [] {
      var front, v := votes[..|votes| - 1], votes[|votes| - 1];
      QueryThenFilter(cat, seeded, already, front);
      var q := VotesQuery(cat, seeded, front);
      if JoinKeyVote(cat, v) && v.card !in seeded {
        assert (q + [v])[..|q|] == q;
      } else {
        assert q + [] == q;
      }
    }
  }

  lemma {:induction false} MachineAppend(cat: Catalog, excluded: set<CardId>, a: seq<Vote>, b: seq<Vote>)
    ensures MachineFields(cat, excluded, a + b) == MachineFields(cat, excluded, a) + MachineFields(cat, excluded, b)
    ensures MachineSkips(cat, excluded, a + b) == MachineSkips(cat, excluded, a) + MachineSkips(cat, excluded, b)
    decreases |b|
  {
    if b == [] {
      assert a + b == a;
    } else {
      var front := b[..|b| - 1];
      MachineAppend(cat, excluded, a, front);
      assert (a + b)[..|a + b| - 1] == a + front && (a + b)[|a + b| - 1] == b[|b| - 1];
    }
  }

  lemma {:induction false} RowsKeys(fields: seq<Fields>)
    ensures Rows(fields).Keys == CardsOf(fields)
  {
    if fields != [] {
      RowsKeys(fields[..|fields| - 1]);
    }
  }

  lemma {:induction false} RowsAppend(a: seq<Fields>, b: seq<Fields>)
    ensures Rows(a + b) == Rows(a) + Rows(b)
    decreases |b|
  {
    if b == [] {
      assert a + b == a;
    } else {
      RowsAppend(a, b[..|b| - 1]);
      assert (a + b)[..|a + b| - 1] == a + b[..|b| - 1];
    }
  }

  lemma {:induction false} IllustrationsAppend(a: seq<Fields>, b: seq<Fields>)
    ensures Illustrations(a + b) == Illustrations(a) + Illustrations(b)
    decreases |b|
  {
    if b == [] {
      assert a + b == a;
    } else {
      IllustrationsAppend(a, b[..|b| - 1]);
      assert (a + b)[..|a + b| - 1] == a + b[..|b| - 1];
    }
  }

  // ----- the dry run's hash list -----

  function Hashes(fields: seq<Fields>): seq<int> {
    if fields == [] then [] else Hashes(fields[..|fields| - 1]) + [fields[|fields| - 1].it.artboxPhash]
  }

  lemma {:induction false} HashesAppend(a: seq<Fields>, b: seq<Fields>)
    ensures Hashes(a + b) == Hashes(a) + Hashes(b)
    decreases |b|
  {
    if b == [] {
      assert a + b == a;
    } else {
      HashesAppend(a, b[..|b| - 1]);
      assert (a + b)[..|a + b| - 1] == a + b[..|b| - 1];
    }
  }

  /** Re-derived without writing, yet exactly the hashes an unlimited run would store, in its order. */
  method DryRunCandidateHashes(cat: Catalog, seeded: set<CardId>, batchSize: nat) returns (hashes: seq<int>)
    requires batchSize > 0
    ensures hashes == Hashes(Plan(cat, seeded, None))
  {
    var human := HumanFields(cat, seeded, cat.evidence);
    var alreadySeeded := CardsOf(human);
    var batches := JoinKeyBatches(cat, seeded, alreadySeeded, batchSize);
    hashes := ExtendHashes(Hashes(human), batches);
    HashesAppend(human, AllFields(batches));
  }

  method ExtendHashes(start: seq<int>, batches: seq<Batch>) returns (hashes: seq<int>)
    ensures hashes == start + Hashes(AllFields(batches))
  {
    hashes := start;
    for i := 0 to |batches|
      invariant hashes == start + Hashes(AllFields(batches[..i]))
    {
      assert batches[..i + 1][..i] == batches[..i];
      HashesAppend(AllFields(batches[..i]), batches[i].fields);
      hashes := hashes + Hashes(batches[i].fields);
    }
    assert batches[..|batches|] == batches;
  }

  // ----- who is seeded -----

  /** Every planned row: a card not seeded before; a human row for each card with a human candidate
      that the limit lets through, and a machine row only for cards with none. */
  lemma HumanTakesPriority(cat: Catalog, seeded: set<CardId>, limit: Option<int>)
    ensures CardsOf(Plan(cat, seeded, limit)) !! seeded
    ensures forall f :: f in Plan(cat, seeded, limit) ==> (f.it.isHumanBacked <==> f.it.seedKind == HumanResolution)
    ensures forall f :: f in Plan(cat, seeded, limit) ==>
              (f.it.isHumanBacked <==> f.card in CardsOf(HumanFields(cat, seeded, cat.evidence)))
  {
    var human, all := HumanPlan(cat, seeded, limit), HumanFields(cat, seeded, cat.evidence);
    var excluded := seeded + CardsOf(human);
    var machine := MachinePlan(cat, seeded, limit);
    HumanFieldsExact(cat, seeded, cat.evidence);
    CardsMembers(all);
    MachineFieldsExact(cat, excluded, cat.votes);
    HumanAvoidsSeeded(cat, seeded, limit);
    MachineAvoidsExcluded(cat, excluded);
    DistinctAppend(human, machine);
    PrefixCards(machine, MachineFields(cat, excluded, cat.votes));
    CardsMembers(machine);
    assert machine != [] ==> human == all;
    forall f | f in Plan(cat, seeded, limit) ensures
      (f.it.isHumanBacked <==> f.it.seedKind == HumanResolution)
      && (f.it.isHumanBacked <==> f.card in CardsOf(all)) {
      if f in human {
        assert f in all;
      } else {
        assert f in machine && f in MachineFields(cat, excluded, cat.votes);
      }
    }
  }

  ghost predicate OneCurrentRowPerCard(cat: Catalog, evidence: seq<Evidence>) {
    forall i, j :: 0 <= i < j < |evidence| && CurrentArtbox(cat, evidence[i]) && CurrentArtbox(cat, evidence[j])
      ==> evidence[i].card != evidence[j].card
  }

  ghost predicate OneJoinKeyVotePerCard(cat: Catalog, votes: seq<Vote>) {
    forall i, j :: 0 <= i < j < |votes| && JoinKeyVote(cat, votes[i]) && JoinKeyVote(cat, votes[j])
      ==> votes[i].card != votes[j].card
  }

  lemma FirstHumanIsNew(cat: Catalog, excluded: set<CardId>, evidence: seq<Evidence>)
    requires evidence != [] && OneCurrentRowPerCard(cat, evidence) && CurrentArtbox(cat, evidence[0])
    ensures evidence[0].card !in CardsOf(HumanFields(cat, excluded, evidence[1..]))
  {
    var rest := HumanFields(cat, excluded, evidence[1..]);
    HumanFieldsExact(cat, excluded, evidence[1..]);
    CardsMembers(rest);
  }

  lemma {:induction false} HumanDistinct(cat: Catalog, excluded: set<CardId>, evidence: seq<Evidence>)
    requires OneCurrentRowPerCard(cat, evidence)
    ensures DistinctCards(HumanFields(cat, excluded, evidence))
  {
    if evidence != [] {
      var rest := HumanFields(cat, excluded, evidence[1..]);
      HumanDistinct(cat, excluded, evidence[1..]);
      if HumanCandidate(cat, evidence[0]) && evidence[0].card !in excluded {
        FirstHumanIsNew(cat, excluded, evidence);
        var one := [HumanField(cat, evidence[0])];
        assert one[..0] == [];
        DistinctAppend(one, rest);
      } else {
        assert [] + rest == rest;
      }
    }
  }

  lemma LastMachineIsNew(cat: Catalog, excluded: set<CardId>, votes: seq<Vote>)
    requires votes != [] && OneJoinKeyVotePerCard(cat, votes) && JoinKeyVote(cat, votes[|votes| - 1])
    ensures votes[|votes| - 1].card !in CardsOf(MachineFields(cat, excluded, votes[..|votes| - 1]))
  {
    var last := votes[|votes| - 1];
    var front := MachineFields(cat, excluded, votes[..|votes| - 1]);
    MachineFieldsExact(cat, excluded, votes[..|votes| - 1]);
    CardsMembers(front);
  }

  lemma {:induction false} MachineDistinct(cat: Catalog, excluded: set<CardId>, votes: seq<Vote>)
    requires OneJoinKeyVotePerCard(cat, votes)
    ensures DistinctCards(MachineFields(cat, excluded, votes))
  {
    if votes != [] {
      var front, v := MachineFields(cat, excluded, votes[..|votes| - 1]), votes[|votes| - 1];
      MachineDistinct(cat, excluded, votes[..|votes| - 1]);
      if JoinKeyVote(cat, v) && v.card !in excluded && VoteEvidence(cat, v).Some? {
        LastMachineIsNew(cat, excluded, votes);
        assert (front + [MachineField(cat, v)])[..|front|] == front;
      } else {
        assert front + [] == front;
      }
    }
  }

  /** With one current evidence row and one join-key vote per card, no run plans a card twice, so no
      run ever meets an integrity error. */
  lemma NoCardPlannedTwice(cat: Catalog, seeded: set<CardId>, limit: Option<int>)
    requires OneCurrentRowPerCard(cat, cat.evidence) && OneJoinKeyVotePerCard(cat, cat.votes)
    ensures DistinctCards(Plan(cat, seeded, limit))
  {
    var human := HumanPlan(cat, seeded, limit);
    var excluded := seeded + CardsOf(human);
    HumanDistinct(cat, seeded, cat.evidence);
    PrefixCards(human, HumanFields(cat, seeded, cat.evidence));
    MachineDistinct(cat, excluded, cat.votes);
    PrefixCards(MachinePlan(cat, seeded, limit), MachineFields(cat, excluded, cat.votes));
    MachineAvoidsExcluded(cat, excluded);
    DistinctAppend(human, MachinePlan(cat, seeded, limit));
  }

  // ----- resuming -----

  /** A limited plan is the beginning of the unlimited one. */
  lemma LimitedPlanIsPrefix(cat: Catalog, seeded: set<CardId>, limit: Option<int>)
    ensures Plan(cat, seeded, limit) <= Plan(cat, seeded, None)
  {
    var human, all := HumanPlan(cat, seeded, limit), HumanFields(cat, seeded, cat.evidence);
    if human == all {
      assert MachinePlan(cat, seeded, limit) <= MachinePlan(cat, seeded, None);
    } else {
      assert MachinePlan(cat, seeded, limit) == [];
      assert Plan(cat, seeded, limit) == human <= all <= Plan(cat, seeded, None);
    }
  }

  lemma {:induction false} HumanFieldsExclude(cat: Catalog, excluded: set<CardId>, more: set<CardId>, evidence: seq<Evidence>)
    ensures HumanFields(cat, excluded + more, evidence) == Keep(HumanFields(cat, excluded, evidence), more)
  {
    if evidence != [] {
      var first := if HumanCandidate(cat, evidence[0]) && evidence[0].card !in excluded then [HumanField(cat, evidence[0])] else [];
      HumanFieldsExclude(cat, excluded, more, evidence[1..]);
      KeepAppend(first, HumanFields(cat, excluded, evidence[1..]), more);
      assert first != [] ==> first[..0] == [];
    }
  }

  lemma {:induction false} MachineFieldsExclude(cat: Catalog, excluded: set<CardId>, more: set<CardId>, votes: seq<Vote>)
    ensures MachineFields(cat, excluded + more, votes) == Keep(MachineFields(cat, excluded, votes), more)
  {
    if votes != [] {
      var front, v := votes[..|votes| - 1], votes[|votes| - 1];
      MachineFieldsExclude(cat, excluded, more, front);
      var last := if JoinKeyVote(cat, v) && v.card !in excluded && VoteEvidence(cat, v).Some? then [MachineField(cat, v)] else [];
      KeepAppend(MachineFields(cat, excluded, front), last, more);
      assert last != [] ==> last[..0] == [];
    }
  }

  /** Once the first rows of a plan are in the table, the plan is what is left of it. */
  lemma PlanAfterPrefix(cat: Catalog, seeded: set<CardId>, done: seq<Fields>, rest: seq<Fields>)
    requires Plan(cat, seeded, None) == done + rest && DistinctCards(done + rest)
    ensures Plan(cat, seeded + CardsOf(done), None) == rest
  {
    var human := HumanFields(cat, seeded, cat.evidence);
    var machine := MachineFields(cat, seeded + CardsOf(human), cat.votes);
    assert Plan(cat, seeded, None) == human + machine;
    SplitTwoWays(done, rest, human, machine);
    DistinctAppend(human, machine);
    if |done| <= |human| {
      var left := human[|done|..];
      PlanAfterHumans(cat, seeded, done, left);
      assert rest == left + machine;
    } else {
      var taken := done[|human|..];
      assert done == human + taken && machine == taken + rest;
      PlanAfterAllHumans(cat, seeded, taken, rest);
    }
  }

  lemma SplitTwoWays(a: seq<Fields>, b: seq<Fields>, c: seq<Fields>, d: seq<Fields>)
    requires a + b == c + d
    ensures |a| <= |c| ==> c == a + c[|a|..] && b == c[|a|..] + d
    ensures |a| > |c| ==> a == c + a[|c|..] && d == a[|c|..] + b
  {
    if |a| <= |c| {
      assert a == (a + b)[..|a|] == c[..|a|];
      assert b == (a + b)[|a|..] == c[|a|..] + d;
    } else {
      assert c == (c + d)[..|c|] == a[..|c|];
      assert d == (c + d)[|c|..] == a[|c|..] + b;
    }
  }

  lemma PlanAfterHumans(cat: Catalog, seeded: set<CardId>, done: seq<Fields>, left: seq<Fields>)
    requires HumanFields(cat, seeded, cat.evidence) == done + left && DistinctCards(done + left)
    ensures Plan(cat, seeded + CardsOf(done), None) == left + MachineFields(cat, seeded + CardsOf(done + left), cat.votes)
  {
    DistinctAppend(done, left);
    HumanFieldsExclude(cat, seeded, CardsOf(done), cat.evidence);
    KeepAfterPrefix(done, left, CardsOf(done));
    assert seeded + CardsOf(done) + CardsOf(left) == seeded + CardsOf(done + left);
  }

  lemma PlanAfterAllHumans(cat: Catalog, seeded: set<CardId>, taken: seq<Fields>, rest: seq<Fields>)
    requires var human := HumanFields(cat, seeded, cat.evidence);
             MachineFields(cat, seeded + CardsOf(human), cat.votes) == taken + rest && DistinctCards(human + taken + rest)
    ensures Plan(cat, seeded + CardsOf(HumanFields(cat, seeded, cat.evidence) + taken), None) == rest
  {
    var human := HumanFields(cat, seeded, cat.evidence);
    var gone := CardsOf(human + taken);
    DistinctAppend(human, taken);
    DistinctAppend(human + taken, rest);
    assert HumanFields(cat, seeded + gone, cat.evidence) == [] by {
      HumanFieldsExclude(cat, seeded, gone, cat.evidence);
      KeepNoneOrAll(human, gone);
    }
    assert MachineFields(cat, seeded + gone, cat.votes) == rest by {
      MachineFieldsExclude(cat, seeded + CardsOf(human), gone, cat.votes);
      KeepAfterPrefix(taken, rest, gone);
      assert seeded + CardsOf(human) + gone == seeded + gone;
    }
    assert seeded + gone + {} == seeded + gone;
  }

  /** The table after one completed write run. */
  function AfterRun(cat: Catalog, seeds: map<CardId, Fields>, limit: Option<int>): map<CardId, Fields> {
    seeds + Rows(Plan(cat, seeds.Keys, limit))
  }

  function AfterRuns(cat: Catalog, seeds: map<CardId, Fields>, limits: seq<Option<int>>): map<CardId, Fields>
    decreases |limits|
  {
    if limits == [] then seeds else AfterRuns(cat, AfterRun(cat, seeds, limits[0]), limits[1..])
  }

  lemma RunThenFinish(cat: Catalog, seeds: map<CardId, Fields>, limit: Option<int>)
    requires DistinctCards(Plan(cat, seeds.Keys, None))
    ensures var next := AfterRun(cat, seeds, limit);
            && DistinctCards(Plan(cat, next.Keys, None))
            && AfterRun(cat, next, None) == AfterRun(cat, seeds, None)
  {
    LimitedPlanIsPrefix(cat, seeds.Keys, limit);
    var done, all := Plan(cat, seeds.Keys, limit), Plan(cat, seeds.Keys, None);
    var rest := all[|done|..];
    assert all == done + rest;
    DistinctAppend(done, rest);
    PlanAfterPrefix(cat, seeds.Keys, done, rest);
    PartsMakeWhole(seeds, done, rest);
  }

  lemma PartsMakeWhole(seeds: map<CardId, Fields>, done: seq<Fields>, rest: seq<Fields>)
    ensures (seeds + Rows(done)).Keys == seeds.Keys + CardsOf(done)
    ensures seeds + Rows(done) + Rows(rest) == seeds + Rows(done + rest)
  {
    RowsKeys(done);
    RowsAppend(done, rest);
  }

  /** Seeding is resumable: after any sequence of limited runs, finishing gives the table one unlimited
      run gives; and a sequence after which nothing is left to seed has already reached it. */
  lemma {:induction false} ResumedRunsReachFullTable(cat: Catalog, seeds: map<CardId, Fields>, limits: seq<Option<int>>)
    requires DistinctCards(Plan(cat, seeds.Keys, None))
    ensures var end := AfterRuns(cat, seeds, limits);
            && AfterRun(cat, end, None) == AfterRun(cat, seeds, None)
            && (Plan(cat, end.Keys, None) == [] ==> end == AfterRun(cat, seeds, None))
    decreases |limits|
  {
    if limits != [] {
      RunThenFinish(cat, seeds, limits[0]);
      ResumedRunsReachFullTable(cat, AfterRun(cat, seeds, limits[0]), limits[1..]);
    }
  }

  /** After an unlimited run, another run of any limit writes nothing. */
  lemma FullTableIsFinal(cat: Catalog, seeds: map<CardId, Fields>, limit: Option<int>)
    requires DistinctCards(Plan(cat, seeds.Keys, None))
    ensures Plan(cat, AfterRun(cat, seeds, None).Keys, limit) == []
  {
    var all := Plan(cat, seeds.Keys, None);
    assert all == all + [];
    PlanAfterPrefix(cat, seeds.Keys, all, []);
    RowsKeys(all);
    assert AfterRun(cat, seeds, None).Keys == seeds.Keys + CardsOf(all);
    LimitedPlanIsPrefix(cat, AfterRun(cat, seeds, None).Keys, limit);
  }
}
