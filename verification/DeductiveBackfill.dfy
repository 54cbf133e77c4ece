/** The deductive printing-tag backfill (deductive_backfill.py): two selectors feeding a batched writer
    that can be interrupted anywhere and run again. */
module DeductiveBackfill {
  import opened Wrappers
  import opened PrintingConsensus
  import opened Chunks
  import opened ByCard

  datatype Card = Card(pk: int, name: string, unresolved: bool, hasCanonicalCard: bool, language: string,
                       expansionHint: string, hasCustomTag: bool)
  datatype Candidate = Candidate(pk: int, expansionCode: string)

  /** `candidates` stands for CandidateNameIndex.candidates_for, name normalisation included, and `group`
      for identity_group_card_ids: the cards whose votes are tallied together, in pk order. */
  datatype Catalog = Catalog(cards: seq<Card>, candidates: string -> seq<Candidate>, group: int -> seq<int>)

  datatype Tier = D1 | D2
  datatype TierArgument = OnlyD1 | OnlyD2 | All
  datatype Deduced = Deduced(printing: int, tier: Tier)
  type DeductiveVote = OnCard<Deduced>

  const ANONYMOUS_ID: string := "deductive-backfill-v1"

  function Confidence(tier: Tier): real { if tier.D1? then 0.95 else 0.90 }

  // ----- selection -----

  function VotedCards(votes: seq<Vote>): set<int> {
    if votes == [] then {} else VotedCards(votes[..|votes| - 1]) + {votes[|votes| - 1].card}
  }

  predicate IsEnglish(language: string) { |language| == 2 && language[0] in {'e', 'E'} && language[1] in {'n', 'N'} }

  /** _eligible_base_queryset: no vote of any kind, from anyone, is the checkpoint. */
  predicate Eligible(c: Card, voted: set<int>, cardIds: Option<set<int>>) {
    && c.unresolved && !c.hasCanonicalCard && c.pk !in voted && IsEnglish(c.language) && !c.hasCustomTag
    && (cardIds.None? || c.pk in cardIds.value)
  }

  function ByExpansion(matches: seq<Candidate>, hint: string): seq<Candidate> {
    if matches == [] then []
    else (if matches[0].expansionCode == hint then [matches[0]] else []) + ByExpansion(matches[1..], hint)
  }

  /** The body of the D1 loop for one card. */
  function ChooseD1(cat: Catalog, c: Card): Option<DeductiveVote> {
    var matches := cat.candidates(c.name);
    if |matches| == 1 then Some(OnCard(c.pk, Deduced(matches[0].pk, D1))) else None
  }

  /** The body of the D2 loop for one card. */
  function ChooseD2(cat: Catalog, c: Card): Option<DeductiveVote> {
    if c.expansionHint == "" then None
    else
      var matches := cat.candidates(c.name);
      if |matches| <= 1 then None
      else
        var narrowed := ByExpansion(matches, c.expansionHint);
        if |narrowed| == 1 then Some(OnCard(c.pk, Deduced(narrowed[0].pk, D2))) else None
  }

  function Choose(cat: Catalog, tier: Tier, c: Card): Option<DeductiveVote> {
    if tier.D1? then ChooseD1(cat, c) else ChooseD2(cat, c)
  }

  /** One selector over the cards, reading the votes as they are when it starts. */
  function Candidates(cat: Catalog, tier: Tier, voted: set<int>, cardIds: Option<set<int>>, cards: seq<Card>): seq<DeductiveVote> {
    if cards == [] then []
    else
      Candidates(cat, tier, voted, cardIds, cards[..|cards| - 1]) +
      (var c := cards[|cards| - 1];
       if Eligible(c, voted, cardIds) && Choose(cat, tier, c).Some? then [Choose(cat, tier, c).value] else [])
  }

  /** select_candidates with both selectors reading the same votes. */
  function Select(cat: Catalog, tier: TierArgument, voted: set<int>, cardIds: Option<set<int>>): seq<DeductiveVote> {
    (if tier.OnlyD2? then [] else Candidates(cat, D1, voted, cardIds, cat.cards)) +
    (if tier.OnlyD1? then [] else Candidates(cat, D2, voted, cardIds, cat.cards))
  }

  function Take(s: seq<DeductiveVote>, limit: Option<nat>): seq<DeductiveVote> {
    if limit.None? || |s| <= limit.value then s else s[..limit.value]
  }

  function Row(v: DeductiveVote, runId: string): Vote {
    Vote(v.card, Some(v.it.printing), false, ANONYMOUS_ID, Deduction, Confidence(v.it.tier), Some(runId))
  }

  function Rows(s: seq<DeductiveVote>, runId: string): seq<Vote> {
    if s == [] then [] else Rows(s[..|s| - 1], runId) + [Row(s[|s| - 1], runId)]
  }

  function CountTier(s: seq<DeductiveVote>, tier: Tier): nat {
    if s == [] then 0 else CountTier(s[..|s| - 1], tier) + if s[|s| - 1].it.tier == tier then 1 else 0
  }

  // ----- purge and write -----

  /** Any version of this calculator. */
  predicate InFamily(anonymousId: string) { CalculatorFamily(anonymousId) == CalculatorFamily(ANONYMOUS_ID) }

  function Purge(votes: seq<Vote>, cards: set<int>): seq<Vote> {
    if votes == [] then []
    else
      var last := votes[|votes| - 1];
      Purge(votes[..|votes| - 1], cards) + if InFamily(last.anonymousId) && last.card in cards then [] else [last]
  }

  lemma {:induction false} NothingToPurge(votes: seq<Vote>, cards: set<int>)
    requires VotedCards(votes) !! cards
    ensures Purge(votes, cards) == votes
  {
    if votes != [] {
      NothingToPurge(votes[..|votes| - 1], cards);
      assert votes == votes[..|votes| - 1] + [votes[|votes| - 1]];
    }
  }

  datatype BackfillResult = BackfillResult(d1Written: nat, d2Written: nat, dryRun: bool, gateViolations: seq<int>)

  class VoteTable {
    var votes: seq<Vote>

    /** The nested `flush`: purge the batch's cards and insert the batch, in one transaction. `done` is
        what earlier flushes wrote; `commits` the table after each transaction. */
    method Flush(batch: seq<DeductiveVote>, dryRun: bool, runId: string, ghost before: seq<Vote>, ghost done: seq<DeductiveVote>,
                 ghost commits: seq<seq<Vote>>)
      returns (d1: nat, d2: nat, written: seq<int>, ghost commits': seq<seq<Vote>>)
      requires votes == before + (if dryRun then [] else Rows(done, runId))
      requires DistinctCards(done + batch) && CardsOf(done + batch) !! VotedCards(before)
      modifies this
      ensures votes == before + (if dryRun then [] else Rows(done + batch, runId))
      ensures d1 == CountTier(batch, D1) && d2 == CountTier(batch, D2)
      ensures written == CardList(batch)
      ensures commits' == NextCommits(dryRun, commits, before, done, batch, runId)
    {
      d1, d2, written, commits' := 0, 0, [], commits;
      assert done + [] == done;
      if batch == [] {
        return;
      }
      if !dryRun {
        FlushKeepsVotes(before, done, batch, runId);
        votes := Purge(votes, CardsOf(batch)) + Rows(batch, runId);
        commits' := commits + [votes];
      }
      for i := 0 to |batch|
        invariant d1 == CountTier(batch[..i], D1) && d2 == CountTier(batch[..i], D2) && written == CardList(batch[..i])
      {
        assert batch[..i + 1][..i] == batch[..i];
        if batch[i].it.tier == D1 {
          d1 := d1 + 1;
        } else {
          d2 := d2 + 1;
        }
        written := written + [batch[i].card];
      }
      assert batch[..|batch|] == batch;
    }

    /** Items of one selector going through `batch.append` and the size test. */
    method Consume(items: seq<DeductiveVote>, pending: seq<DeductiveVote>, batchSize: int, dryRun: bool, runId: string,
                   progress: Progress, ghost before: seq<Vote>, ghost done: seq<DeductiveVote>, ghost commits: seq<seq<Vote>>)
      returns (batch: seq<DeductiveVote>, now: Progress, ghost done': seq<DeductiveVote>, ghost commits': seq<seq<Vote>>)
      requires votes == before + (if dryRun then [] else Rows(done, runId))
      requires DistinctCards(done + pending + items) && CardsOf(done + pending + items) !! VotedCards(before)
      requires Counts(progress, done) && WholeBatches(dryRun, commits, before, done, runId, Size(batchSize)) && |pending| < Size(batchSize)
      modifies this
      ensures votes == before + (if dryRun then [] else Rows(done', runId))
      ensures done' + batch == done + pending + items
      ensures Counts(now, done') && WholeBatches(dryRun, commits', before, done', runId, Size(batchSize)) && |batch| < Size(batchSize)
    {
      batch, now, done', commits' := pending, progress, done, commits;
      for i := 0 to |items|
        invariant votes == before + (if dryRun then [] else Rows(done', runId))
        invariant done' + batch == done + pending + items[..i]
        invariant Counts(now, done') && WholeBatches(dryRun, commits', before, done', runId, Size(batchSize)) && |batch| < Size(batchSize)
      {
        NextItem(done + pending, items, i, done', batch);
        batch := batch + [items[i]];
        if |batch| >= batchSize {
          now, done', commits' := FlushFull(batch, batchSize, dryRun, runId, now, before, done', commits', items[i + 1..]);
          batch := [];
          assert done' + batch == done';
        }
      }
      assert items[..|items|] == items;
    }

    /** The flush of a batch that has reached its size, with `rest` still to come. */
    method FlushFull(batch: seq<DeductiveVote>, batchSize: int, dryRun: bool, runId: string, progress: Progress,
                     ghost before: seq<Vote>, ghost done: seq<DeductiveVote>, ghost commits: seq<seq<Vote>>, ghost rest: seq<DeductiveVote>)
      returns (now: Progress, ghost done': seq<DeductiveVote>, ghost commits': seq<seq<Vote>>)
      requires votes == before + (if dryRun then [] else Rows(done, runId))
      requires DistinctCards(done + batch + rest) && CardsOf(done + batch + rest) !! VotedCards(before)
      requires Counts(progress, done) && WholeBatches(dryRun, commits, before, done, runId, Size(batchSize)) && |batch| == Size(batchSize)
      modifies this
      ensures done' == done + batch && votes == before + (if dryRun then [] else Rows(done', runId))
      ensures Counts(now, done') && WholeBatches(dryRun, commits', before, done', runId, Size(batchSize))
    {
      DistinctAppend(done + batch, rest);
      OneMoreBatch(dryRun, commits, before, done, batch, runId, Size(batchSize));
      now, done', commits' := FlushPending(batch, dryRun, runId, progress, before, done, commits);
    }

    /** `flush(batch)` with its effect on the counters. */
    method FlushPending(batch: seq<DeductiveVote>, dryRun: bool, runId: string, progress: Progress,
                        ghost before: seq<Vote>, ghost done: seq<DeductiveVote>, ghost commits: seq<seq<Vote>>)
      returns (now: Progress, ghost done': seq<DeductiveVote>, ghost commits': seq<seq<Vote>>)
      requires votes == before + (if dryRun then [] else Rows(done, runId))
      requires DistinctCards(done + batch) && CardsOf(done + batch) !! VotedCards(before)
      requires Counts(progress, done)
      modifies this
      ensures done' == done + batch && votes == before + (if dryRun then [] else Rows(done', runId))
      ensures Counts(now, done') && commits' == NextCommits(dryRun, commits, before, done, batch, runId)
    {
      var d1, d2, written;
      d1, d2, written, commits' := Flush(batch, dryRun, runId, before, done, commits);
      RowsAppend(done, batch, runId);
      done' := done + batch;
      now := Progress(progress.d1 + d1, progress.d2 + d2, progress.written + written);
    }

    method RunBackfill(cat: Catalog, tier: TierArgument, limit: Option<nat>, dryRun: bool, batchSize: int,
                       cardIds: Option<set<int>>, runId: string, resolve: Resolver)
      returns (result: BackfillResult, ghost commits: seq<seq<Vote>>)
      requires UniquePks(cat.cards)
      modifies this
      ensures var selected := Take(Select(cat, tier, VotedCards(old(votes)), cardIds), limit);
              && votes == old(votes) + (if dryRun then [] else Rows(selected, runId))
              && result.d1Written == CountTier(selected, D1) && result.d2Written == CountTier(selected, D2)
              && Traced(dryRun, commits, old(votes), selected, runId, Size(batchSize))
              && (forall pk :: pk in result.gateViolations <==> !dryRun && pk in CardsOf(selected) && Resolves(resolve, votes, cat.group(pk)))
      ensures result.dryRun == dryRun
    {
      ghost var before, voted := votes, VotedCards(votes);
      ghost var selected := Take(Select(cat, tier, voted, cardIds), limit);
      var first := Take(if tier.OnlyD2? then [] else Candidates(cat, D1, VotedCards(votes), cardIds, cat.cards), limit);
      var left := if limit.Some? then Some(limit.value - |first|) else None;
      ghost var second := if tier.OnlyD1? then [] else Take(Candidates(cat, D2, voted, cardIds, cat.cards), left);
      SplitSelection(cat, tier, voted, cardIds, limit, first, second);
      StartEmpty(before, first, runId);
      var batch, progress;
      ghost var done;
      batch, progress, done, commits := Consume(first, [], batchSize, dryRun, runId, Progress(0, 0, []), before, [], []);
      if !tier.OnlyD1? && left != Some(0) {
        LazySecondSelector(cat, voted, cardIds, limit, tier, before, done, batch, dryRun, runId);
        var items := Take(Candidates(cat, D2, VotedCards(votes), cardIds, cat.cards), left);
        batch, progress, done, commits := Consume(items, batch, batchSize, dryRun, runId, progress, before, done, commits);
      }
      OneMoreBatch(dryRun, commits, before, done, batch, runId, Size(batchSize));
      progress, done, commits := FlushPending(batch, dryRun, runId, progress, before, done, commits);
      assert done == selected;
      var violations := CheckGate(cat, dryRun, progress.written, selected, resolve);
      result := BackfillResult(progress.d1, progress.d2, dryRun, violations);
    }

    method CheckGate(cat: Catalog, dryRun: bool, written: seq<int>, ghost selected: seq<DeductiveVote>, resolve: Resolver)
      returns (violations: seq<int>)
      requires written == CardList(selected) && CardsOf(selected) <= Pks(cat.cards)
      ensures forall pk :: pk in violations <==> !dryRun && pk in CardsOf(selected) && Resolves(resolve, votes, cat.group(pk))
    {
      violations := [];
      CardListExact(selected);
      if !dryRun && written != [] {
        violations := VerifyZeroResolutions(cat, votes, written, 5000, resolve);
        PksExact(cat.cards);
      }
    }
  }

  lemma StartEmpty(before: seq<Vote>, first: seq<DeductiveVote>, runId: string)
    ensures before + [] == before == before + Rows([], runId) && [] + [] + first == first
  {
  }

  /** `resolve_printing(card) is not None` for a card with this identity group. */
  predicate Resolves(resolve: Resolver, votes: seq<Vote>, group: seq<int>) {
    resolve(GroupVotes(votes, group), |group| > 1)
  }

  datatype Progress = Progress(d1: nat, d2: nat, written: seq<int>)

  predicate Counts(p: Progress, done: seq<DeductiveVote>) {
    p.d1 == CountTier(done, D1) && p.d2 == CountTier(done, D2) && p.written == CardList(done)
  }

  /** How many votes a batch holds when it is flushed: the size test comes after the append. */
  function Size(batchSize: int): nat { if batchSize < 1 then 1 else batchSize }

  /** The tables a run leaves behind, one per transaction: exactly those that hold the first batch, the
      first two, and so on up to everything it selects. */
  ghost predicate Traced(dryRun: bool, commits: seq<seq<Vote>>, before: seq<Vote>, selected: seq<DeductiveVote>, runId: string, size: nat) {
    if dryRun then commits == []
    else
      && ChunksFor(|commits|, size, |selected|)
      && forall k :: 0 <= k < |commits| ==> commits[k] == before + Rows(selected[..Cut(k + 1, size, |selected|)], runId)
  }

  ghost predicate WholeBatches(dryRun: bool, commits: seq<seq<Vote>>, before: seq<Vote>, done: seq<DeductiveVote>, runId: string, size: nat) {
    Traced(dryRun, commits, before, done, runId, size) && (dryRun || |done| == |commits| * size)
  }

  function NextCommits(dryRun: bool, commits: seq<seq<Vote>>, before: seq<Vote>, done: seq<DeductiveVote>, batch: seq<DeductiveVote>,
                       runId: string): seq<seq<Vote>> {
    if batch == [] || dryRun then commits else commits + [before + Rows(done + batch, runId)]
  }

  lemma OneMoreBatch(dryRun: bool, commits: seq<seq<Vote>>, before: seq<Vote>, done: seq<DeductiveVote>, batch: seq<DeductiveVote>,
                     runId: string, size: nat)
    requires WholeBatches(dryRun, commits, before, done, runId, size) && |batch| <= size
    ensures var next := NextCommits(dryRun, commits, before, done, batch, runId);
            && Traced(dryRun, next, before, done + batch, runId, size)
            && (|batch| == size ==> WholeBatches(dryRun, next, before, done + batch, runId, size))
  {
    if dryRun {
      return;
    }
    if batch == [] {
      assert done + batch == done;
      return;
    }
    var next, all := NextCommits(dryRun, commits, before, done, batch, runId), done + batch;
    OneMoreChunk(|commits|, size, |batch|);
    forall k | 0 <= k < |next| ensures next[k] == before + Rows(all[..Cut(k + 1, size, |all|)], runId) {
      if k < |commits| {
        assert all[..Cut(k + 1, size, |all|)] == done[..Cut(k + 1, size, |done|)];
      } else {
        assert all[..|all|] == all;
      }
    }
  }

  lemma NextItem(start: seq<DeductiveVote>, items: seq<DeductiveVote>, i: nat, done: seq<DeductiveVote>, batch: seq<DeductiveVote>)
    requires i < |items| && done + batch == start + items[..i]
    ensures done + (batch + [items[i]]) == start + items[..i + 1]
    ensures start + items == done + (batch + [items[i]]) + items[i + 1..]
  {
    assert items == items[..i] + [items[i]] + items[i + 1..];
    assert done + (batch + [items[i]]) == done + batch + [items[i]];
  }

  /** verify_zero_resolutions: re-read the written cards in chunks and ask the real resolver. */
  method VerifyZeroResolutions(cat: Catalog, votes: seq<Vote>, ids: seq<int>, batchSize: nat, resolve: Resolver)
    returns (violations: seq<int>)
    requires batchSize > 0
    ensures forall pk :: pk in violations <==>
              pk in ids && (exists c :: c in cat.cards && c.pk == pk) && Resolves(resolve, votes, cat.group(pk))
  {
    var cards := cat.cards;
    violations := [];
    var i := 0;
    while i < |ids|
      invariant 0 <= i
      invariant forall pk :: pk in violations <==>
                  pk in ids[..if i < |ids| then i else |ids|] && (exists c :: c in cat.cards && c.pk == pk) && Resolves(resolve, votes, cat.group(pk))
      decreases |ids| - i
    {
      var end := if i + batchSize < |ids| then i + batchSize else |ids|;
      var chunk := ids[i..end];
      assert ids[..end] == ids[..i] + chunk;
      ghost var earlier := violations;
      for j := 0 to |cards|
        invariant forall pk :: pk in violations
                    <==> (pk in earlier || (pk in chunk && (exists c :: c in cards[..j] && c.pk == pk) && Resolves(resolve, votes, cat.group(pk))))
      {
        assert cards[..j + 1] == cards[..j] + [cards[j]];
        if cards[j].pk in chunk && Resolves(resolve, votes, cat.group(cards[j].pk)) {
          violations := violations + [cards[j].pk];
        }
      }
      assert cards[..|cards|] == cards;
      i := i + batchSize;
    }
    assert ids[..|ids|] == ids;
  }

  function CardList(s: seq<DeductiveVote>): seq<int> {
    if s == [] then [] else CardList(s[..|s| - 1]) + [s[|s| - 1].card]
  }

  /** The purge finds nothing: an eligible card has no vote to lose. */
  lemma FlushKeepsVotes(before: seq<Vote>, done: seq<DeductiveVote>, batch: seq<DeductiveVote>, runId: string)
    requires DistinctCards(done + batch) && CardsOf(done + batch) !! VotedCards(before)
    ensures Purge(before + Rows(done, runId), CardsOf(batch)) + Rows(batch, runId) == before + Rows(done + batch, runId)
  {
    var rows := Rows(done, runId);
    assert VotedCards(before + rows) !! CardsOf(batch) by {
      DistinctAppend(done, batch);
      RowsVoted(done, runId);
      VotedAppend(before, rows);
    }
    NothingToPurge(before + rows, CardsOf(batch));
    assert Rows(done + batch, runId) == rows + Rows(batch, runId) by { RowsAppend(done, batch, runId); }
    assert before + rows + Rows(batch, runId) == before + (rows + Rows(batch, runId));
  }

  lemma RowsAppend(a: seq<DeductiveVote>, b: seq<DeductiveVote>, runId: string)
    ensures Rows(a + b, runId) == Rows(a, runId) + Rows(b, runId)
    ensures CardList(a + b) == CardList(a) + CardList(b)
    ensures forall t :: CountTier(a + b, t) == CountTier(a, t) + CountTier(b, t)
  {
    RowsJoin(a, b, runId);
    CardListJoin(a, b);
    forall t ensures CountTier(a + b, t) == CountTier(a, t) + CountTier(b, t) { CountTierJoin(a, b, t); }
  }

  lemma {:induction false} RowsJoin(a: seq<DeductiveVote>, b: seq<DeductiveVote>, runId: string)
    ensures Rows(a + b, runId) == Rows(a, runId) + Rows(b, runId)
    decreases |b|
  {
    if b == [] {
      assert a + b == a;
    } else {
      RowsJoin(a, b[..|b| - 1], runId);
      assert (a + b)[..|a + b| - 1] == a + b[..|b| - 1];
    }
  }

  lemma {:induction false} CardListJoin(a: seq<DeductiveVote>, b: seq<DeductiveVote>)
    ensures CardList(a + b) == CardList(a) + CardList(b)
    decreases |b|
  {
    if b == [] {
      assert a + b == a;
    } else {
      CardListJoin(a, b[..|b| - 1]);
      assert (a + b)[..|a + b| - 1] == a + b[..|b| - 1];
    }
  }

  lemma {:induction false} CountTierJoin(a: seq<DeductiveVote>, b: seq<DeductiveVote>, tier: Tier)
    ensures CountTier(a + b, tier) == CountTier(a, tier) + CountTier(b, tier)
    decreases |b|
  {
    if b == [] {
      assert a + b == a;
    } else {
      CountTierJoin(a, b[..|b| - 1], tier);
      assert (a + b)[..|a + b| - 1] == a + b[..|b| - 1];
    }
  }

  lemma {:induction false} VotedAppend(a: seq<Vote>, b: seq<Vote>)
    ensures VotedCards(a + b) == VotedCards(a) + VotedCards(b)
    ensures forall c :: VotesOn(a + b, c) == VotesOn(a, c) + VotesOn(b, c)
    decreases |b|
  {
    if b == [] {
      assert a + b == a;
    } else {
      VotedAppend(a, b[..|b| - 1]);
      assert (a + b)[..|a + b| - 1] == a + b[..|b| - 1];
    }
  }

  lemma {:induction false} RowsVoted(s: seq<DeductiveVote>, runId: string)
    ensures VotedCards(Rows(s, runId)) == CardsOf(s)
  {
    if s != [] {
      RowsVoted(s[..|s| - 1], runId);
      var rows := Rows(s[..|s| - 1], runId);
      assert (rows + [Row(s[|s| - 1], runId)])[..|rows|] == rows;
    }
  }

  // ----- what the selectors choose -----

  function Pks(cards: seq<Card>): set<int> {
    if cards == [] then {} else Pks(cards[..|cards| - 1]) + {cards[|cards| - 1].pk}
  }

  /** The primary key. */
  predicate UniquePks(cards: seq<Card>) {
    cards == [] || (cards[|cards| - 1].pk !in Pks(cards[..|cards| - 1]) && UniquePks(cards[..|cards| - 1]))
  }

  lemma {:induction false} CandidatesExact(cat: Catalog, tier: Tier, voted: set<int>, cardIds: Option<set<int>>, cards: seq<Card>)
    ensures forall v :: v in Candidates(cat, tier, voted, cardIds, cards) <==>
              exists c :: c in cards && Eligible(c, voted, cardIds) && Choose(cat, tier, c) == Some(v)
  {
    if cards != [] {
      CandidatesExact(cat, tier, voted, cardIds, cards[..|cards| - 1]);
      assert cards == cards[..|cards| - 1] + [cards[|cards| - 1]];
    }
  }

  lemma {:induction false} CandidatesDistinct(cat: Catalog, tier: Tier, voted: set<int>, cardIds: Option<set<int>>, cards: seq<Card>)
    requires UniquePks(cards)
    ensures DistinctCards(Candidates(cat, tier, voted, cardIds, cards))
    ensures CardsOf(Candidates(cat, tier, voted, cardIds, cards)) <= Pks(cards) - voted
  {
    if cards != [] {
      var front, c := Candidates(cat, tier, voted, cardIds, cards[..|cards| - 1]), cards[|cards| - 1];
      CandidatesDistinct(cat, tier, voted, cardIds, cards[..|cards| - 1]);
      if Eligible(c, voted, cardIds) && Choose(cat, tier, c).Some? {
        ChosenCard(cat, tier, c);
        DistinctStep(front, Choose(cat, tier, c).value, Pks(cards[..|cards| - 1]), voted);
      } else {
        assert Candidates(cat, tier, voted, cardIds, cards) == front;
      }
    }
  }

  lemma ChosenCard(cat: Catalog, tier: Tier, c: Card)
    ensures Choose(cat, tier, c).Some? ==> Choose(cat, tier, c).value.card == c.pk
  {
  }

  lemma DistinctStep(s: seq<DeductiveVote>, v: DeductiveVote, pks: set<int>, voted: set<int>)
    requires DistinctCards(s) && CardsOf(s) <= pks - voted && v.card !in pks && v.card !in voted
    ensures DistinctCards(s + [v]) && CardsOf(s + [v]) <= pks + {v.card} - voted
  {
    AppendOne(s, v);
  }

  /** No card is picked by both selectors: one needs a single match of the name, the other several. */
  lemma {:induction false} TiersDisjoint(cat: Catalog, voted1: set<int>, voted2: set<int>, cardIds: Option<set<int>>, cards: seq<Card>)
    requires UniquePks(cards)
    ensures CardsOf(Candidates(cat, D1, voted1, cardIds, cards)) !! CardsOf(Candidates(cat, D2, voted2, cardIds, cards))
  {
    if cards != [] {
      var c, rest := cards[|cards| - 1], cards[..|cards| - 1];
      TiersDisjoint(cat, voted1, voted2, cardIds, rest);
      CandidatesDistinct(cat, D1, voted1, cardIds, rest);
      CandidatesDistinct(cat, D2, voted2, cardIds, rest);
      LastCandidate(cat, D1, voted1, cardIds, cards);
      LastCandidate(cat, D2, voted2, cardIds, cards);
      OneTierPerCard(cat, c);
      StillDisjoint(CardsOf(Candidates(cat, D1, voted1, cardIds, rest)), CardsOf(Candidates(cat, D2, voted2, cardIds, rest)), c.pk,
                    Eligible(c, voted1, cardIds) && Choose(cat, D1, c).Some?, Eligible(c, voted2, cardIds) && Choose(cat, D2, c).Some?);
    }
  }

  lemma StillDisjoint(a: set<int>, b: set<int>, x: int, inA: bool, inB: bool)
    requires a !! b && x !in a && x !in b && !(inA && inB)
    ensures a + (if inA then {x} else {}) !! b + (if inB then {x} else {})
  {
  }

  lemma OneTierPerCard(cat: Catalog, c: Card)
    ensures Choose(cat, D1, c).None? || Choose(cat, D2, c).None?
  {
  }

  /** What the last card adds to a selector's cards. */
  lemma LastCandidate(cat: Catalog, tier: Tier, voted: set<int>, cardIds: Option<set<int>>, cards: seq<Card>)
    requires cards != []
    ensures var c, front := cards[|cards| - 1], Candidates(cat, tier, voted, cardIds, cards[..|cards| - 1]);
            CardsOf(Candidates(cat, tier, voted, cardIds, cards)) ==
              CardsOf(front) + if Eligible(c, voted, cardIds) && Choose(cat, tier, c).Some? then {c.pk} else {}
  {
    var c, front := cards[|cards| - 1], Candidates(cat, tier, voted, cardIds, cards[..|cards| - 1]);
    if Eligible(c, voted, cardIds) && Choose(cat, tier, c).Some? {
      AppendOne(front, Choose(cat, tier, c).value);
    } else {
      assert front + [] == front;
    }
  }

  lemma SelectionIsFresh(cat: Catalog, tier: TierArgument, voted: set<int>, cardIds: Option<set<int>>, limit: Option<nat>)
    requires UniquePks(cat.cards)
    ensures var selected := Take(Select(cat, tier, voted, cardIds), limit);
            DistinctCards(selected) && CardsOf(selected) !! voted && CardsOf(selected) <= Pks(cat.cards)
  {
    WholeSelection(cat, tier, voted, cardIds);
    PrefixCards(Take(Select(cat, tier, voted, cardIds), limit), Select(cat, tier, voted, cardIds));
  }

  lemma WholeSelection(cat: Catalog, tier: TierArgument, voted: set<int>, cardIds: Option<set<int>>)
    requires UniquePks(cat.cards)
    ensures DistinctCards(Select(cat, tier, voted, cardIds)) && CardsOf(Select(cat, tier, voted, cardIds)) <= Pks(cat.cards) - voted
  {
    CandidatesDistinct(cat, D1, voted, cardIds, cat.cards);
    CandidatesDistinct(cat, D2, voted, cardIds, cat.cards);
    TiersDisjoint(cat, voted, voted, cardIds, cat.cards);
    DistinctAppend(if tier.OnlyD2? then [] else Candidates(cat, D1, voted, cardIds, cat.cards),
                   if tier.OnlyD1? then [] else Candidates(cat, D2, voted, cardIds, cat.cards));
  }

  /** islice over the chained generators. */
  lemma TakeParts(cat: Catalog, tier: TierArgument, voted: set<int>, cardIds: Option<set<int>>, limit: Option<nat>)
    ensures var first := Take(if tier.OnlyD2? then [] else Candidates(cat, D1, voted, cardIds, cat.cards), limit);
            var left := if limit.Some? then Some(limit.value - |first|) else None;
            var second := if tier.OnlyD1? then [] else Take(Candidates(cat, D2, voted, cardIds, cat.cards), left);
            && Take(Select(cat, tier, voted, cardIds), limit) == first + second
            && (left == Some(0) ==> second == [])
  {
  }

  lemma SplitSelection(cat: Catalog, tier: TierArgument, voted: set<int>, cardIds: Option<set<int>>, limit: Option<nat>,
                       first: seq<DeductiveVote>, second: seq<DeductiveVote>)
    requires UniquePks(cat.cards)
    requires first == Take(if tier.OnlyD2? then [] else Candidates(cat, D1, voted, cardIds, cat.cards), limit)
    requires second == if tier.OnlyD1? then []
                       else Take(Candidates(cat, D2, voted, cardIds, cat.cards),
                                 if limit.Some? then Some(limit.value - |first|) else None)
    ensures Take(Select(cat, tier, voted, cardIds), limit) == first + second
    ensures DistinctCards(first) && CardsOf(first) !! voted
    ensures DistinctCards(first + second) && CardsOf(first + second) !! voted && CardsOf(first + second) <= Pks(cat.cards)
    ensures limit.Some? && limit.value == |first| ==> second == []
  {
    TakeParts(cat, tier, voted, cardIds, limit);
    SelectionIsFresh(cat, tier, voted, cardIds, limit);
    DistinctAppend(first, second);
  }

  // ----- lazily selecting -----

  lemma {:induction false} CandidatesExclude(cat: Catalog, tier: Tier, voted: set<int>, more: set<int>, cardIds: Option<set<int>>, cards: seq<Card>)
    ensures Candidates(cat, tier, voted + more, cardIds, cards) == Keep(Candidates(cat, tier, voted, cardIds, cards), more)
  {
    if cards != [] {
      var front, c := cards[..|cards| - 1], cards[|cards| - 1];
      CandidatesExclude(cat, tier, voted, more, cardIds, front);
      var last := if Eligible(c, voted, cardIds) && Choose(cat, tier, c).Some? then [Choose(cat, tier, c).value] else [];
      KeepAppend(Candidates(cat, tier, voted, cardIds, front), last, more);
      assert last != [] ==> last[..0] == [];
    }
  }

  /** The D2 query runs after some of the D1 votes are in the table, and finds what it would have found
      before. */
  lemma LazySecondSelector(cat: Catalog, voted: set<int>, cardIds: Option<set<int>>, limit: Option<nat>, tier: TierArgument,
                           before: seq<Vote>, done: seq<DeductiveVote>, batch: seq<DeductiveVote>, dryRun: bool, runId: string)
    requires UniquePks(cat.cards) && voted == VotedCards(before)
    requires done + batch == Take(if tier.OnlyD2? then [] else Candidates(cat, D1, voted, cardIds, cat.cards), limit)
    ensures var now := VotedCards(before + (if dryRun then [] else Rows(done, runId)));
            Candidates(cat, D2, now, cardIds, cat.cards) == Candidates(cat, D2, voted, cardIds, cat.cards)
  {
    var d1 := if tier.OnlyD2? then [] else Candidates(cat, D1, voted, cardIds, cat.cards);
    assert d1 == done + d1[|done|..];
    DistinctAppend(done, d1[|done|..]);
    TiersDisjoint(cat, voted, voted, cardIds, cat.cards);
    VotedAppend(before, Rows(done, runId));
    RowsVoted(done, runId);
    CandidatesExclude(cat, D2, voted, CardsOf(done), cardIds, cat.cards);
    KeepNoneOrAll(Candidates(cat, D2, voted, cardIds, cat.cards), CardsOf(done));
    assert before + [] == before;
  }

  // ----- each card one vote, and the live gate -----

  lemma {:induction false} NoVotesOn(votes: seq<Vote>, card: int)
    requires card !in VotedCards(votes)
    ensures VotesOn(votes, card) == []
  {
    if votes != [] {
      NoVotesOn(votes[..|votes| - 1], card);
    }
  }

  lemma {:induction false} OneRowEach(s: seq<DeductiveVote>, runId: string, v: DeductiveVote)
    requires DistinctCards(s) && v in s
    ensures VotesOn(Rows(s, runId), v.card) == [Row(v, runId)]
  {
    var front, last := s[..|s| - 1], s[|s| - 1];
    var rows := Rows(front, runId);
    assert (rows + [Row(last, runId)])[..|rows|] == rows;
    RowsVoted(front, runId);
    if v == last {
      NoVotesOn(rows, v.card);
    } else {
      assert v in front;
      CardsMembers(front);
      OneRowEach(front, runId, v);
    }
  }

  lemma {:induction false} CardListExact(s: seq<DeductiveVote>)
    ensures forall c :: c in CardList(s) <==> c in CardsOf(s)
  {
    if s != [] {
      CardListExact(s[..|s| - 1]);
    }
  }

  lemma {:induction false} PksExact(cards: seq<Card>)
    ensures forall pk :: pk in Pks(cards) <==> exists c :: c in cards && c.pk == pk
  {
    if cards != [] {
      PksExact(cards[..|cards| - 1]);
      assert cards == cards[..|cards| - 1] + [cards[|cards| - 1]];
    }
  }

  /** Every card written ends with exactly one vote, this run's deduction; no other card's votes
      change. */
  lemma OneVoteEach(before: seq<Vote>, selected: seq<DeductiveVote>, runId: string)
    requires DistinctCards(selected) && CardsOf(selected) !! VotedCards(before)
    ensures var after := before + Rows(selected, runId);
            && (forall v :: v in selected ==> VotesOn(after, v.card) == [Row(v, runId)])
            && (forall c :: c !in CardsOf(selected) ==> VotesOn(after, c) == VotesOn(before, c))
  {
    VotedAppend(before, Rows(selected, runId));
    RowsVoted(selected, runId);
    forall v | v in selected ensures VotesOn(before + Rows(selected, runId), v.card) == [Row(v, runId)] {
      CardsMembers(selected);
      NoVotesOn(before, v.card);
      OneRowEach(selected, runId, v);
    }
    forall c | c !in CardsOf(selected) ensures VotesOn(before + Rows(selected, runId), c) == VotesOn(before, c) {
      NoVotesOn(Rows(selected, runId), c);
    }
  }

  // ----- interruptions and reruns -----

  /** Votes but for the identifier of the run that cast them. */
  function Unstamped(votes: seq<Vote>): seq<Vote> {
    if votes == [] then [] else Unstamped(votes[..|votes| - 1]) + [votes[|votes| - 1].(runId := None)]
  }

  /** Rerunning after an interruption selects exactly what is missing, in the same order: but for the
      run identifiers, of which every run has its own, the final votes are those of one uninterrupted
      run. */
  lemma RerunCompletes(cat: Catalog, tier: TierArgument, before: seq<Vote>, cardIds: Option<set<int>>, k: nat,
                       firstRun: string, rerun: string, onlyRun: string)
    requires UniquePks(cat.cards) && k <= |Select(cat, tier, VotedCards(before), cardIds)|
    ensures var all := Select(cat, tier, VotedCards(before), cardIds);
            var interrupted := before + Rows(all[..k], firstRun);
            && Select(cat, tier, VotedCards(interrupted), cardIds) == all[k..]
            && Unstamped(interrupted + Rows(all[k..], rerun)) == Unstamped(before + Rows(all, onlyRun))
  {
    var voted := VotedCards(before);
    var all := Select(cat, tier, voted, cardIds);
    SelectionIsFresh(cat, tier, voted, cardIds, None);
    VotedAppend(before, Rows(all[..k], firstRun));
    RowsVoted(all[..k], firstRun);
    SelectExclude(cat, tier, voted, CardsOf(all[..k]), cardIds);
    KeepRest(all, k);
    RowsSplit(before, all, k, firstRun, rerun, onlyRun);
  }

  lemma {:induction false} UnstampedAppend(a: seq<Vote>, b: seq<Vote>)
    ensures Unstamped(a + b) == Unstamped(a) + Unstamped(b)
    decreases |b|
  {
    if b == [] {
      assert a + b == a;
    } else {
      UnstampedAppend(a, b[..|b| - 1]);
      assert (a + b)[..|a + b| - 1] == a + b[..|b| - 1];
    }
  }

  lemma {:induction false} RowsUnstamped(s: seq<DeductiveVote>, one: string, other: string)
    ensures Unstamped(Rows(s, one)) == Unstamped(Rows(s, other))
  {
    if s != [] {
      var front, last := s[..|s| - 1], s[|s| - 1];
      RowsUnstamped(front, one, other);
      UnstampedAppend(Rows(front, one), [Row(last, one)]);
      UnstampedAppend(Rows(front, other), [Row(last, other)]);
      assert [Row(last, one)][..0] == [] && [Row(last, other)][..0] == [];
    }
  }

  lemma KeepRest(all: seq<DeductiveVote>, k: nat)
    requires k <= |all| && DistinctCards(all)
    ensures Keep(all, CardsOf(all[..k])) == all[k..]
  {
    var done, rest := all[..k], all[k..];
    assert all == done + rest;
    DistinctAppend(done, rest);
    KeepAppend(done, rest, CardsOf(done));
    KeepNoneOrAll(done, CardsOf(done));
    KeepNoneOrAll(rest, CardsOf(done));
  }

  lemma RowsSplit(before: seq<Vote>, all: seq<DeductiveVote>, k: nat, firstRun: string, rerun: string, onlyRun: string)
    requires k <= |all|
    ensures Unstamped(before + Rows(all[..k], firstRun) + Rows(all[k..], rerun)) == Unstamped(before + Rows(all, onlyRun))
  {
    var done, rest := all[..k], all[k..];
    assert done + rest == all;
    RowsAppend(done, rest, onlyRun);
    RowsUnstamped(done, firstRun, onlyRun);
    RowsUnstamped(rest, rerun, onlyRun);
    SameUnstamped(before, Rows(done, firstRun), Rows(rest, rerun), Rows(done, onlyRun), Rows(rest, onlyRun));
    Regroup(before, Rows(done, onlyRun), Rows(rest, onlyRun));
  }

  lemma Regroup<T>(a: seq<T>, b: seq<T>, c: seq<T>)
    ensures a + b + c == a + (b + c)
  {
  }

  lemma SameUnstamped(before: seq<Vote>, a: seq<Vote>, b: seq<Vote>, c: seq<Vote>, d: seq<Vote>)
    requires Unstamped(a) == Unstamped(c) && Unstamped(b) == Unstamped(d)
    ensures Unstamped(before + a + b) == Unstamped(before + c + d)
  {
    UnstampedThree(before, a, b);
    UnstampedThree(before, c, d);
  }

  lemma UnstampedThree(a: seq<Vote>, b: seq<Vote>, c: seq<Vote>)
    ensures Unstamped(a + b + c) == Unstamped(a) + Unstamped(b) + Unstamped(c)
  {
    UnstampedAppend(a + b, c);
    UnstampedAppend(a, b);
  }

  lemma SelectExclude(cat: Catalog, tier: TierArgument, voted: set<int>, more: set<int>, cardIds: Option<set<int>>)
    ensures Select(cat, tier, voted + more, cardIds) == Keep(Select(cat, tier, voted, cardIds), more)
  {
    CandidatesExclude(cat, D1, voted, more, cardIds, cat.cards);
    CandidatesExclude(cat, D2, voted, more, cardIds, cat.cards);
    KeepAppend(if tier.OnlyD2? then [] else Candidates(cat, D1, voted, cardIds, cat.cards),
               if tier.OnlyD1? then [] else Candidates(cat, D2, voted, cardIds, cat.cards), more);
  }

  /** One invocation: which tier it asked for, and how many of its votes were committed before it
      stopped, by its limit, an interruption or by having no more. */
  datatype Invocation = Invocation(tier: TierArgument, committed: nat)

  /** The votes added so far, whoever's run they came from. */
  function AddedBy(cat: Catalog, voted: set<int>, cardIds: Option<set<int>>, runs: seq<Invocation>): seq<DeductiveVote> {
    if runs == [] then []
    else
      var earlier := AddedBy(cat, voted, cardIds, runs[..|runs| - 1]);
      var run := runs[|runs| - 1];
      earlier + Take(Select(cat, run.tier, voted + CardsOf(earlier), cardIds), Some(run.committed))
  }

  /** Whatever mixture of tiers, limits and interruptions came before, every vote added is one the
      complete run would cast, no card has two, and a run of both tiers that finishes brings exactly
      the complete run's votes. */
  lemma {:induction false} AnyHistoryConverges(cat: Catalog, voted: set<int>, cardIds: Option<set<int>>, runs: seq<Invocation>)
    requires UniquePks(cat.cards)
    ensures var added := AddedBy(cat, voted, cardIds, runs);
            var all := Select(cat, All, voted, cardIds);
            var final := added + Select(cat, All, voted + CardsOf(added), cardIds);
            && DistinctCards(added) && CardsOf(added) !! voted
            && (forall v :: v in added ==> v in all)
            && DistinctCards(final) && (forall v :: v in final <==> v in all)
  {
    var all := Select(cat, All, voted, cardIds);
    SelectionIsFresh(cat, All, voted, cardIds, None);
    if runs == [] {
      assert voted + {} == voted && [] + all == all;
      assert AddedBy(cat, voted, cardIds, runs) == [];
    } else {
      var front, run := runs[..|runs| - 1], runs[|runs| - 1];
      AnyHistoryConverges(cat, voted, cardIds, front);
      var earlier := AddedBy(cat, voted, cardIds, front);
      var now := Select(cat, run.tier, voted + CardsOf(earlier), cardIds);
      var more := Take(now, Some(run.committed));
      SelectionIsFresh(cat, run.tier, voted + CardsOf(earlier), cardIds, Some(run.committed));
      DistinctAppend(earlier, more);
      OneTierOfAll(cat, run.tier, voted, CardsOf(earlier), cardIds);
      FinalVotes(cat, voted, cardIds, earlier + more);
    }
  }

  lemma OneTierOfAll(cat: Catalog, tier: TierArgument, voted: set<int>, more: set<int>, cardIds: Option<set<int>>)
    ensures forall v :: v in Select(cat, tier, voted + more, cardIds) ==> v in Select(cat, All, voted, cardIds)
  {
    var some := Select(cat, tier, voted, cardIds);
    assert Select(cat, tier, voted + more, cardIds) == Keep(some, more) by { SelectExclude(cat, tier, voted, more, cardIds); }
    forall v | v in Keep(some, more) ensures v in Select(cat, All, voted, cardIds) {
      KeepMember(some, more, v);
    }
  }

  lemma FinalVotes(cat: Catalog, voted: set<int>, cardIds: Option<set<int>>, added: seq<DeductiveVote>)
    requires UniquePks(cat.cards) && DistinctCards(added)
    requires forall v :: v in added ==> v in Select(cat, All, voted, cardIds)
    ensures var all := Select(cat, All, voted, cardIds);
            var final := added + Select(cat, All, voted + CardsOf(added), cardIds);
            DistinctCards(final) && forall v :: v in final <==> v in all
  {
    assert DistinctCards(Select(cat, All, voted, cardIds)) by { WholeSelection(cat, All, voted, cardIds); }
    SelectExclude(cat, All, voted, CardsOf(added), cardIds);
    RestComplements(Select(cat, All, voted, cardIds), added);
  }

  /** What is already there and what is left make the whole. */
  lemma RestComplements(all: seq<DeductiveVote>, added: seq<DeductiveVote>)
    requires DistinctCards(all) && DistinctCards(added) && forall v :: v in added ==> v in all
    ensures var final := added + Keep(all, CardsOf(added));
            DistinctCards(final) && forall v :: v in final <==> v in all
  {
    KeepDistinct(all, CardsOf(added));
    DistinctAppend(added, Keep(all, CardsOf(added)));
    forall v ensures v in added + Keep(all, CardsOf(added)) <==> v in all {
      KeepMember(all, CardsOf(added), v);
      if v in all && v.card in CardsOf(added) {
        CardsMembers(added);
        var u :| u in added && u.card == v.card;
        SameCardSameRow(all, u, v);
      }
    }
  }
}
