/** Which printing the deductive backfill votes for, and on which cards, told from the catalogue and the
    votes (deductive_backfill.py). */
module DeductiveSelection {
  import opened Wrappers
  import opened PrintingConsensus
  import opened DeductiveBackfill
  import PrintingOutcome
  import opened ByCard
  import opened Offers

  // ----- the two rules -----

  /** The name has one printing, and this is it. */
  predicate OnlyMatch(matches: seq<Candidate>, printing: int) { |matches| == 1 && matches[0].pk == printing }

  /** The name has several printings, exactly one of them in the hinted expansion, and this is it. */
  ghost predicate OnlyHinted(matches: seq<Candidate>, hint: string, printing: int) {
    && hint != "" && |matches| >= 2
    && exists i :: 0 <= i < |matches| && matches[i].expansionCode == hint && matches[i].pk == printing
                   && forall j :: 0 <= j < |matches| && matches[j].expansionCode == hint ==> j == i
  }

  ghost predicate Deduces(cat: Catalog, tier: Tier, c: Card, printing: int) {
    if tier == D1 then OnlyMatch(cat.candidates(c.name), printing)
    else OnlyHinted(cat.candidates(c.name), c.expansionHint, printing)
  }

  /** No decision about the card yet, no vote of anyone's, an English name on art that depicts it. */
  ghost predicate Open(c: Card, votes: seq<Vote>, cardIds: Option<set<int>>) {
    && c.unresolved && !c.hasCanonicalCard && !c.hasCustomTag && c.language in {"en", "En", "eN", "EN"}
    && (forall v :: v in votes ==> v.card != c.pk)
    && (cardIds.None? || c.pk in cardIds.value)
  }

  // ----- they are what the selectors do -----

  ghost predicate HintedAt(matches: seq<Candidate>, hint: string, i: int) { 0 <= i < |matches| && matches[i].expansionCode == hint }

  ghost predicate OnlyAt(matches: seq<Candidate>, hint: string, i: int) {
    HintedAt(matches, hint, i) && forall j :: HintedAt(matches, hint, j) ==> j == i
  }

  lemma {:induction false} NoneHinted(matches: seq<Candidate>, hint: string)
    ensures ByExpansion(matches, hint) == [] <==> forall i :: !HintedAt(matches, hint, i)
  {
    if matches != [] {
      var rest := matches[1..];
      NoneHinted(rest, hint);
      assert forall i :: HintedAt(rest, hint, i) ==> HintedAt(matches, hint, i + 1);
      assert forall j :: HintedAt(matches, hint, j) ==> j == 0 || HintedAt(rest, hint, j - 1);
      assert matches[0].expansionCode == hint ==> HintedAt(matches, hint, 0);
    }
  }

  /** The expansion filter leaves one printing exactly if one is hinted, and then that one. */
  lemma {:induction false} ByExpansionExact(matches: seq<Candidate>, hint: string, c: Candidate)
    ensures ByExpansion(matches, hint) == [c] <==> exists i :: OnlyAt(matches, hint, i) && matches[i] == c
  {
    if matches != [] {
      var rest := matches[1..];
      ByExpansionExact(rest, hint, c);
      NoneHinted(rest, hint);
      if matches[0].expansionCode == hint {
        OnlyFirst(matches, hint);
        var later := ByExpansion(rest, hint);
        assert ByExpansion(matches, hint) == [matches[0]] + later;
        if [matches[0]] + later == [c] {
          assert |[matches[0]] + later| == 1 && ([matches[0]] + later)[0] == c;
          assert OnlyAt(matches, hint, 0);
        }
        if i :| OnlyAt(matches, hint, i) && matches[i] == c {
          assert later == [] && [matches[0]] + later == [c];
        }
      } else {
        OnlyLater(matches, hint, c);
      }
    }
  }

  lemma OnlyFirst(matches: seq<Candidate>, hint: string)
    requires matches != [] && matches[0].expansionCode == hint
    ensures forall i :: OnlyAt(matches, hint, i) <==> i == 0 && forall j :: !HintedAt(matches[1..], hint, j)
  {
    assert HintedAt(matches, hint, 0);
    assert forall j :: HintedAt(matches[1..], hint, j) ==> HintedAt(matches, hint, j + 1);
    assert forall j :: HintedAt(matches, hint, j) ==> j == 0 || HintedAt(matches[1..], hint, j - 1);
  }

  lemma OnlyLater(matches: seq<Candidate>, hint: string, c: Candidate)
    requires matches != [] && matches[0].expansionCode != hint
    ensures (exists i :: OnlyAt(matches, hint, i) && matches[i] == c) <==> exists i :: OnlyAt(matches[1..], hint, i) && matches[1..][i] == c
  {
    var rest := matches[1..];
    assert forall j :: HintedAt(rest, hint, j) ==> HintedAt(matches, hint, j + 1);
    assert forall j :: HintedAt(matches, hint, j) ==> HintedAt(rest, hint, j - 1);
    if i :| OnlyAt(matches, hint, i) && matches[i] == c {
      assert OnlyAt(rest, hint, i - 1) && rest[i - 1] == c;
    }
    if i :| OnlyAt(rest, hint, i) && rest[i] == c {
      assert OnlyAt(matches, hint, i + 1) && matches[i + 1] == c;
    }
  }

  lemma ChooseExact(cat: Catalog, tier: Tier, c: Card, v: DeductiveVote)
    ensures Choose(cat, tier, c) == Some(v) <==> v.card == c.pk && v.it.tier == tier && Deduces(cat, tier, c, v.it.printing)
  {
    if tier == D2 {
      HintedExact(cat.candidates(c.name), c.expansionHint, v.it.printing);
    }
  }

  lemma HintedExact(matches: seq<Candidate>, hint: string, printing: int)
    ensures (|ByExpansion(matches, hint)| == 1 && ByExpansion(matches, hint)[0].pk == printing)
            <==> exists i :: 0 <= i < |matches| && matches[i].expansionCode == hint && matches[i].pk == printing
                             && forall j :: 0 <= j < |matches| && matches[j].expansionCode == hint ==> j == i
  {
    var narrowed := ByExpansion(matches, hint);
    if |narrowed| == 1 && narrowed[0].pk == printing {
      ByExpansionExact(matches, hint, narrowed[0]);
      var i :| OnlyAt(matches, hint, i) && matches[i] == narrowed[0];
      assert forall j :: 0 <= j < |matches| && matches[j].expansionCode == hint ==> HintedAt(matches, hint, j);
    }
    if i :| 0 <= i < |matches| && matches[i].expansionCode == hint && matches[i].pk == printing
            && forall j :: 0 <= j < |matches| && matches[j].expansionCode == hint ==> j == i {
      ByExpansionExact(matches, hint, matches[i]);
      assert OnlyAt(matches, hint, i);
    }
  }

  lemma {:induction false} VotedExact(votes: seq<Vote>, card: int)
    ensures card in VotedCards(votes) <==> exists v :: v in votes && v.card == card
  {
    if votes != [] {
      VotedExact(votes[..|votes| - 1], card);
      assert votes == votes[..|votes| - 1] + [votes[|votes| - 1]];
    }
  }

  lemma OpenIsEligible(c: Card, votes: seq<Vote>, cardIds: Option<set<int>>)
    ensures Open(c, votes, cardIds) <==> Eligible(c, VotedCards(votes), cardIds)
  {
    VotedExact(votes, c.pk);
    EnglishExact(c.language);
  }

  lemma EnglishExact(language: string)
    ensures language in {"en", "En", "eN", "EN"} <==> IsEnglish(language)
  {
    if IsEnglish(language) {
      assert language == [language[0], language[1]];
    }
  }

  /** The vote is what the rule deduces for this open card. */
  ghost function DeducedFor(cat: Catalog, tier: Tier, votes: seq<Vote>, cardIds: Option<set<int>>): (Card, DeductiveVote) -> bool {
    (c: Card, v: DeductiveVote) => Open(c, votes, cardIds) && v.card == c.pk && v.it.tier == tier && Deduces(cat, tier, c, v.it.printing)
  }

  /** One selector offers a vote for every open card for which its rule deduces a printing, in the order of
      the cards, and nothing else. */
  lemma {:induction false} OfferInOrder(cat: Catalog, tier: Tier, votes: seq<Vote>, cardIds: Option<set<int>>, cards: seq<Card>)
    returns (from: seq<nat>)
    ensures Offered(cards, DeducedFor(cat, tier, votes, cardIds), Candidates(cat, tier, VotedCards(votes), cardIds, cards), from)
  {
    from := [];
    if cards != [] {
      var front, c := cards[..|cards| - 1], cards[|cards| - 1];
      var earlier := OfferInOrder(cat, tier, votes, cardIds, front);
      var offer, fits := Candidates(cat, tier, VotedCards(votes), cardIds, front), DeducedFor(cat, tier, votes, cardIds);
      OpenIsEligible(c, votes, cardIds);
      assert cards == front + [c] && offer + [] == offer;
      if Eligible(c, VotedCards(votes), cardIds) && Choose(cat, tier, c).Some? {
        var v := Choose(cat, tier, c).value;
        ChooseExact(cat, tier, c, v);
        OfferedLast(front, c, fits, offer, earlier, v);
        from := earlier + [|front|];
      } else {
        forall v ensures !fits(c, v) { ChooseExact(cat, tier, c, v); }
        SkippedLast(front, c, fits, offer, earlier);
        from := earlier;
      }
    }
  }

  // ----- the votes a run casts -----

  predicate Asked(argument: TierArgument, tier: Tier) { argument.All? || (argument.OnlyD1? <==> tier == D1) }

  /** The vote a deduction becomes. */
  predicate CastFor(v: Vote, c: Card, tier: Tier, printing: int, runId: string) {
    v == Vote(c.pk, Some(printing), false, "deductive-backfill" + "-v1", Deduction, if tier == D1 then 0.95 else 0.90, Some(runId))
  }

  lemma {:induction false} RowsMember(s: seq<DeductiveVote>, runId: string, r: Vote)
    ensures r in Rows(s, runId) <==> exists v :: v in s && r == Row(v, runId)
  {
    if s != [] {
      var front, last := s[..|s| - 1], s[|s| - 1];
      RowsMember(front, runId, r);
      assert s == front + [last];
      assert r in Rows(s, runId) <==> r in Rows(front, runId) || r == Row(last, runId);
    }
  }

  /** One selector's rule, both ways: a vote is offered exactly if some open card deduces it. */
  lemma OfferExact(cat: Catalog, tier: Tier, votes: seq<Vote>, cardIds: Option<set<int>>, v: DeductiveVote)
    ensures v in Candidates(cat, tier, VotedCards(votes), cardIds, cat.cards)
            <==> v.it.tier == tier && exists c :: c in cat.cards && c.pk == v.card && Open(c, votes, cardIds) && Deduces(cat, tier, c, v.it.printing)
  {
    CandidatesExact(cat, tier, VotedCards(votes), cardIds, cat.cards);
    forall c ensures Open(c, votes, cardIds) <==> Eligible(c, VotedCards(votes), cardIds) { OpenIsEligible(c, votes, cardIds); }
    forall c ensures Choose(cat, tier, c) == Some(v) <==> v.card == c.pk && v.it.tier == tier && Deduces(cat, tier, c, v.it.printing) {
      ChooseExact(cat, tier, c, v);
    }
  }

  /** What an unlimited run adds to the votes: for every open card, for every rule it was asked to follow
      that deduces a printing, one vote for that printing, and no other row. */
  lemma AddedVotesExact(cat: Catalog, argument: TierArgument, votes: seq<Vote>, cardIds: Option<set<int>>, runId: string, r: Vote)
    ensures r in Rows(Select(cat, argument, VotedCards(votes), cardIds), runId)
            <==> exists c, tier, printing :: Cast(cat, argument, votes, cardIds, runId, r, c, tier, printing)
  {
    var selected := Select(cat, argument, VotedCards(votes), cardIds);
    RowsMember(selected, runId, r);
    if v :| v in selected && r == Row(v, runId) {
      var c := SelectedIsDeduced(cat, argument, votes, cardIds, v);
      assert Cast(cat, argument, votes, cardIds, runId, r, c, v.it.tier, v.it.printing);
    }
    if c, tier, printing :| Cast(cat, argument, votes, cardIds, runId, r, c, tier, printing) {
      DeducedIsSelected(cat, argument, votes, cardIds, c, tier, printing);
      assert r == Row(OnCard(c.pk, Deduced(printing, tier)), runId);
    }
  }

  ghost predicate Cast(cat: Catalog, argument: TierArgument, votes: seq<Vote>, cardIds: Option<set<int>>, runId: string, r: Vote,
                       c: Card, tier: Tier, printing: int) {
    c in cat.cards && Asked(argument, tier) && Open(c, votes, cardIds) && Deduces(cat, tier, c, printing) && CastFor(r, c, tier, printing, runId)
  }

  lemma SelectMember(cat: Catalog, argument: TierArgument, voted: set<int>, cardIds: Option<set<int>>, v: DeductiveVote)
    ensures v in Select(cat, argument, voted, cardIds)
            <==> (Asked(argument, D1) && v in Candidates(cat, D1, voted, cardIds, cat.cards))
                 || (Asked(argument, D2) && v in Candidates(cat, D2, voted, cardIds, cat.cards))
  {
  }

  lemma SelectedIsDeduced(cat: Catalog, argument: TierArgument, votes: seq<Vote>, cardIds: Option<set<int>>, v: DeductiveVote) returns (c: Card)
    requires v in Select(cat, argument, VotedCards(votes), cardIds)
    ensures c in cat.cards && c.pk == v.card && Asked(argument, v.it.tier) && Open(c, votes, cardIds) && Deduces(cat, v.it.tier, c, v.it.printing)
  {
    SelectMember(cat, argument, VotedCards(votes), cardIds, v);
    OfferExact(cat, D1, votes, cardIds, v);
    OfferExact(cat, D2, votes, cardIds, v);
    c :| c in cat.cards && c.pk == v.card && Open(c, votes, cardIds) && Deduces(cat, v.it.tier, c, v.it.printing);
  }

  lemma DeducedIsSelected(cat: Catalog, argument: TierArgument, votes: seq<Vote>, cardIds: Option<set<int>>, c: Card, tier: Tier, printing: int)
    requires c in cat.cards && Asked(argument, tier) && Open(c, votes, cardIds) && Deduces(cat, tier, c, printing)
    ensures OnCard(c.pk, Deduced(printing, tier)) in Select(cat, argument, VotedCards(votes), cardIds)
  {
    var v := OnCard(c.pk, Deduced(printing, tier));
    OfferExact(cat, tier, votes, cardIds, v);
    SelectMember(cat, argument, VotedCards(votes), cardIds, v);
  }

  /** A limited run adds the first of these, all of them when there are no more. */
  lemma LimitedIsPrefix(cat: Catalog, argument: TierArgument, voted: set<int>, cardIds: Option<set<int>>, limit: nat)
    ensures var all, some := Select(cat, argument, voted, cardIds), Take(Select(cat, argument, voted, cardIds), Some(limit));
            some <= all && |some| == if limit < |all| then limit else |all|
  {
  }

  function OfTier(s: seq<DeductiveVote>, tier: Tier): set<nat> { set k: nat | k < |s| && s[k].it.tier == tier }

  lemma OneMoreOfTier(s: seq<DeductiveVote>, v: DeductiveVote, tier: Tier)
    ensures |OfTier(s + [v], tier)| == |OfTier(s, tier)| + if v.it.tier == tier then 1 else 0
  {
    assert OfTier(s + [v], tier) == OfTier(s, tier) + if v.it.tier == tier then {|s|} else {};
  }

  /** The tier counters count the votes of each tier. */
  lemma {:induction false} TierCounts(s: seq<DeductiveVote>, tier: Tier)
    ensures CountTier(s, tier) == |OfTier(s, tier)|
  {
    if s == [] {
      assert OfTier(s, tier) == {};
    } else {
      TierCounts(s[..|s| - 1], tier);
      OneMoreOfTier(s[..|s| - 1], s[|s| - 1], tier);
      assert s == s[..|s| - 1] + [s[|s| - 1]];
    }
  }

  /** Cast by some version of this calculator. */
  ghost predicate OwnVote(v: Vote) { exists digits :: PrintingOutcome.Digits(digits) && v.anonymousId == "deductive-backfill" + "-v" + digits }

  lemma OwnFamily(v: Vote)
    ensures InFamily(v.anonymousId) <==> OwnVote(v)
  {
    PrintingOutcome.FamilyExact(ANONYMOUS_ID, "deductive-backfill");
    assert ANONYMOUS_ID == "deductive-backfill" + "-v" + "1" && PrintingOutcome.Digits("1");
    PrintingOutcome.FamilyExact(v.anonymousId, "deductive-backfill");
  }

  /** The purge removes this calculator's votes, of any version, on the given cards, and no other vote. */
  lemma {:induction false} PurgeExact(votes: seq<Vote>, cards: set<int>, v: Vote)
    ensures multiset(Purge(votes, cards))[v] == if OwnVote(v) && v.card in cards then 0 else multiset(votes)[v]
  {
    if votes != [] {
      var front, last := votes[..|votes| - 1], votes[|votes| - 1];
      PurgeExact(front, cards, v);
      OwnFamily(last);
      assert votes == front + [last];
    }
  }
}
