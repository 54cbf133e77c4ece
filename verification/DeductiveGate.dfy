/** What the deductive backfill's live gate can and cannot count on (deductive_backfill.py's
    verify_zero_resolutions against printing_consensus.resolve_printing): that no card it wrote to resolves,
    which depends on the other members of the card's identity group. */
module DeductiveGate {
  import opened Wrappers
  import opened PrintingConsensus
  import opened DeductiveBackfill
  import opened ByCard

  // ----- when the gate is quiet -----

  /** Deductive rows add no human vote to any group. */
  lemma {:induction false} RowsOnCard(selected: seq<DeductiveVote>, runId: string, card: int)
    ensures !HumanBacked(VotesOn(Rows(selected, runId), card))
  {
    if selected != [] {
      var front, last := selected[..|selected| - 1], selected[|selected| - 1];
      RowsOnCard(front, runId, card);
      var rows := Rows(front, runId);
      assert (rows + [Row(last, runId)])[..|rows|] == rows;
    }
  }

  lemma {:induction false} GroupGainsNoHuman(before: seq<Vote>, selected: seq<DeductiveVote>, runId: string, group: seq<int>)
    ensures HumanBacked(GroupVotes(before + Rows(selected, runId), group)) <==> HumanBacked(GroupVotes(before, group))
  {
    if group != [] {
      var front, last := group[..|group| - 1], group[|group| - 1];
      GroupGainsNoHuman(before, selected, runId, front);
      VotedAppend(before, Rows(selected, runId));
      RowsOnCard(selected, runId, last);
    }
  }

  /** No written card resolves under this resolver. */
  predicate Quiet(resolve: Resolver, group: int -> seq<int>, before: seq<Vote>, selected: seq<DeductiveVote>, runId: string) {
    forall pk | pk in CardsOf(selected) :: !Resolves(resolve, before + Rows(selected, runId), group(pk))
  }

  predicate NoHumanAround(group: int -> seq<int>, before: seq<Vote>, selected: seq<DeductiveVote>) {
    forall pk | pk in CardsOf(selected) :: !HumanBacked(GroupVotes(before, group(pk)))
  }

  /** The gate stays quiet under every resolver that asks for a human vote if and only if, before the
      run, no card it writes to had a human vote anywhere in its identity group. That the cards
      themselves have no vote is not enough. */
  lemma QuietIffNoHumanAround(group: int -> seq<int>, before: seq<Vote>, selected: seq<DeductiveVote>, runId: string)
    ensures (forall resolve: Resolver | NeedsHuman(resolve) :: Quiet(resolve, group, before, selected, runId))
            <==> NoHumanAround(group, before, selected)
  {
    forall pk ensures HumanBacked(GroupVotes(before + Rows(selected, runId), group(pk))) <==> HumanBacked(GroupVotes(before, group(pk))) {
      GroupGainsNoHuman(before, selected, runId, group(pk));
    }
    var anyHuman: Resolver := (votes, pool) => HumanBacked(votes);
    assert NeedsHuman(anyHuman);
    if !NoHumanAround(group, before, selected) {
      var pk :| pk in CardsOf(selected) && HumanBacked(GroupVotes(before, group(pk)));
      assert Resolves(anyHuman, before + Rows(selected, runId), group(pk));
      assert !Quiet(anyHuman, group, before, selected, runId);
    }
  }

  /** So a run whose cards have no human votes around them keeps the real resolution quiet. */
  lemma ResolutionStaysQuiet(p: Policy, group: int -> seq<int>, before: seq<Vote>, selected: seq<DeductiveVote>, runId: string)
    requires NoHumanAround(group, before, selected)
    ensures Quiet(PrintingResolver(p), group, before, selected, runId)
  {
    ResolutionNeedsHuman(p);
    QuietIffNoHumanAround(group, before, selected, runId);
  }

  // ----- a run that trips it -----

  lemma VersionOneOf(family: string)
    requires family != ""
    ensures CalculatorFamily(family + "-v1") == Some(family) && AgentKey(family + "-v1") == family
  {
    var id, stem := family + "-v1", family + "-v";
    assert id[..|id| - 1] == stem && !Digit(stem[|stem| - 1]);
    assert WithoutDigits(stem) == stem && WithoutDigits(id) == stem;
    assert stem[|stem| - 2..] == "-v" && stem[..|stem| - 2] == family;
  }

  /** Votes of different agents for one outcome: pooling leaves them as they are. */
  lemma PoolOfThree(a: VoteTuple, b: VoteTuple, c: VoteTuple)
    requires a.outcome == b.outcome == c.outcome && a.dedupeKey.Some? && b.dedupeKey.Some? && c.dedupeKey.Some?
    requires a.dedupeKey != b.dedupeKey && b.dedupeKey != c.dedupeKey && a.dedupeKey != c.dedupeKey
    ensures Pool([a, b, c]) == [a, b, c] && Pool([b, c]) == [b, c]
  {
    forall all: seq<VoteTuple>, k | all == [a, b, c] || all == [b, c] ensures !Withheld(all, k) {}
    var all := [a, b, c];
    assert PoolUpTo(all, 1) == [a];
    assert [a][1..] == [] && IndexOf([a], b.dedupeKey.value) == 1;
    assert PoolUpTo(all, 2) == [a, b];
    assert [a, b][1..] == [b] && [b][1..] == [] && IndexOf([b], c.dedupeKey.value) == 1 && IndexOf([a, b], c.dedupeKey.value) == 2;
    assert PoolUpTo(all, 3) == [a, b, c];
    assert PoolUpTo([b, c], 1) == [b] && PoolUpTo([b, c], 2) == [b, c];
  }

  /** One outcome, one human and the weights as shipped: it takes the second machine to reach quorum. */
  lemma {:induction false} QuorumOfThree(o: Outcome, a: VoteTuple, b: VoteTuple, c: VoteTuple)
    requires a.outcome == b.outcome == c.outcome == o
    requires !a.isHumanBacked && a.weight == 0.5 && b.isHumanBacked && b.weight == 1.0 && !c.isHumanBacked && c.weight == 0.5
    ensures Resolve(DEFAULTS, [b, c]) == None && Resolve(DEFAULTS, [a, b, c]) == Some(o)
  {
    TwoVotes(b, c, o);
    TwoVotes(a, b, o);
    assert [a, b] + [c] == [a, b, c];
    OneMoreVote([a, b], c, o);
    OneOutcome([b, c], o);
    OneOutcome([a, b, c], o);
    assert b in [a, b, c];
  }

  lemma {:induction false} TwoVotes(a: VoteTuple, b: VoteTuple, o: Outcome)
    requires a.outcome == b.outcome == o
    ensures Outcomes([a, b]) == [o]
    ensures HumanWeight([a, b], o) == (if a.isHumanBacked then a.weight else 0.0) + if b.isHumanBacked then b.weight else 0.0
    ensures MachineWeight([a, b], o) == (if a.isHumanBacked then 0.0 else a.weight) + if b.isHumanBacked then 0.0 else b.weight
  {
    OneVote(a, o);
    assert [a] + [b] == [a, b];
    OneMoreVote([a], b, o);
  }

  lemma {:induction false} OneVote(a: VoteTuple, o: Outcome)
    requires a.outcome == o
    ensures Outcomes([a]) == [o] && HumanWeight([a], o) == (if a.isHumanBacked then a.weight else 0.0)
    ensures MachineWeight([a], o) == if a.isHumanBacked then 0.0 else a.weight
  {
    var none: seq<VoteTuple> := [a][..0];
    assert none == [] && Outcomes(none) == [] && HumanWeight(none, o) == 0.0 && MachineWeight(none, o) == 0.0;
  }

  lemma {:induction false} OneMoreVote(votes: seq<VoteTuple>, v: VoteTuple, o: Outcome)
    requires v.outcome == o && (Outcomes(votes) == [] || Outcomes(votes) == [o])
    ensures Outcomes(votes + [v]) == [o]
    ensures HumanWeight(votes + [v], o) == HumanWeight(votes, o) + if v.isHumanBacked then v.weight else 0.0
    ensures MachineWeight(votes + [v], o) == MachineWeight(votes, o) + if v.isHumanBacked then 0.0 else v.weight
  {
    assert (votes + [v])[..|votes|] == votes && [] + [o] == [o];
  }

  lemma {:induction false} OneOutcome(votes: seq<VoteTuple>, o: Outcome)
    requires Outcomes(votes) == [o] && HumanWeight(votes, o) < DEFAULTS.minVotes
    ensures !OnlyHumans(DEFAULTS, votes)
    ensures Resolve(DEFAULTS, votes)
            == var weight := Decision(DEFAULTS, votes, o, false);
               if weight >= DEFAULTS.minVotes && HasHuman(votes, o) then Some(o) else None
  {
    assert [o][..0] == [];
    assert CountHuman(votes, []) == 0 && CountHuman(votes, [o]) <= 1;
    var weight := Decision(DEFAULTS, votes, o, false);
    assert Total(DEFAULTS, votes, [], false) == 0.0 && Total(DEFAULTS, votes, [o], false) == weight;
    assert Winner(DEFAULTS, votes, [o], false) == o;
    if weight >= DEFAULTS.minVotes { WholeShare(weight); }
  }

  lemma WholeShare(weight: real)
    requires weight != 0.0
    ensures weight / weight == 1.0
  {
  }

  function SiblingVotes(sibling: int, printing: int, human: string): seq<Vote> {
    [Vote(sibling, Some(printing), false, human, User, 1.0, None),
     Vote(sibling, Some(printing), false, "local-ocr" + "-v1", Ocr, 1.0, None)]
  }

  lemma SelectedAlone(cat: Catalog, x: Card, y: Card, printing: int, human: string)
    requires cat.cards == [x, y] && x.pk != y.pk && Eligible(x, {y.pk}, None)
    requires |cat.candidates(x.name)| == 1 && cat.candidates(x.name)[0].pk == printing
    ensures Select(cat, All, VotedCards(SiblingVotes(y.pk, printing, human)), None) == [OnCard(x.pk, Deduced(printing, D1))]
  {
    var before := SiblingVotes(y.pk, printing, human);
    assert before[..1][..0] == [] && VotedCards(before[..1]) == {y.pk} && VotedCards(before) == {y.pk};
    assert cat.cards[..1] == [x] && [x][..0] == [];
    var vote := OnCard(x.pk, Deduced(printing, D1));
    assert Choose(cat, D1, x) == Some(vote) && Choose(cat, D2, x) == None && !Eligible(y, {y.pk}, None);
    assert Candidates(cat, D1, {y.pk}, None, [x]) == [vote];
    assert Candidates(cat, D1, {y.pk}, None, cat.cards) == [vote];
    assert Candidates(cat, D2, {y.pk}, None, [x]) == [];
    assert Candidates(cat, D2, {y.pk}, None, cat.cards) == [];
  }

  lemma GroupOfTwo(x: int, y: int, printing: int, human: string, runId: string)
    requires x != y
    ensures var before := SiblingVotes(y, printing, human);
            var row := Row(OnCard(x, Deduced(printing, D1)), runId);
            && GroupVotes(before, [x, y]) == before
            && GroupVotes(before + [row], [x, y]) == [row] + before
  {
    var before := SiblingVotes(y, printing, human);
    var row := Row(OnCard(x, Deduced(printing, D1)), runId);
    GroupPair(before, x, y);
    GroupPair(before + [row], x, y);
    OnSibling(before, x, y);
    assert (before + [row])[..2] == before && before + [] == before && [] + [row] == [row];
  }

  lemma OnSibling(votes: seq<Vote>, x: int, y: int)
    requires |votes| == 2 && votes[0].card == votes[1].card == y != x
    ensures VotesOn(votes, y) == votes && VotesOn(votes, x) == []
  {
    assert votes == [votes[0]] + [votes[1]];
    OneVoteOn(votes[0], x);
    OneVoteOn(votes[0], y);
    VotesOnMore([votes[0]], votes[1], x);
    VotesOnMore([votes[0]], votes[1], y);
  }

  lemma OneVoteOn(v: Vote, card: int)
    ensures VotesOn([v], card) == if v.card == card then [v] else []
  {
    assert [v] == [] + [v];
    VotesOnMore([], v, card);
  }

  lemma VotesOnMore(votes: seq<Vote>, v: Vote, card: int)
    ensures VotesOn(votes + [v], card) == VotesOn(votes, card) + if v.card == card then [v] else []
  {
    assert (votes + [v])[..|votes|] == votes;
  }

  lemma GroupPair(votes: seq<Vote>, x: int, y: int)
    ensures GroupVotes(votes, [x, y]) == VotesOn(votes, x) + VotesOn(votes, y)
  {
    assert [x, y][..1] == [x] && [x][..0] == [];
    assert GroupVotes(votes, [x]) == VotesOn(votes, x);
  }

  lemma TuplesOf(votes: seq<Vote>, v: Vote, pool: bool)
    ensures AsTuples(DEFAULTS, votes + [v], pool) == AsTuples(DEFAULTS, votes, pool) + [AsTuple(DEFAULTS, v, pool)]
  {
    assert (votes + [v])[..|votes|] == votes;
  }

  lemma ThreeTuples(a: Vote, b: Vote, c: Vote)
    ensures AsTuples(DEFAULTS, [b, c], true) == [AsTuple(DEFAULTS, b, true), AsTuple(DEFAULTS, c, true)]
    ensures AsTuples(DEFAULTS, [a, b, c], true) == [AsTuple(DEFAULTS, a, true), AsTuple(DEFAULTS, b, true), AsTuple(DEFAULTS, c, true)]
  {
    TuplesOf([], b, true);
    TuplesOf([b], c, true);
    TuplesOf([], a, true);
    TuplesOf([a], b, true);
    TuplesOf([a, b], c, true);
    assert [] + [b] == [b] && [b] + [c] == [b, c] && [] + [a] == [a] && [a] + [b] == [a, b] && [a, b] + [c] == [a, b, c];
  }

  /** Against the source's own expectation that the gate is always quiet: a card without any vote,
      whose byte-identical sibling has one human vote and one machine vote. The group is one machine
      short of quorum, the run supplies it, and the gate reports the card. */
  lemma SiblingVoteTripsGate(cat: Catalog, x: Card, y: Card, printing: int, human: string, runId: string)
    requires cat.cards == [x, y] && x.pk != y.pk && Eligible(x, {y.pk}, None) && cat.group(x.pk) == [x.pk, y.pk]
    requires |cat.candidates(x.name)| == 1 && cat.candidates(x.name)[0].pk == printing
    requires CalculatorFamily(human) == None && human != "deductive-backfill" && human != "local-ocr" && runId != ZERO_WEIGHT_RUN_ID
    ensures var before := SiblingVotes(y.pk, printing, human);
            var selected := Select(cat, All, VotedCards(before), None);
            && selected == [OnCard(x.pk, Deduced(printing, D1))]
            && VotesOn(before, x.pk) == []
            && !Resolves(PrintingResolver(DEFAULTS), before, cat.group(x.pk))
            && Resolves(PrintingResolver(DEFAULTS), before + Rows(selected, runId), cat.group(x.pk))
  {
    var before, vote := SiblingVotes(y.pk, printing, human), OnCard(x.pk, Deduced(printing, D1));
    SelectedAlone(cat, x, y, printing, human);
    assert Rows([vote], runId) == [Row(vote, runId)] by { assert [vote][..0] == []; }
    OnSibling(before, x.pk, y.pk);
    GroupOfTwo(x.pk, y.pk, printing, human, runId);
    OneMachineShort(x.pk, y.pk, printing, human, runId);
  }

  lemma OneMachineShort(x: int, y: int, printing: int, human: string, runId: string)
    requires CalculatorFamily(human) == None && human != "deductive-backfill" && human != "local-ocr" && runId != ZERO_WEIGHT_RUN_ID
    ensures var before, row := SiblingVotes(y, printing, human), Row(OnCard(x, Deduced(printing, D1)), runId);
            && ResolvePrinting(DEFAULTS, before, true) == None
            && ResolvePrinting(DEFAULTS, [row] + before, true) == Some(Printing(printing))
  {
    var before, row := SiblingVotes(y, printing, human), Row(OnCard(x, Deduced(printing, D1)), runId);
    ThreeTuples(row, before[0], before[1]);
    assert [row] + before == [row, before[0], before[1]] && [before[0], before[1]] == before;
    VersionOneOf("deductive-backfill");
    VersionOneOf("local-ocr");
    assert ANONYMOUS_ID == "deductive-backfill" + "-v1";
    var a, b, c := AsTuple(DEFAULTS, row, true), AsTuple(DEFAULTS, before[0], true), AsTuple(DEFAULTS, before[1], true);
    PoolOfThree(a, b, c);
    QuorumOfThree(Printing(printing), a, b, c);
  }
}
