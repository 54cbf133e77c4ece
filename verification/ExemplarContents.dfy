/** What the exemplar seeder stores, for which cards and in which order, told from the tables it reads
    (artbox_exemplar_backfill.py). */
module ExemplarContents {
  import opened Wrappers
  import opened ByCard
  import opened Offers
  import opened ExemplarSeeding

  // ----- the two kinds of seed -----

  /** The evidence row is of the card's current image and has an art-box hash. */
  predicate Current(cat: Catalog, e: Evidence) {
    && e.card in cat.cards && e.artboxPhash.Some? && cat.cards[e.card].contentPhash == Some(e.contentHash)
    && (e.md5.Some? && cat.cards[e.card].md5.Some? ==> e.md5.value == cat.cards[e.card].md5.value)
  }

  predicate IllustratedBy(cat: Catalog, printing: int, illustration: string) {
    printing in cat.illustration && cat.illustration[printing] == Some(illustration)
  }

  /** A seed from a human resolution: the hashes of the card's evidence, its resolved printing with that
      printing's illustration, and the card's checksum group, or the card alone. */
  predicate HumanSeed(cat: Catalog, e: Evidence, f: Fields) {
    && Current(cat, e) && cat.cards[e.card].resolved
    && f.card == e.card && Some(f.it.artboxPhash) == e.artboxPhash && f.it.contentHash == e.contentHash
    && Some(f.it.printing) == cat.cards[e.card].inferredPrinting && IllustratedBy(cat, f.it.printing, f.it.illustrationId)
    && f.it.seedKind == HumanResolution && f.it.isHumanBacked && f.it.sourceVote == None && f.it.confidence == None
    && (match cat.cards[e.card].md5
        case Some(md5) => f.it.seedGroup == Md5Group(md5)
        case None => f.it.seedGroup == CardGroup(e.card))
  }

  /** A confident join-key vote for an illustrated printing. */
  predicate Confident(cat: Catalog, v: Vote) {
    && v.anonymousId == "stage-d-join-key-v1" && !v.isNoMatch && v.confidence >= 0.75
    && v.printing.Some? && v.printing.value in cat.illustration && cat.illustration[v.printing.value].Some?
  }

  /** A seed from such a vote: the hashes of the card's evidence, and the vote's own printing, illustration,
      key, confidence and group. */
  predicate MachineSeed(cat: Catalog, v: Vote, e: Evidence, f: Fields) {
    && Confident(cat, v) && Current(cat, e) && e.card == v.card
    && f.card == v.card && Some(f.it.artboxPhash) == e.artboxPhash && f.it.contentHash == e.contentHash
    && Some(f.it.printing) == v.printing && IllustratedBy(cat, f.it.printing, f.it.illustrationId)
    && f.it.seedKind == JoinKeyMachine && !f.it.isHumanBacked && f.it.sourceVote == Some(v.pk) && f.it.confidence == Some(v.confidence)
    && f.it.seedGroup == VoteGroup(v.pk)
  }

  /** The card's current evidence row; of several, the last. */
  ghost predicate LastCurrent(cat: Catalog, card: int, evidence: seq<Evidence>, i: int) {
    && 0 <= i < |evidence| && evidence[i].card == card && Current(cat, evidence[i])
    && forall j :: i < j < |evidence| && evidence[j].card == card ==> !Current(cat, evidence[j])
  }

  // ----- the human pass -----

  /** The seed fits the row, and the row's card is not seeded. */
  function HumanFits(cat: Catalog, excluded: set<int>): (Evidence, Fields) -> bool {
    (e: Evidence, f: Fields) => e.card !in excluded && HumanSeed(cat, e, f)
  }

  lemma CandidateSeed(cat: Catalog, e: Evidence)
    ensures HumanCandidate(cat, e) ==> HumanSeed(cat, e, HumanField(cat, e))
    ensures forall f :: HumanSeed(cat, e, f) ==> HumanCandidate(cat, e)
  {
  }

  /** The human pass offers a seed for every eligible evidence row whose card is not seeded, in the order of
      the rows, and nothing else. */
  lemma {:induction false} HumanInOrder(cat: Catalog, excluded: set<int>, evidence: seq<Evidence>) returns (from: seq<nat>)
    ensures Offered(evidence, HumanFits(cat, excluded), HumanFields(cat, excluded, evidence), from)
  {
    from := [];
    if evidence != [] {
      var e, rest := evidence[0], evidence[1..];
      var later := HumanInOrder(cat, excluded, rest);
      var fields := HumanFields(cat, excluded, rest);
      CandidateSeed(cat, e);
      assert evidence == [e] + rest && [] + fields == fields;
      if HumanCandidate(cat, e) && e.card !in excluded {
        OfferedFirst(e, rest, HumanFits(cat, excluded), fields, later, HumanField(cat, e));
        from := [0] + Shift(later);
      } else {
        SkippedFirst(e, rest, HumanFits(cat, excluded), fields, later);
        from := Shift(later);
      }
    }
  }

  // ----- the machine pass -----

  lemma {:induction false} EvidenceOfExact(cat: Catalog, card: int, evidence: seq<Evidence>)
    ensures EvidenceOf(cat, card, evidence).Some? ==>
              exists i :: LastCurrent(cat, card, evidence, i) && EvidenceOf(cat, card, evidence) == Some(evidence[i])
    ensures EvidenceOf(cat, card, evidence).None? ==> forall i :: !LastCurrent(cat, card, evidence, i)
  {
    if evidence != [] {
      var front, last := evidence[..|evidence| - 1], |evidence| - 1;
      EvidenceOfExact(cat, card, front);
      assert evidence == front + [evidence[last]];
      if evidence[last].card == card && Current(cat, evidence[last]) {
        assert LastCurrent(cat, card, evidence, last);
      } else {
        forall i ensures LastCurrent(cat, card, evidence, i) <==> LastCurrent(cat, card, front, i) {}
      }
    }
  }

  ghost predicate MachineAt(cat: Catalog, v: Vote, f: Fields) {
    exists i :: LastCurrent(cat, v.card, cat.evidence, i) && MachineSeed(cat, v, cat.evidence[i], f)
  }

  ghost function MachineFits(cat: Catalog, excluded: set<int>): (Vote, Fields) -> bool {
    (v: Vote, f: Fields) => v.card !in excluded && MachineAt(cat, v, f)
  }

  lemma VoteSeed(cat: Catalog, v: Vote)
    ensures JoinKeyVote(cat, v) && VoteEvidence(cat, v).Some? ==> MachineAt(cat, v, MachineField(cat, v))
    ensures forall f :: MachineAt(cat, v, f) ==> JoinKeyVote(cat, v) && VoteEvidence(cat, v).Some?
  {
    EvidenceOfExact(cat, v.card, cat.evidence);
    if JoinKeyVote(cat, v) && VoteEvidence(cat, v).Some? {
      var i :| LastCurrent(cat, v.card, cat.evidence, i) && VoteEvidence(cat, v) == Some(cat.evidence[i]);
      assert MachineSeed(cat, v, cat.evidence[i], MachineField(cat, v));
    }
  }

  /** The machine pass offers a seed for every confident join-key vote whose card has current evidence and is
      not excluded, in the order of the votes, and nothing else. */
  lemma {:induction false} MachineInOrder(cat: Catalog, excluded: set<int>, votes: seq<Vote>) returns (from: seq<nat>)
    ensures Offered(votes, MachineFits(cat, excluded), MachineFields(cat, excluded, votes), from)
  {
    from := [];
    if votes != [] {
      var front, v := votes[..|votes| - 1], votes[|votes| - 1];
      var earlier := MachineInOrder(cat, excluded, front);
      VoteSeed(cat, v);
      var fields := MachineFields(cat, excluded, front);
      assert votes == front + [v] && fields + [] == fields;
      if JoinKeyVote(cat, v) && v.card !in excluded && VoteEvidence(cat, v).Some? {
        OfferedLast(front, v, MachineFits(cat, excluded), fields, earlier, MachineField(cat, v));
        from := earlier + [|front|];
      } else {
        SkippedLast(front, v, MachineFits(cat, excluded), fields, earlier);
        from := earlier;
      }
    }
  }

  // ----- the plan of a run -----

  /** Where a planned row comes from. */
  ghost predicate Sourced(cat: Catalog, f: Fields) {
    || (exists e :: e in cat.evidence && HumanSeed(cat, e, f))
    || (exists v :: v in cat.votes && MachineAt(cat, v, f))
  }

  lemma SlicedMember(s: seq<Fields>, limit: Option<int>, f: Fields)
    ensures f in Slice(s, limit) ==> f in s
  {
    SliceIsPrefix(s, limit);
  }

  lemma HumanSourced(cat: Catalog, excluded: set<int>, f: Fields)
    requires f in HumanFields(cat, excluded, cat.evidence)
    ensures exists e :: e in cat.evidence && HumanSeed(cat, e, f)
  {
    var from := HumanInOrder(cat, excluded, cat.evidence);
    var k :| 0 <= k < |from| && HumanFields(cat, excluded, cat.evidence)[k] == f;
    assert cat.evidence[from[k]] in cat.evidence;
  }

  lemma MachineSourced(cat: Catalog, excluded: set<int>, f: Fields)
    requires f in MachineFields(cat, excluded, cat.votes)
    ensures exists v :: v in cat.votes && MachineAt(cat, v, f)
  {
    var from := MachineInOrder(cat, excluded, cat.votes);
    var k :| 0 <= k < |from| && MachineFields(cat, excluded, cat.votes)[k] == f;
    assert cat.votes[from[k]] in cat.votes;
  }

  /** Every planned row is a human seed of some evidence row or a machine seed of some vote. */
  lemma PlanSourced(cat: Catalog, seeded: set<int>, limit: Option<int>, f: Fields)
    requires f in Plan(cat, seeded, limit)
    ensures Sourced(cat, f)
  {
    var human := HumanPlan(cat, seeded, limit);
    SlicedMember(HumanFields(cat, seeded, cat.evidence), limit, f);
    SlicedMember(MachineFields(cat, seeded + CardsOf(human), cat.votes), Room(limit, |human|), f);
    if f in human {
      HumanSourced(cat, seeded, f);
    } else {
      MachineSourced(cat, seeded + CardsOf(human), f);
    }
  }

  /** So what the table gains is that: a new row sits under its own card and is such a seed. */
  lemma {:induction false} RowsAreFields(fields: seq<Fields>, c: int)
    ensures c in Rows(fields) ==> Rows(fields)[c] in fields && Rows(fields)[c].card == c
  {
    if fields != [] {
      RowsAreFields(fields[..|fields| - 1], c);
      assert fields == fields[..|fields| - 1] + [fields[|fields| - 1]];
    }
  }

  lemma StoredSeeds(cat: Catalog, seeds: map<int, Fields>, limit: Option<int>, c: int)
    requires c in AfterRun(cat, seeds, limit) && c !in seeds
    ensures AfterRun(cat, seeds, limit)[c].card == c && Sourced(cat, AfterRun(cat, seeds, limit)[c])
  {
    RowsAreFields(Plan(cat, seeds.Keys, limit), c);
    PlanSourced(cat, seeds.Keys, limit, Rows(Plan(cat, seeds.Keys, limit))[c]);
  }

  /** With a limit that is not negative the run seeds exactly the first `limit` rows of the unlimited plan,
      both passes together. */
  lemma LimitIsShared(cat: Catalog, seeded: set<int>, limit: nat)
    ensures var all, some := Plan(cat, seeded, None), Plan(cat, seeded, Some(limit));
            some <= all && |some| == if limit < |all| then limit else |all|
  {
    LimitedPlanIsPrefix(cat, seeded, Some(limit));
    var all := HumanFields(cat, seeded, cat.evidence);
    if |all| > limit {
      assert HumanPlan(cat, seeded, Some(limit)) == all[..limit];
    }
  }

  /** With a negative one it drops that many of the human seeds and runs no machine pass. */
  lemma NegativeLimit(cat: Catalog, seeded: set<int>, limit: int)
    requires limit < 0
    ensures var human := HumanFields(cat, seeded, cat.evidence);
            Plan(cat, seeded, Some(limit)) == if |human| + limit > 0 then human[..|human| + limit] else []
  {
  }

  // ----- the dry run's list -----

  lemma {:induction false} HashAt(fields: seq<Fields>, k: nat)
    ensures |Hashes(fields)| == |fields| && (k < |fields| ==> Hashes(fields)[k] == fields[k].it.artboxPhash)
  {
    if fields != [] {
      HashAt(fields[..|fields| - 1], k);
    }
  }

  /** The k-th hash of the dry run is the art-box hash of the current evidence of the k-th planned card. */
  lemma DryRunHashes(cat: Catalog, seeded: set<int>, k: nat)
    ensures |Hashes(Plan(cat, seeded, None))| == |Plan(cat, seeded, None)|
    ensures k < |Plan(cat, seeded, None)| ==>
              exists e :: e in cat.evidence && Current(cat, e) && e.card == Plan(cat, seeded, None)[k].card
                          && e.artboxPhash == Some(Hashes(Plan(cat, seeded, None))[k])
  {
    var plan := Plan(cat, seeded, None);
    HashAt(plan, k);
    if k < |plan| {
      PlanSourced(cat, seeded, None, plan[k]);
      SourceEvidence(cat, plan[k]);
    }
  }

  lemma SourceEvidence(cat: Catalog, f: Fields)
    requires Sourced(cat, f)
    ensures exists e :: e in cat.evidence && Current(cat, e) && e.card == f.card && e.artboxPhash == Some(f.it.artboxPhash)
                        && e.contentHash == f.it.contentHash
  {
    if e :| e in cat.evidence && HumanSeed(cat, e, f) {
    } else {
      var v :| v in cat.votes && MachineAt(cat, v, f);
      var i :| LastCurrent(cat, v.card, cat.evidence, i) && MachineSeed(cat, v, cat.evidence[i], f);
      assert cat.evidence[i] in cat.evidence;
    }
  }
}
