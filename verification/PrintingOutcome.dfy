/** What a tally decides: which outcome `PrintingConsensus.Resolve` picks, and which votes pooling leaves it. */
module PrintingOutcome {
  import opened Wrappers
  import opened PrintingConsensus

  // ----- one vote -----

  predicate Digits(s: string) { s != "" && forall c :: c in s ==> '0' <= c <= '9' }

  lemma {:induction false} WithoutDigitsExact(s: string)
    ensures var stem := WithoutDigits(s);
            && stem <= s && (forall c :: c in s[|stem|..] ==> '0' <= c <= '9')
            && (stem != "" ==> !('0' <= stem[|stem| - 1] <= '9'))
  {
    if s != "" && Digit(s[|s| - 1]) {
      var front := s[..|s| - 1];
      WithoutDigitsExact(front);
      var n := |WithoutDigits(s)|;
      assert s[n..] == front[n..] + [s[|s| - 1]];
    }
  }

  lemma {:induction false} DigitsFallAway(stem: string, digits: string)
    requires stem == "" || !Digit(stem[|stem| - 1])
    requires forall c :: c in digits ==> '0' <= c <= '9'
    ensures WithoutDigits(stem + digits) == stem
    decreases |digits|
  {
    if digits == "" {
      assert stem + digits == stem;
    } else {
      var n := |digits| - 1;
      assert digits[n] in digits;
      forall c | c in digits[..n] ensures '0' <= c <= '9' { assert c in digits; }
      assert (stem + digits)[..|stem + digits| - 1] == stem + digits[..n];
      DigitsFallAway(stem, digits[..n]);
    }
  }

  /** A calculator's identifier is its family, "-v" and a number; the family is what identifies the agent. */
  lemma FamilyExact(id: string, family: string)
    ensures CalculatorFamily(id) == Some(family) <==> family != "" && exists digits :: Digits(digits) && id == family + "-v" + digits
    ensures CalculatorFamily(id) == Some(family) ==> AgentKey(id) == family
    ensures CalculatorFamily(id) == None ==> AgentKey(id) == id
  {
    var stem := WithoutDigits(id);
    WithoutDigitsExact(id);
    if CalculatorFamily(id) == Some(family) {
      assert id == family + "-v" + id[|stem|..];
      assert Digits(id[|stem|..]);
    }
    if digits: string :| Digits(digits) && id == family + "-v" + digits && family != "" {
      assert (family + "-v")[|family| + 1] == 'v';
      DigitsFallAway(family + "-v", digits);
      assert stem[|stem| - 2..] == "-v" && stem[..|stem| - 2] == family;
    }
  }

  /** Votes of the frozen deductive run weigh nothing, all others what their source weighs. */
  predicate Weighs(p: Policy, v: Vote, weight: real) {
    if v.source == Deduction && CalculatorFamily(v.anonymousId) == Some("deductive-backfill")
       && v.runId == Some("deductive-backfill-v1/20260714-ratified-zero-weight")
    then weight == 0.0
    else match v.source
         case User => weight == 1.0
         case Admin => weight == p.adminWeight
         case Deduction => weight == p.machineWeight
         case Ocr => weight == p.machineWeight
         case Federated => weight == p.federatedWeight
         case Implicit => weight == p.implicitWeight
  }

  /** What a vote counts as: for its printing or for none, human if a user or a moderator cast it, and
      under its agent's name when the group is pooled. */
  predicate Counts(p: Policy, v: Vote, pool: bool, t: VoteTuple) {
    && (t.outcome == NoMatch <==> v.isNoMatch || v.printing.None?)
    && (t.outcome.Printing? ==> v.printing == Some(t.outcome.id))
    && Weighs(p, v, t.weight) && (t.isHumanBacked <==> v.source in {User, Admin})
    && t.dedupeKey == if pool then Some(AgentKey(v.anonymousId)) else None
  }

  lemma {:induction false} TuplesExact(p: Policy, votes: seq<Vote>, pool: bool)
    ensures var ts := AsTuples(p, votes, pool);
            |ts| == |votes| && forall i :: 0 <= i < |votes| ==> Counts(p, votes[i], pool, ts[i])
  {
    if votes != [] {
      TuplesExact(p, votes[..|votes| - 1], pool);
    }
  }

  // ----- the weights -----

  /** A side's weight is the sum of its votes', human and machine votes apart. */
  lemma {:induction false} WeightsAdd(a: seq<VoteTuple>, b: seq<VoteTuple>, o: Outcome)
    ensures HumanWeight(a + b, o) == HumanWeight(a, o) + HumanWeight(b, o)
    ensures MachineWeight(a + b, o) == MachineWeight(a, o) + MachineWeight(b, o)
    decreases |b|
  {
    if b == [] {
      assert a + b == a;
    } else {
      var n := |b| - 1;
      WeightsAdd(a, b[..n], o);
      assert (a + b)[..|a + b| - 1] == a + b[..n] && (a + b)[|a + b| - 1] == b[n];
    }
  }

  lemma OneVoteWeighs(v: VoteTuple, o: Outcome)
    ensures HumanWeight([v], o) == if v.outcome == o && v.isHumanBacked then v.weight else 0.0
    ensures MachineWeight([v], o) == if v.outcome == o && !v.isHumanBacked then v.weight else 0.0
  {
    assert [v][..0] == [];
  }

  lemma {:induction false} OutcomesExact(votes: seq<VoteTuple>)
    ensures forall o :: o in Outcomes(votes) <==> exists v :: v in votes && v.outcome == o
    ensures forall i, j :: 0 <= i < j < |Outcomes(votes)| ==> Outcomes(votes)[i] != Outcomes(votes)[j]
  {
    if votes != [] {
      var front, last := votes[..|votes| - 1], votes[|votes| - 1];
      OutcomesExact(front);
      assert votes == front + [last];
      forall o ensures o in Outcomes(votes) <==> exists v :: v in votes && v.outcome == o {
        assert o in Outcomes(votes) <==> o in Outcomes(front) || o == last.outcome;
        if o == last.outcome { assert last in votes; }
      }
    }
  }

  // ----- when machines count -----

  lemma {:induction false} TwoSides(votes: seq<VoteTuple>, os: seq<Outcome>)
    requires forall i, j :: 0 <= i < j < |os| ==> os[i] != os[j]
    ensures CountHuman(votes, os) >= 1 <==> exists o :: o in os && HasHuman(votes, o)
    ensures CountHuman(votes, os) >= 2 <==> exists o, u :: o in os && u in os && o != u && HasHuman(votes, o) && HasHuman(votes, u)
  {
    if os != [] {
      var front, last := os[..|os| - 1], os[|os| - 1];
      TwoSides(votes, front);
      assert os == front + [last] && last !in front;
    }
  }

  /** People contradict each other. */
  predicate HumanContest(votes: seq<VoteTuple>) {
    exists v, u | v in votes && u in votes :: v.isHumanBacked && u.isHumanBacked && v.outcome != u.outcome
  }

  /** One side has enough human weight of its own. */
  predicate HumanQuorum(p: Policy, votes: seq<VoteTuple>) {
    exists v | v in votes :: HumanWeight(votes, v.outcome) >= p.minVotes
  }

  /** Machine votes are left out exactly if people contradict each other or one side needs no help. */
  lemma OnlyHumansIff(p: Policy, votes: seq<VoteTuple>)
    ensures OnlyHumans(p, votes) <==> HumanContest(votes) || HumanQuorum(p, votes)
  {
    var os := Outcomes(votes);
    OutcomesExact(votes);
    TwoSides(votes, os);
    assert HumanContest(votes) <==> exists o, u :: o in os && u in os && o != u && HasHuman(votes, o) && HasHuman(votes, u) by {
      if HumanContest(votes) {
        var v, u :| v in votes && u in votes && v.isHumanBacked && u.isHumanBacked && v.outcome != u.outcome;
        assert HasHuman(votes, v.outcome) && HasHuman(votes, u.outcome);
      }
    }
    assert HumanQuorum(p, votes) <==> exists o | o in os :: HumanWeight(votes, o) >= p.minVotes;
  }

  // ----- the winner -----

  /** What a side weighs: its people, and its machines up to the cap unless they are left out. */
  function Weight(p: Policy, votes: seq<VoteTuple>, o: Outcome): real {
    var machines := MachineWeight(votes, o);
    HumanWeight(votes, o) +
    if HumanContest(votes) || HumanQuorum(p, votes) then 0.0 else if machines > p.machineCap then p.machineCap else machines
  }

  /** The vote at `i` is the first for the side that weighs most; of equal sides, the one voted for first. */
  predicate Leads(votes: seq<VoteTuple>, weight: Outcome -> real, i: nat) {
    i < |votes| && forall j :: 0 <= j < |votes| ==>
      weight(votes[j].outcome) <= weight(votes[i].outcome) && (j < i ==> weight(votes[j].outcome) < weight(votes[i].outcome))
  }

  /** The weights of all sides, one by one. */
  function Sum(os: seq<Outcome>, weight: Outcome -> real): real {
    if os == [] then 0.0 else Sum(os[..|os| - 1], weight) + weight(os[|os| - 1])
  }

  lemma {:induction false} TotalIsSum(p: Policy, votes: seq<VoteTuple>, os: seq<Outcome>, onlyHumans: bool)
    ensures Total(p, votes, os, onlyHumans) == Sum(os, (o: Outcome) => Decision(p, votes, o, onlyHumans))
  {
    if os != [] {
      TotalIsSum(p, votes, os[..|os| - 1], onlyHumans);
    }
  }

  /** `max` over the sides. */
  function Best(os: seq<Outcome>, weight: Outcome -> real): Outcome
    requires os != []
  {
    var last := os[|os| - 1];
    if |os| == 1 then last
    else
      var before := Best(os[..|os| - 1], weight);
      if weight(last) > weight(before) then last else before
  }

  lemma {:induction false} WinnerIsBest(p: Policy, votes: seq<VoteTuple>, os: seq<Outcome>, onlyHumans: bool)
    requires os != []
    ensures Winner(p, votes, os, onlyHumans) == Best(os, (o: Outcome) => Decision(p, votes, o, onlyHumans))
  {
    if |os| > 1 {
      WinnerIsBest(p, votes, os[..|os| - 1], onlyHumans);
    }
  }

  lemma {:induction false} BestLeads(votes: seq<VoteTuple>, weight: Outcome -> real) returns (i: nat)
    requires votes != []
    ensures Outcomes(votes) != []
    ensures Leads(votes, weight, i) && votes[i].outcome == Best(Outcomes(votes), weight)
  {
    var n := |votes| - 1;
    if n == 0 {
      i := 0;
    } else {
      i := BestLeads(votes[..n], weight);
      i := BestStep(votes, weight, i);
    }
  }

  lemma BestStep(votes: seq<VoteTuple>, weight: Outcome -> real, i: nat) returns (k: nat)
    requires |votes| > 1 && Outcomes(votes[..|votes| - 1]) != []
    requires var front := votes[..|votes| - 1]; Leads(front, weight, i) && front[i].outcome == Best(Outcomes(front), weight)
    ensures Outcomes(votes) != [] && Leads(votes, weight, k) && votes[k].outcome == Best(Outcomes(votes), weight)
  {
    var n := |votes| - 1;
    var front, last := votes[..n], votes[n].outcome;
    var os := Outcomes(front);
    k := i;
    if last in os {
      var j := VoterOf(front, last);
      StillLeads(votes, weight, i);
    } else {
      assert (os + [last])[..|os|] == os;
      if weight(last) > weight(front[i].outcome) {
        k := n;
        NowLeads(votes, weight, i);
      } else {
        StillLeads(votes, weight, i);
      }
    }
  }

  lemma {:induction false} VoterOf(votes: seq<VoteTuple>, o: Outcome) returns (j: nat)
    requires o in Outcomes(votes)
    ensures j < |votes| && votes[j].outcome == o
  {
    OutcomesExact(votes);
    var v :| v in votes && v.outcome == o;
    j :| 0 <= j < |votes| && votes[j] == v;
  }

  lemma StillLeads(votes: seq<VoteTuple>, weight: Outcome -> real, i: nat)
    requires votes != [] && Leads(votes[..|votes| - 1], weight, i)
    requires weight(votes[|votes| - 1].outcome) <= weight(votes[i].outcome)
    ensures Leads(votes, weight, i)
  {
  }

  lemma NowLeads(votes: seq<VoteTuple>, weight: Outcome -> real, i: nat)
    requires votes != [] && Leads(votes[..|votes| - 1], weight, i)
    requires weight(votes[|votes| - 1].outcome) > weight(votes[i].outcome)
    ensures Leads(votes, weight, |votes| - 1)
  {
    var n := |votes| - 1;
    forall j | 0 <= j < n ensures weight(votes[j].outcome) < weight(votes[n].outcome) {
      assert votes[j] == votes[..n][j];
    }
  }

  lemma OneLeads(votes: seq<VoteTuple>, weight: Outcome -> real, i: nat, j: nat)
    requires Leads(votes, weight, i) && Leads(votes, weight, j)
    ensures i == j
  {
    var a, b := weight(votes[i].outcome), weight(votes[j].outcome);
    assert a <= b <= a;
  }

  lemma {:induction false} SumSame(os: seq<Outcome>, f: Outcome -> real, g: Outcome -> real)
    requires forall o :: o in os ==> f(o) == g(o)
    ensures Sum(os, f) == Sum(os, g)
  {
    if os != [] {
      SumSame(os[..|os| - 1], f, g);
    }
  }

  /** The share of the side in the weight of all sides. */
  function Share(votes: seq<VoteTuple>, weight: Outcome -> real, o: Outcome): real {
    var total := Sum(Outcomes(votes), weight);
    if total == 0.0 then 0.0 else weight(o) / total
  }

  lemma DecisionIsWeight(p: Policy, votes: seq<VoteTuple>, o: Outcome)
    ensures Decision(p, votes, o, OnlyHumans(p, votes)) == Weight(p, votes, o)
  {
    OnlyHumansIff(p, votes);
  }

  /** A tally resolves to an outcome exactly if that is the side of the greatest weight, the earliest of
      them, it has the quorum and the share, and a human voted for it. */
  lemma ResolvesIff(p: Policy, votes: seq<VoteTuple>, o: Outcome)
    ensures var weight := (u: Outcome) => Weight(p, votes, u);
            Resolve(p, votes) == Some(o)
            <==> (exists i: nat :: Leads(votes, weight, i) && votes[i].outcome == o)
                 && weight(o) >= p.minVotes && Share(votes, weight, o) >= p.minShare
                 && exists v :: v in votes && v.outcome == o && v.isHumanBacked
  {
    if votes != [] {
      var weight, onlyHumans := (u: Outcome) => Weight(p, votes, u), OnlyHumans(p, votes);
      var decision := (u: Outcome) => Decision(p, votes, u, onlyHumans);
      var os := Outcomes(votes);
      forall u ensures decision(u) == weight(u) { DecisionIsWeight(p, votes, u); }
      var i := BestLeads(votes, decision);
      WinnerIsBest(p, votes, os, onlyHumans);
      TotalIsSum(p, votes, os, onlyHumans);
      SumSame(os, decision, weight);
      assert Leads(votes, weight, i);
      forall j: nat | Leads(votes, weight, j) ensures j == i { OneLeads(votes, weight, i, j); }
    }
  }

  // ----- pooling -----

  lemma {:induction false} IndexOfExact(votes: seq<VoteTuple>, key: string)
    ensures var i := IndexOf(votes, key);
            && (forall j :: 0 <= j < i ==> votes[j].dedupeKey != Some(key))
            && (i < |votes| ==> votes[i].dedupeKey == Some(key))
  {
    if votes != [] && votes[0].dedupeKey != Some(key) {
      IndexOfExact(votes[1..], key);
      var i := IndexOf(votes, key);
      forall j | 0 <= j < i ensures votes[j].dedupeKey != Some(key) {
        if j > 0 { assert votes[j] == votes[1..][j - 1]; }
      }
    }
  }

  predicate Contradicts(votes: seq<VoteTuple>, key: string) {
    exists v, u | v in votes && u in votes :: v.dedupeKey == Some(key) && u.dedupeKey == Some(key) && v.outcome != u.outcome
  }

  /** The vote stays in the tally: it is nobody's, or the heaviest of an agent that does not contradict itself. */
  predicate Heard(all: seq<VoteTuple>, seen: seq<VoteTuple>, v: VoteTuple) {
    v in seen &&
    (v.dedupeKey.Some? ==>
       !Contradicts(all, v.dedupeKey.value) && forall u :: u in seen && u.dedupeKey == v.dedupeKey ==> u.weight <= v.weight)
  }

  predicate OneEach(pooled: seq<VoteTuple>) {
    forall i, j :: 0 <= i < j < |pooled| && pooled[i].dedupeKey.Some? ==> pooled[i].dedupeKey != pooled[j].dedupeKey
  }

  ghost predicate HasVoice(pooled: seq<VoteTuple>, key: string) { exists v :: v in pooled && v.dedupeKey == Some(key) }

  /** Every agent that does not contradict itself has a voice. */
  ghost predicate AllHeard(all: seq<VoteTuple>, seen: seq<VoteTuple>, pooled: seq<VoteTuple>) {
    forall v :: v in seen && v.dedupeKey.Some? && !Contradicts(all, v.dedupeKey.value) ==> HasVoice(pooled, v.dedupeKey.value)
  }

  function Keyless(votes: seq<VoteTuple>): seq<VoteTuple> {
    if votes == [] then []
    else Keyless(votes[..|votes| - 1]) + if votes[|votes| - 1].dedupeKey.None? then [votes[|votes| - 1]] else []
  }

  lemma {:induction false} KeylessReplaced(votes: seq<VoteTuple>, i: nat, v: VoteTuple)
    requires i < |votes| && votes[i].dedupeKey.Some? && v.dedupeKey.Some?
    ensures Keyless(votes[i := v]) == Keyless(votes)
  {
    var n := |votes| - 1;
    if i < n {
      assert votes[i := v][..n] == votes[..n][i := v];
      KeylessReplaced(votes[..n], i, v);
    } else {
      assert votes[i := v][..n] == votes[..n];
    }
  }

  ghost predicate Pooled(all: seq<VoteTuple>, seen: seq<VoteTuple>, pooled: seq<VoteTuple>) {
    && (forall v :: v in pooled ==> Heard(all, seen, v))
    && OneEach(pooled) && AllHeard(all, seen, pooled) && Keyless(pooled) == Keyless(seen)
  }

  lemma Appended(all: seq<VoteTuple>, seen: seq<VoteTuple>, pooled: seq<VoteTuple>, v: VoteTuple)
    requires Pooled(all, seen, pooled)
    requires v.dedupeKey.Some? ==> !Contradicts(all, v.dedupeKey.value) && !HasVoice(pooled, v.dedupeKey.value)
    ensures Pooled(all, seen + [v], pooled + [v])
  {
    if v.dedupeKey.Some? {
      assert forall u :: u in seen ==> u.dedupeKey != v.dedupeKey;
    }
    assert forall u :: u in pooled + [v] <==> u in pooled || u == v;
    assert forall key :: HasVoice(pooled, key) ==> HasVoice(pooled + [v], key);
    assert v in pooled + [v];
    assert (pooled + [v])[..|pooled|] == pooled && (seen + [v])[..|seen|] == seen;
    if v.dedupeKey.Some? {
      forall i | 0 <= i < |pooled| ensures pooled[i].dedupeKey != v.dedupeKey { assert pooled[i] in pooled; }
    }
  }

  lemma Skipped(all: seq<VoteTuple>, seen: seq<VoteTuple>, pooled: seq<VoteTuple>, v: VoteTuple)
    requires Pooled(all, seen, pooled) && v.dedupeKey.Some?
    requires Contradicts(all, v.dedupeKey.value) || exists u :: u in pooled && u.dedupeKey == v.dedupeKey && u.weight >= v.weight
    ensures Pooled(all, seen + [v], pooled)
  {
    forall u | u in pooled ensures Heard(all, seen + [v], u) {
      assert Heard(all, seen, u);
      if u.dedupeKey == v.dedupeKey {
        SameVoice(all, seen, pooled, u, v);
      }
    }
    assert (seen + [v])[..|seen|] == seen && Keyless(seen) + [] == Keyless(seen);
  }

  lemma SameVoice(all: seq<VoteTuple>, seen: seq<VoteTuple>, pooled: seq<VoteTuple>, u: VoteTuple, v: VoteTuple)
    requires Pooled(all, seen, pooled) && v.dedupeKey.Some?
    requires Contradicts(all, v.dedupeKey.value) || exists w :: w in pooled && w.dedupeKey == v.dedupeKey && w.weight >= v.weight
    requires u in pooled && u.dedupeKey == v.dedupeKey
    ensures u.weight >= v.weight
  {
    assert Heard(all, seen, u);
    var w :| w in pooled && w.dedupeKey == v.dedupeKey && w.weight >= v.weight;
    assert Heard(all, seen, w);
  }

  lemma VoicesReplaced(all: seq<VoteTuple>, seen: seq<VoteTuple>, pooled: seq<VoteTuple>, i: nat, v: VoteTuple)
    requires AllHeard(all, seen, pooled) && i < |pooled| && v.dedupeKey.Some? && pooled[i].dedupeKey == v.dedupeKey
    ensures AllHeard(all, seen + [v], pooled[i := v])
  {
    var after := pooled[i := v];
    forall u | u in seen + [v] && u.dedupeKey.Some? && !Contradicts(all, u.dedupeKey.value) ensures HasVoice(after, u.dedupeKey.value) {
      if u.dedupeKey == v.dedupeKey {
        assert after[i] in after;
      } else {
        assert HasVoice(pooled, u.dedupeKey.value);
        var w :| w in pooled && w.dedupeKey == u.dedupeKey;
        var j :| 0 <= j < |pooled| && pooled[j] == w;
        assert after[j] in after;
      }
    }
  }

  lemma Replaced(all: seq<VoteTuple>, seen: seq<VoteTuple>, pooled: seq<VoteTuple>, i: nat, v: VoteTuple)
    requires Pooled(all, seen, pooled) && i < |pooled| && v.dedupeKey.Some? && pooled[i].dedupeKey == v.dedupeKey
    requires v.weight > pooled[i].weight && !Contradicts(all, v.dedupeKey.value)
    ensures Pooled(all, seen + [v], pooled[i := v])
  {
    var after := pooled[i := v];
    assert Heard(all, seen, pooled[i]);
    forall u | u in after ensures Heard(all, seen + [v], u) {
      var j :| 0 <= j < |after| && after[j] == u;
      if j != i {
        assert Heard(all, seen, pooled[j]);
        assert pooled[j].dedupeKey.None? || pooled[j].dedupeKey != pooled[i].dedupeKey;
      }
    }
    assert AllHeard(all, seen + [v], after) by { VoicesReplaced(all, seen, pooled, i, v); }
    KeylessReplaced(pooled, i, v);
    assert (seen + [v])[..|seen|] == seen && Keyless(seen) + [] == Keyless(seen);
  }

  lemma OnePooled(all: seq<VoteTuple>, seen: seq<VoteTuple>, pooled: seq<VoteTuple>, v: VoteTuple)
    requires Pooled(all, seen, pooled)
    ensures Pooled(all, seen + [v], PoolOne(all, pooled, v))
  {
    if v.dedupeKey.None? {
      Appended(all, seen, pooled, v);
    } else {
      var key := v.dedupeKey.value;
      assert Contradicts(all, key) <==> Withheld(all, key);
      IndexOfExact(pooled, key);
      var i := IndexOf(pooled, key);
      if Contradicts(all, key) {
        Skipped(all, seen, pooled, v);
      } else if i == |pooled| {
        Appended(all, seen, pooled, v);
      } else if v.weight > pooled[i].weight {
        Replaced(all, seen, pooled, i, v);
      } else {
        Skipped(all, seen, pooled, v);
      }
    }
  }

  /** Whatever one vote keeps, all of them keep. */
  lemma {:induction false} PoolKeeps(all: seq<VoteTuple>, n: nat, keeps: (seq<VoteTuple>, seq<VoteTuple>) -> bool)
    requires n <= |all| && keeps([], [])
    requires forall seen, pooled, v :: keeps(seen, pooled) ==> keeps(seen + [v], PoolOne(all, pooled, v))
    ensures keeps(all[..n], PoolUpTo(all, n))
  {
    if n == 0 {
      assert all[..0] == [];
    } else {
      PoolKeeps(all, n - 1, keeps);
      assert all[..n] == all[..n - 1] + [all[n - 1]];
    }
  }

  /** After pooling an agent that argues for two outcomes is gone, every other agent has one vote, its
      heaviest, and votes without an agent are untouched. */
  lemma PoolExact(all: seq<VoteTuple>)
    ensures Pooled(all, all, Pool(all))
  {
    forall seen, pooled, v | Pooled(all, seen, pooled) ensures Pooled(all, seen + [v], PoolOne(all, pooled, v)) {
      OnePooled(all, seen, pooled, v);
    }
    PoolKeeps(all, |all|, (seen, pooled) => Pooled(all, seen, pooled));
    assert all[..|all|] == all;
  }
}
