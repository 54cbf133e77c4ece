/** How printing votes resolve (vote_consensus.py and printing_consensus.resolve_printing): the votes of
    a card's whole identity group, one voice per agent, behind a gate that asks for a human. */
module PrintingConsensus {
  import opened Wrappers

  datatype Source = User | Admin | Deduction | Ocr | Federated | Implicit
  datatype Vote = Vote(card: int, printing: Option<int>, isNoMatch: bool, anonymousId: string, source: Source,
                       confidence: real, runId: Option<string>)

  /** The settings the resolution reads; `DEFAULTS` are those the repository ships. */
  datatype Policy = Policy(minVotes: real, minShare: real, adminWeight: real, machineWeight: real, federatedWeight: real,
                           implicitWeight: real, machineCap: real)

  const DEFAULTS: Policy := Policy(2.0, 0.6, 5.0, 0.5, 1.0, 0.25, 1.0)

  const DEDUCTIVE_FAMILY: string := "deductive-backfill"
  const ZERO_WEIGHT_RUN_ID: string := "deductive-backfill-v1/20260714-ratified-zero-weight"

  // ----- who is voting -----

  predicate Digit(c: char) { '0' <= c <= '9' }

  function WithoutDigits(s: string): string {
    if s != "" && Digit(s[|s| - 1]) then WithoutDigits(s[..|s| - 1]) else s
  }

  /** calculator_family: `^(.+)-v\d+$`, or None for a human's identifier. */
  function CalculatorFamily(id: string): Option<string> {
    var stem := WithoutDigits(id);
    if |stem| < |id| && |stem| > 2 && stem[|stem| - 2..] == "-v" then Some(stem[..|stem| - 2]) else None
  }

  /** agent_dedupe_key */
  function AgentKey(id: string): string {
    if CalculatorFamily(id).Some? then CalculatorFamily(id).value else id
  }

  predicate IsHumanBacked(s: Source) { s == User || s == Admin }

  function SourceWeight(p: Policy, s: Source): real {
    match s
    case User => 1.0
    case Admin => p.adminWeight
    case Deduction => p.machineWeight
    case Ocr => p.machineWeight
    case Federated => p.federatedWeight
    case Implicit => p.implicitWeight
  }

  /** resolve_vote_weight: one frozen run of the deductive backfill weighs nothing. */
  function VoteWeight(p: Policy, v: Vote): real {
    if v.source == Deduction && CalculatorFamily(v.anonymousId) == Some(DEDUCTIVE_FAMILY) && v.runId == Some(ZERO_WEIGHT_RUN_ID) then 0.0
    else SourceWeight(p, v.source)
  }

  // ----- the votes of a group -----

  function VotesOn(votes: seq<Vote>, card: int): seq<Vote> {
    if votes == [] then []
    else VotesOn(votes[..|votes| - 1], card) + if votes[|votes| - 1].card == card then [votes[|votes| - 1]] else []
  }

  /** group_printing_votes: the votes of all members, in the order of the members. */
  function GroupVotes(votes: seq<Vote>, group: seq<int>): seq<Vote> {
    if group == [] then [] else GroupVotes(votes, group[..|group| - 1]) + VotesOn(votes, group[|group| - 1])
  }

  datatype Outcome = NoMatch | Printing(id: int)
  datatype VoteTuple = VoteTuple(outcome: Outcome, weight: real, isHumanBacked: bool, dedupeKey: Option<string>)

  /** One step of build_group_printing_vote_tuples; a vote without a printing is a no-match vote. */
  function AsTuple(p: Policy, v: Vote, pool: bool): VoteTuple {
    VoteTuple(if v.isNoMatch || v.printing.None? then NoMatch else Printing(v.printing.value), VoteWeight(p, v),
              IsHumanBacked(v.source), if pool then Some(AgentKey(v.anonymousId)) else None)
  }

  function AsTuples(p: Policy, votes: seq<Vote>, pool: bool): seq<VoteTuple> {
    if votes == [] then [] else AsTuples(p, votes[..|votes| - 1], pool) + [AsTuple(p, votes[|votes| - 1], pool)]
  }

  // ----- pooling -----

  /** An agent that argues for two outcomes across the group is not heard. */
  predicate Withheld(votes: seq<VoteTuple>, key: string) {
    exists v, u | v in votes && u in votes :: v.dedupeKey == Some(key) && u.dedupeKey == Some(key) && v.outcome != u.outcome
  }

  function IndexOf(votes: seq<VoteTuple>, key: string): (i: nat)
    ensures i <= |votes|
  {
    if votes == [] || votes[0].dedupeKey == Some(key) then 0 else 1 + IndexOf(votes[1..], key)
  }

  function PoolOne(all: seq<VoteTuple>, pooled: seq<VoteTuple>, v: VoteTuple): seq<VoteTuple> {
    if v.dedupeKey.None? then pooled + [v]
    else if Withheld(all, v.dedupeKey.value) then pooled
    else
      var i := IndexOf(pooled, v.dedupeKey.value);
      if i == |pooled| then pooled + [v]
      else if v.weight > pooled[i].weight then pooled[i := v] else pooled
  }

  function PoolUpTo(all: seq<VoteTuple>, n: nat): seq<VoteTuple>
    requires n <= |all|
  {
    if n == 0 then [] else PoolOne(all, PoolUpTo(all, n - 1), all[n - 1])
  }

  /** pool_group_votes */
  function Pool(all: seq<VoteTuple>): seq<VoteTuple> { PoolUpTo(all, |all|) }

  // ----- the weighted resolution -----

  function HumanWeight(votes: seq<VoteTuple>, o: Outcome): real {
    if votes == [] then 0.0
    else
      var v := votes[|votes| - 1];
      HumanWeight(votes[..|votes| - 1], o) + if v.outcome == o && v.isHumanBacked then v.weight else 0.0
  }

  function MachineWeight(votes: seq<VoteTuple>, o: Outcome): real {
    if votes == [] then 0.0
    else
      var v := votes[|votes| - 1];
      MachineWeight(votes[..|votes| - 1], o) + if v.outcome == o && !v.isHumanBacked then v.weight else 0.0
  }

  predicate HasHuman(votes: seq<VoteTuple>, o: Outcome) { exists v | v in votes :: v.outcome == o && v.isHumanBacked }

  /** The outcomes voted for, in order of appearance. */
  function Outcomes(votes: seq<VoteTuple>): seq<Outcome> {
    if votes == [] then []
    else
      var front, o := Outcomes(votes[..|votes| - 1]), votes[|votes| - 1].outcome;
      if o in front then front else front + [o]
  }

  function CountHuman(votes: seq<VoteTuple>, os: seq<Outcome>): nat {
    if os == [] then 0 else CountHuman(votes, os[..|os| - 1]) + if HasHuman(votes, os[|os| - 1]) then 1 else 0
  }

  /** With two human sides, or one that has a quorum of its own, machines do not count. */
  predicate OnlyHumans(p: Policy, votes: seq<VoteTuple>) {
    CountHuman(votes, Outcomes(votes)) >= 2 || exists o | o in Outcomes(votes) :: HumanWeight(votes, o) >= p.minVotes
  }

  function Decision(p: Policy, votes: seq<VoteTuple>, o: Outcome, onlyHumans: bool): real {
    HumanWeight(votes, o) +
    if onlyHumans then 0.0 else if MachineWeight(votes, o) < p.machineCap then MachineWeight(votes, o) else p.machineCap
  }

  function Total(p: Policy, votes: seq<VoteTuple>, os: seq<Outcome>, onlyHumans: bool): real {
    if os == [] then 0.0 else Total(p, votes, os[..|os| - 1], onlyHumans) + Decision(p, votes, os[|os| - 1], onlyHumans)
  }

  /** `max(groups.items(), key=...)`: the first of the greatest. */
  function Winner(p: Policy, votes: seq<VoteTuple>, os: seq<Outcome>, onlyHumans: bool): Outcome
    requires os != []
  {
    var last := os[|os| - 1];
    if |os| == 1 then last
    else
      var before := Winner(p, votes, os[..|os| - 1], onlyHumans);
      if Decision(p, votes, last, onlyHumans) > Decision(p, votes, before, onlyHumans) then last else before
  }

  /** resolve_weighted_consensus, without the moderation co-sign that printings never ask for. */
  function Resolve(p: Policy, votes: seq<VoteTuple>): Option<Outcome> {
    var os, onlyHumans := Outcomes(votes), OnlyHumans(p, votes);
    if os == [] then None
    else
      var winner, total := Winner(p, votes, os, onlyHumans), Total(p, votes, os, onlyHumans);
      var weight := Decision(p, votes, winner, onlyHumans);
      var share := if total != 0.0 then weight / total else 0.0;
      if weight >= p.minVotes && share >= p.minShare && HasHuman(votes, winner) then Some(winner) else None
  }

  /** resolve_printing on the votes of a group, `pool` when the group has more than one member. */
  function ResolvePrinting(p: Policy, votes: seq<Vote>, pool: bool): Option<Outcome> {
    var tuples := AsTuples(p, votes, pool);
    Resolve(p, if pool then Pool(tuples) else tuples)
  }

  // ----- the gate -----

  /** Whether the votes of a group resolve; the flag says that the group has several members. */
  type Resolver = (seq<Vote>, bool) -> bool

  function PrintingResolver(p: Policy): Resolver { (votes, pool) => ResolvePrinting(p, votes, pool).Some? }

  predicate HumanBacked(votes: seq<Vote>) { exists v | v in votes :: IsHumanBacked(v.source) }

  /** Machine votes alone never resolve anything. */
  ghost predicate NeedsHuman(resolve: Resolver) { forall votes, pool :: resolve(votes, pool) ==> HumanBacked(votes) }

  lemma {:induction false} TuplesHuman(p: Policy, votes: seq<Vote>, pool: bool)
    ensures (exists t :: t in AsTuples(p, votes, pool) && t.isHumanBacked) ==> HumanBacked(votes)
  {
    if votes != [] {
      var front, last := votes[..|votes| - 1], votes[|votes| - 1];
      TuplesHuman(p, front, pool);
      assert votes == front + [last];
    }
  }

  lemma {:induction false} PooledAreVotes(all: seq<VoteTuple>, n: nat)
    requires n <= |all|
    ensures forall v :: v in PoolUpTo(all, n) ==> v in all
  {
    if n > 0 {
      PooledAreVotes(all, n - 1);
    }
  }

  /** Whatever the settings, the group's size and the weights: nothing resolves without a human vote
      somewhere in the group. */
  lemma ResolutionNeedsHuman(p: Policy)
    ensures NeedsHuman(PrintingResolver(p))
  {
    forall votes, pool | PrintingResolver(p)(votes, pool) ensures HumanBacked(votes) {
      var tuples := AsTuples(p, votes, pool);
      PooledAreVotes(tuples, |tuples|);
      TuplesHuman(p, votes, pool);
    }
  }
}
