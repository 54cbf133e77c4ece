/** What the sha256 pairing check of evidence_transfer.find_transfer_source keeps apart, over whole runs
    on a catalogue whose metadata does not change. */
module EvidenceCollisions {
  import opened Wrappers
  import opened EvidenceTransfer
  import opened EvidenceProvenance

  // ----- the condition, read off the catalogue -----

  /** The cards between which evidence can travel. */
  predicate SameImage(cards: map<CardId, Card>, a: CardId, b: CardId) {
    && a in cards && b in cards && cards[a].md5.Some? && cards[a].md5 == cards[b].md5
    && cards[a].contentPhash.Some? && cards[a].contentPhash == cards[b].contentPhash
  }

  ghost predicate AllHaveSha(cards: map<CardId, Card>, c: CardId) {
    forall x :: SameImage(cards, x, c) ==> cards[x].sha256.Some?
  }

  /** Among the cards of one image, two whose sha256 disagree and one without any. */
  ghost predicate Bridged(cards: map<CardId, Card>) {
    exists a, b, c :: SameImage(cards, a, b) && SameImage(cards, b, c) && cards[b].sha256.None? && ShaDisagree(cards[a].sha256, cards[c].sha256)
  }

  // ----- what runs keep while it does not hold -----

  /** Evidence on card `b` that was extracted for card `a`. */
  ghost predicate Kin(cards: map<CardId, Card>, a: CardId, b: CardId) {
    a in cards && b in cards && (a == b || (SameImage(cards, a, b) && (AllHaveSha(cards, b) ==> cards[a].sha256 == cards[b].sha256)))
  }

  predicate Stamped(cards: map<CardId, Card>, c: CardId, hash: Hash, md5: Option<string>, sha256: Option<string>) {
    c in cards && cards[c].contentPhash == Some(hash) && md5 == cards[c].md5 && sha256 == cards[c].sha256
  }

  ghost predicate RowRooted(cards: map<CardId, Card>, log: seq<Extraction>, r: Row) {
    && Stamped(cards, r.card, r.contentHash, r.md5, r.sha256)
    && forall f :: f in r.fields ==> exists e :: e in log && Explains(e, r, f) && Kin(cards, e.card, r.card)
  }

  ghost predicate JobRooted(cards: map<CardId, Card>, log: seq<Extraction>, j: Job) {
    && j.card in cards && j.contentHash == cards[j.card].contentPhash && j.md5 == cards[j.card].md5 && j.sha256 == cards[j.card].sha256
    && (j.carried.Keys != {} ==> j.readUnder == j.md5)
    && forall f :: f in j.carried ==> exists e :: e in log && Supports(e, j, f) && Kin(cards, e.card, j.card)
  }

  ghost predicate Rooted(cards: map<CardId, Card>, w: World) {
    && w.db.cards == cards
    && (forall e :: e in w.log ==> Stamped(cards, e.card, e.contentHash, e.md5, e.sha256))
    && (forall r :: r in w.db.rows ==> RowRooted(cards, w.log, r))
    && (forall j :: j in w.jobs ==> JobRooted(cards, w.log, j))
  }

  lemma LongerLogRooted(cards: map<CardId, Card>, log: seq<Extraction>, e: Extraction)
    ensures forall r :: RowRooted(cards, log, r) ==> RowRooted(cards, log + [e], r)
    ensures forall j :: JobRooted(cards, log, j) ==> JobRooted(cards, log + [e], j)
  {
    forall r | RowRooted(cards, log, r) ensures RowRooted(cards, log + [e], r) {
      forall f | f in r.fields ensures exists x :: x in log + [e] && Explains(x, r, f) && Kin(cards, x.card, r.card) {
        var x :| x in log && Explains(x, r, f) && Kin(cards, x.card, r.card);
        assert x in log + [e];
      }
    }
    forall j | JobRooted(cards, log, j) ensures JobRooted(cards, log + [e], j) {
      forall f | f in j.carried ensures exists x :: x in log + [e] && Supports(x, j, f) && Kin(cards, x.card, j.card) {
        var x :| x in log && Supports(x, j, f) && Kin(cards, x.card, j.card);
        assert x in log + [e];
      }
    }
  }

  lemma MergedRooted(cards: map<CardId, Card>, w: World, i: nat, f: Findings, runId: Option<string>)
    requires Rooted(cards, w) && i < |w.jobs| && w.jobs[i].contentHash.Some?
    ensures RowRooted(cards, Persisted(w, i, f, runId).log, MergedRow(w.db.rows, w.jobs[i], f, runId))
  {
    var job := w.jobs[i];
    var before, row := GetOrCreate(w.db.rows, job.card, job.contentHash.value), MergedRow(w.db.rows, job, f, runId);
    GetOrCreateFound(w.db.rows, job.card, job.contentHash.value);
    assert job in w.jobs && JobRooted(cards, w.log, job);
    var log := Persisted(w, i, f, runId).log;
    var found := log[|w.log|];
    forall n | n in row.fields ensures exists e :: e in log && Explains(e, row, n) && Kin(cards, e.card, row.card) {
      if n in f.found {
        assert found in log && Explains(found, row, n);
      } else if n in job.carried {
        var e :| e in w.log && Supports(e, job, n) && Kin(cards, e.card, job.card);
        assert e in log && Explains(e, row, n);
      } else {
        assert before in w.db.rows && RowRooted(cards, w.log, before);
        var e :| e in w.log && Explains(e, before, n) && Kin(cards, e.card, before.card);
        assert e in log && Explains(e, row, n);
      }
    }
  }

  lemma StartedRooted(cards: map<CardId, Card>, w: World, c: CardId, m: Manifest)
    requires Rooted(cards, w) && c in cards
    ensures JobRooted(cards, w.log, StartJob(w.db, c, m))
  {
    var job := StartJob(w.db, c, m);
    forall f | f in job.carried ensures exists e :: e in w.log && Supports(e, job, f) && Kin(cards, e.card, job.card) {
      var row := CurrentRow(w.db, c).value;
      assert RowRooted(cards, w.log, row);
      var e :| e in w.log && Explains(e, row, f) && Kin(cards, e.card, row.card);
      assert Supports(e, job, f);
    }
  }

  /** Kinship passes through a transfer that the pairing check lets through. */
  lemma KinThrough(cards: map<CardId, Card>, a: CardId, b: CardId, c: CardId)
    requires Kin(cards, a, b) && SameImage(cards, b, c) && !ShaDisagree(cards[c].sha256, cards[b].sha256)
    ensures Kin(cards, a, c)
  {
    if AllHaveSha(cards, c) {
      assert SameImage(cards, c, c) && SameImage(cards, b, c);
      forall x | SameImage(cards, x, b) ensures cards[x].sha256.Some? { assert SameImage(cards, x, c); }
    }
  }

  lemma TransferredRooted(cards: map<CardId, Card>, w: World, c: CardId, enabled: bool, runId: Option<string>)
    requires Rooted(cards, w) && c in cards && FindSource(w.db, enabled, c).Source?
    ensures RowRooted(cards, w.log, TransferredRow(w.db, c, FindSource(w.db, enabled, c).row, runId))
  {
    var source := FindSource(w.db, enabled, c).row;
    LookupExact(w.db, enabled, c);
    var row := TransferredRow(w.db, c, source, runId);
    assert SameImage(cards, source.card, c);
    forall f | f in row.fields ensures exists e :: e in w.log && Explains(e, row, f) && Kin(cards, e.card, row.card) {
      var e :| e in w.log && Explains(e, source, f) && Kin(cards, e.card, source.card);
      KinThrough(cards, e.card, source.card, c);
      assert Explains(e, row, f);
    }
  }

  lemma RootedStep(cards: map<CardId, Card>, w: World, step: Step)
    requires Rooted(cards, w) && !step.Relist?
    ensures Rooted(cards, Apply(w, step))
  {
    match step {
      case Fetch(c, m) => if c in cards { StartedRooted(cards, w, c, m); }
      case Persist(i, f, runId) =>
        if i < |w.jobs| && w.jobs[i].contentHash.Some? {
          assert JobRooted(cards, w.log, w.jobs[i]);
          SaveMembers(w.db.rows, MergedRow(w.db.rows, w.jobs[i], f, runId));
          MergedRooted(cards, w, i, f, runId);
          LongerLogRooted(cards, w.log, Persisted(w, i, f, runId).log[|w.log|]);
        }
      case TryTransfer(c, enabled, dryRun, runId) =>
        if c in cards && FindSource(w.db, enabled, c).Source? {
          SaveMembers(w.db.rows, TransferredRow(w.db, c, FindSource(w.db, enabled, c).row, runId));
          TransferredRooted(cards, w, c, enabled, runId);
        }
    }
  }

  /** No card changes meanwhile. */
  predicate SameMetadata(steps: seq<Step>) { forall s | s in steps :: !s.Relist? }

  lemma {:induction false} RunsStayRooted(cards: map<CardId, Card>, w: World, steps: seq<Step>)
    requires Rooted(cards, w) && SameMetadata(steps)
    ensures Rooted(cards, Run(w, steps))
    decreases |steps|
  {
    if steps != [] {
      RootedStep(cards, w, steps[0]);
      RunsStayRooted(cards, Apply(w, steps[0]), steps[1..]);
    }
  }

  // ----- what runs can do when it holds -----

  function FullVersions(): (v: map<string, string>)
    ensures v.Keys == MANIFEST_EXTRACTOR_KEYS
  {
    map k | k in MANIFEST_EXTRACTOR_KEYS :: ""
  }

  function Extracted(cards: map<CardId, Card>, a: CardId, fields: map<string, string>): World {
    Apply(Apply(Start(cards), Fetch(a, Nothing())), Persist(0, Findings(fields, FullVersions(), []), None))
  }

  lemma ExtractedRow(cards: map<CardId, Card>, a: CardId, fields: map<string, string>)
    requires a in cards && cards[a].contentPhash.Some?
    ensures var w, card := Extracted(cards, a, fields), cards[a];
            && w.db.cards == cards
            && w.db.rows == [Row(a, card.contentPhash.value, fields, FullVersions(), None, card.md5, card.sha256, false, None)]
            && w.log == [Extraction(a, card.contentPhash.value, card.md5, card.sha256, fields)]
  {
    var card := cards[a];
    var w1 := Apply(Start(cards), Fetch(a, Nothing()));
    assert w1.jobs == [Job(a, card.contentPhash, card.md5, card.sha256, {}, map[], None)];
    assert map[] - {} + map[] + fields == fields && map[] + FullVersions() == FullVersions();
  }

  /** A card without a sha256 carries a transfer between two cards whose sha256 disagree, which a
      direct transfer refuses: for any three such cards, whatever was extracted from the first ends up
      on the third. */
  lemma MissingShaBridgesCollision(cards: map<CardId, Card>, a: CardId, b: CardId, c: CardId, fields: map<string, string>)
    requires SameImage(cards, a, b) && SameImage(cards, b, c)
    requires cards[b].sha256.None? && ShaDisagree(cards[a].sha256, cards[c].sha256)
    ensures var start := Extracted(cards, a, fields);
            && FindSource(start.db, true, c) == Refused(SHA256_MISMATCH)
            && var end := Apply(Apply(start, TryTransfer(b, true, false, None)), TryTransfer(c, true, false, None));
               exists r :: r in end.db.rows && r.card == c && r.transferred && r.fields == fields
                           && (forall e :: e in end.log ==> ShaDisagree(e.sha256, r.sha256))
  {
    ExtractedRow(cards, a, fields);
    var md5, h := cards[a].md5, cards[a].contentPhash.value;
    var rowA := Row(a, h, fields, FullVersions(), None, md5, cards[a].sha256, false, None);
    var rowB := Row(b, h, fields, FullVersions(), None, md5, None, true, Some(a));
    var w1 := Extracted(cards, a, fields);
    assert Eligible(cards, c, md5.value, rowA);
    Hop(w1, [], rowA, b);
    var w2 := Apply(w1, TryTransfer(b, true, false, None));
    assert [] + [rowA] == [rowA] && Without([rowA], b, h) == [rowA];
    assert w2.db.rows == [rowA] + [rowB];
    Hop(w2, [rowA], rowB, c);
    var rowC := Row(c, h, fields, FullVersions(), None, md5, cards[c].sha256, true, Some(b));
    SaveMembers(w2.db.rows, rowC);
  }

  /** The newest row, of a card with the same image and no contradicting sha256, is transferred. */
  lemma Hop(w: World, older: seq<Row>, newest: Row, target: CardId)
    requires w.db.rows == older + [newest] && newest.card != target && SameImage(w.db.cards, newest.card, target)
    requires newest.versions == FullVersions() && newest.md5 == w.db.cards[target].md5
    requires Some(newest.contentHash) == w.db.cards[target].contentPhash
    requires !ShaDisagree(w.db.cards[target].sha256, w.db.cards[newest.card].sha256)
    ensures Apply(w, TryTransfer(target, true, false, None))
            == w.(db := w.db.(rows := Save(w.db.rows, TransferredRow(w.db, target, newest, None))))
  {
    assert Eligible(w.db.cards, target, w.db.cards[target].md5.value, newest);
  }

  // ----- exactly when -----

  /** Every stored value still has an extraction behind it whose sha256 does not contradict the row's. */
  ghost predicate ShaCompatible(w: World) {
    forall r, f :: r in w.db.rows && f in r.fields ==> exists e :: e in w.log && Explains(e, r, f) && !ShaDisagree(e.sha256, r.sha256)
  }

  lemma RootedIsCompatible(cards: map<CardId, Card>, w: World)
    requires Rooted(cards, w) && !Bridged(cards)
    ensures ShaCompatible(w)
  {
    forall r, f | r in w.db.rows && f in r.fields ensures exists e :: e in w.log && Explains(e, r, f) && !ShaDisagree(e.sha256, r.sha256) {
      assert RowRooted(cards, w.log, r);
      var e :| e in w.log && Explains(e, r, f) && Kin(cards, e.card, r.card);
      KinAgree(cards, e.card, r.card);
    }
  }

  lemma KinAgree(cards: map<CardId, Card>, a: CardId, b: CardId)
    requires Kin(cards, a, b) && !Bridged(cards)
    ensures !ShaDisagree(cards[a].sha256, cards[b].sha256)
  {
    if a != b && !AllHaveSha(cards, b) {
      var x :| SameImage(cards, x, b) && cards[x].sha256.None?;
      assert SameImage(cards, a, x);
    }
  }

  /** Whatever is fetched, persisted and transferred, in whatever order: evidence stays compatible with
      the sha256 of the card it ends up on, on every run over the catalogue, if and only if no image has
      both a card without a sha256 and two cards whose sha256 disagree. */
  lemma ShaKeptIff(cards: map<CardId, Card>)
    ensures (forall steps :: SameMetadata(steps) ==> ShaCompatible(Run(Start(cards), steps))) <==> !Bridged(cards)
  {
    if Bridged(cards) {
      var a, b, c :| SameImage(cards, a, b) && SameImage(cards, b, c) && cards[b].sha256.None? && ShaDisagree(cards[a].sha256, cards[c].sha256);
      var steps := BridgeRun(cards, a, b, c);
      assert !ShaCompatible(Run(Start(cards), steps));
    } else {
      forall steps: seq<Step> | SameMetadata(steps) ensures ShaCompatible(Run(Start(cards), steps)) {
        RunsStayRooted(cards, Start(cards), steps);
        RootedIsCompatible(cards, Run(Start(cards), steps));
      }
    }
  }

  lemma BridgeRun(cards: map<CardId, Card>, a: CardId, b: CardId, c: CardId) returns (steps: seq<Step>)
    requires SameImage(cards, a, b) && SameImage(cards, b, c)
    requires cards[b].sha256.None? && ShaDisagree(cards[a].sha256, cards[c].sha256)
    ensures SameMetadata(steps) && !ShaCompatible(Run(Start(cards), steps))
  {
    var fields := map["legal_line_raw_text" := ""];
    var one, two := Fetch(a, Nothing()), Persist(0, Findings(fields, FullVersions(), []), None);
    var three, four := TryTransfer(b, true, false, None), TryTransfer(c, true, false, None);
    steps := [one, two, three, four];
    assert steps[1..] == [two, three, four];
    RunThree(Apply(Start(cards), one), two, three, four);
    MissingShaBridgesCollision(cards, a, b, c, fields);
    var end := Run(Start(cards), steps);
    var r :| r in end.db.rows && r.fields == fields && forall e :: e in end.log ==> ShaDisagree(e.sha256, r.sha256);
    assert "legal_line_raw_text" in r.fields;
  }
}
