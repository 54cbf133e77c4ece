/** Evidence transfer between md5-identical cards (evidence_transfer.py) as a state machine, together
    with the only other writer of evidence rows, a real extraction. */
module EvidenceTransfer {
  // An extraction is a fetch that reads the card and its stored row, and later a persist of what was
  // found (image_evidence.py, run_image_evidence_cohort.py).

  import opened Wrappers
  import opened Currency

  type CardId = int
  type Hash = int

  datatype Card = Card(md5: Option<string>, sha256: Option<string>, contentPhash: Option<Hash>)

  /** An ImageEvidence row. A field that still has its column default is absent from `fields`. */
  datatype Row = Row(card: CardId, contentHash: Hash, fields: map<string, string>, versions: map<string, string>,
                     runId: Option<string>, md5: Option<string>, sha256: Option<string>,
                     transferred: bool, transferredFrom: Option<CardId>)

  /** A CardScanLog row. */
  datatype Skip = Skip(card: CardId, anonymousId: string, reason: string, runId: Option<string>)

  const TRANSFER_ID: string := "evidence-transfer-v1"
  const SHA256_MISMATCH: string := "transfer-sha256-mismatch"
  const CONTENT_HASH_MISMATCH: string := "transfer-content-hash-mismatch"

  /** `rows` is in `updated_at` order, the most recently saved row last. */
  datatype Db = Db(cards: map<CardId, Card>, rows: seq<Row>, scanLog: seq<Skip>)

  const MANIFEST_EXTRACTOR_KEYS: set<string> := {
    "fetch_health", "geometry_bleed", "layout_class", "crop_coordinates", "art_edge", "collector_line_ocr", "artist_ocr",
    "collector_line_tsv", "artbox_phash", "symbol_region", "legal_line", "quality_signals", "pinline_inset", "frame_family"
  }

  // ----- the table -----

  predicate SameKey(r: Row, card: CardId, hash: Hash) { r.card == card && r.contentHash == hash }

  function Without(rows: seq<Row>, card: CardId, hash: Hash): seq<Row> {
    if rows == [] then []
    else (if SameKey(rows[0], card, hash) then [] else [rows[0]]) + Without(rows[1..], card, hash)
  }

  /** `row.save()` */
  function Save(rows: seq<Row>, row: Row): seq<Row> {
    Without(rows, row.card, row.contentHash) + [row]
  }

  /** `get_or_create(card_id=card, content_hash=hash)` */
  function GetOrCreate(rows: seq<Row>, card: CardId, hash: Hash): Row {
    if rows == [] then Row(card, hash, map[], map[], None, None, None, false, None)
    else if SameKey(rows[0], card, hash) then rows[0]
    else GetOrCreate(rows[1..], card, hash)
  }

  // ----- looking for a source -----

  datatype Lookup = NoSource | Source(row: Row) | Refused(reason: string)

  /** The filters of _current_sibling_evidence_queryset; a NULL stamp never equals a checksum. */
  predicate Eligible(cards: map<CardId, Card>, target: CardId, md5: string, r: Row) {
    && r.card in cards && r.card != target
    && cards[r.card].md5 == Some(md5)
    && cards[r.card].contentPhash == Some(r.contentHash)
    && r.md5 == Some(md5)
    && MANIFEST_EXTRACTOR_KEYS <= r.versions.Keys
  }

  function NewestSibling(cards: map<CardId, Card>, rows: seq<Row>, target: CardId, md5: string): (sibling: Option<Row>)
    ensures sibling.Some? ==> Eligible(cards, target, md5, sibling.value)
  {
    if rows == [] then None
    else if Eligible(cards, target, md5, rows[|rows| - 1]) then Some(rows[|rows| - 1])
    else NewestSibling(cards, rows[..|rows| - 1], target, md5)
  }

  predicate ShaDisagree(a: Option<string>, b: Option<string>) { a.Some? && b.Some? && a.value != b.value }

  function FindSource(db: Db, enabled: bool, target: CardId): (found: Lookup)
    requires target in db.cards
    ensures found.Source? ==> db.cards[target].contentPhash.Some?
  {
    var card := db.cards[target];
    if !enabled || card.md5.None? || card.contentPhash.None? then NoSource
    else
      var sibling := NewestSibling(db.cards, db.rows, target, card.md5.value);
      if sibling.None? then NoSource
      else if ShaDisagree(card.sha256, db.cards[sibling.value.card].sha256) then Refused(SHA256_MISMATCH)
      else if sibling.value.contentHash != card.contentPhash.value then Refused(CONTENT_HASH_MISMATCH)
      else Source(sibling.value)
  }

  // ----- the two writes -----

  function TransferredRow(db: Db, target: CardId, source: Row, runId: Option<string>): Row
    requires target in db.cards && db.cards[target].contentPhash.Some?
  {
    var card := db.cards[target];
    Row(target, card.contentPhash.value, source.fields, source.versions, runId, card.md5, card.sha256, true, Some(source.card))
  }

  // ----- an extraction, from fetch to persist -----

  /** Which fields an extractor owns, and the version each extractor is at now. */
  datatype Manifest = Manifest(owned: map<string, set<string>>, current: map<string, string>)

  /** What one fetch reads: the card's own metadata, and from its current row the values of every
      extractor that needs no new run. `keep` names those fields, `carried` has the stored values and
      `readUnder` is the checksum stamp they were read under. */
  datatype Job = Job(card: CardId, contentHash: Option<Hash>, md5: Option<string>, sha256: Option<string>,
                     keep: set<string>, carried: map<string, string>, readUnder: Option<string>)

  /** An extractor that has run on this row and is not behind the manifest. */
  predicate UpToDate(m: Manifest, row: Row, key: string) {
    key in row.versions && (key in m.current ==> row.versions[key] == m.current[key])
  }

  function KeptFields(m: Manifest, row: Row): set<string> {
    set key, f | key in m.owned && UpToDate(m, row, key) && f in m.owned[key] :: f
  }

  /** current_evidence_queryset(card).first() */
  function CurrentRow(db: Db, c: CardId): (row: Option<Row>)
    requires c in db.cards
    ensures row.Some? ==> db.cards[c].contentPhash.Some? && row.value in db.rows && SameKey(row.value, c, db.cards[c].contentPhash.value)
  {
    var card := db.cards[c];
    if card.contentPhash.None? then None
    else
      GetOrCreateFound(db.rows, c, card.contentPhash.value);
      var row := GetOrCreate(db.rows, c, card.contentPhash.value);
      if row in db.rows && Md5Current(row.md5, card.md5) then Some(row) else None
  }

  function Restrict(fields: map<string, string>, names: set<string>): map<string, string> {
    map f | f in fields && f in names :: fields[f]
  }

  function StartJob(db: Db, c: CardId, m: Manifest): Job
    requires c in db.cards
  {
    var card, row := db.cards[c], CurrentRow(db, c);
    if row.None? then Job(c, card.contentPhash, card.md5, card.sha256, {}, map[], None)
    else
      var keep := KeptFields(m, row.value);
      Job(c, card.contentPhash, card.md5, card.sha256, keep, Restrict(row.value.fields, keep), row.value.md5)
  }

  /** What a pass found, one version tag for every extractor it ran or carried, and its named skips. */
  datatype Findings = Findings(found: map<string, string>, versions: map<string, string>, skips: seq<(string, string)>)

  /** The row a persist saves: its result carries the stored values it kept, then what it found, under
      the checksums read at fetch time; everything else in the row stays. */
  function MergedRow(rows: seq<Row>, job: Job, f: Findings, runId: Option<string>): Row
    requires job.contentHash.Some?
  {
    var row := GetOrCreate(rows, job.card, job.contentHash.value);
    Row(job.card, job.contentHash.value, (row.fields - job.keep) + job.carried + f.found, row.versions + f.versions, runId,
        job.md5, job.sha256, false, None)
  }

  function SkipRows(card: CardId, skips: seq<(string, string)>, runId: Option<string>): seq<Skip> {
    if skips == [] then []
    else SkipRows(card, skips[..|skips| - 1], runId) + [Skip(card, skips[|skips| - 1].0, skips[|skips| - 1].1, runId)]
  }

  // ----- the store, updated in place -----

  class EvidenceStore {
    var cards: map<CardId, Card>
    var rows: seq<Row>
    var scanLog: seq<Skip>

    ghost function Contents(): Db
      reads this
    {
      Db(cards, rows, scanLog)
    }

    method FindTransferSource(target: CardId, enabled: bool, runId: Option<string>) returns (source: Option<Row>)
      requires target in cards
      modifies this`scanLog
      ensures source == match FindSource(old(Contents()), enabled, target) case Source(row) => Some(row) case _ => None
      ensures scanLog == old(scanLog) + match FindSource(old(Contents()), enabled, target)
                                        case Refused(reason) => [Skip(target, TRANSFER_ID, reason, runId)] case _ => []
    {
      var card := cards[target];
      assert scanLog + [] == scanLog;
      if !enabled || card.md5.None? || card.contentPhash.None? {
        return None;
      }
      NewestSiblingExact(cards, rows, target, card.md5.value);
      var sibling := NewestSibling(cards, rows, target, card.md5.value);
      if sibling.None? {
        return None;
      }
      if ShaDisagree(card.sha256, cards[sibling.value.card].sha256) {
        scanLog := scanLog + [Skip(target, TRANSFER_ID, SHA256_MISMATCH, runId)];
        return None;
      }
      if sibling.value.contentHash != card.contentPhash.value {
        scanLog := scanLog + [Skip(target, TRANSFER_ID, CONTENT_HASH_MISMATCH, runId)];
        return None;
      }
      return sibling;
    }

    /** Copies field by field. `names` are the transferable columns, the only ones rows hold. */
    method TransferEvidence(target: CardId, source: Row, runId: Option<string>, names: seq<string>)
      requires target in cards && cards[target].contentPhash.Some?
      requires forall r :: r in rows || r == source ==> r.fields.Keys <= set n | n in names
      modifies this`rows
      ensures rows == Save(old(rows), TransferredRow(old(Contents()), target, source, runId))
    {
      var card := cards[target];
      var evidence := GetOrCreate(rows, target, card.contentPhash.value);
      GetOrCreateFound(rows, target, card.contentPhash.value);
      var fields := evidence.fields;
      for i := 0 to |names|
        invariant fields.Keys <= set n | n in names
        invariant forall n :: n in names[..i] ==> (n in fields <==> n in source.fields)
        invariant forall n :: n in names[..i] && n in fields ==> fields[n] == source.fields[n]
      {
        var name := names[i];
        fields := if name in source.fields then fields[name := source.fields[name]] else fields - {name};
      }
      assert names[..|names|] == names;
      assert fields == source.fields;
      evidence := evidence.(fields := fields);
      evidence := evidence.(versions := source.versions);
      evidence := evidence.(runId := runId);
      evidence := evidence.(md5 := card.md5);
      evidence := evidence.(sha256 := card.sha256);
      evidence := evidence.(transferred := true);
      evidence := evidence.(transferredFrom := Some(source.card));
      rows := Save(rows, evidence);
    }

    method PersistEvidence(job: Job, f: Findings, runId: Option<string>)
      modifies this`rows, this`scanLog
      ensures job.contentHash.None? ==> rows == old(rows) && scanLog == old(scanLog)
      ensures job.contentHash.Some? ==>
                rows == Save(old(rows), MergedRow(old(rows), job, f, runId)) && scanLog == old(scanLog) + SkipRows(job.card, f.skips, runId)
    {
      if job.contentHash.None? {
        return;
      }
      var evidence := GetOrCreate(rows, job.card, job.contentHash.value);
      GetOrCreateFound(rows, job.card, job.contentHash.value);
      evidence := evidence.(fields := (evidence.fields - job.keep) + job.carried + f.found, md5 := job.md5, sha256 := job.sha256);
      evidence := evidence.(versions := evidence.versions + f.versions);
      evidence := evidence.(runId := runId, transferred := false, transferredFrom := None);
      rows := Save(rows, evidence);
      var batch: seq<Skip> := [];
      for i := 0 to |f.skips|
        invariant batch == SkipRows(job.card, f.skips[..i], runId)
      {
        assert f.skips[..i + 1][..i] == f.skips[..i];
        batch := batch + [Skip(job.card, f.skips[i].0, f.skips[i].1, runId)];
      }
      assert f.skips[..|f.skips|] == f.skips;
      scanLog := scanLog + batch;
    }
  }

  /** What both callers do before paying for a fetch: one transfer attempt, exactly the state machine's
      step. True means the fetch can be skipped, in a dry run without anything having been copied. */
  method AttemptTransfer(store: EvidenceStore, target: CardId, enabled: bool, dryRun: bool, runId: Option<string>, names: seq<string>,
                         ghost jobs: seq<Job>, ghost log: seq<Extraction>) returns (done: bool)
    requires target in store.cards
    requires forall r :: r in store.rows ==> r.fields.Keys <= set n | n in names
    modifies store`rows, store`scanLog
    ensures World(store.Contents(), jobs, log)
            == Apply(World(old(store.Contents()), jobs, log), TryTransfer(target, enabled, dryRun, runId))
    ensures done <==> FindSource(old(store.Contents()), enabled, target).Source?
    ensures !done || dryRun ==> store.rows == old(store.rows)
  {
    var source := store.FindTransferSource(target, enabled, runId);
    LookupExact(old(store.Contents()), enabled, target);
    assert old(store.scanLog) + [] == old(store.scanLog);
    if source.Some? && !dryRun {
      store.TransferEvidence(target, source.value, runId, names);
    }
    return source.Some?;
  }

  // ----- what a lookup promises -----

  ghost predicate IsNewest(cards: map<CardId, Card>, rows: seq<Row>, target: CardId, md5: string, i: int) {
    0 <= i < |rows| && Eligible(cards, target, md5, rows[i]) && forall j :: i < j < |rows| ==> !Eligible(cards, target, md5, rows[j])
  }

  lemma {:induction false} NewestSiblingExact(cards: map<CardId, Card>, rows: seq<Row>, target: CardId, md5: string)
    ensures NewestSibling(cards, rows, target, md5).None? <==> forall r :: r in rows ==> !Eligible(cards, target, md5, r)
    ensures NewestSibling(cards, rows, target, md5).Some? ==>
              exists i :: IsNewest(cards, rows, target, md5, i) && NewestSibling(cards, rows, target, md5) == Some(rows[i])
  {
    if rows != [] {
      var front, last := rows[..|rows| - 1], |rows| - 1;
      NewestSiblingExact(cards, front, target, md5);
      assert rows == front + [rows[last]];
      if Eligible(cards, target, md5, rows[last]) {
        assert IsNewest(cards, rows, target, md5, last);
      } else if NewestSibling(cards, front, target, md5).Some? {
        var i :| IsNewest(cards, front, target, md5, i) && NewestSibling(cards, front, target, md5) == Some(front[i]);
        assert IsNewest(cards, rows, target, md5, i);
      }
    }
  }

  /** A source is a current, full-manifest row of another card with the same non-NULL checksum on the
      card and on the stamp, the target's own perceptual hash and no contradicting sha256; an attempt
      is refused exactly when the most recently updated sibling breaks one of the last two, even if an
      older sibling would do. */
  lemma LookupExact(db: Db, enabled: bool, target: CardId)
    requires target in db.cards
    ensures var card := db.cards[target];
            match FindSource(db, enabled, target)
            case Source(r) =>
              && enabled && r in db.rows && card.md5.Some? && Eligible(db.cards, target, card.md5.value, r)
              && card.contentPhash == Some(r.contentHash) == db.cards[r.card].contentPhash
              && !ShaDisagree(card.sha256, db.cards[r.card].sha256)
            case Refused(reason) =>
              enabled && card.md5.Some? && card.contentPhash.Some? &&
              exists i :: IsNewest(db.cards, db.rows, target, card.md5.value, i)
                && if ShaDisagree(card.sha256, db.cards[db.rows[i].card].sha256) then reason == SHA256_MISMATCH
                   else reason == CONTENT_HASH_MISMATCH && card.contentPhash != Some(db.rows[i].contentHash)
            case NoSource =>
              !enabled || card.md5.None? || card.contentPhash.None?
              || forall r :: r in db.rows ==> !Eligible(db.cards, target, card.md5.value, r)
  {
    if db.cards[target].md5.Some? {
      NewestSiblingExact(db.cards, db.rows, target, db.cards[target].md5.value);
    }
  }

  // ----- runs -----

  /** Between the fetch of an extraction and its persist anything may happen to the tables. */
  datatype Step =
    | Relist(card: CardId, metadata: Card)
    | Fetch(card: CardId, manifest: Manifest)
    | Persist(job: nat, findings: Findings, runId: Option<string>)
    | TryTransfer(card: CardId, enabled: bool, dryRun: bool, runId: Option<string>)

  /** One real extraction: what it found, and under which checksums and hash. What it carried forward
      is not found. */
  datatype Extraction = Extraction(card: CardId, contentHash: Hash, md5: Option<string>, sha256: Option<string>, fields: map<string, string>)

  /** The tables, the extractions under way, and the log of those that finished. */
  datatype World = World(db: Db, jobs: seq<Job>, log: seq<Extraction>)

  function Start(cards: map<CardId, Card>): World { World(Db(cards, [], []), [], []) }

  function Persisted(w: World, i: nat, f: Findings, runId: Option<string>): World
    requires i < |w.jobs| && w.jobs[i].contentHash.Some?
  {
    var job := w.jobs[i];
    World(w.db.(rows := Save(w.db.rows, MergedRow(w.db.rows, job, f, runId)), scanLog := w.db.scanLog + SkipRows(job.card, f.skips, runId)),
          w.jobs[..i] + w.jobs[i + 1..],
          w.log + [Extraction(job.card, job.contentHash.value, job.md5, job.sha256, f.found)])
  }

  function Apply(w: World, step: Step): World {
    match step
    case Relist(c, metadata) => w.(db := w.db.(cards := w.db.cards[c := metadata]))
    case Fetch(c, m) => if c !in w.db.cards then w else w.(jobs := w.jobs + [StartJob(w.db, c, m)])
    case Persist(i, f, runId) =>
      if i >= |w.jobs| then w
      else if w.jobs[i].contentHash.None? then w.(jobs := w.jobs[..i] + w.jobs[i + 1..])
      else Persisted(w, i, f, runId)
    case TryTransfer(c, enabled, dryRun, runId) =>
      if c !in w.db.cards then w
      else
        match FindSource(w.db, enabled, c)
        case NoSource => w
        case Refused(reason) => w.(db := w.db.(scanLog := w.db.scanLog + [Skip(c, TRANSFER_ID, reason, runId)]))
        case Source(source) =>
          if dryRun then w else w.(db := w.db.(rows := Save(w.db.rows, TransferredRow(w.db, c, source, runId))))
  }

  function Run(w: World, steps: seq<Step>): World
    decreases |steps|
  {
    if steps == [] then w else Run(Apply(w, steps[0]), steps[1..])
  }

  lemma {:induction false} WithoutMembers(rows: seq<Row>, card: CardId, hash: Hash)
    ensures forall r :: r in Without(rows, card, hash) <==> r in rows && !SameKey(r, card, hash)
  {
    if rows != [] {
      WithoutMembers(rows[1..], card, hash);
      assert rows == [rows[0]] + rows[1..];
    }
  }

  lemma {:induction false} GetOrCreateFound(rows: seq<Row>, card: CardId, hash: Hash)
    ensures var r := GetOrCreate(rows, card, hash); SameKey(r, card, hash) && (r in rows || r.fields == map[])
    ensures (exists r :: r in rows && SameKey(r, card, hash)) ==> GetOrCreate(rows, card, hash) in rows
  {
    if rows != [] {
      GetOrCreateFound(rows[1..], card, hash);
      assert rows == [rows[0]] + rows[1..];
    }
  }

  /** Every step keeps all rows but the one it saves. */
  lemma SaveMembers(rows: seq<Row>, row: Row)
    ensures forall r :: r in Save(rows, row) <==> r == row || (r in rows && !SameKey(r, row.card, row.contentHash))
  {
    WithoutMembers(rows, row.card, row.contentHash);
  }

  // ----- what no run ever does -----

  ghost predicate KeysApart(rows: seq<Row>) {
    forall i, j :: 0 <= i < j < |rows| ==> !SameKey(rows[j], rows[i].card, rows[i].contentHash)
  }

  ghost predicate WellStamped(db: Db) {
    && KeysApart(db.rows)
    && (forall r :: r in db.rows && r.transferred ==>
          r.md5.Some? && r.transferredFrom.Some? && r.transferredFrom.value != r.card && MANIFEST_EXTRACTOR_KEYS <= r.versions.Keys)
  }

  lemma JoinKeysApart(a: seq<Row>, b: seq<Row>)
    requires KeysApart(a) && KeysApart(b)
    requires forall r, q :: r in a && q in b ==> !SameKey(q, r.card, r.contentHash)
    ensures KeysApart(a + b)
  {
    forall i, j | 0 <= i < j < |a + b| ensures !SameKey((a + b)[j], (a + b)[i].card, (a + b)[i].contentHash) {
      if i < |a| <= j {
        assert a[i] in a && b[j - |a|] in b;
      }
    }
  }

  lemma {:induction false} WithoutKeepsKeysApart(rows: seq<Row>, card: CardId, hash: Hash)
    requires KeysApart(rows)
    ensures KeysApart(Without(rows, card, hash))
  {
    if rows != [] {
      WithoutKeepsKeysApart(rows[1..], card, hash);
      WithoutMembers(rows[1..], card, hash);
      JoinKeysApart(if SameKey(rows[0], card, hash) then [] else [rows[0]], Without(rows[1..], card, hash));
    }
  }

  lemma SaveKeepsStamps(db: Db, row: Row)
    requires WellStamped(db)
    requires row.transferred ==> row.md5.Some? && row.transferredFrom.Some? && row.transferredFrom.value != row.card
                                 && MANIFEST_EXTRACTOR_KEYS <= row.versions.Keys
    ensures WellStamped(db.(rows := Save(db.rows, row)))
  {
    WithoutKeepsKeysApart(db.rows, row.card, row.contentHash);
    WithoutMembers(db.rows, row.card, row.contentHash);
    JoinKeysApart(Without(db.rows, row.card, row.contentHash), [row]);
  }

  /** In every run: one row per card and hash, a transferred row never has a NULL stamp, a partial
      manifest or itself as its source, and the skip log only grows. */
  lemma {:induction false} RunsKeepStamps(w: World, steps: seq<Step>)
    requires WellStamped(w.db)
    ensures WellStamped(Run(w, steps).db) && w.db.scanLog <= Run(w, steps).db.scanLog
    decreases |steps|
  {
    if steps != [] {
      StepKeepsStamps(w, steps[0]);
      RunsKeepStamps(Apply(w, steps[0]), steps[1..]);
    }
  }

  lemma StepKeepsStamps(w: World, step: Step)
    requires WellStamped(w.db)
    ensures WellStamped(Apply(w, step).db) && w.db.scanLog <= Apply(w, step).db.scanLog
  {
    match step {
      case Relist(_, _) =>
      case Fetch(_, _) =>
      case Persist(i, f, runId) =>
        if i < |w.jobs| && w.jobs[i].contentHash.Some? {
          SaveKeepsStamps(w.db, MergedRow(w.db.rows, w.jobs[i], f, runId));
        }
      case TryTransfer(c, enabled, dryRun, runId) =>
        if c in w.db.cards && FindSource(w.db, enabled, c).Source? {
          LookupExact(w.db, enabled, c);
          SaveKeepsStamps(w.db, TransferredRow(w.db, c, FindSource(w.db, enabled, c).row, runId));
        }
    }
  }
}
