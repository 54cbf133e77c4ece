/** Which values end up in an evidence row: what a fetch carries, what a persist merges, what a transfer copies. */
module EvidenceContents {
  import opened Wrappers
  import opened EvidenceTransfer

  // ----- the current row of a card -----

  /** The row is the card's own under its present hash, and its stamp, if it has one, is the card's. */
  predicate Current(db: Db, c: CardId, r: Row)
    requires c in db.cards
  {
    && r in db.rows && r.card == c && db.cards[c].contentPhash == Some(r.contentHash)
    && (r.md5.Some? && db.cards[c].md5.Some? ==> r.md5 == db.cards[c].md5)
  }

  lemma {:induction false} OnlyRow(rows: seq<Row>, r: Row)
    requires KeysApart(rows) && r in rows
    ensures GetOrCreate(rows, r.card, r.contentHash) == r
  {
    var i :| 0 <= i < |rows| && rows[i] == r;
    if i > 0 {
      assert rows[1..][i - 1] == r;
      OnlyRow(rows[1..], r);
    }
  }

  lemma CurrentRowIff(db: Db, c: CardId, r: Row)
    requires c in db.cards && KeysApart(db.rows)
    ensures CurrentRow(db, c) == Some(r) <==> Current(db, c, r)
  {
    if Current(db, c, r) {
      OnlyRow(db.rows, r);
    }
  }

  /** An extractor owns the field, has run on the row, and no newer version of it is known. */
  predicate NeedsNoRun(m: Manifest, r: Row, field: string) {
    exists key | key in m.owned :: field in m.owned[key] && key in r.versions && (key !in m.current || m.current[key] == r.versions[key])
  }

  lemma KeptIff(m: Manifest, r: Row, field: string)
    ensures field in KeptFields(m, r) <==> NeedsNoRun(m, r, field)
  {
    if NeedsNoRun(m, r, field) {
      var key :| key in m.owned && field in m.owned[key] && key in r.versions && (key !in m.current || m.current[key] == r.versions[key]);
      assert UpToDate(m, r, key);
    }
  }

  /** A fetch reads the card as it is then. It keeps the fields of the current row that need no new run,
      each with the value stored there, and nothing where there is no current row. */
  lemma FetchCarries(db: Db, c: CardId, m: Manifest)
    requires c in db.cards && KeysApart(db.rows)
    ensures var job := StartJob(db, c, m);
            && job.card == c && job.contentHash == db.cards[c].contentPhash
            && job.md5 == db.cards[c].md5 && job.sha256 == db.cards[c].sha256
            && (forall r :: Current(db, c, r) ==>
                  && (forall f :: f in job.keep <==> NeedsNoRun(m, r, f))
                  && (forall f :: f in job.carried <==> f in r.fields && NeedsNoRun(m, r, f))
                  && (forall f :: f in job.carried ==> job.carried[f] == r.fields[f])
                  && job.readUnder == r.md5)
            && ((forall r :: r in db.rows ==> !Current(db, c, r)) ==> job.keep == {} && job.carried == map[])
  {
    forall r | Current(db, c, r)
      ensures CurrentRow(db, c) == Some(r) && forall f :: f in KeptFields(m, r) <==> NeedsNoRun(m, r, f) {
      CurrentRowIff(db, c, r);
      forall f ensures f in KeptFields(m, r) <==> NeedsNoRun(m, r, f) { KeptIff(m, r, f); }
    }
    if CurrentRow(db, c).Some? {
      CurrentRowIff(db, c, CurrentRow(db, c).value);
    }
  }

  // ----- what a persist leaves in the row -----

  /** The value of a field, if it has one. */
  function Value(fields: map<string, string>, field: string): Option<string> {
    if field in fields then Some(fields[field]) else None
  }

  /** A field of the saved row has the value just found, else the one carried, else, unless the fetch had
      decided to carry it, the one the row had; the versions likewise. Checksums are those of the fetch. */
  ghost predicate Merged(job: Job, f: Findings, before: map<string, string>, versions: map<string, string>, r: Row) {
    && job.contentHash == Some(r.contentHash) && r.card == job.card && r.md5 == job.md5 && r.sha256 == job.sha256 && !r.transferred
    && (forall n :: Value(r.fields, n) ==
          if n in f.found then Some(f.found[n])
          else if n in job.carried then Some(job.carried[n])
          else if n in job.keep then None
          else Value(before, n))
    && (forall k :: Value(r.versions, k) == if k in f.versions then Some(f.versions[k]) else Value(versions, k))
  }

  lemma PersistMerges(rows: seq<Row>, job: Job, f: Findings, runId: Option<string>)
    requires KeysApart(rows) && job.contentHash.Some?
    ensures var saved := MergedRow(rows, job, f, runId);
            && saved in Save(rows, saved)
            && (forall was :: was in rows && SameKey(was, job.card, job.contentHash.value) ==> Merged(job, f, was.fields, was.versions, saved))
            && (forall other :: other in rows && !SameKey(other, job.card, job.contentHash.value) ==> other in Save(rows, saved))
  {
    forall was | was in rows && SameKey(was, job.card, job.contentHash.value)
      ensures Merged(job, f, was.fields, was.versions, MergedRow(rows, job, f, runId)) {
      OnlyRow(rows, was);
    }
    SaveMembers(rows, MergedRow(rows, job, f, runId));
  }

  lemma {:induction false} BlankIfNew(rows: seq<Row>, card: CardId, hash: Hash)
    requires forall r :: r in rows ==> !SameKey(r, card, hash)
    ensures GetOrCreate(rows, card, hash).fields == map[] && GetOrCreate(rows, card, hash).versions == map[]
  {
    if rows != [] {
      assert rows[0] in rows;
      BlankIfNew(rows[1..], card, hash);
    }
  }

  lemma PersistCreates(rows: seq<Row>, job: Job, f: Findings, runId: Option<string>)
    requires job.contentHash.Some? && forall r :: r in rows ==> !SameKey(r, job.card, job.contentHash.value)
    ensures Merged(job, f, map[], map[], MergedRow(rows, job, f, runId))
  {
    BlankIfNew(rows, job.card, job.contentHash.value);
  }

  // ----- what a transfer copies -----

  /** The copy has all of the source's evidence and is the target's in everything else. */
  predicate CopyOf(db: Db, target: CardId, source: Row, runId: Option<string>, r: Row)
    requires target in db.cards
  {
    var card := db.cards[target];
    && r.card == target && card.contentPhash == Some(r.contentHash) && r.md5 == card.md5 && r.sha256 == card.sha256
    && r.fields == source.fields && r.versions == source.versions
    && r.transferred && r.transferredFrom == Some(source.card) && r.runId == runId
  }

  /** A transfer leaves the target with a copy of its source, in place of what it had under this hash, and
      every other row as it was; any other attempt changes no row. */
  lemma TransferCopies(w: World, target: CardId, enabled: bool, dryRun: bool, runId: Option<string>)
    requires target in w.db.cards
    ensures var found := FindSource(w.db, enabled, target);
            var rows := Apply(w, TryTransfer(target, enabled, dryRun, runId)).db.rows;
            if found.Source? && !dryRun then
              forall r :: r in rows <==> (CopyOf(w.db, target, found.row, runId, r)
                                          || (r in w.db.rows && !SameKey(r, target, w.db.cards[target].contentPhash.value)))
            else rows == w.db.rows
  {
    var found := FindSource(w.db, enabled, target);
    if found.Source? {
      SaveMembers(w.db.rows, TransferredRow(w.db, target, found.row, runId));
    }
  }
}
