/** Where the evidence in a row comes from, over whole runs of fetches, persists, transfers and changes of
    card metadata. */
module EvidenceProvenance {
  import opened Wrappers
  import opened EvidenceTransfer

  // ----- field by field -----

  /** `e` is where row `r` has its value of `f` from: same pixels, same checksum. */
  predicate Explains(e: Extraction, r: Row, f: string) {
    e.contentHash == r.contentHash && e.md5 == r.md5 && f in r.fields && f in e.fields && e.fields[f] == r.fields[f]
  }

  /** `e` is where job `j` has its carried value of `f` from. */
  predicate Supports(e: Extraction, j: Job, f: string) {
    Some(e.contentHash) == j.contentHash && e.md5 == j.readUnder && f in j.carried && f in e.fields && e.fields[f] == j.carried[f]
  }

  ghost predicate RowExplained(log: seq<Extraction>, r: Row) {
    forall f :: f in r.fields ==> exists e :: e in log && Explains(e, r, f)
  }

  ghost predicate JobSupported(log: seq<Extraction>, j: Job) {
    forall f :: f in j.carried ==> exists e :: e in log && Supports(e, j, f)
  }

  /** Every value, stored or carried, was found by an extraction of these pixels under this checksum. */
  ghost predicate FieldsExplained(w: World) {
    (forall r :: r in w.db.rows ==> RowExplained(w.log, r)) && forall j :: j in w.jobs ==> JobSupported(w.log, j)
  }

  /** The one thing that is asked of extractions: where the stamp changes, between reading the row and
      saving it, no value is kept that was not found anew. */
  predicate RestampsWholeRow(w: World, step: Step) {
    match step
    case Persist(i, f, _) =>
      i < |w.jobs| && w.jobs[i].contentHash.Some? ==>
        var job := w.jobs[i];
        var row := GetOrCreate(w.db.rows, job.card, job.contentHash.value);
        && (row.md5 == job.md5 || row.fields.Keys <= job.keep + f.found.Keys)
        && (job.readUnder == job.md5 || job.carried.Keys <= f.found.Keys)
    case _ => true
  }

  ghost predicate EveryStepRestamps(w: World, steps: seq<Step>)
    decreases |steps|
  {
    steps == [] || (RestampsWholeRow(w, steps[0]) && EveryStepRestamps(Apply(w, steps[0]), steps[1..]))
  }

  lemma LongerLog(log: seq<Extraction>, e: Extraction)
    ensures forall r :: RowExplained(log, r) ==> RowExplained(log + [e], r)
    ensures forall j :: JobSupported(log, j) ==> JobSupported(log + [e], j)
  {
    forall r | RowExplained(log, r) ensures RowExplained(log + [e], r) {
      forall f | f in r.fields ensures exists x :: x in log + [e] && Explains(x, r, f) {
        var x :| x in log && Explains(x, r, f);
        assert x in log + [e];
      }
    }
    forall j | JobSupported(log, j) ensures JobSupported(log + [e], j) {
      forall f | f in j.carried ensures exists x :: x in log + [e] && Supports(x, j, f) {
        var x :| x in log && Supports(x, j, f);
        assert x in log + [e];
      }
    }
  }

  /** The saved row of a persist. */
  lemma MergedExplained(w: World, i: nat, f: Findings, runId: Option<string>)
    requires FieldsExplained(w) && i < |w.jobs| && w.jobs[i].contentHash.Some? && RestampsWholeRow(w, Persist(i, f, runId))
    ensures RowExplained(Persisted(w, i, f, runId).log, MergedRow(w.db.rows, w.jobs[i], f, runId))
  {
    var job := w.jobs[i];
    var before, row := GetOrCreate(w.db.rows, job.card, job.contentHash.value), MergedRow(w.db.rows, job, f, runId);
    GetOrCreateFound(w.db.rows, job.card, job.contentHash.value);
    var log := Persisted(w, i, f, runId).log;
    var found := log[|w.log|];
    forall n | n in row.fields ensures exists e :: e in log && Explains(e, row, n) {
      if n in f.found {
        assert found in log && Explains(found, row, n);
      } else if n in job.carried {
        assert job in w.jobs && JobSupported(w.log, job) && !(job.carried.Keys <= f.found.Keys);
        var e :| e in w.log && Supports(e, job, n);
        assert e in log && Explains(e, row, n);
      } else {
        assert n in before.fields && !(before.fields.Keys <= job.keep + f.found.Keys);
        var e :| e in w.log && Explains(e, before, n);
        assert e in log && Explains(e, row, n);
      }
    }
  }

  lemma StartedSupported(w: World, c: CardId, m: Manifest)
    requires FieldsExplained(w) && c in w.db.cards
    ensures JobSupported(w.log, StartJob(w.db, c, m))
  {
    var job := StartJob(w.db, c, m);
    forall f | f in job.carried ensures exists e :: e in w.log && Supports(e, job, f) {
      var row := CurrentRow(w.db, c).value;
      var e :| e in w.log && Explains(e, row, f);
      assert Supports(e, job, f);
    }
  }

  lemma TransferredExplained(w: World, c: CardId, enabled: bool, runId: Option<string>)
    requires FieldsExplained(w) && c in w.db.cards && FindSource(w.db, enabled, c).Source?
    ensures RowExplained(w.log, TransferredRow(w.db, c, FindSource(w.db, enabled, c).row, runId))
  {
    var source := FindSource(w.db, enabled, c).row;
    LookupExact(w.db, enabled, c);
    var row := TransferredRow(w.db, c, source, runId);
    forall f | f in row.fields ensures exists e :: e in w.log && Explains(e, row, f) {
      var e :| e in w.log && Explains(e, source, f);
      assert Explains(e, row, f);
    }
  }

  lemma ExplainedStep(w: World, step: Step)
    requires FieldsExplained(w) && RestampsWholeRow(w, step)
    ensures FieldsExplained(Apply(w, step))
  {
    match step {
      case Relist(_, _) =>
      case Fetch(c, m) => if c in w.db.cards { StartedSupported(w, c, m); }
      case Persist(i, f, runId) =>
        if i < |w.jobs| && w.jobs[i].contentHash.Some? {
          SaveMembers(w.db.rows, MergedRow(w.db.rows, w.jobs[i], f, runId));
          MergedExplained(w, i, f, runId);
          LongerLog(w.log, Persisted(w, i, f, runId).log[|w.log|]);
        }
      case TryTransfer(c, enabled, dryRun, runId) =>
        if c in w.db.cards && FindSource(w.db, enabled, c).Source? {
          SaveMembers(w.db.rows, TransferredRow(w.db, c, FindSource(w.db, enabled, c).row, runId));
          TransferredExplained(w, c, enabled, runId);
        }
    }
  }

  /** Over any run, with checksums and hashes changing between steps, extractions overtaking one another
      and transfer chains of any length: each field of each row was found by an extraction of the row's
      pixels under the row's checksum. */
  lemma {:induction false} FieldProvenance(w: World, steps: seq<Step>)
    requires FieldsExplained(w) && EveryStepRestamps(w, steps)
    ensures FieldsExplained(Run(w, steps))
    decreases |steps|
  {
    if steps != [] {
      ExplainedStep(w, steps[0]);
      FieldProvenance(Apply(w, steps[0]), steps[1..]);
    }
  }

  /** One persist under a checksum these pixels were never extracted under before: it keeps every field
      explained if and only if it keeps no value that was not found anew. */
  lemma NewChecksumExplainedIff(w: World, i: nat, f: Findings, runId: Option<string>)
    requires FieldsExplained(w) && i < |w.jobs| && w.jobs[i].contentHash.Some?
    requires forall e :: e in w.log && Some(e.contentHash) == w.jobs[i].contentHash ==> e.md5 != w.jobs[i].md5
    ensures FieldsExplained(Apply(w, Persist(i, f, runId))) <==> RestampsWholeRow(w, Persist(i, f, runId))
  {
    if RestampsWholeRow(w, Persist(i, f, runId)) {
      ExplainedStep(w, Persist(i, f, runId));
    } else {
      var job := w.jobs[i];
      var before, row := GetOrCreate(w.db.rows, job.card, job.contentHash.value), MergedRow(w.db.rows, job, f, runId);
      var n :| n !in f.found && (n in job.carried || (n in before.fields && n !in job.keep));
      var after := Persisted(w, i, f, runId);
      SaveMembers(w.db.rows, row);
      assert row in after.db.rows && n in row.fields;
      forall e | e in after.log ensures !Explains(e, row, n) {
        assert e in w.log || e == after.log[|w.log|];
      }
    }
  }

  // ----- two ways to break it -----

  function Listed(md5: Option<string>, h: Hash): Card { Card(md5, None, Some(h)) }

  function Nothing(): Manifest { Manifest(map[], map[]) }

  /** A card is listed and one field is extracted. */
  function FirstPass(c: CardId, h: Hash, md5: Option<string>, f: string, value: string, versions: map<string, string>): World {
    Run(Start(map[]), [Relist(c, Listed(md5, h)), Fetch(c, Nothing()), Persist(0, Findings(map[f := value], versions, []), None)])
  }

  lemma FirstPassRow(c: CardId, h: Hash, md5: Option<string>, f: string, value: string, versions: map<string, string>)
    ensures var w := FirstPass(c, h, md5, f, value, versions);
            && w.db.rows == [Row(c, h, map[f := value], versions, None, md5, None, false, None)]
            && w.db.cards == map[c := Listed(md5, h)] && w.jobs == []
            && w.log == [Extraction(c, h, md5, None, map[f := value])]
            && FieldsExplained(w)
  {
    var steps := [Relist(c, Listed(md5, h)), Fetch(c, Nothing()), Persist(0, Findings(map[f := value], versions, []), None)];
    var w0 := Start(map[]);
    var w1 := Apply(w0, steps[0]);
    var w2 := Apply(w1, steps[1]);
    var w3 := Apply(w2, steps[2]);
    assert w1.db.cards == map[c := Listed(md5, h)];
    assert w2.jobs == [Job(c, Some(h), md5, None, {}, map[], None)];
    assert w3.jobs == [] + [] == [];
    assert map[] - {} + map[] + map[f := value] == map[f := value] && map[] + versions == versions;
    assert w3.db.rows == [] + [Row(c, h, map[f := value], versions, None, md5, None, false, None)];
    assert Explains(w3.log[0], w3.db.rows[0], f);
    RunThree(w0, steps[0], steps[1], steps[2]);
  }

  lemma RunThree(w: World, a: Step, b: Step, c: Step)
    ensures Run(w, [a, b, c]) == Apply(Apply(Apply(w, a), b), c)
  {
    assert [a, b, c][1..] == [b, c] && [b, c][1..] == [c] && [c][1..] == [];
    assert Run(Apply(w, a), [b, c]) == Run(Apply(Apply(w, a), b), [c]);
  }

  /** What a second pass over the card leaves when its row keeps a value under a checksum that nothing
      was extracted under. */
  lemma KeptUnderNewStamp(w: World, r: Row, f: string, e1: Extraction, e2: Extraction)
    requires r in w.db.rows && f in r.fields && w.log == [e1, e2] && e1.md5 != r.md5 && f !in e2.fields
    ensures !FieldsExplained(w)
  {
    forall e | e in w.log ensures !Explains(e, r, f) {}
  }

  /** Extracting one field, replacing the file so that only the checksum changes, and extracting another
      field leaves the first under a checksum it was never extracted under. */
  lemma PartialRestampLosesProvenance(c: CardId, h: Hash, f: string, g: string, value: string, before: string, after: string)
    requires f != g && before != after
    ensures var w := FirstPass(c, h, Some(before), f, value, map[]);
            && FieldsExplained(w)
            && !FieldsExplained(Run(w, [Relist(c, Listed(Some(after), h)), Fetch(c, Nothing()),
                                        Persist(0, Findings(map[g := value], map[], []), None)]))
  {
    FirstPassRow(c, h, Some(before), f, value, map[]);
    var w := FirstPass(c, h, Some(before), f, value, map[]);
    var steps := [Relist(c, Listed(Some(after), h)), Fetch(c, Nothing()), Persist(0, Findings(map[g := value], map[], []), None)];
    RunThree(w, steps[0], steps[1], steps[2]);
    var w2 := Apply(Apply(w, steps[0]), steps[1]);
    assert w2.jobs == [Job(c, Some(h), Some(after), None, {}, map[], None)];
    var w3 := Apply(w2, steps[2]);
    var row := MergedRow(w2.db.rows, w2.jobs[0], steps[2].findings, None);
    SaveMembers(w2.db.rows, row);
    KeptUnderNewStamp(w3, row, f, w.log[0], w3.log[1]);
  }

  /** A row from before checksums were stamped stays current, so its values are carried forward unread
      and saved under the card's checksum. */
  lemma LegacyCarryLosesProvenance(c: CardId, h: Hash, f: string, key: string, value: string, md5: string)
    ensures var w := FirstPass(c, h, None, f, value, map[key := ""]);
            var m := Manifest(map[key := {f}], map[key := ""]);
            && FieldsExplained(w)
            && !FieldsExplained(Run(w, [Relist(c, Listed(Some(md5), h)), Fetch(c, m), Persist(0, Findings(map[], map[], []), None)]))
  {
    FirstPassRow(c, h, None, f, value, map[key := ""]);
    var w, m := FirstPass(c, h, None, f, value, map[key := ""]), Manifest(map[key := {f}], map[key := ""]);
    var steps := [Relist(c, Listed(Some(md5), h)), Fetch(c, m), Persist(0, Findings(map[], map[], []), None)];
    RunThree(w, steps[0], steps[1], steps[2]);
    var w1 := Apply(w, steps[0]);
    assert CurrentRow(w1.db, c) == Some(w.db.rows[0]);
    assert key in m.owned && UpToDate(m, w.db.rows[0], key) && f in m.owned[key];
    assert KeptFields(m, w.db.rows[0]) == {f};
    var w2 := Apply(w1, steps[1]);
    var job := w2.jobs[0];
    assert job == Job(c, Some(h), Some(md5), None, {f}, Restrict(map[f := value], {f}), None);
    var w3 := Apply(w2, steps[2]);
    var row := MergedRow(w2.db.rows, job, steps[2].findings, None);
    SaveMembers(w2.db.rows, row);
    KeptUnderNewStamp(w3, row, f, w.log[0], w3.log[1]);
  }

  // ----- row by row -----

  predicate IsWholeExtraction(e: Extraction, r: Row) { e.contentHash == r.contentHash && e.md5 == r.md5 && e.fields == r.fields }

  ghost predicate RowsExplained(w: World) { forall r :: r in w.db.rows ==> exists e :: e in w.log && IsWholeExtraction(e, r) }

  /** A pass that finds anew whatever it carried and whatever its row had, as one with no extractor up to
      date does. */
  predicate ReplacesRow(w: World, step: Step) {
    match step
    case Persist(i, f, _) =>
      i < |w.jobs| && w.jobs[i].contentHash.Some? ==>
        GetOrCreate(w.db.rows, w.jobs[i].card, w.jobs[i].contentHash.value).fields.Keys + w.jobs[i].carried.Keys <= f.found.Keys
    case _ => true
  }

  ghost predicate EveryStepReplaces(w: World, steps: seq<Step>)
    decreases |steps|
  {
    steps == [] || (ReplacesRow(w, steps[0]) && EveryStepReplaces(Apply(w, steps[0]), steps[1..]))
  }

  lemma WholeRowStep(w: World, step: Step)
    requires RowsExplained(w) && ReplacesRow(w, step)
    ensures RowsExplained(Apply(w, step))
  {
    var after := Apply(w, step);
    match step {
      case Relist(_, _) =>
      case Fetch(_, _) =>
      case Persist(i, f, runId) =>
        if i < |w.jobs| && w.jobs[i].contentHash.Some? {
          var row := MergedRow(w.db.rows, w.jobs[i], f, runId);
          SaveMembers(w.db.rows, row);
          assert row.fields == f.found;
          assert after.log[|w.log|] in after.log && IsWholeExtraction(after.log[|w.log|], row);
          forall r | r in w.db.rows ensures exists e :: e in after.log && IsWholeExtraction(e, r) {
            var e :| e in w.log && IsWholeExtraction(e, r);
            assert e in after.log;
          }
        }
      case TryTransfer(c, enabled, dryRun, runId) =>
        if c in w.db.cards && FindSource(w.db, enabled, c).Source? {
          var source := FindSource(w.db, enabled, c).row;
          LookupExact(w.db, enabled, c);
          var row := TransferredRow(w.db, c, source, runId);
          SaveMembers(w.db.rows, row);
          var e :| e in w.log && IsWholeExtraction(e, source);
          assert IsWholeExtraction(e, row);
        }
    }
  }

  /** When passes replace what they meet, each row as a whole, however many transfers away, is the outcome
      of a single extraction with the same hash and the same checksum stamp, failed fetches included. */
  lemma {:induction false} RowProvenance(w: World, steps: seq<Step>)
    requires RowsExplained(w) && EveryStepReplaces(w, steps)
    ensures RowsExplained(Run(w, steps))
    decreases |steps|
  {
    if steps != [] {
      WholeRowStep(w, steps[0]);
      RowProvenance(Apply(w, steps[0]), steps[1..]);
    }
  }
}
