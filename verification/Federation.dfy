/**
 Two registries together: what one exports the other imports, what a repeated import does, and
 when the importing registry still passes its own verification.
 */
module Federation {
  import opened Outcomes
  import opened Records
  import opened Ledger
  import opened Boundaries
  import opened Transactions
  import opened Bundle
  import opened HealthState
  import opened Runs
  import opened RunTheorems
  import Merkle
  import StoreProcess
  import Verification

  // ---------------------------------------------------------------- importing twice

  lemma BatchRemembered(db: Db, batch: Batch, createdAt: Timestamp)
    requires ImportBatch(db, batch, createdAt).Some?
    ensures FingerprintsOf(batch) <= ImportBatch(db, batch, createdAt).value.imported.Keys
  {
    hide ImportBatch;
    forall k | 0 <= k < |batch|
      ensures batch[k].0 in ImportBatch(db, batch, createdAt).value.imported
    {
      AllRemembered(db, batch, createdAt, k);
    }
  }

  /** After a committed import, offering the same batch and boundary again leaves every table as it
      is. It is a no-op, or again an older offer that an override lets in; nothing else refuses it. */
  lemma ImportTwice(s: StoreState, interval: real, batch: Batch, now: real, at: Timestamp, offer: HighWater,
                    older: bool, s1: StoreState, first: ImportResult, now': real, at': Timestamp, offer': HighWater,
                    older': bool, s2: StoreState, second: Result<ImportResult, StoreError>)
    requires Sound(s.db) && ImportStep(s, interval, now, batch, at, offer, older, s1, Ok(first))
    requires ImportStep(s1, interval, now', batch, at', offer', older', s2, second)
    requires offer'.keyId == offer.keyId && SameBoundary(offer', offer)
    ensures s2.db == s1.db
    ensures second.Ok? ==>
              && s2 == s1 && second.value.imported == 0
              && second.value.outcome == if first.outcome == AcceptedOlder then AcceptedOlder else Noop
    ensures second.Err? && second.error.UpstreamConflict? ==> first.outcome == AcceptedOlder && !older'
  {
    hide Sound, Merkle.Fits, ImportBatch, FingerprintsOf;
    var added := ImportBatch(s.db, batch, at).value;
    ImportBatchSound(s.db, batch, at);
    BatchRemembered(s.db, batch, at);
    ImportAgain(s1.db, batch, at');
  }

  // ---------------------------------------------------------------- the marks

  /** The offer of an accepted bundle is a well-formed mark exactly for a proper key id and time. */
  lemma OfferIsProper(valid: Record -> bool, bundle: Bundle, key: Key, at: Timestamp)
    requires BundleOk(valid, bundle, key)
    ensures var offer, b := OfferOf(bundle, key, at), bundle.snapshot.boundary;
            && offer.keyId == key && offer.updatedAt == at && offer.version == b.version
            && offer.logSize == b.logSize && offer.head == b.head && offer.merkleRoot == b.merkleRoot
    ensures Verification.HighWaterOk(key, OfferOf(bundle, key, at)) <==> HexText(key, 16) && at.Utc?
  {
    hide RecordHead, RecordHashes, Merkle.Root, RecordOk;
    HexDigits();
  }

  /** So importing accepted bundles under proper key ids keeps every committed mark well formed. */
  lemma MarksStayProper(valid: Record -> bool, bundle: Bundle, key: Key, s: StoreState, interval: real, batch: Batch,
                        now: real, at: Timestamp, older: bool, s': StoreState, r: Result<ImportResult, StoreError>)
    requires BundleOk(valid, bundle, key) && HexText(key, 16) && at.Utc? && Sound(s.db)
    requires forall k :: k in s.db.highWater ==> Verification.HighWaterOk(k, s.db.highWater[k])
    requires ImportStep(s, interval, now, batch, at, OfferOf(bundle, key, at), older, s', r)
    ensures forall k :: k in s'.db.highWater ==> Verification.HighWaterOk(k, s'.db.highWater[k])
  {
    hide Sound, BundleOk, ImportBatch, Merkle.Fits, WritesAllowed, Decide, HexText, Verification.HighWaterOk;
    OfferIsProper(valid, bundle, key, at);
    if r.Ok? { ImportBatchSound(s.db, batch, at); }
  }

  // ---------------------------------------------------------------- verification downstream

  /** A ledger row an import added points at the first record offered under that fingerprint. */
  ghost predicate PointsAt(db: Db, log: seq<Row>, row: ImportRow, batch: Batch, k: nat) {
    FirstNew(db, batch, k) && ImportRefOk(log, row) && log[row.seqNo.value - 1].record == Some(batch[k].1)
  }

  lemma {:induction false} AddedRows(db: Db, batch: Batch, createdAt: Timestamp, k: nat)
    requires ImportBatch(db, batch, createdAt).Some? && FirstNew(db, batch, k)
    ensures var after := ImportBatch(db, batch, createdAt).value;
            batch[k].0 in after.imported && PointsAt(db, after.log, after.imported[batch[k].0], batch, k)
    decreases |batch|
  {
    hide BoundaryOf, LevelsOf, Save, Appendable, NewRow, ImportOne;
    var n := |batch| - 1;
    var before := batch[..n];
    var d := ImportBatch(db, before, createdAt).value;
    if k < n {
      assert forall j :: 0 <= j <= k ==> before[j] == batch[j];
      AddedRows(db, before, createdAt, k);
      if batch[n].0 !in d.imported { OneAdded(d, batch[n].0, batch[n].1, createdAt); }
    } else {
      OnlyFromBatch(db, before, createdAt, batch[n].0);
      OneAdded(d, batch[n].0, batch[n].1, createdAt);
    }
  }

  /** A fingerprint that is neither known nor offered is not remembered. */
  lemma {:induction false} OnlyFromBatch(db: Db, batch: Batch, createdAt: Timestamp, fingerprint: Fingerprint)
    requires ImportBatch(db, batch, createdAt).Some? && fingerprint !in db.imported
    requires forall j :: 0 <= j < |batch| ==> batch[j].0 != fingerprint
    ensures fingerprint !in ImportBatch(db, batch, createdAt).value.imported
    decreases |batch|
  {
    hide BoundaryOf, LevelsOf, Save, Appendable, NewRow;
    if batch != [] { OnlyFromBatch(db, batch[..|batch| - 1], createdAt, fingerprint); }
  }

  lemma OneAdded(db: Db, fingerprint: Fingerprint, record: Record, createdAt: Timestamp)
    requires Appendable(record)
    ensures var after := ImportOne(db, fingerprint, record, createdAt);
            && after.imported == db.imported[fingerprint := ImportRow(createdAt, Some(|after.log|))]
            && |after.log| == |db.log| + 1 && db.log <= after.log && after.log[|db.log|].record == Some(record)
  {
    hide NewRow, BoundaryOf, LevelsOf, Save;
    NewRowStamp(db.log, record, createdAt);
  }

  /** An import that adds a record whose fingerprint does not re-check leaves a ledger row to show for it. */
  lemma BadPairShows(db: Db, batch: Batch, createdAt: Timestamp) returns (fingerprint: Fingerprint)
    requires ImportBatch(db, batch, createdAt).Some? && !BatchOk(db, batch)
    ensures BadRow(ImportBatch(db, batch, createdAt).value, fingerprint)
  {
    hide ImportBatch, ImportFingerprint;
    var k: nat :| FirstNew(db, batch, k) && ImportFingerprint(Some(batch[k].1)) != Some(batch[k].0);
    fingerprint := batch[k].0;
    AddedRows(db, batch, createdAt, k);
  }

  /** An attested registry stays attested by an import exactly when every record it adds carries
      the fingerprint its own check recomputes. */
  lemma AttestedIff(s: StoreState, interval: real, batch: Batch, now: real, at: Timestamp, offer: HighWater,
                    older: bool, s': StoreState, r: ImportResult)
    requires Sound(s.db) && Verification.Attested(s.db) && at.Utc?
    requires Verification.HighWaterOk(offer.keyId, offer)
    requires ImportStep(s, interval, now, batch, at, offer, older, s', Ok(r))
    ensures Verification.Attested(s'.db) <==> BatchOk(s.db, batch)
  {
    hide Sound, Merkle.Fits, ImportBatch, Verification.HighWaterOk, Verification.Attested, BatchOk;
    var after := ImportBatch(s.db, batch, at).value;
    if BatchOk(s.db, batch) {
      ImportBatchAttested(s.db, batch, at);
      RaisedAttested(after, offer, r.outcome);
    } else {
      var fingerprint := BadPairShows(s.db, batch, at);
      BadRowUnattested(s'.db, fingerprint);
    }
  }

  /** No earlier import endorsement carries another signature. */
  predicate Rechecks(record: Record) {
    FirstImportSignature(Earlier(record)) == None
    || (record.sig.Some? && FirstImportSignature(Earlier(record)) == record.sig.value.signature)
  }

  /** Fingerprints carry the signature, and the signature the body: equal ones mean equal records. */
  lemma SameRecord(key: Key, upstream: Key, records: seq<Record>, batch: Batch, i: nat, j: nat)
    requires IsCountersigned(key, records, batch) && i < |batch| && j < |batch| && batch[i].0 == batch[j].0
    requires VerifySigned(upstream, records[i]) && VerifySigned(upstream, records[j])
    ensures records[i] == records[j]
  {
    assert batch[i] == Countersigned(key, records[i]) && batch[j] == Countersigned(key, records[j]);
  }

  lemma {:induction false} FirstOccurrence(db: Db, batch: Batch, i: nat) returns (k: nat)
    requires i < |batch| && batch[i].0 !in db.imported
    ensures k <= i && batch[k].0 == batch[i].0 && FirstNew(db, batch, k)
    decreases i
  {
    k := i;
    if j :| 0 <= j < i && batch[j].0 == batch[i].0 {
      k := FirstOccurrence(db, batch, j);
    }
  }

  /** For signed records it does not matter which occurrence is looked at. */
  lemma BatchOkIff(db: Db, key: Key, upstream: Key, records: seq<Record>, batch: Batch)
    requires IsCountersigned(key, records, batch)
    requires forall i :: 0 <= i < |records| ==> VerifySigned(upstream, records[i])
    ensures BatchOk(db, batch) <==>
              forall i :: 0 <= i < |records| && batch[i].0 !in db.imported ==> Rechecks(records[i])
  {
    hide ImportFingerprint, Countersigned, Importable, FirstImportSignature, VerifySigned, Rechecks;
    forall i | 0 <= i < |records|
      ensures ImportFingerprint(Some(batch[i].1)) == Some(batch[i].0) <==> Rechecks(records[i])
    {
      Recheck(key, records[i]);
    }
    if BatchOk(db, batch) {
      forall i | 0 <= i < |records| && batch[i].0 !in db.imported
        ensures Rechecks(records[i])
      {
        var k := FirstOccurrence(db, batch, i);
        SameRecord(key, upstream, records, batch, i, k);
      }
    }
  }

  lemma Recheck(key: Key, record: Record)
    requires Importable(record)
    ensures var (fingerprint, signed) := Countersigned(key, record);
            ImportFingerprint(Some(signed)) == Some(fingerprint) <==> Rechecks(record)
  {
    hide FirstImportSignature, ImportFingerprint;
    RecheckIff(key, record);
  }

  // ---------------------------------------------------------------- the round trip

  /** What one registry exports passes every check of the other; a committed import adds each
      unseen record once, sets the mark if there was none, and leaves an attested registry
      attested exactly when no new record was relayed with another import signature. */
  lemma {:induction false} RoundTrip(valid: Record -> bool, up: Db, upKey: Key, downKey: Key, batch: Batch,
                                     s: StoreState, interval: real, now: real, at: Timestamp, older: bool,
                                     s': StoreState, r: ImportResult)
    requires Sound(up) && AllExportable(valid, upKey, RecordsOf(up.log))
    requires up.createdAt.Some? && BoundaryAt(up, |up.log|).createdAt.Utc? && |up.log| <= MAX_SAFE_INTEGER
    requires IsCountersigned(downKey, RecordsOf(up.log), batch)
    requires Sound(s.db)
    requires ImportStep(s, interval, now, batch, at, OfferOf(Export(up, up, upKey), upKey, at), older, s', Ok(r))
    ensures BundleOk(valid, Export(up, up, upKey), upKey)
    ensures Held(s'.db.log) == Held(s.db.log) + Lifted(FirstUnseen(s.db.imported.Keys, batch))
    ensures upKey !in s.db.highWater ==>
              r.outcome == AdvancedTo
              && s'.db.highWater == s.db.highWater[upKey := OfferOf(Export(up, up, upKey), upKey, at)]
    ensures Verification.Attested(s.db)
            && Verification.HighWaterOk(upKey, OfferOf(Export(up, up, upKey), upKey, at)) ==>
              (Verification.Attested(s'.db) <==>
                forall i :: 0 <= i < |batch| && batch[i].0 !in s.db.imported ==> Rechecks(RecordsOf(up.log)[i]))
  {
    hide Sound, BundleOk, BoundaryAt, ImportBatch, FirstUnseen, Held, Lifted, Importable, Verification.Attested;
    hide Merkle.Fits, Rechecks, VerifySigned, RecordsOf, StoreProcess.AllAppendable, IsCountersigned, BatchOk;
    SoundParts(up);
    ExportAccepted(valid, up, up, upKey, upKey);
    var records, offer := RecordsOf(up.log), OfferOf(Export(up, up, upKey), upKey, at);
    assert offer.keyId == upKey && offer.updatedAt == at;
    CountersignedAppendable(downKey, records, batch);
    ImportAdds(s.db, batch, at);
    ImportBatchSound(s.db, batch, at);
    if Verification.Attested(s.db) && Verification.HighWaterOk(upKey, offer) {
      BatchOkIff(s.db, downKey, upKey, records, batch);
      AttestedIff(s, interval, batch, now, at, offer, older, s', r);
    }
  }

  lemma CountersignedAppendable(key: Key, records: seq<Record>, batch: Batch)
    requires IsCountersigned(key, records, batch)
    ensures |batch| == |records| && StoreProcess.AllAppendable(batch)
  {
    forall i | 0 <= i < |batch|
      ensures Appendable(batch[i].1)
    {
      assert batch[i] == Countersigned(key, records[i]);
    }
  }

  // ---------------------------------------------------------------- one bad row is for ever

  /** A ledger row whose fingerprint is not the one recomputed from its record. */
  ghost predicate BadRow(db: Db, fingerprint: Fingerprint) {
    && fingerprint in db.imported && ImportRefOk(db.log, db.imported[fingerprint])
    && !Verification.ImportOk(db.log, fingerprint, db.imported[fingerprint])
  }

  lemma BadRowUnattested(db: Db, fingerprint: Fingerprint)
    requires BadRow(db, fingerprint)
    ensures !Verification.Attested(db) && !StoreProcess.Startable(db)
  {
    hide Verification.LogAttested, CacheOk, StoreProcess.Repairable, Verification.ImportOk;
  }

  ghost predicate LedgerGrew(before: Db, after: Db) {
    && before.log <= after.log
    && forall f :: f in before.imported ==> f in after.imported && after.imported[f] == before.imported[f]
  }

  lemma BadRowStays(before: Db, after: Db, fingerprint: Fingerprint)
    requires BadRow(before, fingerprint) && LedgerGrew(before, after)
    ensures BadRow(after, fingerprint)
  {
    hide ImportFingerprint;
  }

  lemma ActsGrowLedger(s: StoreState, interval: real, now: real, action: Action, s': StoreState)
    requires Sound(s.db) && !action.EndPassAction? && Acts(s, interval, now, action, s')
    ensures LedgerGrew(s.db, s'.db)
  {
    hide Sound, Gate, Merkle.Fits, Unexpired, SubmissionOk, WritesAllowed, Appendable, ImportBatch, NewRow, BoundaryOf,
         LevelsOf, Save, OfferDiagnostic;
    match action
    case ImportAction(batch, createdAt, offer, _, r) =>
      if r.Ok? {
        ImportBatchSound(s.db, batch, createdAt);
        LedgerKept(s.db, batch, createdAt);
      }
    case PlainImportAction(batch, createdAt, offer, r) =>
      if r.Ok? {
        ImportBatchSound(s.db, batch, createdAt);
        LedgerKept(s.db, batch, createdAt);
      }
    case _ =>
  }

  lemma NextKeepsBadRow(s: System, interval: real, step: Step, s': System, fingerprint: Fingerprint)
    requires Inv(s) && Next(s, interval, step, s') && BadRow(s.db, fingerprint)
    ensures BadRow(s'.db, fingerprint)
  {
    hide Acts, Sound, BadRow, LedgerGrew, Verification.Attested;
    if !step.action.EndPassAction? {
      ActsGrowLedger(StoreState(s.db, s.processes[step.process]), interval, step.now, step.action,
                     StoreState(s'.db, s'.processes[step.process]));
      BadRowStays(s.db, s'.db, fingerprint);
    }
  }

  lemma {:induction false} BadRowForever(run: seq<System>, interval: real, steps: seq<Step>, i: nat, j: nat,
                                         fingerprint: Fingerprint)
    requires IsRun(run, interval, steps) && i <= j < |run| && Inv(run[i]) && BadRow(run[i].db, fingerprint)
    ensures BadRow(run[j].db, fingerprint)
    decreases j - i
  {
    hide Next, Inv, BadRow, Grew;
    if i < j {
      BadRowForever(run, interval, steps, i, j - 1, fingerprint);
      RunKeeps(run, interval, steps, i, j - 1);
      NextKeepsBadRow(run[j - 1], interval, steps[j - 1], run[j], fingerprint);
    }
  }

  predicate Imports(action: Action) { action.ImportAction? || action.PlainImportAction? }

  /** One committed import of a record that does not re-check: whatever any process does afterwards,
      the database is never attested again, so every later pass latches, and no process can ever
      be started on it again. */
  lemma NeverAttestedAgain(run: seq<System>, interval: real, steps: seq<Step>, i: nat, j: nat)
    requires IsRun(run, interval, steps) && i < j < |run| && Inv(run[0])
    requires Imports(steps[i].action) && Committed(steps[i].action) && !BatchOk(run[i].db, steps[i].action.batch)
    ensures !Verification.Attested(run[j].db) && !StoreProcess.Startable(run[j].db)
  {
    hide Inv, BadRow, BatchOk, Grew, Verification.Attested, StoreProcess.Startable;
    RunKeeps(run, interval, steps, 0, i + 1);
    var fingerprint := ImportShows(run[i], interval, steps[i], run[i + 1]);
    BadRowForever(run, interval, steps, i + 1, j, fingerprint);
    BadRowUnattested(run[j].db, fingerprint);
  }

  lemma ImportShows(s: System, interval: real, step: Step, s': System) returns (fingerprint: Fingerprint)
    requires Next(s, interval, step, s') && Imports(step.action) && Committed(step.action)
    requires !BatchOk(s.db, step.action.batch)
    ensures BadRow(s'.db, fingerprint)
  {
    hide BatchOk, ImportBatch, Merkle.Fits, WritesAllowed, Decide, OfferDiagnostic;
    fingerprint := BadPairShows(s.db, step.action.batch, step.action.createdAt);
  }

  /** A record of the log that another key signed: along every run, no export under this key is
      ever accepted again, by anyone. */
  lemma RotationEndsExports(valid: Record -> bool, run: seq<System>, interval: real, steps: seq<Step>, i: nat, n: nat,
                            other: Key, early: nat, late: nat, key: Key, pinned: Key)
    requires IsRun(run, interval, steps) && Inv(run[0]) && i <= early <= late < |run|
    requires ChainOk(run[i].db.log) && n < |run[i].db.log| && VerifySigned(other, RecordsOf(run[i].db.log)[n])
    requires other != key
    ensures ChainOk(run[early].db.log) && run[late].db.createdAt.Some?
    ensures !BundleOk(valid, Export(run[early].db, run[late].db, key), pinned)
  {
    hide IsRun, Inv, Sound, Grew, BundleOk, Export, RecordsOf, VerifySigned;
    StatesAlongRun(run, interval, steps, i, early);
    StatesAlongRun(run, interval, steps, early, late);
    SoundParts(run[early].db);
    SoundParts(run[late].db);
    OtherKeyBlocksExport(valid, run[i].db, n, other, run[early].db, run[late].db, key, pinned);
  }
}
