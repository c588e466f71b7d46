/**
 Air-gapped federation: a registry exports its records with a signed snapshot; another
 registry checks the bundle, countersigns each record and imports the ones it has not seen.
 `valid` stands for the field-format checks of record validation.
 */
module Bundle {
  import opened Outcomes
  import opened Records
  import opened Ledger
  import opened Boundaries
  import opened Transactions
  import opened Paging
  import Merkle
  import StoreProcess
  import Verification

  datatype Bundle = Bundle(schemaVersion: int, records: seq<Record>, snapshot: SignedSnapshot, publicKey: Option<Key>)

  datatype BundleError =
    | BadSchema | BadSnapshot | SnapshotUnverified | KeyMismatch | InvalidRecord | HashVersionMismatch
    | RecordUnverified | HeadOrSizeMismatch | RootMismatch

  // ---------------------------------------------------------------- the chain a bundle must reproduce

  function RecordHashes(records: seq<Record>): (hashes: seq<Digest>)
    ensures |hashes| == |records|
  {
    if records == [] then []
    else
      var n := |records| - 1;
      RecordHashes(records[..n]) + [Entry(RecordHead(records[..n]), records[n].body)]
  }

  function RecordHead(records: seq<Record>): Digest {
    if records == [] then Genesis else Entry(RecordHead(records[..|records| - 1]), records[|records| - 1].body)
  }

  /** The checks of one record. */
  predicate RecordOk(valid: Record -> bool, schemaVersion: int, key: Key, record: Record) {
    && valid(record)
    && !(schemaVersion == 1 && record.body.hashVersion == Some(2))
    && VerifySigned(key, record)
  }

  predicate HeaderOk(bundle: Bundle, key: Key) {
    var b := bundle.snapshot.boundary;
    && (bundle.schemaVersion == 1 || bundle.schemaVersion == 2)
    && (bundle.schemaVersion == 2 ==> bundle.publicKey.Some?)
    && 0 <= b.logSize <= b.version <= MAX_SAFE_INTEGER && b.createdAt.Utc?
    && bundle.snapshot.signer == key
    && (bundle.publicKey.Some? ==> bundle.publicKey.value == key)
  }

  /** Everything an import checks before it touches the store. */
  ghost predicate BundleOk(valid: Record -> bool, bundle: Bundle, key: Key) {
    && HeaderOk(bundle, key)
    && (forall i :: 0 <= i < |bundle.records| ==> RecordOk(valid, bundle.schemaVersion, key, bundle.records[i]))
    && bundle.snapshot.boundary.logSize == |bundle.records|
    && bundle.snapshot.boundary.head == RecordHead(bundle.records)
    && bundle.snapshot.boundary.merkleRoot == Merkle.Root(PairHash, Genesis, RecordHashes(bundle.records))
  }

  lemma NoRecords()
    ensures RecordHead([]) == Genesis && RecordHashes([]) == []
  {
  }

  lemma OneMoreRecord(records: seq<Record>, record: Record)
    ensures var entryHash := Entry(RecordHead(records), record.body);
            && RecordHead(records + [record]) == entryHash
            && RecordHashes(records + [record]) == RecordHashes(records) + [entryHash]
  {
    assert (records + [record])[..|records|] == records;
  }

  /** Recomputes the chain record by record, then the tree, and compares both with the snapshot. */
  method CheckBundle(valid: Record -> bool, bundle: Bundle, key: Key) returns (r: Result<seq<Record>, BundleError>)
    ensures r.Ok? <==> BundleOk(valid, bundle, key)
    ensures r.Ok? ==> r.value == bundle.records
  {
    hide VerifySigned, Merkle.Root, RecordHead, RecordHashes;
    NoRecords();
    var b := bundle.snapshot.boundary;
    if bundle.schemaVersion != 1 && bundle.schemaVersion != 2 { return Err(BadSchema); }
    if bundle.schemaVersion == 2 && bundle.publicKey.None? { return Err(BadSchema); }
    if !(0 <= b.logSize <= b.version <= MAX_SAFE_INTEGER && b.createdAt.Utc?) { return Err(BadSnapshot); }
    if bundle.snapshot.signer != key { return Err(SnapshotUnverified); }
    if bundle.publicKey.Some? && bundle.publicKey.value != key { return Err(KeyMismatch); }
    var verified: seq<Record> := [];
    var entryHashes: seq<Digest> := [];
    var previous := Genesis;
    for i := 0 to |bundle.records|
      invariant verified == bundle.records[..i]
      invariant forall j :: 0 <= j < i ==> RecordOk(valid, bundle.schemaVersion, key, bundle.records[j])
      invariant previous == RecordHead(verified) && entryHashes == RecordHashes(verified)
    {
      var record := bundle.records[i];
      if !valid(record) { return Err(InvalidRecord); }
      if bundle.schemaVersion == 1 && record.body.hashVersion == Some(2) { return Err(HashVersionMismatch); }
      if !VerifySigned(key, record) { return Err(RecordUnverified); }
      var entryHash := Entry(previous, record.body);
      OneMoreRecord(verified, record);
      previous := entryHash;
      entryHashes := entryHashes + [entryHash];
      verified := verified + [record];
    }
    assert verified == bundle.records;
    if bundle.snapshot.boundary.logSize != |verified| || bundle.snapshot.boundary.head != previous {
      return Err(HeadOrSizeMismatch);
    }
    var root := Merkle.MerkleRoot(PairHash, Genesis, entryHashes);
    if bundle.snapshot.boundary.merkleRoot != root { return Err(RootMismatch); }
    r := Ok(verified);
  }

  /** The records of a bundle have exactly these bodies. */
  ghost predicate SameBodies(records: seq<Record>, log: seq<Row>) {
    && |records| == |log|
    && forall i :: 0 <= i < |log| ==> log[i].record.Some? && log[i].record.value.body == records[i].body
  }

  lemma {:induction false} RecordHeadBinds(records: seq<Record>, log: seq<Row>)
    requires ChainOk(log) && RecordHead(records) == HeadHash(log)
    ensures SameBodies(records, log)
    decreases |log|
  {
    if log != [] { assert RowOk(log, |log| - 1); }
    if log != [] && records != [] {
      var n, k := |log| - 1, |records| - 1;
      ChainOfPrefix(log, n);
      RecordHeadBinds(records[..k], log[..n]);
    }
  }

  lemma {:induction false} HashesOfBodies(records: seq<Record>, log: seq<Row>)
    requires ChainOk(log) && SameBodies(records, log)
    ensures RecordHead(records) == HeadHash(log) && RecordHashes(records) == Hashes(log)
    decreases |log|
  {
    if log != [] {
      var n := |log| - 1;
      assert RowOk(log, n);
      ChainOfPrefix(log, n);
      HashesOfBodies(records[..n], log[..n]);
    }
  }

  /** One record of an acceptable bundle: valid, signed by the pinned key over its own body, and of
      hash version 2 only in a bundle of schema 2. */
  ghost predicate ProperRecord(valid: Record -> bool, bundle: Bundle, key: Key, r: Record) {
    && valid(r) && r.sig.Some? && r.sig.value.keyId == key && r.sig.value.signature == Some(Signed(key, r.body))
    && (r.body.hashVersion == Some(2) ==> bundle.schemaVersion != 1)
  }

  /** Which bundles over the bodies of a log are accepted: the pinned key signed the snapshot and each
      record and is the key shipped, if one is, as schema 2 demands; and the boundary has the size,
      head and root of that log, a version to match and a proper time. */
  lemma AcceptedIff(valid: Record -> bool, bundle: Bundle, key: Key, log: seq<Row>)
    requires ChainOk(log) && SameBodies(bundle.records, log)
    ensures var b := bundle.snapshot.boundary;
            BundleOk(valid, bundle, key) <==>
              && bundle.snapshot.signer == key
              && ((bundle.schemaVersion == 1 && bundle.publicKey == None)
                  || (bundle.schemaVersion in {1, 2} && bundle.publicKey == Some(key)))
              && (forall i :: 0 <= i < |bundle.records| ==> ProperRecord(valid, bundle, key, bundle.records[i]))
              && b.logSize == |log| && b.head == HeadHash(log) && b.merkleRoot == RootOf(log)
              && b.logSize <= b.version <= 9_007_199_254_740_991 && b.createdAt.Utc?
  {
    hide RecordHead, RecordHashes, Merkle.Root, Hashes, ChainOk, SameBodies;
    HashesOfBodies(bundle.records, log);
    BodiesLength(bundle.records, log);
    forall i | 0 <= i < |bundle.records|
      ensures RecordOk(valid, bundle.schemaVersion, key, bundle.records[i])
              <==> ProperRecord(valid, bundle, key, bundle.records[i])
    {
    }
  }

  lemma BodiesLength(records: seq<Record>, log: seq<Row>)
    requires SameBodies(records, log)
    ensures |records| == |log|
  {
  }

  /** What acceptance means: if the signed boundary is one that a sound registry committed, the
      bundle holds exactly the record bodies of that registry up to that boundary. */
  lemma AcceptedBinds(valid: Record -> bool, bundle: Bundle, key: Key, db: Db, size: nat)
    requires BundleOk(valid, bundle, key) && Sound(db) && db.createdAt.Some? && size <= |db.log|
    requires bundle.snapshot.boundary == BoundaryAt(db, size)
    ensures SameBodies(bundle.records, db.log[..size])
    ensures forall i :: 0 <= i < size ==> VerifySigned(key, bundle.records[i])
  {
    hide Sound, RecordHead, RecordHashes, Merkle.Root, VerifySigned, ChainOk, Hashes;
    SoundParts(db);
    ChainOfPrefix(db.log, size);
    assert db.log[..0] == [];
    RecordHeadBinds(bundle.records, db.log[..size]);
    forall i | 0 <= i < size
      ensures VerifySigned(key, bundle.records[i])
    {
      assert RecordOk(valid, bundle.schemaVersion, key, bundle.records[i]);
    }
  }

  // ---------------------------------------------------------------- countersigning

  /** What validation guarantees of a record that import uses. */
  predicate Importable(record: Record) {
    && Appendable(record)
    && record.sig.Some? && record.sig.value.signature.Some? && record.sig.value.signature != Some(Text(""))
  }

  function Earlier(record: Record): seq<Endorsement> {
    if record.body.endorsements.Some? then record.body.endorsements.value else []
  }

  function Endorsed(record: Record): Body {
    record.body.(endorsements := Some(Earlier(record) + [Endorsement(Some(UPSTREAM_IMPORT), record.sig)]))
  }

  function OfferedFingerprint(record: Record): Fingerprint
    requires Importable(record)
  {
    Fingerprint(record.body.sourceIdentity.value, record.body.commit.value, record.body.contentSha256.value,
                record.body.status.value, record.sig.value.signature.value)
  }

  function Countersigned(key: Key, record: Record): (Fingerprint, Record)
    requires Importable(record)
  {
    (OfferedFingerprint(record), SignRecord(key, Endorsed(record)))
  }

  /** A countersigned record is the offered one, body and all, with one endorsement more, which
      carries the upstream signature; the local key signs the whole; its fingerprint names the
      offered source, commit, content, status and signature. */
  lemma CountersignedMeans(key: Key, record: Record)
    requires Importable(record)
    ensures var (f, signed) := Countersigned(key, record);
            && VerifySigned(key, signed)
            && signed.body.(endorsements := record.body.endorsements) == record.body
            && signed.body.endorsements ==
               Some((if record.body.endorsements == None then [] else record.body.endorsements.value)
                    + [Endorsement(Some("upstream-import"), record.sig)])
            && record.body.sourceIdentity == Some(f.sourceIdentity) && record.body.commit == Some(f.commit)
            && record.body.contentSha256 == Some(f.contentSha256) && record.body.status == Some(f.status)
            && record.sig.Some? && record.sig.value.signature == Some(f.signature)
  {
  }

  method CountersignImports(key: Key, verified: seq<Record>) returns (imports: Batch)
    requires forall i :: 0 <= i < |verified| ==> Importable(verified[i])
    ensures |imports| == |verified|
    ensures forall i :: 0 <= i < |verified| ==> imports[i] == Countersigned(key, verified[i])
  {
    imports := [];
    for i := 0 to |verified|
      invariant |imports| == i
      invariant forall j :: 0 <= j < i ==> imports[j] == Countersigned(key, verified[j])
    {
      var record := verified[i];
      var endorsement := Endorsement(Some(UPSTREAM_IMPORT), record.sig);
      var existing := record.body.endorsements;
      var body := record.body.(endorsements :=
        Some(if existing.Some? then existing.value + [endorsement] else [endorsement]));
      assert [] + [endorsement] == [endorsement];
      assert body == Endorsed(record);
      imports := imports + [(OfferedFingerprint(record), SignRecord(key, body))];
    }
  }

  lemma {:induction false} FirstOfLonger(es: seq<Endorsement>, e: Endorsement)
    ensures FirstImportSignature(es + [e])
         == if FirstImportSignature(es).Some? then FirstImportSignature(es) else ImportSignature(e)
    decreases |es|
  {
    if es == [] {
      assert es + [e] == [e];
    } else {
      assert (es + [e])[1..] == es[1..] + [e];
      FirstOfLonger(es[1..], e);
    }
  }

  /** The ledger re-check takes the first import endorsement while import appends its own last,
      so it recomputes the stored fingerprint exactly when no earlier import endorsement
      carries a different signature. */
  lemma RecheckIff(key: Key, record: Record)
    requires Importable(record)
    ensures var (fingerprint, signed) := Countersigned(key, record);
            ImportFingerprint(Some(signed)) == Some(fingerprint)
            <==> FirstImportSignature(Earlier(record)) == None
                 || FirstImportSignature(Earlier(record)) == record.sig.value.signature
  {
    hide FirstImportSignature;
    FirstOfLonger(Earlier(record), Endorsement(Some(UPSTREAM_IMPORT), record.sig));
  }

  /** Two hops break it: a record that one registry imported, exported and a second registry
      imports again never passes the re-check there. */
  lemma SecondHopFails(origin: Key, first: Key, second: Key, record: Record)
    requires Importable(record) && VerifySigned(origin, record) && FirstImportSignature(Earlier(record)).None?
    ensures var relayed := Countersigned(first, record).1;
            && Importable(relayed) && VerifySigned(first, relayed)
            && ImportFingerprint(Some(Countersigned(second, relayed).1)) != Some(Countersigned(second, relayed).0)
  {
    hide FirstImportSignature;
    var relayed := Countersigned(first, record).1;
    FirstOfLonger(Earlier(record), Endorsement(Some(UPSTREAM_IMPORT), record.sig));
    assert Earlier(relayed) == Earlier(record) + [Endorsement(Some(UPSTREAM_IMPORT), record.sig)];
    assert |Earlier(relayed)| != |Earlier(record)|;
    RecheckIff(second, relayed);
  }

  /** So a second-hop import, which the store accepts, leaves a database that is sound but that
      no verification pass attests: the next pass latches the store. */
  lemma SecondHopLatches(db: Db, fingerprint: Fingerprint, record: Record, createdAt: Timestamp)
    requires Sound(db) && Appendable(record) && Merkle.Fits(|db.log| + 1)
    requires fingerprint !in db.imported && ImportFingerprint(Some(record)) != Some(fingerprint)
    ensures ImportBatch(db, [(fingerprint, record)], createdAt) == Some(ImportOne(db, fingerprint, record, createdAt))
    ensures Sound(ImportOne(db, fingerprint, record, createdAt))
    ensures !Verification.Attested(ImportOne(db, fingerprint, record, createdAt))
  {
    hide Sound, ImportFingerprint, CacheOk, Verification.LogAttested;
    ImportOneSound(db, fingerprint, record, createdAt);
    var batch := [(fingerprint, record)];
    assert batch[..0] == [];
    var after := ImportOne(db, fingerprint, record, createdAt);
    assert !Verification.ImportOk(after.log, fingerprint, after.imported[fingerprint]);
  }

  // ---------------------------------------------------------------- the whole import

  datatype ImportFailure = BadBundle(reason: BundleError) | StoreFailed(cause: StoreError)

  function OfferOf(bundle: Bundle, key: Key, at: Timestamp): HighWater {
    var b := bundle.snapshot.boundary;
    HighWater(key, b.version, b.logSize, b.head, b.merkleRoot, at)
  }

  ghost predicate IsCountersigned(key: Key, records: seq<Record>, batch: Batch) {
    && |batch| == |records|
    && forall i :: 0 <= i < |records| ==> Importable(records[i]) && batch[i] == Countersigned(key, records[i])
  }

  /** Verifies a bundle, countersigns its records and hands them to the store with the offered
      boundary. A bundle that fails any check never reaches the store. */
  method ImportBundle(store: StoreProcess.Store, valid: Record -> bool, key: Key, bundle: Bundle, upstream: Key,
                      acceptOlder: bool, at: Timestamp, now: real)
    returns (r: Result<ImportResult, ImportFailure>, ghost batch: Batch)
    requires forall record :: valid(record) ==> Importable(record)
    modifies store
    ensures r.Err? && r.error.BadBundle? <==> !BundleOk(valid, bundle, upstream)
    ensures r.Err? ==> store.db == old(store.db)
    ensures r.Err? && r.error.BadBundle? ==> store.State() == old(store.State())
    ensures !(r.Err? && r.error.BadBundle?) ==> IsCountersigned(key, bundle.records, batch)
    ensures !(r.Err? && r.error.BadBundle?) && Sound(old(store.db)) ==>
              ImportStep(old(store.State()), store.interval, now, batch, at, OfferOf(bundle, upstream, at), acceptOlder,
                         store.State(), if r.Ok? then Ok(r.value) else Err(r.error.cause))
  {
    hide ImportStep, Sound, Countersigned, RecordHead, RecordHashes, Importable;
    batch := [];
    var checked := CheckBundle(valid, bundle, upstream);
    if checked.Err? { return Err(BadBundle(checked.error)), []; }
    var imports := CountersignImports(key, checked.value);
    batch := imports;
    var result := store.AppendUpstreamImport(imports, at, OfferOf(bundle, upstream, at), acceptOlder, now);
    r := if result.Ok? then Ok(result.value) else Err(StoreFailed(result.error));
  }

  // ---------------------------------------------------------------- export

  /** The records of a good chain, all of which parse. */
  function RecordsOf(log: seq<Row>): (records: seq<Record>)
    requires ChainOk(log)
    ensures |records| == |log|
    ensures forall i :: 0 <= i < |log| ==> log[i].record == Some(records[i])
  {
    if log == [] then []
    else
      var n := |log| - 1;
      ChainOfPrefix(log, n);
      assert RowOk(log, n);
      RecordsOf(log[..n]) + [log[n].record.value]
  }

  predicate AnyV2(records: seq<Record>) {
    exists i :: 0 <= i < |records| && records[i].body.hashVersion == Some(2)
  }

  /** Records and snapshot are read one after the other: an append may land in between. */
  function Export(early: Db, late: Db, key: Key): Bundle
    requires ChainOk(early.log) && late.createdAt.Some?
  {
    var records := RecordsOf(early.log);
    Bundle(if AnyV2(records) then 2 else 1, records,
           SignedSnapshot(BoundaryAt(late, |late.log|), key), Some(key))
  }

  /** An export ships every record read, the boundary of the log as it was read afterwards, one key,
      and schema 2 exactly when a record has hash version 2. */
  lemma ExportMeans(early: Db, late: Db, key: Key)
    requires ChainOk(early.log) && late.createdAt.Some?
    ensures var bundle := Export(early, late, key);
            && bundle.schemaVersion in {1, 2} && bundle.publicKey == Some(key) && bundle.snapshot.signer == key
            && bundle.snapshot.boundary.logSize == |late.log| && bundle.snapshot.boundary.head == HeadHash(late.log)
            && SameBodies(bundle.records, early.log)
            && (bundle.schemaVersion == 2 <==>
                  exists i :: 0 <= i < |early.log| && early.log[i].record.value.body.hashVersion == Some(2))
  {
    hide RootOf, RecordsOf;
    assert late.log[..|late.log|] == late.log;
    forall i | 0 <= i < |early.log|
      ensures early.log[i].record == Some(RecordsOf(early.log)[i])
    {
    }
  }

  lemma HashesOfRecords(log: seq<Row>)
    requires ChainOk(log)
    ensures RecordHead(RecordsOf(log)) == HeadHash(log)
    ensures RecordHashes(RecordsOf(log)) == Hashes(log)
  {
    hide RecordHead, RecordHashes, Hashes, ChainOk, RecordsOf;
    HashesOfBodies(RecordsOf(log), log);
  }

  /** Records a registry may export: valid, and signed by its key. */
  ghost predicate AllExportable(valid: Record -> bool, key: Key, records: seq<Record>) {
    forall i :: 0 <= i < |records| ==> valid(records[i]) && VerifySigned(key, records[i])
  }

  /** A quiet export of records that may be exported passes every check. */
  lemma QuietExport(valid: Record -> bool, early: Db, late: Db, key: Key)
    requires Sound(early) && Sound(late) && early.log == late.log && AllExportable(valid, key, RecordsOf(early.log))
    requires late.createdAt.Some? && BoundaryAt(late, |late.log|).createdAt.Utc? && |late.log| <= MAX_SAFE_INTEGER
    ensures BundleOk(valid, Export(early, late, key), key)
  {
    hide Sound, Hashes, Merkle.Root, RecordHead, RecordHashes, VerifySigned;
    SoundParts(early);
    HashesOfRecords(early.log);
    assert late.log[..|late.log|] == late.log;
    RootOfNothing();
    var bundle := Export(early, late, key);
    assert HeaderOk(bundle, key);
    if !AnyV2(bundle.records) {
      assert forall i :: 0 <= i < |bundle.records| ==> bundle.records[i].body.hashVersion != Some(2);
    }
    assert bundle.snapshot.boundary.merkleRoot == RootOf(early.log) by {
      if early.log == [] { assert Hashes(early.log) == []; }
    }
  }

  /** The export of a sound registry passes every check of an importer exactly when that importer
      pins the exporting key, no append landed while it was being read, every record in the log is
      valid and signed by that very key, and the boundary has a proper time and size. */
  lemma ExportAccepted(valid: Record -> bool, early: Db, late: Db, key: Key, pinned: Key)
    requires Sound(early) && Sound(late) && Grew(early, late) && late.createdAt.Some?
    ensures BundleOk(valid, Export(early, late, key), pinned) <==>
              && pinned == key && |late.log| == |early.log|
              && AllExportable(valid, key, RecordsOf(early.log))
              && BoundaryAt(late, |late.log|).createdAt.Utc? && |late.log| <= MAX_SAFE_INTEGER
  {
    hide Sound, Hashes, Merkle.Root, RecordHead, RecordHashes, VerifySigned, BoundaryOf;
    SoundParts(early);
    var bundle := Export(early, late, key);
    if BundleOk(valid, bundle, pinned) {
      forall i | 0 <= i < |bundle.records|
        ensures valid(bundle.records[i]) && VerifySigned(key, bundle.records[i])
      {
        assert RecordOk(valid, bundle.schemaVersion, pinned, bundle.records[i]);
      }
    }
    if |late.log| == |early.log| && AllExportable(valid, key, RecordsOf(early.log))
       && BoundaryAt(late, |late.log|).createdAt.Utc? && |late.log| <= MAX_SAFE_INTEGER {
      QuietExport(valid, early, late, key);
    }
  }

  /** A record signed by another key: whatever is appended afterwards, no export under the new key
      is accepted by anyone. The log is never signed again, so a rotation ends exporting. */
  lemma OtherKeyBlocksExport(valid: Record -> bool, before: Db, i: nat, other: Key, early: Db, late: Db, key: Key,
                             pinned: Key)
    requires Sound(before) && i < |before.log| && VerifySigned(other, RecordsOf(before.log)[i]) && other != key
    requires Sound(early) && Sound(late) && Grew(before, early) && Grew(early, late) && late.createdAt.Some?
    ensures !BundleOk(valid, Export(early, late, key), pinned)
  {
    hide Sound, BundleOk, RecordsOf, BoundaryAt;
    SoundParts(early);
    ExportAccepted(valid, early, late, key, pinned);
    SoundParts(before);
    assert early.log[i] == before.log[i];
    assert RecordsOf(early.log)[i] == RecordsOf(before.log)[i];
  }

  lemma RootOfNothing()
    ensures Merkle.Root(PairHash, Genesis, []) == Genesis
  {
  }

  // ---------------------------------------------------------------- what an import adds

  /** The records of a batch whose fingerprint is new when its turn comes. */
  function FirstUnseen(seen: set<Fingerprint>, batch: Batch): seq<Record> {
    if batch == [] then []
    else
      var n := |batch| - 1;
      FirstUnseen(seen, batch[..n])
      + if batch[n].0 in seen + FingerprintsOf(batch[..n]) then [] else [batch[n].1]
  }

  function FingerprintsOf(batch: Batch): set<Fingerprint> {
    set i | 0 <= i < |batch| :: batch[i].0
  }

  lemma FingerprintsOfLonger(batch: Batch)
    requires batch != []
    ensures FingerprintsOf(batch) == FingerprintsOf(batch[..|batch| - 1]) + {batch[|batch| - 1].0}
  {
    var n := |batch| - 1;
    var left, right := FingerprintsOf(batch), FingerprintsOf(batch[..n]) + {batch[n].0};
    forall f | f in left
      ensures f in right
    {
      var i :| 0 <= i < |batch| && batch[i].0 == f;
      if i < n { assert batch[..n][i].0 == f; }
    }
    forall f | f in FingerprintsOf(batch[..n])
      ensures f in left
    {
      var i :| 0 <= i < n && batch[..n][i].0 == f;
      assert batch[i].0 == f;
    }
    assert batch[n].0 in left;
  }

  /** The records a log holds, as far as they parse. */
  function Held(log: seq<Row>): (held: seq<Option<Record>>)
    ensures |held| == |log|
    ensures forall i :: 0 <= i < |log| ==> held[i] == log[i].record
  {
    if log == [] then [] else Held(log[..|log| - 1]) + [log[|log| - 1].record]
  }

  function Lifted(records: seq<Record>): (lifted: seq<Option<Record>>)
    ensures |lifted| == |records|
  {
    if records == [] then [] else Lifted(records[..|records| - 1]) + [Some(records[|records| - 1])]
  }

  /** An import adds one entry per new distinct fingerprint, in batch order, and remembers all. */
  lemma {:induction false} ImportAdds(db: Db, batch: Batch, createdAt: Timestamp)
    requires StoreProcess.AllAppendable(batch)
    ensures ImportBatch(db, batch, createdAt).Some?
    ensures var after := ImportBatch(db, batch, createdAt).value;
            && Held(after.log) == Held(db.log) + Lifted(FirstUnseen(db.imported.Keys, batch))
            && after.imported.Keys == db.imported.Keys + FingerprintsOf(batch)
    decreases |batch|
  {
    hide Appendable, ImportOne, Held, Lifted, FingerprintsOf;
    if batch == [] {
      NothingToImport(db, batch);
    } else {
      var n := |batch| - 1;
      var before := batch[..n];
      assert forall k :: 0 <= k < n ==> before[k] == batch[k];
      ImportAdds(db, before, createdAt);
      FingerprintsOfLonger(batch);
      var d := ImportBatch(db, before, createdAt).value;
      if batch[n].0 in d.imported {
        assert FirstUnseen(db.imported.Keys, batch) == FirstUnseen(db.imported.Keys, before) + [];
        assert FirstUnseen(db.imported.Keys, before) + [] == FirstUnseen(db.imported.Keys, before);
      } else {
        ImportOneAdds(d, batch[n].0, batch[n].1, createdAt);
        LiftedOfLonger(FirstUnseen(db.imported.Keys, before), batch[n].1);
      }
    }
  }

  lemma NothingToImport(db: Db, batch: Batch)
    requires batch == []
    ensures FingerprintsOf(batch) == {} && Lifted([]) == [] && Held(db.log) + [] == Held(db.log)
  {
  }

  lemma LiftedOfLonger(records: seq<Record>, record: Record)
    ensures Lifted(records + [record]) == Lifted(records) + [Some(record)]
  {
    assert (records + [record])[..|records|] == records;
  }

  lemma ImportOneAdds(db: Db, fingerprint: Fingerprint, record: Record, createdAt: Timestamp)
    requires Appendable(record)
    ensures var after := ImportOne(db, fingerprint, record, createdAt);
            && Held(after.log) == Held(db.log) + [Some(record)]
            && after.imported.Keys == db.imported.Keys + {fingerprint}
  {
    hide BoundaryOf, LevelsOf, Save;
    var row := NewRow(db.log, record, createdAt);
    assert (db.log + [row])[..|db.log|] == db.log;
  }

  /** Importing the same batch again, at any time, changes nothing. */
  lemma {:induction false} ImportAgain(db: Db, batch: Batch, createdAt: Timestamp)
    requires FingerprintsOf(batch) <= db.imported.Keys
    ensures ImportBatch(db, batch, createdAt) == Some(db)
    decreases |batch|
  {
    if batch != [] {
      FingerprintsOfLonger(batch);
      ImportAgain(db, batch[..|batch| - 1], createdAt);
    }
  }
}
