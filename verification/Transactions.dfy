/**
 What each write operation of the store does to the durable tables and to the health
 verdict, stated with the plain definitions: an entry is added by recomputing every cache
 from the whole log. A refused or failed operation leaves the tables as they were.
 */
module Transactions {
  import opened Outcomes
  import opened Records
  import opened Ledger
  import opened HealthState
  import opened Boundaries
  import Merkle

  datatype Diagnostic = UpstreamRollback | UpstreamInconsistent

  datatype StoreError =
    | BadRecord
    | BadArgument
    | NotAllowed
    | Corrupt(detail: string)      // latches
    | DatabaseError
    | KeyConflict
    | BadStoredResponse
    | UpstreamConflict(diagnostic: Diagnostic, persisted: HighWater, offered: HighWater)

  datatype StoreState = StoreState(db: Db, health: Health)

  function AfterError(h: Health, e: StoreError, now: real): Health {
    if e.Corrupt? then Latched(h, e.detail, now) else h
  }

  function Advanced(h: Health, log: seq<Row>): Health {
    h.(verifiedHead := HeadHash(log), verifiedLogSize := |log|)
  }

  /** A call that raised: nothing durable changed, and only corruption touches the verdict.
      A sound store is never found corrupt, short of the frontier's capacity. */
  ghost predicate Refused(s: StoreState, now: real, e: StoreError, adding: nat, s': StoreState) {
    && s' == StoreState(s.db, AfterError(s.health, e, now))
    && (e.Corrupt? ==> !Merkle.Fits(|s.db.log| + adding))
  }

  function EntryOf(log: seq<Row>, record: Record): LogEntry {
    LogEntry(|log| + 1, Entry(HeadHash(log), record.body), HeadHash(log), record)
  }

  // ---------------------------------------------------------------- append

  ghost predicate AppendStep(s: StoreState, interval: real, now: real, record: Record, createdAt: Timestamp,
                             s': StoreState, r: Result<LogEntry, StoreError>)
  {
    match r
    case Err(e) => Refused(s, now, e, 1, s')
    case Ok(entry) =>
      && WritesAllowed(s.health, interval, now)
      && Appendable(record) && Merkle.Fits(|s.db.log| + 1)
      && s'.db == PutEntry(s.db, record, createdAt)
      && s'.health == Advanced(s.health, s'.db.log)
      && entry == EntryOf(s.db.log, record)
  }

  // ---------------------------------------------------------------- idempotent append

  const MIN_TTL: int := 24 * 3600

  datatype Submission = Submission(record: Record, auditor: string, key: string, bodySha256: string,
                                   createdAt: Timestamp, time: int, ttl: int)

  predicate SubmissionOk(sub: Submission) {
    sub.auditor != "" && KeyOk(sub.key) && Hex256(sub.bodySha256) && sub.ttl >= MIN_TTL
  }

  /** Which submissions are tried at all. */
  lemma SubmissionOkIff(sub: Submission)
    ensures SubmissionOk(sub) <==>
              && sub.auditor != "" && sub.key != "" && |sub.key| <= 256 && Visible(sub.key)
              && HexText(sub.bodySha256, 64) && sub.ttl >= 86_400
  {
    HexDigits();
  }

  function Unexpired(m: map<(string, string), IdempotencyRow>, time: int): map<(string, string), IdempotencyRow> {
    map k | k in m && m[k].expiresAt > time :: m[k]
  }

  function Purged(db: Db, time: int): Db { db.(idempotency := Unexpired(db.idempotency, time)) }

  /** Adds the entry of a submission and remembers its key. */
  function Remembered(db: Db, sub: Submission): Db
    requires Appendable(sub.record)
  {
    var added := PutEntry(db, sub.record, sub.createdAt);
    var response := Response(|added.log|, HeadHash(added.log));
    added.(idempotency := added.idempotency[(sub.auditor, sub.key) :=
      IdempotencyRow(sub.bodySha256, Some(response), |added.log|, sub.time + sub.ttl)])
  }

  /** The tables after a first submission under a key commits. */
  function Submitted(db: Db, sub: Submission): Db
    requires Appendable(sub.record)
  {
    Remembered(Purged(db, sub.time), sub)
  }

  ghost predicate IdempotentStep(s: StoreState, interval: real, now: real, sub: Submission,
                                 s': StoreState, r: Result<(Response, bool), StoreError>)
  {
    var known := Unexpired(s.db.idempotency, sub.time);
    var key := (sub.auditor, sub.key);
    match r
    case Err(e) =>
      && Refused(s, now, e, 1, s')
      && (e.KeyConflict? ==> key in known && known[key].bodySha256 != sub.bodySha256)
    case Ok((response, replayed)) =>
      && SubmissionOk(sub) && WritesAllowed(s.health, interval, now)
      && if replayed then
           && key in known && known[key].bodySha256 == sub.bodySha256 && known[key].response == Some(response)
           && s' == s.(db := Purged(s.db, sub.time))
         else
           && key !in known && Appendable(sub.record) && Merkle.Fits(|s.db.log| + 1)
           && s'.db == Submitted(s.db, sub)
           && s'.health == Advanced(s.health, s'.db.log)
           && response == Response(|s'.db.log|, HeadHash(s'.db.log))
  }

  // ---------------------------------------------------------------- imports

  type Batch = seq<(Fingerprint, Record)>

  /** Adds each record whose fingerprint is not in the ledger yet, in order; `None` if one
      of those records cannot be appended. */
  function ImportBatch(db: Db, batch: Batch, createdAt: Timestamp): Option<Db> {
    if batch == [] then Some(db)
    else
      match ImportBatch(db, batch[..|batch| - 1], createdAt)
      case None => None
      case Some(d) =>
        var (fingerprint, record) := batch[|batch| - 1];
        if fingerprint in d.imported then Some(d)
        else if !Appendable(record) then None
        else Some(ImportOne(d, fingerprint, record, createdAt))
  }

  function ImportOne(db: Db, fingerprint: Fingerprint, record: Record, createdAt: Timestamp): Db
    requires Appendable(record)
  {
    var added := PutEntry(db, record, createdAt);
    added.(imported := added.imported[fingerprint := ImportRow(createdAt, Some(|added.log|))])
  }

  /** The refusal an offered upstream boundary meets, if any. */
  function OfferDiagnostic(current: HighWater, offered: HighWater): Option<Diagnostic> {
    if offered.version < current.version then Some(UpstreamRollback)
    else if offered.version == current.version
            && (offered.head != current.head || offered.merkleRoot != current.merkleRoot
                || offered.logSize != current.logSize)
    then Some(UpstreamInconsistent)
    else None
  }

  datatype ImportOutcome = AdvancedTo | Noop | AcceptedOlder

  datatype ImportResult = ImportResult(imported: nat, persisted: Option<HighWater>, outcome: ImportOutcome)

  /** The authoritative decision on an offer, made inside the write transaction. */
  function Decide(current: Option<HighWater>, offered: HighWater, acceptOlder: bool)
    : Result<ImportOutcome, Diagnostic>
  {
    if current.None? then Ok(AdvancedTo)
    else
      match OfferDiagnostic(current.value, offered)
      case Some(d) => if d == UpstreamRollback && acceptOlder then Ok(AcceptedOlder) else Err(d)
      case None => if offered.version == current.value.version then Ok(Noop) else Ok(AdvancedTo)
  }

  /** An offer the store must take: there is no mark yet, or it is newer, or it is the marked boundary
      again, or it is older and the caller insists. */
  ghost predicate Acceptable(mark: Option<HighWater>, offered: HighWater, acceptOlder: bool) {
    match mark
    case None => true
    case Some(m) =>
      || offered.version > m.version
      || (offered.version == m.version && offered.logSize == m.logSize && offered.head == m.head
          && offered.merkleRoot == m.merkleRoot)
      || (offered.version < m.version && acceptOlder)
  }

  /** What taking it does to the mark. */
  ghost predicate RightOutcome(mark: Option<HighWater>, offered: HighWater, outcome: ImportOutcome) {
    match outcome
    case AdvancedTo => mark == None || offered.version > mark.value.version
    case Noop => mark != None && offered.version == mark.value.version
    case AcceptedOlder => mark != None && offered.version < mark.value.version
  }

  /** Why it was refused: an older version, or another boundary under the marked version. */
  ghost predicate RightDiagnostic(mark: Option<HighWater>, offered: HighWater, diagnostic: Diagnostic) {
    && mark.Some?
    && match diagnostic
       case UpstreamRollback => offered.version < mark.value.version
       case UpstreamInconsistent =>
         && offered.version == mark.value.version
         && (offered.logSize, offered.head, offered.merkleRoot)
            != (mark.value.logSize, mark.value.head, mark.value.merkleRoot)
  }

  /** The decision takes exactly the acceptable offers, and names outcome and diagnostic rightly. */
  lemma DecideExact(mark: Option<HighWater>, offered: HighWater, acceptOlder: bool)
    ensures match Decide(mark, offered, acceptOlder)
            case Ok(outcome) => Acceptable(mark, offered, acceptOlder) && RightOutcome(mark, offered, outcome)
            case Err(d) => !Acceptable(mark, offered, acceptOlder) && RightDiagnostic(mark, offered, d)
  {
  }

  lemma PlainRefusalExact(db: Db, offered: Option<HighWater>)
    ensures PlainRefusal(db, offered).None? <==>
              offered.None? || Acceptable(HighWaterOf(db, offered.value.keyId), offered.value, false)
    ensures PlainRefusal(db, offered).Some? ==>
              RightDiagnostic(HighWaterOf(db, offered.value.keyId), offered.value, PlainRefusal(db, offered).value)
  {
  }

  function HighWaterOf(db: Db, keyId: string): Option<HighWater> {
    if keyId in db.highWater then Some(db.highWater[keyId]) else None
  }

  ghost predicate ImportStep(s: StoreState, interval: real, now: real, batch: Batch, createdAt: Timestamp,
                             offered: HighWater, acceptOlder: bool,
                             s': StoreState, r: Result<ImportResult, StoreError>)
  {
    var current := HighWaterOf(s.db, offered.keyId);
    var decision := Decide(current, offered, acceptOlder);
    match r
    case Err(e) =>
      && Refused(s, now, e, |batch|, s')
      && (e.UpstreamConflict? ==>
            decision == Err(e.diagnostic) && current == Some(e.persisted) && e.offered == offered)
    case Ok(result) =>
      && WritesAllowed(s.health, interval, now)
      && decision == Ok(result.outcome) && result.persisted == current
      && var added := ImportBatch(s.db, batch, createdAt);
      && added.Some? && Merkle.Fits(|added.value.log|)
      && s'.db == Raised(added.value, offered, result.outcome)
      && result.imported == |s'.db.log| - |s.db.log|
      && s'.health == AdvancedIfAny(s.health, s.db, s'.db)
  }

  function Raised(db: Db, offered: HighWater, outcome: ImportOutcome): Db {
    if outcome == AdvancedTo then db.(highWater := db.highWater[offered.keyId := offered]) else db
  }

  function AdvancedIfAny(h: Health, db: Db, db': Db): Health {
    if |db'.log| > |db.log| then Advanced(h, db'.log) else h
  }

  /** The refusal of an optional offer that nothing overrides. */
  function PlainRefusal(db: Db, offered: Option<HighWater>): Option<Diagnostic> {
    if offered.None? || HighWaterOf(db, offered.value.keyId).None? then None
    else OfferDiagnostic(HighWaterOf(db, offered.value.keyId).value, offered.value)
  }

  /** The batch import whose caller only may raise the high-water, never override it. */
  ghost predicate PlainImportStep(s: StoreState, interval: real, now: real, batch: Batch, createdAt: Timestamp,
                                  offered: Option<HighWater>, s': StoreState, r: Result<nat, StoreError>)
  {
    var refused := PlainRefusal(s.db, offered);
    match r
    case Err(e) =>
      && Refused(s, now, e, |batch|, s')
      && (e.UpstreamConflict? ==>
            refused == Some(e.diagnostic) && offered == Some(e.offered)
            && HighWaterOf(s.db, e.offered.keyId) == Some(e.persisted))
    case Ok(imported) =>
      && WritesAllowed(s.health, interval, now) && refused.None?
      && var added := ImportBatch(s.db, batch, createdAt);
      && added.Some? && Merkle.Fits(|added.value.log|)
      && s'.db == (if offered.None? then added.value else Raised(added.value, offered.value, AdvancedTo))
      && imported == |s'.db.log| - |s.db.log|
      && s'.health == AdvancedIfAny(s.health, s.db, s'.db)
  }

  // ---------------------------------------------------------------- verification passes and the gate

  const VERIFICATION_FAILED := "integrity verification failed"

  /** Publication of a finished pass against the state as it is when the pass ends. */
  function Published(s: StoreState, clean: bool, at: Timestamp, now: real): Health {
    if s.health.integrityFailed then s.health
    else
      match ReadBoundary(s.db, None)
      case Ok(live) =>
        if clean then Refreshed(s.health, live.head, live.logSize, at, now)
        else Latched(s.health, VERIFICATION_FAILED, now)
      case Err(_) => Latched(s.health, VERIFICATION_FAILED, now)
  }

  /** Ready from this moment, with the live head and size as the verified ones. */
  ghost predicate PublishedLive(db: Db, h: Health, at: Timestamp, now: real) {
    && h.ready && !h.integrityFailed && h.error == None && h.lastRefresh == now && h.verifiedAt == at
    && h.verifiedHead == HeadHash(db.log) && h.verifiedLogSize == |db.log|
  }

  const RESTORE_BELOW_CHECKPOINT := "restore_below_checkpoint"
  const RESTORE_INCONSISTENT_WITH_CHECKPOINT := "restore_inconsistent_with_checkpoint"
  const CHECKPOINT_SIGNATURE_INVALID := "checkpoint_signature_invalid"
  const REFUSAL_DIAGNOSTICS: set<string> :=
    {RESTORE_BELOW_CHECKPOINT, RESTORE_INCONSISTENT_WITH_CHECKPOINT, CHECKPOINT_SIGNATURE_INVALID}

  function RefusalCode(refusal: Refusal): string {
    match refusal
    case RestoreBelowCheckpoint => RESTORE_BELOW_CHECKPOINT
    case RestoreInconsistentWithCheckpoint => RESTORE_INCONSISTENT_WITH_CHECKPOINT
  }

  /** The latch of a startup-checkpoint refusal: the code is kept from the first failure. */
  function RefusedCheckpoint(h: Health, code: string, now: real): Health {
    Latched(if h.integrityFailed then h else h.(code := code), "startup checkpoint refused", now)
  }

  /** What can latch a store: an integrity error, or a refused checkpoint with its code. */
  datatype Failure = IntegrityFailure(detail: string, at: real) | CheckpointFailure(code: string, at: real)

  function Fail(h: Health, f: Failure): Health {
    match f
    case IntegrityFailure(detail, at) => Latched(h, detail, at)
    case CheckpointFailure(code, at) => RefusedCheckpoint(h, code, at)
  }

  function FailAll(h: Health, failures: seq<Failure>): Health {
    if failures == [] then h else Fail(FailAll(h, failures[..|failures| - 1]), failures[|failures| - 1])
  }

  /** Whatever fails later, the verdict stays the one the first failure made, at every clock
      reading: not ready, no writes, its own error, and its code if it was a refused checkpoint. */
  lemma {:induction false} FirstFailureWins(h: Health, failures: seq<Failure>, interval: real, now: real)
    requires !h.integrityFailed && failures != []
    ensures FailAll(h, failures) == Fail(h, failures[0])
    ensures !WritesAllowed(FailAll(h, failures), interval, now)
    ensures var v, first := VerdictOf(FailAll(h, failures), interval, now), failures[0];
            && !v.ready && v.verifiedHead == h.verifiedHead && v.verifiedLogSize == h.verifiedLogSize
            && v.code == (if first.CheckpointFailure? then first.code else h.code)
            && (first.IntegrityFailure? ==> v.error == Some(first.detail))
            && FailAll(h, failures).lastRefresh == first.at
    decreases |failures|
  {
    var n := |failures| - 1;
    if n > 0 {
      FirstFailureWins(h, failures[..n], interval, now);
    } else {
      assert FailAll(h, failures[..0]) == h;
    }
  }

  /** The startup gate on a store. */
  function AfterGate(s: StoreState, checkpoint: CheckpointView, now: real): Health {
    match Gate(s.db, checkpoint)
    case Ok(Some(refusal)) => RefusedCheckpoint(s.health, RefusalCode(refusal), now)
    case _ => s.health
  }

  // ---------------------------------------------------------------- what the steps keep

  lemma PurgeSound(db: Db, time: int)
    requires Sound(db)
    ensures Sound(Purged(db, time))
  {
    hide ChainOk, BoundariesOk, IdempotencyOk, ImportRefOk;
  }

  lemma SubmittedSound(db: Db, sub: Submission)
    requires Sound(db) && SubmissionOk(sub) && Appendable(sub.record) && Merkle.Fits(|db.log| + 1)
    ensures Sound(Submitted(db, sub)) && Grew(db, Submitted(db, sub))
  {
    hide ChainOk, BoundariesOk, BoundaryOf, LevelsOf, Save, NewRow, KeyOk, Hex256, ImportRefOk;
    PurgeSound(db, sub.time);
    PutEntrySound(Purged(db, sub.time), sub.record, sub.createdAt);
  }

  lemma ImportOneSound(db: Db, fingerprint: Fingerprint, record: Record, createdAt: Timestamp)
    requires Sound(db) && Appendable(record) && Merkle.Fits(|db.log| + 1)
    ensures Sound(ImportOne(db, fingerprint, record, createdAt))
    ensures Grew(db, ImportOne(db, fingerprint, record, createdAt))
  {
    hide ChainOk, BoundariesOk, BoundaryOf, LevelsOf, Save, NewRow, IdempotencyOk;
    PutEntrySound(db, record, createdAt);
  }

  lemma {:induction false} ImportBatchSound(db: Db, batch: Batch, createdAt: Timestamp)
    requires Sound(db) && ImportBatch(db, batch, createdAt).Some?
    requires Merkle.Fits(|ImportBatch(db, batch, createdAt).value.log|)
    ensures Sound(ImportBatch(db, batch, createdAt).value) && Grew(db, ImportBatch(db, batch, createdAt).value)
    ensures |ImportBatch(db, batch, createdAt).value.log| <= |db.log| + |batch|
    ensures ImportBatch(db, batch, createdAt).value.highWater == db.highWater
    ensures ImportBatch(db, batch, createdAt).value.idempotency == db.idempotency
    decreases |batch|
  {
    hide Sound;
    if batch != [] {
      var before := batch[..|batch| - 1];
      ImportBatchSound(db, before, createdAt);
      var d := ImportBatch(db, before, createdAt).value;
      var (fingerprint, record) := batch[|batch| - 1];
      if fingerprint !in d.imported {
        ImportOneSound(d, fingerprint, record, createdAt);
      }
    }
  }
}
