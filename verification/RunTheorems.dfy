/** What holds over every run of the system: verdicts, ledgers, high-water marks, idempotency. */
module RunTheorems {
  import opened Outcomes
  import opened Records
  import opened Ledger
  import opened HealthState
  import opened Transactions
  import opened Boundaries
  import opened Verification
  import opened Runs
  import Frontier
  import Merkle
  import Paging
  import StoreProcess

  // ---------------------------------------------------------------- verdicts and the latch

  /** Whether a write action committed. */
  predicate Committed(action: Action) {
    match action
    case AppendAction(_, _, r) => r.Ok?
    case SubmitAction(_, r) => r.Ok?
    case ImportAction(_, _, _, _, r) => r.Ok?
    case PlainImportAction(_, _, _, r) => r.Ok?
    case _ => false
  }

  lemma ActsWhenLatched(s: StoreState, interval: real, now: real, action: Action, s': StoreState)
    requires s.health.integrityFailed && !action.EndPassAction? && Acts(s, interval, now, action, s')
    ensures s'.health == s.health && s'.db == s.db && !Committed(action)
  {
    hide PutEntry, Submitted, ImportBatch, Gate, Merkle.Fits, OfferDiagnostic, Unexpired;
  }

  lemma LatchedStep(s: System, interval: real, step: Step, s': System, p: nat)
    requires Inv(s) && Next(s, interval, step, s') && p < |s.processes| && s.processes[p].integrityFailed
    ensures p < |s'.processes| && s'.processes[p] == s.processes[p]
    ensures step.process == p ==> !Committed(step.action)
  {
    hide Acts, Attested, Sound;
    if step.process == p && !step.action.EndPassAction? {
      ActsWhenLatched(StoreState(s.db, s.processes[p]), interval, step.now, step.action,
                      StoreState(s'.db, s'.processes[p]));
    }
  }

  /** Once latched, a process keeps exactly the same verdict through every later step: it is
      never ready, it may not write, and none of its write actions commits. */
  lemma {:induction false} LatchIsForever(run: seq<System>, interval: real, steps: seq<Step>, p: nat, i: nat, j: nat)
    requires IsRun(run, interval, steps) && i <= j < |run| && Inv(run[i])
    requires p < |run[i].processes| && run[i].processes[p].integrityFailed
    ensures p < |run[j].processes| && run[j].processes[p] == run[i].processes[p]
    ensures forall now :: !VerdictOf(run[j].processes[p], interval, now).ready
                          && !WritesAllowed(run[j].processes[p], interval, now)
    ensures forall k :: i <= k < j && steps[k].process == p ==> !Committed(steps[k].action)
    decreases j - i
  {
    hide Next, Sound, Committed, Grew;
    RunKeeps(run, interval, steps, i, j);
    if i < j {
      LatchIsForever(run, interval, steps, p, i, j - 1);
      RunKeeps(run, interval, steps, i, j - 1);
      LatchedStep(run[j - 1], interval, steps[j - 1], run[j], p);
    }
    assert ProcessOk(run[j].db, run[j].processes[p]);
  }

  /** In every state of every run, for every process and at every clock reading, the probe is
      ready exactly when writes are allowed. */
  lemma ReadyIffWritable(run: seq<System>, interval: real, steps: seq<Step>, j: nat, p: nat, now: real)
    requires IsRun(run, interval, steps) && j < |run| && Inv(run[0]) && p < |run[j].processes|
    ensures VerdictOf(run[j].processes[p], interval, now).ready <==> WritesAllowed(run[j].processes[p], interval, now)
  {
    hide Next, Sound;
    RunKeeps(run, interval, steps, 0, j);
    assert ProcessOk(run[j].db, run[j].processes[p]);
  }

  /** A pass decides the verdict exactly: an unlatched process is ready if the walk finished and
      its snapshot was attested, and latched otherwise; the staleness deadline restarts. */
  lemma PassDecides(s: System, interval: real, step: Step, s': System)
    requires Inv(s) && interval > 0.0 && Next(s, interval, step, s') && step.action.EndPassAction?
    requires !s.processes[step.process].integrityFailed
    ensures var clean := !step.action.raised && Attested(s.passes[step.action.pass].snapshot);
            var h := s'.processes[step.process];
            && h.integrityFailed == !clean
            && (clean ==> PublishedLive(s'.db, h, step.action.at, step.now))
            && forall t :: step.now <= t <= step.now + interval * STALENESS_MULTIPLIER ==>
                 (WritesAllowed(h, interval, t) <==> clean)
  {
    hide Sound, Attested, Published;
    var p := step.process;
    assert ProcessOk(s.db, s.processes[p]);
    var clean := !step.action.raised && Attested(s.passes[step.action.pass].snapshot);
    PublishedOk(s.db, s.processes[p], clean, step.action.at, step.now);
  }

  /** No other step moves the staleness deadline of an unlatched process. */
  lemma OnlyPassesExtendDeadline(s: System, interval: real, step: Step, s': System, p: nat)
    requires Inv(s) && Next(s, interval, step, s') && !step.action.EndPassAction? && p < |s.processes|
    ensures s'.processes[p].integrityFailed || s'.processes[p].lastRefresh == s.processes[p].lastRefresh
  {
    hide Sound, PutEntry, Submitted, ImportBatch, Gate, Merkle.Fits, OfferDiagnostic, Unexpired;
  }

  // ---------------------------------------------------------------- no false alarm

  lemma PutEntryAttested(db: Db, record: Record, createdAt: Timestamp)
    requires Attested(db) && Sound(db) && Appendable(record) && Merkle.Fits(|db.log| + 1) && createdAt.Utc?
    ensures Attested(PutEntry(db, record, createdAt))
  {
    hide ChainOk, CacheOk, NewRow, KeyOk, Hex256, BoundaryOf, LevelsOf, Save, HighWaterOk, ImportFingerprint;
    PutEntrySound(db, record, createdAt);
    var db' := PutEntry(db, record, createdAt);
    assert StampOk(db'.log[|db.log|]) by { NewRowStamp(db.log, record, createdAt); }
    forall i | 0 <= i < |db'.log|
      ensures StampOk(db'.log[i])
    {
      if i < |db.log| { assert StampOk(db.log[i]); }
    }
    forall f | f in db'.imported
      ensures ImportOk(db'.log, f, db'.imported[f])
    {
      assert ImportOk(db.log, f, db.imported[f]);
    }
  }

  lemma NewRowStamp(log: seq<Row>, record: Record, createdAt: Timestamp)
    requires Appendable(record)
    ensures NewRow(log, record, createdAt).createdAt == createdAt
    ensures NewRow(log, record, createdAt).record == Some(record)
  {
  }

  lemma PurgeAttested(db: Db, time: int)
    requires Attested(db)
    ensures Attested(Purged(db, time))
  {
    hide ChainOk, BoundariesOk, KeyOk, Hex256, HighWaterOk, ImportOk, IdempotencyOk;
  }

  lemma SubmittedAttested(db: Db, sub: Submission)
    requires Attested(db) && Sound(db) && SubmissionOk(sub) && Appendable(sub.record)
    requires Merkle.Fits(|db.log| + 1) && sub.createdAt.Utc?
    ensures Attested(Submitted(db, sub))
  {
    hide ChainOk, BoundariesOk, KeyOk, Hex256, HighWaterOk, ImportOk, NewRow, BoundaryOf, LevelsOf, Save;
    PurgeSound(db, sub.time);
    PurgeAttested(db, sub.time);
    PutEntryAttested(Purged(db, sub.time), sub.record, sub.createdAt);
    SubmittedSound(db, sub);
  }

  /** Pair number `k` of a batch is the one an import adds for its fingerprint. */
  ghost predicate FirstNew(db: Db, batch: Batch, k: nat) {
    && k < |batch| && batch[k].0 !in db.imported
    && forall j :: 0 <= j < k ==> batch[j].0 != batch[k].0
  }

  /** The pairs of a batch that will be added carry the fingerprint the ledger check recomputes. */
  ghost predicate BatchOk(db: Db, batch: Batch) {
    forall k: nat :: FirstNew(db, batch, k) ==> ImportFingerprint(Some(batch[k].1)) == Some(batch[k].0)
  }

  /** An import never forgets or changes a ledger row. */
  lemma {:induction false} LedgerKept(db: Db, batch: Batch, createdAt: Timestamp)
    requires ImportBatch(db, batch, createdAt).Some?
    ensures var after := ImportBatch(db, batch, createdAt).value;
            forall f :: f in db.imported ==> f in after.imported && after.imported[f] == db.imported[f]
    decreases |batch|
  {
    hide NewRow, BoundaryOf, LevelsOf, Save, Appendable;
    if batch != [] { LedgerKept(db, batch[..|batch| - 1], createdAt); }
  }

  /** After an import every fingerprint of the batch is in the ledger. */
  lemma {:induction false} AllRemembered(db: Db, batch: Batch, createdAt: Timestamp, k: nat)
    requires ImportBatch(db, batch, createdAt).Some? && k < |batch|
    ensures batch[k].0 in ImportBatch(db, batch, createdAt).value.imported
    decreases |batch|
  {
    hide NewRow, BoundaryOf, LevelsOf, Save, Appendable;
    if k < |batch| - 1 { AllRemembered(db, batch[..|batch| - 1], createdAt, k); }
  }

  /** The last pair of a batch is added exactly when it is the first new one of its fingerprint. */
  lemma LastIsNew(db: Db, batch: Batch, createdAt: Timestamp)
    requires batch != [] && ImportBatch(db, batch[..|batch| - 1], createdAt).Some?
    requires batch[|batch| - 1].0 !in ImportBatch(db, batch[..|batch| - 1], createdAt).value.imported
    ensures FirstNew(db, batch, |batch| - 1)
  {
    hide ImportBatch;
    var n := |batch| - 1;
    LedgerKept(db, batch[..n], createdAt);
    forall j | 0 <= j < n
      ensures batch[j].0 != batch[n].0
    {
      AllRemembered(db, batch[..n], createdAt, j);
    }
  }

  lemma BatchOkBefore(db: Db, batch: Batch)
    requires batch != [] && BatchOk(db, batch)
    ensures BatchOk(db, batch[..|batch| - 1])
  {
    hide ImportFingerprint;
    var before := batch[..|batch| - 1];
    forall k: nat | FirstNew(db, before, k)
      ensures ImportFingerprint(Some(before[k].1)) == Some(before[k].0)
    {
      assert forall j :: 0 <= j <= k ==> before[j] == batch[j];
      assert FirstNew(db, batch, k);
    }
  }

  lemma ImportOneAttested(db: Db, fingerprint: Fingerprint, record: Record, createdAt: Timestamp)
    requires Attested(db) && Sound(db) && Appendable(record) && Merkle.Fits(|db.log| + 1) && createdAt.Utc?
    requires ImportFingerprint(Some(record)) == Some(fingerprint)
    ensures Attested(ImportOne(db, fingerprint, record, createdAt))
  {
    hide ChainOk, BoundariesOk, IdempotencyOk, HighWaterOk, NewRow, BoundaryOf, LevelsOf, Save, ImportFingerprint;
    PutEntryAttested(db, record, createdAt);
    NewRowStamp(db.log, record, createdAt);
    var added, after := PutEntry(db, record, createdAt), ImportOne(db, fingerprint, record, createdAt);
    forall f | f in after.imported
      ensures ImportOk(after.log, f, after.imported[f])
    {
      if f != fingerprint { assert ImportOk(added.log, f, added.imported[f]); }
    }
  }

  lemma {:induction false} ImportBatchAttested(db: Db, batch: Batch, createdAt: Timestamp)
    requires Attested(db) && Sound(db) && BatchOk(db, batch) && createdAt.Utc?
    requires ImportBatch(db, batch, createdAt).Some? && Merkle.Fits(|ImportBatch(db, batch, createdAt).value.log|)
    ensures Attested(ImportBatch(db, batch, createdAt).value)
    decreases |batch|
  {
    hide Attested, Sound, ImportOne, ImportFingerprint, Appendable, FirstNew;
    if batch != [] {
      var before := batch[..|batch| - 1];
      var d := ImportBatch(db, before, createdAt).value;
      var (fingerprint, record) := batch[|batch| - 1];
      BatchGrows(db, batch, createdAt);
      BatchOkBefore(db, batch);
      ImportBatchAttested(db, before, createdAt);
      ImportBatchSound(db, before, createdAt);
      if fingerprint !in d.imported {
        LastIsNew(db, batch, createdAt);
        ImportOneAttested(d, fingerprint, record, createdAt);
      }
    }
  }

  lemma BatchGrows(db: Db, batch: Batch, createdAt: Timestamp)
    requires batch != [] && ImportBatch(db, batch, createdAt).Some?
    requires Merkle.Fits(|ImportBatch(db, batch, createdAt).value.log|)
    ensures var before := ImportBatch(db, batch[..|batch| - 1], createdAt);
            && before.Some? && Merkle.Fits(|before.value.log|)
            && var (fingerprint, record) := batch[|batch| - 1];
            (fingerprint !in before.value.imported ==> Appendable(record) && Merkle.Fits(|before.value.log| + 1))
  {
  }

  /** Arguments every caller in the registry passes: current times, fingerprints that re-check,
      well-formed offers, room in the tree; checkpoints that the gate accepts; and walks that finish. */
  ghost predicate GoodAction(db: Db, action: Action) {
    match action
    case AppendAction(_, createdAt, _) => createdAt.Utc? && Merkle.Fits(|db.log| + 1)
    case SubmitAction(sub, _) => sub.createdAt.Utc? && Merkle.Fits(|db.log| + 1)
    case ImportAction(batch, createdAt, offer, _, _) =>
      createdAt.Utc? && BatchOk(db, batch) && HighWaterOk(offer.keyId, offer) && Merkle.Fits(|db.log| + |batch|)
    case PlainImportAction(batch, createdAt, offer, _) =>
      && createdAt.Utc? && BatchOk(db, batch) && Merkle.Fits(|db.log| + |batch|)
      && (offer.Some? ==> HighWaterOk(offer.value.keyId, offer.value))
    case GateAction(checkpoint) => Gate(db, checkpoint) == Ok(None)
    case RefuseAction(_) => false
    case EndPassAction(_, _, raised) => !raised
    case BeginPassAction => true
  }

  lemma RaisedAttested(db: Db, offered: HighWater, outcome: ImportOutcome)
    requires Attested(db) && HighWaterOk(offered.keyId, offered)
    ensures Attested(Raised(db, offered, outcome))
  {
    hide ChainOk, BoundariesOk, IdempotencyOk, ImportOk, HighWaterOk;
  }

  lemma ActsAttested(s: StoreState, interval: real, now: real, action: Action, s': StoreState)
    requires Sound(s.db) && Attested(s.db) && !s.health.integrityFailed
    requires !action.EndPassAction? && Acts(s, interval, now, action, s') && GoodAction(s.db, action)
    ensures Attested(s'.db) && !s'.health.integrityFailed
  {
    hide Sound, Attested, PutEntry, Submitted, ImportBatch, Gate, Merkle.Fits, OfferDiagnostic, Unexpired, BatchOk,
         HighWaterOk, SubmissionOk, WritesAllowed, Appendable, Raised;
    match action
    case AppendAction(record, createdAt, r) =>
      if r.Ok? { PutEntryAttested(s.db, record, createdAt); }
    case SubmitAction(sub, r) =>
      if r.Ok? {
        if r.value.1 { PurgeAttested(s.db, sub.time); } else { SubmittedAttested(s.db, sub); }
      }
    case ImportAction(batch, createdAt, offer, _, r) =>
      if r.Ok? {
        ImportBatchAttested(s.db, batch, createdAt);
        RaisedAttested(ImportBatch(s.db, batch, createdAt).value, offer, r.value.outcome);
      }
    case PlainImportAction(batch, createdAt, offer, r) =>
      if r.Ok? {
        ImportBatchAttested(s.db, batch, createdAt);
        if offer.Some? { RaisedAttested(ImportBatch(s.db, batch, createdAt).value, offer.value, AdvancedTo); }
      }
    case GateAction(_) =>
    case BeginPassAction =>
  }

  /** The file and every snapshot in flight are attested, and no process has latched. */
  ghost predicate Clean(s: System) {
    && Inv(s) && Attested(s.db)
    && (forall k :: 0 <= k < |s.passes| ==> Attested(s.passes[k].snapshot))
    && (forall p :: 0 <= p < |s.processes| ==> !s.processes[p].integrityFailed)
  }

  function EmptyDb(createdAt: Timestamp): Db {
    Db(Some(createdAt), [], 0, map[], [], map[], map[], map[])
  }

  /** A new file served by freshly started processes is clean: runs have somewhere to begin. */
  lemma FreshSystemIsClean(createdAt: Timestamp, processes: seq<Health>)
    requires createdAt.Utc?
    requires forall p :: 0 <= p < |processes| ==>
               processes[p].ready && !processes[p].integrityFailed
               && processes[p].verifiedHead == Genesis && processes[p].verifiedLogSize == 0
    ensures Clean(System(EmptyDb(createdAt), processes, []))
  {
    var db := EmptyDb(createdAt);
    assert LevelsOf([]) == [];
    forall p | 0 <= p < |processes|
      ensures ProcessOk(db, processes[p])
    {
      assert db.log[..0] == [];
    }
  }

  /** A registry with two entries is one such database: its frontier can be tampered with so that the
      anchors hold and the third entry's root is wrong. */
  lemma TwoEntriesMisled(createdAt: Timestamp, first: Record, second: Record, row: Row)
    requires createdAt.Utc? && Appendable(first) && Appendable(second)
    ensures var db := PutEntry(PutEntry(EmptyDb(createdAt), first, createdAt), second, createdAt);
            && Sound(db) && |db.log| == 2 && LevelsOf(db.log) != []
            && var bad := StoreProcess.Tampered(db, Genesis);
            && StoreProcess.LogTrusted(bad) && StoreProcess.AnchorsHold(bad) && StoreProcess.Misled(bad)
            && var g := Merkle.Append(PairHash, Load(bad.frontier).value, row.entryHash);
            g.Grown? && g.root != RootOf(db.log + [row])
  {
    hide Sound, RootOf, LevelsOf, Merkle.Append, StoreProcess.Tampered, StoreProcess.LogTrusted;
    hide StoreProcess.AnchorsHold, StoreProcess.Misled, NewRow, Load, Appendable;
    FreshSystemIsClean(createdAt, []);
    var one := PutEntry(EmptyDb(createdAt), first, createdAt);
    var db := PutEntry(one, second, createdAt);
    assert Merkle.Fits(1) && Merkle.Fits(2) && Merkle.Fits(3);
    assert Merkle.CeilHalf(2) == 1 && Merkle.Depth(2) == 1 && Merkle.Pow2(1) == 2;
    PutEntrySound(EmptyDb(createdAt), first, createdAt);
    PutEntrySound(one, second, createdAt);
    RootOfTwo(db.log);
    StoreProcess.TamperedFrontier(db, Genesis, row);
  }

  lemma RootOfTwo(log: seq<Row>)
    requires |log| == 2
    ensures RootOf(log) == Node(log[0].entryHash, log[1].entryHash)
  {
    hide Merkle.NextLevel;
    var s := Hashes(log);
    assert s == [log[0].entryHash, log[1].entryHash];
    Frontier.NextOfTwo(PairHash, s[0], s[1]);
    assert Merkle.Root(PairHash, Genesis, [Node(s[0], s[1])]) == Node(s[0], s[1]);
  }

  lemma NextClean(s: System, interval: real, step: Step, s': System)
    requires Clean(s) && Next(s, interval, step, s') && GoodAction(s.db, step.action)
    ensures Clean(s')
  {
    hide Sound, Attested, Acts, Published, GoodAction, ProcessOk, Inv;
    NextKeeps(s, interval, step, s');
    var p := step.process;
    if step.action.EndPassAction? {
      GoodPass(s.db, step.action);
      InvParts(s, p);
      PublishedOk(s.db, s.processes[p], true, step.action.at, step.now);
    } else {
      InvParts(s, p);
      ActsAttested(StoreState(s.db, s.processes[p]), interval, step.now, step.action,
                   StoreState(s'.db, s'.processes[p]));
    }
  }

  lemma GoodPass(db: Db, action: Action)
    requires GoodAction(db, action) && action.EndPassAction?
    ensures !action.raised
  {
  }

  lemma InvParts(s: System, p: nat)
    requires Inv(s) && p < |s.processes|
    ensures Sound(s.db) && ProcessOk(s.db, s.processes[p])
  {
  }

  /** No false alarm: however passes and writes interleave, a run of well-formed calls never
      latches a process, and every pass that ends leaves its process ready. */
  lemma {:induction false} NoFalseAlarm(run: seq<System>, interval: real, steps: seq<Step>, j: nat)
    requires IsRun(run, interval, steps) && j < |run| && Clean(run[0]) && interval > 0.0
    requires forall k :: 0 <= k < |steps| ==> GoodAction(run[k].db, steps[k].action)
    ensures Clean(run[j])
    ensures j > 0 && steps[j - 1].action.EndPassAction? ==>
              steps[j - 1].process < |run[j].processes|
              && WritesAllowed(run[j].processes[steps[j - 1].process], interval, steps[j - 1].now)
    decreases j
  {
    hide Sound, Attested, GoodAction, WritesAllowed, Inv;
    if j > 0 {
      NoFalseAlarm(run, interval, steps, j - 1);
      assert Next(run[j - 1], interval, steps[j - 1], run[j]);
      NextClean(run[j - 1], interval, steps[j - 1], run[j]);
      if steps[j - 1].action.EndPassAction? {
        GoodPass(run[j - 1].db, steps[j - 1].action);
        PassDecides(run[j - 1], interval, steps[j - 1], run[j]);
      }
    }
  }

  // ---------------------------------------------------------------- upstream high-water marks

  predicate SameBoundary(a: HighWater, b: HighWater) {
    a.version == b.version && a.logSize == b.logSize && a.head == b.head && a.merkleRoot == b.merkleRoot
  }

  /** No mark disappears, and each is either strictly raised or names the same boundary. */
  ghost predicate NotLowered(before: map<string, HighWater>, after: map<string, HighWater>) {
    forall k :: k in before ==>
      k in after && (before[k].version < after[k].version || SameBoundary(before[k], after[k]))
  }

  lemma ActsNotLowered(s: StoreState, interval: real, now: real, action: Action, s': StoreState)
    requires Sound(s.db) && !action.EndPassAction? && Acts(s, interval, now, action, s')
    ensures NotLowered(s.db.highWater, s'.db.highWater)
  {
    hide Sound, Gate, Merkle.Fits, Unexpired, SubmissionOk, WritesAllowed, Appendable, ImportBatch, NewRow, BoundaryOf;
    match action
    case ImportAction(batch, createdAt, offer, _, r) =>
      if r.Ok? { ImportBatchSound(s.db, batch, createdAt); }
    case PlainImportAction(batch, createdAt, offer, r) =>
      if r.Ok? { ImportBatchSound(s.db, batch, createdAt); }
    case _ =>
  }

  /** Along every run, whichever processes import, the mark of an upstream never goes down and
      never changes body at one version. */
  lemma {:induction false} HighWaterMonotone(run: seq<System>, interval: real, steps: seq<Step>, i: nat, j: nat)
    requires IsRun(run, interval, steps) && i <= j < |run| && Inv(run[i])
    ensures NotLowered(run[i].db.highWater, run[j].db.highWater)
    decreases j - i
  {
    hide Acts, Attested, Sound;
    if i < j {
      HighWaterMonotone(run, interval, steps, i, j - 1);
      RunKeeps(run, interval, steps, i, j - 1);
      var s, step, s' := run[j - 1], steps[j - 1], run[j];
      assert Next(s, interval, step, s');
      if !step.action.EndPassAction? {
        ActsNotLowered(StoreState(s.db, s.processes[step.process]), interval, step.now, step.action,
                       StoreState(s'.db, s'.processes[step.process]));
      }
    }
  }

  /** What a committed import says about its offer: it was not a different body at the stored
      version, override or not; only an override lets an older one in, and then the mark stays. */
  lemma CommittedOffer(s: StoreState, interval: real, now: real, batch: Batch, createdAt: Timestamp,
                       offer: HighWater, acceptOlder: bool, s': StoreState, r: Result<ImportResult, StoreError>)
    requires Sound(s.db) && ImportStep(s, interval, now, batch, createdAt, offer, acceptOlder, s', r)
    ensures r.Err? ==> s'.db == s.db
    ensures r.Ok? && offer.keyId in s.db.highWater ==>
              var mark := s.db.highWater[offer.keyId];
              && (offer.version == mark.version ==> SameBoundary(offer, mark) && r.value.outcome == Noop)
              && (offer.version < mark.version <==> r.value.outcome == AcceptedOlder)
              && (r.value.outcome == AcceptedOlder ==> acceptOlder)
              && (r.value.outcome != AdvancedTo ==> s'.db.highWater == s.db.highWater)
              && (r.value.outcome == AdvancedTo ==> s'.db.highWater == s.db.highWater[offer.keyId := offer])
  {
    hide Sound, Merkle.Fits, WritesAllowed, ImportBatch;
    if r.Ok? { ImportBatchSound(s.db, batch, createdAt); }
  }

  // ---------------------------------------------------------------- at most once

  /** A submission action under the given auditor and key. */
  predicate Under(action: Action, key: (string, string)) {
    action.SubmitAction? && (action.sub.auditor, action.sub.key) == key
  }

  /** A first submission leaves its key remembered, with its response, until its deadline. */
  lemma FirstSubmission(s: StoreState, interval: real, now: real, sub: Submission, s': StoreState, response: Response)
    requires IdempotentStep(s, interval, now, sub, s', Ok((response, false)))
    ensures var key := (sub.auditor, sub.key);
            && key in s'.db.idempotency
            && s'.db.idempotency[key]
               == IdempotencyRow(sub.bodySha256, Some(response), response.seqNo, sub.time + sub.ttl)
            && |s'.db.log| == |s.db.log| + 1 && response.seqNo == |s'.db.log|
  {
    hide Unexpired, KeyOk, Hex256, WritesAllowed, Appendable, NewRow, BoundaryOf, LevelsOf, Save;
  }

  lemma ActsRemember(s: StoreState, interval: real, now: real, action: Action, s': StoreState, key: (string, string))
    requires Sound(s.db) && !action.EndPassAction? && Acts(s, interval, now, action, s')
    requires key in s.db.idempotency
    requires action.SubmitAction? ==> action.sub.time < s.db.idempotency[key].expiresAt
    ensures key in s'.db.idempotency && s'.db.idempotency[key] == s.db.idempotency[key]
    ensures Under(action, key) ==>
              && s'.db.log == s.db.log
              && (action.submitted.Ok? ==>
                    && s.db.idempotency[key].response == Some(action.submitted.value.0) && action.submitted.value.1
                    && action.sub.bodySha256 == s.db.idempotency[key].bodySha256)
  {
    hide Sound, Gate, Merkle.Fits, SubmissionOk, WritesAllowed, Appendable, ImportBatch, NewRow, BoundaryOf,
         OfferDiagnostic, LevelsOf, Save;
    match action
    case ImportAction(batch, createdAt, offer, _, r) =>
      if r.Ok? { ImportBatchSound(s.db, batch, createdAt); }
    case PlainImportAction(batch, createdAt, offer, r) =>
      if r.Ok? { ImportBatchSound(s.db, batch, createdAt); }
    case _ =>
  }

  /** A submission under a remembered key adds nothing; if it returns, it returns the remembered
      response, and only for the remembered body digest. */
  ghost predicate Replays(row: IdempotencyRow, before: Db, action: Action, after: Db)
    requires action.SubmitAction?
  {
    && after.log == before.log
    && (action.submitted.Ok? ==>
          && action.submitted.value.1 && row.response == Some(action.submitted.value.0)
          && action.sub.bodySha256 == row.bodySha256)
  }

  lemma NextRemember(s: System, interval: real, step: Step, s': System, key: (string, string))
    requires Inv(s) && Next(s, interval, step, s') && key in s.db.idempotency
    requires step.action.SubmitAction? ==> step.action.sub.time < s.db.idempotency[key].expiresAt
    ensures key in s'.db.idempotency && s'.db.idempotency[key] == s.db.idempotency[key]
    ensures Under(step.action, key) ==> Replays(s.db.idempotency[key], s.db, step.action, s'.db)
  {
    hide Acts, Attested, Sound;
    if !step.action.EndPassAction? {
      ActsRemember(StoreState(s.db, s.processes[step.process]), interval, step.now, step.action,
                   StoreState(s'.db, s'.processes[step.process]), key);
    }
  }

  /** At most once: while no submission has used a time at or past the deadline of a remembered
      key, the key stays remembered and every submission under it, by any process, only replays. */
  lemma {:induction false} AtMostOnce(run: seq<System>, interval: real, steps: seq<Step>, i: nat, j: nat,
                                      key: (string, string))
    requires IsRun(run, interval, steps) && i <= j < |run| && Inv(run[i]) && key in run[i].db.idempotency
    requires forall k :: i <= k < j && steps[k].action.SubmitAction? ==>
               steps[k].action.sub.time < run[i].db.idempotency[key].expiresAt
    ensures key in run[j].db.idempotency && run[j].db.idempotency[key] == run[i].db.idempotency[key]
    ensures forall k :: i <= k < j && Under(steps[k].action, key) ==>
              Replays(run[i].db.idempotency[key], run[k].db, steps[k].action, run[k + 1].db)
    decreases j - i
  {
    hide Next, Sound, Replays, Inv, Grew;
    if i < j {
      AtMostOnce(run, interval, steps, i, j - 1, key);
      RunKeeps(run, interval, steps, i, j - 1);
      NextRemember(run[j - 1], interval, steps[j - 1], run[j], key);
    }
  }

  /** Keys are per auditor: a conflict or a replay always comes from the caller's own key. */
  lemma OwnKeyOnly(s: StoreState, interval: real, now: real, sub: Submission, s': StoreState,
                   r: Result<(Response, bool), StoreError>)
    requires IdempotentStep(s, interval, now, sub, s', r)
    requires r == Err(KeyConflict) || (r.Ok? && r.value.1)
    ensures (sub.auditor, sub.key) in s.db.idempotency && s.db.idempotency[(sub.auditor, sub.key)].expiresAt > sub.time
  {
  }

  // ---------------------------------------------------------------- paging and checkpoints along a run

  /** The states a chain of page requests reads, by their position in the run. */
  ghost predicate ReadsFrom(run: seq<System>, visits: seq<Paging.Visit>, earlyAt: seq<nat>, lateAt: seq<nat>) {
    && |visits| == |earlyAt| == |lateAt| > 0
    && forall i :: 0 <= i < |visits| ==>
         && earlyAt[0] <= earlyAt[i] < |run| && earlyAt[0] <= lateAt[i] < |run|
         && visits[i].early == run[earlyAt[i]].db && visits[i].late == run[lateAt[i]].db
  }

  /** Whatever the writers do between and during the requests, a complete chain of pages is the
      full answer at the boundary of its first page. */
  lemma PagingAlongRun(run: seq<System>, interval: real, steps: seq<Step>, visits: seq<Paging.Visit>,
                       earlyAt: seq<nat>, lateAt: seq<nat>, request: Paging.Request, pages: seq<Paging.Page>)
    requires IsRun(run, interval, steps) && Inv(run[0]) && ReadsFrom(run, visits, earlyAt, lateAt)
    requires Paging.IsChain(visits, request, pages) && request.limit >= 1 && pages[|pages| - 1].next.None?
    ensures Paging.Items(pages) == Paging.Full(visits[0].early.log, request)
    ensures forall i :: 0 <= i < |pages| ==> pages[i].boundary == pages[0].boundary
  {
    hide IsRun, Inv, Sound, Paging.IsChain, Paging.Full, Grew;
    var origin := visits[0].early;
    forall i | 0 <= i < |visits|
      ensures Paging.LaterVisit(origin, visits[i])
    {
      StatesAlongRun(run, interval, steps, earlyAt[0], earlyAt[i]);
      StatesAlongRun(run, interval, steps, earlyAt[0], lateAt[i]);
    }
    Paging.CompleteChain(visits, request, pages);
  }

  lemma StatesAlongRun(run: seq<System>, interval: real, steps: seq<Step>, i: nat, j: nat)
    requires IsRun(run, interval, steps) && Inv(run[0]) && i <= j < |run|
    ensures Sound(run[i].db) && Sound(run[j].db) && Grew(run[i].db, run[j].db)
  {
    hide IsRun, Sound, Grew;
    RunKeeps(run, interval, steps, 0, i);
    RunKeeps(run, interval, steps, i, j);
  }

  /** A checkpoint of any earlier state of the run passes the gate of any later one. */
  lemma CheckpointAlongRun(run: seq<System>, interval: real, steps: seq<Step>, i: nat, j: nat)
    requires IsRun(run, interval, steps) && Inv(run[0]) && i <= j < |run|
    ensures run[i].db.createdAt.Some?
    ensures Gate(run[j].db, ViewOf(BoundaryAt(run[i].db, |run[i].db.log|))) == Ok(None)
  {
    hide IsRun, Sound, Grew, Gate, BoundaryAt, Inv;
    StatesAlongRun(run, interval, steps, i, j);
    SoundParts(run[i].db);
    EarlierCheckpointAccepted(run[i].db, run[j].db);
  }
}
