/**
 Whole runs: any number of store processes on one database file, every interleaving of
 their write transactions, verification passes and startup gates, with failures allowed in
 any transaction. Each step is what the corresponding store method promises.
 */
module Runs {
  import opened Outcomes
  import opened Records
  import opened Ledger
  import opened HealthState
  import opened Transactions
  import opened Boundaries
  import opened Verification
  import Merkle

  /** A pass reads one snapshot from start to end, whatever is committed meanwhile. */
  datatype Pass = Pass(process: nat, snapshot: Db)

  datatype System = System(db: Db, processes: seq<Health>, passes: seq<Pass>)

  datatype Action =
    | AppendAction(record: Record, createdAt: Timestamp, appended: Result<LogEntry, StoreError>)
    | SubmitAction(sub: Submission, submitted: Result<(Response, bool), StoreError>)
    | ImportAction(batch: Batch, createdAt: Timestamp, offer: HighWater, acceptOlder: bool,
                   imported: Result<ImportResult, StoreError>)
    | PlainImportAction(batch: Batch, createdAt: Timestamp, optionalOffer: Option<HighWater>,
                        count: Result<nat, StoreError>)
    | GateAction(checkpoint: CheckpointView)
    | RefuseAction(code: string)
    | BeginPassAction
    | EndPassAction(pass: nat, at: Timestamp, raised: bool)

  datatype Step = Step(process: nat, now: real, action: Action)

  /** What one process's action does to the file and to that process. */
  ghost predicate Acts(s: StoreState, interval: real, now: real, action: Action, s': StoreState)
    requires !action.EndPassAction?
  {
    match action
    case AppendAction(record, createdAt, r) => AppendStep(s, interval, now, record, createdAt, s', r)
    case SubmitAction(sub, r) => IdempotentStep(s, interval, now, sub, s', r)
    case ImportAction(batch, createdAt, offer, older, r) =>
      ImportStep(s, interval, now, batch, createdAt, offer, older, s', r)
    case PlainImportAction(batch, createdAt, offer, r) =>
      PlainImportStep(s, interval, now, batch, createdAt, offer, s', r)
    case GateAction(checkpoint) => s' == s.(health := AfterGate(s, checkpoint, now))
    case RefuseAction(code) => s' == s.(health := RefusedCheckpoint(s.health, code, now))
    case BeginPassAction => s' == s
  }

  /** The process that ends its pass publishes what the snapshot showed; a walk that raised is a
      failed pass whatever the snapshot holds. */
  ghost predicate EndsPass(s: System, p: nat, now: real, k: nat, at: Timestamp, raised: bool, s': System)
    requires p < |s.processes|
  {
    && k < |s.passes| && s.passes[k].process == p
    && s'.db == s.db
    && var clean := !raised && Attested(s.passes[k].snapshot);
    && s'.processes == s.processes[p := Published(StoreState(s.db, s.processes[p]), clean, at, now)]
    && s'.passes == s.passes[..k] + s.passes[k + 1..]
  }

  ghost predicate Next(s: System, interval: real, step: Step, s': System) {
    var p := step.process;
    && p < |s.processes|
    && match step.action
       case EndPassAction(k, at, raised) => EndsPass(s, p, step.now, k, at, raised, s')
       case action =>
         && |s'.processes| == |s.processes|
         && s'.processes == s.processes[p := s'.processes[p]]
         && Acts(StoreState(s.db, s.processes[p]), interval, step.now, action, StoreState(s'.db, s'.processes[p]))
         && s'.passes == if action.BeginPassAction? then s.passes + [Pass(p, s.db)] else s.passes
  }

  ghost predicate IsRun(run: seq<System>, interval: real, steps: seq<Step>) {
    |run| == |steps| + 1 && forall i :: 0 <= i < |steps| ==> Next(run[i], interval, steps[i], run[i + 1])
  }

  // ---------------------------------------------------------------- the invariant of every run

  /** The cached head names a committed prefix, and a latched process is not ready. */
  ghost predicate ProcessOk(db: Db, h: Health) {
    && Consistent(h)
    && 0 <= h.verifiedLogSize <= |db.log|
    && h.verifiedHead == HeadHash(db.log[..h.verifiedLogSize])
  }

  ghost predicate PassOk(db: Db, pass: Pass) { Sound(pass.snapshot) && Grew(pass.snapshot, db) }

  ghost predicate Inv(s: System) {
    && Sound(s.db)
    && (forall p :: 0 <= p < |s.processes| ==> ProcessOk(s.db, s.processes[p]))
    && (forall k :: 0 <= k < |s.passes| ==> PassOk(s.db, s.passes[k]))
  }

  lemma ProcessOkLater(db: Db, db': Db, h: Health)
    requires ProcessOk(db, h) && Grew(db, db')
    ensures ProcessOk(db', h)
  {
    assert db'.log[..h.verifiedLogSize] == db.log[..h.verifiedLogSize];
  }

  lemma AdvancedOk(db: Db, h: Health)
    requires Consistent(h)
    ensures ProcessOk(db, Advanced(h, db.log))
  {
    assert db.log[..|db.log|] == db.log;
  }

  lemma RefusedKeeps(s: StoreState, now: real, e: StoreError, adding: nat, s': StoreState)
    requires Sound(s.db) && ProcessOk(s.db, s.health) && Refused(s, now, e, adding, s')
    ensures Sound(s'.db) && Grew(s.db, s'.db) && ProcessOk(s'.db, s'.health)
  {
    hide Sound;
  }

  lemma AppendKeeps(s: StoreState, interval: real, now: real, record: Record, createdAt: Timestamp,
                    s': StoreState, r: Result<LogEntry, StoreError>)
    requires Sound(s.db) && ProcessOk(s.db, s.health) && AppendStep(s, interval, now, record, createdAt, s', r)
    ensures Sound(s'.db) && Grew(s.db, s'.db) && ProcessOk(s'.db, s'.health)
  {
    hide Sound, ProcessOk, Refused, PutEntry, WritesAllowed, Grew, Appendable;
    match r
    case Err(e) => RefusedKeeps(s, now, e, 1, s');
    case Ok(_) =>
      PutEntrySound(s.db, record, createdAt);
      ConsistentOf(s.db, s.health);
      AdvancedOk(s'.db, s.health);
  }

  lemma ConsistentOf(db: Db, h: Health)
    requires ProcessOk(db, h)
    ensures Consistent(h)
  {
  }

  lemma SubmitKeeps(s: StoreState, interval: real, now: real, sub: Submission,
                    s': StoreState, r: Result<(Response, bool), StoreError>)
    requires Sound(s.db) && ProcessOk(s.db, s.health) && IdempotentStep(s, interval, now, sub, s', r)
    ensures Sound(s'.db) && Grew(s.db, s'.db) && ProcessOk(s'.db, s'.health)
  {
    hide Sound, Refused, Submitted, WritesAllowed, Appendable, SubmissionOk, Unexpired;
    match r
    case Err(e) => RefusedKeeps(s, now, e, 1, s');
    case Ok((_, replayed)) =>
      if replayed {
        PurgeSound(s.db, sub.time);
      } else {
        SubmittedSound(s.db, sub);
        AdvancedOk(s'.db, s.health);
      }
  }

  lemma RaisedSound(db: Db, offered: HighWater, outcome: ImportOutcome)
    requires Sound(db)
    ensures Sound(Raised(db, offered, outcome)) && Grew(db, Raised(db, offered, outcome))
  {
    hide ChainOk, BoundariesOk, IdempotencyOk, ImportRefOk;
  }

  lemma ImportedKeeps(s: StoreState, batch: Batch, createdAt: Timestamp, s': StoreState)
    requires Sound(s.db) && ProcessOk(s.db, s.health)
    requires var added := ImportBatch(s.db, batch, createdAt);
             added.Some? && Merkle.Fits(|added.value.log|) && Sound(s'.db) && Grew(added.value, s'.db)
             && |s'.db.log| == |added.value.log|
    requires s'.health == AdvancedIfAny(s.health, s.db, s'.db)
    ensures Grew(s.db, s'.db) && ProcessOk(s'.db, s'.health)
  {
    hide Sound, ImportBatch;
    ImportBatchSound(s.db, batch, createdAt);
    AdvancedOk(s'.db, s.health);
    ProcessOkLater(s.db, s'.db, s.health);
  }

  lemma ImportKeeps(s: StoreState, interval: real, now: real, batch: Batch, createdAt: Timestamp,
                    offered: HighWater, acceptOlder: bool, s': StoreState, r: Result<ImportResult, StoreError>)
    requires Sound(s.db) && ProcessOk(s.db, s.health)
    requires ImportStep(s, interval, now, batch, createdAt, offered, acceptOlder, s', r)
    ensures Sound(s'.db) && Grew(s.db, s'.db) && ProcessOk(s'.db, s'.health)
  {
    hide Sound, Refused, ImportBatch, ProcessOk, WritesAllowed, Decide, Grew, AdvancedIfAny;
    match r
    case Err(e) => RefusedKeeps(s, now, e, |batch|, s');
    case Ok(result) =>
      ImportBatchSound(s.db, batch, createdAt);
      RaisedSound(ImportBatch(s.db, batch, createdAt).value, offered, result.outcome);
      ImportedKeeps(s, batch, createdAt, s');
  }

  lemma PlainImportKeeps(s: StoreState, interval: real, now: real, batch: Batch, createdAt: Timestamp,
                         offered: Option<HighWater>, s': StoreState, r: Result<nat, StoreError>)
    requires Sound(s.db) && ProcessOk(s.db, s.health)
    requires PlainImportStep(s, interval, now, batch, createdAt, offered, s', r)
    ensures Sound(s'.db) && Grew(s.db, s'.db) && ProcessOk(s'.db, s'.health)
  {
    hide Sound, Refused, ImportBatch, ProcessOk, WritesAllowed, OfferDiagnostic, AdvancedIfAny;
    match r
    case Err(e) => RefusedKeeps(s, now, e, |batch|, s');
    case Ok(_) =>
      ImportBatchSound(s.db, batch, createdAt);
      if offered.Some? {
        RaisedSound(ImportBatch(s.db, batch, createdAt).value, offered.value, AdvancedTo);
      }
      ImportedKeeps(s, batch, createdAt, s');
  }

  /** Every action keeps the file sound, only ever extends the log, and keeps its process honest. */
  lemma ActsKeep(s: StoreState, interval: real, now: real, action: Action, s': StoreState)
    requires Sound(s.db) && ProcessOk(s.db, s.health) && !action.EndPassAction?
    requires Acts(s, interval, now, action, s')
    ensures Sound(s'.db) && Grew(s.db, s'.db) && ProcessOk(s'.db, s'.health)
  {
    hide Sound, AppendStep, IdempotentStep, ImportStep, PlainImportStep, Gate;
    match action
    case AppendAction(record, createdAt, r) => AppendKeeps(s, interval, now, record, createdAt, s', r);
    case SubmitAction(sub, r) => SubmitKeeps(s, interval, now, sub, s', r);
    case ImportAction(batch, createdAt, offer, older, r) =>
      ImportKeeps(s, interval, now, batch, createdAt, offer, older, s', r);
    case PlainImportAction(batch, createdAt, offer, r) =>
      PlainImportKeeps(s, interval, now, batch, createdAt, offer, s', r);
    case GateAction(_) =>
    case RefuseAction(_) =>
    case BeginPassAction =>
  }

  /** Publication names the live head. */
  lemma PublishedOk(db: Db, h: Health, clean: bool, at: Timestamp, now: real)
    requires Sound(db) && ProcessOk(db, h)
    ensures ProcessOk(db, Published(StoreState(db, h), clean, at, now))
    ensures !h.integrityFailed ==>
              var h' := Published(StoreState(db, h), clean, at, now);
              && h'.integrityFailed == !clean && h'.ready == clean && h'.lastRefresh == now
              && (clean ==> PublishedLive(db, h', at, now))
  {
    hide Sound, ReadBoundary;
    SoundParts(db);
    ReadBoundaryExact(db, 0);
    assert db.log[..|db.log|] == db.log;
  }

  lemma NextKeeps(s: System, interval: real, step: Step, s': System)
    requires Inv(s) && Next(s, interval, step, s')
    ensures Inv(s') && Grew(s.db, s'.db)
  {
    hide Sound, ProcessOk, Acts, Published, Attested, Grew;
    var p := step.process;
    if step.action.EndPassAction? {
      var clean := !step.action.raised && Attested(s.passes[step.action.pass].snapshot);
      PublishedOk(s.db, s.processes[p], clean, step.action.at, step.now);
      assert Grew(s.db, s'.db) by { GrewRefl(s.db); }
    } else {
      ActsKeep(StoreState(s.db, s.processes[p]), interval, step.now, step.action, StoreState(s'.db, s'.processes[p]));
      forall q | 0 <= q < |s'.processes|
        ensures ProcessOk(s'.db, s'.processes[q])
      {
        if q != p { ProcessOkLater(s.db, s'.db, s.processes[q]); }
      }
      forall k | 0 <= k < |s'.passes|
        ensures PassOk(s'.db, s'.passes[k])
      {
        if k < |s.passes| {
          assert PassOk(s.db, s.passes[k]);
          GrewTrans(s.passes[k].snapshot, s.db, s'.db);
        }
      }
    }
  }

  lemma GrewRefl(db: Db)
    ensures Grew(db, db)
  {
  }

  lemma GrewTrans(a: Db, b: Db, c: Db)
    requires Grew(a, b) && Grew(b, c)
    ensures Grew(a, c)
  {
  }

  /** Every state of every run satisfies the invariant, and the log of an earlier state is a
      prefix of the log of a later one. */
  lemma {:induction false} RunKeeps(run: seq<System>, interval: real, steps: seq<Step>, i: nat, j: nat)
    requires IsRun(run, interval, steps) && i <= j < |run| && Inv(run[i])
    ensures Inv(run[j]) && Grew(run[i].db, run[j].db)
    decreases j - i
  {
    hide Inv, Next, Grew;
    if i == j {
      GrewRefl(run[i].db);
    } else {
      RunKeeps(run, interval, steps, i, j - 1);
      NextKeeps(run[j - 1], interval, steps[j - 1], run[j]);
      GrewTrans(run[i].db, run[j - 1].db, run[j].db);
    }
  }
}
