/**
 The store process: one connection to the database file plus the health fields it keeps in
 memory. A write operation works on the open transaction's view of the tables and either
 commits it whole or leaves the file as it was. `statements` is the number of further
 database statements that will succeed before one raises (disk error, lock timeout,
 deadline); every contract holds for every value of it, so a failure may hit any statement.
 */
module StoreProcess {
  import opened Outcomes
  import opened Records
  import opened Ledger
  import opened HealthState
  import opened Transactions
  import opened Boundaries
  import Merkle
  import Frontier
  import Verification

  type Interval = x: real | x > 0.0 witness 1.0

  /** The cache rows that are present are right, and the log they must agree with is numbered. */
  ghost predicate Repairable(db: Db) {
    && Numbered(db.log) && Merkle.Fits(|db.log|)
    && forall k :: k in db.boundaries ==> 1 <= k <= |db.log| && db.boundaries[k] == BoundaryOf(db.log[..k])
  }

  /** What other processes leave in the file before the later reads of one attempt of the repair. */
  datatype Meanwhile = Meanwhile(first: Db, second: Db, third: Db)

  const LOG_CHANGED := Corrupt("log changed during startup boundary verification")

  ghost predicate FrontierExact(db: Db) { Load(db.frontier) == Ok(LevelsOf(db.log)) }

  /** What another process may do to the file: extend the log with its frontier, and add right
      rows. It never rewrites or drops what is there. */
  ghost predicate Moved(a: Db, b: Db) {
    && a.log <= b.log
    && (forall k :: k in a.boundaries ==> k in b.boundaries && b.boundaries[k] == a.boundaries[k])
    && (Repairable(a) ==> Repairable(b))
    && (a.log != b.log || FrontierExact(a) ==> FrontierExact(b))
  }

  ghost predicate MovedThrough(db: Db, m: Meanwhile) {
    Moved(db, m.first) && Moved(m.first, m.second) && Moved(m.second, m.third)
  }

  ghost predicate Steady(db: Db, rounds: seq<Meanwhile>)
    decreases |rounds|
  {
    rounds == [] || (MovedThrough(db, rounds[0]) && Steady(rounds[0].third, rounds[1..]))
  }

  ghost function Rest(rounds: seq<Meanwhile>, attempt: nat): seq<Meanwhile> {
    if attempt < |rounds| then rounds[attempt..] else []
  }

  /** The file after everything the other processes do. */
  ghost function Latest(db: Db, rounds: seq<Meanwhile>): Db {
    if rounds == [] then db else rounds[|rounds| - 1].third
  }

  lemma MovedRefl(db: Db)
    ensures Moved(db, db)
  {
  }

  lemma MovedTrans(a: Db, b: Db, c: Db)
    requires Moved(a, b) && Moved(b, c)
    ensures Moved(a, c)
  {
    hide Repairable, FrontierExact;
  }

  /** Every committed step of a run is such a move: later sound states of one history. */
  lemma SoundMoves(a: Db, b: Db)
    requires Sound(a) && Sound(b) && Grew(a, b)
    ensures Moved(a, b)
  {
    hide Load, Save, LevelsOf, BoundaryOf, Merkle.Fits, LedgersOk, RowOk;
    LoadOfExact(b.log);
    forall i | 0 <= i < |b.log|
      ensures b.log[i].seqNo == i + 1
    {
      RowNumber(b.log, i);
    }
    forall k | k in a.boundaries
      ensures k in b.boundaries && b.boundaries[k] == a.boundaries[k]
    {
      assert b.log[..k] == a.log[..k];
    }
  }

  lemma RowNumber(log: seq<Row>, i: nat)
    requires ChainOk(log) && i < |log|
    ensures log[i].seqNo == i + 1
  {
    assert RowOk(log, i);
  }

  lemma MovedAlong(db: Db, m: Meanwhile)
    requires MovedThrough(db, m)
    ensures Moved(db, db) && Moved(db, m.second) && Moved(db, m.third)
    ensures Moved(m.first, m.third) && Moved(m.third, m.third)
  {
    hide Moved;
    MovedRefl(db);
    MovedRefl(m.third);
    MovedTrans(db, m.first, m.second);
    MovedTrans(db, m.second, m.third);
    MovedTrans(m.first, m.second, m.third);
  }

  lemma RepairableLog(db: Db)
    ensures Repairable(db) ==> Numbered(db.log) && Merkle.Fits(|db.log|)
  {
  }

  lemma ExpectedLength(log: seq<Row>, expected: seq<BoundaryRow>)
    requires Verification.IsExpected(log, expected)
    ensures |expected| == |log|
  {
  }

  /** A row beyond the log that was read means that the log has moved on. */
  lemma OutOfRange(a: Db, b: Db, c: Db)
    requires Moved(a, b) && Moved(b, c) && Numbered(a.log)
    requires exists k :: k in b.boundaries && !(1 <= k <= |a.log|)
    ensures Repairable(a) ==> LastSeq(c.log) != |a.log|
    ensures LastSeq(c.log) != |a.log| ==> |c.log| > |a.log|
  {
    hide FrontierExact, Merkle.Fits, BoundaryOf;
    if Repairable(a) {
      var k :| k in b.boundaries && !(1 <= k <= |a.log|);
      assert 1 <= k <= |b.log|;
    }
    if |c.log| == |a.log| { assert c.log == a.log; }
  }

  /** Rows within the log that was read agree with it exactly when they were right all along. */
  lemma RowsAgree(a: Db, b: Db, expected: seq<BoundaryRow>)
    requires Moved(a, b) && Numbered(a.log) && Merkle.Fits(|a.log|) && Verification.IsExpected(a.log, expected)
    requires forall k :: k in b.boundaries ==> 1 <= k <= |a.log|
    ensures (forall k :: k in b.boundaries ==> 1 <= k <= |expected| && b.boundaries[k] == expected[k - 1])
            <==> Repairable(a)
  {
    hide BoundaryOf, Merkle.Fits, FrontierExact;
    assert forall k :: 1 <= k <= |expected| ==> expected[k - 1] == BoundaryOf(a.log[..k]);
    if Repairable(a) {
      forall k | k in b.boundaries
        ensures b.boundaries[k] == expected[k - 1]
      {
        assert b.log[..k] == a.log[..k];
      }
    }
  }

  lemma LevelsLength(a: seq<Row>, b: seq<Row>)
    requires LevelsOf(a) == LevelsOf(b)
    ensures |a| == |b|
  {
    hide Merkle.Above, Hashes;
    assert forall s: seq<Digest> :: |s| > 0 ==>
      Merkle.FrontierOf(PairHash, s) != [] && Merkle.FrontierOf(PairHash, s)[0].length == |s|;
    Frontier.FrontierOfNothing(PairHash);
  }

  /** Complete rows, and a frontier that is exact for the log that was read: then nothing moved. */
  lemma NothingToRepair(a: Db, b: Db, c: Db, expected: seq<BoundaryRow>)
    requires Moved(a, b) && Moved(b, c) && Moved(a, c) && Repairable(a) && Verification.IsExpected(a.log, expected)
    requires forall k :: 1 <= k <= |expected| ==> k in b.boundaries
    requires Load(c.frontier) == Ok(LevelsOf(a.log))
    ensures CacheOk(c)
  {
    hide LevelsOf, Load, BoundaryOf, Merkle.Fits, CacheOk;
    ExpectedLength(a.log, expected);
    if a.log != c.log { LevelsLength(a.log, c.log); }
    assert a.log == c.log;
    forall k | 1 <= k <= |expected|
      ensures k in c.boundaries
    {
      assert k in b.boundaries;
    }
    AgreeIff(c, expected);
    RepairedCache(c, expected, c);
  }

  /** What a write transaction finds of the log and the rows that were read. */
  lemma StillThere(a: Db, b: Db, d: Db)
    requires Moved(a, b) && Moved(a, d) && Moved(b, d) && Numbered(a.log)
    ensures b.boundaries.Keys <= d.boundaries.Keys
    ensures LastSeq(d.log) != |a.log| ==> |d.log| > |a.log|
    ensures Repairable(a) ==> Repairable(d) && (LastSeq(d.log) == |a.log| ==> d.log == a.log)
  {
    hide FrontierExact, Merkle.Fits, BoundaryOf;
    forall k | k in b.boundaries.Keys
      ensures k in d.boundaries.Keys
    {
    }
    if |d.log| == |a.log| { assert d.log == a.log; }
  }

  lemma {:induction false} SteadyGrows(db: Db, rounds: seq<Meanwhile>)
    requires Steady(db, rounds)
    ensures |db.log| <= |Latest(db, rounds).log|
    decreases |rounds|
  {
    hide Repairable, FrontierExact;
    if rounds != [] { SteadyGrows(rounds[0].third, rounds[1..]); }
  }

  lemma MovedLonger(a: Db, b: Db)
    requires Moved(a, b)
    ensures |a.log| <= |b.log| && (Repairable(a) ==> Repairable(b))
  {
  }

  lemma NextAttempt(origin: Db, db: Db, rounds: seq<Meanwhile>, attempt: nat)
    requires Steady(db, Rest(rounds, attempt))
    ensures attempt < |rounds| ==> MovedThrough(db, rounds[attempt])
    ensures MovedThrough(db, Meanwhile(db, db, db))
  {
    hide Moved;
    MovedRefl(db);
  }

  lemma SteadyAlone(db: Db)
    ensures Steady(db, [])
  {
  }

  lemma FirstAttempt(db: Db, rounds: seq<Meanwhile>)
    requires Steady(db, rounds)
    ensures Moved(db, db) && Steady(db, Rest(rounds, 0)) && |db.log| <= |Latest(db, rounds).log|
  {
    hide Moved;
    MovedRefl(db);
    SteadyGrows(db, rounds);
    assert rounds[0..] == rounds;
  }

  /** From wherever an attempt left the file, the later rounds go on. */
  lemma AfterAttempt(origin: Db, start: Db, left: Db, rounds: seq<Meanwhile>, attempt: nat)
    requires Moved(origin, start) && Steady(start, Rest(rounds, attempt)) && Moved(start, left)
    requires attempt < |rounds| ==> Moved(left, rounds[attempt].third)
    requires attempt >= |rounds| ==> left == start
    requires |start.log| <= |Latest(origin, rounds).log|
    ensures Moved(origin, left) && Steady(left, Rest(rounds, attempt + 1))
    ensures |left.log| <= |Latest(origin, rounds).log| && (Repairable(start) ==> Repairable(left))
  {
    hide Moved, Repairable;
    MovedTrans(origin, start, left);
    MovedLonger(start, left);
    if attempt < |rounds| { MovedLonger(left, rounds[attempt].third); }
    if attempt + 1 < |rounds| {
      var rest := Rest(rounds, attempt);
      assert rest[0] == rounds[attempt] && rest[1..] == rounds[attempt + 1..];
      var next := rounds[attempt + 1..];
      assert MovedThrough(rounds[attempt].third, next[0]);
      MovedTrans(left, rounds[attempt].third, next[0].first);
      SteadyGrows(rounds[attempt].third, next);
    }
  }

  /** What startup demands of a file: everything but the caches attested, and caches to repair. */
  ghost predicate Startable(db: Db) {
    && db.createdAt.Some? && db.createdAt.value.Utc?
    && Verification.LogAttested(db.log) && Verification.LedgersAttested(db) && Repairable(db)
  }

  ghost predicate Numbered(log: seq<Row>) {
    forall i :: 0 <= i < |log| ==> log[i].seqNo == i + 1
  }

  /** The number AUTOINCREMENT gives the next row. */
  function NextSeq(db: Db): int {
    1 + if db.sequence >= LastSeq(db.log) then db.sequence else LastSeq(db.log)
  }

  function SecondHash(log: seq<Row>, previous: int): Option<Digest> {
    match FindRow(log, previous - 1)
    case None => None
    case Some(row) => Some(row.entryHash)
  }

  function BoundaryAnchor(db: Db, size: int): Option<(Digest, Digest)> {
    if size in db.boundaries then Some((db.boundaries[size].head, db.boundaries[size].merkleRoot)) else None
  }

  /** The stored frontier loads and agrees with the head, the boundary row and itself. */
  predicate AnchorsHold(db: Db) {
    var loaded := Load(db.frontier);
    var previous := LastSeq(db.log);
    loaded.Ok? && Frontier.AnchorErrorOf(PairHash, previous, HeadHash(db.log), SecondHash(db.log, previous),
                                         BoundaryAnchor(db, previous), loaded.value).None?
  }

  /** In a sound database everything an append reads is what the plain definitions give. */
  lemma AppendReads(db: Db)
    requires Sound(db)
    ensures LastSeq(db.log) == |db.log| && NextSeq(db) == |db.log| + 1
    ensures Load(db.frontier) == Ok(LevelsOf(db.log))
    ensures AnchorsHold(db)
    ensures |db.log| + 1 !in db.boundaries
  {
    hide Frontier.LinkError, Merkle.Root, Merkle.FrontierOf, SaveFrom, LoadFrom, LedgersOk;
    var n, hashes := |db.log|, Hashes(db.log);
    Frontier.AnchorsAcceptExact(PairHash, Genesis, hashes);
    LoadSaveFrom(LevelsOf(db.log), 0);
    FindRowInChain(db.log, n - 1);
    if n > 0 {
      assert RowOk(db.log, n - 1);
      assert db.log[..n] == db.log;
    }
  }

  lemma AppendGrows(log: seq<Row>, row: Row)
    ensures Merkle.Append(PairHash, LevelsOf(log), row.entryHash)
         == if Merkle.Fits(|log| + 1)
            then Merkle.Grown(LevelsOf(log + [row]), RootOf(log + [row]), Merkle.Depth(|log| + 1))
            else Merkle.Broken(Merkle.TooDeep)
  {
    hide Merkle.Root, Merkle.FrontierOf, Merkle.Append, Merkle.Depth, Merkle.Climb, Merkle.CeilHalf, Merkle.NextLevel;
    hide Hashes, Merkle.Fits;
    Merkle.AppendExact(PairHash, Genesis, Hashes(log), row.entryHash);
    HashesOfLonger(log, row);
  }

  /** The log and its boundary rows are right; nothing is said of the stored frontier. */
  ghost predicate LogTrusted(db: Db) {
    db.sequence == |db.log| && ChainOk(db.log) && BoundariesOk(db.log, db.boundaries)
  }

  /** The stored top row will mislead the next append. */
  ghost predicate Misled(db: Db) {
    Load(db.frontier).Ok? && Frontier.Misleading(|db.log|, Load(db.frontier).value)
  }

  /** How many pair hashes deep the right edge of a digest goes. */
  function Spine(d: Digest): nat { if d.Node? then 1 + Spine(d.right) else 0 }

  /** Every link adds one pair hash, so the top node counts the levels below it. */
  lemma {:induction false} LinksCount(f: seq<Merkle.Level<Digest>>)
    requires |f| >= 1 && Frontier.LinkError(PairHash, f).None?
    ensures Spine(f[|f| - 1].tail.last) == |f| - 1 + Spine(f[0].tail.last)
    decreases |f|
  {
    hide Merkle.CeilHalf;
    if |f| > 1 {
      LinksCount(f[1..]);
      assert f[1].tail.last.Node? && f[1].tail.last.right == f[0].tail.last;
    }
  }

  /** So accepted anchors pin the number of levels. */
  lemma LevelsPinned(s: seq<Digest>, f: seq<Merkle.Level<Digest>>)
    requires Frontier.Anchored(PairHash, Genesis, s, f)
    ensures |f| == |Merkle.FrontierOf(PairHash, s)|
  {
    hide Merkle.Root, Merkle.FrontierOf, Frontier.LinkError;
    if s == [] {
      Frontier.FrontierOfNothing(PairHash);
    } else {
      Frontier.LinksOfExact(PairHash, Genesis, s);
      Merkle.FrontierStep(PairHash, s);
      LinksCount(f);
      LinksCount(Merkle.FrontierOf(PairHash, s));
    }
  }

  /** On a right log, held anchors are the anchors of its hashes. */
  lemma AnchorsOfLog(db: Db)
    requires LogTrusted(db) && AnchorsHold(db)
    ensures Frontier.Loaded(Load(db.frontier).value)
    ensures Frontier.Anchored(PairHash, Genesis, Hashes(db.log), Load(db.frontier).value)
    ensures LastSeq(db.log) == |db.log| && NextSeq(db) == |db.log| + 1
  {
    hide Merkle.Root, Merkle.FrontierOf, LoadFrom, SaveFrom, FindRow, Hashes;
    hide Frontier.LinkError, Frontier.AnchorErrorOf;
    var n := |db.log|;
    SaveLoadFrom(db.frontier, 0);
    FindRowInChain(db.log, n - 1);
    if n > 0 {
      assert RowOk(db.log, n - 1);
      assert db.log[..n] == db.log;
    }
  }

  /** On a right log, once the anchors hold, growing the stored frontier gives the plain root
      exactly when its top row is not misleading, and then a frontier that serves on. */
  lemma TamperedAppend(db: Db, row: Row)
    requires LogTrusted(db) && AnchorsHold(db)
    ensures LastSeq(db.log) == |db.log| && NextSeq(db) == |db.log| + 1
    ensures var g := Merkle.Append(PairHash, Load(db.frontier).value, row.entryHash);
            g.Grown? ==>
              && (g.root == RootOf(db.log + [row]) <==> !Misled(db))
              && (!Misled(db) ==> Frontier.Agrees(g.levels, LevelsOf(db.log + [row])))
  {
    hide Merkle.Root, Merkle.FrontierOf, Merkle.Append, Load, Hashes, Frontier.Misleading, LogTrusted;
    hide Frontier.Agrees, Frontier.AnchorErrorOf;
    AnchorsOfLog(db);
    LevelsPinned(Hashes(db.log), Load(db.frontier).value);
    HashesOfLonger(db.log, row);
    Frontier.AnchorsExact(PairHash, Genesis, Hashes(db.log), Load(db.frontier).value, row.entryHash);
  }

  /** A database in good order, but for a top frontier row that claims two nodes. */
  function Tampered(db: Db, x: Digest): Db
    requires LevelsOf(db.log) != []
  {
    db.(frontier := Save(Frontier.Topped(LevelsOf(db.log), x)))
  }

  /** From every sound database whose log size is a power of two: one stored row changed in this
      way passes the anchors, the next append succeeds, and its root is wrong. */
  lemma TamperedFrontier(db: Db, x: Digest, row: Row)
    requires Sound(db) && |db.log| >= 2 && |db.log| == Merkle.Pow2(Merkle.Depth(|db.log|))
    requires Merkle.Fits(|db.log| + 1) && x != RootOf(db.log)
    ensures LevelsOf(db.log) != []
    ensures var bad := Tampered(db, x);
            && LogTrusted(bad) && AnchorsHold(bad) && Misled(bad)
            && var g := Merkle.Append(PairHash, Load(bad.frontier).value, row.entryHash);
            g.Grown? && g.root != RootOf(db.log + [row])
  {
    hide Merkle.Root, Merkle.FrontierOf, Merkle.Append, Merkle.Depth, Merkle.Pow2, Merkle.Fits, LoadFrom, SaveFrom;
    hide Hashes, Frontier.LinkError, Frontier.AnchorErrorOf, Frontier.Misleading, Frontier.Topped, LedgersOk, FindRow;
    var n, s := |db.log|, Hashes(db.log);
    Frontier.LengthsAreNotAnchored(PairHash, Genesis, s, x, row.entryHash);
    LoadSaveFrom(Frontier.Topped(LevelsOf(db.log), x), 0);
    HashesOfLonger(db.log, row);
    FindRowInChain(db.log, n - 1);
    assert RowOk(db.log, n - 1);
    assert db.log[..n] == db.log;
  }

  /** What adding an entry to a sound database comes to: the plain result, or an error that
      is corruption only beyond capacity; with `cost` statements to spend it succeeds. */
  ghost predicate Appended(before: Db, record: Record, createdAt: Timestamp, cost: nat, available: nat,
                           after: Db, left: nat, r: Result<LogEntry, StoreError>)
    requires Appendable(record)
  {
    && (r.Ok? ==> Merkle.Fits(|before.log| + 1) && after == PutEntry(before, record, createdAt)
                  && r.value == EntryOf(before.log, record))
    && (r.Err? && r.error.Corrupt? ==> !Merkle.Fits(|before.log| + 1))
    && (Merkle.Fits(|before.log| + 1) && available >= cost ==> r.Ok? && left == available - cost)
  }

  /** The row and the boundary row an entry adds are the plain ones. */
  ghost predicate RightEntry(before: Db, record: Record, createdAt: Timestamp, after: Db)
    requires Appendable(record)
  {
    var log := before.log + [NewRow(before.log, record, createdAt)];
    after.log == log && after.boundaries == before.boundaries[|log| := BoundaryOf(log)]
  }

  /** The tables with one entry written. */
  function Written(db: Db, row: Row, levels: seq<Merkle.Level<Digest>>, root: Digest): Db {
    db.(log := db.log + [row],
        sequence := row.seqNo,
        frontier := Save(levels),
        boundaries := db.boundaries[row.seqNo := BoundaryRow(row.entryHash, root, row.createdAt)])
  }

  /** That is the right entry exactly with the plain root, and with the exact frontier the plain one. */
  lemma WrittenIsPlain(db: Db, record: Record, createdAt: Timestamp, levels: seq<Merkle.Level<Digest>>, root: Digest)
    requires Appendable(record)
    ensures var row := NewRow(db.log, record, createdAt);
            var log := db.log + [row];
            && (RightEntry(db, record, createdAt, Written(db, row, levels, root)) <==> root == RootOf(log))
            && (root == RootOf(log) && levels == LevelsOf(log) ==>
                  Written(db, row, levels, root) == PutEntry(db, record, createdAt))
  {
    hide RootOf, LevelsOf, Save;
    var row := NewRow(db.log, record, createdAt);
    assert Written(db, row, levels, root).boundaries[row.seqNo].merkleRoot == root;
  }

  lemma NewRowOf(log: seq<Row>, record: Record, createdAt: Timestamp)
    requires Appendable(record)
    ensures record.body.name.Some? && record.body.sourceIdentity.Some? && record.body.commit.Some?
    ensures record.body.contentSha256.Some? && record.body.status.Some?
    ensures var body := record.body;
            NewRow(log, record, createdAt) ==
            Row(|log| + 1, Entry(HeadHash(log), body), HeadHash(log), body.name.value, body.sourceIdentity.value,
                body.commit.value, body.contentSha256.value, body.status.value, Some(record), createdAt)
  {
  }

  class Store {
    const interval: Interval
    var db: Db
    var tx: Db
    var statements: nat
    var ready: bool
    var verifiedHead: Digest
    var verifiedLogSize: int
    var verifiedAt: Timestamp
    var error: Option<string>
    var code: string
    var lastRefresh: real
    var integrityFailed: bool

    function HealthNow(): Health
      reads this
    {
      Health(ready, verifiedHead, verifiedLogSize, verifiedAt, error, code, lastRefresh, integrityFailed)
    }

    function State(): StoreState
      reads this
    {
      StoreState(db, HealthNow())
    }

    method Execute() returns (ok: bool)
      modifies this`statements
      ensures ok <==> old(statements) > 0
      ensures ok ==> statements == old(statements) - 1
    {
      ok := statements > 0;
      if ok { statements := statements - 1; }
    }

    /** Non-ready and writes disabled, until a restart. */
    method Latch(detail: string, now: real)
      modifies this`integrityFailed, this`ready, this`error, this`lastRefresh
      ensures HealthNow() == Latched(old(HealthNow()), detail, now)
      ensures integrityFailed && (old(Consistent(HealthNow())) ==> !ready)
      ensures old(integrityFailed) ==> HealthNow() == old(HealthNow())
    {
      if integrityFailed { return; }
      integrityFailed := true;
      ready := false;
      error := Some(detail);
      lastRefresh := now;
    }

    /** Loads the stored frontier and checks it against the head before it is trusted. */
    method TrustedFrontier(now: real) returns (r: Result<seq<Merkle.Level<Digest>>, StoreError>)
      modifies this`statements, this`integrityFailed, this`ready, this`error, this`lastRefresh
      ensures HealthNow() == if r.Ok? then old(HealthNow()) else AfterError(old(HealthNow()), r.error, now)
      ensures r.Err? ==> r.error.DatabaseError? || r.error.Corrupt?
      ensures r.Ok? ==> AnchorsHold(tx) && Load(tx.frontier) == Ok(r.value)
      ensures r.Err? && r.error.Corrupt? ==> !AnchorsHold(tx)
      ensures old(statements) >= 3 ==> if AnchorsHold(tx) then r.Ok? && statements == old(statements) - 3
                                       else r.Err? && r.error.Corrupt?
    {
      hide Frontier.AnchorErrorOf, Load, FindRow;
      var ok := Execute();
      if !ok { return Err(DatabaseError); }
      var loaded := Load(tx.frontier);
      if loaded.Err? {
        Latch("merkle frontier is invalid", now);
        return Err(Corrupt("merkle frontier is invalid"));
      }
      ok := Execute();
      if !ok { return Err(DatabaseError); }
      ok := Execute();
      if !ok { return Err(DatabaseError); }
      var previous := LastSeq(tx.log);
      var mismatch := Frontier.AnchorErrorOf(PairHash, previous, HeadHash(tx.log), SecondHash(tx.log, previous),
                                             BoundaryAnchor(tx, previous), loaded.value);
      if mismatch.Some? {
        Latch("append anchors disagree with the committed log", now);
        return Err(Corrupt("append anchors disagree with the committed log"));
      }
      r := Ok(loaded.value);
    }

    /** Grows a loaded frontier by one leaf, latching if it is inconsistent. */
    method Grow(levels: seq<Merkle.Level<Digest>>, leaf: Digest, now: real)
      returns (r: Result<(seq<Merkle.Level<Digest>>, Digest), StoreError>)
      modifies this`integrityFailed, this`ready, this`error, this`lastRefresh
      ensures HealthNow() == if r.Ok? then old(HealthNow()) else AfterError(old(HealthNow()), r.error, now)
      ensures match Merkle.Append(PairHash, levels, leaf)
              case Grown(grown, root, _) => r == Ok((grown, root))
              case Broken(_) => r.Err? && r.error.Corrupt?
    {
      hide Merkle.Append;
      var frontier := new Frontier.FrontierList(levels);
      var root, _ := frontier.Append(PairHash, leaf);
      if root.Err? {
        Latch("merkle frontier is inconsistent", now);
        return Err(Corrupt("merkle frontier is inconsistent"));
      }
      r := Ok((frontier.levels, root.value));
    }

    /** Writes the row, the grown frontier and the boundary row of one entry. */
    method WriteEntry(record: Record, createdAt: Timestamp, levels: seq<Merkle.Level<Digest>>, now: real)
      returns (r: Result<LogEntry, StoreError>)
      requires Appendable(record)
      requires Load(tx.frontier) == Ok(levels) && AnchorsHold(tx)
      modifies this`tx, this`statements, this`integrityFailed, this`ready, this`error, this`lastRefresh
      ensures HealthNow() == if r.Ok? then old(HealthNow()) else AfterError(old(HealthNow()), r.error, now)
      ensures Sound(old(tx)) ==> Appended(old(tx), record, createdAt, 3, old(statements), tx, statements, r)
      ensures LogTrusted(old(tx)) && r.Ok? ==>
                (RightEntry(old(tx), record, createdAt, tx) <==> !Misled(old(tx)))
      ensures r.Err? ==> r.error.DatabaseError? || r.error.Corrupt?
    {
      hide LogTrusted, Misled, AnchorsHold, Load, NewRow, RootOf, LevelsOf, RightEntry, PutEntry, Written;
      hide Sound, Merkle.Append, Merkle.Depth, Merkle.Fits, Appendable;
      if Sound(tx) { AppendReads(tx); }
      r := Err(DatabaseError);
      var ok := Execute();
      if !ok { return; }
      var previous, prevHash, seqNo := LastSeq(tx.log), HeadHash(tx.log), NextSeq(tx);
      var entryHash := Entry(prevHash, record.body);
      NewRowOf(tx.log, record, createdAt);
      var row := Row(seqNo, entryHash, prevHash, record.body.name.value, record.body.sourceIdentity.value,
                     record.body.commit.value, record.body.contentSha256.value, record.body.status.value,
                     Some(record), createdAt);
      AppendGrows(tx.log, row);
      if LogTrusted(tx) { TamperedAppend(tx, row); }
      if seqNo != previous + 1 {
        Latch("log sequence is not contiguous", now);
        return Err(Corrupt("log sequence is not contiguous"));
      }
      var grown := Grow(levels, entryHash, now);
      if grown.Err? { return Err(grown.error); }
      ok := Execute();
      if !ok { return; }
      ok := Execute();
      if !ok { return; }
      if seqNo in tx.boundaries {
        Latch("snapshot boundary cache is inconsistent", now);
        return Err(Corrupt("snapshot boundary cache is inconsistent"));
      }
      WrittenIsPlain(tx, record, createdAt, grown.value.0, grown.value.1);
      tx := Written(tx, row, grown.value.0, grown.value.1);
      r := Ok(LogEntry(seqNo, entryHash, prevHash, record));
    }

    /** Appends one entry inside the caller's transaction, with one frontier node per level. */
    method AppendLocked(record: Record, createdAt: Timestamp, now: real) returns (r: Result<LogEntry, StoreError>)
      modifies this`tx, this`statements, this`integrityFailed, this`ready, this`error, this`lastRefresh
      ensures HealthNow() == if r.Ok? then old(HealthNow()) else AfterError(old(HealthNow()), r.error, now)
      ensures r == Err(BadRecord) <==> !Appendable(record)
      ensures r.Err? ==> r.error.DatabaseError? || r.error.Corrupt? || r.error.BadRecord?
      ensures r.Ok? ==> AnchorsHold(old(tx))
      ensures Appendable(record) && !AnchorsHold(old(tx)) && old(statements) >= 4 ==> r.Err? && r.error.Corrupt?
      ensures Sound(old(tx)) && Appendable(record) ==>
                Appended(old(tx), record, createdAt, 7, old(statements), tx, statements, r)
      ensures LogTrusted(old(tx)) && r.Ok? ==>
                Appendable(record) && (RightEntry(old(tx), record, createdAt, tx) <==> !Misled(old(tx)))
    {
      hide LogTrusted, RightEntry, Misled;
      hide Sound, AnchorsHold, Load, PutEntry;
      if !Appendable(record) { return Err(BadRecord); }
      if Sound(tx) { AppendReads(tx); }
      var ok := Execute();
      if !ok { return Err(DatabaseError); }
      var trusted := TrustedFrontier(now);
      if trusted.Err? { return Err(trusted.error); }
      r := WriteEntry(record, createdAt, trusted.value, now);
    }
  
    /** BEGIN IMMEDIATE, then the write gate. */
    method Begin(now: real) returns (refusal: Option<StoreError>)
      modifies this`tx, this`statements
      ensures refusal.None? ==>
                tx == db && WritesAllowed(HealthNow(), interval, now) && statements + 1 == old(statements)
      ensures refusal.Some? ==> refusal.value.DatabaseError? || refusal.value.NotAllowed?
      ensures old(statements) > 0 && WritesAllowed(HealthNow(), interval, now) ==> refusal.None?
    {
      var ok := Execute();
      if !ok { return Some(DatabaseError); }
      tx := db;
      refusal := if WritesAllowed(HealthNow(), interval, now) then None else Some(NotAllowed);
    }

    method Append(record: Record, createdAt: Timestamp, now: real) returns (r: Result<LogEntry, StoreError>)
      modifies this
      ensures r.Err? ==> db == old(db)
      ensures Sound(old(db)) ==> AppendStep(old(State()), interval, now, record, createdAt, State(), r)
      ensures Sound(old(db)) && r.Ok? ==>
                && db.log == old(db).log + [NewRow(old(db).log, record, createdAt)]
                && verifiedHead == HeadHash(db.log) && verifiedLogSize == |db.log|
                && r.value == LogEntry(|db.log|, HeadHash(db.log), HeadHash(old(db).log), record)
      ensures Sound(old(db)) && WritesAllowed(old(HealthNow()), interval, now) ==>
                (Appendable(record) && Merkle.Fits(|old(db).log| + 1) && old(statements) >= 9 ==> r.Ok?)
      ensures !AnchorsHold(old(db)) ==> r.Err?
      ensures !AnchorsHold(old(db)) && WritesAllowed(old(HealthNow()), interval, now) && Appendable(record) ==>
                (old(statements) >= 5 ==> integrityFailed && !ready)
      ensures LogTrusted(old(db)) && r.Ok? ==>
                Appendable(record) && (RightEntry(old(db), record, createdAt, db) <==> !Misled(old(db)))
    {
      hide LogTrusted, RightEntry, Misled;
      hide Sound, AnchorsHold, PutEntry, Merkle.Fits, Appendable;
      var refusal := Begin(now);
      if refusal.Some? { return Err(refusal.value); }
      r := AppendLocked(record, createdAt, now);
      if r.Err? { return; }
      var ok := Execute();
      if !ok { return Err(DatabaseError); }
      db := tx;
      PutEntryHead(old(db), record, createdAt);
      verifiedHead := r.value.entryHash;
      verifiedLogSize := r.value.seqNo;
    }

    /** Adds the entry of a first submission and its ledger row inside the caller's transaction. */
    method Remember(sub: Submission, now: real) returns (r: Result<Response, StoreError>)
      modifies this`tx, this`statements, this`integrityFailed, this`ready, this`error, this`lastRefresh
      ensures HealthNow() == if r.Ok? then old(HealthNow()) else AfterError(old(HealthNow()), r.error, now)
      ensures r.Err? ==> r.error.DatabaseError? || r.error.Corrupt? || r.error.BadRecord?
      ensures r.Ok? ==> Appendable(sub.record)
      ensures Sound(old(tx)) && r.Ok? ==>
                && Merkle.Fits(|old(tx).log| + 1) && tx == Remembered(old(tx), sub)
                && r.value == Response(|tx.log|, HeadHash(tx.log))
      ensures Sound(old(tx)) && r.Err? && r.error.Corrupt? ==> !Merkle.Fits(|old(tx).log| + 1)
      ensures Sound(old(tx)) && Appendable(sub.record) && Merkle.Fits(|old(tx).log| + 1) ==>
                (old(statements) >= 8 ==> r.Ok? && statements == old(statements) - 8)
    {
      hide Sound, PutEntry, Merkle.Fits, Latched, Appendable;
      var entry := AppendLocked(sub.record, sub.createdAt, now);
      if entry.Err? { return Err(entry.error); }
      var ok := Execute();
      if !ok { return Err(DatabaseError); }
      PutEntryHead(old(tx), sub.record, sub.createdAt);
      var response := Response(entry.value.seqNo, entry.value.entryHash);
      tx := tx.(idempotency := tx.idempotency[(sub.auditor, sub.key) :=
        IdempotencyRow(sub.bodySha256, Some(response), entry.value.seqNo, sub.time + sub.ttl)]);
      r := Ok(response);
    }

    /** Answers from a remembered row, committing the purge of expired keys, or refuses. */
    method Replay(existing: IdempotencyRow, bodySha256: string) returns (r: Result<Response, StoreError>)
      modifies this`db, this`statements
      ensures db == if r.Ok? then tx else old(db)
      ensures match r
              case Ok(response) => existing.bodySha256 == bodySha256 && existing.response == Some(response)
              case Err(e) => e == (if existing.bodySha256 != bodySha256 then KeyConflict
                                   else if existing.response.None? then BadStoredResponse else DatabaseError)
      ensures existing.bodySha256 == bodySha256 && existing.response.Some? && old(statements) > 0 ==> r.Ok?
    {
      if existing.bodySha256 != bodySha256 { return Err(KeyConflict); }
      if existing.response.None? { return Err(BadStoredResponse); }
      var ok := Execute();
      if !ok { return Err(DatabaseError); }
      db := tx;
      r := Ok(existing.response.value);
    }

    /** Opens the transaction of a submission, drops expired keys and looks its key up. */
    method BeginSubmission(sub: Submission, now: real) returns (r: Result<Option<IdempotencyRow>, StoreError>)
      modifies this`tx, this`statements
      ensures r.Ok? ==>
                && SubmissionOk(sub) && WritesAllowed(HealthNow(), interval, now)
                && tx == Purged(db, sub.time) && statements + 3 == old(statements)
                && var key := (sub.auditor, sub.key);
                r.value == if key in tx.idempotency then Some(tx.idempotency[key]) else None
      ensures r.Err? ==> r.error.BadArgument? || r.error.DatabaseError? || r.error.NotAllowed?
      ensures r == Err(BadArgument) <==> !SubmissionOk(sub)
      ensures SubmissionOk(sub) && WritesAllowed(HealthNow(), interval, now) && old(statements) >= 3 ==> r.Ok?
    {
      hide WritesAllowed, KeyOk, Hex256, Unexpired;
      if !SubmissionOk(sub) { return Err(BadArgument); }
      var refusal := Begin(now);
      if refusal.Some? { return Err(refusal.value); }
      var ok := Execute();
      if !ok { return Err(DatabaseError); }
      tx := Purged(tx, sub.time);
      ok := Execute();
      if !ok { return Err(DatabaseError); }
      var key := (sub.auditor, sub.key);
      r := Ok(if key in tx.idempotency then Some(tx.idempotency[key]) else None);
    }

    /** At most one entry per auditor and key while the key is remembered. */
    method AppendIdempotent(sub: Submission, now: real) returns (r: Result<(Response, bool), StoreError>)
      modifies this
      ensures r.Err? ==> db == old(db)
      ensures Sound(old(db)) ==> IdempotentStep(old(State()), interval, now, sub, State(), r)
      ensures r == Err(BadArgument) <==> !SubmissionOk(sub)
      ensures Sound(old(db)) && r.Ok? && !r.value.1 ==>
                verifiedHead == HeadHash(db.log) && verifiedLogSize == |db.log|
      ensures Sound(old(db)) && WritesAllowed(old(HealthNow()), interval, now) && SubmissionOk(sub) ==>
                var known := Unexpired(old(db).idempotency, sub.time);
                var key := (sub.auditor, sub.key);
                (Appendable(sub.record) && Merkle.Fits(|old(db).log| + 1) && old(statements) >= 12 ==>
                  if key !in known then r.Ok? && !r.value.1
                  else if known[key].bodySha256 == sub.bodySha256 then r.Ok? && r.value.1
                  else r == Err(KeyConflict))
    {
      hide Sound, PutEntry, Remembered, Merkle.Fits, WritesAllowed, Latched, Appendable, SubmissionOk, Unexpired;
      var known := BeginSubmission(sub, now);
      if known.Err? { return Err(known.error); }
      if known.value.Some? {
        if Sound(old(db)) { KnownResponse(old(db), sub.time, (sub.auditor, sub.key)); }
        var replay := Replay(known.value.value, sub.bodySha256);
        return if replay.Ok? then Ok((replay.value, true)) else Err(replay.error);
      }
      if Sound(old(db)) { PurgeSound(old(db), sub.time); }
      var response := Remember(sub, now);
      if response.Err? { return Err(response.error); }
      var ok := Execute();
      if !ok { return Err(DatabaseError); }
      db := tx;
      verifiedHead := response.value.entryHash;
      verifiedLogSize := response.value.seqNo;
      r := Ok((response.value, false));
    }

    /** Adds one record inside the caller's transaction unless its fingerprint is known. */
    method ImportRecord(fingerprint: Fingerprint, record: Record, createdAt: Timestamp, now: real)
      returns (r: Result<nat, StoreError>)
      modifies this`tx, this`statements, this`integrityFailed, this`ready, this`error, this`lastRefresh
      ensures HealthNow() == if r.Ok? then old(HealthNow()) else AfterError(old(HealthNow()), r.error, now)
      ensures r.Err? ==> r.error.DatabaseError? || r.error.BadRecord? || r.error.Corrupt?
      ensures Sound(old(tx)) ==>
                RecordImported(old(tx), fingerprint, record, createdAt, old(statements), tx, statements, r)
    {
      hide Sound, Latched, Appendable, PutEntry, Merkle.Fits;
      var ok := Execute();
      if !ok { return Err(DatabaseError); }
      if fingerprint in tx.imported { return Ok(0); }
      var entry := AppendLocked(record, createdAt, now);
      if entry.Err? { return Err(entry.error); }
      PutEntryHead(old(tx), record, createdAt);
      ok := Execute();
      if !ok { return Err(DatabaseError); }
      tx := tx.(imported := tx.imported[fingerprint := ImportRow(createdAt, Some(entry.value.seqNo))]);
      r := Ok(1);
    }

    /** Adds the unseen records of a batch inside the caller's transaction. */
    method ImportLocked(batch: Batch, createdAt: Timestamp, now: real) returns (r: Result<nat, StoreError>)
      modifies this`tx, this`statements, this`integrityFailed, this`ready, this`error, this`lastRefresh
      ensures HealthNow() == if r.Ok? then old(HealthNow()) else AfterError(old(HealthNow()), r.error, now)
      ensures r.Err? ==> r.error.DatabaseError? || r.error.BadRecord? || r.error.Corrupt?
      ensures Sound(old(tx)) ==>
                Imported(old(tx), batch, createdAt, old(statements), tx, statements, r)
    {
      hide Sound, Latched, Appendable, ImportOne, Merkle.Fits;
      var imported: nat := 0;
      ghost var h, sound, before := HealthNow(), Sound(tx), tx;
      ghost var plenty := AllAppendable(batch) && statements >= 9 * |batch| && Merkle.Fits(|tx.log| + |batch|);
      if sound { SoundFits(tx); }
      for i := 0 to |batch|
        invariant HealthNow() == h
        invariant sound ==> Sound(tx) && Merkle.Fits(|tx.log|)
        invariant sound ==> ImportBatch(before, batch[..i], createdAt) == Some(tx)
        invariant sound ==> imported == |tx.log| - |before.log| && imported <= i
        invariant sound && plenty ==> statements >= old(statements) - 9 * i
      {
        assert batch[..i + 1][..i] == batch[..i] && batch[..i + 1][i] == batch[i];
        ghost var last := tx;
        if sound { FitsBelow(|last.log| + 1, |before.log| + |batch|); }
        var one := ImportRecord(batch[i].0, batch[i].1, createdAt, now);
        if one.Err? { return Err(one.error); }
        if sound && batch[i].0 !in last.imported { ImportOneSound(last, batch[i].0, batch[i].1, createdAt); }
        imported := imported + one.value;
      }
      assert batch[..|batch|] == batch;
      r := Ok(imported);
    }

    /** Adds a batch to the open transaction, raises the high-water if asked, commits and publishes. */
    method ImportAndCommit(batch: Batch, createdAt: Timestamp, raise: Option<HighWater>, now: real)
      returns (r: Result<nat, StoreError>)
      requires tx == db
      modifies this
      ensures r.Err? ==> db == old(db) && HealthNow() == AfterError(old(HealthNow()), r.error, now)
      ensures r.Err? ==> r.error.DatabaseError? || r.error.BadRecord? || r.error.Corrupt?
      ensures Sound(old(db)) && r.Err? && r.error.Corrupt? ==> !Merkle.Fits(|old(db).log| + |batch|)
      ensures Sound(old(db)) && r.Ok? ==>
                BatchCommitted(old(State()), batch, createdAt, raise, State(), r.value)
      ensures Sound(old(db)) && AllAppendable(batch) && Merkle.Fits(|old(db).log| + |batch|) ==>
                (old(statements) >= 9 * |batch| + 2 ==> r.Ok?)
    {
      hide Sound, Latched, Appendable, Merkle.Fits, ImportBatch;
      r := ImportLocked(batch, createdAt, now);
      if r.Err? { return; }
      if raise.Some? {
        var ok := Execute();
        if !ok { return Err(DatabaseError); }
        tx := Raised(tx, raise.value, AdvancedTo);
      }
      var ok := Execute();
      if !ok { return Err(DatabaseError); }
      db := tx;
      if r.value > 0 {
        verifiedHead, verifiedLogSize := HeadHash(db.log), |db.log|;
      }
    }

    /** Compares an offered upstream boundary with the persisted one and adds the batch, in one transaction. */
    method AppendUpstreamImport(batch: Batch, createdAt: Timestamp, offered: HighWater, acceptOlder: bool, now: real)
      returns (r: Result<ImportResult, StoreError>)
      modifies this
      ensures r.Err? ==> db == old(db)
      ensures Sound(old(db)) ==>
                ImportStep(old(State()), interval, now, batch, createdAt, offered, acceptOlder, State(), r)
      ensures Sound(old(db)) && WritesAllowed(old(HealthNow()), interval, now) ==>
                (AllAppendable(batch) && Merkle.Fits(|old(db).log| + |batch|) && old(statements) >= 9 * |batch| + 4 ==>
                  (r.Ok? <==> Acceptable(HighWaterOf(old(db), offered.keyId), offered, acceptOlder)))
      ensures r.Ok? ==> RightOutcome(HighWaterOf(old(db), offered.keyId), offered, r.value.outcome)
      ensures r.Ok? ==> r.value.persisted == HighWaterOf(old(db), offered.keyId)
      ensures Sound(old(db)) && r.Ok? ==> r.value.imported == |db.log| - |old(db).log|
      ensures r.Err? && r.error.UpstreamConflict? ==>
                r.error.offered == offered && HighWaterOf(old(db), offered.keyId) == Some(r.error.persisted)
      ensures r.Err? && r.error.UpstreamConflict? ==>
                RightDiagnostic(HighWaterOf(old(db), offered.keyId), offered, r.error.diagnostic)
      ensures Sound(old(db)) && r.Ok? ==>
                HighWaterOf(db, offered.keyId) ==
                  if r.value.outcome == AdvancedTo then Some(offered) else HighWaterOf(old(db), offered.keyId)
      ensures Sound(old(db)) && r.Ok? && r.value.imported > 0 ==>
                verifiedHead == HeadHash(db.log) && verifiedLogSize == |db.log|
    {
      hide Sound, Latched, Appendable, Merkle.Fits, WritesAllowed, ImportBatch, OfferDiagnostic;
      hide Acceptable, RightOutcome, RightDiagnostic;
      var refusal := Begin(now);
      if refusal.Some? { return Err(refusal.value); }
      var ok := Execute();
      if !ok { return Err(DatabaseError); }
      var current := HighWaterOf(tx, offered.keyId);
      var decision := Decide(current, offered, acceptOlder);
      DecideExact(current, offered, acceptOlder);
      if decision.Err? {
        return Err(UpstreamConflict(decision.error, current.value, offered));
      }
      var raise := if decision.value == AdvancedTo then Some(offered) else None;
      var imported := ImportAndCommit(batch, createdAt, raise, now);
      r := if imported.Err? then Err(imported.error)
           else Ok(ImportResult(imported.value, current, decision.value));
      if Sound(old(db)) && r.Ok? { ImportBatchSound(old(db), batch, createdAt); }
    }

    /** The batch import that never overrides: an optional boundary must not be refused. */
    method AppendImports(batch: Batch, createdAt: Timestamp, offered: Option<HighWater>, now: real)
      returns (r: Result<nat, StoreError>)
      modifies this
      ensures r.Err? ==> db == old(db)
      ensures Sound(old(db)) ==>
                PlainImportStep(old(State()), interval, now, batch, createdAt, offered, State(), r)
      ensures Sound(old(db)) && WritesAllowed(old(HealthNow()), interval, now) ==>
                (AllAppendable(batch) && Merkle.Fits(|old(db).log| + |batch|) && old(statements) >= 9 * |batch| + 4 ==>
                  (r.Ok? <==>
                    offered == None || Acceptable(HighWaterOf(old(db), offered.value.keyId), offered.value, false)))
      ensures r.Err? && r.error.UpstreamConflict? ==>
                && offered != None
                && RightDiagnostic(HighWaterOf(old(db), offered.value.keyId), offered.value, r.error.diagnostic)
      ensures r.Err? && r.error.UpstreamConflict? ==>
                && Some(r.error.offered) == offered
                && HighWaterOf(old(db), offered.value.keyId) == Some(r.error.persisted)
      ensures Sound(old(db)) && r.Ok? ==> r.value == |db.log| - |old(db).log|
      ensures Sound(old(db)) && r.Ok? && offered != None ==> HighWaterOf(db, offered.value.keyId) == offered
      ensures Sound(old(db)) && r.Ok? && r.value > 0 ==>
                verifiedHead == HeadHash(db.log) && verifiedLogSize == |db.log|
    {
      hide Sound, Latched, Appendable, Merkle.Fits, WritesAllowed, ImportBatch, OfferDiagnostic;
      hide Acceptable, RightDiagnostic;
      PlainRefusalExact(db, offered);
      var refusal := Begin(now);
      if refusal.Some? { return Err(refusal.value); }
      if offered.Some? {
        var ok := Execute();
        if !ok { return Err(DatabaseError); }
        var current := HighWaterOf(tx, offered.value.keyId);
        var diagnostic := if current.None? then None else OfferDiagnostic(current.value, offered.value);
        if diagnostic.Some? {
          return Err(UpstreamConflict(diagnostic.value, current.value, offered.value));
        }
      }
      r := ImportAndCommit(batch, createdAt, offered, now);
      if Sound(old(db)) && r.Ok? { ImportBatchSound(old(db), batch, createdAt); }
    }

    // -------------------------------------------------------------- startup repair

    method IsNumbered() returns (ok: bool)
      ensures ok <==> Numbered(db.log)
    {
      for i := 0 to |db.log|
        invariant forall j :: 0 <= j < i ==> db.log[j].seqNo == j + 1
      {
        if db.log[i].seqNo != i + 1 { return false; }
      }
      ok := true;
    }

    /** Reads the log and recomputes what its caches must be. */
    method ReadLeaves() returns (r: Result<(seq<BoundaryRow>, seq<Merkle.Level<Digest>>), StoreError>)
      ensures r.Ok? ==> Numbered(db.log) && Merkle.Fits(|db.log|)
      ensures r.Ok? ==> |r.value.0| == |db.log| && Verification.IsExpected(db.log, r.value.0)
      ensures r.Ok? ==> r.value.1 == LevelsOf(db.log)
      ensures Repairable(db) ==> r.Ok?
    {
      hide LevelsOf, Merkle.Fits, Verification.IsExpected, Repairable;
      RepairableLog(db);
      var numbered := IsNumbered();
      if !numbered { return Err(Corrupt("log sequence is not contiguous")); }
      var recomputed := Verification.RecomputeRows(db.log);
      if recomputed.Err? { return Err(Corrupt("merkle frontier exceeds maximum depth")); }
      ExpectedLength(db.log, recomputed.value.0);
      r := Ok(recomputed.value);
    }

    /** Inserts the expected boundary rows that were not `stored`, unless they are there by now. */
    method Backfill(stored: map<int, BoundaryRow>, expected: seq<BoundaryRow>) returns (ok: bool)
      modifies this`tx, this`statements
      ensures ok ==> tx == old(tx).(boundaries := tx.boundaries)
      ensures ok ==> forall k :: k in tx.boundaries <==>
                k in old(tx).boundaries || (1 <= k <= |expected| && k !in stored)
      ensures ok ==> forall k :: k in tx.boundaries ==>
                tx.boundaries[k] == if k in old(tx).boundaries then old(tx).boundaries[k] else expected[k - 1]
      ensures old(statements) >= |expected| ==> ok && statements >= old(statements) - |expected|
    {
      for i := 0 to |expected|
        invariant tx == old(tx).(boundaries := tx.boundaries)
        invariant forall k :: k in tx.boundaries <==> k in old(tx).boundaries || (1 <= k <= i && k !in stored)
        invariant forall k :: k in tx.boundaries ==>
                    tx.boundaries[k] == if k in old(tx).boundaries then old(tx).boundaries[k] else expected[k - 1]
        invariant old(statements) >= |expected| ==> statements >= old(statements) - i
      {
        if i + 1 !in stored {
          ok := Execute();
          if !ok { return; }
          if i + 1 !in tx.boundaries { tx := tx.(boundaries := tx.boundaries[i + 1 := expected[i]]); }
        }
      }
      ok := true;
    }

    /** The one write transaction of the repair: missing rows and the whole frontier. It writes
        nothing when the log is not as long as it was when it was read. */
    method RewriteCaches(stored: map<int, BoundaryRow>, expected: seq<BoundaryRow>, levels: seq<Merkle.Level<Digest>>)
      returns (r: Option<bool>)
      modifies this`db, this`tx, this`statements
      ensures r != Some(true) ==> db == old(db)
      ensures db == old(db).(boundaries := db.boundaries, frontier := db.frontier)
      ensures r.None? ==> LastSeq(db.log) != |expected| && statements + 2 == old(statements)
      ensures r == Some(true) ==> LastSeq(db.log) == |expected|
      ensures r == Some(true) && Repairable(old(db)) && Verification.IsExpected(old(db).log, expected) ==>
                (levels == LevelsOf(old(db).log) && stored.Keys <= old(db).boundaries.Keys ==> CacheOk(db))
      ensures old(statements) >= |expected| + 3 ==> r != Some(false)
    {
      hide Load, Save, LevelsOf, BoundaryOf, Merkle.Fits, Verification.IsExpected, Repairable, CacheOk;
      var ok := Execute();
      if !ok { return Some(false); }
      tx := db;
      if LastSeq(tx.log) != |expected| {
        ok := Execute();
        return if ok then None else Some(false);
      }
      ok := Backfill(stored, expected);
      if !ok { return Some(false); }
      ok := Execute();
      if !ok { return Some(false); }
      tx := tx.(frontier := Save(levels));
      LoadOfExact(db.log);
      if Repairable(db) && Verification.IsExpected(db.log, expected) && levels == LevelsOf(db.log)
         && stored.Keys <= db.boundaries.Keys {
        RepairedCache(db, expected, tx);
      }
      ok := Execute();
      if ok { db := tx; }
      r := Some(ok);
    }

    /** One attempt of the repair, with what other processes commit before its later reads;
        `None` asks for another attempt, because the log moved. */
    method AttemptRepair(meanwhile: Meanwhile)
      returns (r: Option<Result<(), StoreError>>, ghost left: Db)
      modifies this`db, this`tx, this`statements
      ensures left == old(db) || left in [meanwhile.first, meanwhile.second, meanwhile.third]
      ensures r.None? || r.value.Err? ==> db == left
      ensures db == left.(boundaries := db.boundaries, frontier := db.frontier)
      ensures MovedThrough(old(db), meanwhile) ==>
                && Moved(old(db), left) && Moved(left, meanwhile.third)
                && (CacheOk(left) ==> db == left)
                && (r.None? ==> |db.log| > |old(db).log|)
                && (r.Some? && r.value.Ok? ==> Repairable(old(db)) && CacheOk(db))
                && (Repairable(old(db)) && r.Some? && r.value.Err? ==> r.value.error == DatabaseError)
                && (Repairable(old(db)) && old(statements) >= |old(db).log| + 3 ==>
                      (r.Some? ==> r.value.Ok?) && (r.None? ==> statements + 2 >= old(statements)))
    {
      hide Load, Save, LevelsOf, BoundaryOf, Merkle.Fits, CacheOk, Moved, Repairable, Verification.IsExpected;
      hide Numbered;
      ghost var start, moved := db, MovedThrough(db, meanwhile);
      if moved { MovedAlong(db, meanwhile); }
      left := db;
      var recomputed := ReadLeaves();
      if recomputed.Err? { return Some(Err(recomputed.error)), left; }
      var expected, levels := recomputed.value.0, recomputed.value.1;
      db := meanwhile.first;
      var stored := db.boundaries;
      if exists k :: k in stored && !(1 <= k <= |expected|) {
        db := meanwhile.second;
        left := db;
        if moved { OutOfRange(start, meanwhile.first, db); }
        return if LastSeq(db.log) != |expected| then None
               else Some(Err(Corrupt("snapshot boundary cache is inconsistent"))), left;
      }
      var agree := Verification.StoredRowsAgree(stored, expected);
      left := db;
      if moved { RowsAgree(start, db, expected); }
      if !agree {
        return Some(Err(Corrupt("snapshot boundary cache disagrees with the committed log"))), left;
      }
      db := meanwhile.second;
      left := db;
      if (forall k :: 1 <= k <= |expected| ==> k in stored) && Load(db.frontier) == Ok(levels) {
        if moved { NothingToRepair(start, meanwhile.first, db, expected); }
        return Some(Ok(())), left;
      }
      db := meanwhile.third;
      left := db;
      if moved { StillThere(start, meanwhile.first, db); }
      var written := RewriteCaches(stored, expected, levels);
      if moved && written == Some(true) && CacheOk(left) { CacheUnique(left, db); }
      r := if written.None? then None else Some(if written.value then Ok(()) else Err(DatabaseError));
    }

    /** Validates the memoized boundaries against the log; missing rows and a stale frontier
        are rebuilt, a row that disagrees is refused. Other processes may commit meanwhile. */
    method EnsureBoundaries(rounds: seq<Meanwhile>) returns (r: Result<(), StoreError>, ghost left: Db)
      modifies this`db, this`tx, this`statements
      ensures rounds == [] ==> left == old(db)
      ensures r.Err? ==> db == left
      ensures db == left.(boundaries := db.boundaries, frontier := db.frontier)
      ensures Steady(old(db), rounds) ==>
                && Moved(old(db), left) && (CacheOk(left) ==> db == left)
                && (r.Ok? ==> CacheOk(db)) && (r.Ok? && rounds == [] ==> Repairable(old(db)))
                && (Repairable(old(db)) && r.Err? ==>
                      r.error == DatabaseError || (r.error == LOG_CHANGED && |db.log| >= |old(db).log| + 4))
                && (Repairable(old(db)) && |Latest(old(db), rounds).log| < |old(db).log| + 4 ==>
                      (old(statements) >= |Latest(old(db), rounds).log| + 9 ==> r.Ok?))
                && (Repairable(old(db)) && rounds == [] && old(statements) >= |old(db).log| + 3 ==> r.Ok?)
    {
      hide Moved, Repairable, CacheOk, MovedThrough, Steady, Latest, Rest;
      left := db;
      ghost var steady, repairable := Steady(db, rounds), Repairable(db);
      assert rounds == [] ==> steady by { if rounds == [] { SteadyAlone(db); } }
      if steady { FirstAttempt(db, rounds); }
      for attempt := 0 to 4
        invariant db == left
        invariant attempt == 0 ==> db == old(db) && statements == old(statements)
        invariant rounds == [] ==> attempt == 0
        invariant steady ==> Moved(old(db), db) && Steady(db, Rest(rounds, attempt))
        invariant steady ==> |db.log| >= |old(db).log| + attempt && |db.log| <= |Latest(old(db), rounds).log|
        invariant steady && repairable ==> Repairable(db)
        invariant steady && repairable && old(statements) >= |Latest(old(db), rounds).log| + 9 ==>
                    statements + 2 * attempt >= old(statements)
      {
        var meanwhile := if attempt < |rounds| then rounds[attempt] else Meanwhile(db, db, db);
        ghost var start := db;
        if steady { NextAttempt(old(db), db, rounds, attempt); }
        var tried;
        tried, left := AttemptRepair(meanwhile);
        if steady { AfterAttempt(old(db), start, left, rounds, attempt); }
        if tried.Some? { return tried.value, left; }
      }
      r := Err(LOG_CHANGED);
    }

    // -------------------------------------------------------------- the verdict

    /** The probe. It reads fields and a clock, nothing else. */
    method HealthVerdict(now: real) returns (v: Verdict)
      ensures v == VerdictOf(HealthNow(), interval, now)
      ensures Consistent(HealthNow()) ==> (v.ready <==> WritesAllowed(HealthNow(), interval, now))
      ensures v.ready <==> ready && now <= lastRefresh + 2.0 * interval
      ensures !ready ==> v.error == error && v.code == code
      ensures ready ==> v.code == "not_ready"
                        && v.error == if v.ready then None else Some("registry integrity verification is stale")
      ensures (v.verifiedHead, v.verifiedLogSize, v.verifiedAt) == (verifiedHead, verifiedLogSize, verifiedAt)
    {
      if !ready {
        v := Verdict(false, verifiedHead, verifiedLogSize, verifiedAt, error, code);
      } else if now - lastRefresh > interval * STALENESS_MULTIPLIER {
        v := Verdict(false, verifiedHead, verifiedLogSize, verifiedAt, Some(STALE), NOT_READY);
      } else {
        v := Verdict(true, verifiedHead, verifiedLogSize, verifiedAt, None, NOT_READY);
      }
    }

    /** Publishes a finished pass; the tables may have moved on since its snapshot. */
    method Publish(findings: seq<Verification.Finding>, at: Timestamp, now: real) returns (v: Verdict)
      modifies this`integrityFailed, this`ready, this`error, this`lastRefresh,
               this`verifiedHead, this`verifiedLogSize, this`verifiedAt
      ensures HealthNow() == Published(old(State()), findings == [], at, now)
      ensures old(Consistent(HealthNow())) ==> v == VerdictOf(HealthNow(), interval, now)
      ensures v.ready ==> findings == [] && !old(integrityFailed)
      ensures Sound(db) && findings == [] && !old(integrityFailed) ==> PublishedLive(db, HealthNow(), at, now)
      ensures !old(integrityFailed) && findings != [] ==> integrityFailed && !ready
    {
      hide ReadBoundary, Sound;
      if Sound(db) { SoundParts(db); ReadBoundaryExact(db, 0); HeadOfAll(db); }
      if integrityFailed {
        return Verdict(false, verifiedHead, verifiedLogSize, verifiedAt, error, code);
      }
      var live := ReadBoundary(db, None);
      if findings != [] || live.Err? {
        integrityFailed := true;
        ready := false;
        error := Some(VERIFICATION_FAILED);
        lastRefresh := now;
        return Verdict(false, verifiedHead, verifiedLogSize, verifiedAt, error, code);
      }
      ready := true;
      verifiedHead := live.value.head;
      verifiedLogSize := live.value.logSize;
      verifiedAt := at;
      error := None;
      lastRefresh := now;
      v := Verdict(true, verifiedHead, verifiedLogSize, verifiedAt, None, NOT_READY);
    }

    /** A pass with nothing happening between its snapshot and its publication. If a read of the
        walk raises, the pass has failed. */
    method Refresh(at: Timestamp, now: real) returns (v: Verdict)
      modifies this`statements, this`integrityFailed, this`ready, this`error, this`lastRefresh,
               this`verifiedHead, this`verifiedLogSize, this`verifiedAt
      ensures HealthNow() == Published(old(State()), old(statements) > 0 && Verification.Attested(db), at, now)
      ensures old(Consistent(HealthNow())) ==> v == VerdictOf(HealthNow(), interval, now)
      ensures v.ready ==> Verification.Attested(db) && !old(integrityFailed)
      ensures Sound(db) && Verification.Attested(db) && old(statements) > 0 && !old(integrityFailed) ==>
                PublishedLive(db, HealthNow(), at, now)
    {
      hide ReadBoundary, Verification.Attested, Sound;
      if integrityFailed {
        return Verdict(false, verifiedHead, verifiedLogSize, verifiedAt, error, code);
      }
      var ok := Execute();
      var findings := [Verification.WalkRaised];
      if ok { findings := Verification.VerifySnapshot(db); }
      v := Publish(findings, at, now);
    }

    /** Latches a refusal; only the closed set of diagnostics is accepted. */
    method RefuseStartupCheckpoint(diagnostic: string, now: real) returns (ok: bool)
      modifies this`integrityFailed, this`ready, this`error, this`lastRefresh, this`code
      ensures ok <==> || diagnostic == "restore_below_checkpoint"
                      || diagnostic == "restore_inconsistent_with_checkpoint"
                      || diagnostic == "checkpoint_signature_invalid"
      ensures HealthNow() == if ok then RefusedCheckpoint(old(HealthNow()), diagnostic, now) else old(HealthNow())
      ensures ok ==> integrityFailed && (old(integrityFailed) ==> code == old(code))
      ensures ok && !old(integrityFailed) ==> !ready && code == diagnostic
    {
      ok := diagnostic in REFUSAL_DIAGNOSTICS;
      if !ok { return; }
      if !integrityFailed { code := diagnostic; }
      Latch("startup checkpoint refused", now);
    }

    method ApplyStartupCheckpoint(checkpoint: CheckpointView, now: real)
      returns (r: Result<Option<Refusal>, BoundaryError>)
      modifies this`integrityFailed, this`ready, this`error, this`lastRefresh, this`code
      ensures r == Gate(db, checkpoint)
      ensures HealthNow() == AfterGate(old(State()), checkpoint, now)
      ensures r.Err? || r == Ok(None) ==> HealthNow() == old(HealthNow())
      ensures r.Ok? && r.value.Some? ==> integrityFailed && (old(Consistent(HealthNow())) ==> !ready)
      ensures Sound(db) && db.createdAt.Some? ==> r.Ok? && (r == Ok(None) <==> Continues(db, checkpoint))
      ensures Sound(db) && !old(integrityFailed) && r.Ok? && r.value.Some? ==>
                code == if |db.log| < checkpoint.version || |db.log| < checkpoint.logSize
                        then "restore_below_checkpoint" else "restore_inconsistent_with_checkpoint"
    {
      hide ReadBoundary, CompareCheckpoint;
      if Sound(db) { GateOfSound(db, checkpoint); }
      var live := ReadBoundary(db, None);
      if live.Err? { return Err(live.error); }
      var prefix := None;
      if live.value.version > checkpoint.version {
        var at := ReadBoundary(db, Some(checkpoint.logSize));
        if at.Ok? { prefix := Some(at.value); }
      }
      var refusal := CompareCheckpoint(live.value, checkpoint, prefix);
      if refusal.Some? { var _ := RefuseStartupCheckpoint(RefusalCode(refusal.value), now); }
      r := Ok(refusal);
    }

    /** Opening a database file: fail closed until `Start` has verified it. */
    constructor (interval: Interval, db: Db, statements: nat, now: real)
      ensures this.db == db && this.interval == interval && this.statements == statements
      ensures HealthNow() == Health(false, Genesis, 0, Malformed(""),
                                    Some("startup verification has not completed"), NOT_READY, now, false)
    {
      this.interval, this.db, this.tx, this.statements := interval, db, db, statements;
      ready, verifiedHead, verifiedLogSize, verifiedAt := false, Genesis, 0, Malformed("");
      error, code, lastRefresh, integrityFailed :=
        Some("startup verification has not completed"), NOT_READY, now, false;
    }

    /** The startup verification, with the cache repair. The store serves exactly a startable file,
        as long as no statement fails. */
    method Start(at: Timestamp, now: real) returns (ok: bool)
      modifies this
      ensures !ok ==> db == old(db) || CacheOk(db)
      ensures !ok ==> ready == old(ready)
      ensures db == old(db).(boundaries := db.boundaries, frontier := db.frontier)
      ensures ok ==> Startable(old(db))
      ensures Startable(old(db)) && old(statements) >= |old(db).log| + 3 ==> ok
      ensures ok ==> Verification.Attested(db) && ready && error.None? && lastRefresh == now
      ensures ok ==> verifiedHead == HeadHash(db.log) && verifiedLogSize == |db.log| && verifiedAt == at
      ensures ok && db.sequence == |db.log| ==> Sound(db)
      ensures integrityFailed == old(integrityFailed)
    {
      hide Verification.LogAttested, CacheOk, Repairable, ReadBoundary;
      var findings := Verification.IntegrityErrors(db);
      if findings != [] { return false; }
      var repaired, left := EnsureBoundaries([]);
      if repaired.Err? { return false; }
      assert Verification.LedgersAttested(db);
      if db.sequence == |db.log| { AttestedIsSound(db); }
      HeadOfAttested(db);
      var head := ReadBoundary(db, None);
      if head.Err? { return false; }
      ready := true;
      verifiedHead, verifiedLogSize, verifiedAt := head.value.head, head.value.logSize, at;
      error, lastRefresh := None, now;
      ok := true;
    }
  }

  lemma GateOfSound(db: Db, c: CheckpointView)
    requires Sound(db)
    ensures db.createdAt.Some? && Gate(db, c).Ok? && (Gate(db, c) == Ok(None) <==> Continues(db, c))
    ensures Gate(db, c).value == Some(RestoreBelowCheckpoint) <==> |db.log| < c.version || |db.log| < c.logSize
  {
    hide Sound, ReadBoundary, CompareCheckpoint;
    GateExact(db, c);
    ReadBoundaryExact(db, 0);
  }

  lemma AttestedIsSound(db: Db)
    requires Verification.Attested(db) && db.sequence == |db.log|
    ensures Sound(db)
  {
    hide CacheOk, ChainOk;
    forall f | f in db.imported
      ensures ImportRefOk(db.log, db.imported[f])
    {
      assert Verification.ImportOk(db.log, f, db.imported[f]);
    }
  }

  /** An attested file has a readable head, whatever AUTOINCREMENT has counted to. */
  lemma HeadOfAttested(db: Db)
    requires Verification.Attested(db)
    ensures var head := ReadBoundary(db, None);
            head.Ok? && head.value.head == HeadHash(db.log) && head.value.logSize == |db.log|
  {
    hide Verification.Attested, Sound, ReadBoundary, BoundaryAt;
    var counted := db.(sequence := |db.log|);
    SequenceUnread(db, counted);
    AttestedIsSound(counted);
    SoundParts(counted);
    ReadBoundaryExact(counted, 0);
    HeadOfAll(counted);
  }

  lemma SequenceUnread(db: Db, counted: Db)
    requires counted == db.(sequence := |db.log|)
    ensures ReadBoundary(counted, None) == ReadBoundary(db, None)
    ensures Verification.Attested(db) ==> Verification.Attested(counted)
  {
    hide ChainOk, BoundariesOk, FindRow;
  }

  lemma HeadOfAll(db: Db)
    requires db.createdAt.Some?
    ensures BoundaryAt(db, |db.log|).head == HeadHash(db.log) && BoundaryAt(db, |db.log|).logSize == |db.log|
  {
    assert db.log[..|db.log|] == db.log;
  }

  lemma AgreeIff(db: Db, expected: seq<BoundaryRow>)
    requires Numbered(db.log) && Merkle.Fits(|db.log|) && Verification.IsExpected(db.log, expected)
    ensures (forall k :: k in db.boundaries ==> 1 <= k <= |expected| && db.boundaries[k] == expected[k - 1])
            <==> Repairable(db)
  {
    hide BoundaryOf, Merkle.Fits;
    assert forall k :: 1 <= k <= |expected| ==> expected[k - 1] == BoundaryOf(db.log[..k]);
  }

  lemma LoadOfExact(log: seq<Row>)
    ensures Load(Save(LevelsOf(log))) == Ok(LevelsOf(log))
  {
    hide Merkle.FrontierOf, LoadFrom, SaveFrom;
    Frontier.AnchorsAcceptExact(PairHash, Genesis, Hashes(log));
    LoadSaveFrom(LevelsOf(log), 0);
  }

  /** Right rows for every size and the exact frontier are the full cache invariant. */
  lemma RepairedCache(db: Db, expected: seq<BoundaryRow>, after: Db)
    requires Repairable(db) && Verification.IsExpected(db.log, expected) && after.log == db.log
    requires Load(after.frontier) == Ok(LevelsOf(db.log))
    requires forall k :: k in after.boundaries <==> k in db.boundaries || 1 <= k <= |expected|
    requires forall k :: k in after.boundaries ==>
               after.boundaries[k] == if k in db.boundaries then db.boundaries[k] else expected[k - 1]
    ensures CacheOk(after)
  {
    hide BoundaryOf, Merkle.Fits, Merkle.FrontierOf, LoadFrom, SaveFrom;
    SaveLoadFrom(after.frontier, 0);
    assert forall k :: 1 <= k <= |expected| ==> expected[k - 1] == BoundaryOf(db.log[..k]);
  }

  lemma CacheUnique(a: Db, b: Db)
    requires CacheOk(a) && CacheOk(b) && a.log == b.log
    ensures a.boundaries == b.boundaries && a.frontier == b.frontier
  {
    hide BoundaryOf, Merkle.Fits, Merkle.FrontierOf, Save;
    assert forall k :: k in a.boundaries <==> k in b.boundaries;
    assert a.boundaries.Keys == b.boundaries.Keys;
    assert forall k :: k in a.boundaries ==> a.boundaries[k] == b.boundaries[k];
  }

  ghost predicate RecordImported(before: Db, fingerprint: Fingerprint, record: Record, createdAt: Timestamp,
                                 available: nat, after: Db, left: nat, r: Result<nat, StoreError>)
  {
    && (r.Ok? && fingerprint in before.imported ==> after == before && r.value == 0)
    && (r.Ok? && fingerprint !in before.imported ==>
          && Appendable(record) && Merkle.Fits(|before.log| + 1)
          && after == ImportOne(before, fingerprint, record, createdAt)
          && r.value == 1 && |after.log| == |before.log| + 1)
    && (r.Err? && r.error.Corrupt? ==> !Merkle.Fits(|before.log| + 1))
    && (Appendable(record) && Merkle.Fits(|before.log| + 1) && available >= 9 ==> r.Ok? && left >= available - 9)
  }

  /** A committed batch: the plain result, the high-water raised if asked, the verdict advanced. */
  ghost predicate BatchCommitted(s: StoreState, batch: Batch, createdAt: Timestamp, raise: Option<HighWater>,
                                 s': StoreState, imported: nat)
  {
    var added := ImportBatch(s.db, batch, createdAt);
    && added.Some? && Merkle.Fits(|added.value.log|)
    && s'.db == (if raise.None? then added.value else Raised(added.value, raise.value, AdvancedTo))
    && imported == |s'.db.log| - |s.db.log|
    && s'.health == AdvancedIfAny(s.health, s.db, s'.db)
  }

  ghost predicate AllAppendable(batch: Batch) {
    forall k :: 0 <= k < |batch| ==> Appendable(batch[k].1)
  }

  /** What adding a batch to a sound database comes to; nine statements a record suffice. */
  ghost predicate Imported(before: Db, batch: Batch, createdAt: Timestamp, available: nat,
                           after: Db, left: nat, r: Result<nat, StoreError>)
  {
    && (r.Ok? ==> ImportBatch(before, batch, createdAt) == Some(after) && Merkle.Fits(|after.log|)
                  && r.value == |after.log| - |before.log|)
    && (r.Err? && r.error.Corrupt? ==> !Merkle.Fits(|before.log| + |batch|))
    && (AllAppendable(batch) && available >= 9 * |batch| && Merkle.Fits(|before.log| + |batch|) ==>
          r.Ok? && left >= available - 9 * |batch|)
  }

  lemma FitsBelow(n: nat, m: nat)
    ensures n <= m && Merkle.Fits(m) ==> Merkle.Fits(n)
  {
  }

  lemma SoundFits(db: Db)
    requires Sound(db)
    ensures Merkle.Fits(|db.log|)
  {
  }

  /** A remembered key of a sound database has its response. */
  lemma KnownResponse(db: Db, time: int, key: (string, string))
    requires Sound(db) && key in Unexpired(db.idempotency, time)
    ensures Unexpired(db.idempotency, time)[key].response.Some?
  {
    assert IdempotencyOk(db.log, key, db.idempotency[key]);
  }

  lemma PutEntryHead(db: Db, record: Record, createdAt: Timestamp)
    requires Appendable(record)
    ensures var log := PutEntry(db, record, createdAt).log;
            && log == db.log + [NewRow(db.log, record, createdAt)]
            && |log| == |db.log| + 1 && HeadHash(log) == Entry(HeadHash(db.log), record.body)
            && EntryOf(db.log, record).entryHash == HeadHash(log) && EntryOf(db.log, record).seqNo == |log|
  {
  }
}
