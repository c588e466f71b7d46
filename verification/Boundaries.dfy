/**
 Snapshot boundaries: the constant-time read of a committed prefix, what a boundary binds,
 and the startup gate that compares a live store with a checkpoint.
 */
module Boundaries {
  import opened Outcomes
  import opened Records
  import opened Ledger
  import Merkle
  import Frontier

  datatype SnapshotBoundary = SnapshotBoundary(version: int, logSize: int, head: Digest, merkleRoot: Digest,
                                               createdAt: Timestamp)

  datatype BoundaryError = Unavailable | CacheGone | AnchorMismatch | NotContiguous | NoCreationTime

  /** Reads one memoized boundary row and checks its two anchors in the log. */
  function ReadBoundary(db: Db, maxSeq: Option<int>): Result<SnapshotBoundary, BoundaryError> {
    var current := LastSeq(db.log);
    var size := if maxSeq.None? then current else maxSeq.value;
    if size < 0 || size > current then Err(Unavailable)
    else if size == 0 then
      if db.createdAt.None? then Err(NoCreationTime)
      else Ok(SnapshotBoundary(0, 0, Genesis, Genesis, db.createdAt.value))
    else if size !in db.boundaries then Err(CacheGone)
    else
      var cached := db.boundaries[size];
      var anchor := FindRow(db.log, size);
      if anchor.None? || anchor.value.entryHash != cached.head || anchor.value.createdAt != cached.createdAt
      then Err(AnchorMismatch)
      else if FindRow(db.log, 1).None? then Err(NotContiguous)
      else Ok(SnapshotBoundary(size, size, cached.head, cached.merkleRoot, cached.createdAt))
  }

  /** The boundary of a prefix, from the log alone. */
  function BoundaryAt(db: Db, size: nat): SnapshotBoundary
    requires size <= |db.log| && db.createdAt.Some?
  {
    if size == 0 then SnapshotBoundary(0, 0, Genesis, Genesis, db.createdAt.value)
    else
      var row := BoundaryOf(db.log[..size]);
      SnapshotBoundary(size, size, row.head, row.merkleRoot, row.createdAt)
  }

  /** The boundary of a prefix, field by field. */
  lemma BoundaryExact(db: Db, size: nat)
    requires size <= |db.log| && db.createdAt.Some?
    ensures var b := BoundaryAt(db, size);
            && b.version == size && b.logSize == size
            && b.merkleRoot == Merkle.Root(PairHash, Genesis, Hashes(db.log[..size]))
            && if size == 0 then b.head == Genesis && Some(b.createdAt) == db.createdAt
               else b.head == db.log[size - 1].entryHash && b.createdAt == db.log[size - 1].createdAt
  {
    hide Hashes;
    if size == 0 { assert Hashes(db.log[..0]) == []; }
  }

  /** In a sound store the cached read is the boundary recomputed from the log, for every
      committed size and for no other. */
  lemma ReadBoundaryExact(db: Db, size: int)
    requires Sound(db)
    ensures ReadBoundary(db, Some(size)) == if 0 <= size <= |db.log| then Ok(BoundaryAt(db, size)) else Err(Unavailable)
    ensures ReadBoundary(db, None) == Ok(BoundaryAt(db, |db.log|))
  {
    hide LedgersOk, Merkle.Root, FindRow, Hashes;
    FindRowInChain(db.log, 1);
    if db.log != [] {
      assert RowOk(db.log, |db.log| - 1);
      FindRowInChain(db.log, |db.log|);
    }
    if 1 <= size <= |db.log| {
      FindRowInChain(db.log, size);
    }
  }

  /** A boundary once committed reads the same in every later state. */
  lemma BoundaryStable(earlier: Db, later: Db, size: nat)
    requires Sound(earlier) && Sound(later) && Grew(earlier, later) && size <= |earlier.log|
    ensures BoundaryAt(later, size) == BoundaryAt(earlier, size)
  {
    assert later.log[..size] == earlier.log[..size];
  }

  // ---------------------------------------------------------------- what a boundary binds

  /** The record bodies of a log: what its hashes commit to. Signatures are not covered. */
  function Bodies(log: seq<Row>): (bodies: seq<Option<Body>>)
    ensures |bodies| == |log|
    ensures forall i :: 0 <= i < |log| ==>
              bodies[i] == if log[i].record.Some? then Some(log[i].record.value.body) else None
  {
    if log == [] then []
    else
      var last := log[|log| - 1];
      Bodies(log[..|log| - 1]) + [if last.record.Some? then Some(last.record.value.body) else None]
  }

  lemma ChainOfPrefix(log: seq<Row>, k: nat)
    requires ChainOk(log) && k <= |log|
    ensures ChainOk(log[..k])
  {
    forall i | 0 <= i < k
      ensures RowOk(log[..k], i)
    {
      assert RowOk(log, i);
      assert log[..k][..i] == log[..i];
    }
  }

  /** The head of a chain determines its size and every record body in it. */
  lemma {:induction false} HeadBinds(a: seq<Row>, b: seq<Row>)
    requires ChainOk(a) && ChainOk(b) && HeadHash(a) == HeadHash(b)
    ensures Bodies(a) == Bodies(b) && Hashes(a) == Hashes(b)
    decreases |a|
  {
    hide Hashes, Bodies;
    if a != [] { assert RowOk(a, |a| - 1); }
    if b != [] { assert RowOk(b, |b| - 1); }
    if a != [] && b != [] {
      ChainOfPrefix(a, |a| - 1);
      ChainOfPrefix(b, |b| - 1);
      var a', b' := a[..|a| - 1], b[..|b| - 1];
      HeadBinds(a', b');
      assert a == a' + [a[|a| - 1]] && b == b' + [b[|b| - 1]];
      HashesOfLonger(a', a[|a| - 1]);
      HashesOfLonger(b', b[|b| - 1]);
      assert forall i :: 0 <= i < |a'| ==> Bodies(a)[i] == Bodies(a')[i] && Bodies(b)[i] == Bodies(b')[i];
      assert Bodies(a) == Bodies(b);
    }
  }

  /** Conversely, equal bodies give equal heads and equal roots. */
  lemma {:induction false} BodiesDetermine(a: seq<Row>, b: seq<Row>)
    requires ChainOk(a) && ChainOk(b) && Bodies(a) == Bodies(b)
    ensures HeadHash(a) == HeadHash(b) && Hashes(a) == Hashes(b)
    decreases |a|
  {
    hide Hashes, Bodies;
    if a != [] {
      var n := |a| - 1;
      assert RowOk(a, n) && RowOk(b, n);
      ChainOfPrefix(a, n);
      ChainOfPrefix(b, n);
      var a', b' := a[..n], b[..n];
      assert forall i :: 0 <= i < n ==> Bodies(a')[i] == Bodies(a)[i] && Bodies(b')[i] == Bodies(b)[i];
      assert Bodies(a') == Bodies(b');
      BodiesDetermine(a', b');
      assert Bodies(a)[n] == Bodies(b)[n];
      assert a == a' + [a[n]] && b == b' + [b[n]];
      HashesOfLonger(a', a[n]);
      HashesOfLonger(b', b[n]);
    }
  }

  /** Size and Merkle root alone also bind the bodies. */
  lemma RootBindsBodies(a: seq<Row>, b: seq<Row>)
    requires ChainOk(a) && ChainOk(b) && |a| == |b| && RootOf(a) == RootOf(b)
    ensures Bodies(a) == Bodies(b)
  {
    hide Hashes, Bodies, Merkle.Root;
    Frontier.RootBinds(PairHash, Genesis, Hashes(a), Hashes(b));
    if a != [] {
      assert Hashes(a)[|a| - 1] == Hashes(b)[|b| - 1];
    }
    HeadBinds(a, b);
  }

  // ---------------------------------------------------------------- the startup gate

  datatype CheckpointView = CheckpointView(version: int, logSize: int, head: Digest, merkleRoot: Digest,
                                           createdAt: Timestamp)

  datatype Refusal = RestoreBelowCheckpoint | RestoreInconsistentWithCheckpoint

  function CompareCheckpoint(live: SnapshotBoundary, checkpoint: CheckpointView, prefix: Option<SnapshotBoundary>)
    : Option<Refusal>
  {
    if live.version < checkpoint.version || live.logSize < checkpoint.logSize then Some(RestoreBelowCheckpoint)
    else if live.version == checkpoint.version then
      if live.head == checkpoint.head && live.merkleRoot == checkpoint.merkleRoot && live.logSize == checkpoint.logSize
      then None
      else Some(RestoreInconsistentWithCheckpoint)
    else if prefix.Some? && prefix.value.head == checkpoint.head && prefix.value.merkleRoot == checkpoint.merkleRoot
    then None
    else Some(RestoreInconsistentWithCheckpoint)
  }

  /** The comparison as the store makes it: the prefix is read only when the live state is ahead. */
  function Gate(db: Db, checkpoint: CheckpointView): Result<Option<Refusal>, BoundaryError> {
    match ReadBoundary(db, None)
    case Err(e) => Err(e)
    case Ok(live) =>
      var prefix := if live.version > checkpoint.version then
                      match ReadBoundary(db, Some(checkpoint.logSize))
                      case Ok(b) => Some(b)
                      case Err(_) => None
                    else None;
      Ok(CompareCheckpoint(live, checkpoint, prefix))
  }

  /** The exact-match test, which also compares the creation time. */
  predicate CheckpointMatches(db: Db, checkpoint: SnapshotBoundary) {
    ReadBoundary(db, Some(checkpoint.logSize)) == Ok(checkpoint)
  }

  function ViewOf(b: SnapshotBoundary): CheckpointView {
    CheckpointView(b.version, b.logSize, b.head, b.merkleRoot, b.createdAt)
  }

  /** The checkpoint is of this version and the full log, or of an older version, and its log size
      has that head and root here. */
  ghost predicate Continues(db: Db, c: CheckpointView)
    requires db.createdAt.Some?
  {
    && c.version <= |db.log| && 0 <= c.logSize <= |db.log|
    && (c.version == |db.log| ==> c.logSize == |db.log|)
    && BoundaryAt(db, c.logSize).head == c.head && BoundaryAt(db, c.logSize).merkleRoot == c.merkleRoot
  }

  /** For any checkpoint at all, the gate of a sound store passes exactly those its log continues. */
  lemma GateExact(db: Db, c: CheckpointView)
    requires Sound(db)
    ensures db.createdAt.Some?
    ensures Gate(db, c) == Ok(None) <==> Continues(db, c)
    ensures Gate(db, c) == Ok(Some(RestoreBelowCheckpoint)) <==> |db.log| < c.version || |db.log| < c.logSize
    ensures Gate(db, c) == Ok(Some(RestoreInconsistentWithCheckpoint)) <==>
              c.version <= |db.log| && c.logSize <= |db.log| && !Continues(db, c)
  {
    hide Sound, ReadBoundary, Hashes, Merkle.Root, FindRow;
    SoundParts(db);
    ReadBoundaryExact(db, c.logSize);
  }

  /** The gate accepts a checkpoint of another sound store exactly when that store's record
      bodies are a prefix of the live ones. */
  lemma GateIffPrefix(live: Db, other: Db)
    requires Sound(live) && Sound(other)
    ensures Gate(live, ViewOf(BoundaryAt(other, |other.log|))) == Ok(None)
            <==> Bodies(other.log) <= Bodies(live.log)
  {
    hide Sound, ReadBoundary, Hashes, Bodies, Merkle.Root, FindRow;
    SoundParts(live);
    SoundParts(other);
    var n, m := |other.log|, |live.log|;
    ReadBoundaryExact(live, n);
    assert other.log[..n] == other.log && live.log[..m] == live.log;
    if n <= m {
      var prefix := live.log[..n];
      ChainOfPrefix(live.log, n);
      assert forall i :: 0 <= i < n ==> Bodies(prefix)[i] == Bodies(live.log)[i];
      assert Bodies(prefix) == Bodies(live.log)[..n];
      if HeadHash(prefix) == HeadHash(other.log) {
        HeadBinds(prefix, other.log);
      }
      if Bodies(prefix) == Bodies(other.log) {
        BodiesDetermine(prefix, other.log);
      }
    }
  }

  lemma SoundParts(db: Db)
    requires Sound(db)
    ensures ChainOk(db.log) && db.createdAt.Some?
  {
  }

  /** An exact match is never refused by the gate. */
  lemma MatchImpliesAccept(db: Db, checkpoint: SnapshotBoundary)
    requires Sound(db)
    ensures db.createdAt.Some?
    ensures CheckpointMatches(db, checkpoint) <==>
              0 <= checkpoint.logSize <= |db.log| && checkpoint == BoundaryAt(db, checkpoint.logSize)
    ensures CheckpointMatches(db, checkpoint) ==> Gate(db, ViewOf(checkpoint)) == Ok(None)
  {
    hide Sound, ReadBoundary, Hashes, Merkle.Root, FindRow;
    SoundParts(db);
    ReadBoundaryExact(db, checkpoint.logSize);
  }

  /** A checkpoint taken earlier in the same history is never refused. */
  lemma EarlierCheckpointAccepted(earlier: Db, live: Db)
    requires Sound(earlier) && Sound(live) && Grew(earlier, live)
    ensures Gate(live, ViewOf(BoundaryAt(earlier, |earlier.log|))) == Ok(None)
  {
    hide Hashes, Bodies, Gate, Sound, BoundaryAt;
    SoundParts(earlier);
    GateIffPrefix(live, earlier);
    var n := |earlier.log|;
    assert forall i :: 0 <= i < n ==> Bodies(earlier.log)[i] == Bodies(live.log)[i];
    assert Bodies(earlier.log) == Bodies(live.log)[..n];
  }
}
