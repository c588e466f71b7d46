/**
 The full verification of one database snapshot: the walk over the hash chain and the
 ledgers, then the comparison of the memoized caches with their recomputation. It reports
 nothing exactly when the snapshot is `Attested`.
 */
module Verification {
  import opened Outcomes
  import opened Records
  import opened Ledger
  import Merkle
  import Frontier

  datatype Finding =
    | BadMetadata
    | BadSequence(seqNo: int)
    | BadRecordJson(seqNo: int)
    | WrongPrevious(seqNo: int)
    | WrongHash(seqNo: int)
    | BadCreationTime(seqNo: int)
    | InconsistentColumns(seqNo: int)
    | BadIdempotency(key: (string, string))
    | BadImport(fingerprint: Fingerprint)
    | BadHighWater(keyId: string)
    | CacheMissing(size: int)
    | CacheDisagrees(size: int)
    | CacheOutOfRange(size: int)
    | FrontierLength
    | FrontierTails
    | FrontierInvalid
    | WalkRaised                   // a read failed before the walk was done

  // ---------------------------------------------------------------- what is verified

  predicate StampOk(row: Row) { row.createdAt.Utc? }

  predicate ImportOk(log: seq<Row>, fingerprint: Fingerprint, row: ImportRow) {
    ImportRefOk(log, row) && ImportFingerprint(log[row.seqNo.value - 1].record) == Some(fingerprint)
  }

  predicate HighWaterOk(keyId: string, row: HighWater) {
    && |keyId| == 16 && (forall i :: 0 <= i < |keyId| ==> keyId[i] in "0123456789abcdef")
    && 0 <= row.logSize <= row.version
    && row.updatedAt.Utc?
  }

  ghost predicate LogAttested(log: seq<Row>) {
    ChainOk(log) && forall i :: 0 <= i < |log| ==> StampOk(log[i])
  }

  ghost predicate LedgersAttested(db: Db) {
    && (forall k :: k in db.idempotency ==> IdempotencyOk(db.log, k, db.idempotency[k]))
    && (forall f :: f in db.imported ==> ImportOk(db.log, f, db.imported[f]))
    && (forall k :: k in db.highWater ==> HighWaterOk(k, db.highWater[k]))
  }

  /** Chain, columns, timestamps, ledgers, boundary rows and frontier all equal their recomputation. */
  ghost predicate Attested(db: Db) {
    && db.createdAt.Some? && db.createdAt.value.Utc?
    && LogAttested(db.log) && LedgersAttested(db) && CacheOk(db)
  }

  /** What attestation says of the ledgers, field by field: every remembered key has a proper
      auditor, key and digest and answers with the entry it names; every import row names a record
      that carries its fingerprint; every mark has a proper key id, sizes and time. */
  lemma LedgersExact(db: Db)
    ensures LedgersAttested(db) <==>
              && (forall k {:trigger db.idempotency[k]} :: k in db.idempotency ==>
                    var row := db.idempotency[k];
                    && k.0 != "" && k.1 != "" && |k.1| <= 256 && Visible(k.1) && HexText(row.bodySha256, 64)
                    && 1 <= row.seqNo <= |db.log| && row.response.Some?
                    && row.response.value.seqNo == row.seqNo
                    && row.response.value.entryHash == db.log[row.seqNo - 1].entryHash)
              && (forall f {:trigger db.imported[f]} :: f in db.imported ==>
                    var at := db.imported[f].seqNo;
                    && at.Some? && 1 <= at.value <= |db.log|
                    && ImportFingerprint(db.log[at.value - 1].record) == Some(f))
              && (forall k {:trigger db.highWater[k]} :: k in db.highWater ==>
                    var row := db.highWater[k];
                    HexText(k, 16) && 0 <= row.logSize && row.logSize <= row.version && row.updatedAt.Utc?)
  {
    HexDigits();
    hide ImportFingerprint;
    forall k | k in db.idempotency
      ensures IdempotencyOk(db.log, k, db.idempotency[k]) <==>
                var row := db.idempotency[k];
                && k.0 != "" && k.1 != "" && |k.1| <= 256 && Visible(k.1) && HexText(row.bodySha256, 64)
                && 1 <= row.seqNo <= |db.log| && row.response.Some?
                && row.response.value.seqNo == row.seqNo
                && row.response.value.entryHash == db.log[row.seqNo - 1].entryHash
    {
    }
  }

  /** What attestation says in all: a proper creation time, a good chain of rows with proper times,
      proper ledgers, a right row for every size and for no other, and the exact frontier. */
  lemma AttestedExact(db: Db)
    ensures Attested(db) <==>
              && (exists t :: db.createdAt == Some(Utc(t)))
              && (forall i :: 0 <= i < |db.log| ==> Linked(db.log, i) && exists t :: db.log[i].createdAt == Utc(t))
              && LedgersAttested(db)
              && (forall k :: k in db.boundaries <==> 1 <= k <= |db.log|)
              && (forall k :: 1 <= k <= |db.log| ==> RightRow(db.log, k, db.boundaries[k]))
              && Load(db.frontier) == Ok(LevelsOf(db.log)) && Merkle.Fits(|db.log|)
  {
    hide Linked, ChainOk, LedgersAttested, RootOf, RightRow, BoundariesOk, LevelsOf, Load, Save, Merkle.Fits;
    ChainExact(db.log);
    ExactFrontier(db);
    RowsExact(db);
    assert db.createdAt.Some? && db.createdAt.value.Utc? <==> exists t :: db.createdAt == Some(Utc(t)) by {
      if db.createdAt.Some? && db.createdAt.value.Utc? {
        assert db.createdAt == Some(Utc(db.createdAt.value.seconds));
      }
    }
    forall i | 0 <= i < |db.log|
      ensures StampOk(db.log[i]) <==> exists t :: db.log[i].createdAt == Utc(t)
    {
      if StampOk(db.log[i]) { assert db.log[i].createdAt == Utc(db.log[i].createdAt.seconds); }
    }
  }

  /** Hash and time of the last entry of a prefix, and its root. */
  ghost predicate RightRow(log: seq<Row>, k: nat, row: BoundaryRow)
    requires 1 <= k <= |log|
  {
    var last := log[k - 1];
    row.head == last.entryHash && row.createdAt == last.createdAt
    && row.merkleRoot == Merkle.Root(PairHash, Genesis, Hashes(log[..k]))
  }

  lemma ExactFrontier(db: Db)
    ensures db.frontier == Save(LevelsOf(db.log)) <==> Load(db.frontier) == Ok(LevelsOf(db.log))
  {
    hide Merkle.FrontierOf, LoadFrom, SaveFrom, Hashes;
    Frontier.AnchorsAcceptExact(PairHash, Genesis, Hashes(db.log));
    LoadSaveFrom(LevelsOf(db.log), 0);
    SaveLoadFrom(db.frontier, 0);
  }

  lemma RowsExact(db: Db)
    ensures BoundariesOk(db.log, db.boundaries) <==>
              && (forall k :: k in db.boundaries <==> 1 <= k <= |db.log|)
              && (forall k :: 1 <= k <= |db.log| ==> RightRow(db.log, k, db.boundaries[k]))
  {
    hide Merkle.Root, Hashes;
    assert forall k :: k in db.boundaries && 1 <= k <= |db.log| ==>
             (db.boundaries[k] == BoundaryOf(db.log[..k]) <==> RightRow(db.log, k, db.boundaries[k]));
  }

  // ---------------------------------------------------------------- the chain walk

  /** The findings of one row, given what the walk carries from the row before. */
  function RowFindings(row: Row, expectedSeq: int, previous: Digest): seq<Finding> {
    var body := if row.record.Some? then Some(row.record.value.body) else None;
    var expectedHash := if row.record.Some? then Entry(previous, row.record.value.body) else Bare(previous);
    (if row.seqNo != expectedSeq then [BadSequence(row.seqNo)] else [])
    + (if row.record.None? then [BadRecordJson(row.seqNo)] else [])
    + (if row.prevHash != previous then [WrongPrevious(row.seqNo)] else [])
    + (if row.entryHash != expectedHash then [WrongHash(row.seqNo)] else [])
    + (if !row.createdAt.Utc? then [BadCreationTime(row.seqNo)] else [])
    + (if row.record.None? || !ColumnsOk(row) then [InconsistentColumns(row.seqNo)] else [])
  }

  method WalkChain(log: seq<Row>) returns (findings: seq<Finding>)
    ensures findings == [] <==> LogAttested(log)
  {
    findings := [];
    var previous, expectedSeq := Genesis, 1;
    for i := 0 to |log|
      invariant previous == HeadHash(log[..i])
      invariant findings == [] ==> expectedSeq == i + 1
      invariant findings == [] <==> forall j :: 0 <= j < i ==> RowOk(log, j) && StampOk(log[j])
    {
      var row := log[i];
      var found := RowFindings(row, expectedSeq, previous);
      assert findings == [] ==> (found == [] <==> RowOk(log, i) && StampOk(row));
      findings := findings + found;
      previous := row.entryHash;
      assert log[..i + 1][i] == row;
      expectedSeq := row.seqNo + 1;
    }
  }

  // ---------------------------------------------------------------- the ledger walks

  /** The idempotency check as made: by lookup in the walked log. */
  predicate IdempotencyRowOk(log: seq<Row>, key: (string, string), row: IdempotencyRow) {
    var found := FindRow(log, row.seqNo);
    && key.0 != "" && KeyOk(key.1) && Hex256(row.bodySha256)
    && row.response.Some? && found.Some?
    && row.response.value == Response(row.seqNo, found.value.entryHash)
  }

  predicate ImportRowOk(log: seq<Row>, fingerprint: Fingerprint, row: ImportRow) {
    && row.seqNo.Some?
    && var found := FindRow(log, row.seqNo.value);
    && found.Some? && ImportFingerprint(found.value.record) == Some(fingerprint)
  }

  method WalkIdempotency(db: Db) returns (findings: seq<Finding>)
    ensures findings == [] <==> forall k :: k in db.idempotency ==> IdempotencyRowOk(db.log, k, db.idempotency[k])
  {
    findings := [];
    var keys := db.idempotency.Keys;
    while keys != {}
      invariant keys <= db.idempotency.Keys
      invariant findings == [] <==>
                forall k :: k in db.idempotency && k !in keys ==> IdempotencyRowOk(db.log, k, db.idempotency[k])
      decreases |keys|
    {
      var k :| k in keys;
      if !IdempotencyRowOk(db.log, k, db.idempotency[k]) { findings := findings + [BadIdempotency(k)]; }
      keys := keys - {k};
    }
  }

  method WalkImports(db: Db) returns (findings: seq<Finding>)
    ensures findings == [] <==> forall f :: f in db.imported ==> ImportRowOk(db.log, f, db.imported[f])
  {
    findings := [];
    var keys := db.imported.Keys;
    while keys != {}
      invariant keys <= db.imported.Keys
      invariant findings == [] <==>
                forall f :: f in db.imported && f !in keys ==> ImportRowOk(db.log, f, db.imported[f])
      decreases |keys|
    {
      var f :| f in keys;
      if !ImportRowOk(db.log, f, db.imported[f]) { findings := findings + [BadImport(f)]; }
      keys := keys - {f};
    }
  }

  method WalkHighWater(db: Db) returns (findings: seq<Finding>)
    ensures findings == [] <==> forall k :: k in db.highWater ==> HighWaterOk(k, db.highWater[k])
  {
    findings := [];
    var keys := db.highWater.Keys;
    while keys != {}
      invariant keys <= db.highWater.Keys
      invariant findings == [] <==>
                forall k :: k in db.highWater && k !in keys ==> HighWaterOk(k, db.highWater[k])
      decreases |keys|
    {
      var k :| k in keys;
      if !HighWaterOk(k, db.highWater[k]) { findings := findings + [BadHighWater(k)]; }
      keys := keys - {k};
    }
  }

  lemma LookupsInChain(db: Db)
    requires ChainOk(db.log)
    ensures forall k :: k in db.idempotency ==>
              (IdempotencyRowOk(db.log, k, db.idempotency[k]) <==> IdempotencyOk(db.log, k, db.idempotency[k]))
    ensures forall f :: f in db.imported ==>
              (ImportRowOk(db.log, f, db.imported[f]) <==> ImportOk(db.log, f, db.imported[f]))
  {
    forall n: int
      ensures FindRow(db.log, n) == if 1 <= n <= |db.log| then Some(db.log[n - 1]) else None
    {
      FindRowInChain(db.log, n);
    }
  }

  /** The chain and ledger walk of one snapshot. */
  method IntegrityErrors(db: Db) returns (findings: seq<Finding>)
    ensures findings == [] <==>
            db.createdAt.Some? && db.createdAt.value.Utc? && LogAttested(db.log) && LedgersAttested(db)
  {
    hide IdempotencyRowOk, ImportRowOk, IdempotencyOk, ImportOk, HighWaterOk, ChainOk, FindRow;
    findings := if db.createdAt.Some? && db.createdAt.value.Utc? then [] else [BadMetadata];
    var chain := WalkChain(db.log);
    var idempotency := WalkIdempotency(db);
    var imports := WalkImports(db);
    var highWater := WalkHighWater(db);
    if chain == [] { LookupsInChain(db); }
    findings := findings + chain + idempotency + imports + highWater;
  }

  // ---------------------------------------------------------------- the cache comparison

  ghost predicate CacheMatches(expected: seq<BoundaryRow>, stored: map<int, BoundaryRow>, live: int,
                               frontierLength: Option<int>, levels: seq<Merkle.Level<Digest>>,
                               recomputed: seq<Merkle.Level<Digest>>)
  {
    && (forall k :: 1 <= k <= |expected| ==> k in stored && stored[k] == expected[k - 1])
    && (forall k :: k in stored ==> 1 <= k <= live)
    && (frontierLength == Some(live) || (frontierLength.None? && live == 0))
    && (live == |expected| ==> levels == recomputed)
  }

  /** The pure comparator: rows between the walked size and the live size are concurrent
      appends and are left for the next pass. */
  method BoundaryCacheErrors(expected: seq<BoundaryRow>, stored: map<int, BoundaryRow>, live: int,
                             frontierLength: Option<int>, levels: seq<Merkle.Level<Digest>>,
                             recomputed: seq<Merkle.Level<Digest>>) returns (findings: seq<Finding>)
    ensures findings == [] <==> CacheMatches(expected, stored, live, frontierLength, levels, recomputed)
  {
    findings := [];
    for i := 0 to |expected|
      invariant findings == [] <==> forall k :: 1 <= k <= i ==> k in stored && stored[k] == expected[k - 1]
    {
      var size := i + 1;
      if size !in stored {
        findings := findings + [CacheMissing(size)];
      } else if stored[size] != expected[i] {
        findings := findings + [CacheDisagrees(size)];
      }
    }
    ghost var rowsMatch := findings == [];
    var keys := stored.Keys;
    while keys != {}
      invariant keys <= stored.Keys
      invariant findings == [] <==> rowsMatch && forall k :: k in stored && k !in keys ==> 1 <= k <= live
      decreases |keys|
    {
      ghost var member := SomeMember(keys);
      var k :| k in keys;
      if k < 1 || k > live { findings := findings + [CacheOutOfRange(k)]; }
      keys := keys - {k};
    }
    if !(frontierLength == Some(live) || (frontierLength.None? && live == 0)) {
      findings := findings + [FrontierLength];
    } else if live == |expected| {
      if levels != recomputed { findings := findings + [FrontierTails]; }
    }
  }

  // ---------------------------------------------------------------- recomputation and the whole pass

  ghost predicate IsExpected(log: seq<Row>, rows: seq<BoundaryRow>) {
    |rows| == |log| && forall k :: 0 <= k < |log| ==> rows[k] == BoundaryOf(log[..k + 1])
  }

  lemma SomeMember<T>(s: set<T>) returns (x: T)
    requires s != {}
    ensures x in s
  {
    x :| x in s;
  }

  /** Whether every stored row is in range and equal to the recomputed one. */
  method StoredRowsAgree(stored: map<int, BoundaryRow>, expected: seq<BoundaryRow>) returns (ok: bool)
    ensures ok <==> forall k :: k in stored ==> 1 <= k <= |expected| && stored[k] == expected[k - 1]
  {
    ok := true;
    var keys := stored.Keys;
    while keys != {}
      invariant keys <= stored.Keys
      invariant ok <==> forall k :: k in stored && k !in keys ==> 1 <= k <= |expected| && stored[k] == expected[k - 1]
      decreases |keys|
    {
      ghost var member := SomeMember(keys);
      var k :| k in keys;
      if k < 1 || k > |expected| || stored[k] != expected[k - 1] { ok := false; }
      keys := keys - {k};
    }
  }

  lemma HashesOfPrefix(log: seq<Row>, k: nat)
    requires k <= |log|
    ensures Hashes(log[..k]) == Hashes(log)[..k]
  {
  }

  /** Every prefix boundary and the frontier, recomputed from the log alone. */
  method RecomputeRows(log: seq<Row>)
    returns (r: Result<(seq<BoundaryRow>, seq<Merkle.Level<Digest>>), Merkle.FrontierError>)
    ensures r.Ok? <==> Merkle.Fits(|log|)
    ensures r.Ok? ==> IsExpected(log, r.value.0) && r.value.1 == LevelsOf(log)
  {
    hide Merkle.Root, Merkle.FrontierOf, Merkle.Fits, Hashes;
    var hashes := Hashes(log);
    var recomputed := Frontier.RecomputePrefix(PairHash, Genesis, hashes);
    if recomputed.Err? { return Err(recomputed.error); }
    var rows: seq<BoundaryRow> := [];
    for i := 0 to |log|
      invariant |rows| == i
      invariant forall k :: 0 <= k < i ==> rows[k] == BoundaryOf(log[..k + 1])
    {
      HashesOfPrefix(log, i + 1);
      rows := rows + [BoundaryRow(log[i].entryHash, recomputed.value.0[i], log[i].createdAt)];
    }
    r := Ok((rows, recomputed.value.1));
  }

  /** `SELECT len FROM merkle_frontier WHERE level = 0`. */
  function BaseLength(rows: seq<FrontierRow>): Option<int> {
    if rows == [] then None else if rows[0].level == 0 then Some(rows[0].length) else BaseLength(rows[1..])
  }

  /** On one snapshot of a good chain the comparison passes exactly when the caches are exact. */
  lemma CacheMatchesIff(db: Db, expected: seq<BoundaryRow>)
    requires ChainOk(db.log) && Merkle.Fits(|db.log|) && IsExpected(db.log, expected)
    ensures CacheOk(db) ==> Load(db.frontier).Ok?
    ensures Load(db.frontier).Ok? ==>
              (CacheOk(db) <==>
                CacheMatches(expected, db.boundaries, LastSeq(db.log), BaseLength(db.frontier),
                             Load(db.frontier).value, LevelsOf(db.log)))
  {
    hide Merkle.Root, Merkle.FrontierOf, Merkle.Fits, BoundaryOf;
    var log := db.log;
    assert LastSeq(log) == |log| by {
      if log != [] { assert RowOk(log, |log| - 1); }
    }
    Frontier.AnchorsAcceptExact(PairHash, Genesis, Hashes(log));
    LoadSaveFrom(LevelsOf(log), 0);
    SaveLoadFrom(db.frontier, 0);
    BaseLengthOf(log);
    var matches := forall k :: 1 <= k <= |expected| ==> k in db.boundaries && db.boundaries[k] == expected[k - 1];
    var inRange := forall k :: k in db.boundaries ==> 1 <= k <= |log|;
    assert matches && inRange <==> BoundariesOk(log, db.boundaries) by {
      if BoundariesOk(log, db.boundaries) {
        forall k | 1 <= k <= |expected|
          ensures k in db.boundaries && db.boundaries[k] == expected[k - 1]
        {
        }
      }
      if matches && inRange {
        forall k | 1 <= k <= |log|
          ensures k in db.boundaries && db.boundaries[k] == BoundaryOf(log[..k])
        {
          assert expected[k - 1] == BoundaryOf(log[..k]);
        }
      }
    }
  }

  lemma BaseLengthOf(log: seq<Row>)
    ensures BaseLength(Save(LevelsOf(log))) == if log == [] then None else Some(|log|)
  {
    if log != [] { Merkle.FrontierStep(PairHash, Hashes(log)); }
  }

  /** One full pass over a snapshot. */
  method VerifySnapshot(db: Db) returns (findings: seq<Finding>)
    ensures findings == [] <==> Attested(db)
  {
    hide LogAttested, LedgersAttested, CacheOk, IsExpected, Load, LevelsOf, Merkle.Fits, CacheMatches;
    findings := IntegrityErrors(db);
    if findings != [] { return; }
    ChainOfAttested(db.log);
    CacheFits(db);
    var recomputed := RecomputeRows(db.log);
    if recomputed.Err? { return [FrontierInvalid]; }
    CacheMatchesIff(db, recomputed.value.0);
    var loaded := Load(db.frontier);
    if loaded.Err? { return [FrontierInvalid]; }
    findings := BoundaryCacheErrors(recomputed.value.0, db.boundaries, LastSeq(db.log), BaseLength(db.frontier),
                                    loaded.value, recomputed.value.1);
  }

  lemma ChainOfAttested(log: seq<Row>)
    requires LogAttested(log)
    ensures ChainOk(log)
  {
  }

  lemma CacheFits(db: Db)
    ensures CacheOk(db) ==> Merkle.Fits(|db.log|)
  {
  }
}
