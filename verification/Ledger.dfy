/**
 The database: its tables as values, what it means for them to be sound, and the plain
 definition of adding one entry.
 */
module Ledger {
  import opened Outcomes
  import opened Records
  import opened Merkle
  import Frontier

  datatype Row = Row(
    seqNo: int,
    entryHash: Digest,
    prevHash: Digest,
    name: string,
    sourceIdentity: string,
    commit: string,
    contentSha256: string,
    status: string,
    record: Option<Record>,
    createdAt: Timestamp)

  datatype BoundaryRow = BoundaryRow(head: Digest, merkleRoot: Digest, createdAt: Timestamp)

  /** One row of the frontier table; `None` is a tail that does not decode. */
  datatype FrontierRow = FrontierRow(level: int, length: int, tail: Option<Tail<Digest>>)

  datatype Response = Response(seqNo: int, entryHash: Digest)

  datatype IdempotencyRow = IdempotencyRow(bodySha256: string, response: Option<Response>, seqNo: int, expiresAt: int)

  datatype ImportRow = ImportRow(importedAt: Timestamp, seqNo: Option<int>)

  datatype HighWater = HighWater(keyId: string, version: int, logSize: int, head: Digest, merkleRoot: Digest,
                                 updatedAt: Timestamp)

  /** The tables, in primary-key order where order matters; `sequence` is the highest
      sequence number AUTOINCREMENT has given out. */
  datatype Db = Db(
    createdAt: Option<Timestamp>,
    log: seq<Row>,
    sequence: int,
    boundaries: map<int, BoundaryRow>,
    frontier: seq<FrontierRow>,
    idempotency: map<(string, string), IdempotencyRow>,
    imported: map<Fingerprint, ImportRow>,
    highWater: map<string, HighWater>)

  datatype LogEntry = LogEntry(seqNo: int, entryHash: Digest, prevHash: Digest, record: Record)

  // ---------------------------------------------------------------- views of the log

  function Hashes(log: seq<Row>): (hashes: seq<Digest>)
    ensures |hashes| == |log|
    ensures forall i :: 0 <= i < |log| ==> hashes[i] == log[i].entryHash
  {
    if log == [] then [] else Hashes(log[..|log| - 1]) + [log[|log| - 1].entryHash]
  }

  lemma HashesOfLonger(log: seq<Row>, row: Row)
    ensures Hashes(log + [row]) == Hashes(log) + [row.entryHash]
  {
    assert (log + [row])[..|log|] == log;
  }

  function HeadHash(log: seq<Row>): Digest {
    if log == [] then Genesis else log[|log| - 1].entryHash
  }

  function RootOf(log: seq<Row>): Digest { Root(PairHash, Genesis, Hashes(log)) }

  function LevelsOf(log: seq<Row>): seq<Level<Digest>> { FrontierOf(PairHash, Hashes(log)) }

  /** The boundary row a prefix of a log must have. */
  function BoundaryOf(log: seq<Row>): BoundaryRow
    requires log != []
  {
    BoundaryRow(HeadHash(log), RootOf(log), log[|log| - 1].createdAt)
  }

  // ---------------------------------------------------------------- the frontier table

  function SaveFrom(f: seq<Level<Digest>>, level: nat): seq<FrontierRow> {
    if f == [] then [] else [FrontierRow(level, f[0].length, Some(f[0].tail))] + SaveFrom(f[1..], level + 1)
  }

  function Save(f: seq<Level<Digest>>): seq<FrontierRow> { SaveFrom(f, 0) }

  datatype LoadError = LevelsNotContiguous | EncodingInvalid | LengthInvalid

  function TailLength(tail: Tail<Digest>): nat { if tail.One? then 1 else 2 }

  function LoadFrom(rows: seq<FrontierRow>, level: nat): Result<seq<Level<Digest>>, LoadError> {
    if rows == [] then Ok([])
    else if rows[0].level != level then Err(LevelsNotContiguous)
    else if rows[0].tail.None? then Err(EncodingInvalid)
    else if rows[0].length < 1 || TailLength(rows[0].tail.value) > rows[0].length then Err(LengthInvalid)
    else
      match LoadFrom(rows[1..], level + 1)
      case Err(e) => Err(e)
      case Ok(f) => Ok([Level(rows[0].length, rows[0].tail.value)] + f)
  }

  function Load(rows: seq<FrontierRow>): Result<seq<Level<Digest>>, LoadError> { LoadFrom(rows, 0) }

  lemma {:induction false} LoadSaveFrom(f: seq<Level<Digest>>, level: nat)
    requires Frontier.Loaded(f)
    ensures LoadFrom(SaveFrom(f, level), level) == Ok(f)
  {
    if f != [] {
      assert f[0].length >= 1;
      assert forall k :: 0 <= k < |f[1..]| ==> f[1..][k] == f[k + 1];
      LoadSaveFrom(f[1..], level + 1);
      assert SaveFrom(f, level)[1..] == SaveFrom(f[1..], level + 1);
      assert [f[0]] + f[1..] == f;
    }
  }

  /** Loading what was saved gives it back, and what loads satisfies the load checks. */
  lemma {:induction false} SaveLoadFrom(rows: seq<FrontierRow>, level: nat)
    ensures LoadFrom(rows, level).Ok? ==>
              Frontier.Loaded(LoadFrom(rows, level).value) && SaveFrom(LoadFrom(rows, level).value, level) == rows
  {
    if rows != [] && LoadFrom(rows, level).Ok? {
      SaveLoadFrom(rows[1..], level + 1);
      var f := LoadFrom(rows, level).value;
      assert f[1..] == LoadFrom(rows[1..], level + 1).value;
      assert forall k :: 0 < k < |f| ==> f[k] == f[1..][k - 1];
      assert [rows[0]] + rows[1..] == rows;
    }
  }

  // ---------------------------------------------------------------- soundness

  /** Row number `i` continues the chain and repeats its record's fields. */
  predicate RowOk(log: seq<Row>, i: nat)
    requires i < |log|
  {
    var row := log[i];
    && row.seqNo == i + 1
    && row.prevHash == HeadHash(log[..i])
    && row.record.Some?
    && row.entryHash == Entry(row.prevHash, row.record.value.body)
    && ColumnsOk(row)
  }

  predicate ColumnsOk(row: Row)
    requires row.record.Some?
  {
    var body := row.record.value.body;
    && body.name == Some(row.name) && body.sourceIdentity == Some(row.sourceIdentity)
    && body.commit == Some(row.commit) && body.contentSha256 == Some(row.contentSha256)
    && body.status == Some(row.status)
  }

  ghost predicate ChainOk(log: seq<Row>) {
    forall i :: 0 <= i < |log| ==> RowOk(log, i)
  }

  /** Numbered from one, hashed onto the row before, and with the columns of its record. */
  ghost predicate Linked(log: seq<Row>, i: nat)
    requires i < |log|
  {
    var row, before := log[i], if i == 0 then Genesis else log[i - 1].entryHash;
    row.seqNo == i + 1 && row.prevHash == before &&
    match row.record
    case None => false
    case Some(Record(body, _)) =>
      && row.entryHash == Entry(before, body)
      && [body.name, body.sourceIdentity, body.commit, body.contentSha256, body.status]
         == [Some(row.name), Some(row.sourceIdentity), Some(row.commit), Some(row.contentSha256), Some(row.status)]
  }

  lemma RowExact(log: seq<Row>, i: nat)
    requires i < |log|
    ensures RowOk(log, i) <==> Linked(log, i)
  {
    assert HeadHash(log[..i]) == if i == 0 then Genesis else log[i - 1].entryHash;
    var row := log[i];
    if row.record.Some? {
      var b := row.record.value.body;
      var fields := [b.name, b.sourceIdentity, b.commit, b.contentSha256, b.status];
      var columns := [Some(row.name), Some(row.sourceIdentity), Some(row.commit), Some(row.contentSha256),
                      Some(row.status)];
      assert fields == columns <==>
        fields[0] == columns[0] && fields[1] == columns[1] && fields[2] == columns[2]
        && fields[3] == columns[3] && fields[4] == columns[4];
    }
  }

  /** A good chain, row by row. */
  lemma ChainExact(log: seq<Row>)
    ensures ChainOk(log) <==> forall i :: 0 <= i < |log| ==> Linked(log, i)
  {
    hide RowOk, Linked;
    forall i | 0 <= i < |log|
      ensures RowOk(log, i) <==> Linked(log, i)
    {
      RowExact(log, i);
    }
  }

  ghost predicate BoundariesOk(log: seq<Row>, boundaries: map<int, BoundaryRow>) {
    && (forall k :: k in boundaries <==> 1 <= k <= |log|)
    && (forall k :: 1 <= k <= |log| ==> boundaries[k] == BoundaryOf(log[..k]))
  }

  ghost predicate CacheOk(db: Db) {
    && Fits(|db.log|)
    && BoundariesOk(db.log, db.boundaries)
    && db.frontier == Save(LevelsOf(db.log))
  }

  predicate Hex256(s: string) {
    |s| == 64 && forall i :: 0 <= i < |s| ==> s[i] in "0123456789abcdef"
  }

  lemma HexDigits()
    ensures forall c: char :: c in "0123456789abcdef" <==> '0' <= c <= '9' || 'a' <= c <= 'f'
  {
    var digits := "0123456789abcdef";
    forall c: char
      ensures c in digits <==> '0' <= c <= '9' || 'a' <= c <= 'f'
    {
      if '0' <= c <= '9' { assert digits[c as int - '0' as int] == c; }
      if 'a' <= c <= 'f' { assert digits[c as int - 'a' as int + 10] == c; }
    }
  }

  /** Lower-case hexadecimal text of this length. */
  ghost predicate HexText(s: string, length: nat) {
    |s| == length && forall i :: 0 <= i < |s| ==> '0' <= s[i] <= '9' || 'a' <= s[i] <= 'f'
  }

  /** Printable, without spaces. */
  ghost predicate Visible(s: string) {
    forall i :: 0 <= i < |s| ==> '!' <= s[i] <= '~'
  }

  predicate KeyOk(key: string) {
    1 <= |key| <= 256 && forall i :: 0 <= i < |key| ==> 0x21 as char <= key[i] <= 0x7E as char
  }

  predicate IdempotencyOk(log: seq<Row>, key: (string, string), row: IdempotencyRow) {
    && key.0 != "" && KeyOk(key.1) && Hex256(row.bodySha256)
    && 1 <= row.seqNo <= |log|
    && row.response == Some(Response(row.seqNo, log[row.seqNo - 1].entryHash))
  }

  predicate ImportRefOk(log: seq<Row>, row: ImportRow) {
    row.seqNo.Some? && 1 <= row.seqNo.value <= |log|
  }

  ghost predicate LedgersOk(db: Db) {
    && (forall k :: k in db.idempotency ==> IdempotencyOk(db.log, k, db.idempotency[k]))
    && (forall f :: f in db.imported ==> ImportRefOk(db.log, db.imported[f]))
  }

  /** What every committed state satisfies, whatever the callers passed. */
  ghost predicate Sound(db: Db) {
    && db.createdAt.Some?
    && db.sequence == |db.log|
    && ChainOk(db.log) && CacheOk(db) && LedgersOk(db)
  }

  // ---------------------------------------------------------------- adding one entry, plainly

  function NewRow(log: seq<Row>, record: Record, createdAt: Timestamp): Row
    requires Appendable(record)
  {
    var body := record.body;
    Row(|log| + 1, Entry(HeadHash(log), body), HeadHash(log), body.name.value, body.sourceIdentity.value,
        body.commit.value, body.contentSha256.value, body.status.value, Some(record), createdAt)
  }

  /** Adds one entry and recomputes the caches from the whole log. */
  function PutEntry(db: Db, record: Record, createdAt: Timestamp): Db
    requires Appendable(record)
  {
    var log := db.log + [NewRow(db.log, record, createdAt)];
    db.(log := log,
        sequence := |log|,
        boundaries := db.boundaries[|log| := BoundaryOf(log)],
        frontier := Save(LevelsOf(log)))
  }

  /** The earlier log is a prefix of the later one. */
  predicate Grew(earlier: Db, later: Db) { earlier.log <= later.log && earlier.createdAt == later.createdAt }

  lemma PutEntryChain(log: seq<Row>, record: Record, createdAt: Timestamp)
    requires ChainOk(log) && Appendable(record)
    ensures ChainOk(log + [NewRow(log, record, createdAt)])
  {
    var log' := log + [NewRow(log, record, createdAt)];
    forall i | 0 <= i < |log'|
      ensures RowOk(log', i)
    {
      assert log'[..i] == log[..i];
      if i < |log| {
        assert RowOk(log, i);
      } else {
        assert log[..i] == log;
      }
    }
  }

  lemma PutEntryBoundaries(log: seq<Row>, boundaries: map<int, BoundaryRow>, row: Row)
    requires BoundariesOk(log, boundaries)
    ensures BoundariesOk(log + [row], boundaries[|log| + 1 := BoundaryOf(log + [row])])
  {
    hide BoundaryOf;
    var log' := log + [row];
    forall k | 1 <= k <= |log'|
      ensures boundaries[|log| + 1 := BoundaryOf(log')][k] == BoundaryOf(log'[..k])
    {
      if k <= |log| {
        assert log'[..k] == log[..k];
      } else {
        assert log'[..k] == log';
      }
    }
  }

  lemma PutEntrySound(db: Db, record: Record, createdAt: Timestamp)
    requires Sound(db) && Appendable(record) && Fits(|db.log| + 1)
    ensures Sound(PutEntry(db, record, createdAt))
    ensures Grew(db, PutEntry(db, record, createdAt))
  {
    hide BoundaryOf, LevelsOf, Save, BoundariesOk, ChainOk, NewRow, KeyOk, Hex256;
    var db' := PutEntry(db, record, createdAt);
    PutEntryChain(db.log, record, createdAt);
    PutEntryBoundaries(db.log, db.boundaries, NewRow(db.log, record, createdAt));
    forall k | k in db'.idempotency
      ensures IdempotencyOk(db'.log, k, db'.idempotency[k])
    {
      assert IdempotencyOk(db.log, k, db.idempotency[k]);
    }
    forall f | f in db'.imported
      ensures ImportRefOk(db'.log, db'.imported[f])
    {
      assert ImportRefOk(db.log, db.imported[f]);
    }
  }

  // ---------------------------------------------------------------- lookups by sequence number

  /** The row with a sequence number, by primary key. */
  function FindRow(log: seq<Row>, seqNo: int): Option<Row> {
    if log == [] then None
    else if log[|log| - 1].seqNo == seqNo then Some(log[|log| - 1])
    else FindRow(log[..|log| - 1], seqNo)
  }

  lemma {:induction false} FindRowInChain(log: seq<Row>, seqNo: int)
    requires ChainOk(log)
    ensures FindRow(log, seqNo) == if 1 <= seqNo <= |log| then Some(log[seqNo - 1]) else None
    decreases |log|
  {
    if log != [] {
      var n := |log| - 1;
      assert RowOk(log, n);
      forall i | 0 <= i < n
        ensures RowOk(log[..n], i)
      {
        assert RowOk(log, i);
        assert log[..n][..i] == log[..i];
      }
      FindRowInChain(log[..n], seqNo);
    }
  }

  function LastSeq(log: seq<Row>): int { if log == [] then 0 else log[|log| - 1].seqNo }
}
