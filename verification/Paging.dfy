/**
 Snapshot-bound paging: a first page fixes a committed boundary, every cursor carries that
 signed boundary, and each later page is served at it or refused. A request reads the store
 twice (to resolve the boundary, then to evaluate the page); appends may land in between.
 */
module Paging {
  import opened Outcomes
  import opened Records
  import opened Ledger
  import opened Boundaries
  import opened Queries

  const CURSOR_TTL: int := 3600

  datatype Request = Request(query: Query, limit: nat)

  datatype SignedSnapshot = SignedSnapshot(boundary: SnapshotBoundary, signer: Key)

  /** A cursor as decoded from its text; `Undecodable` is any text that is not a signed payload. */
  datatype Cursor =
    | Cursor(signer: Key, request: Request, snapshot: SignedSnapshot, offset: int, expiresAt: int)
    | Undecodable

  datatype Server = Server(signingKey: Key, accepted: set<Key>)

  datatype Page = Page(items: seq<Row>, next: Option<Cursor>, boundary: SignedSnapshot)

  datatype PageError = InvalidQuery | InvalidCursor | BoundaryFailed(error: BoundaryError)

  function EncodeCursor(key: Key, request: Request, snapshot: SignedSnapshot, offset: int, time: int): Cursor {
    Cursor(key, request, snapshot, offset, time + CURSOR_TTL)
  }

  /** What validation demands of a carried snapshot. */
  predicate SnapshotWellFormed(b: SnapshotBoundary) {
    0 <= b.logSize <= b.version <= MAX_SAFE_INTEGER && b.version == b.logSize && b.createdAt.Utc?
  }

  /** Decodes a cursor into its offset and carried snapshot, checking it against the store. */
  function CursorState(db: Db, cursor: Cursor, request: Request, accepted: set<Key>, time: int)
    : Option<(nat, SignedSnapshot)>
  {
    if cursor.Undecodable? || cursor.signer !in accepted || cursor.request != request
       || !SnapshotWellFormed(cursor.snapshot.boundary) || cursor.snapshot.signer !in accepted
       || ReadBoundary(db, Some(cursor.snapshot.boundary.logSize)) != Ok(cursor.snapshot.boundary)
       || cursor.offset < 0 || cursor.expiresAt < time
    then None
    else Some((cursor.offset, cursor.snapshot))
  }

  // ---------------------------------------------------------------- one page

  /** `seq <= cap`. */
  function UpTo(log: seq<Row>, cap: int): seq<Row> {
    if log == [] then []
    else
      var last := log[|log| - 1];
      UpTo(log[..|log| - 1], cap) + if last.seqNo <= cap then [last] else []
  }

  /** `LIMIT count OFFSET offset`. */
  function Slice(rows: seq<Row>, offset: nat, count: nat): seq<Row> {
    if offset >= |rows| then [] else if offset + count >= |rows| then rows[offset..] else rows[offset..offset + count]
  }

  /** One row more than the limit is fetched, to learn whether there is more. */
  function Build(db: Db, server: Server, request: Request, snapshot: SignedSnapshot, offset: nat, time: int): Page {
    var rows := Slice(Answer(UpTo(db.log, snapshot.boundary.logSize), request.query), offset, request.limit + 1);
    var items := if |rows| > request.limit then rows[..request.limit] else rows;
    var next := if |rows| > request.limit
                then Some(EncodeCursor(server.signingKey, request, snapshot, offset + |items|, time)) else None;
    Page(items, next, snapshot)
  }

  /** A visit: the two states the request reads, the server's keys and the time. */
  datatype Visit = Visit(early: Db, late: Db, server: Server, time: int)

  function ServeFirst(v: Visit, request: Request): Result<Page, PageError> {
    if !Evaluated(request.query) then Err(InvalidQuery)
    else
      match ReadBoundary(v.early, None)
      case Err(e) => Err(BoundaryFailed(e))
      case Ok(boundary) =>
        match ReadBoundary(v.late, Some(boundary.logSize))
        case Err(e) => Err(BoundaryFailed(e))
        case Ok(_) => Ok(Build(v.late, v.server, request, SignedSnapshot(boundary, v.server.signingKey), 0, v.time))
  }

  function ServeNext(v: Visit, request: Request, cursor: Cursor): Result<Page, PageError> {
    if !Evaluated(request.query) then Err(InvalidQuery)
    else
      match CursorState(v.early, cursor, request, v.server.accepted, v.time)
      case None => Err(InvalidCursor)
      case Some((offset, snapshot)) =>
        if ReadBoundary(v.late, Some(snapshot.boundary.logSize)) != Ok(snapshot.boundary) then Err(InvalidCursor)
        else Ok(Build(v.late, v.server, request, snapshot, offset, v.time))
  }

  // ---------------------------------------------------------------- what a page holds

  lemma {:induction false} UpToPrefix(log: seq<Row>, cap: nat)
    requires ChainOk(log) && cap <= |log|
    ensures UpTo(log, cap) == log[..cap]
    decreases |log|
  {
    hide RowOk;
    if log != [] {
      var n := |log| - 1;
      assert log[n].seqNo == n + 1 by { SeqOfRow(log, n); }
      ChainOfPrefix(log, n);
      if cap <= n {
        UpToPrefix(log[..n], cap);
        assert log[..n][..cap] == log[..cap];
      } else {
        UpToPrefix(log[..n], n);
        assert log[..n][..n] == log[..n] && log[..n] + [log[n]] == log;
        SmallerCap(log[..n], n, cap);
      }
    }
  }

  lemma SeqOfRow(log: seq<Row>, i: nat)
    requires ChainOk(log) && i < |log|
    ensures log[i].seqNo == i + 1
  {
    assert RowOk(log, i);
  }

  lemma {:induction false} SmallerCap(log: seq<Row>, cap: int, cap': int)
    requires ChainOk(log) && |log| <= cap <= cap'
    ensures UpTo(log, cap) == UpTo(log, cap')
    decreases |log|
  {
    hide RowOk;
    if log != [] {
      var n := |log| - 1;
      SeqOfRow(log, n);
      ChainOfPrefix(log, n);
      SmallerCap(log[..n], cap, cap');
    }
  }

  /** The answer of a request at a committed prefix. */
  function Full(log: seq<Row>, request: Request): seq<Row> { Answer(log, request.query) }

  /** The offset of page number `i`. */
  function PageStart(i: nat, limit: nat): nat { i * limit }

  lemma NextStart(i: nat, limit: nat)
    ensures PageStart(0, limit) == 0 && PageStart(i + 1, limit) == PageStart(i, limit) + limit
  {
  }

  /** The part of an answer that page number `i` must hold. */
  function Part(full: seq<Row>, limit: nat, i: nat): seq<Row> { Slice(full, PageStart(i, limit), limit) }

  /** Page number `i` of a chain over `full`, pinned to `snapshot`. */
  ghost predicate RightPage(page: Page, full: seq<Row>, request: Request, snapshot: SignedSnapshot, i: nat) {
    && page.boundary == snapshot
    && page.items == Part(full, request.limit, i)
    && (page.next.Some? <==> PageStart(i + 1, request.limit) < |full|)
    && (page.next.Some? ==>
          && page.next.value.Cursor? && page.next.value.snapshot == snapshot
          && page.next.value.request == request
          && page.next.value.offset == PageStart(i + 1, request.limit))
  }

  lemma BuildRight(db: Db, server: Server, request: Request, snapshot: SignedSnapshot, i: nat, time: int,
                   full: seq<Row>)
    requires full == Answer(UpTo(db.log, snapshot.boundary.logSize), request.query) && request.limit >= 1
    ensures RightPage(Build(db, server, request, snapshot, PageStart(i, request.limit), time), full, request,
                      snapshot, i)
  {
    hide Answer, UpTo, PageStart;
    NextStart(i, request.limit);
  }

  // ---------------------------------------------------------------- chains of pages

  /** Pages obtained by following cursors from a first page. */
  ghost predicate IsChain(visits: seq<Visit>, request: Request, pages: seq<Page>) {
    && |visits| == |pages| > 0
    && ServeFirst(visits[0], request) == Ok(pages[0])
    && forall i :: 0 < i < |pages| ==> Follows(pages[i - 1], visits[i], request, pages[i])
  }

  predicate Follows(page: Page, v: Visit, request: Request, page': Page) {
    page.next.Some? && ServeNext(v, request, page.next.value) == Ok(page')
  }

  /** Every state read is sound and extends the state in which the boundary was taken. */
  ghost predicate FromOneHistory(visits: seq<Visit>) {
    |visits| > 0 && forall i :: 0 <= i < |visits| ==> LaterVisit(visits[0].early, visits[i])
  }

  ghost predicate LaterVisit(origin: Db, v: Visit) {
    Sound(origin) && Sound(v.early) && Sound(v.late) && Grew(origin, v.early) && Grew(origin, v.late)
  }

  lemma SameAnswer(origin: Db, db: Db, request: Request)
    requires Sound(origin) && Sound(db) && Grew(origin, db)
    ensures Answer(UpTo(db.log, |origin.log|), request.query) == Full(origin.log, request)
  {
    hide Answer, UpTo, CacheOk, LedgersOk, ChainOk;
    UpToPrefix(db.log, |origin.log|);
    assert db.log[..|origin.log|] == origin.log;
  }

  /** Every page of a chain is the right part of the answer at the first page's boundary. */
  lemma {:induction false} ChainPages(visits: seq<Visit>, request: Request, pages: seq<Page>, i: nat)
    requires IsChain(visits, request, pages) && FromOneHistory(visits) && request.limit >= 1 && i < |pages|
    ensures var origin := visits[0].early;
            && origin.createdAt.Some?
            && RightPage(pages[i], Full(origin.log, request), request,
                         SignedSnapshot(BoundaryAt(origin, |origin.log|), visits[0].server.signingKey), i)
    decreases i
  {
    hide Sound, Grew, ReadBoundary, Build, Answer, Full, UpTo, RightPage, PageStart;
    var origin := visits[0].early;
    assert LaterVisit(origin, visits[i]);
    SoundParts(origin);
    var snapshot := SignedSnapshot(BoundaryAt(origin, |origin.log|), visits[0].server.signingKey);
    SizeOfBoundary(origin);
    SameAnswer(origin, visits[i].late, request);
    BuildRight(visits[i].late, visits[i].server, request, snapshot, i, visits[i].time, Full(origin.log, request));
    if i == 0 {
      assert LaterVisit(origin, visits[0]);
      ReadBoundaryExact(origin, 0);
      NextStart(0, request.limit);
    } else {
      ChainPages(visits, request, pages, i - 1);
      assert Follows(pages[i - 1], visits[i], request, pages[i]);
      CursorOf(pages[i - 1], Full(origin.log, request), request, snapshot, i - 1);
    }
  }

  lemma SizeOfBoundary(db: Db)
    requires db.createdAt.Some?
    ensures BoundaryAt(db, |db.log|).logSize == |db.log|
  {
  }

  lemma CursorOf(page: Page, full: seq<Row>, request: Request, snapshot: SignedSnapshot, i: nat)
    requires RightPage(page, full, request, snapshot, i) && page.next.Some?
    ensures page.next.value.Cursor? && page.next.value.snapshot == snapshot
            && page.next.value.offset == PageStart(i + 1, request.limit)
  {
  }

  function Items(pages: seq<Page>): seq<Row> {
    if pages == [] then [] else Items(pages[..|pages| - 1]) + pages[|pages| - 1].items
  }

  function Take(full: seq<Row>, count: nat): seq<Row> { if count >= |full| then full else full[..count] }

  lemma TakeSlice(full: seq<Row>, offset: nat, count: nat)
    ensures Take(full, offset) + Slice(full, offset, count) == Take(full, offset + count)
  {
  }

  lemma {:induction false} ItemsOfParts(pages: seq<Page>, full: seq<Row>, limit: nat)
    requires forall i :: 0 <= i < |pages| ==> pages[i].items == Part(full, limit, i)
    ensures Items(pages) == Take(full, PageStart(|pages|, limit))
    decreases |pages|
  {
    hide Take, Slice, PageStart;
    if pages == [] {
      NextStart(0, limit);
      TakeNothing(full);
    } else {
      var n := |pages| - 1;
      ItemsOfParts(pages[..n], full, limit);
      TakeSlice(full, PageStart(n, limit), limit);
      NextStart(n, limit);
    }
  }

  lemma TakeNothing(full: seq<Row>)
    ensures Take(full, 0) == []
  {
  }

  /** The facts of one page that the whole chain is put together from. */
  lemma PageOfChain(visits: seq<Visit>, request: Request, pages: seq<Page>, full: seq<Row>, i: nat)
    requires IsChain(visits, request, pages) && FromOneHistory(visits) && request.limit >= 1 && i < |pages|
    requires full == Full(visits[0].early.log, request)
    ensures pages[i].items == Part(full, request.limit, i)
    ensures pages[i].boundary == pages[0].boundary
    ensures pages[i].next.Some? <==> PageStart(i + 1, request.limit) < |full|
    ensures i + 1 < |pages| ==> pages[i].next.Some?
  {
    hide FromOneHistory, Full, Part, BoundaryAt, ServeFirst, ServeNext, PageStart;
    ChainPages(visits, request, pages, i);
    ChainPages(visits, request, pages, 0);
    if i + 1 < |pages| { assert Follows(pages[i], visits[i + 1], request, pages[i + 1]); }
  }

  /** Following the cursors to the end, with appends landing at any point in between, yields
      exactly the answer at the first page's boundary, in order, with every page echoing that
      boundary, in the least number of pages the limit allows. */
  lemma CompleteChain(visits: seq<Visit>, request: Request, pages: seq<Page>)
    requires IsChain(visits, request, pages) && FromOneHistory(visits) && request.limit >= 1
    requires pages[|pages| - 1].next.None?
    ensures Items(pages) == Full(visits[0].early.log, request)
    ensures forall i :: 0 <= i < |pages| ==> pages[i].boundary == pages[0].boundary
    ensures |Full(visits[0].early.log, request)| <= PageStart(|pages|, request.limit)
    ensures |pages| > 1 ==> PageStart(|pages| - 1, request.limit) < |Full(visits[0].early.log, request)|
  {
    assert |pages| > 0;
    hide IsChain, FromOneHistory, Full, Part, Items, PageStart;
    var n, full := |pages|, Full(visits[0].early.log, request);
    forall i | 0 <= i < n
      ensures pages[i].items == Part(full, request.limit, i) && pages[i].boundary == pages[0].boundary
    {
      PageOfChain(visits, request, pages, full, i);
    }
    PageOfChain(visits, request, pages, full, n - 1);
    ItemsOfParts(pages, full, request.limit);
    if n > 1 {
      PageOfChain(visits, request, pages, full, n - 2);
    }
  }

  /** Committed rows are numbered in order, so a records answer is the latest per artifact. */
  lemma PrefixIncreasing(db: Db)
    requires Sound(db)
    ensures Increasing(db.log)
  {
    hide RowOk, CacheOk, LedgersOk;
    forall i | 0 <= i < |db.log|
      ensures db.log[i].seqNo == i + 1
    {
      SeqOfRow(db.log, i);
    }
  }

  /** The record itself names what was asked for. */
  ghost predicate Names(q: Query, body: Body)
    requires q.RecordsQuery?
  {
    && (q.sourceIdentity != "" ==> body.sourceIdentity == Some(q.sourceIdentity) && body.commit == Some(q.commit))
    && (q.contentSha256 != "" ==> body.contentSha256 == Some(q.contentSha256))
  }

  lemma LatestIsThere(log: seq<Row>, r: Row)
    requires IsLatest(log, r)
    ensures r in log
  {
  }

  lemma AskedIsNamed(log: seq<Row>, q: Query, r: Row)
    requires ChainOk(log) && r in log && q.RecordsQuery? && Asked(q, r)
    ensures r.record.Some? && Names(q, r.record.value.body)
  {
    var i :| 0 <= i < |log| && log[i] == r;
    assert RowOk(log, i);
  }

  /** A complete chain for a records query: the matching rows among the latest of every artifact
      at the first page's boundary, each once, in strict key order. */
  lemma RecordsChain(visits: seq<Visit>, request: Request, pages: seq<Page>)
    requires IsChain(visits, request, pages) && FromOneHistory(visits) && request.limit >= 1
    requires pages[|pages| - 1].next.None? && request.query.RecordsQuery?
    ensures Evaluated(request.query)
    ensures InArtifactOrder(Items(pages))
    ensures forall r :: r in Items(pages) <==> IsLatest(visits[0].early.log, r) && Asked(request.query, r)
    ensures forall r :: r in Items(pages) ==> r.record.Some? && Names(request.query, r.record.value.body)
  {
    assert LaterVisit(visits[0].early, visits[0]) && Evaluated(request.query);
    hide IsChain, FromOneHistory, Sound, Answer, Items, InArtifactOrder, IsLatest, Asked, Evaluated;
    CompleteChain(visits, request, pages);
    PrefixIncreasing(visits[0].early);
    RecordsAnswer(visits[0].early.log, request.query);
    SoundParts(visits[0].early);
    forall r | r in Items(pages)
      ensures r.record.Some? && Names(request.query, r.record.value.body)
    {
      LatestIsThere(visits[0].early.log, r);
      AskedIsNamed(visits[0].early.log, request.query, r);
    }
  }

  /** A complete chain for a log query: the committed rows after `since`, in order. */
  lemma LogChain(visits: seq<Visit>, request: Request, pages: seq<Page>)
    requires IsChain(visits, request, pages) && FromOneHistory(visits) && request.limit >= 1
    requires pages[|pages| - 1].next.None? && request.query.LogQuery? && request.query.since >= 0
    ensures var log := visits[0].early.log;
            Items(pages) == if request.query.since >= |log| then [] else log[request.query.since..]
  {
    assert LaterVisit(visits[0].early, visits[0]);
    hide IsChain, FromOneHistory, Sound, Items;
    CompleteChain(visits, request, pages);
    SoundParts(visits[0].early);
    RowsAfter(visits[0].early.log, request.query.since);
  }

  lemma {:induction false} RowsAfter(log: seq<Row>, since: nat)
    requires ChainOk(log)
    ensures Where(log, LogQuery(since)) == if since >= |log| then [] else log[since..]
    decreases |log|
  {
    hide RowOk;
    if log != [] {
      var n := |log| - 1;
      SeqOfRow(log, n);
      ChainOfPrefix(log, n);
      RowsAfter(log[..n], since);
      if since < n { assert log[since..] == log[..n][since..] + [log[n]]; }
      if since == n { assert log[n..] == [log[n]]; }
    }
  }

  /** A query with the parameters the endpoint demands. */
  ghost predicate ProperQuery(q: Query) {
    match q
    case LogQuery(_) => true
    case RecordsQuery(source, commit, content, version) =>
      && (source == "") == (commit == "") && !(source == "" && content == "")
      && (version == None || ((version == Some(1) || version == Some(2)) && content != ""))
  }

  /** The boundary a cursor carries is one that was committed in this history. */
  ghost predicate CommittedBoundary(db: Db, b: SnapshotBoundary) {
    db.createdAt.Some? && 0 <= b.logSize <= |db.log| && b == BoundaryAt(db, b.logSize)
    && b.createdAt.Utc? && b.logSize <= MAX_SAFE_INTEGER
  }

  /** A first page is served exactly for a proper query, at the boundary of the whole log. */
  lemma FirstServed(v: Visit, request: Request)
    requires Sound(v.early) && Sound(v.late) && Grew(v.early, v.late)
    ensures v.early.createdAt.Some?
    ensures ServeFirst(v, request).Ok? <==> ProperQuery(request.query)
    ensures ServeFirst(v, request).Err? ==> ServeFirst(v, request).error == InvalidQuery
    ensures ServeFirst(v, request).Ok? ==>
              ServeFirst(v, request).value.boundary
              == SignedSnapshot(BoundaryAt(v.early, |v.early.log|), v.server.signingKey)
  {
    hide Sound, ReadBoundary, BoundaryAt;
    SoundParts(v.early);
    SizeOfBoundary(v.early);
    GrewLength(v.early, v.late);
    ReadBoundaryExact(v.early, 0);
    ReadBoundaryExact(v.late, |v.early.log|);
  }

  /** For any cursor at all: it is served exactly when it decodes, an accepted key signed it and
      another (or the same) the snapshot it carries, it was issued for this very request, it has not
      expired, and the snapshot is a committed boundary of this log, however far that has grown. */
  lemma CursorAccepted(v: Visit, request: Request, cursor: Cursor)
    requires Sound(v.early) && Sound(v.late) && Grew(v.early, v.late)
    ensures ServeNext(v, request, cursor).Ok? <==>
              && ProperQuery(request.query) && cursor.Cursor?
              && cursor.signer in v.server.accepted && cursor.snapshot.signer in v.server.accepted
              && cursor.request == request && cursor.offset >= 0 && v.time <= cursor.expiresAt
              && CommittedBoundary(v.early, cursor.snapshot.boundary)
    ensures ServeNext(v, request, cursor).Err? ==>
              ServeNext(v, request, cursor).error == if ProperQuery(request.query) then InvalidCursor else InvalidQuery
    ensures ServeNext(v, request, cursor).Ok? ==> ServeNext(v, request, cursor).value.boundary == cursor.snapshot
  {
    hide Sound, ReadBoundary, BoundaryAt;
    SoundParts(v.early);
    if cursor.Cursor? {
      var size := cursor.snapshot.boundary.logSize;
      ReadBoundaryExact(v.early, size);
      ReadBoundaryExact(v.late, size);
      GrewLength(v.early, v.late);
      if 0 <= size <= |v.early.log| {
        BoundaryStable(v.early, v.late, size);
        BoundaryExact(v.early, size);
      }
    }
  }

  /** A page that is not the last carries a cursor under the key of its server, for the same request
      and snapshot, that expires an hour after the visit. */
  lemma IssuedCursor(v: Visit, request: Request, cursor: Option<Cursor>)
    requires var served := if cursor.Some? then ServeNext(v, request, cursor.value) else ServeFirst(v, request);
             served.Ok? && served.value.next.Some?
    ensures var served := if cursor.Some? then ServeNext(v, request, cursor.value) else ServeFirst(v, request);
            var page, next := served.value, served.value.next.value;
            && next.Cursor? && next.signer == v.server.signingKey && next.request == request
            && next.snapshot == page.boundary && next.expiresAt == v.time + 3600
            && next.offset == |page.items| + if cursor.Some? then cursor.value.offset else 0
  {
    hide ReadBoundary, Answer, UpTo, Slice;
  }

  /** So a cursor issued with a first page is served at a later visit of the same history exactly
      within the hour and while the issuing key is accepted. */
  lemma IssuedCursorServed(v: Visit, request: Request, v': Visit)
    requires Sound(v.early) && Sound(v.late) && Grew(v.early, v.late)
    requires Sound(v'.early) && Sound(v'.late) && Grew(v.early, v'.early) && Grew(v'.early, v'.late)
    requires ServeFirst(v, request).Ok? && ServeFirst(v, request).value.next.Some?
    requires v.early.createdAt.Some? && BoundaryAt(v.early, |v.early.log|).createdAt.Utc?
    requires |v.early.log| <= MAX_SAFE_INTEGER
    ensures ServeNext(v', request, ServeFirst(v, request).value.next.value).Ok? <==>
              v'.time <= v.time + 3600 && v.server.signingKey in v'.server.accepted
  {
    hide Sound, BoundaryAt, ServeFirst, ServeNext;
    FirstServed(v, request);
    IssuedCursor(v, request, None);
    CursorAccepted(v', request, ServeFirst(v, request).value.next.value);
    SizeOfBoundary(v.early);
    GrewLength(v.early, v'.early);
    BoundaryStable(v.early, v'.early, |v.early.log|);
  }

  lemma GrewLength(a: Db, b: Db)
    requires Grew(a, b)
    ensures |a.log| <= |b.log|
  {
  }
}
