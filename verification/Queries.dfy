/**
 The two read queries over a prefix of the log: the log page's range scan, and the records
 query, which filters rows, keeps the latest row of each artifact and sorts by the artifact.
 */
module Queries {
  import opened Outcomes
  import opened Records
  import opened Ledger

  // ---------------------------------------------------------------- the sort order

  /** A sort column: integers sort before text, text by code points. */
  datatype Column = Number(n: int) | Chars(text: string)

  predicate TextLess(a: string, b: string) {
    b != "" && (a == "" || a[0] < b[0] || (a[0] == b[0] && TextLess(a[1..], b[1..])))
  }

  predicate ColumnLess(a: Column, b: Column) {
    match (a, b)
    case (Number(m), Number(n)) => m < n
    case (Number(_), Chars(_)) => true
    case (Chars(_), Number(_)) => false
    case (Chars(s), Chars(t)) => TextLess(s, t)
  }

  type ArtifactKey = seq<Column>

  /** Lexicographic order on column lists. */
  predicate KeyLess(a: ArtifactKey, b: ArtifactKey) {
    b != [] && (a == [] || ColumnLess(a[0], b[0]) || (a[0] == b[0] && KeyLess(a[1..], b[1..])))
  }

  lemma {:induction false} TextOrder(a: string, b: string)
    ensures TextLess(a, b) || a == b || TextLess(b, a)
    ensures !(TextLess(a, b) && TextLess(b, a)) && !TextLess(a, a)
    decreases |a|
  {
    if a != "" && b != "" {
      TextOrder(a[1..], b[1..]);
      assert a == [a[0]] + a[1..] && b == [b[0]] + b[1..];
    }
    if a != "" { TextOrder(a[1..], a[1..]); }
  }

  /** Text sorts by the first character that differs; a proper prefix comes first. */
  lemma {:induction false} TextLessIff(a: string, b: string)
    ensures TextLess(a, b) <==> exists i: nat :: FirstDifference(a, b, i)
    decreases |a|
  {
    if b == "" {
    } else if a == "" || a[0] != b[0] {
      assert TextLess(a, b) ==> FirstDifference(a, b, 0);
      assert forall i: nat :: FirstDifference(a, b, i) && i > 0 ==> a[..i][0] == b[..i][0];
    } else {
      TextLessIff(a[1..], b[1..]);
      assert a == [a[0]] + a[1..] && b == [b[0]] + b[1..];
      if i: nat :| FirstDifference(a[1..], b[1..], i) {
        assert a[..i + 1] == [a[0]] + a[1..][..i] && b[..i + 1] == [b[0]] + b[1..][..i];
        assert FirstDifference(a, b, i + 1);
      }
      if i: nat :| FirstDifference(a, b, i) {
        assert i > 0;
        assert a[1..][..i - 1] == a[..i][1..] && b[1..][..i - 1] == b[..i][1..];
        assert FirstDifference(a[1..], b[1..], i - 1);
      }
    }
  }

  ghost predicate FirstDifference(a: string, b: string, i: nat) {
    i <= |a| && i < |b| && a[..i] == b[..i] && (i == |a| || a[i] < b[i])
  }

  lemma {:induction false} TextTransitive(a: string, b: string, c: string)
    requires TextLess(a, b) && TextLess(b, c)
    ensures TextLess(a, c)
    decreases |a|
  {
    if a != "" && a[0] == b[0] && b[0] == c[0] && !(a[0] < b[0]) && !(b[0] < c[0]) {
      TextTransitive(a[1..], b[1..], c[1..]);
    }
  }

  lemma ColumnOrder(a: Column, b: Column)
    ensures ColumnLess(a, b) || a == b || ColumnLess(b, a)
    ensures !(ColumnLess(a, b) && ColumnLess(b, a)) && !ColumnLess(a, a)
  {
    if a.Chars? && b.Chars? { TextOrder(a.text, b.text); }
    if a.Chars? { TextOrder(a.text, a.text); }
  }

  lemma ColumnTransitive(a: Column, b: Column, c: Column)
    requires ColumnLess(a, b) && ColumnLess(b, c)
    ensures ColumnLess(a, c)
  {
    if a.Chars? && b.Chars? && c.Chars? { TextTransitive(a.text, b.text, c.text); }
  }

  /** The order is strict and total. */
  lemma {:induction false} KeyOrder(a: ArtifactKey, b: ArtifactKey)
    ensures KeyLess(a, b) || a == b || KeyLess(b, a)
    ensures !(KeyLess(a, b) && KeyLess(b, a)) && !KeyLess(a, a)
    decreases |a|
  {
    if a != [] && b != [] {
      ColumnOrder(a[0], b[0]);
      KeyOrder(a[1..], b[1..]);
      assert a == [a[0]] + a[1..] && b == [b[0]] + b[1..];
    }
    if a != [] {
      ColumnOrder(a[0], a[0]);
      KeyOrder(a[1..], a[1..]);
    }
  }

  lemma {:induction false} KeyTransitive(a: ArtifactKey, b: ArtifactKey, c: ArtifactKey)
    requires KeyLess(a, b) && KeyLess(b, c)
    ensures KeyLess(a, c)
    decreases |a|
  {
    if a != [] {
      if ColumnLess(a[0], b[0]) && ColumnLess(b[0], c[0]) { ColumnTransitive(a[0], b[0], c[0]); }
      if a[0] == b[0] && KeyLess(a[1..], b[1..]) && b[0] == c[0] && KeyLess(b[1..], c[1..]) {
        KeyTransitive(a[1..], b[1..], c[1..]);
      }
    }
  }

  // ---------------------------------------------------------------- the queries

  datatype Query =
    | LogQuery(since: int)
    | RecordsQuery(sourceIdentity: string, commit: string, contentSha256: string, hashVersion: Option<int>)

  /** Partition and sort key of a row. */
  function KeyOf(row: Row): ArtifactKey {
    [Chars(row.name), Chars(row.sourceIdentity), Chars(row.commit), Number(HashVersion(row.record)),
     Chars(row.contentSha256)]
  }

  /** The same artifact: name, source, commit, content hash and hash version, 1 when absent. */
  ghost predicate SameArtifact(a: Row, b: Row) {
    && a.name == b.name && a.sourceIdentity == b.sourceIdentity && a.commit == b.commit
    && a.contentSha256 == b.contentSha256 && HashVersion(a.record) == HashVersion(b.record)
  }

  lemma KeyIsArtifact(a: Row, b: Row)
    ensures KeyOf(a) == KeyOf(b) <==> SameArtifact(a, b)
  {
    assert KeyOf(a) == KeyOf(b) ==>
      && KeyOf(a)[0] == KeyOf(b)[0] && KeyOf(a)[1] == KeyOf(b)[1] && KeyOf(a)[2] == KeyOf(b)[2]
      && KeyOf(a)[3] == KeyOf(b)[3] && KeyOf(a)[4] == KeyOf(b)[4];
  }

  /** By name, then source, then commit, then hash version, then content hash. */
  ghost predicate ArtifactBefore(a: Row, b: Row) {
    var va, vb := HashVersion(a.record), HashVersion(b.record);
    if a.name != b.name then TextLess(a.name, b.name)
    else if a.sourceIdentity != b.sourceIdentity then TextLess(a.sourceIdentity, b.sourceIdentity)
    else if a.commit != b.commit then TextLess(a.commit, b.commit)
    else if va != vb then va < vb
    else TextLess(a.contentSha256, b.contentSha256)
  }

  lemma KeyLessIsBefore(a: Row, b: Row)
    ensures KeyLess(KeyOf(a), KeyOf(b)) <==> ArtifactBefore(a, b)
  {
    hide TextLess;
    TextOrder(a.name, a.name);
    TextOrder(a.sourceIdentity, a.sourceIdentity);
    TextOrder(a.commit, a.commit);
    var ka, kb := KeyOf(a), KeyOf(b);
    KeyLessStep(ka, kb);
    KeyLessStep(ka[1..], kb[1..]);
    KeyLessStep(ka[1..][1..], kb[1..][1..]);
    KeyLessStep(ka[1..][1..][1..], kb[1..][1..][1..]);
    KeyLessStep(ka[1..][1..][1..][1..], kb[1..][1..][1..][1..]);
    assert ka[1..][1..][1..][1..][1..] == [] == kb[1..][1..][1..][1..][1..];
  }

  lemma KeyLessStep(a: ArtifactKey, b: ArtifactKey)
    requires a != [] && b != []
    ensures KeyLess(a, b) <==> ColumnLess(a[0], b[0]) || (a[0] == b[0] && KeyLess(a[1..], b[1..]))
    ensures !KeyLess([], [])
  {
  }

  predicate Filtered(q: Query) { q.LogQuery? || q.sourceIdentity != "" || q.contentSha256 != "" }

  /** Queries that are answered: identity and commit together, at least one filter, and a hash
      version only with a content hash. */
  predicate Evaluated(q: Query) {
    && Filtered(q)
    && (q.RecordsQuery? ==>
          && (q.sourceIdentity != "" <==> q.commit != "")
          && (q.hashVersion.Some? ==> q.contentSha256 != "" && (q.hashVersion.value == 1 || q.hashVersion.value == 2)))
  }

  /** The WHERE clause, without the cap. */
  predicate Matches(q: Query, row: Row) {
    match q
    case LogQuery(since) => row.seqNo > since
    case RecordsQuery(source, commit, content, version) =>
      var wanted := if version.Some? then version.value else 1;
      && (source != "" ==> row.sourceIdentity == source && row.commit == commit)
      && (content != "" ==> row.contentSha256 == content && HashVersion(row.record) == wanted)
  }

  function Where(rows: seq<Row>, q: Query): seq<Row> {
    if rows == [] then []
    else
      var last := rows[|rows| - 1];
      Where(rows[..|rows| - 1], q) + if Matches(q, last) then [last] else []
  }

  /** `rank = 1`: rows that no later row of the same artifact follows. */
  function RankOne(rows: seq<Row>): seq<Row> {
    if rows == [] then []
    else
      var last := rows[|rows| - 1];
      Without(RankOne(rows[..|rows| - 1]), KeyOf(last)) + [last]
  }

  function Without(rows: seq<Row>, key: ArtifactKey): seq<Row> {
    if rows == [] then []
    else
      var last := rows[|rows| - 1];
      Without(rows[..|rows| - 1], key) + if KeyOf(last) == key then [] else [last]
  }

  function Insert(sorted: seq<Row>, row: Row): seq<Row> {
    if sorted == [] then [row]
    else if KeyLess(KeyOf(row), KeyOf(sorted[0])) then [row] + sorted
    else [sorted[0]] + Insert(sorted[1..], row)
  }

  function OrderByKey(rows: seq<Row>): seq<Row> {
    if rows == [] then [] else Insert(OrderByKey(rows[..|rows| - 1]), rows[|rows| - 1])
  }

  /** The whole answer over the rows up to the cap, before LIMIT and OFFSET; nothing without a filter. */
  function Answer(rows: seq<Row>, q: Query): seq<Row> {
    if !Filtered(q) then []
    else
      match q
      case LogQuery(_) => Where(rows, q)
      case RecordsQuery(_, _, _, _) => OrderByKey(RankOne(Where(rows, q)))
  }

  // ---------------------------------------------------------------- filtering commutes

  lemma MatchesByKey(q: Query, a: Row, b: Row)
    requires q.RecordsQuery? && KeyOf(a) == KeyOf(b)
    ensures Matches(q, a) <==> Matches(q, b)
  {
    assert KeyOf(a)[0] == KeyOf(b)[0] && KeyOf(a)[1] == KeyOf(b)[1] && KeyOf(a)[2] == KeyOf(b)[2]
           && KeyOf(a)[3] == KeyOf(b)[3] && KeyOf(a)[4] == KeyOf(b)[4];
  }

  lemma WhereOfLonger(rows: seq<Row>, row: Row, q: Query)
    ensures Where(rows + [row], q) == Where(rows, q) + if Matches(q, row) then [row] else []
  {
    assert (rows + [row])[..|rows|] == rows;
  }

  lemma WithoutOfLonger(rows: seq<Row>, row: Row, key: ArtifactKey)
    ensures Without(rows + [row], key) == Without(rows, key) + if KeyOf(row) == key then [] else [row]
  {
    assert (rows + [row])[..|rows|] == rows;
  }

  lemma {:induction false} WhereWithout(rows: seq<Row>, q: Query, key: ArtifactKey)
    ensures Where(Without(rows, key), q) == Without(Where(rows, q), key)
    decreases |rows|
  {
    hide Matches, KeyOf;
    if rows != [] {
      var before, last := rows[..|rows| - 1], rows[|rows| - 1];
      WhereWithout(before, q, key);
      WhereOfLonger(Without(before, key), last, q);
      WithoutOfLonger(Where(before, q), last, key);
      assert Where(Without(before, key) + [], q) == Where(Without(before, key), q) by {
        assert Without(before, key) + [] == Without(before, key);
      }
      assert Without(Where(before, q) + [], key) == Without(Where(before, q), key) by {
        assert Where(before, q) + [] == Where(before, q);
      }
    }
  }

  /** Removing an artifact that fails the filter changes nothing of the filtered rows. */
  lemma {:induction false} WithoutUnmatched(rows: seq<Row>, q: Query, row: Row)
    requires q.RecordsQuery? && !Matches(q, row)
    ensures Without(Where(rows, q), KeyOf(row)) == Where(rows, q)
    decreases |rows|
  {
    hide Matches, KeyOf;
    if rows != [] {
      var before, last := rows[..|rows| - 1], rows[|rows| - 1];
      WithoutUnmatched(before, q, row);
      WithoutOfLonger(Where(before, q), last, KeyOf(row));
      if KeyOf(last) == KeyOf(row) { MatchesByKey(q, last, row); }
      assert Where(before, q) + [] == Where(before, q);
    }
  }

  lemma {:induction false} WhereRankOne(rows: seq<Row>, q: Query)
    requires q.RecordsQuery?
    ensures RankOne(Where(rows, q)) == Where(RankOne(rows), q)
    decreases |rows|
  {
    hide Matches, KeyOf;
    if rows != [] {
      var before, last := rows[..|rows| - 1], rows[|rows| - 1];
      WhereRankOne(before, q);
      WhereOfLonger(Without(RankOne(before), KeyOf(last)), last, q);
      WhereWithout(RankOne(before), q, KeyOf(last));
      if Matches(q, last) {
        var w := Where(before, q);
        assert (w + [last])[..|w|] == w;
      } else {
        WithoutUnmatched(RankOne(before), q, last);
        assert Where(before, q) + [] == Where(before, q);
        assert Where(RankOne(before), q) + [] == Where(RankOne(before), q);
      }
    }
  }

  // ---------------------------------------------------------------- sorting

  ghost predicate StrictlySorted(rows: seq<Row>) {
    forall i, j :: 0 <= i < j < |rows| ==> KeyLess(KeyOf(rows[i]), KeyOf(rows[j]))
  }

  ghost predicate DistinctKeys(rows: seq<Row>) {
    forall i, j :: 0 <= i < j < |rows| ==> KeyOf(rows[i]) != KeyOf(rows[j])
  }

  lemma {:induction false} InsertSorted(sorted: seq<Row>, row: Row)
    requires StrictlySorted(sorted) && forall r :: r in sorted ==> KeyOf(r) != KeyOf(row)
    ensures StrictlySorted(Insert(sorted, row))
    ensures forall r :: r in Insert(sorted, row) <==> r in sorted || r == row
    decreases |sorted|
  {
    hide KeyLess, KeyOf;
    if sorted != [] {
      var first, rest := sorted[0], sorted[1..];
      assert sorted == [first] + rest;
      if KeyLess(KeyOf(row), KeyOf(first)) {
        forall j | 0 <= j < |sorted|
          ensures KeyLess(KeyOf(row), KeyOf(sorted[j]))
        {
          if j > 0 { KeyTransitive(KeyOf(row), KeyOf(first), KeyOf(sorted[j])); }
        }
      } else {
        assert first in sorted;
        KeyOrder(KeyOf(row), KeyOf(first));
        assert forall r :: r in rest ==> r in sorted;
        InsertSorted(rest, row);
        var tail := Insert(rest, row);
        forall j | 0 <= j < |tail|
          ensures KeyLess(KeyOf(first), KeyOf(tail[j]))
        {
          assert tail[j] in tail;
          if tail[j] != row {
            var k :| 0 <= k < |rest| && rest[k] == tail[j];
            assert sorted[k + 1] == tail[j];
          }
        }
      }
    }
  }

  lemma {:induction false} OrderSorted(rows: seq<Row>)
    requires DistinctKeys(rows)
    ensures StrictlySorted(OrderByKey(rows))
    ensures forall r :: r in OrderByKey(rows) <==> r in rows
    decreases |rows|
  {
    hide KeyLess, KeyOf, Insert;
    if rows != [] {
      var n := |rows| - 1;
      var before, last := rows[..n], rows[n];
      OrderSorted(before);
      forall r | r in OrderByKey(before)
        ensures KeyOf(r) != KeyOf(last)
      {
        var k :| 0 <= k < n && rows[k] == r;
      }
      InsertSorted(OrderByKey(before), last);
      assert rows == before + [last];
    }
  }

  lemma {:induction false} WhereOfConcat(a: seq<Row>, b: seq<Row>, q: Query)
    ensures Where(a + b, q) == Where(a, q) + Where(b, q)
    decreases |b|
  {
    hide Matches, Where;
    if b == [] {
      assert a + b == a;
      WhereOfNothing(q);
    } else {
      var before, last := b[..|b| - 1], b[|b| - 1];
      WhereOfConcat(a, before, q);
      WhereOfLonger(before, last, q);
      WhereOfLonger(a + before, last, q);
      assert a + b == (a + before) + [last] && b == before + [last];
    }
  }

  lemma {:induction false} WhereMembers(rows: seq<Row>, q: Query)
    ensures forall r :: r in Where(rows, q) <==> r in rows && Matches(q, r)
    decreases |rows|
  {
    hide Matches;
    if rows != [] {
      WhereMembers(rows[..|rows| - 1], q);
      assert rows == rows[..|rows| - 1] + [rows[|rows| - 1]];
    }
  }

  lemma WhereOfFront(first: Row, rest: seq<Row>, q: Query)
    ensures Where([first] + rest, q) == (if Matches(q, first) then [first] else []) + Where(rest, q)
  {
    hide Matches;
    WhereOfConcat([first], rest, q);
    WhereOfLonger([], first, q);
    assert [] + [first] == [first];
  }

  /** A row below every row of a sorted list goes in front of what the filter leaves of it. */
  lemma InsertInFront(sorted: seq<Row>, row: Row, q: Query)
    requires StrictlySorted(sorted) && sorted != [] && KeyLess(KeyOf(row), KeyOf(sorted[0]))
    ensures Insert(Where(sorted, q), row) == [row] + Where(sorted, q)
  {
    hide KeyLess, KeyOf, Matches;
    var w := Where(sorted, q);
    WhereMembers(sorted, q);
    if w != [] {
      assert w[0] in w && w[0] in sorted;
      var k :| 0 <= k < |sorted| && sorted[k] == w[0];
      if k > 0 { KeyTransitive(KeyOf(row), KeyOf(sorted[0]), KeyOf(sorted[k])); }
    }
  }

  lemma {:induction false} WhereInsert(sorted: seq<Row>, row: Row, q: Query)
    requires StrictlySorted(sorted)
    ensures Where(Insert(sorted, row), q)
         == if Matches(q, row) then Insert(Where(sorted, q), row) else Where(sorted, q)
    decreases |sorted|
  {
    hide KeyLess, KeyOf, Matches, Where, Insert;
    InsertSteps(sorted, row);
    if sorted == [] {
      WhereOfFront(row, [], q);
      WhereOfNothing(q);
      assert [row] + [] == [row];
    } else if KeyLess(KeyOf(row), KeyOf(sorted[0])) {
      WhereOfFront(row, sorted, q);
      InsertInFront(sorted, row, q);
    } else {
      var first, rest := sorted[0], sorted[1..];
      assert sorted == [first] + rest;
      WhereInsert(rest, row, q);
      WhereOfFront(first, rest, q);
      WhereOfFront(first, Insert(rest, row), q);
      var w := Where(rest, q);
      if Matches(q, first) {
        InsertSteps([first] + w, row);
        assert ([first] + w)[1..] == w;
      } else {
        assert [] + w == w;
      }
    }
  }

  lemma WhereOfNothing(q: Query)
    ensures Where([], q) == []
  {
  }

  lemma InsertSteps(sorted: seq<Row>, row: Row)
    ensures Insert(sorted, row) ==
      if sorted == [] then [row]
      else if KeyLess(KeyOf(row), KeyOf(sorted[0])) then [row] + sorted
      else [sorted[0]] + Insert(sorted[1..], row)
  {
    hide KeyLess, KeyOf;
  }

  lemma {:induction false} WhereOrder(rows: seq<Row>, q: Query)
    requires DistinctKeys(rows)
    ensures Where(OrderByKey(rows), q) == OrderByKey(Where(rows, q))
    decreases |rows|
  {
    hide KeyLess, KeyOf, Matches, Insert;
    if rows != [] {
      var before, last := rows[..|rows| - 1], rows[|rows| - 1];
      WhereOrder(before, q);
      OrderSorted(before);
      WhereInsert(OrderByKey(before), last, q);
      var w := Where(before, q);
      if Matches(q, last) { assert (w + [last])[..|w|] == w; } else { assert w + [] == w; }
    }
  }

  // ---------------------------------------------------------------- what the records query returns

  ghost predicate Increasing(rows: seq<Row>) {
    forall i, j :: 0 <= i < j < |rows| ==> rows[i].seqNo < rows[j].seqNo
  }

  /** The latest row of its artifact. */
  ghost predicate IsLatest(rows: seq<Row>, r: Row) {
    r in rows && forall other :: other in rows && SameArtifact(other, r) ==> other.seqNo <= r.seqNo
  }

  lemma {:induction false} WithoutMembers(rows: seq<Row>, key: ArtifactKey)
    ensures forall r :: r in Without(rows, key) <==> r in rows && KeyOf(r) != key
    decreases |rows|
  {
    hide KeyOf;
    if rows != [] {
      WithoutMembers(rows[..|rows| - 1], key);
      assert rows == rows[..|rows| - 1] + [rows[|rows| - 1]];
    }
  }

  lemma {:induction false} WithoutDistinct(rows: seq<Row>, key: ArtifactKey)
    requires DistinctKeys(rows)
    ensures DistinctKeys(Without(rows, key))
    decreases |rows|
  {
    hide KeyOf;
    if rows != [] {
      var n := |rows| - 1;
      var before, last := rows[..n], rows[n];
      WithoutDistinct(before, key);
      WithoutMembers(before, key);
      forall r | r in Without(before, key)
        ensures KeyOf(r) != KeyOf(last)
      {
        var k :| 0 <= k < n && rows[k] == r;
      }
    }
  }

  /** One more row: the ranked rows of its artifact give way to it. */
  lemma RankStep(before: seq<Row>, last: Row, ranked: seq<Row>)
    requires forall other :: other in before ==> other.seqNo < last.seqNo
    requires DistinctKeys(ranked) && forall r :: r in ranked <==> IsLatest(before, r)
    ensures DistinctKeys(Without(ranked, KeyOf(last)) + [last])
    ensures forall r :: r in Without(ranked, KeyOf(last)) + [last] <==> IsLatest(before + [last], r)
  {
    hide KeyOf, IsLatest, Without;
    WithoutMembers(ranked, KeyOf(last));
    WithoutDistinct(ranked, KeyOf(last));
    var kept := Without(ranked, KeyOf(last));
    forall r
      ensures r in kept + [last] <==> IsLatest(before + [last], r)
    {
      LatestOfLonger(before, last, r);
    }
    assert forall i :: 0 <= i < |kept| ==> kept[i] in kept;
  }

  /** Ranking keeps exactly the latest row of every artifact, one row per artifact. */
  lemma {:induction false} RankOneIsLatest(rows: seq<Row>)
    requires Increasing(rows)
    ensures DistinctKeys(RankOne(rows))
    ensures forall r :: r in RankOne(rows) <==> IsLatest(rows, r)
    decreases |rows|
  {
    hide KeyOf, Without;
    if rows != [] {
      hide IsLatest, DistinctKeys;
      var n := |rows| - 1;
      var before, last := rows[..n], rows[n];
      RankOneIsLatest(before);
      forall r | r in before
        ensures r.seqNo < last.seqNo
      {
        var k :| 0 <= k < n && rows[k] == r;
      }
      RankStep(before, last, RankOne(before));
      assert rows == before + [last];
    }
  }

  lemma LatestOfLonger(before: seq<Row>, last: Row, r: Row)
    requires forall other :: other in before ==> other.seqNo < last.seqNo
    ensures IsLatest(before + [last], r) <==> r == last || (IsLatest(before, r) && KeyOf(r) != KeyOf(last))
  {
    hide KeyOf, SameArtifact;
    var rows := before + [last];
    assert last in rows && forall other :: other in rows <==> other in before || other == last;
    forall other
      ensures SameArtifact(other, r) <==> KeyOf(other) == KeyOf(r)
    {
      KeyIsArtifact(other, r);
    }
  }

  ghost predicate InArtifactOrder(rows: seq<Row>) {
    forall i, j :: 0 <= i < j < |rows| ==> ArtifactBefore(rows[i], rows[j])
  }

  /** What a caller asked for: the identity and commit it names, and the content hash it names under
      the hash version it names; a version not named, and one not stored, is 1. */
  ghost predicate Asked(q: Query, r: Row)
    requires q.RecordsQuery?
  {
    var asked := if q.hashVersion == None then 1 else q.hashVersion.value;
    var stored := match r.record
                  case Some(record) => (match record.body.hashVersion case Some(v) => v case None => 1)
                  case None => 1;
    && (q.sourceIdentity == "" || (q.sourceIdentity == r.sourceIdentity && q.commit == r.commit))
    && (q.contentSha256 == "" || (q.contentSha256 == r.contentSha256 && stored == asked))
  }

  /** The query filters before it ranks, and returns what ranking first and filtering after
      would: the matching rows among the latest of every artifact, in strict key order. */
  lemma RecordsAnswer(rows: seq<Row>, q: Query)
    requires q.RecordsQuery? && Evaluated(q) && Increasing(rows)
    ensures Answer(rows, q) == Where(OrderByKey(RankOne(rows)), q)
    ensures InArtifactOrder(Answer(rows, q))
    ensures forall r :: r in Answer(rows, q) <==> IsLatest(rows, r) && Asked(q, r)
  {
    hide KeyOf, KeyLess, RankOne, OrderByKey, Where, IsLatest;
    forall r
      ensures Asked(q, r) <==> Matches(q, r)
    {
    }
    hide Matches, Asked;
    RankOneIsLatest(rows);
    WhereRankOne(rows, q);
    WhereOrder(RankOne(rows), q);
    WhereMembers(RankOne(rows), q);
    WhereDistinct(RankOne(rows), q);
    OrderSorted(Where(RankOne(rows), q));
    SortedIsInOrder(Answer(rows, q));
  }

  lemma SortedIsInOrder(rows: seq<Row>)
    requires StrictlySorted(rows)
    ensures InArtifactOrder(rows)
  {
    hide KeyLess, KeyOf, ArtifactBefore;
    forall i, j | 0 <= i < j < |rows|
      ensures ArtifactBefore(rows[i], rows[j])
    {
      KeyLessIsBefore(rows[i], rows[j]);
    }
  }

  lemma {:induction false} WhereDistinct(rows: seq<Row>, q: Query)
    requires DistinctKeys(rows)
    ensures DistinctKeys(Where(rows, q))
    decreases |rows|
  {
    hide KeyOf, Matches;
    if rows != [] {
      var n := |rows| - 1;
      var before, last := rows[..n], rows[n];
      WhereDistinct(before, q);
      WhereMembers(before, q);
      forall r | r in Where(before, q)
        ensures KeyOf(r) != KeyOf(last)
      {
        var k :| 0 <= k < n && rows[k] == r;
      }
    }
  }
}
