/**
 The fixed-window rate limiter, which keeps a bounded number of keys, against an unbounded one
 that forgets nothing.
 */
module RateLimiter {

  datatype Entry = Entry(start: real, count: int, seen: real)

  type Entries = map<string, Entry>

  datatype Decision = Decision(allowed: bool, retryAfter: int)

  datatype Limits = Limits(requests: int, window: int, maxKeys: int)

  predicate Positive(l: Limits) { l.requests >= 1 && l.window >= 1 && l.maxKeys >= 1 }

  function Ceil(x: real): int { -((-x).Floor) }

  // ---------------------------------------------------------------- the unbounded limiter

  predicate Expired(l: Limits, e: Entry, now: real) { now - e.start >= l.window as real }

  /** The window a call falls into: the key's own while it lasts, else a new one. */
  function Current(l: Limits, m: Entries, key: string, now: real): Entry {
    if key in m && !Expired(l, m[key], now) then m[key] else Entry(now, 0, now)
  }

  function Decide(l: Limits, m: Entries, key: string, now: real): Decision {
    var e := Current(l, m, key, now);
    if e.count >= l.requests then
      var remaining := Ceil(l.window as real - (now - e.start));
      Decision(false, if remaining > 1 then remaining else 1)
    else Decision(true, 0)
  }

  /** The entries after a call, before any bounding. */
  function Recorded(l: Limits, m: Entries, key: string, now: real): Entries {
    var e := Current(l, m, key, now);
    m[key := Entry(e.start, if e.count >= l.requests then e.count else e.count + 1, now)]
  }

  function Live(l: Limits, m: Entries, now: real): Entries {
    map k | k in m && !Expired(l, m[k], now) :: m[k]
  }

  ghost predicate Within(a: Entries, b: Entries) {
    forall k :: k in a ==> k in b && a[k] == b[k]
  }

  /** What bounding may do: keep everything if there is room; else drop the expired windows; and
      only if that is not enough, drop the entries longest unseen. */
  ghost predicate BoundedTo(l: Limits, m: Entries, now: real, m': Entries) {
    && |m'| <= l.maxKeys
    && (|m| <= l.maxKeys ==> m' == m)
    && (|m| > l.maxKeys && |Live(l, m, now)| <= l.maxKeys ==> m' == Live(l, m, now))
    && (|Live(l, m, now)| > l.maxKeys ==>
          && Within(m', Live(l, m, now)) && |m'| == l.maxKeys
          && forall k, k' :: k in Live(l, m, now) && k !in m' && k' in m' ==> Live(l, m, now)[k].seen <= m'[k'].seen)
  }

  // ---------------------------------------------------------------- the limiter object

  class FixedWindowLimiter {
    const limits: Limits
    var entries: Entries

    constructor (requests: int, window: int, maxKeys: int)
      requires requests >= 1 && window >= 1 && maxKeys >= 1
      ensures limits == Limits(requests, window, maxKeys) && entries == map[]
    {
      limits := Limits(requests, window, maxKeys);
      entries := map[];
    }

    /** One call. The table never outgrows its bound. */
    method Allow(key: string, now: real) returns (d: Decision)
      requires Positive(limits) && |entries| <= limits.maxKeys
      modifies this
      ensures d == Decide(limits, old(entries), key, now)
      ensures |entries| <= limits.maxKeys
      ensures var recorded := Recorded(limits, old(entries), key, now);
              if d.allowed then BoundedTo(limits, recorded, now, entries) else entries == recorded
    {
      var start, count := now, 0;
      if key in entries {
        start, count := entries[key].start, entries[key].count;
      }
      if now - start >= limits.window as real {
        start, count := now, 0;
      }
      if count >= limits.requests {
        var remaining := Ceil(limits.window as real - (now - start));
        RefusedKeepsSize(limits, entries, key, now);
        entries := entries[key := Entry(start, count, now)];
        return Decision(false, if remaining > 1 then remaining else 1);
      }
      entries := entries[key := Entry(start, count + 1, now)];
      BoundEntries(now);
      d := Decision(true, 0);
    }

    method BoundEntries(now: real)
      requires Positive(limits)
      modifies this
      ensures BoundedTo(limits, old(entries), now, entries)
      ensures |entries| <= limits.maxKeys
      ensures forall k :: k in entries ==> k in old(entries) && entries[k] == old(entries)[k]
      ensures |old(entries)| > limits.maxKeys ==>
                forall k :: k in entries ==> now - entries[k].start < limits.window as real
      ensures forall k, k' :: k in old(entries) && k !in entries && k' in entries ==>
                now - old(entries)[k].start >= limits.window as real || old(entries)[k].seen <= entries[k'].seen
    {
      if |entries| <= limits.maxKeys {
        LiveNotMore(limits, entries, now);
        return;
      }
      DropExpired(now);
      ghost var live := entries;
      while |entries| > limits.maxKeys
        invariant Within(entries, live)
        invariant |live| <= limits.maxKeys ==> entries == live
        invariant |live| > limits.maxKeys ==> |entries| >= limits.maxKeys
        invariant forall k, k' :: k in live && k !in entries && k' in entries ==> live[k].seen <= entries[k'].seen
        decreases |entries|
      {
        var oldest := Oldest();
        RemoveOne(entries, oldest);
        entries := entries - {oldest};
      }
    }

    method DropExpired(now: real)
      modifies this
      ensures entries == Live(limits, old(entries), now)
    {
      var keys := entries.Keys;
      while keys != {}
        invariant keys <= entries.Keys
        invariant Within(entries, old(entries))
        invariant forall k :: k in old(entries) && k !in keys ==>
                    (k in entries <==> !Expired(limits, old(entries)[k], now))
        decreases |keys|
      {
        var k :| k in keys;
        keys := keys - {k};
        if now - entries[k].start >= limits.window as real { entries := entries - {k}; }
      }
    }

    /** A key with the smallest last-seen time. */
    method Oldest() returns (oldest: string)
      requires |entries| > 0
      ensures oldest in entries
      ensures forall k :: k in entries ==> entries[oldest].seen <= entries[k].seen
    {
      var keys := entries.Keys;
      assert keys != {};
      oldest :| oldest in keys;
      keys := keys - {oldest};
      while keys != {}
        invariant keys <= entries.Keys && oldest in entries
        invariant forall k :: k in entries && k !in keys ==> entries[oldest].seen <= entries[k].seen
        decreases |keys|
      {
        var k :| k in keys;
        keys := keys - {k};
        if entries[k].seen < entries[oldest].seen { oldest := k; }
      }
    }
  }

  lemma RemoveOne(m: Entries, key: string)
    requires key in m
    ensures |m - {key}| == |m| - 1
  {
    assert (m - {key}).Keys == m.Keys - {key};
  }

  lemma SubmapNotLarger(a: Entries, b: Entries)
    requires Within(a, b)
    ensures |a| <= |b|
  {
    SubsetNotLarger(a.Keys, b.Keys);
  }

  lemma {:induction false} SubsetNotLarger(a: set<string>, b: set<string>)
    requires a <= b
    ensures |a| <= |b|
    decreases |a|
  {
    if a != {} {
      var x :| x in a;
      SubsetNotLarger(a - {x}, b - {x});
    }
  }

  lemma LiveNotMore(l: Limits, m: Entries, now: real)
    ensures |Live(l, m, now)| <= |m|
  {
    SubmapNotLarger(Live(l, m, now), m);
  }

  /** A refused key is already in the table. */
  lemma RefusedKeepsSize(l: Limits, m: Entries, key: string, now: real)
    requires Positive(l) && !Decide(l, m, key, now).allowed
    ensures key in m && |Recorded(l, m, key, now)| == |m|
  {
    assert Recorded(l, m, key, now).Keys == m.Keys;
  }

  // ---------------------------------------------------------------- runs: bounded against unbounded

  datatype Call = Call(key: string, time: real)

  /** The entries of the unbounded limiter after some calls. */
  function Unbounded(l: Limits, calls: seq<Call>): Entries {
    if calls == [] then map[]
    else
      var last := calls[|calls| - 1];
      Recorded(l, Unbounded(l, calls[..|calls| - 1]), last.key, last.time)
  }

  ghost predicate Ordered(calls: seq<Call>) {
    forall i, j :: 0 <= i <= j < |calls| ==> calls[i].time <= calls[j].time
  }

  /** One call of the bounded limiter, as the object promises it. */
  ghost predicate Step(l: Limits, m: Entries, c: Call, m': Entries) {
    var recorded := Recorded(l, m, c.key, c.time);
    if Decide(l, m, c.key, c.time).allowed then BoundedTo(l, recorded, c.time, m') else m' == recorded
  }

  ghost predicate IsRun(l: Limits, calls: seq<Call>, states: seq<Entries>) {
    && |states| == |calls| + 1 && states[0] == map[]
    && forall i :: 0 <= i < |calls| ==> Step(l, states[i], calls[i], states[i + 1])
  }

  /** The bounded table holds a part of the unbounded one that includes every live window. */
  ghost predicate Represents(l: Limits, m: Entries, all: Entries, now: real) {
    && Within(m, all)
    && forall k :: k in all && !Expired(l, all[k], now) ==> k in m
  }

  lemma SameCurrent(l: Limits, m: Entries, all: Entries, before: real, key: string, now: real)
    requires Represents(l, m, all, before) && before <= now
    ensures Current(l, m, key, now) == Current(l, all, key, now)
  {
  }

  lemma StepRepresents(l: Limits, m: Entries, all: Entries, before: real, c: Call, m': Entries)
    requires Represents(l, m, all, before) && before <= c.time && Step(l, m, c, m')
    requires |Live(l, Recorded(l, all, c.key, c.time), c.time)| <= l.maxKeys
    ensures Represents(l, m', Recorded(l, all, c.key, c.time), c.time)
    ensures Decide(l, m, c.key, c.time) == Decide(l, all, c.key, c.time)
  {
    SameCurrent(l, m, all, before, c.key, c.time);
    var recorded, all' := Recorded(l, m, c.key, c.time), Recorded(l, all, c.key, c.time);
    assert Represents(l, recorded, all', c.time);
    var live, live' := Live(l, recorded, c.time), Live(l, all', c.time);
    assert Within(live, live');
    SubmapNotLarger(live, live');
  }

  /** As long as at most `maxKeys` windows are live, the bounded limiter decides every call
      exactly as one that forgets nothing. */
  lemma {:induction false} DecidesLikeUnbounded(l: Limits, calls: seq<Call>, states: seq<Entries>, i: nat)
    requires IsRun(l, calls, states) && Ordered(calls) && i < |calls|
    requires FewLive(l, calls)
    ensures Decide(l, states[i], calls[i].key, calls[i].time)
         == Decide(l, Unbounded(l, calls[..i]), calls[i].key, calls[i].time)
    ensures Represents(l, states[i + 1], Unbounded(l, calls[..i + 1]), calls[i].time)
    decreases i
  {
    hide Step, Represents, Live, Decide, Recorded;
    var c := calls[i];
    assert calls[..i + 1][..i] == calls[..i] && calls[..i + 1][i] == c;
    if i == 0 {
      assert calls[..0] == [];
      EmptyRepresents(l, c.time);
      StepRepresents(l, states[0], Unbounded(l, calls[..0]), c.time, c, states[1]);
    } else {
      DecidesLikeUnbounded(l, calls, states, i - 1);
      StepRepresents(l, states[i], Unbounded(l, calls[..i]), calls[i - 1].time, c, states[i + 1]);
    }
  }

  lemma EmptyRepresents(l: Limits, now: real)
    ensures Represents(l, map[], map[], now)
  {
  }

  /** The table of any run stays within its bound. */
  lemma {:induction false} TableBounded(l: Limits, calls: seq<Call>, states: seq<Entries>, i: nat)
    requires Positive(l) && IsRun(l, calls, states) && i < |states|
    ensures |states[i]| <= l.maxKeys
    decreases i
  {
    hide Recorded, Live, Decide;
    if i > 0 {
      TableBounded(l, calls, states, i - 1);
      var c := calls[i - 1];
      assert Step(l, states[i - 1], c, states[i]);
      if !Decide(l, states[i - 1], c.key, c.time).allowed {
        RefusedKeepsSize(l, states[i - 1], c.key, c.time);
      }
    }
  }

  // ---------------------------------------------------------------- how many are admitted

  /** Calls of one key that are admitted when the unbounded limiter starts from `m`. */
  function Admitted(l: Limits, m: Entries, calls: seq<Call>, key: string): nat
    decreases |calls|
  {
    if calls == [] then 0
    else
      var c := calls[0];
      (if c.key == key && Decide(l, m, c.key, c.time).allowed then 1 else 0)
      + Admitted(l, Recorded(l, m, c.key, c.time), calls[1..], key)
  }

  ghost predicate AllWithin(calls: seq<Call>, low: real, high: real) {
    forall i :: 0 <= i < |calls| ==> low <= calls[i].time <= high
  }

  /** No call of the span reaches the end of the open window: its budget is what is left. */
  lemma {:induction false} AdmittedInWindow(l: Limits, m: Entries, calls: seq<Call>, key: string, low: real, high: real)
    requires Positive(l) && AllWithin(calls, low, high)
    requires key in m && m[key].count <= l.requests && high < m[key].start + l.window as real
    ensures Admitted(l, m, calls, key) <= l.requests - m[key].count
    decreases |calls|
  {
    if calls != [] {
      var c := calls[0];
      assert calls[0].time <= high;
      assert AllWithin(calls[1..], low, high);
      AdmittedInWindow(l, Recorded(l, m, c.key, c.time), calls[1..], key, low, high);
    }
  }

  /** The open window ends after the span begins: what is left of it, and one more window. */
  lemma {:induction false} AdmittedAcross(l: Limits, m: Entries, calls: seq<Call>, key: string, low: real)
    requires Positive(l) && AllWithin(calls, low, low + l.window as real)
    requires key in m && m[key].count <= l.requests && m[key].start + l.window as real > low
    ensures Admitted(l, m, calls, key) <= (l.requests - m[key].count) + l.requests
    decreases |calls|
  {
    if calls != [] {
      var c, rest, high := calls[0], calls[1..], low + l.window as real;
      var m' := Recorded(l, m, c.key, c.time);
      assert low <= calls[0].time <= high;
      assert AllWithin(rest, low, high);
      if c.key == key && Expired(l, m[key], c.time) {
        AdmittedInWindow(l, m', rest, key, low, high);
      } else {
        AdmittedAcross(l, m', rest, key, low);
      }
    }
  }

  /** From any state whose counts are within the limit, a key gets at most twice its limit
      admitted in any span as long as one window, whatever other keys do. */
  lemma {:induction false} TwicePerWindow(l: Limits, m: Entries, calls: seq<Call>, key: string, low: real)
    requires Positive(l) && AllWithin(calls, low, low + l.window as real)
    requires key in m ==> 0 <= m[key].count <= l.requests
    ensures Admitted(l, m, calls, key) <= 2 * l.requests
    decreases |calls|
  {
    if calls != [] {
      var c, rest, high := calls[0], calls[1..], low + l.window as real;
      var m' := Recorded(l, m, c.key, c.time);
      assert low <= calls[0].time <= high;
      assert AllWithin(rest, low, high);
      if c.key != key {
        TwicePerWindow(l, m', rest, key, low);
      } else if key in m && !Expired(l, m[key], c.time) {
        AdmittedAcross(l, m, calls, key, low);
      } else {
        AdmittedAcross(l, m', rest, key, low);
      }
    }
  }

  /** Counts of the unbounded limiter never exceed the limit. */
  lemma {:induction false} CountsWithin(l: Limits, calls: seq<Call>, key: string)
    requires Positive(l)
    ensures key in Unbounded(l, calls) ==> 0 <= Unbounded(l, calls)[key].count <= l.requests
    decreases |calls|
  {
    if calls != [] {
      var before, last := calls[..|calls| - 1], calls[|calls| - 1];
      CountsWithin(l, before, key);
      var m := Unbounded(l, before);
      assert Unbounded(l, calls) == Recorded(l, m, last.key, last.time);
      if last.key == key { assert 0 <= Current(l, m, key, last.time).count <= l.requests; }
    }
  }

  /** So in every run of calls, any stretch of calls that fits in one window admits at most twice
      the limit for a key. */
  lemma AnySpan(l: Limits, before: seq<Call>, span: seq<Call>, key: string, low: real)
    requires Positive(l) && AllWithin(span, low, low + l.window as real)
    ensures Admitted(l, Unbounded(l, before), span, key) <= 2 * l.requests
  {
    CountsWithin(l, before, key);
    TwicePerWindow(l, Unbounded(l, before), span, key, low);
  }

  /** Calls of one key admitted by the bounded limiter between two positions of a run. */
  ghost function AdmittedInRun(l: Limits, calls: seq<Call>, states: seq<Entries>, key: string, i: nat, j: nat): nat
    requires i <= j <= |calls| && |states| == |calls| + 1
    decreases j - i
  {
    if i == j then 0
    else
      (if calls[i].key == key && Decide(l, states[i], key, calls[i].time).allowed then 1 else 0)
      + AdmittedInRun(l, calls, states, key, i + 1, j)
  }

  ghost predicate FewLive(l: Limits, calls: seq<Call>) {
    forall j :: 0 <= j < |calls| ==> |Live(l, Unbounded(l, calls[..j + 1]), calls[j].time)| <= l.maxKeys
  }

  lemma {:induction false} AdmitsLikeUnbounded(l: Limits, calls: seq<Call>, states: seq<Entries>, key: string,
                                               i: nat, j: nat)
    requires IsRun(l, calls, states) && Ordered(calls) && FewLive(l, calls) && i <= j <= |calls|
    ensures AdmittedInRun(l, calls, states, key, i, j) == Admitted(l, Unbounded(l, calls[..i]), calls[i..j], key)
    decreases j - i
  {
    hide IsRun, Live, Decide, Recorded, Ordered;
    if i < j {
      IsRunLength(l, calls, states);
      DecidesLikeUnbounded(l, calls, states, i);
      AdmitsLikeUnbounded(l, calls, states, key, i + 1, j);
      assert calls[i..j][0] == calls[i] && calls[i..j][1..] == calls[i + 1..j];
      assert calls[..i + 1][..i] == calls[..i] && calls[..i + 1][i] == calls[i];
    }
  }

  lemma IsRunLength(l: Limits, calls: seq<Call>, states: seq<Entries>)
    requires IsRun(l, calls, states)
    ensures |states| == |calls| + 1
  {
  }

  /** The bounded limiter keeps the same promise as long as it never has to forget a live window. */
  lemma BoundedSpan(l: Limits, calls: seq<Call>, states: seq<Entries>, key: string, i: nat, j: nat, low: real)
    requires Positive(l) && IsRun(l, calls, states) && Ordered(calls) && FewLive(l, calls) && i <= j <= |calls|
    requires AllWithin(calls[i..j], low, low + l.window as real)
    ensures AdmittedInRun(l, calls, states, key, i, j) <= 2 * l.requests
  {
    hide IsRun, Ordered, FewLive, AllWithin, AdmittedInRun, Admitted;
    AdmitsLikeUnbounded(l, calls, states, key, i, j);
    AnySpan(l, calls[..i], calls[i..j], key, low);
  }

  /** Without that condition the promise fails: with room for one key and two keys taking turns,
      a key limited to one request per minute gets three in four seconds. */
  lemma ForgettingBreaksTheBound()
    ensures var l := Limits(1, 60, 1);
            var calls := [Call("a", 0.0), Call("b", 1.0), Call("a", 2.0), Call("b", 3.0), Call("a", 4.0)];
            var a0, b1 := map["a" := Entry(0.0, 1, 0.0)], map["b" := Entry(1.0, 1, 1.0)];
            var a2, b3 := map["a" := Entry(2.0, 1, 2.0)], map["b" := Entry(3.0, 1, 3.0)];
            var a4 := map["a" := Entry(4.0, 1, 4.0)];
            var states: seq<Entries> := [map[], a0, b1, a2, b3, a4];
            && Positive(l) && Ordered(calls) && IsRun(l, calls, states)
            && AdmittedInRun(l, calls, states, "a", 0, 5) == 3 > 2 * l.requests
  {
    hide Step, Decide;
    var l := Limits(1, 60, 1);
    var calls := [Call("a", 0.0), Call("b", 1.0), Call("a", 2.0), Call("b", 3.0), Call("a", 4.0)];
    var a0, b1 := map["a" := Entry(0.0, 1, 0.0)], map["b" := Entry(1.0, 1, 1.0)];
    var a2, b3 := map["a" := Entry(2.0, 1, 2.0)], map["b" := Entry(3.0, 1, 3.0)];
    var a4 := map["a" := Entry(4.0, 1, 4.0)];
    var states: seq<Entries> := [map[], a0, b1, a2, b3, a4];
    FirstTurn(l, "a", 0.0);
    TakesTurns(l, "a", "b", 0.0, 1.0);
    TakesTurns(l, "b", "a", 1.0, 2.0);
    TakesTurns(l, "a", "b", 2.0, 3.0);
    TakesTurns(l, "b", "a", 3.0, 4.0);
    assert AdmittedInRun(l, calls, states, "a", 4, 5) == 1;
    assert AdmittedInRun(l, calls, states, "a", 3, 5) == 1;
    assert AdmittedInRun(l, calls, states, "a", 2, 5) == 2;
    assert AdmittedInRun(l, calls, states, "a", 1, 5) == 2;
  }

  lemma FirstTurn(l: Limits, x: string, t: real)
    requires l == Limits(1, 60, 1)
    ensures Step(l, map[], Call(x, t), map[x := Entry(t, 1, t)]) && Decide(l, map[], x, t).allowed
  {
    var recorded := Recorded(l, map[], x, t);
    assert recorded == map[x := Entry(t, 1, t)] && Live(l, recorded, t) == recorded;
    assert recorded.Keys == {x} && |recorded| == 1;
  }

  /** A full table of one key forgets it, live as it is, for the next one. */
  lemma TakesTurns(l: Limits, x: string, y: string, t: real, u: real)
    requires l == Limits(1, 60, 1) && x != y && t < u < t + 60.0
    ensures Step(l, map[x := Entry(t, 1, t)], Call(y, u), map[y := Entry(u, 1, u)])
    ensures Decide(l, map[x := Entry(t, 1, t)], y, u).allowed
  {
    var m, m' := map[x := Entry(t, 1, t)], map[y := Entry(u, 1, u)];
    var recorded := Recorded(l, m, y, u);
    assert recorded == map[x := Entry(t, 1, t), y := Entry(u, 1, u)];
    assert Live(l, recorded, u) == recorded;
    assert recorded.Keys == {x, y} && |recorded| == 2;
  }

  /** An entry remembers when its key was last heard of, admitted or not. */
  lemma {:induction false} SeenIsLastCall(l: Limits, calls: seq<Call>, i: nat)
    requires i < |calls| && forall j :: i < j < |calls| ==> calls[j].key != calls[i].key
    ensures calls[i].key in Unbounded(l, calls) && Unbounded(l, calls)[calls[i].key].seen == calls[i].time
    decreases |calls|
  {
    if i < |calls| - 1 { SeenIsLastCall(l, calls[..|calls| - 1], i); }
  }

  /** No shorter whole number of seconds would do: until the advertised time the same call is refused. */
  lemma RetryIsLeast(l: Limits, m: Entries, key: string, now: real, seconds: nat)
    requires Positive(l) && !Decide(l, m, key, now).allowed && seconds < Decide(l, m, key, now).retryAfter
    ensures !Decide(l, Recorded(l, m, key, now), key, now + seconds as real).allowed
  {
    var e := Current(l, m, key, now);
    assert key in m && e == m[key] && Recorded(l, m, key, now)[key] == Entry(e.start, e.count, now);
    var left := l.window as real - (now - e.start);
    assert left > 0.0;
    CeilAbove(left, seconds);
  }

  lemma CeilAbove(x: real, n: nat)
    requires x > 0.0 && (n == 0 || n < Ceil(x))
    ensures n as real < x
  {
  }

  function CallsOf(calls: seq<Call>, key: string): nat {
    if calls == [] then 0 else (if calls[0].key == key then 1 else 0) + CallsOf(calls[1..], key)
  }

  /** Every call of the key comes before its open window ends. */
  ghost predicate BeforeEnd(l: Limits, calls: seq<Call>, key: string, start: real) {
    forall i :: 0 <= i < |calls| && calls[i].key == key ==> calls[i].time - start < l.window as real
  }

  /** Inside an open window a key is admitted as often as it calls, up to what is left of its limit. */
  lemma {:induction false} OpenWindow(l: Limits, m: Entries, calls: seq<Call>, key: string)
    requires Positive(l) && key in m && 0 <= m[key].count <= l.requests && BeforeEnd(l, calls, key, m[key].start)
    ensures var left := l.requests - m[key].count;
            Admitted(l, m, calls, key) == if CallsOf(calls, key) <= left then CallsOf(calls, key) else left
    decreases |calls|
  {
    if calls != [] {
      var c, rest := calls[0], calls[1..];
      assert forall i :: 0 <= i < |rest| ==> rest[i] == calls[i + 1];
      OpenWindow(l, Recorded(l, m, c.key, c.time), rest, key);
    }
  }

  /** A fresh window grants the whole limit: of the calls a key makes in it, whatever other keys do,
      exactly the first `requests` are admitted. */
  lemma FreshWindow(l: Limits, m: Entries, calls: seq<Call>, key: string)
    requires Positive(l) && calls != [] && calls[0].key == key
    requires key !in m || Expired(l, m[key], calls[0].time)
    requires BeforeEnd(l, calls, key, calls[0].time)
    ensures Admitted(l, m, calls, key) == if CallsOf(calls, key) <= l.requests then CallsOf(calls, key) else l.requests
  {
    var c, rest := calls[0], calls[1..];
    assert forall i :: 0 <= i < |rest| ==> rest[i] == calls[i + 1];
    OpenWindow(l, Recorded(l, m, key, c.time), rest, key);
  }

  /** After a refusal, waiting the advertised time is enough: whether the key's entry is still
      there or has been dropped meanwhile, the next call is admitted. */
  lemma RetryIsAdmitted(l: Limits, m: Entries, key: string, now: real, later: Entries, time: real)
    requires Positive(l) && !Decide(l, m, key, now).allowed
    requires time >= now + Decide(l, m, key, now).retryAfter as real
    requires key in later ==> later[key] == Recorded(l, m, key, now)[key]
    ensures Decide(l, later, key, time).allowed
  {
    if key in later { assert Expired(l, later[key], time); }
  }
}
