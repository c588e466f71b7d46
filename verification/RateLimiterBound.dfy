/**
 Exactly when the bounded limiter keeps its promise. With no more callers than `maxKeys` it never
 forgets a live window. With one more, callers that take turns are each forgotten just before
 their next call, and every call is admitted.
 */
module RateLimiterBound {
  import opened RateLimiter

  ghost predicate KeysIn(calls: seq<Call>, keys: set<string>) {
    forall i :: 0 <= i < |calls| ==> calls[i].key in keys
  }

  /** In this run, if it is one by these callers, this span of one window admits at most twice the limit. */
  ghost predicate SpanKept(l: Limits, keys: set<string>, calls: seq<Call>, states: seq<Entries>, key: string,
                           i: nat, j: nat, low: real)
  {
    IsRun(l, calls, states) && Ordered(calls) && KeysIn(calls, keys)
    && i <= j <= |calls| && AllWithin(calls[i..j], low, low + l.window as real) ==>
      AdmittedInRun(l, calls, states, key, i, j) <= 2 * l.requests
  }

  /** Whatever these callers do, none gets more than twice the limit in a span of one window. */
  ghost predicate KeepsPromise(l: Limits, keys: set<string>) {
    forall calls, states, key, i, j, low :: SpanKept(l, keys, calls, states, key, i, j, low)
  }

  // ---------------------------------------------------------------- few callers

  lemma {:induction false} UnboundedKeys(l: Limits, calls: seq<Call>, keys: set<string>)
    requires KeysIn(calls, keys)
    ensures Unbounded(l, calls).Keys <= keys
    decreases |calls|
  {
    if calls != [] {
      var n := |calls| - 1;
      UnboundedKeys(l, calls[..n], keys);
      assert calls[n].key in keys;
    }
  }

  lemma FewCallersFewLive(l: Limits, calls: seq<Call>, keys: set<string>)
    requires KeysIn(calls, keys) && |keys| <= l.maxKeys
    ensures FewLive(l, calls)
  {
    forall j | 0 <= j < |calls|
      ensures |Live(l, Unbounded(l, calls[..j + 1]), calls[j].time)| <= l.maxKeys
    {
      UnboundedKeys(l, calls[..j + 1], keys);
      SubsetNotLarger(Live(l, Unbounded(l, calls[..j + 1]), calls[j].time).Keys, keys);
    }
  }

  lemma FewCallersKept(l: Limits, keys: set<string>)
    requires Positive(l) && |keys| <= l.maxKeys
    ensures KeepsPromise(l, keys)
  {
    hide IsRun, Ordered, KeysIn, AllWithin, AdmittedInRun, FewLive;
    forall calls, states, key, i: nat, j: nat, low
      ensures SpanKept(l, keys, calls, states, key, i, j, low)
    {
      if IsRun(l, calls, states) && Ordered(calls) && KeysIn(calls, keys) && i <= j <= |calls|
         && AllWithin(calls[i..j], low, low + l.window as real) {
        FewCallersFewLive(l, calls, keys);
        BoundedSpan(l, calls, states, key, i, j, low);
      }
    }
  }

  // ---------------------------------------------------------------- one caller too many

  /** Callers taking turns: the one longest silent is next. `last` is the time of the last call. */
  datatype Round = Round(queue: seq<string>, table: Entries, last: real)

  function Rotated(queue: seq<string>): seq<string>
    requires queue != []
  {
    queue[1..] + [queue[0]]
  }

  /** Halfway to time one, so that any number of calls fits in a window. */
  function NextTime(last: real): real { (last + 1.0) / 2.0 }

  function NextCall(r: Round): Call
    requires r.queue != []
  {
    Call(r.queue[0], NextTime(r.last))
  }

  function NextRound(l: Limits, r: Round): Round
    requires |r.queue| >= 2
  {
    var c := NextCall(r);
    var table := WithNew(r.table, c);
    Round(Rotated(r.queue), if |r.table| < l.maxKeys then table else table - {r.queue[1]}, c.time)
  }

  ghost predicate Distinct(q: seq<string>) {
    forall i, j :: 0 <= i < j < |q| ==> q[i] != q[j]
  }

  ghost predicate Opened(e: Entry, last: real) { e == Entry(e.seen, 1, e.seen) && 0.0 <= e.seen <= last }

  ghost predicate SameKeys(m: Entries, w: seq<string>) { forall k :: k in m <==> k in w }

  ghost predicate OldestFirst(m: Entries, w: seq<string>) {
    forall i, j :: 0 <= i < j < |w| && w[i] in m && w[j] in m ==> m[w[i]].seen <= m[w[j]].seen
  }

  /** The table holds exactly these keys, each with a window of one call, the oldest first. */
  ghost predicate Holds(m: Entries, w: seq<string>, last: real) {
    && SameKeys(m, w) && OldestFirst(m, w)
    && forall k :: k in m ==> Opened(m[k], last)
  }

  /** The entries right after a call of a key that is not in the table. */
  function WithNew(m: Entries, c: Call): Entries { m[c.key := Entry(c.time, 1, c.time)] }

  lemma HoldsNew(m: Entries, w: seq<string>, last: real, c: Call)
    requires Holds(m, w, last) && c.key !in w && last < c.time && 0.0 <= c.time
    ensures Holds(WithNew(m, c), w + [c.key], c.time) && |WithNew(m, c)| == |m| + 1
  {
    var m', w' := WithNew(m, c), w + [c.key];
    assert m'.Keys == m.Keys + {c.key};
    assert OldestFirst(m', w') by {
      hide SameKeys;
      assert forall i :: 0 <= i < |w| ==> w'[i] == w[i] && w[i] != c.key;
    }
  }

  lemma HoldsLess(m: Entries, w: seq<string>, last: real)
    requires Holds(m, w, last) && Distinct(w) && w != []
    ensures Holds(m - {w[0]}, w[1..], last) && |m - {w[0]}| == |m| - 1
  {
    hide Opened;
    RemoveOne(m, w[0]);
    assert OldestFirst(m - {w[0]}, w[1..]) by { hide SameKeys, Distinct; }
    assert SameKeys(m - {w[0]}, w[1..]) by {
      hide OldestFirst;
      assert w == [w[0]] + w[1..];
      assert w[0] !in w[1..];
    }
  }

  /** In the first unit of time no window expires, and the first key is the one longest unseen. */
  lemma HoldsLive(l: Limits, m: Entries, w: seq<string>, last: real)
    requires Positive(l) && Holds(m, w, last) && last < 1.0 && w != []
    ensures Live(l, m, last) == m
    ensures forall k :: k in m ==> m[w[0]].seen <= m[k].seen
  {
    forall k | k in m
      ensures m[w[0]].seen <= m[k].seen
    {
      assert k in w && w[0] in m;
    }
  }

  /** One caller more than the table holds, and the table holds the latest ones. */
  ghost predicate TakingTurns(l: Limits, r: Round) {
    && |r.queue| == l.maxKeys + 1 && Distinct(r.queue) && |r.table| <= l.maxKeys
    && -1.0 <= r.last < 1.0
    && Holds(r.table, Latest(l, r), r.last)
  }

  function Latest(l: Limits, r: Round): seq<string>
    requires |r.table| <= |r.queue|
  {
    r.queue[|r.queue| - |r.table|..]
  }

  lemma NextTimeFits(last: real)
    requires -1.0 <= last < 1.0
    ensures last < NextTime(last) && 0.0 <= NextTime(last) < 1.0
  {
  }

  lemma RotatedDistinct(q: seq<string>)
    requires Distinct(q) && q != []
    ensures Distinct(Rotated(q))
  {
  }

  /** The next caller has been forgotten, so its call opens a window. */
  lemma NextAdmitted(l: Limits, r: Round)
    requires Positive(l) && TakingTurns(l, r)
    ensures var c := NextCall(r);
            && c.key !in r.table && c.key !in Latest(l, r)
            && Decide(l, r.table, c.key, c.time).allowed
            && Recorded(l, r.table, c.key, c.time) == WithNew(r.table, c)
  {
    hide NextTime;
    assert r.queue[0] !in r.queue[|r.queue| - |r.table|..];
  }

  /** Before any bounding, the table holds the latest callers and the new one. */
  lemma TurnHolds(l: Limits, r: Round)
    requires Positive(l) && TakingTurns(l, r)
    ensures var c := NextCall(r);
            && Holds(WithNew(r.table, c), Latest(l, r) + [c.key], c.time)
            && |WithNew(r.table, c)| == |r.table| + 1 && c.time < 1.0
  {
    hide NextTime, Holds, Decide, Recorded;
    NextAdmitted(l, r);
    NextTimeFits(r.last);
    HoldsNew(r.table, Latest(l, r), r.last, NextCall(r));
  }

  lemma TurnSteps(l: Limits, r: Round)
    requires Positive(l) && TakingTurns(l, r)
    ensures Step(l, r.table, NextCall(r), NextRound(l, r).table)
  {
    hide NextTime, Holds, Decide, Recorded, Live, WithNew;
    NextAdmitted(l, r);
    TurnHolds(l, r);
    var c := NextCall(r);
    var m, w := WithNew(r.table, c), Latest(l, r) + [c.key];
    HoldsLive(l, m, w, c.time);
    if |r.table| == l.maxKeys {
      assert w == Rotated(r.queue) && w[0] == r.queue[1];
      RotatedDistinct(r.queue);
      HoldsLess(m, w, c.time);
    }
  }

  lemma TurnsGoOn(l: Limits, r: Round)
    requires Positive(l) && TakingTurns(l, r)
    ensures TakingTurns(l, NextRound(l, r))
  {
    hide NextTime, Holds, Decide, Recorded, WithNew, Distinct;
    TurnHolds(l, r);
    NextTimeFits(r.last);
    RotatedDistinct(r.queue);
    var c, next := NextCall(r), NextRound(l, r);
    var w := Latest(l, r) + [c.key];
    if |r.table| == l.maxKeys {
      assert w == next.queue;
      HoldsLess(WithNew(r.table, c), w, c.time);
    } else {
      assert Latest(l, next) == w;
    }
  }

  // ---------------------------------------------------------------- the run

  function RoundAt(l: Limits, queue: seq<string>, i: nat): (r: Round)
    requires |queue| >= 2
    ensures |r.queue| == |queue|
  {
    if i == 0 then Round(queue, map[], -1.0) else NextRound(l, RoundAt(l, queue, i - 1))
  }

  lemma RoundStep(l: Limits, queue: seq<string>, i: nat)
    requires |queue| >= 2
    ensures var r, next := RoundAt(l, queue, i), RoundAt(l, queue, i + 1);
            next.queue == Rotated(r.queue) && next.last == NextCall(r).time
  {
    hide NextTime;
  }

  lemma {:induction false} AlwaysTurns(l: Limits, queue: seq<string>, i: nat)
    requires Positive(l) && |queue| == l.maxKeys + 1 && Distinct(queue)
    ensures TakingTurns(l, RoundAt(l, queue, i))
    decreases i
  {
    hide NextRound;
    if i > 0 {
      AlwaysTurns(l, queue, i - 1);
      TurnsGoOn(l, RoundAt(l, queue, i - 1));
    }
  }

  function Calls(l: Limits, queue: seq<string>, n: nat): seq<Call>
    requires |queue| >= 2
  {
    seq(n, (i: nat) requires i < n => NextCall(RoundAt(l, queue, i)))
  }

  function States(l: Limits, queue: seq<string>, n: nat): seq<Entries>
    requires |queue| >= 2
  {
    seq(n + 1, (i: nat) requires i <= n => RoundAt(l, queue, i).table)
  }

  lemma IsTurnRun(l: Limits, queue: seq<string>, n: nat)
    requires Positive(l) && |queue| == l.maxKeys + 1 && Distinct(queue)
    ensures IsRun(l, Calls(l, queue, n), States(l, queue, n))
  {
    hide NextRound, Step, TakingTurns, NextCall;
    forall i | 0 <= i < n
      ensures Step(l, States(l, queue, n)[i], Calls(l, queue, n)[i], States(l, queue, n)[i + 1])
    {
      AlwaysTurns(l, queue, i);
      TurnSteps(l, RoundAt(l, queue, i));
    }
  }

  lemma {:induction false} TimesAscend(l: Limits, queue: seq<string>, i: nat, j: nat)
    requires Positive(l) && |queue| == l.maxKeys + 1 && Distinct(queue) && i <= j
    ensures 0.0 <= NextCall(RoundAt(l, queue, i)).time <= NextCall(RoundAt(l, queue, j)).time < 1.0
    decreases j
  {
    hide NextCall, TakingTurns, RoundAt;
    AlwaysTurns(l, queue, j);
    TurnBounds(l, RoundAt(l, queue, j));
    if i < j {
      TimesAscend(l, queue, i, j - 1);
      RoundStep(l, queue, j - 1);
    }
  }

  lemma TurnBounds(l: Limits, r: Round)
    requires TakingTurns(l, r)
    ensures r.last < NextCall(r).time && 0.0 <= NextCall(r).time < 1.0
  {
    NextTimeFits(r.last);
  }

  lemma {:induction false} QueueKeys(l: Limits, queue: seq<string>, i: nat, p: nat)
    requires |queue| >= 2 && p < |queue|
    ensures RoundAt(l, queue, i).queue[p] in queue
    decreases i
  {
    if i > 0 { QueueKeys(l, queue, i - 1, if p + 1 < |queue| then p + 1 else 0); }
  }

  /** The caller at position `p` of the queue calls after `p` others. */
  lemma {:induction false} ReachesFront(l: Limits, queue: seq<string>, i: nat, p: nat)
    requires |queue| >= 2 && p < |queue|
    ensures RoundAt(l, queue, i + p).queue[0] == RoundAt(l, queue, i).queue[p]
    decreases p
  {
    hide RoundAt, NextCall;
    if p > 0 {
      RoundStep(l, queue, i);
      ReachesFront(l, queue, i + 1, p - 1);
      assert i + 1 + (p - 1) == i + p;
    }
  }

  /** After one whole round it is the same caller's turn again. */
  lemma ComesRound(l: Limits, queue: seq<string>, i: nat)
    requires |queue| >= 2
    ensures RoundAt(l, queue, i + |queue|).queue[0] == RoundAt(l, queue, i).queue[0]
  {
    hide RoundAt, NextCall;
    RoundStep(l, queue, i);
    ReachesFront(l, queue, i + 1, |queue| - 1);
    assert i + 1 + (|queue| - 1) == i + |queue|;
  }

  lemma {:induction false} AdmittedMonotone(l: Limits, calls: seq<Call>, states: seq<Entries>, key: string,
                                            i: nat, k: nat, j: nat)
    requires i <= k <= j <= |calls| && |states| == |calls| + 1
    ensures AdmittedInRun(l, calls, states, key, i, j) >= AdmittedInRun(l, calls, states, key, k, j)
    decreases k - i
  {
    if i < k { AdmittedMonotone(l, calls, states, key, i + 1, k, j); }
  }

  /** The calls of some whole rounds and one more. */
  function RoundsLength(size: nat, rounds: nat): (n: nat)
    ensures n >= 1
  {
    if rounds == 0 then 1 else size + RoundsLength(size, rounds - 1)
  }

  /** Whoever is next gets one call admitted per round, and one more. */
  lemma {:induction false} AdmittedEachRound(l: Limits, queue: seq<string>, n: nat, i: nat, rounds: nat)
    requires Positive(l) && |queue| == l.maxKeys + 1 && Distinct(queue)
    requires n == i + RoundsLength(|queue|, rounds)
    ensures AdmittedInRun(l, Calls(l, queue, n), States(l, queue, n), RoundAt(l, queue, i).queue[0], i, n) >= rounds + 1
    decreases rounds
  {
    hide RoundAt, Decide, TakingTurns;
    var calls, states, key := Calls(l, queue, n), States(l, queue, n), RoundAt(l, queue, i).queue[0];
    AlwaysTurns(l, queue, i);
    NextAdmitted(l, RoundAt(l, queue, i));
    assert calls[i] == NextCall(RoundAt(l, queue, i)) && states[i] == RoundAt(l, queue, i).table;
    if rounds > 0 {
      var k := i + |queue|;
      ComesRound(l, queue, i);
      AdmittedEachRound(l, queue, n, k, rounds - 1);
      AdmittedMonotone(l, calls, states, key, i + 1, k, n);
    }
  }

  lemma {:induction false} PickDistinct(keys: set<string>, n: nat) returns (q: seq<string>)
    requires n <= |keys|
    ensures |q| == n && Distinct(q) && forall i :: 0 <= i < |q| ==> q[i] in keys
    decreases n
  {
    if n == 0 { return []; }
    var k :| k in keys;
    q := PickDistinct(keys - {k}, n - 1);
    q := [k] + q;
  }

  /** One caller too many: the callers of a full queue taking turns break the promise. */
  lemma TurnsBreak(l: Limits, keys: set<string>, queue: seq<string>)
    requires Positive(l) && |queue| == l.maxKeys + 1 && Distinct(queue)
    requires forall i :: 0 <= i < |queue| ==> queue[i] in keys
    ensures !KeepsPromise(l, keys)
  {
    hide IsRun, RoundAt, NextCall, AdmittedInRun;
    var rounds := 2 * l.requests;
    var n := RoundsLength(|queue|, rounds);
    var calls, states, key := Calls(l, queue, n), States(l, queue, n), RoundAt(l, queue, 0).queue[0];
    IsTurnRun(l, queue, n);
    AdmittedEachRound(l, queue, n, 0, rounds);
    forall i, j | 0 <= i <= j < n
      ensures 0.0 <= calls[i].time <= calls[j].time < 1.0
    {
      TimesAscend(l, queue, i, j);
    }
    forall i | 0 <= i < n
      ensures calls[i].key in keys
    {
      CallerOf(l, queue, i);
    }
    assert calls[0..n] == calls;
    assert AllWithin(calls, 0.0, 0.0 + l.window as real);
    assert !SpanKept(l, keys, calls, states, key, 0, n, 0.0);
  }

  lemma CallerOf(l: Limits, queue: seq<string>, i: nat)
    requires |queue| >= 2
    ensures NextCall(RoundAt(l, queue, i)).key in queue
  {
    QueueKeys(l, queue, i, 0);
  }

  /** The promise of at most twice the limit per window is kept, for every run of the callers in
      `keys`, exactly when the table has room for all of them. */
  lemma PromiseIffRoom(l: Limits, keys: set<string>)
    requires Positive(l)
    ensures KeepsPromise(l, keys) <==> |keys| <= l.maxKeys
  {
    hide KeepsPromise;
    if |keys| <= l.maxKeys {
      FewCallersKept(l, keys);
    } else {
      var queue := PickDistinct(keys, l.maxKeys + 1);
      TurnsBreak(l, keys, queue);
    }
  }
}
