/**
 The frontier as the store uses it: a list of level records edited in place, the
 recomputation of every prefix from the leaves, and the cheap anchor checks an
 append makes before it trusts a stored frontier.
 */
module Frontier {
  import opened Outcomes
  import opened Merkle

  // ---------------------------------------------------------------- the in-place append

  function Prepend<D>(done: seq<Level<D>>, cost: nat, above: Growth<D>): Growth<D> {
    match above
    case Broken(e) => Broken(e)
    case Grown(levels, root, hashes) => Grown(done + levels, root, cost + hashes)
  }

  lemma PrependOnTop<D>(done: seq<Level<D>>, cost: nat, level: Level<D>, above: Growth<D>)
    ensures Prepend(done, cost, OnTop(level, 1, above)) == Prepend(done + [level], cost + 1, above)
  {
    if above.Grown? { assert done + ([level] + above.levels) == done + [level] + above.levels; }
  }

  /** The steps of `Climb` that go no higher than the level in hand. */
  lemma ClimbStops<D>(h: (D, D) -> D, index: nat, length: nat, second: D, last: D, upper: seq<Level<D>>)
    requires length >= 2
    ensures upper == [] ==>
              Climb(h, index, length, second, last, upper)
              == if CeilHalf(length) != 1 then Broken(Disagrees)
                 else Grown([Level(1, One(LastAbove(h, length, second, last)))], LastAbove(h, length, second, last), 1)
    ensures upper != [] && upper[0].length >= 2 && upper[0].tail.One? ==>
              Climb(h, index, length, second, last, upper) == Broken(TailIncomplete)
    ensures upper != [] && !(upper[0].length >= 2 && upper[0].tail.One?)
            && CeilHalf(length) != upper[0].length && CeilHalf(length) != upper[0].length + 1 ==>
              Climb(h, index, length, second, last, upper) == Broken(Disagrees)
  {
  }

  class FrontierList<D> {
    var levels: seq<Level<D>>

    constructor (levels: seq<Level<D>>)
      ensures this.levels == levels
    {
      this.levels := levels;
    }

    /** Appends one leaf, touching one node per level. After an error the list is
        abandoned by every caller, so nothing is said about it. */
    method Append(h: (D, D) -> D, leaf: D) returns (result: Result<D, FrontierError>, hashes: nat)
      modifies this
      ensures match Merkle.Append(h, old(levels), leaf)
              case Broken(e) => result == Err(e)
              case Grown(grown, root, n) => levels == grown && result == Ok(root) && hashes == n
    {
      hide CeilHalf, Climb;
      hashes := 0;
      if levels == [] {
        levels := [Level(1, One(leaf))];
        return Ok(leaf), hashes;
      }
      ghost var goal := Merkle.Append(h, levels, leaf);
      var first := levels[0];
      var second := if first.length == 1 && first.tail.Two? then first.tail.second else first.tail.last;
      var last := leaf;
      var length := first.length + 1;
      levels := levels[0 := Level(length, Two(second, last))];
      var index := 1;
      if length <= 1 {
        levels := levels[..1];
        return Ok(leaf), hashes;
      }
      assert levels[..1] == [Level(length, Two(second, last))];
      while true
        invariant 1 <= index <= |levels| && length >= 2
        invariant goal == Prepend(levels[..index], hashes, Climb(h, index, length, second, last, levels[index..]))
        decreases |levels| - index
      {
        var upper := (length + 1) / 2;
        var newLast := if length % 2 == 1 then h(last, last) else h(second, last);
        assert newLast == LastAbove(h, length, second, last);
        ClimbStops(h, index, length, second, last, levels[index..]);
        hashes := hashes + 1;
        if index >= |levels| {
          if upper != 1 {
            return Err(Disagrees), hashes;
          }
          levels := levels + [Level(1, One(newLast))];
          return Ok(newLast), hashes;
        }
        var prior := levels[index];
        if prior.length >= 2 && prior.tail.One? {
          return Err(TailIncomplete), hashes;
        }
        var newTail;
        if upper == prior.length {
          newTail := if prior.length == 1 then One(newLast) else Two(prior.tail.second, newLast);
        } else if upper == prior.length + 1 {
          newTail := if upper == 1 then One(newLast) else Two(prior.tail.last, newLast);
        } else {
          return Err(Disagrees), hashes;
        }
        ghost var done := levels[..index];
        ghost var rest := levels[index + 1..];
        assert levels[index..] == [prior] + rest;
        ClimbStep(h, index, length, second, last, levels[index..], prior, rest, Level(upper, newTail));
        levels := levels[index := Level(upper, newTail)];
        assert levels[..index + 1] == done + [Level(upper, newTail)];
        if upper == 1 {
          levels := levels[..index + 1];
          return Ok(newLast), hashes;
        }
        if index + 1 > MAX_LEVEL {
          return Err(TooDeep), hashes;
        }
        PrependOnTop(done, hashes - 1, Level(upper, newTail),
                     Climb(h, index + 1, upper, newTail.second, newLast, rest));
        second, last, length, index := newTail.second, newLast, upper, index + 1;
        assert levels[index..] == rest;
      }
    }
  }

  /** Recomputes every prefix root and the frontier from the leaves. */
  method RecomputePrefix<D>(h: (D, D) -> D, genesis: D, leaves: seq<D>)
    returns (result: Result<(seq<D>, seq<Level<D>>), FrontierError>)
    ensures result.Ok? <==> Fits(|leaves|)
    ensures result.Ok? ==> PrefixRoots(h, genesis, leaves, result.value.0)
    ensures result.Ok? ==> result.value.1 == FrontierOf(h, leaves)
  {
    hide CeilHalf, NextLevel, Climb, Root, FrontierOf, Merkle.Append;
    var roots := [];
    assert FrontierOf(h, []) == [] by { FrontierOfNothing(h); }
    var frontier := new FrontierList<D>([]);
    assert leaves[..0] == [];
    for i := 0 to |leaves|
      invariant Fits(i)
      invariant fresh(frontier) && frontier.levels == FrontierOf(h, leaves[..i])
      invariant PrefixRoots(h, genesis, leaves[..i], roots)
    {
      AppendExact(h, genesis, leaves[..i], leaves[i]);
      assert leaves[..i] + [leaves[i]] == leaves[..i + 1];
      var root, _ := frontier.Append(h, leaves[i]);
      if root.Err? {
        return Err(root.error);
      }
      forall k | 0 <= k < i
        ensures roots[k] == Root(h, genesis, leaves[..i + 1][..k + 1])
      {
        assert leaves[..i + 1][..k + 1] == leaves[..i][..k + 1];
      }
      assert leaves[..i + 1][..i + 1] == leaves[..i + 1];
      roots := roots + [root.value];
    }
    assert leaves[..|leaves|] == leaves;
    result := Ok((roots, frontier.levels));
  }

  ghost predicate PrefixRoots<D>(h: (D, D) -> D, genesis: D, leaves: seq<D>, roots: seq<D>) {
    && |roots| == |leaves|
    && forall k :: 0 <= k < |leaves| ==> roots[k] == Root(h, genesis, leaves[..k + 1])
  }

  lemma FrontierOfNothing<D>(h: (D, D) -> D)
    ensures FrontierOf(h, []) == []
  {
  }

  // ---------------------------------------------------------------- what an append depends on

  /** Equal levels, except that the second-last node of an odd level is free. */
  ghost predicate LevelAgrees<D>(a: Level<D>, b: Level<D>) {
    && a.length == b.length
    && (a.tail == b.tail ||
        (Odd(a.length) && a.length > 1 && a.tail.Two? && b.tail.Two? && a.tail.last == b.tail.last))
  }

  ghost predicate Agrees<D>(f: seq<Level<D>>, g: seq<Level<D>>) {
    |f| == |g| && forall k :: 0 <= k < |f| ==> LevelAgrees(f[k], g[k])
  }

  ghost predicate SameGrowth<D>(a: Growth<D>, b: Growth<D>) {
    match (a, b)
    case (Broken(e), Broken(e')) => e == e'
    case (Grown(f, root, n), Grown(g, root', n')) => Agrees(f, g) && root == root' && n == n'
    case _ => false
  }

  lemma AgreesOnTop<D>(a: Level<D>, b: Level<D>, f: seq<Level<D>>, g: seq<Level<D>>)
    requires LevelAgrees(a, b) && Agrees(f, g)
    ensures Agrees([a] + f, [b] + g)
  {
    hide LevelAgrees;
  }

  lemma SameOnTop<D>(a: Level<D>, b: Level<D>, above: Growth<D>, above': Growth<D>)
    requires LevelAgrees(a, b) && SameGrowth(above, above')
    ensures SameGrowth(OnTop(a, 1, above), OnTop(b, 1, above'))
  {
    hide LevelAgrees, Agrees;
    if above.Grown? { AgreesOnTop(a, b, above.levels, above'.levels); }
  }

  lemma SameAsItself<D>(g: Growth<D>)
    ensures SameGrowth(g, g)
  {
  }

  lemma {:induction false} ClimbAgrees<D>(h: (D, D) -> D, index: nat, length: nat, second: D, second': D, last: D,
                                          f: seq<Level<D>>, g: seq<Level<D>>)
    requires length >= 2 && Agrees(f, g)
    requires Odd(length) || second == second'
    ensures SameGrowth(Climb(h, index, length, second, last, f), Climb(h, index, length, second', last, g))
    decreases |f|
  {
    hide CeilHalf, Climb, SameGrowth, OnTop;
    ClimbStops(h, index, length, second, last, f);
    ClimbStops(h, index, length, second', last, g);
    SameAsItself(Climb(h, index, length, second, last, f));
    if f != [] {
      assert LevelAgrees(f[0], g[0]);
      var prior, prior', newLength := f[0], g[0], CeilHalf(length);
      var newLast := LastAbove(h, length, second, last);
      var incomplete := prior.length >= 2 && prior.tail.One?;
      if !incomplete && (newLength == prior.length || newLength == prior.length + 1) {
        assert f == [prior] + f[1..] && g == [prior'] + g[1..];
        if newLength == 1 {
          ClimbStep(h, index, length, second, last, f, prior, f[1..], Level(1, One(newLast)));
          ClimbStep(h, index, length, second', last, g, prior', g[1..], Level(1, One(newLast)));
        } else {
          var kept := if newLength == prior.length then prior.tail.second else prior.tail.last;
          var kept' := if newLength == prior.length then prior'.tail.second else prior'.tail.last;
          var grown, grown' := Level(newLength, Two(kept, newLast)), Level(newLength, Two(kept', newLast));
          ClimbStep(h, index, length, second, last, f, prior, f[1..], grown);
          ClimbStep(h, index, length, second', last, g, prior', g[1..], grown');
          AgreesAbove(f, g);
          ClimbAgrees(h, index + 1, newLength, kept, kept', newLast, f[1..], g[1..]);
          SameOnTop(grown, grown', Climb(h, index + 1, newLength, kept, newLast, f[1..]),
                    Climb(h, index + 1, newLength, kept', newLast, g[1..]));
        }
      }
    }
  }

  lemma AgreesAbove<D>(f: seq<Level<D>>, g: seq<Level<D>>)
    requires Agrees(f, g) && f != []
    ensures Agrees(f[1..], g[1..])
  {
    hide LevelAgrees;
    assert forall k :: 0 <= k < |f[1..]| ==> f[1..][k] == f[k + 1] && g[1..][k] == g[k + 1];
  }

  /** An append reads no more of a frontier than `Agrees` compares. */
  lemma AppendAgrees<D>(h: (D, D) -> D, f: seq<Level<D>>, g: seq<Level<D>>, leaf: D)
    requires Agrees(f, g)
    ensures SameGrowth(Merkle.Append(h, f, leaf), Merkle.Append(h, g, leaf))
  {
    hide CeilHalf, Climb;
    if f != [] {
      assert LevelAgrees(f[0], g[0]);
      assert forall k :: 0 <= k < |f[1..]| ==> f[1..][k] == f[k + 1] && g[1..][k] == g[k + 1];
      var length := f[0].length + 1;
      if length >= 2 {
        var kept := if f[0].length == 1 && f[0].tail.Two? then f[0].tail.second else f[0].tail.last;
        ClimbAgrees(h, 1, length, kept, kept, leaf, f[1..], g[1..]);
      }
    }
  }

  /** The roots reported for a run of appends, each on the frontier the last one left. */
  datatype Appends<D> = Appended(levels: seq<Level<D>>, roots: seq<D>) | Stopped(error: FrontierError)

  function AppendAll<D>(h: (D, D) -> D, f: seq<Level<D>>, leaves: seq<D>): Appends<D> {
    if leaves == [] then Appended(f, [])
    else
      match AppendAll(h, f, leaves[..|leaves| - 1])
      case Stopped(e) => Stopped(e)
      case Appended(levels, roots) =>
        match Merkle.Append(h, levels, leaves[|leaves| - 1])
        case Broken(e) => Stopped(e)
        case Grown(grown, root, _) => Appended(grown, roots + [root])
  }

  /** Whatever agrees with the exact frontier reports the plain root for every later leaf. */
  lemma {:induction false} AllRootsExact<D>(h: (D, D) -> D, genesis: D, s: seq<D>, f: seq<Level<D>>, leaves: seq<D>)
    requires Agrees(f, FrontierOf(h, s))
    requires Fits(|s| + |leaves|)
    ensures AppendAll(h, f, leaves).Appended?
    ensures Agrees(AppendAll(h, f, leaves).levels, FrontierOf(h, s + leaves))
    ensures |AppendAll(h, f, leaves).roots| == |leaves|
    ensures forall k :: 0 <= k < |leaves| ==>
              AppendAll(h, f, leaves).roots[k] == Root(h, genesis, s + leaves[..k + 1])
    decreases |leaves|
  {
    hide CeilHalf, Climb, NextLevel, FrontierOf, Root, Merkle.Append, LevelAgrees;
    if leaves == [] {
      assert s + leaves == s;
    } else {
      var n := |leaves| - 1;
      var before, leaf := leaves[..n], leaves[n];
      AllRootsExact(h, genesis, s, f, before);
      var levels := AppendAll(h, f, before).levels;
      AppendExact(h, genesis, s + before, leaf);
      AppendAgrees(h, levels, FrontierOf(h, s + before), leaf);
      assert s + before + [leaf] == s + leaves;
      assert leaves[..n + 1] == leaves;
      var roots := AppendAll(h, f, before).roots;
      forall k | 0 <= k < n
        ensures roots[k] == Root(h, genesis, s + leaves[..k + 1])
      {
        assert before[..k + 1] == leaves[..k + 1];
      }
    }
  }

  // ---------------------------------------------------------------- the anchor checks

  ghost predicate Injective<D(!new)>(h: (D, D) -> D) {
    forall a, b, c, d :: h(a, b) == h(c, d) ==> a == c && b == d
  }

  /** What loading guarantees: no level is empty and no tail is longer than its level. */
  predicate Loaded<D>(f: seq<Level<D>>) {
    forall k :: 0 <= k < |f| ==> f[k].length >= 1 && (f[k].tail.Two? ==> f[k].length >= 2)
  }

  datatype AnchorError =
    | LengthMismatch | BoundaryMissing | HeadMismatch | NotContiguous | AnchorTailIncomplete | CommittedMismatch

  /** The inter-level walk: each level's last node is the hash of the end of the level below. */
  function LinkError<D(==)>(h: (D, D) -> D, f: seq<Level<D>>): Option<AnchorError>
    decreases |f|
  {
    if |f| <= 1 then None
    else if f[0].length >= 2 && f[0].tail.One? then Some(AnchorTailIncomplete)
    else
      var second := if f[0].tail.Two? then f[0].tail.second else f[0].tail.last;
      if f[1].tail.last != LastAbove(h, f[0].length, second, f[0].tail.last) then Some(CommittedMismatch)
      else LinkError(h, f[1..])
  }

  /** The checks made before an append trusts the stored frontier. `second` is the entry
      hash found in the row before the head, `boundary` the memoized head and root. */
  function AnchorErrorOf<D(==)>(h: (D, D) -> D, previousSeq: int, prevHash: D, second: Option<D>,
                                boundary: Option<(D, D)>, f: seq<Level<D>>): Option<AnchorError>
  {
    if (if f == [] then 0 else f[0].length) != previousSeq then Some(LengthMismatch)
    else if previousSeq == 0 then if f != [] then Some(LengthMismatch) else None
    else if boundary.None? then Some(BoundaryMissing)
    else if boundary.value.0 != prevHash then Some(HeadMismatch)
    else if previousSeq == 1 && f[0].tail != One(prevHash) then Some(CommittedMismatch)
    else if previousSeq > 1 && second.None? then Some(NotContiguous)
    else if previousSeq > 1 && f[0].tail != Two(second.value, prevHash) then Some(CommittedMismatch)
    else if LinkError(h, f).Some? then LinkError(h, f)
    else if f[|f| - 1].tail.last != boundary.value.1 then Some(CommittedMismatch)
    else None
  }

  /** Level `k` ends in the hash of what level `k - 1` ends in. */
  ghost predicate Link<D>(h: (D, D) -> D, f: seq<Level<D>>, k: nat)
    requires 0 < k < |f|
  {
    var below := f[k - 1];
    && (below.length > 1 ==> below.tail.Two?)
    && f[k].tail.last ==
       if Odd(below.length) || below.tail.One? then h(below.tail.last, below.tail.last)
       else h(below.tail.second, below.tail.last)
  }

  lemma {:induction false} LinksIff<D>(h: (D, D) -> D, f: seq<Level<D>>)
    ensures LinkError(h, f).None? <==> forall k :: 0 < k < |f| ==> Link(h, f, k)
    decreases |f|
  {
    hide CeilHalf;
    if |f| > 1 {
      var rest := f[1..];
      LinksIff(h, rest);
      assert forall k :: 0 < k < |rest| ==> (Link(h, rest, k) <==> Link(h, f, k + 1));
      assert LinkError(h, f).None? <==> Link(h, f, 1) && LinkError(h, rest).None?;
      if forall k :: 0 < k < |rest| ==> Link(h, rest, k) {
        forall k | 1 < k < |f|
          ensures Link(h, f, k)
        {
          assert Link(h, rest, k - 1);
        }
      }
      if forall k :: 0 < k < |f| ==> Link(h, f, k) {
        forall k | 0 < k < |rest|
          ensures Link(h, rest, k)
        {
          assert Link(h, f, k + 1);
        }
      }
    }
  }

  /** What accepted anchors say of a log that is not empty: level 0 has its length and ends in the
      hashes of its last rows, there is a boundary row with its head, the levels are linked, and the
      top node is the root in that row. */
  lemma AnchorsIff<D>(h: (D, D) -> D, size: nat, prevHash: D, second: Option<D>, boundary: Option<(D, D)>,
                      f: seq<Level<D>>)
    ensures AnchorErrorOf(h, 0, prevHash, second, boundary, f).None? <==> f == []
    ensures size > 0 ==>
            (AnchorErrorOf(h, size, prevHash, second, boundary, f).None? <==>
              && f != [] && f[0].length == size
              && boundary.Some? && boundary.value.0 == prevHash && boundary.value.1 == f[|f| - 1].tail.last
              && (if size == 1 then f[0].tail == One(prevHash)
                  else second.Some? && f[0].tail == Two(second.value, prevHash))
              && (forall k :: 0 < k < |f| ==> Link(h, f, k)))
  {
    hide Link, LinkError;
    LinksIff(h, f);
  }

  /** The node that the last node of a level is paired with. */
  function Left<D>(s: seq<D>): D
    requires |s| >= 2
  {
    if Odd(|s|) then Last(s) else s[|s| - 2]
  }

  lemma LastOfNext<D>(h: (D, D) -> D, genesis: D, s: seq<D>)
    requires |s| >= 2
    ensures NextLevel(h, s) != [] && Last(NextLevel(h, s)) == h(Left(s), Last(s))
  {
    hide CeilHalf, NextLevel;
    StepUp(h, genesis, s);
  }

  /** What accepted links say of a level that has another above it, whatever length it claims:
      its tail is there, and the parity it claims is harmless. */
  ghost predicate PinnedLevel<D>(s: seq<D>, level: Level<D>)
    requires |s| >= 2
  {
    && level.length >= 1 && (level.length >= 2 ==> level.tail.Two?)
    && if Odd(level.length) then Left(s) == Last(s) else level.tail.Two? && level.tail.second == Left(s)
  }

  /** The stored levels from `s` up end in the right nodes, and all but the top one are pinned. */
  ghost predicate Pinned<D>(h: (D, D) -> D, s: seq<D>, f: seq<Level<D>>)
    decreases |s|
  {
    && |s| >= 1 && |f| == 1 + Depth(|s|)
    && f[0].tail.last == Last(s) && f[0].length >= 1
    && (|s| >= 2 ==> PinnedLevel(s, f[0]) && Pinned(h, NextLevel(h, s), f[1..]))
  }

  lemma {:induction false} LevelCount<D>(h: (D, D) -> D, s: seq<D>)
    requires |s| >= 1
    ensures |FrontierOf(h, s)| == 1 + Depth(|s|)
    decreases |s|
  {
    hide CeilHalf, NextLevel;
    FrontierStep(h, s);
    if |s| >= 2 {
      StepUp(h, s[0], s);
      LevelCount(h, NextLevel(h, s));
    }
  }

  /** Top down: the root pins the top node, and each node pins the pair below it. No length
      above level 0 is assumed. */
  lemma {:induction false} LinksPin<D(!new)>(h: (D, D) -> D, genesis: D, s: seq<D>, f: seq<Level<D>>)
    requires Injective(h) && |s| >= 1
    requires Loaded(f) && |f| == 1 + Depth(|s|)
    requires LinkError(h, f).None? && f[|f| - 1].tail.last == Root(h, genesis, s)
    ensures Pinned(h, s, f)
    decreases |s|
  {
    hide CeilHalf, NextLevel;
    if |s| >= 2 {
      StepUp(h, genesis, s);
      LastOfNext(h, genesis, s);
      var next, rest := NextLevel(h, s), f[1..];
      assert forall k :: 0 <= k < |rest| ==> rest[k] == f[k + 1];
      LinksPin(h, genesis, next, rest);
      assert rest[0] == f[1] && rest[0].tail.last == h(Left(s), Last(s));
    }
  }


  /** The one stored row that can mislead a climb from a level of `before` nodes, now `after`: a
      new top level is due, and the top row claims two nodes, which differ. */
  ghost predicate MisleadsClimb<D>(before: nat, after: nat, f: seq<Level<D>>)
    requires before >= 1 && after >= 1
  {
    && before >= 2 && Depth(after) > Depth(before) && f != []
    && var top := f[|f| - 1];
    && top.length == 2 && top.tail.Two? && top.tail.second != top.tail.last
  }

  /** A log of this size, a power of two, is about to grow over such a row. */
  ghost predicate Misleading<D>(size: nat, f: seq<Level<D>>) {
    size >= 2 && MisleadsClimb(size, size + 1, f)
  }

  /** A new top level is due exactly at the powers of two. */
  lemma NewTopIff(size: nat)
    requires size >= 1
    ensures Depth(size + 1) > Depth(size) <==> size == Pow2(Depth(size))
  {
    DepthIsCeilLog2(size, Depth(size));
    DepthIsCeilLog2(size + 1, Depth(size));
  }

  /** What the climb over accepted levels comes to. */
  ghost predicate Climbed<D>(h: (D, D) -> D, genesis: D, before: nat, t: seq<D>, f: seq<Level<D>>, g: Growth<D>)
    requires before >= 1 && |t| >= 1
  {
    g.Grown? ==>
      && (g.root == Root(h, genesis, t) <==> !MisleadsClimb(before, |t|, f))
      && (!MisleadsClimb(before, |t|, f) ==> Agrees(g.levels, Above(h, t)))
  }

  /** The node a climb keeps as the second-last one of a level that will have `length` nodes. */
  function Kept<D>(length: nat, prior: Level<D>): D {
    if length == prior.length && prior.tail.Two? then prior.tail.second else prior.tail.last
  }

  /** What a climb that succeeds did at the first level above. */
  lemma ClimbOver<D>(h: (D, D) -> D, index: nat, length: nat, second: D, last: D,
                     prior: Level<D>, rest: seq<Level<D>>)
    requires length >= 2 && Climb(h, index, length, second, last, [prior] + rest).Grown?
    ensures CeilHalf(length) == prior.length || CeilHalf(length) == prior.length + 1
    ensures var g := Climb(h, index, length, second, last, [prior] + rest);
            var half, node := CeilHalf(length), LastAbove(h, length, second, last);
            if half == 1 then g.levels == [Level(1, One(node))] && g.root == node
            else
              var kept := Kept(half, prior);
              var above := Climb(h, index + 1, half, kept, node, rest);
              && (prior.length >= 2 ==> prior.tail.Two?)
              && above.Grown? && g.root == above.root
              && g.levels == [Level(half, Two(kept, node))] + above.levels
  {
    hide CeilHalf;
    assert ([prior] + rest)[1..] == rest;
  }

  /** Over a pinned level the climb keeps the right node, or one the next level will not read. */
  lemma KeptRight<D>(s: seq<D>, t: seq<D>, prior: Level<D>)
    requires Bumped(s, t) && |s| >= 2 && PinnedLevel(s, prior) && prior.tail.last == Last(s)
    requires |t| == prior.length || |t| == prior.length + 1
    ensures Odd(|t|) || Kept(|t|, prior) == t[|t| - 2]
  {
    hide CeilHalf;
  }

  /** Over the old top level, which the new top will pair with the new last node. */
  lemma ClimbToNewTop<D(!new)>(h: (D, D) -> D, genesis: D, index: nat, t: seq<D>, kept: D)
    requires Injective(h) && |t| == 2
    ensures var g := Climb(h, index, 2, kept, Last(t), []);
            && g == Grown([Level(1, One(h(kept, Last(t))))], h(kept, Last(t)), 1)
            && (g.root == Root(h, genesis, t) <==> kept == t[0])
            && (kept == t[0] ==> g.levels == Above(h, t))
  {
    hide CeilHalf, NextLevel, Climb;
    StepUp(h, genesis, t);
    ClimbStops(h, index, 2, kept, Last(t), []);
  }

  /** What the climb comes to at one level follows from what it comes to at the next. */
  lemma ClimbedBelow<D>(h: (D, D) -> D, genesis: D, s: seq<D>, t: seq<D>, prior: Level<D>, rest: seq<Level<D>>,
                        kept: D, above: Growth<D>, g: Growth<D>)
    requires |s| >= 2 && |t| >= 2 && |NextLevel(h, s)| >= 2 && |NextLevel(h, t)| >= 2 && rest != []
    requires Climbed(h, genesis, |NextLevel(h, s)|, NextLevel(h, t), rest, above)
    requires Odd(|NextLevel(h, t)|) || kept == NextLevel(h, t)[|NextLevel(h, t)| - 2]
    requires above.Grown? && g.Grown? && g.root == above.root
    requires g.levels == [Level(|NextLevel(h, t)|, Two(kept, Last(NextLevel(h, t))))] + above.levels
    ensures Climbed(h, genesis, |s|, t, [prior] + rest, g)
  {
    hide CeilHalf, NextLevel, Above, Root, Depth, Agrees;
    StepUp(h, genesis, s);
    StepUp(h, genesis, t);
    var t1, f := NextLevel(h, t), [prior] + rest;
    assert f[|f| - 1] == rest[|rest| - 1];
    if Agrees(above.levels, Above(h, t1)) {
      AgreesOnTop(Level(|t1|, Two(kept, Last(t1))), Level(|t1|, TailOf(t1)), above.levels, Above(h, t1));
    }
  }

  /** The climb from a level above which there is at most one more. */
  lemma ClimbLow<D(!new)>(h: (D, D) -> D, genesis: D, index: nat, s: seq<D>, t: seq<D>,
                          second: D, f: seq<Level<D>>)
    requires Injective(h) && Bumped(s, t) && |t| >= 2 && |NextLevel(h, s)| <= 1
    requires |f| == Depth(|s|) && (|s| >= 2 ==> Pinned(h, NextLevel(h, s), f))
    requires Odd(|t|) || second == t[|t| - 2]
    ensures Climbed(h, genesis, |s|, t, f, Climb(h, index, |t|, second, Last(t), f))
  {
    hide CeilHalf, NextLevel, Climb;
    StepUp(h, genesis, t);
    ClimbStops(h, index, |t|, second, Last(t), f);
    if |s| >= 2 && Climb(h, index, |t|, second, Last(t), f).Grown? {
      StepUp(h, genesis, s);
      BumpedAbove(h, s, t);
      var t1, prior := NextLevel(h, t), f[0];
      assert f == [prior] + [];
      ClimbOver(h, index, |t|, second, Last(t), prior, []);
      if |t1| == 2 {
        ClimbToNewTop(h, genesis, index + 1, t1, Kept(2, prior));
      }
    }
  }

  /** Bottom up: below the top, whatever length a pinned level claims, the climb over it either
      refuses or keeps the right node. */
  lemma {:induction false} ClimbPinned<D(!new)>(h: (D, D) -> D, genesis: D, index: nat, s: seq<D>, t: seq<D>,
                                                second: D, f: seq<Level<D>>)
    requires Injective(h) && Bumped(s, t) && |t| >= 2
    requires |f| == Depth(|s|) && (|s| >= 2 ==> Pinned(h, NextLevel(h, s), f))
    requires Odd(|t|) || second == t[|t| - 2]
    ensures Climbed(h, genesis, |s|, t, f, Climb(h, index, |t|, second, Last(t), f))
    decreases |t|
  {
    hide CeilHalf, NextLevel, Climb, Climbed, PinnedLevel, Injective, Root, Above;
    var g := Climb(h, index, |t|, second, Last(t), f);
    if |NextLevel(h, s)| <= 1 {
      ClimbLow(h, genesis, index, s, t, second, f);
    } else if g.Broken? {
      BrokenClimbed(h, genesis, |s|, t, f, g);
    } else {
      StepUp(h, genesis, s);
      StepUp(h, genesis, t);
      BumpedAbove(h, s, t);
      var s1, t1, prior, rest := NextLevel(h, s), NextLevel(h, t), f[0], f[1..];
      assert f == [prior] + rest;
      ClimbOver(h, index, |t|, second, Last(t), prior, rest);
      var kept := Kept(|t1|, prior);
      KeptRight(s1, t1, prior);
      ClimbPinned(h, genesis, index + 1, s1, t1, kept, rest);
      ClimbedBelow(h, genesis, s, t, prior, rest, kept, Climb(h, index + 1, |t1|, kept, Last(t1), rest), g);
    }
  }

  lemma BrokenClimbed<D>(h: (D, D) -> D, genesis: D, before: nat, t: seq<D>, f: seq<Level<D>>, g: Growth<D>)
    requires before >= 1 && |t| >= 1 && g.Broken?
    ensures Climbed(h, genesis, before, t, f, g)
  {
  }

  /** The anchors an append checks hold of `f` for the leaves `s`. */
  predicate Anchored<D(==)>(h: (D, D) -> D, genesis: D, s: seq<D>, f: seq<Level<D>>) {
    AnchorErrorOf(h, |s|, if s == [] then genesis else Last(s), if |s| <= 1 then None else Some(s[|s| - 2]),
                  if s == [] then None else Some((Last(s), Root(h, genesis, s))), f).None?
  }

  /** Accepted anchors, and nothing assumed of any stored length or node: the next root is right
      exactly when the stored top row is not misleading, and then the new frontier serves on. */
  lemma AnchorsExact<D(!new)>(h: (D, D) -> D, genesis: D, s: seq<D>, f: seq<Level<D>>, leaf: D)
    requires Injective(h) && Loaded(f) && |f| == |FrontierOf(h, s)| && Anchored(h, genesis, s, f)
    ensures var g := Merkle.Append(h, f, leaf);
            g.Grown? ==>
              && (g.root == Root(h, genesis, s + [leaf]) <==> !Misleading(|s|, f))
              && (!Misleading(|s|, f) ==> Agrees(g.levels, FrontierOf(h, s + [leaf])))
  {
    hide CeilHalf, NextLevel, Climb;
    var t := s + [leaf];
    if s == [] {
      assert t == [leaf];
    } else {
      LevelCount(h, s);
      LinksPin(h, genesis, s, f);
      assert |s| >= 2 ==> Pinned(h, NextLevel(h, s), f[1..]);
      ClimbPinned(h, genesis, 1, s, t, Last(s), f[1..]);
      FrontierStep(h, t);
    }
  }

  /** So while the top row is not misleading, accepted anchors make every later root right. */
  lemma AnchorsSuffice<D(!new)>(h: (D, D) -> D, genesis: D, s: seq<D>, f: seq<Level<D>>, leaf: D, rest: seq<D>)
    requires Injective(h) && Loaded(f) && |f| == |FrontierOf(h, s)| && Anchored(h, genesis, s, f)
    requires Merkle.Append(h, f, leaf).Grown? && !Misleading(|s|, f) && Fits(|s| + 1 + |rest|)
    ensures var g := Merkle.Append(h, f, leaf);
            var later := AppendAll(h, g.levels, rest);
            && g.root == Root(h, genesis, s + [leaf])
            && later.Appended? && |later.roots| == |rest|
            && forall k :: 0 <= k < |rest| ==> later.roots[k] == Root(h, genesis, s + [leaf] + rest[..k + 1])
  {
    hide CeilHalf, NextLevel, Climb, FrontierOf, Root, Fits, Misleading, Anchored;
    AnchorsExact(h, genesis, s, f, leaf);
    AllRootsExact(h, genesis, s + [leaf], Merkle.Append(h, f, leaf).levels, rest);
  }

  /** The exact frontier passes its own anchor checks. */
  lemma AnchorsAcceptExact<D>(h: (D, D) -> D, genesis: D, s: seq<D>)
    ensures Loaded(FrontierOf(h, s))
    ensures Anchored(h, genesis, s, FrontierOf(h, s))
  {
    hide CeilHalf, NextLevel, Root;
    if |s| >= 1 {
      LinksOfExact(h, genesis, s);
      FrontierStep(h, s);
    }
  }

  lemma {:induction false} LinksOfExact<D>(h: (D, D) -> D, genesis: D, s: seq<D>)
    requires |s| >= 1
    ensures var f := FrontierOf(h, s);
            && Loaded(f) && |f| >= 1
            && LinkError(h, f).None? && f[|f| - 1].tail.last == Root(h, genesis, s)
    decreases |s|
  {
    hide CeilHalf, NextLevel;
    FrontierStep(h, s);
    if |s| >= 2 {
      StepUp(h, genesis, s);
      var next := NextLevel(h, s);
      FrontierStep(h, next);
      LinksOfExact(h, genesis, next);
      var f := FrontierOf(h, s);
      assert f[1..] == FrontierOf(h, next);
      assert f[1] == FrontierOf(h, next)[0];
    }
  }

  /** The stored levels with the top row claiming two nodes, of which only the last is right. */
  function Topped<D>(f: seq<Level<D>>, x: D): seq<Level<D>>
    requires f != []
  {
    f[|f| - 1 := Level(2, Two(x, f[|f| - 1].tail.last))]
  }

  lemma {:induction false} LinksIgnoreTop<D>(h: (D, D) -> D, f: seq<Level<D>>, x: D)
    requires f != []
    ensures LinkError(h, Topped(f, x)) == LinkError(h, f)
    decreases |f|
  {
    hide CeilHalf;
    if |f| > 1 {
      LinksIgnoreTop(h, f[1..], x);
      assert Topped(f, x)[1..] == Topped(f[1..], x);
    }
  }

  /** A climb that builds a new top goes through over such a row. */
  lemma {:induction false} ToppedClimb<D>(h: (D, D) -> D, genesis: D, index: nat, s: seq<D>, t: seq<D>, x: D)
    requires Bumped(s, t) && |s| >= 2 && Depth(|t|) > Depth(|s|) && index + Depth(|t|) <= MAX_LEVEL + 1
    ensures Above(h, s) != [] && Climb(h, index, |t|, t[|t| - 2], t[|t| - 1], Topped(Above(h, s), x)).Grown?
    decreases |t|
  {
    hide CeilHalf, NextLevel, Climb;
    StepUp(h, genesis, s);
    StepUp(h, genesis, t);
    BumpedAbove(h, s, t);
    var s1, t1 := NextLevel(h, s), NextLevel(h, t);
    var f, rest := Topped(Above(h, s), x), Above(h, s1);
    if |s1| == 1 {
      assert f == [Level(2, Two(x, Last(s1)))] + [];
      ClimbStep(h, index, |t|, t[|t| - 2], t[|t| - 1], f, Level(2, Two(x, Last(s1))), [], Level(2, Two(x, Last(t1))));
      ClimbStops(h, index + 1, 2, x, Last(t1), []);
    } else {
      StepUp(h, genesis, s1);
      var prior := Level(|s1|, TailOf(s1));
      assert f == [prior] + Topped(rest, x);
      ClimbStep(h, index, |t|, t[|t| - 2], t[|t| - 1], f, prior, Topped(rest, x), Level(|t1|, TailOf(t1)));
      ToppedClimb(h, genesis, index + 1, s1, t1, x);
    }
  }

  lemma ToppedAnchored<D>(h: (D, D) -> D, genesis: D, s: seq<D>, x: D)
    requires |s| >= 2
    ensures FrontierOf(h, s) != [] && Loaded(Topped(FrontierOf(h, s), x))
    ensures Anchored(h, genesis, s, Topped(FrontierOf(h, s), x))
    ensures Topped(FrontierOf(h, s), x)[|FrontierOf(h, s)| - 1] == Level(2, Two(x, Root(h, genesis, s)))
    ensures Above(h, s) != [] && Topped(FrontierOf(h, s), x) == [Level(|s|, TailOf(s))] + Topped(Above(h, s), x)
  {
    hide CeilHalf, NextLevel, Root, LinkError, FrontierOf;
    LinksOfExact(h, genesis, s);
    FrontierStep(h, s);
    StepUp(h, genesis, s);
    AnchorsAcceptExact(h, genesis, s);
    LinksIgnoreTop(h, FrontierOf(h, s), x);
  }

  /** Misleading rows are accepted, for every log whose size is a power of two: the checks compare
      the length of level 0 only. With any node but the root beside the root, the stored frontier
      passes every anchor check, the append succeeds, and the root it reports is wrong. */
  lemma LengthsAreNotAnchored<D(!new)>(h: (D, D) -> D, genesis: D, s: seq<D>, x: D, leaf: D)
    requires Injective(h) && |s| >= 2 && |s| == Pow2(Depth(|s|)) && Fits(|s| + 1) && x != Root(h, genesis, s)
    ensures var f := FrontierOf(h, s);
            && f != [] && Loaded(Topped(f, x)) && Anchored(h, genesis, s, Topped(f, x))
            && Misleading(|s|, Topped(f, x))
            && var g := Merkle.Append(h, Topped(f, x), leaf);
            g.Grown? && g.root != Root(h, genesis, s + [leaf])
  {
    hide CeilHalf, NextLevel, Climb, FrontierOf, Root, Above, Depth, Anchored, Fits, Pow2, Injective;
    var t := s + [leaf];
    NewTopIff(|s|);
    FitsIff(|t|);
    ToppedAnchored(h, genesis, s, x);
    var f := FrontierOf(h, s);
    ToppedClimb(h, genesis, 1, s, t, x);
    assert Topped(f, x)[1..] == Topped(Above(h, s), x);
    AnchorsExact(h, genesis, s, Topped(f, x), leaf);
  }

  lemma NextOfTwo<D>(h: (D, D) -> D, a: D, b: D)
    ensures NextLevel(h, [a, b]) == [h(a, b)]
  {
    NextLevelAt(h, [a, b], 0);
  }

  // ---------------------------------------------------------------- what a root binds

  /** With an injective pair hash, size and root determine the leaves. */
  lemma {:induction false} RootBinds<D(!new)>(h: (D, D) -> D, genesis: D, a: seq<D>, b: seq<D>)
    requires Injective(h) && |a| == |b| && Root(h, genesis, a) == Root(h, genesis, b)
    ensures a == b
    decreases |a|
  {
    hide CeilHalf, NextLevel;
    if |a| >= 2 {
      RootBinds(h, genesis, NextLevel(h, a), NextLevel(h, b));
      forall i | 0 <= i < |a|
        ensures a[i] == b[i]
      {
        var k := if Even(i) then HalfOf(i) else HalfOf(i - 1);
        NextLevelAt(h, a, k);
        NextLevelAt(h, b, k);
      }
    }
  }

  predicate Even(i: nat) { i % 2 == 0 }

  function HalfOf(i: nat): (k: nat)
    requires Even(i)
    ensures 2 * k == i
  {
    i / 2
  }

  /** The size is needed: repeating the last leaf of an odd list keeps the root. */
  lemma RepeatedLastLeaf<D>(h: (D, D) -> D, genesis: D, s: seq<D>)
    requires |s| >= 3 && Odd(|s|)
    ensures Root(h, genesis, s + [Last(s)]) == Root(h, genesis, s)
  {
    hide CeilHalf, NextLevel;
    var t := s + [Last(s)];
    var a, b := NextLevel(h, s), NextLevel(h, t);
    forall i | 0 <= i < |a|
      ensures a[i] == b[i]
    {
      NextLevelAt(h, s, i);
      NextLevelAt(h, t, i);
    }
    assert a == b;
  }
}
