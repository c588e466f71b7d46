/**
 The registry's Merkle tree over the log's entry hashes, in its two forms.

 `Root` is the plain definition: pair up a level, duplicate an odd last node,
 repeat until one node is left. A `Level` list (the "frontier") is the
 accelerator an append maintains: per tree level, the length and the last one
 or two nodes. Everything here holds for an arbitrary pair hash `h`; where
 binding is claimed, injectivity of `h` is a hypothesis.
 */
module Merkle {

  // ---------------------------------------------------------------- the plain tree

  /** Half of `n`, rounded up: the length of the level above a level of `n` nodes. */
  function CeilHalf(n: nat): (half: nat)
    ensures 2 * half - 1 <= n <= 2 * half
  {
    if n <= 1 then n else 1 + CeilHalf(n - 2)
  }

  predicate Odd(n: nat) { n == 2 * CeilHalf(n) - 1 }

  /** The hash of pair number `i` of a level; an odd last node pairs with itself. */
  function PairAt<D>(h: (D, D) -> D, s: seq<D>, i: nat): D
    requires 2 * i < |s|
  {
    h(s[2 * i], if 2 * i + 1 < |s| then s[2 * i + 1] else s[2 * i])
  }

  function NextLevel<D>(h: (D, D) -> D, s: seq<D>): (next: seq<D>)
    ensures |next| == CeilHalf(|s|)
    decreases |s|
  {
    if |s| == 0 then []
    else
      var pairs := CeilHalf(|s|) - 1;
      NextLevel(h, s[..2 * pairs]) + [PairAt(h, s, pairs)]
  }

  lemma {:induction false} NextLevelAt<D>(h: (D, D) -> D, s: seq<D>, i: nat)
    requires 2 * i < |s|
    ensures NextLevel(h, s)[i] == PairAt(h, s, i)
    decreases |s|
  {
    var pairs := CeilHalf(|s|) - 1;
    if i < pairs { NextLevelAt(h, s[..2 * pairs], i); }
  }

  function Root<D>(h: (D, D) -> D, genesis: D, s: seq<D>): D
    decreases |s|
  {
    if |s| == 0 then genesis
    else if |s| == 1 then s[0]
    else Root(h, genesis, NextLevel(h, s))
  }

  /** The number of levels above the leaves. */
  function Depth(n: nat): nat
    requires n >= 1
    decreases n
  {
    if n == 1 then 0 else 1 + Depth(CeilHalf(n))
  }

  function Pow2(k: nat): nat { if k == 0 then 1 else 2 * Pow2(k - 1) }

  lemma {:induction false} Pow2Monotone(a: nat, b: nat)
    requires a <= b
    ensures Pow2(a) <= Pow2(b)
    decreases b
  {
    if a < b { Pow2Monotone(a, b - 1); }
  }

  lemma {:induction false} Pow2Sum(a: nat, b: nat)
    ensures Pow2(a + b) == Pow2(a) * Pow2(b)
    decreases b
  {
    if b > 0 { Pow2Sum(a, b - 1); }
  }

  /** `Depth` is the base-two logarithm, rounded up. */
  lemma {:induction false} DepthIsCeilLog2(n: nat, k: nat)
    requires n >= 1
    ensures Depth(n) <= k <==> n <= Pow2(k)
    decreases n
  {
    if n == 1 {
      Pow2Monotone(0, k);
    } else if k > 0 {
      DepthIsCeilLog2(CeilHalf(n), k - 1);
    }
  }

  /** Builds the tree level by level, as both copies of the root computation do. */
  method MerkleRoot<D>(h: (D, D) -> D, genesis: D, leaves: seq<D>) returns (root: D)
    ensures root == Root(h, genesis, leaves)
  {
    hide NextLevel, CeilHalf;
    if |leaves| == 0 {
      return genesis;
    }
    var level := leaves;
    while |level| > 1
      invariant |level| >= 1
      invariant Root(h, genesis, level) == Root(h, genesis, leaves)
      decreases |level|
    {
      var next: seq<D> := [];
      var index := 0;
      while index < |level|
        invariant index == 2 * |next|
        invariant |next| <= CeilHalf(|level|)
        invariant forall i :: 0 <= i < |next| ==> next[i] == PairAt(h, level, i)
        decreases |level| - index
      {
        var left := level[index];
        var right := if index + 1 < |level| then level[index + 1] else left;
        next := next + [h(left, right)];
        index := index + 2;
      }
      forall i | 0 <= i < |next|
        ensures next[i] == NextLevel(h, level)[i]
      {
        NextLevelAt(h, level, i);
      }
      assert next == NextLevel(h, level);
      level := next;
    }
    root := level[0];
  }

  // ---------------------------------------------------------------- the frontier

  /** The last one or two nodes of a level. */
  datatype Tail<D> = One(last: D) | Two(second: D, last: D)

  datatype Level<D> = Level(length: nat, tail: Tail<D>)

  datatype FrontierError = Disagrees | TailIncomplete | TooDeep

  datatype Growth<D> =
    | Grown(levels: seq<Level<D>>, root: D, hashes: nat)
    | Broken(error: FrontierError)

  const MAX_LEVEL: nat := 64

  function Last<D>(s: seq<D>): D
    requires |s| > 0
  {
    s[|s| - 1]
  }

  function TailOf<D>(s: seq<D>): Tail<D>
    requires |s| > 0
  {
    if |s| == 1 then One(s[0]) else Two(s[|s| - 2], s[|s| - 1])
  }

  /** What the frontier of a prefix must be: one level record per tree level. */
  function FrontierOf<D>(h: (D, D) -> D, s: seq<D>): seq<Level<D>>
    decreases |s|, 1
  {
    if |s| == 0 then [] else [Level(|s|, TailOf(s))] + Above(h, s)
  }

  /** The part of the frontier above level `s`. */
  function Above<D>(h: (D, D) -> D, s: seq<D>): seq<Level<D>>
    decreases |s|, 0
  {
    if |s| <= 1 then [] else FrontierOf(h, NextLevel(h, s))
  }

  /** The last node of the level above a level of this length that ends in these nodes. */
  function LastAbove<D>(h: (D, D) -> D, length: nat, second: D, last: D): D {
    if Odd(length) then h(last, last) else h(second, last)
  }

  /** A growth with one more level below it, computed with `cost` more pair hashes. */
  function OnTop<D>(level: Level<D>, cost: nat, above: Growth<D>): Growth<D> {
    match above
    case Broken(e) => Broken(e)
    case Grown(levels, root, hashes) => Grown([level] + levels, root, hashes + cost)
  }

  /** The levels above a changed level, bottom up; `index` numbers `upper[0]`. */
  function Climb<D>(h: (D, D) -> D, index: nat, length: nat, second: D, last: D, upper: seq<Level<D>>): Growth<D>
    requires length >= 2
    decreases |upper|
  {
    var newLength := CeilHalf(length);
    var newLast := LastAbove(h, length, second, last);
    var top := Grown([Level(1, One(newLast))], newLast, 1);
    if upper == [] then
      if newLength != 1 then Broken(Disagrees) else top
    else
      var prior := upper[0];
      if prior.length >= 2 && prior.tail.One? then Broken(TailIncomplete)
      else if newLength != prior.length && newLength != prior.length + 1 then Broken(Disagrees)
      else if newLength == 1 then top
      else
        var kept := if newLength == prior.length then prior.tail.second else prior.tail.last;
        if index + 1 > MAX_LEVEL then Broken(TooDeep)
        else OnTop(Level(newLength, Two(kept, newLast)), 1,
                   Climb(h, index + 1, newLength, kept, newLast, upper[1..]))
  }

  /** Appending one leaf to a frontier. */
  function Append<D>(h: (D, D) -> D, f: seq<Level<D>>, leaf: D): Growth<D> {
    if f == [] then Grown([Level(1, One(leaf))], leaf, 0)
    else
      var prior := f[0];
      var kept := if prior.length == 1 && prior.tail.Two? then prior.tail.second else prior.tail.last;
      var first := Level(prior.length + 1, Two(kept, leaf));
      if first.length <= 1 then Grown([first], leaf, 0)
      else OnTop(first, 0, Climb(h, 1, first.length, kept, leaf, f[1..]))
  }

  // ---------------------------------------------------------------- exactness

  /** `t` is `s` with one node appended, or with its last node replaced. */
  ghost predicate Bumped<D>(s: seq<D>, t: seq<D>) {
    |s| >= 1 && |s| <= |t| <= |s| + 1
    && forall i :: 0 <= i < |t| - 1 ==> t[i] == s[i]
  }

  lemma BumpedAbove<D>(h: (D, D) -> D, s: seq<D>, t: seq<D>)
    requires Bumped(s, t)
    ensures Bumped(NextLevel(h, s), NextLevel(h, t))
  {
    var a, b := NextLevel(h, s), NextLevel(h, t);
    forall i | 0 <= i < |b| - 1
      ensures b[i] == a[i]
    {
      NextLevelAt(h, s, i);
      NextLevelAt(h, t, i);
    }
  }

  /** How the levels, root and depth of a level relate to those of the next one. */
  lemma StepUp<D>(h: (D, D) -> D, genesis: D, s: seq<D>)
    requires |s| >= 2
    ensures var next := NextLevel(h, s);
            && |next| == CeilHalf(|s|)
            && Last(next) == LastAbove(h, |s|, s[|s| - 2], s[|s| - 1])
            && Above(h, s) == [Level(|next|, TailOf(next))] + Above(h, next)
            && Root(h, genesis, s) == Root(h, genesis, next)
            && Depth(|s|) == 1 + Depth(|next|)
            && (|next| == 1 ==> Above(h, next) == [] && Root(h, genesis, next) == Last(next) && Depth(|next|) == 0)
            && (|next| > 1 ==> Depth(|next|) >= 1)
  {
    hide NextLevel, CeilHalf;
    NextLevelAt(h, s, CeilHalf(|s|) - 1);
  }

  /** One step of `Climb` on a level whose length is what the level below demands. */
  lemma ClimbStep<D>(h: (D, D) -> D, index: nat, length: nat, second: D, last: D,
                     upper: seq<Level<D>>, prior: Level<D>, rest: seq<Level<D>>, grown: Level<D>)
    requires length >= 2 && upper == [prior] + rest
    requires grown.length == CeilHalf(length) && grown.tail.last == LastAbove(h, length, second, last)
    requires prior.length == grown.length || prior.length + 1 == grown.length
    requires prior.length >= 2 ==> prior.tail.Two?
    requires if grown.length == 1 then grown.tail.One?
             else grown.tail.Two? &&
                  grown.tail.second == if prior.length == grown.length then prior.tail.second else prior.tail.last
    ensures Climb(h, index, length, second, last, upper)
         == if grown.length == 1 then Grown([grown], grown.tail.last, 1)
            else if index + 1 > MAX_LEVEL then Broken(TooDeep)
            else OnTop(grown, 1, Climb(h, index + 1, grown.length, grown.tail.second, grown.tail.last, rest))
  {
    assert upper[0] == prior;
    assert upper[1..] == rest;
  }

  /** Restoring the levels above a bumped level gives the levels above the new level. */
  lemma {:induction false} ClimbExact<D>(h: (D, D) -> D, genesis: D, index: nat, s: seq<D>, t: seq<D>)
    requires Bumped(s, t) && |t| >= 2 && index <= MAX_LEVEL
    ensures Climb(h, index, |t|, t[|t| - 2], t[|t| - 1], Above(h, s))
         == if index + Depth(|t|) <= MAX_LEVEL + 1
            then Grown(Above(h, t), Root(h, genesis, t), Depth(|t|))
            else Broken(TooDeep)
    decreases |t|
  {
    hide NextLevel, CeilHalf;
    var t1 := NextLevel(h, t);
    StepUp(h, genesis, t);
    if |s| >= 2 {
      var s1 := NextLevel(h, s);
      StepUp(h, genesis, s);
      BumpedAbove(h, s, t);
      ClimbStep(h, index, |t|, t[|t| - 2], t[|t| - 1],
                Above(h, s), Level(|s1|, TailOf(s1)), Above(h, s1), Level(|t1|, TailOf(t1)));
      if |t1| > 1 && index + 1 <= MAX_LEVEL {
        ClimbExact(h, genesis, index + 1, s1, t1);
      }
    }
  }

  /** The most leaves a frontier can hold: 2^64. */
  predicate Fits(n: nat) { n <= 0x1_0000_0000_0000_0000 }

  lemma FitsIff(n: nat)
    requires n >= 1
    ensures Depth(n) <= MAX_LEVEL <==> Fits(n)
  {
    DepthIsCeilLog2(n, MAX_LEVEL);
    Pow2Of64();
  }

  lemma Pow2Of64()
    ensures Pow2(64) == 0x1_0000_0000_0000_0000
  {
    assert Pow2(8) == 0x100;
    Pow2Sum(8, 8);
    Pow2Sum(16, 16);
    Pow2Sum(32, 32);
  }

  lemma AppendStep<D>(h: (D, D) -> D, s: seq<D>, leaf: D)
    requires |s| >= 1
    ensures var t := s + [leaf];
            && Append(h, FrontierOf(h, s), leaf)
               == OnTop(Level(|t|, TailOf(t)), 0, Climb(h, 1, |t|, t[|t| - 2], t[|t| - 1], Above(h, s)))
  {
    hide NextLevel, CeilHalf, Climb, Above;
    assert FrontierOf(h, s)[1..] == Above(h, s);
  }

  lemma FrontierStep<D>(h: (D, D) -> D, s: seq<D>)
    requires |s| >= 1
    ensures FrontierOf(h, s) == [Level(|s|, TailOf(s))] + Above(h, s)
  {
  }

  /** Growing the exact frontier of a prefix gives the exact frontier of the longer
      prefix and the plain root, with one pair hash per level above the leaves. It
      fails exactly when the tree would have more than 2^64 leaves. */
  lemma AppendExact<D>(h: (D, D) -> D, genesis: D, s: seq<D>, leaf: D)
    ensures Append(h, FrontierOf(h, s), leaf)
         == if Fits(|s| + 1)
            then Grown(FrontierOf(h, s + [leaf]), Root(h, genesis, s + [leaf]), Depth(|s| + 1))
            else Broken(TooDeep)
  {
    var t := s + [leaf];
    FitsIff(|t|);
    if |s| == 0 {
      assert t == [leaf];
      assert Above(h, t) == [];
    } else {
      hide NextLevel, CeilHalf, Climb, Append, FrontierOf, Above, Root, Depth;
      AppendStep(h, s, leaf);
      ClimbExact(h, genesis, 1, s, t);
      FrontierStep(h, t);
    }
  }
}
