/** Diversified recall (semantic.py, _recall_inner; memory.py, _semantic_near_inner): the events similar
    to a query, picked greedily by maximal marginal relevance. */
module Recall {
  import opened Clusters
  import opened Basics
  import opened Sorting

  datatype Scored = Scored(pos: nat, sim: real)

  const LAMBDA := 0.7

  /** More similar first; on equal similarity the older event first, as a stable sort leaves it. */
  predicate Ahead(a: Scored, b: Scored) {
    a.sim > b.sim || (a.sim == b.sim && a.pos < b.pos)
  }

  /** The events of the pool with positive similarity to the query, in pool order. */
  function Positive(pool: seq<nat>, embed: nat -> Vec, query: Vec): (s: seq<Scored>)
    ensures forall x: Scored :: x in s <==> x.pos in pool && x.sim == Cosine(query, embed(x.pos)) && x.sim > 0.0
    ensures |s| <= |pool|
  {
    if pool == [] then []
    else
      var sim := Cosine(query, embed(pool[0]));
      (if sim > 0.0 then [Scored(pool[0], sim)] else []) + Positive(pool[1..], embed, query)
  }

  lemma {:induction false} PositiveDistinct(pool: seq<nat>, embed: nat -> Vec, query: Vec)
    requires Distinct(pool)
    ensures Distinct(Positive(pool, embed, query))
  {
    if pool != [] {
      PositiveDistinct(pool[1..], embed, query);
      var rest := Positive(pool[1..], embed, query);
      forall j | 0 <= j < |rest| ensures rest[j].pos != pool[0] {
        assert rest[j] in rest && rest[j].pos in pool[1..];
        var i :| 0 < i < |pool| && pool[i] == rest[j].pos;
      }
      var head := Positive(pool, embed, query)[..|Positive(pool, embed, query)| - |rest|];
      assert Positive(pool, embed, query) == head + rest;
      assert forall x | x in head :: x.pos == pool[0];
    }
  }

  /** The positive ones in order of similarity. */
  function Ranked(pool: seq<nat>, embed: nat -> Vec, query: Vec): (r: seq<Scored>)
    requires Distinct(pool)
    ensures Sorted(r, Ahead) && |r| == |Positive(pool, embed, query)|
    ensures forall x :: x in r <==> x in Positive(pool, embed, query)
  {
    PositiveDistinct(pool, embed, query);
    Sort(Positive(pool, embed, query), Ahead)
  }

  // ------------------------------------------------------------- relevance

  /** The largest similarity to a chosen event; 0.0 when nothing is chosen yet. */
  function Redundancy(embed: nat -> Vec, x: nat, chosen: seq<Scored>): real {
    if chosen == [] then 0.0
    else
      var s := Cosine(embed(x), embed(chosen[|chosen| - 1].pos));
      if |chosen| == 1 then s
      else
        var r := Redundancy(embed, x, chosen[..|chosen| - 1]);
        if r >= s then r else s
  }

  /** `m` is the largest similarity of event `x` to one of the chosen ones. */
  ghost predicate LargestSim(embed: nat -> Vec, x: nat, chosen: seq<Scored>, m: real) {
    && (exists c :: c in chosen && Cosine(embed(x), embed(c.pos)) == m)
    && (forall c | c in chosen :: Cosine(embed(x), embed(c.pos)) <= m)
  }

  lemma {:induction false} RedundancyIsLargest(embed: nat -> Vec, x: nat, chosen: seq<Scored>)
    requires chosen != []
    ensures LargestSim(embed, x, chosen, Redundancy(embed, x, chosen))
  {
    var front, last := chosen[..|chosen| - 1], chosen[|chosen| - 1];
    assert chosen == front + [last];
    assert last in chosen;
    if front != [] {
      RedundancyIsLargest(embed, x, front);
      var c :| c in front && Cosine(embed(x), embed(c.pos)) == Redundancy(embed, x, front);
      assert c in chosen;
    }
  }

  function Relevance(embed: nat -> Vec, x: Scored, chosen: seq<Scored>): real {
    LAMBDA * x.sim - (1.0 - LAMBDA) * Redundancy(embed, x.pos, chosen)
  }

  /** `c` is a best pick among `remaining` given what is chosen: nothing is more relevant, and among the
      equally relevant it comes first in order of similarity. */
  ghost predicate BestPick(embed: nat -> Vec, c: Scored, remaining: seq<Scored>, chosen: seq<Scored>) {
    && c in remaining
    && forall x | x in remaining && x != c ::
         Relevance(embed, x, chosen) < Relevance(embed, c, chosen)
         || (Relevance(embed, x, chosen) == Relevance(embed, c, chosen) && Ahead(c, x))
  }

  /** What is left of the ranking when the chosen ones are taken out. */
  function Without(ranked: seq<Scored>, chosen: seq<Scored>): (r: seq<Scored>)
    ensures forall x :: x in r <==> x in ranked && x !in chosen
  {
    if ranked == [] then []
    else (if ranked[0] in chosen then [] else [ranked[0]]) + Without(ranked[1..], chosen)
  }

  /** Pick `k` is a best one among what was left then. */
  ghost predicate BestAt(embed: nat -> Vec, ranked: seq<Scored>, chosen: seq<Scored>, k: nat) {
    k < |chosen| && BestPick(embed, chosen[k], Without(ranked, chosen[..k]), chosen[..k])
  }

  /** Every pick is a best one among everything not picked before it. */
  ghost predicate Greedy(embed: nat -> Vec, ranked: seq<Scored>, chosen: seq<Scored>) {
    forall k | 0 <= k < |chosen| :: BestAt(embed, ranked, chosen, k)
  }

  // ------------------------------------------------------------- the recall

  /** One inner pass: the index of the first entry of greatest relevance. */
  method Pick(embed: nat -> Vec, remaining: seq<Scored>, chosen: seq<Scored>) returns (best: nat)
    requires remaining != [] && Sorted(remaining, Ahead)
    ensures best < |remaining| && BestPick(embed, remaining[best], remaining, chosen)
  {
    best := 0;
    var bestScore := Relevance(embed, remaining[0], chosen);
    for i := 1 to |remaining|
      invariant best < i && bestScore == Relevance(embed, remaining[best], chosen)
      invariant forall j | 0 <= j < i :: Relevance(embed, remaining[j], chosen) <= bestScore
      invariant forall j | 0 <= j < best :: Relevance(embed, remaining[j], chosen) < bestScore
    {
      var s := Relevance(embed, remaining[i], chosen);
      if s > bestScore {
        best, bestScore := i, s;
      }
    }
    forall x | x in remaining && x != remaining[best]
      ensures Relevance(embed, x, chosen) < bestScore
              || (Relevance(embed, x, chosen) == bestScore && Ahead(remaining[best], x))
    {
      var j :| 0 <= j < |remaining| && remaining[j] == x;
    }
  }

  lemma {:induction false} WithoutSorted(ranked: seq<Scored>, chosen: seq<Scored>)
    requires Sorted(ranked, Ahead)
    ensures Sorted(Without(ranked, chosen), Ahead)
  {
    if ranked != [] {
      WithoutSorted(ranked[1..], chosen);
      var r := Without(ranked[1..], chosen);
      forall j | 0 <= j < |r| ensures Ahead(ranked[0], r[j]) {
        assert r[j] in ranked[1..];
        var i :| 0 < i < |ranked| && ranked[i] == r[j];
      }
    }
  }

  /** Two lists in the same strict order with the same elements are one list. */
  lemma {:induction false} SortedUnique(a: seq<Scored>, b: seq<Scored>)
    requires Sorted(a, Ahead) && Sorted(b, Ahead) && forall x :: x in a <==> x in b
    ensures a == b
  {
    assert b == [] || b[|b| - 1] in b;
    if a != [] {
      assert a[0] in a && a[0] in b;
      assert b[0] in b && b[0] in a;
      var i :| 0 <= i < |b| && b[i] == a[0];
      var j :| 0 <= j < |a| && a[j] == b[0];
      assert a[0] == b[0];
      forall x ensures x in a[1..] <==> x in b[1..] {
        if x in a[1..] { var k :| 0 < k < |a| && a[k] == x; assert x in b; assert Ahead(a[0], x); }
        if x in b[1..] { var k :| 0 < k < |b| && b[k] == x; assert x in a; assert Ahead(b[0], x); }
      }
      SortedUnique(a[1..], b[1..]);
    }
  }

  /** The recall: min(n, positive pool) different events, each a best pick when it was picked. */
  method RecallDiverse(pool: seq<nat>, embed: nat -> Vec, query: Vec, n: int) returns (chosen: seq<Scored>)
    requires Distinct(pool)
    ensures var scored := Positive(pool, embed, query);
            && |chosen| == (if n <= 0 then 0 else if n <= |scored| then n else |scored|)
            && (forall x | x in chosen :: x in scored)
    ensures Distinct(chosen) && Greedy(embed, Ranked(pool, embed, query), chosen)
  {
    var ranked := Ranked(pool, embed, query);
    chosen := [];
    var remaining := ranked;
    NothingTaken(ranked);
    while |chosen| < n && remaining != []
      invariant |chosen| + |remaining| == |ranked| && (|chosen| <= n || chosen == [])
      invariant Progress(embed, ranked, chosen, remaining)
      decreases |remaining|
    {
      var best := Pick(embed, remaining, chosen);
      PickKeeps(embed, ranked, chosen, remaining, best);
      chosen := chosen + [remaining[best]];
      remaining := Dropping(remaining, best);
    }
  }

  ghost predicate Progress(embed: nat -> Vec, ranked: seq<Scored>, chosen: seq<Scored>, remaining: seq<Scored>) {
    && remaining == Without(ranked, chosen) && Sorted(remaining, Ahead)
    && (forall x {:trigger x in chosen} | x in chosen :: x in ranked)
    && Distinct(chosen)
    && Greedy(embed, ranked, chosen)
  }

  lemma NothingTaken(ranked: seq<Scored>)
    requires Sorted(ranked, Ahead)
    ensures Without(ranked, []) == ranked
  {
    WithoutSorted(ranked, []);
    SortedUnique(Without(ranked, []), ranked);
  }

  lemma PickKeeps(embed: nat -> Vec, ranked: seq<Scored>, chosen: seq<Scored>, remaining: seq<Scored>, best: nat)
    requires Sorted(ranked, Ahead) && Progress(embed, ranked, chosen, remaining) && best < |remaining|
    requires BestPick(embed, remaining[best], remaining, chosen)
    ensures Progress(embed, ranked, chosen + [remaining[best]], Dropping(remaining, best))
  {
    TakeOut(ranked, chosen, remaining, best);
    GreedySnoc(embed, ranked, chosen, remaining[best]);
  }

  function Dropping(s: seq<Scored>, k: nat): seq<Scored>
    requires k < |s|
  {
    s[..k] + s[k + 1..]
  }

  lemma DroppingMembers(s: seq<Scored>, k: nat, x: Scored)
    requires k < |s| && Sorted(s, Ahead)
    ensures x in Dropping(s, k) <==> x in s && x != s[k]
  {
    var left := Dropping(s, k);
    if x in s && x != s[k] {
      var i :| 0 <= i < |s| && s[i] == x;
      assert x == if i < k then left[i] else left[i - 1];
    }
    if x in left {
      var i :| 0 <= i < |left| && left[i] == x;
      var j := if i < k then i else i + 1;
      assert x == s[j] && (if j < k then Ahead(s[j], s[k]) else Ahead(s[k], s[j]));
    }
  }

  lemma DroppingSorted(s: seq<Scored>, k: nat)
    requires k < |s| && Sorted(s, Ahead)
    ensures Sorted(Dropping(s, k), Ahead)
  {
    var left := Dropping(s, k);
    forall i, j | 0 <= i < j < |left| ensures Ahead(left[i], left[j]) {
      var i', j' := if i < k then i else i + 1, if j < k then j else j + 1;
      assert left[i] == s[i'] && left[j] == s[j'];
    }
  }

  lemma TakeOut(ranked: seq<Scored>, chosen: seq<Scored>, remaining: seq<Scored>, best: nat)
    requires Sorted(ranked, Ahead) && remaining == Without(ranked, chosen) && best < |remaining|
    requires Sorted(remaining, Ahead)
    ensures remaining[best] in ranked && remaining[best] !in chosen
    ensures Dropping(remaining, best) == Without(ranked, chosen + [remaining[best]])
    ensures Sorted(Dropping(remaining, best), Ahead)
  {
    var c, left := remaining[best], Dropping(remaining, best);
    assert c in remaining;
    var rest := Without(ranked, chosen + [c]);
    WithoutSorted(ranked, chosen + [c]);
    DroppingSorted(remaining, best);
    forall x ensures x in left <==> x in rest {
      DroppingMembers(remaining, best, x);
    }
    SortedUnique(left, rest);
  }

  lemma BestAtStill(embed: nat -> Vec, ranked: seq<Scored>, chosen: seq<Scored>, c: Scored, k: nat)
    requires BestAt(embed, ranked, chosen, k)
    ensures BestAt(embed, ranked, chosen + [c], k)
  {
    assert (chosen + [c])[..k] == chosen[..k];
  }

  lemma GreedySnoc(embed: nat -> Vec, ranked: seq<Scored>, chosen: seq<Scored>, c: Scored)
    requires Greedy(embed, ranked, chosen) && BestPick(embed, c, Without(ranked, chosen), chosen)
    ensures Greedy(embed, ranked, chosen + [c])
  {
    assert (chosen + [c])[..|chosen|] == chosen;
    forall k | 0 <= k < |chosen| + 1 ensures BestAt(embed, ranked, chosen + [c], k) {
      if k < |chosen| {
        BestAtStill(embed, ranked, chosen, c, k);
      }
    }
  }

  /** What a greedy list optimises, over the similarities themselves: of two events that were free when pick `k` was
      made, the one taken has the greater 0.7 x similarity to the query - 0.3 x largest similarity to an earlier pick,
      or it stands earlier in the ranking. */
  lemma PicksAreRelevantAndNew(embed: nat -> Vec, ranked: seq<Scored>, chosen: seq<Scored>, k: nat, x: Scored,
                               near: real, nearX: real)
    requires Greedy(embed, ranked, chosen) && 0 < k < |chosen| && x in ranked && x !in chosen[..k + 1]
    requires LargestSim(embed, chosen[k].pos, chosen[..k], near) && LargestSim(embed, x.pos, chosen[..k], nearX)
    ensures var taken, left := 0.7 * chosen[k].sim - 0.3 * near, 0.7 * x.sim - 0.3 * nearX;
            || left < taken
            || (left == taken && (chosen[k].sim > x.sim || (chosen[k].sim == x.sim && chosen[k].pos < x.pos)))
  {
    assert BestAt(embed, ranked, chosen, k);
    assert chosen[..k + 1] == chosen[..k] + [chosen[k]];
    RedundancyIsLargest(embed, chosen[k].pos, chosen[..k]);
    RedundancyIsLargest(embed, x.pos, chosen[..k]);
    assert x in Without(ranked, chosen[..k]);
  }

  /** The first pick is the most similar event of all. */
  lemma FirstPickIsMostSimilar(embed: nat -> Vec, ranked: seq<Scored>, chosen: seq<Scored>)
    requires Sorted(ranked, Ahead) && Greedy(embed, ranked, chosen) && chosen != []
    ensures ranked != [] && chosen[0] == ranked[0]
  {
    assert chosen[..0] == [] && BestAt(embed, ranked, chosen, 0);
    NothingTaken(ranked);
    var c := chosen[0];
    assert BestPick(embed, c, ranked, []);
    var i :| 0 <= i < |ranked| && ranked[i] == c;
    if i > 0 {
      var x := ranked[0];
      assert Ahead(x, c) && x in ranked;
    }
  }

  // ------------------------------------------------- the legacy inner pass

  /** The inner pass as memory.py has it: after a hit the running best is the index, not the score.
      `started` is false while the running best is still minus infinity. */
  method LegacyPick(scores: seq<real>) returns (best: nat)
    requires scores != []
    ensures best == LegacyBest(scores, |scores|)
  {
    best := 0;
    var started, bestScore := false, 0;
    for i := 0 to |scores|
      invariant started <==> i > 0
      invariant i > 0 ==> best == LegacyBest(scores, i) == bestScore
    {
      if !started || scores[i] > bestScore as real {
        best, bestScore, started := i, i, true;
      }
    }
  }

  function LegacyBest(scores: seq<real>, n: nat): (b: nat)
    requires 0 < n <= |scores|
    ensures b < n
  {
    if n == 1 then 0
    else
      var b := LegacyBest(scores, n - 1);
      if scores[n - 1] > b as real then n - 1 else b
  }

  /** On scores of at most 1 the legacy pass takes the first positive score after the very first entry,
      and the very first entry only if there is none. */
  lemma {:induction false} LegacyTakesFirstPositive(scores: seq<real>, n: nat)
    requires 0 < n <= |scores| && forall i | 0 <= i < n :: scores[i] <= 1.0
    ensures var b := LegacyBest(scores, n);
            if exists i :: 1 <= i < n && scores[i] > 0.0
            then b >= 1 && scores[b] > 0.0 && forall i | 1 <= i < b :: scores[i] <= 0.0
            else b == 0
  {
    if n > 1 { LegacyTakesFirstPositive(scores, n - 1); }
  }

  function Relevances(embed: nat -> Vec, remaining: seq<Scored>, chosen: seq<Scored>): seq<real> {
    seq(|remaining|, i requires 0 <= i < |remaining| => Relevance(embed, remaining[i], chosen))
  }

  /** The first positive score from `k` on, or the very first entry. */
  function FirstHit(scores: seq<real>, k: nat): (f: nat)
    requires 0 < k <= |scores|
    ensures f == 0 || (k <= f < |scores| && scores[f] > 0.0)
    ensures forall i | k <= i < |scores| && (f == 0 || i < f) :: scores[i] <= 0.0
    decreases |scores| - k
  {
    if k == |scores| then 0 else if scores[k] > 0.0 then k else FirstHit(scores, k + 1)
  }

  lemma LegacyIsFirstHit(scores: seq<real>)
    requires scores != [] && forall i | 0 <= i < |scores| :: scores[i] <= 1.0
    ensures LegacyBest(scores, |scores|) == FirstHit(scores, 1)
  {
    LegacyTakesFirstPositive(scores, |scores|);
    var f := FirstHit(scores, 1);
    assert f > 0 ==> scores[f] > 0.0;
  }

  /** On scores of at most 1 the legacy pick is a greatest one if and only if the first positive score after the very
      first entry is exceeded neither by that entry nor by any later one; it is never compared with either. Without a
      positive score the very first entry must be the greatest. */
  lemma LegacyPickIsBestIff(scores: seq<real>)
    requires scores != [] && forall i | 0 <= i < |scores| :: scores[i] <= 1.0
    ensures var b, f := LegacyBest(scores, |scores|), FirstHit(scores, 1);
            (forall i | 0 <= i < |scores| :: scores[i] <= scores[b])
            <==> scores[0] <= scores[f] && forall i | f < i < |scores| :: scores[i] <= scores[f]
  {
    LegacyIsFirstHit(scores);
    var f := FirstHit(scores, 1);
    if scores[0] <= scores[f] && forall i | f < i < |scores| :: scores[i] <= scores[f] {
      forall i | 0 <= i < |scores| ensures scores[i] <= scores[f] {
        assert i == 0 || i < f || i == f || f < i;
      }
    }
  }

  /** By similarity, whatever the order among equals: the legacy pool comes newest first. */
  ghost predicate Descending(ranked: seq<Scored>) {
    forall i, j | 0 <= i < j < |ranked| :: ranked[i].sim >= ranked[j].sim
  }

  /** With unit vectors (similarities at most 1), the first legacy pick is the runner-up as soon as two
      events match; it is a best pick exactly if only one event matches or the first two tie. */
  lemma LegacyFirstPick(embed: nat -> Vec, ranked: seq<Scored>)
    requires ranked != [] && Descending(ranked) && forall i | 0 <= i < |ranked| :: 0.0 < ranked[i].sim <= 1.0
    ensures var b := LegacyBest(Relevances(embed, ranked, []), |ranked|);
            && b == (if |ranked| == 1 then 0 else 1)
            && ((forall i | 0 <= i < |ranked| :: Relevance(embed, ranked[i], []) <= Relevance(embed, ranked[b], []))
                <==> |ranked| == 1 || ranked[0].sim == ranked[1].sim)
  {
    var scores := Relevances(embed, ranked, []);
    LegacyTakesFirstPositive(scores, |ranked|);
    if |ranked| > 1 {
      assert scores[1] > 0.0;
    }
  }
}
