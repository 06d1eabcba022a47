/** The similarity searches of a sleep cycle (sleep.py). Memories are log positions and `sim` is the
    similarity of their embeddings. */
module SleepSearch {
  import opened EventLog
  import opened Basics

  type Sim = (nat, nat) -> real

  const DUPLICATE := 0.8
  const RELATED := 0.5

  predicate NearCopy(sim: Sim, a: nat, b: nat) {
    sim(a, b) > DUPLICATE
  }

  ghost predicate Symmetric(sim: Sim) {
    forall a, b :: sim(a, b) == sim(b, a)
  }

  // ------------------------------------------------------ duplicate cluster

  /** Thought `i` has a near copy after it. */
  predicate Repeats(thoughts: seq<nat>, sim: Sim, i: nat)
    requires i < |thoughts|
  {
    exists j | i < j < |thoughts| :: NearCopy(sim, thoughts[i], thoughts[j])
  }

  /** One pass over the first `k` thoughts: each joins if it is close to a member so far. */
  function Grown(thoughts: seq<nat>, sim: Sim, start: nat, k: nat): (c: seq<nat>)
    requires start < |thoughts| && k <= |thoughts|
    ensures |c| > 0 && c[0] == thoughts[start]
  {
    if k == 0 then [thoughts[start]] else
      var c := Grown(thoughts, sim, start, k - 1);
      if k - 1 != start && CloseToSome(c, sim, thoughts[k - 1]) then c + [thoughts[k - 1]] else c
  }

  predicate CloseToSome(c: seq<nat>, sim: Sim, e: nat) {
    exists m | 0 <= m < |c| :: NearCopy(sim, e, c[m])
  }

  /** `c` is the cluster grown from the first thought that repeats, or empty when none does. */
  ghost predicate IsCluster(thoughts: seq<nat>, sim: Sim, c: seq<nat>) {
    if c == [] then forall i | 0 <= i < |thoughts| :: !Repeats(thoughts, sim, i)
    else exists start | 0 <= start < |thoughts| :: GrownFrom(thoughts, sim, c, start)
  }

  ghost predicate GrownFrom(thoughts: seq<nat>, sim: Sim, c: seq<nat>, start: nat)
    requires start < |thoughts|
  {
    && Repeats(thoughts, sim, start)
    && (forall i | 0 <= i < start :: !Repeats(thoughts, sim, i))
    && c == Grown(thoughts, sim, start, |thoughts|)
  }

  method FindRepeat(thoughts: seq<nat>, sim: Sim) returns (start: nat)
    ensures start <= |thoughts|
    ensures forall i | 0 <= i < start :: !Repeats(thoughts, sim, i)
    ensures start < |thoughts| ==> Repeats(thoughts, sim, start)
  {
    for i := 0 to |thoughts|
      invariant forall h | 0 <= h < i :: !Repeats(thoughts, sim, h)
    {
      for j := i + 1 to |thoughts|
        invariant forall h | i < h < j :: !NearCopy(sim, thoughts[i], thoughts[h])
      {
        if NearCopy(sim, thoughts[i], thoughts[j]) {
          return i;
        }
      }
    }
    start := |thoughts|;
  }

  method DuplicateCluster(thoughts: seq<nat>, sim: Sim) returns (c: seq<nat>)
    ensures IsCluster(thoughts, sim, c)
  {
    var start := FindRepeat(thoughts, sim);
    if start == |thoughts| {
      return [];
    }
    c := [thoughts[start]];
    for k := 0 to |thoughts|
      invariant c == Grown(thoughts, sim, start, k)
    {
      if k != start {
        var close := false;
        for m := 0 to |c|
          invariant close <==> CloseToSome(c[..m], sim, thoughts[k])
        {
          assert c[..m + 1] == c[..m] + [c[m]];
          close := close || NearCopy(sim, thoughts[k], c[m]);
        }
        assert c[..|c|] == c;
        if close {
          c := c + [thoughts[k]];
        }
      }
    }
    assert GrownFrom(thoughts, sim, c, start);
  }

  /** Every member but the seed comes from `later` and is a near copy of an earlier member. */
  ghost predicate Chained(c: seq<nat>, later: seq<nat>, sim: Sim) {
    forall m | 1 <= m < |c| :: c[m] in later && CloseToSome(c[..m], sim, c[m])
  }

  lemma ChainedSnoc(c: seq<nat>, later: seq<nat>, sim: Sim, e: nat)
    requires Chained(c, later, sim) && e in later && CloseToSome(c, sim, e)
    ensures Chained(c + [e], later, sim)
  {
    var c' := c + [e];
    forall m | 1 <= m < |c'| ensures c'[m] in later && CloseToSome(c'[..m], sim, c'[m]) {
      assert c'[..m] == c[..m];
      if m == |c| {
        assert c[..m] == c;
      }
    }
  }

  /** No thought before the seed joins. */
  lemma {:induction false} GrownOrder(thoughts: seq<nat>, sim: Sim, start: nat, k: nat)
    requires start < |thoughts| && k <= |thoughts|
    requires forall i | 0 <= i < start :: !Repeats(thoughts, sim, i)
    ensures k <= start ==> Grown(thoughts, sim, start, k) == [thoughts[start]]
    ensures Chained(Grown(thoughts, sim, start, k), thoughts[start + 1..], sim)
  {
    if k > 0 {
      GrownOrder(thoughts, sim, start, k - 1);
      var b, e := Grown(thoughts, sim, start, k - 1), thoughts[k - 1];
      if k - 1 < start {
        assert !Repeats(thoughts, sim, k - 1);
        assert !NearCopy(sim, e, thoughts[start]);
      }
      if k - 1 > start && CloseToSome(b, sim, e) {
        assert e == thoughts[start + 1..][k - 1 - (start + 1)];
        ChainedSnoc(b, thoughts[start + 1..], sim, e);
      }
    }
  }

  lemma {:induction false} GrownDistinct(thoughts: seq<nat>, sim: Sim, start: nat, k: nat)
    requires start < |thoughts| && k <= |thoughts| && Distinct(thoughts)
    ensures var c := Grown(thoughts, sim, start, k);
            (forall m | 0 <= m < |c| :: c[m] == thoughts[start] || c[m] in thoughts[..k]) && Distinct(c)
  {
    if k > 0 {
      GrownDistinct(thoughts, sim, start, k - 1);
      var b, e := Grown(thoughts, sim, start, k - 1), thoughts[k - 1];
      assert thoughts[..k] == thoughts[..k - 1] + [e];
      if k - 1 != start {
        forall m | 0 <= m < |b| ensures b[m] != e {
          if b[m] in thoughts[..k - 1] {
            var i :| 0 <= i < k - 1 && thoughts[..k - 1][i] == b[m];
            assert thoughts[i] != thoughts[k - 1];
          }
        }
      }
    }
  }

  lemma {:induction false} GrownLonger(thoughts: seq<nat>, sim: Sim, start: nat, k: nat, n: nat)
    requires start < |thoughts| && k <= n <= |thoughts|
    ensures |Grown(thoughts, sim, start, k)| <= |Grown(thoughts, sim, start, n)|
    decreases n
  {
    if k < n {
      GrownLonger(thoughts, sim, start, k, n - 1);
      GrownStep(thoughts, sim, start, n - 1);
    }
  }

  /** One more thought: it joins or the cluster stays. */
  lemma GrownStep(thoughts: seq<nat>, sim: Sim, start: nat, k: nat)
    requires start < |thoughts| && k < |thoughts|
    ensures var c, c' := Grown(thoughts, sim, start, k), Grown(thoughts, sim, start, k + 1);
            && |c| <= |c'|
            && (k != start && NearCopy(sim, thoughts[k], thoughts[start]) ==> |c'| == |c| + 1)
  {
    var c := Grown(thoughts, sim, start, k);
    assert c[0] == thoughts[start];
  }

  lemma SomeoneJoins(thoughts: seq<nat>, sim: Sim, start: nat)
    requires Symmetric(sim) && start < |thoughts| && Repeats(thoughts, sim, start)
    ensures |Grown(thoughts, sim, start, |thoughts|)| >= 2
  {
    var j :| start < j < |thoughts| && NearCopy(sim, thoughts[start], thoughts[j]);
    GrownStep(thoughts, sim, start, j);
    GrownLonger(thoughts, sim, start, j + 1, |thoughts|);
  }

  lemma LaterIsPart(thoughts: seq<nat>, start: nat, c: seq<nat>, sim: Sim)
    requires start < |thoughts| && Chained(c, thoughts[start + 1..], sim)
    ensures Chained(c, thoughts, sim)
  {
  }

  /** A merge always folds at least two thoughts, each but the seed a near copy of an earlier member. */
  lemma ClusterHoldsCopies(thoughts: seq<nat>, sim: Sim, c: seq<nat>)
    requires Symmetric(sim) && IsCluster(thoughts, sim, c) && c != [] && Distinct(thoughts)
    ensures |c| >= 2 && Distinct(c) && c[0] in thoughts && Chained(c, thoughts, sim)
  {
    var start :| 0 <= start < |thoughts| && GrownFrom(thoughts, sim, c, start);
    SomeoneJoins(thoughts, sim, start);
    GrownOrder(thoughts, sim, start, |thoughts|);
    LaterIsPart(thoughts, start, c, sim);
    GrownDistinct(thoughts, sim, start, |thoughts|);
  }

  // ---------------------------------------------------------------- closest

  /** The best of the first `n` of `pool` for `anchor`: strictly better only, from a floor of -1. */
  function BestFor(anchor: nat, pool: seq<nat>, sim: Sim, skip: set<nat>, n: nat): (b: Option<nat>)
    requires n <= |pool|
    ensures b.Some? ==> b.value in pool && b.value !in skip && b.value != anchor && sim(anchor, b.value) > -1.0
  {
    if n == 0 then None else
      var b, e := BestFor(anchor, pool, sim, skip, n - 1), pool[n - 1];
      if e != anchor && e !in skip && sim(anchor, e) > (if b.Some? then sim(anchor, b.value) else -1.0)
      then Some(e) else b
  }

  method Closest(anchor: nat, pool: seq<nat>, sim: Sim, skip: set<nat>) returns (best: Option<nat>, score: real)
    ensures best == BestFor(anchor, pool, sim, skip, |pool|)
    ensures score == if best.Some? then sim(anchor, best.value) else -1.0
  {
    best, score := None, -1.0;
    for n := 0 to |pool|
      invariant best == BestFor(anchor, pool, sim, skip, n)
      invariant score == if best.Some? then sim(anchor, best.value) else -1.0
    {
      if pool[n] != anchor && pool[n] !in skip {
        var s := sim(anchor, pool[n]);
        if s > score {
          best, score := Some(pool[n]), s;
        }
      }
    }
  }

  lemma {:induction false} ClosestIsFirstGreatest(anchor: nat, pool: seq<nat>, sim: Sim, skip: set<nat>, n: nat)
    requires n <= |pool|
    ensures var b := BestFor(anchor, pool, sim, skip, n);
            && (forall i | 0 <= i < n && pool[i] != anchor && pool[i] !in skip ::
                  sim(anchor, pool[i]) <= if b.Some? then sim(anchor, b.value) else -1.0)
            && (b.Some? ==> exists k | 0 <= k < n ::
                  pool[k] == b.value && forall i | 0 <= i < k && pool[i] != anchor && pool[i] !in skip ::
                    sim(anchor, pool[i]) < sim(anchor, b.value))
  {
    if n > 0 {
      ClosestIsFirstGreatest(anchor, pool, sim, skip, n - 1);
      var b, b' := BestFor(anchor, pool, sim, skip, n - 1), BestFor(anchor, pool, sim, skip, n);
      if b'.Some? && b' != b {
        assert pool[n - 1] == b'.value;
      }
    }
  }

  // --------------------------------------------------------------- best pair

  type Fit = (nat, nat) -> bool

  /** Index pairs in the order of the nested loops. */
  predicate Before(i: nat, j: nat, k: nat, l: nat) {
    i < k || (i == k && j < l)
  }

  /** The first most similar among the fitting pairs of `cand` visited before (i, j). */
  ghost predicate BestPair(cand: seq<nat>, sim: Sim, fit: Fit, i: nat, j: nat, best: Option<(nat, nat)>) {
    && (best.None? ==> forall k, l | 0 <= k < l < |cand| && Before(k, l, i, j) :: !fit(cand[k], cand[l]))
    && (best.Some? ==>
          var (a, b) := best.value;
          && a < b < |cand| && Before(a, b, i, j) && fit(cand[a], cand[b])
          && forall k, l | 0 <= k < l < |cand| && Before(k, l, i, j) && fit(cand[k], cand[l]) ::
               Beats(cand, sim, a, b, k, l))
  }

  /** Pair (a, b) is at least as similar as (k, l), and strictly more if it comes later. */
  predicate Beats(cand: seq<nat>, sim: Sim, a: nat, b: nat, k: nat, l: nat)
    requires a < |cand| && b < |cand| && k < |cand| && l < |cand|
  {
    && sim(cand[k], cand[l]) <= sim(cand[a], cand[b])
    && (Before(k, l, a, b) ==> sim(cand[k], cand[l]) < sim(cand[a], cand[b]))
  }

  method BetterPair(cand: seq<nat>, sim: Sim, fit: Fit, i: nat, j: nat, best: Option<(nat, nat)>)
    returns (next: Option<(nat, nat)>)
    requires i < j < |cand| && BestPair(cand, sim, fit, i, j, best)
    ensures BestPair(cand, sim, fit, i, j + 1, next)
  {
    next := best;
    if fit(cand[i], cand[j])
       && (best.None? || sim(cand[i], cand[j]) > sim(cand[best.value.0], cand[best.value.1])) {
      next := Some((i, j));
    }
  }

  method FindBestPair(cand: seq<nat>, sim: Sim, fit: Fit) returns (best: Option<(nat, nat)>)
    ensures BestPair(cand, sim, fit, |cand|, 0, best)
  {
    best := None;
    for i := 0 to |cand|
      invariant BestPair(cand, sim, fit, i, 0, best)
    {
      for j := i + 1 to |cand|
        invariant BestPair(cand, sim, fit, i, j, best)
      {
        best := BetterPair(cand, sim, fit, i, j, best);
      }
    }
  }

  lemma BestPairIs(cand: seq<nat>, sim: Sim, fit: Fit, best: Option<(nat, nat)>, k: nat, l: nat)
    requires BestPair(cand, sim, fit, |cand|, 0, best)
    requires k < l < |cand| && fit(cand[k], cand[l])
    ensures best.Some? && best.value.0 < best.value.1 < |cand| && fit(cand[best.value.0], cand[best.value.1])
    ensures Beats(cand, sim, best.value.0, best.value.1, k, l)
  {
    assert Before(k, l, |cand|, 0);
  }

  /** There is only one such pair. */
  lemma BestPairIsUnique(cand: seq<nat>, sim: Sim, fit: Fit, p: Option<(nat, nat)>, q: Option<(nat, nat)>)
    requires BestPair(cand, sim, fit, |cand|, 0, p) && BestPair(cand, sim, fit, |cand|, 0, q)
    ensures p == q
  {
    if p.Some? {
      BestPairIs(cand, sim, fit, q, p.value.0, p.value.1);
    }
    if q.Some? {
      BestPairIs(cand, sim, fit, p, q.value.0, q.value.1);
    }
  }
}
