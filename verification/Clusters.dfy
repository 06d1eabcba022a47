/** Topic clusters (semantic.py, SemanticLayer.clusters): online leader clustering of the pool in store
    order, with a running mean as the centroid. */
module Clusters {
  import opened EventLog

  type Vec = seq<real>

  /** The dot product over the common length. */
  function Cosine(a: Vec, b: Vec): real {
    if a == [] || b == [] then 0.0 else a[0] * b[0] + Cosine(a[1..], b[1..])
  }

  // ------------------------------------------------------------------- pool

  /** The types of the mind's own bookkeeping, told by how they begin. */
  predicate OfRuntime(t: string) {
    || "wake." <= t || "sleep." <= t || "reentry." <= t
    || "telemetry." <= t || "circadian." <= t || "semantic." <= t
  }

  predicate Poolable(e: Event) {
    !e.system && e.text != "" && !OfRuntime(TypeName(e.body))
  }

  /** The poolable events from position `lo` on, oldest first. */
  function PoolFrom(log: Log, lo: nat, n: nat): seq<nat>
    requires n <= |log|
  {
    if n <= lo then []
    else PoolFrom(log, lo, n - 1) + (if Poolable(log[n - 1]) then [n - 1] else [])
  }

  /** The poolable ones among the newest `limit` events, oldest first. */
  function Pool(log: Log, limit: nat): seq<nat> {
    PoolFrom(log, if |log| > limit then |log| - limit else 0, |log|)
  }

  /** A type begins with the names of six families of bookkeeping, or it may be pooled. */
  lemma PoolableByType(e: Event)
    ensures Poolable(e) <==>
              && !e.system && |e.text| > 0
              && forall r | r in ["wake.", "sleep.", "reentry.", "telemetry.", "circadian.", "semantic."] ::
                   !(r <= TypeName(e.body))
  {
    var rs := ["wake.", "sleep.", "reentry.", "telemetry.", "circadian.", "semantic."];
    assert rs[0] in rs && rs[1] in rs && rs[2] in rs && rs[3] in rs && rs[4] in rs && rs[5] in rs;
  }

  predicate Runs(b: Body) {
    b.WakeStarted? || b.SleepStarted? || b.SleepCompleted? || b.StateChanged?
  }

  lemma Unlike(b: Body, prefix: string)
    requires |prefix| > 1 && |TypeName(b)| > 1 && (TypeName(b)[0] != prefix[0] || TypeName(b)[1] != prefix[1])
    ensures !(prefix <= TypeName(b))
  {
  }

  lemma NoWakeOrSleep(b: Body)
    requires !b.Other? && !Runs(b)
    ensures !("wake." <= TypeName(b)) && !("sleep." <= TypeName(b)) && !("circadian." <= TypeName(b))
  {
    Unlike(b, "wake.");
    Unlike(b, "sleep.");
    Unlike(b, "circadian.");
  }

  lemma NoRuntimeType(b: Body)
    requires !b.Other? && !Runs(b)
    ensures !OfRuntime(TypeName(b))
  {
    NoWakeOrSleep(b);
    Unlike(b, "reentry.");
    Unlike(b, "telemetry.");
    Unlike(b, "semantic.");
  }

  lemma RuntimeType(b: Body)
    requires Runs(b)
    ensures OfRuntime(TypeName(b))
  {
    assert "wake." <= "wake.started" && "sleep." <= "sleep.started";
    assert "sleep." <= "sleep.completed" && "circadian." <= "circadian.state_changed";
  }

  /** Which events that is, for the types the model lists. */
  lemma PoolableIs(e: Event)
    requires !e.body.Other?
    ensures Poolable(e) <==> !e.system && |e.text| > 0 && !Runs(e.body)
  {
    if Runs(e.body) {
      RuntimeType(e.body);
    } else {
      NoRuntimeType(e.body);
    }
  }

  lemma {:induction false} PoolFromIs(log: Log, lo: nat, n: nat, k: nat)
    requires n <= |log|
    ensures k in PoolFrom(log, lo, n) <==> lo <= k < n && Poolable(log[k])
  {
    if n > lo {
      PoolFromIs(log, lo, n - 1, k);
    }
  }

  lemma {:induction false} PoolFromAscends(log: Log, lo: nat, n: nat)
    requires n <= |log|
    ensures forall i | 0 <= i < |PoolFrom(log, lo, n)| :: PoolFrom(log, lo, n)[i] < n
    ensures forall i, j | 0 <= i < j < |PoolFrom(log, lo, n)| :: PoolFrom(log, lo, n)[i] < PoolFrom(log, lo, n)[j]
  {
    if n > lo {
      PoolFromAscends(log, lo, n - 1);
    }
  }

  /** The pool is what has words and is not hidden, without the mind's own bookkeeping, among the newest events, oldest
      first. */
  lemma PoolIs(log: Log, limit: nat)
    ensures forall k: nat :: k in Pool(log, limit) <==> k < |log| && |log| - limit <= k && Poolable(log[k])
    ensures forall i, j | 0 <= i < j < |Pool(log, limit)| :: Pool(log, limit)[i] < Pool(log, limit)[j]
  {
    var lo := if |log| > limit then |log| - limit else 0;
    PoolFromAscends(log, lo, |log|);
    forall k: nat ensures k in Pool(log, limit) <==> lo <= k < |log| && Poolable(log[k]) {
      PoolFromIs(log, lo, |log|, k);
    }
  }

  /** The similarity sums the products of the coordinates. */
  lemma {:induction false} CosineSnoc(a: Vec, b: Vec, x: real, y: real)
    requires |a| == |b|
    ensures Cosine(a + [x], b + [y]) == Cosine(a, b) + x * y
  {
    if a == [] {
      assert a + [x] == [x] && b + [y] == [y] && [x][1..] == [];
    } else {
      assert (a + [x])[1..] == a[1..] + [x] && (b + [y])[1..] == b[1..] + [y];
      CosineSnoc(a[1..], b[1..], x, y);
    }
  }

  // --------------------------------------------------------------- clusters

  datatype Cluster = Cluster(seed: nat, centroid: Vec, members: seq<nat>)

  /** The first cluster of greatest positive similarity among the first `n`. */
  function BestOf(out: seq<Cluster>, v: Vec, n: nat): (b: Option<nat>)
    requires n <= |out|
    ensures b.Some? ==> b.value < n
  {
    if n == 0 then None
    else
      var b := BestOf(out, v, n - 1);
      if Cosine(v, out[n - 1].centroid) > BestSim(out, v, b) then Some(n - 1) else b
  }

  function BestSim(out: seq<Cluster>, v: Vec, b: Option<nat>): real
    requires b.Some? ==> b.value < |out|
  {
    if b.None? then 0.0 else Cosine(v, out[b.value].centroid)
  }

  function Shifted(x: real, n: nat, y: real): real {
    (x * n as real + y) / (n + 1) as real
  }

  /** The running mean, coordinate by coordinate over the common length. */
  function Mean(c: Vec, n: nat, v: Vec): (m: Vec) {
    seq(if |c| <= |v| then |c| else |v|, i requires 0 <= i < |c| && i < |v| => Shifted(c[i], n, v[i]))
  }

  /** One event of the pass: it joins the best cluster if that is similar enough, or opens its own. */
  function Placed(out: seq<Cluster>, e: nat, v: Vec, tau: real): seq<Cluster> {
    var b := BestOf(out, v, |out|);
    if b.Some? && BestSim(out, v, b) >= tau then
      var c := out[b.value];
      out[b.value := Cluster(c.seed, Mean(c.centroid, |c.members|, v), c.members + [e])]
    else out + [Cluster(e, v, [e])]
  }

  function ClustersOf(pool: seq<nat>, embed: nat -> Vec, tau: real): seq<Cluster> {
    if pool == [] then []
    else
      var n := |pool| - 1;
      Placed(ClustersOf(pool[..n], embed, tau), pool[n], embed(pool[n]), tau)
  }

  /** The pass itself, with its inner search. */
  method FindClusters(pool: seq<nat>, embed: nat -> Vec, tau: real) returns (out: seq<Cluster>)
    ensures out == ClustersOf(pool, embed, tau)
  {
    out := [];
    for k := 0 to |pool|
      invariant out == ClustersOf(pool[..k], embed, tau)
    {
      var e := pool[k];
      var v := embed(e);
      var best: Option<nat> := None;
      var bestSim := 0.0;
      for i := 0 to |out|
        invariant best == BestOf(out, v, i) && bestSim == BestSim(out, v, best)
      {
        var s := Cosine(v, out[i].centroid);
        if s > bestSim {
          bestSim, best := s, Some(i);
        }
      }
      if best.Some? && bestSim >= tau {
        var c := out[best.value];
        out := out[best.value := Cluster(c.seed, Mean(c.centroid, |c.members|, v), c.members + [e])];
      } else {
        out := out + [Cluster(e, v, [e])];
      }
      assert pool[..k + 1][..k] == pool[..k];
    }
    assert pool[..|pool|] == pool;
  }

  // ------------------------------------------------------------- properties

  /** The chosen cluster has positive similarity, none is more similar, and no earlier one equals it. */
  lemma {:induction false} BestIsFirstGreatest(out: seq<Cluster>, v: Vec, n: nat)
    requires n <= |out|
    ensures var b := BestOf(out, v, n);
            && BestSim(out, v, b) >= 0.0 && (b.Some? ==> BestSim(out, v, b) > 0.0)
            && (forall i | 0 <= i < n :: Cosine(v, out[i].centroid) <= BestSim(out, v, b))
            && (forall i | 0 <= i < n && b.Some? && i < b.value :: Cosine(v, out[i].centroid) < BestSim(out, v, b))
  {
    if n > 0 { BestIsFirstGreatest(out, v, n - 1); }
  }

  /** The rule of one step: an event joins cluster `b` exactly if `b` is the first most similar one and
      reaches a positive similarity of at least tau; it opens a cluster exactly if none does. */
  lemma {:induction false} JoinRule(out: seq<Cluster>, e: nat, v: Vec, tau: real)
    ensures var out' := Placed(out, e, v, tau);
            if exists i :: 0 <= i < |out| && Cosine(v, out[i].centroid) > 0.0 && Cosine(v, out[i].centroid) >= tau
            then
              && |out'| == |out|
              && exists b :: 0 <= b < |out| && out'[b].members == out[b].members + [e]
                    && (forall i | 0 <= i < |out| && i != b :: out'[i] == out[i])
                    && Cosine(v, out[b].centroid) >= tau
                    && (forall i | 0 <= i < |out| :: Cosine(v, out[i].centroid) <= Cosine(v, out[b].centroid))
                    && (forall i | 0 <= i < b :: Cosine(v, out[i].centroid) < Cosine(v, out[b].centroid))
            else out' == out + [Cluster(e, v, [e])]
  {
    BestIsFirstGreatest(out, v, |out|);
    var b := BestOf(out, v, |out|);
    if b.Some? && BestSim(out, v, b) >= tau {
      assert Placed(out, e, v, tau)[b.value].members == out[b.value].members + [e];
    }
  }

  ghost function Members(out: seq<Cluster>): multiset<nat> {
    if out == [] then multiset{} else Members(out[..|out| - 1]) + multiset(out[|out| - 1].members)
  }

  lemma {:induction false} MembersOfJoin(out: seq<Cluster>, b: nat, c: Cluster, e: nat)
    requires b < |out| && c.members == out[b].members + [e]
    ensures Members(out[b := c]) == Members(out) + multiset{e}
    decreases |out|
  {
    var n := |out| - 1;
    if b == n {
      assert out[b := c][..n] == out[..n];
    } else {
      MembersOfJoin(out[..n], b, c, e);
      assert out[b := c][..n] == out[..n][b := c];
    }
  }

  lemma MembersOfPlaced(out: seq<Cluster>, e: nat, v: Vec, tau: real)
    ensures Members(Placed(out, e, v, tau)) == Members(out) + multiset{e}
  {
    var b := BestOf(out, v, |out|);
    if b.Some? && BestSim(out, v, b) >= tau {
      MembersOfJoin(out, b.value, Placed(out, e, v, tau)[b.value], e);
    } else {
      assert (out + [Cluster(e, v, [e])])[..|out|] == out;
    }
  }

  /** The clusters partition the pool: counted with multiplicity, their members are the pool. */
  lemma {:induction false} ClustersPartitionPool(pool: seq<nat>, embed: nat -> Vec, tau: real)
    ensures Members(ClustersOf(pool, embed, tau)) == multiset(pool)
  {
    if pool != [] {
      var n := |pool| - 1;
      ClustersPartitionPool(pool[..n], embed, tau);
      MembersOfPlaced(ClustersOf(pool[..n], embed, tau), pool[n], embed(pool[n]), tau);
      MultisetSnoc(pool);
    }
  }

  lemma MultisetSnoc(pool: seq<nat>)
    requires pool != []
    ensures multiset(pool) == multiset(pool[..|pool| - 1]) + multiset{pool[|pool| - 1]}
  {
    assert pool == pool[..|pool| - 1] + [pool[|pool| - 1]];
  }

  /** Every cluster begins with its seed. */
  lemma {:induction false} SeedsComeFirst(pool: seq<nat>, embed: nat -> Vec, tau: real)
    ensures forall c | c in ClustersOf(pool, embed, tau) :: c.members != [] && c.members[0] == c.seed
  {
    if pool != [] {
      var n := |pool| - 1;
      SeedsComeFirst(pool[..n], embed, tau);
      var out := ClustersOf(pool[..n], embed, tau);
      assert forall i | 0 <= i < |out| :: out[i] in out;
    }
  }

  // ----------------------------------------------------------- exact means

  ghost function Sum(members: seq<nat>, embed: nat -> Vec, i: nat): real
    requires forall e | e in members :: i < |embed(e)|
  {
    if members == [] then 0.0
    else
      var n := |members| - 1;
      assert members[n] in members;
      assert forall e | e in members[..n] :: e in members;
      Sum(members[..n], embed, i) + embed(members[n])[i]
  }

  /** Each coordinate of the centroid is the sum of the members' coordinates over their number. */
  ghost predicate IsMean(c: Cluster, embed: nat -> Vec, dim: nat) {
    && |c.centroid| == dim && c.members != []
    && (forall e | e in c.members :: |embed(e)| == dim)
    && (forall i | 0 <= i < dim :: c.centroid[i] == Sum(c.members, embed, i) / |c.members| as real)
  }

  lemma ShiftedMean(x: real, s: real, n: nat, y: real)
    requires n > 0 && x == s / n as real
    ensures Shifted(x, n, y) == (s + y) / (n + 1) as real
  {
  }

  lemma SumSnoc(ms: seq<nat>, e: nat, embed: nat -> Vec, i: nat)
    requires forall m | m in ms + [e] :: i < |embed(m)|
    ensures forall m | m in ms :: m in ms + [e]
    ensures Sum(ms + [e], embed, i) == Sum(ms, embed, i) + embed(e)[i]
  {
    assert (ms + [e])[..|ms|] == ms;
  }

  lemma MeanStep(c: Cluster, e: nat, embed: nat -> Vec, dim: nat)
    requires IsMean(c, embed, dim) && |embed(e)| == dim
    ensures IsMean(Cluster(c.seed, Mean(c.centroid, |c.members|, embed(e)), c.members + [e]), embed, dim)
  {
    var ms := c.members + [e];
    var m := Mean(c.centroid, |c.members|, embed(e));
    forall i | 0 <= i < dim ensures m[i] == Sum(ms, embed, i) / |ms| as real {
      SumSnoc(c.members, e, embed, i);
      ShiftedMean(c.centroid[i], Sum(c.members, embed, i), |c.members|, embed(e)[i]);
    }
  }

  /** With vectors of one dimension, every running centroid is the exact mean of its members. */
  lemma {:induction false} CentroidsAreMeans(pool: seq<nat>, embed: nat -> Vec, tau: real, dim: nat)
    requires forall e | e in pool :: |embed(e)| == dim
    ensures forall c | c in ClustersOf(pool, embed, tau) :: IsMean(c, embed, dim)
  {
    if pool != [] {
      var n := |pool| - 1;
      var out, e := ClustersOf(pool[..n], embed, tau), pool[n];
      CentroidsAreMeans(pool[..n], embed, tau, dim);
      assert e in pool;
      var b := BestOf(out, embed(e), |out|);
      if b.Some? && BestSim(out, embed(e), b) >= tau {
        assert out[b.value] in out;
        MeanStep(out[b.value], e, embed, dim);
      } else {
        SingletonIsMean(e, embed, dim);
      }
    }
  }

  lemma SingletonIsMean(e: nat, embed: nat -> Vec, dim: nat)
    requires |embed(e)| == dim
    ensures IsMean(Cluster(e, embed(e), [e]), embed, dim)
  {
    forall i | 0 <= i < dim ensures Sum([e], embed, i) == embed(e)[i] {
      assert [e][..0] == [];
    }
  }

  // -------------------------------------------------------------- stability

  /** `later` has the clusters of `out`, in place and with the same seeds, some with more members. */
  ghost predicate Extends(out: seq<Cluster>, later: seq<Cluster>) {
    && |out| <= |later|
    && forall i | 0 <= i < |out| :: out[i].seed == later[i].seed && out[i].members <= later[i].members
  }

  predicate Begins(a: seq<nat>, b: seq<nat>) {
    |a| <= |b| && forall j | 0 <= j < |a| :: a[j] == b[j]
  }

  lemma ExtendsIs(out: seq<Cluster>, later: seq<Cluster>)
    ensures Extends(out, later) <==>
              && |out| <= |later|
              && (forall i | 0 <= i < |out| :: out[i].seed == later[i].seed)
              && (forall i | 0 <= i < |out| :: Begins(out[i].members, later[i].members))
  {
    forall i | 0 <= i < |out| && i < |later|
      ensures out[i].members <= later[i].members <==> Begins(out[i].members, later[i].members)
    {
    }
  }

  /** A longer pool keeps every earlier cluster, its place, its seed and its members. */
  lemma {:induction false} LongerPoolExtends(pool: seq<nat>, more: seq<nat>, embed: nat -> Vec, tau: real)
    ensures Extends(ClustersOf(pool, embed, tau), ClustersOf(pool + more, embed, tau))
  {
    if more == [] {
      assert pool + more == pool;
    } else {
      var n := |more| - 1;
      LongerPoolExtends(pool, more[..n], embed, tau);
      assert (pool + more)[..|pool| + n] == pool + more[..n];
    }
  }

  lemma {:induction false} PoolFromPrefix(log: Log, e: Event, lo: nat, n: nat)
    requires n <= |log|
    ensures PoolFrom(log + [e], lo, n) == PoolFrom(log, lo, n)
  {
    if n > lo { PoolFromPrefix(log, e, lo, n - 1); }
  }

  lemma {:induction false} PoolFromLower(log: Log, lo: nat, n: nat)
    requires lo < n <= |log|
    ensures PoolFrom(log, lo, n) == (if Poolable(log[lo]) then [lo] else []) + PoolFrom(log, lo + 1, n)
  {
    if n > lo + 1 { PoolFromLower(log, lo, n - 1); }
  }

  lemma {:induction false} PoolFromBounds(log: Log, lo: nat, n: nat)
    requires n <= |log|
    ensures forall p | p in PoolFrom(log, lo, n) :: lo <= p < n
  {
    if n > lo { PoolFromBounds(log, lo, n - 1); }
  }

  lemma {:induction false} FirstIsSeed(pool: seq<nat>, embed: nat -> Vec, tau: real)
    requires pool != []
    ensures ClustersOf(pool, embed, tau) != [] && ClustersOf(pool, embed, tau)[0].seed == pool[0]
  {
    LongerPoolExtends([pool[0]], pool[1..], embed, tau);
    assert [pool[0]] + pool[1..] == pool;
    assert ClustersOf([], embed, tau) == [];
    assert [pool[0]][..0] == [];
    assert ClustersOf([pool[0]], embed, tau) == Placed([], pool[0], embed(pool[0]), tau);
  }

  function Added(log: Log, e: Event): seq<nat> {
    if Poolable(e) then [|log|] else []
  }

  lemma PoolFromAppend(log: Log, e: Event, lo: nat)
    requires lo <= |log|
    ensures PoolFrom(log + [e], lo, |log| + 1) == PoolFrom(log, lo, |log|) + Added(log, e)
  {
    PoolFromPrefix(log, e, lo, |log|);
  }

  /** The pool of the longer store: what stays of the window, and the new event. */
  lemma PoolAppend(log: Log, e: Event, limit: nat, lo: nat)
    requires limit > 0 && lo == if |log| < limit then 0 else |log| - limit + 1
    ensures Pool(log + [e], limit) == PoolFrom(log, lo, |log|) + Added(log, e)
  {
    PoolFromAppend(log, e, lo);
  }

  /** The oldest row of a full window, if it is poolable, heads the pool. */
  lemma PoolHead(log: Log, limit: nat)
    requires 0 < limit <= |log|
    ensures var lo := |log| - limit;
            Pool(log, limit) == (if Poolable(log[lo]) then [lo] else []) + PoolFrom(log, lo + 1, |log|)
  {
    PoolFromLower(log, |log| - limit, |log|);
  }

  lemma SeedSlidesOut(log: Log, e: Event, limit: nat, embed: nat -> Vec, tau: real)
    requires 0 < limit <= |log| && Poolable(log[|log| - limit])
    ensures !Extends(ClustersOf(Pool(log, limit), embed, tau), ClustersOf(Pool(log + [e], limit), embed, tau))
  {
    var pool, pool', lo := Pool(log, limit), Pool(log + [e], limit), |log| - limit;
    PoolHead(log, limit);
    PoolAppend(log, e, limit, lo + 1);
    assert pool[0] == lo;
    FirstIsSeed(pool, embed, tau);
    PoolFromBounds(log, lo + 1, |log|);
    if pool' != [] {
      FirstIsSeed(pool', embed, tau);
      assert pool'[0] in pool' && pool'[0] != lo;
    }
  }

  /** As the store grows by one event, the clusters stay in place exactly unless a poolable event
      slides out of the read window; then the first cluster loses its seed. */
  lemma StableUnlessPoolSlides(log: Log, e: Event, limit: nat, embed: nat -> Vec, tau: real)
    requires limit > 0
    ensures Extends(ClustersOf(Pool(log, limit), embed, tau), ClustersOf(Pool(log + [e], limit), embed, tau))
            <==> !(|log| >= limit && Poolable(log[|log| - limit]))
  {
    if |log| >= limit && Poolable(log[|log| - limit]) {
      SeedSlidesOut(log, e, limit, embed, tau);
    } else {
      PoolAppend(log, e, limit, if |log| < limit then 0 else |log| - limit + 1);
      if |log| >= limit {
        PoolHead(log, limit);
      }
      assert Pool(log + [e], limit) == Pool(log, limit) + Added(log, e);
      LongerPoolExtends(Pool(log, limit), Added(log, e), embed, tau);
    }
  }

  // ------------------------------------------------- the documented rule

  /** The documentation has an event join the first cluster within tau: the place of that cluster. */
  function FirstWithin(out: seq<Cluster>, v: Vec, tau: real): (k: nat)
    ensures k <= |out| && (k < |out| ==> Cosine(v, out[k].centroid) >= tau)
    ensures forall i | 0 <= i < k :: Cosine(v, out[i].centroid) < tau
  {
    if out == [] then 0
    else if Cosine(v, out[0].centroid) >= tau then 0
    else
      var k := FirstWithin(out[1..], v, tau);
      assert forall i | 0 < i < |out| :: out[i] == out[1..][i - 1];
      k + 1
  }

  function PlacedFirst(out: seq<Cluster>, e: nat, v: Vec, tau: real): seq<Cluster> {
    var k := FirstWithin(out, v, tau);
    if k < |out| then
      out[k := Cluster(out[k].seed, Mean(out[k].centroid, |out[k].members|, v), out[k].members + [e])]
    else out + [Cluster(e, v, [e])]
  }

  /** The first cluster within tau is positively similar, and none is more similar. */
  predicate FirstIsBest(out: seq<Cluster>, v: Vec, tau: real) {
    var k := FirstWithin(out, v, tau);
    k < |out| ==> Cosine(v, out[k].centroid) > 0.0
                  && forall i | 0 <= i < |out| :: Cosine(v, out[i].centroid) <= Cosine(v, out[k].centroid)
  }

  lemma JoinedShows(out: seq<Cluster>, k: nat, c: Cluster, j: nat, d: Cluster)
    requires k < |out| && j < |out| && c.members != out[k].members && out[k := c] == out[j := d]
    ensures k == j
  {
    assert out[k := c][k] == c;
  }

  /** The two rules place an event alike if and only if no cluster is more similar than the first within tau. */
  lemma RulesAgreeIff(out: seq<Cluster>, e: nat, v: Vec, tau: real)
    ensures Placed(out, e, v, tau) == PlacedFirst(out, e, v, tau) <==> FirstIsBest(out, v, tau)
  {
    BestIsFirstGreatest(out, v, |out|);
    var b, k := BestOf(out, v, |out|), FirstWithin(out, v, tau);
    if b.Some? && BestSim(out, v, b) >= tau {
      assert k < |out|;
      if Placed(out, e, v, tau) == PlacedFirst(out, e, v, tau) {
        JoinedShows(out, b.value, Placed(out, e, v, tau)[b.value], k, PlacedFirst(out, e, v, tau)[k]);
      }
    } else if k < |out| {
      assert |Placed(out, e, v, tau)| == |out| + 1 && |PlacedFirst(out, e, v, tau)| == |out|;
    }
  }

  /** Three events, the third within tau of both earlier ones and closer to the second. */
  function Turning(n: nat): Vec {
    if n == 0 then [1.0, 0.0] else if n == 1 then [0.28, 0.96] else [0.6, 0.8]
  }

  lemma CosineOfPairs(a: real, b: real, c: real, d: real)
    ensures Cosine([a, b], [c, d]) == a * c + b * d
  {
    assert [a, b][1..] == [b] && [c, d][1..] == [d] && [b][1..] == [] && [d][1..] == [];
    assert Cosine([b], [d]) == b * d + Cosine([], []);
  }

  lemma TurningApart()
    ensures ClustersOf([0, 1], Turning, 0.5) == [Cluster(0, [1.0, 0.0], [0]), Cluster(1, [0.28, 0.96], [1])]
  {
    assert [0, 1][..1] == [0] && [0][..0] == [];
    CosineOfPairs(0.28, 0.96, 1.0, 0.0);
    var one := [Cluster(0, [1.0, 0.0], [0])];
    assert ClustersOf([0], Turning, 0.5) == Placed(ClustersOf([], Turning, 0.5), 0, Turning(0), 0.5);
    assert BestOf(one, [0.28, 0.96], 1) == Some(0) by {
      assert BestOf(one, [0.28, 0.96], 0) == None;
    }
  }

  /** On that pool the third event is within tau of the first cluster and joins the second. */
  lemma FirstWithinTauIsNotTheRule()
    ensures var out, later := ClustersOf([0, 1], Turning, 0.5), ClustersOf([0, 1, 2], Turning, 0.5);
            && |out| == |later| == 2 && FirstWithin(out, Turning(2), 0.5) == 0
            && later[0].members == [0] && later[1].members == [1, 2]
            && later != PlacedFirst(out, 2, Turning(2), 0.5)
  {
    var out := ClustersOf([0, 1], Turning, 0.5);
    TurningApart();
    CosineOfPairs(0.6, 0.8, 1.0, 0.0);
    CosineOfPairs(0.6, 0.8, 0.28, 0.96);
    assert [0, 1, 2][..2] == [0, 1];
    assert ClustersOf([0, 1, 2], Turning, 0.5) == Placed(out, 2, Turning(2), 0.5);
    assert BestOf(out, Turning(2), 1) == Some(0) by {
      assert BestOf(out, Turning(2), 0) == None;
    }
    assert BestOf(out, Turning(2), 2) == Some(1);
  }
}
