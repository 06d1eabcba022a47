/** What a sleep cycle picks (sleep.py), said of the memories themselves: which thoughts it merges, which
    forgotten memory it pairs with what, which two memories it links across families, and which two it dreams
    of. */
module SleepPicks {
  import opened EventLog
  import opened SleepSearch
  import opened Sleep
  import opened SelfThreads
  import opened SleepCycle

  // ------------------------------------------------------------- candidates

  /** One of the last fifteen rows, visible and with text. */
  predicate Recently(log: Log, e: nat) {
    |log| - 15 <= e < |log| && !log[e].system && log[e].text != ""
  }

  predicate RecentThought(log: Log, e: nat) {
    Recently(log, e) && log[e].body.ThoughtCreated?
  }

  /** A memory with text that the recent rows do not show. */
  predicate Old(log: Log, h: nat) {
    h < |log| && log[h].text != "" && (h < |log| - 15 || log[h].system)
  }

  ghost predicate Ascends(s: seq<nat>) {
    forall i, j | 0 <= i < j < |s| :: s[i] < s[j]
  }

  lemma {:induction false} VisibleIs(log: Log, lo: nat, e: nat)
    ensures e in Visible(log, lo) <==> lo <= e < |log| && !log[e].system
    decreases |log| - lo
  {
    if lo < |log| {
      VisibleIs(log, lo + 1, e);
    }
  }

  lemma {:induction false} KeepAscends(log: Log, ps: seq<nat>, p: Event -> bool)
    requires Ascends(ps)
    ensures Ascends(Keep(log, ps, p))
  {
    if ps != [] {
      KeepAscends(log, ps[..|ps| - 1], p);
      var s := Keep(log, ps[..|ps| - 1], p);
      forall i | 0 <= i < |s| ensures s[i] < ps[|ps| - 1] {
        assert s[i] in s;
      }
    }
  }

  lemma {:induction false} FreeAscends(ps: seq<nat>, used: set<nat>)
    requires Ascends(ps)
    ensures Ascends(Free(ps, used))
  {
    if ps != [] {
      FreeAscends(ps[..|ps| - 1], used);
      var s := Free(ps[..|ps| - 1], used);
      forall i | 0 <= i < |s| ensures s[i] < ps[|ps| - 1] {
        assert s[i] in s;
      }
    }
  }

  lemma RecentIs(log: Log, e: nat)
    ensures e in Recent(log) <==> |log| - 15 <= e < |log| && !log[e].system
  {
    VisibleIs(log, if |log| >= RECENT_WINDOW then |log| - RECENT_WINDOW else 0, e);
  }

  lemma WordedIs(log: Log, e: nat)
    ensures e in Worded(log) <==> Recently(log, e)
    ensures Ascends(Worded(log))
  {
    RecentIs(log, e);
    KeepAscends(log, Recent(log), HasText);
  }

  lemma ThoughtsAre(log: Log, e: nat)
    ensures e in Thoughts(log) <==> RecentThought(log, e)
    ensures Ascends(Thoughts(log))
  {
    RecentIs(log, e);
    KeepAscends(log, Recent(log), IsWordedThought);
  }

  // -------------------------------------------------------------- best pairs

  /** `(a, b)` is a pair of the candidates, earlier one first, that fits. */
  predicate FitsIn(cand: seq<nat>, fit: Fit, a: nat, b: nat) {
    a in cand && b in cand && a < b && fit(a, b)
  }

  /** It is more similar than `(c, d)`, or as similar and found earlier. */
  predicate Prefers(sim: Sim, a: nat, b: nat, c: nat, d: nat) {
    sim(c, d) < sim(a, b) || (sim(c, d) == sim(a, b) && (a < c || (a == c && b <= d)))
  }

  lemma IndexOf(cand: seq<nat>, a: nat, b: nat) returns (i: nat, j: nat)
    requires Ascends(cand) && a in cand && b in cand && a < b
    ensures i < j < |cand| && cand[i] == a && cand[j] == b
  {
    i :| 0 <= i < |cand| && cand[i] == a;
    j :| 0 <= j < |cand| && cand[j] == b;
  }

  lemma PicksNothing(cand: seq<nat>, sim: Sim, fit: Fit, pair: Option<Pair>)
    requires Ascends(cand) && Picks(cand, sim, fit, pair)
    ensures pair.None? ==> forall a, b :: !FitsIn(cand, fit, a, b)
  {
    var best: Option<Pair> :| BestPair(cand, sim, fit, |cand|, 0, best) && pair == MemoriesAt(cand, best);
    if pair.None? {
      forall a: nat, b: nat ensures !FitsIn(cand, fit, a, b) {
        if FitsIn(cand, fit, a, b) {
          var i, j := IndexOf(cand, a, b);
          BestPairIs(cand, sim, fit, best, i, j);
        }
      }
    }
  }

  lemma PicksBest(cand: seq<nat>, sim: Sim, fit: Fit, pair: Option<Pair>, c: nat, d: nat)
    requires Ascends(cand) && Picks(cand, sim, fit, pair) && pair.Some?
    ensures FitsIn(cand, fit, pair.value.0, pair.value.1)
    ensures FitsIn(cand, fit, c, d) ==> Prefers(sim, pair.value.0, pair.value.1, c, d)
  {
    var best: Option<Pair> :| BestPair(cand, sim, fit, |cand|, 0, best) && pair == MemoriesAt(cand, best);
    var k, l := best.value.0, best.value.1;
    assert cand[k] in cand && cand[l] in cand;
    if FitsIn(cand, fit, c, d) {
      var i, j := IndexOf(cand, c, d);
      BestPairIs(cand, sim, fit, best, i, j);
    }
  }

  // -------------------------------------------------------------- cross links

  predicate Merged(p: Memories, e: nat) {
    e in p.merged
  }

  predicate Paired(p: Memories, e: nat) {
    exists i | 0 <= i < |p.revived| :: e == p.revived[i].0 || e == p.revived[i].1
  }

  lemma {:induction false} AllIdsHas(ps: seq<Pair>, e: nat)
    ensures e in AllIds(ps) <==> exists i | 0 <= i < |ps| :: e == ps[i].0 || e == ps[i].1
  {
    if ps != [] {
      var front := ps[..|ps| - 1];
      AllIdsHas(front, e);
      if i :| 0 <= i < |front| && (e == front[i].0 || e == front[i].1) {
        assert ps[i] == front[i];
      }
    }
  }

  /** Two recent memories that neither the merge nor a reactivation took, of different families of events and at least
      half similar. */
  predicate MayCross(log: Log, p: Memories, sim: Sim, a: nat, b: nat) {
    && a < b && Recently(log, a) && Recently(log, b)
    && !Merged(p, a) && !Merged(p, b) && !Paired(p, a) && !Paired(p, b)
    && Family(TypeName(log[a].body)) != Family(TypeName(log[b].body))
    && sim(a, b) >= 0.5
  }

  lemma AcrossIs(log: Log, sim: Sim, a: nat, b: nat)
    requires a < |log| && b < |log|
    ensures AcrossFamilies(log, sim)(a, b)
            <==> Family(TypeName(log[a].body)) != Family(TypeName(log[b].body)) && sim(a, b) >= 0.5
  {
    assert FamilyAt(log, a) == Family(TypeName(log[a].body)) && FamilyAt(log, b) == Family(TypeName(log[b].body));
    assert AcrossFamilies(log, sim)(a, b) == (FamilyAt(log, a) != FamilyAt(log, b) && sim(a, b) >= RELATED);
  }

  lemma FreeIs(log: Log, p: Memories, e: nat)
    ensures e in Free(Worded(log), SetOf(p.merged) + AllIds(p.revived))
            <==> Recently(log, e) && !Merged(p, e) && !Paired(p, e)
  {
    WordedIs(log, e);
    AllIdsHas(p.revived, e);
  }

  lemma CrossCandidates(log: Log, p: Memories, sim: Sim, a: nat, b: nat)
    ensures FitsIn(Free(Worded(log), SetOf(p.merged) + AllIds(p.revived)), AcrossFamilies(log, sim), a, b)
            <==> MayCross(log, p, sim, a, b)
  {
    FreeIs(log, p, a);
    FreeIs(log, p, b);
    if Recently(log, a) && Recently(log, b) {
      AcrossIs(log, sim, a, b);
    }
  }

  /** A cycle links two memories across families exactly if there are two to link, and then the most similar two. */
  lemma CrossLinksFamilies(log: Log, forgotten: seq<nat>, sim: Sim, dreams: bool, p: Memories)
    requires FollowsRules(log, forgotten, sim, dreams, p)
    ensures p.cross.None? <==> forall a: nat, b: nat :: !MayCross(log, p, sim, a, b)
    ensures p.cross.Some? ==>
              && MayCross(log, p, sim, p.cross.value.0, p.cross.value.1)
              && forall c: nat, d: nat | MayCross(log, p, sim, c, d) ::
                   Prefers(sim, p.cross.value.0, p.cross.value.1, c, d)
  {
    var cand, fit := Free(Worded(log), SetOf(p.merged) + AllIds(p.revived)), AcrossFamilies(log, sim);
    WordedIs(log, 0);
    FreeAscends(Worded(log), SetOf(p.merged) + AllIds(p.revived));
    PicksNothing(cand, sim, fit, p.cross);
    forall a: nat, b: nat ensures FitsIn(cand, fit, a, b) <==> MayCross(log, p, sim, a, b) {
      CrossCandidates(log, p, sim, a, b);
    }
    if p.cross.Some? {
      forall c: nat, d: nat | MayCross(log, p, sim, c, d) ensures Prefers(sim, p.cross.value.0, p.cross.value.1, c, d) {
        PicksBest(cand, sim, fit, p.cross, c, d);
      }
      PicksBest(cand, sim, fit, p.cross, 0, 0);
    }
  }

  // ------------------------------------------------------------------ dreams

  predicate Crossed(p: Memories, e: nat) {
    p.cross.Some? && (e == p.cross.value.0 || e == p.cross.value.1)
  }

  /** Two recent thoughts that no earlier stage took. */
  predicate MayDream(log: Log, p: Memories, a: nat, b: nat) {
    && a < b && RecentThought(log, a) && RecentThought(log, b)
    && !Merged(p, a) && !Paired(p, a) && !Crossed(p, a)
    && !Merged(p, b) && !Paired(p, b) && !Crossed(p, b)
  }

  lemma TakenIs(p: Memories, e: nat)
    ensures e in SetOf(p.merged) + AllIds(p.revived) + OptIds(p.cross)
            <==> Merged(p, e) || Paired(p, e) || Crossed(p, e)
  {
    AllIdsHas(p.revived, e);
  }

  lemma FreeThoughtIs(log: Log, p: Memories, e: nat)
    ensures e in Free(Thoughts(log), SetOf(p.merged) + AllIds(p.revived) + OptIds(p.cross))
            <==> RecentThought(log, e) && !Merged(p, e) && !Paired(p, e) && !Crossed(p, e)
  {
    ThoughtsAre(log, e);
    TakenIs(p, e);
  }

  lemma DreamCandidates(log: Log, p: Memories, a: nat, b: nat)
    ensures FitsIn(Free(Thoughts(log), SetOf(p.merged) + AllIds(p.revived) + OptIds(p.cross)), AnyTwo(), a, b)
            <==> MayDream(log, p, a, b)
  {
    FreeThoughtIs(log, p, a);
    FreeThoughtIs(log, p, b);
  }

  /** Dreaming takes the most similar two of the free recent thoughts, if the roll allows it, at least three recent
      thoughts are there, taken or not, and two of them are free. */
  lemma DreamsOfTheClosest(log: Log, forgotten: seq<nat>, sim: Sim, dreams: bool, p: Memories)
    requires FollowsRules(log, forgotten, sim, dreams, p)
    ensures p.dream.Some? <==>
              dreams && |Thoughts(log)| >= 3 && exists a: nat, b: nat :: MayDream(log, p, a, b)
    ensures p.dream.Some? ==>
              && MayDream(log, p, p.dream.value.0, p.dream.value.1)
              && forall c: nat, d: nat | MayDream(log, p, c, d) ::
                   Prefers(sim, p.dream.value.0, p.dream.value.1, c, d)
  {
    var used := SetOf(p.merged) + AllIds(p.revived) + OptIds(p.cross);
    var cand := Free(Thoughts(log), used);
    ThoughtsAre(log, 0);
    FreeAscends(Thoughts(log), used);
    forall a: nat, b: nat ensures FitsIn(cand, AnyTwo(), a, b) <==> MayDream(log, p, a, b) {
      DreamCandidates(log, p, a, b);
    }
    if dreams && |Thoughts(log)| >= DREAM_MIN {
      PicksNothing(cand, sim, AnyTwo(), p.dream);
      if p.dream.Some? {
        forall c: nat, d: nat | MayDream(log, p, c, d) ensures Prefers(sim, p.dream.value.0, p.dream.value.1, c, d) {
          PicksBest(cand, sim, AnyTwo(), p.dream, c, d);
        }
        PicksBest(cand, sim, AnyTwo(), p.dream, 0, 0);
      }
    }
  }

  // ------------------------------------------------------------------ merges

  /** Thought `a` has a near copy among the recent thoughts after it. */
  predicate Copied(log: Log, sim: Sim, a: nat) {
    RecentThought(log, a) && exists b | a < b < |log| :: RecentThought(log, b) && sim(a, b) > 0.8
  }

  lemma RepeatsIs(log: Log, sim: Sim, i: nat)
    requires i < |Thoughts(log)|
    ensures Repeats(Thoughts(log), sim, i) <==> Copied(log, sim, Thoughts(log)[i])
  {
    var ts := Thoughts(log);
    assert ts[i] in ts;
    ThoughtsAre(log, ts[i]);
    if Copied(log, sim, ts[i]) {
      var b :| ts[i] < b < |log| && RecentThought(log, b) && sim(ts[i], b) > 0.8;
      ThoughtsAre(log, b);
      var k, j := IndexOf(ts, ts[i], b);
      assert NearCopy(sim, ts[i], ts[j]) && k == i;
    }
    if Repeats(ts, sim, i) {
      var j :| i < j < |ts| && NearCopy(sim, ts[i], ts[j]);
      ThoughtsAre(log, ts[j]);
      assert ts[j] in ts;
    }
  }

  /** Only the seed and thoughts passed so far are in it. */
  lemma {:induction false} GrownHolds(ts: seq<nat>, sim: Sim, start: nat, k: nat, e: nat)
    requires start < |ts| && k <= |ts| && e in Grown(ts, sim, start, k)
    ensures e == ts[start] || exists i | 0 <= i < k :: ts[i] == e
  {
    if k > 0 && e in Grown(ts, sim, start, k - 1) {
      GrownHolds(ts, sim, start, k - 1, e);
    }
  }

  /** A thought passed is in the cluster if it is the seed, or close to a member when it was passed. */
  lemma {:induction false} GrownIs(ts: seq<nat>, sim: Sim, start: nat, k: nat, i: nat)
    requires start < |ts| && i < k <= |ts| && Ascends(ts)
    ensures ts[i] in Grown(ts, sim, start, k) <==> i == start || CloseToSome(Grown(ts, sim, start, i), sim, ts[i])
    ensures Grown(ts, sim, start, i) <= Grown(ts, sim, start, k)
    decreases k
  {
    var front := Grown(ts, sim, start, k - 1);
    if i < k - 1 {
      GrownIs(ts, sim, start, k - 1, i);
    } else {
      assert front[0] == ts[start];
      if ts[i] in front {
        GrownHolds(ts, sim, start, k - 1, ts[i]);
      }
    }
  }

  lemma SameMember(ts: seq<nat>, sim: Sim, start: nat, i: nat, k: nat, m: nat)
    requires start < |ts| && i < k <= |ts| && Ascends(ts) && start < i
    ensures m in Grown(ts, sim, start, i) <==> m in Grown(ts, sim, start, k) && m < ts[i]
  {
    GrownIs(ts, sim, start, k, i);
    if m in Grown(ts, sim, start, i) {
      GrownHolds(ts, sim, start, i, m);
    }
    if m in Grown(ts, sim, start, k) && m < ts[i] {
      GrownHolds(ts, sim, start, k, m);
      var j :| 0 <= j < i && ts[j] == m;
      GrownIs(ts, sim, start, k, j);
      GrownIs(ts, sim, start, i, j);
    }
  }

  /** A later thought is in the finished cluster exactly if it is close to an earlier member. */
  lemma JoinsIff(ts: seq<nat>, sim: Sim, start: nat, i: nat)
    requires start < i < |ts| && Ascends(ts)
    ensures var c := Grown(ts, sim, start, |ts|);
            ts[i] in c <==> exists m | m in c :: m < ts[i] && sim(ts[i], m) > 0.8
  {
    var c, then_ := Grown(ts, sim, start, |ts|), Grown(ts, sim, start, i);
    GrownIs(ts, sim, start, |ts|, i);
    if n :| 0 <= n < |then_| && NearCopy(sim, ts[i], then_[n]) {
      assert then_[n] in then_;
      SameMember(ts, sim, start, i, |ts|, then_[n]);
    }
    if m :| m in c && m < ts[i] && sim(ts[i], m) > 0.8 {
      SameMember(ts, sim, start, i, |ts|, m);
      var n :| 0 <= n < |then_| && then_[n] == m;
      assert NearCopy(sim, ts[i], then_[n]);
    }
  }

  /** No thought before the seed is in it. */
  lemma EarlierStaysOut(ts: seq<nat>, sim: Sim, start: nat, i: nat)
    requires i < start < |ts| && Ascends(ts) && forall j | 0 <= j < start :: !Repeats(ts, sim, j)
    ensures ts[i] !in Grown(ts, sim, start, |ts|)
  {
    GrownOrder(ts, sim, start, i);
    GrownIs(ts, sim, start, |ts|, i);
    assert !Repeats(ts, sim, i);
    assert !NearCopy(sim, ts[i], ts[start]);
    assert Grown(ts, sim, start, i) == [ts[start]];
  }

  /** Compression folds the cluster grown in one pass from the earliest recent thought with a later near copy: that
      thought, and each later one close to a member before it. Nothing is folded exactly if no thought has one. */
  lemma MergesNearCopies(log: Log, forgotten: seq<nat>, sim: Sim, dreams: bool, p: Memories)
    requires FollowsRules(log, forgotten, sim, dreams, p)
    ensures p.merged == [] <==> forall a: nat :: !Copied(log, sim, a)
    ensures p.merged != [] ==>
              && Copied(log, sim, p.merged[0]) && (forall a: nat | a < p.merged[0] :: !Copied(log, sim, a))
              && forall e: nat :: Merged(p, e) <==> e == p.merged[0] || JoinsMerge(log, sim, p, e)
  {
    if p.merged == [] {
      NothingCopied(log, sim, |Thoughts(log)|);
    } else {
      var ts := Thoughts(log);
      var start :| 0 <= start < |ts| && GrownFrom(ts, sim, p.merged, start);
      SeedIsFirst(log, sim, start);
      forall e: nat ensures Merged(p, e) <==> e == ts[start] || JoinsMerge(log, sim, p, e) {
        MergedIs(log, sim, p, start, e);
      }
    }
  }

  lemma NotCopied(log: Log, sim: Sim, n: nat, a: nat)
    requires n <= |Thoughts(log)| && forall i | 0 <= i < n :: !Repeats(Thoughts(log), sim, i)
    requires n == |Thoughts(log)| || a < Thoughts(log)[n]
    ensures !Copied(log, sim, a)
  {
    ThoughtsAre(log, a);
    if a in Thoughts(log) {
      var i :| 0 <= i < |Thoughts(log)| && Thoughts(log)[i] == a;
      RepeatsIs(log, sim, i);
    }
  }

  /** No thought is copied that lies before the first that repeats. */
  lemma NothingCopied(log: Log, sim: Sim, n: nat)
    requires n <= |Thoughts(log)| && forall i | 0 <= i < n :: !Repeats(Thoughts(log), sim, i)
    ensures forall a: nat | n == |Thoughts(log)| || a < Thoughts(log)[n] :: !Copied(log, sim, a)
  {
    forall a: nat | n == |Thoughts(log)| || a < Thoughts(log)[n] ensures !Copied(log, sim, a) {
      NotCopied(log, sim, n, a);
    }
  }

  lemma SeedIsFirst(log: Log, sim: Sim, start: nat)
    requires start < |Thoughts(log)| && Repeats(Thoughts(log), sim, start)
    requires forall i | 0 <= i < start :: !Repeats(Thoughts(log), sim, i)
    ensures Copied(log, sim, Thoughts(log)[start])
    ensures forall a: nat | a < Thoughts(log)[start] :: !Copied(log, sim, a)
  {
    RepeatsIs(log, sim, start);
    NothingCopied(log, sim, start);
  }

  /** A recent thought after the seed, close to an earlier member. */
  ghost predicate JoinsMerge(log: Log, sim: Sim, p: Memories, e: nat) {
    p.merged != [] && RecentThought(log, e) && e > p.merged[0] && exists m | m in p.merged :: m < e && sim(e, m) > 0.8
  }

  lemma MergedIs(log: Log, sim: Sim, p: Memories, start: nat, e: nat)
    requires start < |Thoughts(log)| && GrownFrom(Thoughts(log), sim, p.merged, start)
    ensures Merged(p, e) <==> e == Thoughts(log)[start] || JoinsMerge(log, sim, p, e)
  {
    var ts := Thoughts(log);
    ThoughtsAre(log, e);
    assert p.merged[0] == ts[start] && ts[start] in p.merged;
    if e in ts {
      var i :| 0 <= i < |ts| && ts[i] == e;
      if i < start {
        EarlierStaysOut(ts, sim, start, i);
      } else if i > start {
        JoinsIff(ts, sim, start, i);
      }
    } else if e in p.merged {
      GrownHolds(ts, sim, start, |ts|, e);
    }
  }

  // ------------------------------------------------------------ reactivations

  /** Neither the merge nor the first `n` reactivations took `e`. */
  predicate Untaken(merged: seq<nat>, ps: seq<Pair>, n: nat, e: nat) {
    e !in merged && forall i | 0 <= i < n && i < |ps| :: e != ps[i].0 && e != ps[i].1
  }

  lemma UntakenIs(merged: seq<nat>, ps: seq<Pair>, e: nat)
    ensures Untaken(merged, ps, |ps|, e) <==> e !in SetOf(merged) + AllIds(ps)
  {
    AllIdsHas(ps, e);
  }

  lemma RevivalIs(log: Log, h: nat, sim: Sim, merged: seq<nat>, ps: seq<Pair>, c: nat)
    ensures var pair := RevivalOf(log, h, sim, SetOf(merged) + AllIds(ps));
            && (pair.Some? ==>
                  && pair.value.0 == h && Old(log, h) && Untaken(merged, ps, |ps|, h)
                  && Recently(log, pair.value.1) && Untaken(merged, ps, |ps|, pair.value.1)
                  && sim(h, pair.value.1) >= 0.5
                  && (Recently(log, c) && Untaken(merged, ps, |ps|, c) ==> sim(h, c) <= sim(h, pair.value.1)))
            && (pair.None? && Old(log, h) && Untaken(merged, ps, |ps|, h) ==>
                  !(Recently(log, c) && Untaken(merged, ps, |ps|, c) && sim(h, c) >= 0.5))
  {
    var used := SetOf(merged) + AllIds(ps);
    var b := BestFor(h, Worded(log), sim, used, |Worded(log)|);
    UntakenIs(merged, ps, h);
    UntakenIs(merged, ps, c);
    RecentIs(log, h);
    WordedIs(log, c);
    ClosestIsFirstGreatest(h, Worded(log), sim, used, |Worded(log)|);
    if c in Worded(log) {
      var i :| 0 <= i < |Worded(log)| && Worded(log)[i] == c;
    }
    if b.Some? {
      UntakenIs(merged, ps, b.value);
      WordedIs(log, b.value);
      BestForIsFree(h, Worded(log), sim, used, |Worded(log)|);
    }
  }

  lemma {:induction false} BestForIsFree(anchor: nat, pool: seq<nat>, sim: Sim, skip: set<nat>, n: nat)
    requires n <= |pool|
    ensures var b := BestFor(anchor, pool, sim, skip, n); b.Some? ==> b.value in pool && b.value !in skip
  {
    if n > 0 {
      BestForIsFree(anchor, pool, sim, skip, n - 1);
      assert pool[n - 1] in pool;
    }
  }

  /** Reactivation `i` pairs an old forgotten memory with its closest free recent one, at least half similar. */
  ghost predicate RevivesWell(log: Log, forgotten: seq<nat>, sim: Sim, merged: seq<nat>, ps: seq<Pair>, i: nat) {
    i < |ps| &&
    var (h, e) := ps[i];
    && h in forgotten && Old(log, h) && Untaken(merged, ps, i, h)
    && Recently(log, e) && Untaken(merged, ps, i, e) && sim(h, e) >= 0.5
    && forall c: nat | Recently(log, c) && Untaken(merged, ps, i, c) :: sim(h, c) <= sim(h, e)
  }

  lemma UntakenInLonger(merged: seq<nat>, ps: seq<Pair>, more: seq<Pair>, n: nat, e: nat)
    requires ps <= more && n <= |ps|
    ensures Untaken(merged, more, n, e) <==> Untaken(merged, ps, n, e)
  {
    assert forall i | 0 <= i < |ps| :: more[i] == ps[i];
  }

  lemma LongerRevivesWell(log: Log, forgotten: seq<nat>, sim: Sim, merged: seq<nat>, ps: seq<Pair>, more: seq<Pair>,
                          i: nat)
    requires ps <= more && RevivesWell(log, forgotten, sim, merged, ps, i)
    ensures RevivesWell(log, forgotten, sim, merged, more, i)
  {
    UntakenInLonger(merged, ps, more, i, ps[i].0);
    UntakenInLonger(merged, ps, more, i, ps[i].1);
    forall c: nat | Recently(log, c) && Untaken(merged, more, i, c) ensures sim(ps[i].0, c) <= sim(ps[i].0, ps[i].1) {
      UntakenInLonger(merged, ps, more, i, c);
    }
  }

  lemma NewRevivesWell(log: Log, forgotten: seq<nat>, sim: Sim, merged: seq<nat>, ps: seq<Pair>, more: seq<Pair>,
                       h: nat, e: nat)
    requires h in forgotten && RevivalOf(log, h, sim, SetOf(merged) + AllIds(ps)) == Some((h, e))
             && more == ps + [(h, e)]
    ensures RevivesWell(log, forgotten, sim, merged, more, |ps|)
  {
    RevivalIs(log, h, sim, merged, ps, e);
    UntakenInLonger(merged, ps, more, |ps|, h);
    UntakenInLonger(merged, ps, more, |ps|, e);
    forall c: nat | Recently(log, c) && Untaken(merged, more, |ps|, c) ensures sim(h, c) <= sim(h, e) {
      UntakenInLonger(merged, ps, more, |ps|, c);
      RevivalIs(log, h, sim, merged, ps, c);
    }
  }

  /** One more forgotten memory: it is paired, if three are not and it can be. */
  lemma RevivedStep(log: Log, forgotten: seq<nat>, sim: Sim, merged: seq<nat>, n: nat)
    requires n < |forgotten|
    ensures var ps, more := RevivedBy(log, forgotten, sim, merged, n), RevivedBy(log, forgotten, sim, merged, n + 1);
            var pair := RevivalOf(log, forgotten[n], sim, SetOf(merged) + AllIds(ps));
            more == if |ps| < MAX_REACTIVATIONS && pair.Some? then ps + [pair.value] else ps
  {
  }

  function RevivedBy(log: Log, forgotten: seq<nat>, sim: Sim, merged: seq<nat>, n: nat): seq<Pair>
    requires n <= |forgotten|
  {
    Revived(Reviver(log, sim), forgotten, SetOf(merged), n)
  }

  lemma StepRevivesWell(log: Log, forgotten: seq<nat>, sim: Sim, merged: seq<nat>, ps: seq<Pair>, more: seq<Pair>,
                        h: nat, i: nat)
    requires h in forgotten && i < |more| && (i < |ps| ==> RevivesWell(log, forgotten, sim, merged, ps, i))
    requires var pair := RevivalOf(log, h, sim, SetOf(merged) + AllIds(ps));
             more == ps || (pair.Some? && more == ps + [pair.value])
    ensures RevivesWell(log, forgotten, sim, merged, more, i)
  {
    if i < |ps| {
      LongerRevivesWell(log, forgotten, sim, merged, ps, more, i);
    } else {
      RevivalIs(log, h, sim, merged, ps, 0);
      NewRevivesWell(log, forgotten, sim, merged, ps, more, h, more[|ps|].1);
    }
  }

  lemma {:induction false} EachRevivesWell(log: Log, forgotten: seq<nat>, sim: Sim, merged: seq<nat>, n: nat,
                                           ps: seq<Pair>, i: nat)
    requires n <= |forgotten| && ps == RevivedBy(log, forgotten, sim, merged, n) && i < |ps|
    ensures RevivesWell(log, forgotten, sim, merged, ps, i)
  {
    if n > 0 {
      var before := RevivedBy(log, forgotten, sim, merged, n - 1);
      RevivedStep(log, forgotten, sim, merged, n - 1);
      if i < |before| {
        EachRevivesWell(log, forgotten, sim, merged, n - 1, before, i);
      }
      assert forgotten[n - 1] in forgotten;
      StepRevivesWell(log, forgotten, sim, merged, before, ps, forgotten[n - 1], i);
    }
  }

  /** A forgotten memory and a recent one that could still be paired. */
  ghost predicate LeftOver(log: Log, sim: Sim, merged: seq<nat>, ps: seq<Pair>, h: nat, c: nat) {
    && Old(log, h) && Untaken(merged, ps, |ps|, h)
    && Recently(log, c) && Untaken(merged, ps, |ps|, c) && sim(h, c) >= 0.5
  }

  lemma LeftOverBefore(log: Log, sim: Sim, merged: seq<nat>, ps: seq<Pair>, more: seq<Pair>, h: nat, c: nat)
    requires ps <= more && LeftOver(log, sim, merged, more, h, c)
    ensures LeftOver(log, sim, merged, ps, h, c)
  {
    UntakenInLonger(merged, ps, more, |ps|, h);
    UntakenInLonger(merged, ps, more, |ps|, c);
  }

  /** A memory that could be paired is paired, and then it is taken. */
  lemma StillPairs(log: Log, sim: Sim, merged: seq<nat>, ps: seq<Pair>, more: seq<Pair>, h: nat, c: nat)
    requires LeftOver(log, sim, merged, ps, h, c)
    requires var pair := RevivalOf(log, h, sim, SetOf(merged) + AllIds(ps));
             more == if pair.Some? then ps + [pair.value] else ps
    ensures !LeftOver(log, sim, merged, more, h, c)
  {
    RevivalIs(log, h, sim, merged, ps, c);
    assert more[|ps|].0 == h;
  }

  lemma StepLeavesNothing(log: Log, sim: Sim, merged: seq<nat>, ps: seq<Pair>, more: seq<Pair>, h: nat, g: nat, c: nat)
    requires h == g || !LeftOver(log, sim, merged, ps, h, c)
    requires var pair := RevivalOf(log, g, sim, SetOf(merged) + AllIds(ps));
             more == if pair.Some? then ps + [pair.value] else ps
    ensures !LeftOver(log, sim, merged, more, h, c)
  {
    if LeftOver(log, sim, merged, more, h, c) {
      LeftOverBefore(log, sim, merged, ps, more, h, c);
      StillPairs(log, sim, merged, ps, more, h, c);
    }
  }

  lemma {:induction false} NothingLeftOver(log: Log, forgotten: seq<nat>, sim: Sim, merged: seq<nat>, n: nat, k: nat,
                                           c: nat)
    requires k < n <= |forgotten| && |RevivedBy(log, forgotten, sim, merged, n)| < MAX_REACTIVATIONS
    ensures !LeftOver(log, sim, merged, RevivedBy(log, forgotten, sim, merged, n), forgotten[k], c)
  {
    RevivedStep(log, forgotten, sim, merged, n - 1);
    if k < n - 1 {
      NothingLeftOver(log, forgotten, sim, merged, n - 1, k, c);
    }
    StepLeavesNothing(log, sim, merged, RevivedBy(log, forgotten, sim, merged, n - 1),
                      RevivedBy(log, forgotten, sim, merged, n), forgotten[k], forgotten[n - 1], c);
  }

  /** Every reactivation pairs an old forgotten memory with its closest free recent one, at least half similar; with
      fewer than three of them, no such pair is left. */
  lemma RevivesTheClosest(log: Log, forgotten: seq<nat>, sim: Sim, dreams: bool, p: Memories)
    requires FollowsRules(log, forgotten, sim, dreams, p)
    ensures forall i: nat | i < |p.revived| :: RevivesWell(log, forgotten, sim, p.merged, p.revived, i)
    ensures |p.revived| < 3 ==>
              forall k: nat, c: nat | k < |forgotten| :: !LeftOver(log, sim, p.merged, p.revived, forgotten[k], c)
  {
    forall i: nat | i < |p.revived| ensures RevivesWell(log, forgotten, sim, p.merged, p.revived, i) {
      EachRevivesWell(log, forgotten, sim, p.merged, |forgotten|, p.revived, i);
    }
    if |p.revived| < 3 {
      forall k: nat, c: nat | k < |forgotten| ensures !LeftOver(log, sim, p.merged, p.revived, forgotten[k], c) {
        NothingLeftOver(log, forgotten, sim, p.merged, |forgotten|, k, c);
      }
    }
  }

  // ------------------------------------------------------------ in the log

  /** An event of the cycle that links these two memories, as action `a`. */
  predicate Links2(e: Event, a: SleepAction, pair: Pair) {
    e.body == MemoryConsolidated(a) && e.relatedTo == [Evt(pair.0), Evt(pair.1)]
  }

  lemma {:induction false} PairEvents(ps: seq<Pair>, a: SleepAction, start: nat, now: real, i: nat)
    requires i < |ps|
    ensures |PairLog(ps, a, start, now)| == |ps| && Links2(PairLog(ps, a, start, now)[i], a, ps[i])
  {
    PairLogLength(ps, a, start, now);
    PairLogLength(ps[..|ps| - 1], a, start, now);
    if i < |ps| - 1 {
      PairEvents(ps[..|ps| - 1], a, start, now, i);
    } else {
      assert Refs([ps[i].0, ps[i].1]) == [Evt(ps[i].0), Evt(ps[i].1)];
    }
  }

  lemma {:induction false} IdleEvents(idle: seq<Option<string>>, start: nat, now: real, e: Event)
    requires e in IdleLog(idle, start, now)
    ensures e.body.ThreadDormant?
  {
    if e in IdleLog(idle[..|idle| - 1], start, now) {
      IdleEvents(idle[..|idle| - 1], start, now, e);
    }
  }

  lemma PairEvent(ps: seq<Pair>, a: SleepAction, start: nat, now: real, e: Event)
    requires e in PairLog(ps, a, start, now)
    ensures exists i | 0 <= i < |ps| :: Links2(e, a, ps[i])
  {
    PairLogLength(ps, a, start, now);
    var i :| 0 <= i < |ps| && PairLog(ps, a, start, now)[i] == e;
    PairEvents(ps, a, start, now, i);
  }

  lemma CrossEventOnly(p: Memories, start: nat, now: real, e: Event)
    requires e in MemoryLog(p, start, now) && e.body == MemoryConsolidated(CrossLink)
    ensures p.cross.Some? && Links2(e, CrossLink, p.cross.value)
  {
    if e in IdleLog(p.idle, start, now) {
      IdleEvents(p.idle, start, now, e);
    }
    if e in PairLog(p.revived, Reactivate, start, now) {
      PairEvent(p.revived, Reactivate, start, now, e);
    }
    if e in PairLog(OptSeq(p.cross), CrossLink, start, now) {
      PairEvent(OptSeq(p.cross), CrossLink, start, now, e);
    }
  }

  lemma CrossEventThere(p: Memories, start: nat, now: real) returns (i: nat)
    requires p.cross.Some?
    ensures i < |MemoryLog(p, start, now)| && Links2(MemoryLog(p, start, now)[i], CrossLink, p.cross.value)
  {
    var before := MergeLog(p.merged, start, now) + IdleLog(p.idle, start, now)
      + PairLog(p.revived, Reactivate, start, now);
    PairEvents(OptSeq(p.cross), CrossLink, start, now, 0);
    i := |before|;
    assert MemoryLog(p, start, now)[i] == PairLog(OptSeq(p.cross), CrossLink, start, now)[0];
  }

  /** In the log of a finished cycle: a cross link stands there exactly if two memories can be linked across families,
      and it links the most similar two. */
  lemma CrossLinkInLog(seen: Log, log: Log, n: Night, r: Rules, now: real, p: Plan)
    requires Cycled(seen, log, n, r, now, p)
    ensures (exists k :: |seen| <= k < |log| && log[k].body == MemoryConsolidated(CrossLink))
            <==> exists a: nat, b: nat :: MayCross(seen, p.mem, n.sim, a, b)
    ensures forall k | |seen| <= k < |log| && log[k].body == MemoryConsolidated(CrossLink) ::
              exists a: nat, b: nat :: && Links2(log[k], CrossLink, (a, b)) && MayCross(seen, p.mem, n.sim, a, b)
                                       && forall c: nat, d: nat | MayCross(seen, p.mem, n.sim, c, d) ::
                                            Prefers(n.sim, a, b, c, d)
  {
    var start := |seen| - 1;
    CrossLinksFamilies(seen, n.forgotten, n.sim, Dreams(n), p.mem);
    forall k | |seen| <= k < |log| && log[k].body == MemoryConsolidated(CrossLink)
      ensures p.mem.cross.Some? && Links2(log[k], CrossLink, p.mem.cross.value)
    {
      CrossInCycle(seen, log, n, r, now, p, k);
    }
    if p.mem.cross.Some? {
      var i := CrossEventThere(p.mem, start, now);
      InCycle(seen, log, n, r, now, p, i);
    }
  }

  lemma BornEvents(self: SelfOutcome, start: nat, pos: nat, tid: string, now: real)
    ensures forall e | e in SelfLog(self, start, pos, tid, now) :: !e.body.MemoryConsolidated?
  {
  }

  lemma Between(seen: Log, w: Log, last: Event, log: Log, k: nat)
    requires log == seen + w + [last] && |seen| <= k < |log|
    ensures log[k] == if k < |seen| + |w| then w[k - |seen|] else last
  {
  }

  lemma WrittenAt(p: Plan, start: nat, tid: string, now: real, j: nat)
    requires j < |Written(p, start, tid, now)|
    ensures var w, mem := Written(p, start, tid, now), MemoryLog(p.mem, start, now);
            (j < |mem| && w[j] == mem[j]) || !w[j].body.MemoryConsolidated?
  {
    var mem := MemoryLog(p.mem, start, now);
    var born := SelfLog(p.self, start, start + 1 + |mem|, tid, now);
    BornEvents(p.self, start, start + 1 + |mem|, tid, now);
    assert Written(p, start, tid, now) == mem + born;
    if |mem| <= j {
      assert born[j - |mem|] in born;
    }
  }

  lemma CycleEvent(seen: Log, log: Log, n: Night, r: Rules, now: real, p: Plan, k: nat)
    requires Cycled(seen, log, n, r, now, p) && |seen| <= k < |log|
    ensures var mem := MemoryLog(p.mem, |seen| - 1, now);
            (k < |seen| + |mem| && log[k] == mem[k - |seen|]) || !log[k].body.MemoryConsolidated?
  {
    var w := Written(p, |seen| - 1, n.tid, now);
    Between(seen, w, Completed(p, |seen| - 1, now), log, k);
    if k < |seen| + |w| {
      WrittenAt(p, |seen| - 1, n.tid, now, k - |seen|);
    }
  }

  lemma CrossInCycle(seen: Log, log: Log, n: Night, r: Rules, now: real, p: Plan, k: nat)
    requires Cycled(seen, log, n, r, now, p) && |seen| <= k < |log| && log[k].body == MemoryConsolidated(CrossLink)
    ensures p.mem.cross.Some? && Links2(log[k], CrossLink, p.mem.cross.value)
  {
    CycleEvent(seen, log, n, r, now, p, k);
    CrossEventOnly(p.mem, |seen| - 1, now, log[k]);
  }

  lemma InCycle(seen: Log, log: Log, n: Night, r: Rules, now: real, p: Plan, i: nat)
    requires Cycled(seen, log, n, r, now, p) && i < |MemoryLog(p.mem, |seen| - 1, now)|
    ensures |seen| + i < |log| && log[|seen| + i] == MemoryLog(p.mem, |seen| - 1, now)[i]
  {
    var w := Written(p, |seen| - 1, n.tid, now);
    WrittenBegins(p, |seen| - 1, n.tid, now, i);
    Between(seen, w, Completed(p, |seen| - 1, now), log, |seen| + i);
  }

  lemma WrittenBegins(p: Plan, start: nat, tid: string, now: real, i: nat)
    requires i < |MemoryLog(p.mem, start, now)|
    ensures i < |Written(p, start, tid, now)| && Written(p, start, tid, now)[i] == MemoryLog(p.mem, start, now)[i]
  {
  }
}
