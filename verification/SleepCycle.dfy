/** The sleep cycle on the store (sleep.py): stage by stage, each appending what it found, and the label
    the cycle gives itself. */
module SleepCycle {
  import opened EventLog
  import opened Basics
  import opened SleepSearch
  import opened Sleep
  import opened SelfThreads
  import M = MentalState

  /** The closest pair of memories from two user threads, with the title it would carry. */
  datatype Synthesis = Synthesis(first: nat, second: nat, title: string)

  /** What the cycle is given: the active threads in their order, the forgotten memories, the
      similarity, the two draws with their thresholds, the synthesis and a fresh thread id. */
  datatype Night = Night(active: seq<Option<string>>, forgotten: seq<nat>, sim: Sim,
                         dreamRoll: real, dreamProb: real, selfRoll: real, selfProb: real,
                         synthesis: Option<Synthesis>, tid: string)

  predicate Dreams(n: Night) {
    n.dreamRoll < n.dreamProb
  }

  // ------------------------------------------------------- what a plan writes

  function Refs(ids: seq<nat>): (r: seq<Ref>)
    ensures |r| == |ids| && forall i | 0 <= i < |r| :: r[i] == Evt(ids[i])
  {
    seq(|ids|, i requires 0 <= i < |ids| => Evt(ids[i]))
  }

  function From(start: nat, body: Body, related: seq<nat>, now: real): Event {
    Draft(false, body).(at := now, causedBy := [Evt(start)], relatedTo := Refs(related))
  }

  function MergeLog(merged: seq<nat>, start: nat, now: real): Log {
    if merged == [] then [] else [From(start, MemoryConsolidated(Compress), merged, now)]
  }

  function IdleLog(idle: seq<Option<string>>, start: nat, now: real): Log {
    if idle == [] then [] else
      IdleLog(idle[..|idle| - 1], start, now) + [From(start, ThreadDormant, [], now).(thread := idle[|idle| - 1])]
  }

  function PairLog(pairs: seq<Pair>, action: SleepAction, start: nat, now: real): Log {
    if pairs == [] then [] else
      var p := pairs[|pairs| - 1];
      PairLog(pairs[..|pairs| - 1], action, start, now) + [From(start, MemoryConsolidated(action), [p.0, p.1], now)]
  }

  function DreamLog(dream: Option<Pair>, start: nat, now: real): Log {
    match dream
    case None => []
    case Some((a, b)) =>
      [From(start, ThoughtCreated(Untagged), [a, b], now).(text := "[dream]", recalled := Refs([a, b]))]
  }

  function SelfLog(self: SelfOutcome, start: nat, pos: nat, tid: string, now: real): Log {
    match self
    case Born(a, b, title) =>
      [From(start, ThreadCreated(true, title, {Evt(a), Evt(b)}), [a, b], now).(thread := Some(tid)),
       From(pos, ThreadActivated, [], now).(thread := Some(tid))]
    case _ => []
  }

  function OptSeq(p: Option<Pair>): seq<Pair> {
    if p.Some? then [p.value] else []
  }

  function MemoryLog(p: Memories, start: nat, now: real): Log {
    MergeLog(p.merged, start, now) + IdleLog(p.idle, start, now) + PairLog(p.revived, Reactivate, start, now)
    + PairLog(OptSeq(p.cross), CrossLink, start, now) + DreamLog(p.dream, start, now)
  }

  function Started(now: real): Event {
    Draft(true, SleepStarted).(at := now)
  }

  /** Everything between the two brackets of the cycle. */
  function Written(p: Plan, start: nat, tid: string, now: real): Log {
    var mem := MemoryLog(p.mem, start, now);
    mem + SelfLog(p.self, start, start + 1 + |mem|, tid, now)
  }

  /** Events counted as durable: all but the activation of a new thread. */
  function Durable(p: Plan): nat {
    (if p.mem.merged == [] then 0 else 1) + |p.mem.idle| + |p.mem.revived|
    + (if p.mem.cross.Some? then 1 else 0) + (if p.mem.dream.Some? then 1 else 0) + (if p.self.Born? then 1 else 0)
  }

  /** Nothing at all was noted in the list of actions. */
  predicate Actionless(p: Plan) {
    Durable(p) == 0 && !p.self.Deduplicated?
  }

  function Label(p: Plan): SleepResult {
    if p.mem.dream.Some? then Dreamed else if !Actionless(p) then Merged else Noop
  }

  function Completed(p: Plan, start: nat, now: real): Event {
    var n := Durable(p);
    Draft(true, SleepCompleted(Label(p), n)).(at := now,
      causedBy := if n == 0 then [Evt(start)] else Refs(seq(n, i => start + 1 + i)))
  }

  // ------------------------------------------------------ lengths and labels

  lemma {:induction false} IdleLogLength(idle: seq<Option<string>>, start: nat, now: real)
    ensures |IdleLog(idle, start, now)| == |idle|
  {
    if idle != [] {
      IdleLogLength(idle[..|idle| - 1], start, now);
    }
  }

  lemma {:induction false} PairLogLength(pairs: seq<Pair>, action: SleepAction, start: nat, now: real)
    ensures |PairLog(pairs, action, start, now)| == |pairs|
  {
    if pairs != [] {
      PairLogLength(pairs[..|pairs| - 1], action, start, now);
    }
  }

  /** The count the cycle reports is the number of events it wrote, the activation aside. */
  lemma DurableCountsEvents(p: Plan, start: nat, tid: string, now: real)
    ensures |Written(p, start, tid, now)| == Durable(p) + if p.self.Born? then 1 else 0
  {
    IdleLogLength(p.mem.idle, start, now);
    PairLogLength(p.mem.revived, Reactivate, start, now);
    PairLogLength(OptSeq(p.mem.cross), CrossLink, start, now);
  }

  /** The label "noop" means nothing was written. The converse fails for exactly one kind of cycle: one
      whose only act is to drop a near-identical thread is labelled consolidated with no event. */
  lemma NoopMeansNothingWritten(p: Plan, start: nat, tid: string, now: real)
    ensures Label(p).Noop? <==> Written(p, start, tid, now) == [] && !p.self.Deduplicated?
    ensures Written(p, start, tid, now) == [] && p.self.Deduplicated? ==> Label(p).Merged? && Durable(p) == 0
  {
    DurableCountsEvents(p, start, tid, now);
  }

  // -------------------------------------------------------------- the stages

  /** Appends a note whose links are known to resolve. */
  method Put(store: EventStore, e: Event)
    requires store.Valid() && e.at == store.clock && LinksResolve(store.log, e)
    modifies store`log
    ensures store.Valid() && store.log == old(store.log) + [e]
  {
    var _ := store.Append(e);
    assert e.(at := store.clock) == e;
  }

  predicate Within(ids: seq<nat>, n: nat) {
    forall i | 0 <= i < |ids| :: ids[i] < n
  }

  lemma FromResolves(log: Log, start: nat, body: Body, ids: seq<nat>, now: real)
    requires start < |log| && Within(ids, |log|)
    ensures LinksResolve(log, From(start, body, ids, now))
  {
  }

  method Merge(store: EventStore, start: nat, seen: Log, sim: Sim) returns (merged: seq<nat>)
    requires store.Valid() && start < |store.log| && seen <= store.log
    modifies store`log
    ensures store.Valid() && store.log == old(store.log) + MergeLog(merged, start, store.clock)
    ensures IsCluster(Thoughts(seen), sim, merged)
  {
    merged := DuplicateCluster(Thoughts(seen), sim);
    if merged != [] {
      ClusterWithin(seen, sim, merged);
      FromResolves(store.log, start, MemoryConsolidated(Compress), merged, store.clock);
      Put(store, From(start, MemoryConsolidated(Compress), merged, store.clock));
    } else {
      assert store.log == store.log + [];
    }
  }

  lemma ClusterWithin(seen: Log, sim: Sim, merged: seq<nat>)
    requires IsCluster(Thoughts(seen), sim, merged) && merged != []
    ensures Within(merged, |seen|)
  {
    var thoughts := Thoughts(seen);
    var start :| 0 <= start < |thoughts| && GrownFrom(thoughts, sim, merged, start);
    assert Distinct(Recent(seen));
    GrownDistinct(thoughts, sim, start, |thoughts|);
    assert thoughts[..|thoughts|] == thoughts;
    assert thoughts[start] in thoughts;
  }

  method Quieten(store: EventStore, start: nat, active: seq<Option<string>>, threads: M.Threads, recent: seq<nat>)
    returns (idle: seq<Option<string>>)
    requires store.Valid() && start < |store.log|
    modifies store`log
    ensures store.Valid() && store.log == old(store.log) + IdleLog(idle, start, store.clock)
    ensures idle == IdleOf(active, threads, recent)
  {
    idle := [];
    ghost var log := store.log;
    assert log + [] == log;
    for i := 0 to |active|
      invariant store.Valid() && start < |store.log|
      invariant idle == IdleOf(active[..i], threads, recent)
      invariant store.log == log + IdleLog(idle, start, store.clock)
    {
      assert active[..i + 1][..i] == active[..i];
      if active[i] in threads && threads[active[i]].last !in recent {
        PutDormant(store, start, active[i], idle, log);
        idle := idle + [active[i]];
      }
    }
    assert active[..|active|] == active;
  }

  method PutDormant(store: EventStore, start: nat, t: Option<string>, ghost idle: seq<Option<string>>, ghost log: Log)
    requires store.Valid() && start < |store.log| && store.log == log + IdleLog(idle, start, store.clock)
    modifies store`log
    ensures store.Valid() && start < |store.log| && store.log == log + IdleLog(idle + [t], start, store.clock)
  {
    FromResolves(store.log, start, ThreadDormant, [], store.clock);
    Put(store, From(start, ThreadDormant, [], store.clock).(thread := t));
    assert (idle + [t])[..|idle|] == idle;
  }

  method PutPair(store: EventStore, start: nat, action: SleepAction, pair: Pair, ghost pairs: seq<Pair>, ghost log: Log)
    requires store.Valid() && start < |store.log| && pair.0 < |store.log| && pair.1 < |store.log|
    requires store.log == log + PairLog(pairs, action, start, store.clock)
    modifies store`log
    ensures store.Valid() && store.log == log + PairLog(pairs + [pair], action, start, store.clock)
    ensures |store.log| == |old(store.log)| + 1
  {
    FromResolves(store.log, start, MemoryConsolidated(action), [pair.0, pair.1], store.clock);
    Put(store, From(start, MemoryConsolidated(action), [pair.0, pair.1], store.clock));
    assert (pairs + [pair])[..|pairs|] == pairs;
  }

  method TryRevive(seen: Log, h: nat, sim: Sim, used: set<nat>) returns (pair: Option<Pair>)
    ensures pair == Reviver(seen, sim)(h, used)
    ensures pair.Some? ==> pair.value.0 < |seen| && pair.value.1 < |seen|
  {
    if !Revivable(seen, h, used) {
      return None;
    }
    var partner, score := Closest(h, Worded(seen), sim, used);
    pair := if partner.Some? && score >= RELATED then Some((h, partner.value)) else None;
  }

  ghost predicate Ready(store: EventStore, start: nat, n: nat)
    reads store
  {
    store.Valid() && start < |store.log| && n <= |store.log|
  }

  /** After `i` forgotten memories: what was noted, and what is taken. */
  ghost predicate Reviving(store: EventStore, log: Log, start: nat, pick: Picker, forgotten: seq<nat>, first: set<nat>,
                           i: nat, revived: seq<Pair>, used: set<nat>)
    reads store
  {
    && i <= |forgotten| && revived == Revived(pick, forgotten, first, i) && used == first + AllIds(revived)
    && store.log == log + PairLog(revived, Reactivate, start, store.clock)
  }

  /** One forgotten memory: paired, noted and taken if a companion is close enough. */
  method ReviveOne(store: EventStore, start: nat, seen: Log, forgotten: seq<nat>, i: nat, sim: Sim,
                   revived: seq<Pair>, used: set<nat>, ghost pick: Picker, ghost first: set<nat>, ghost log: Log)
    returns (more: seq<Pair>, taken: set<nat>)
    requires Ready(store, start, |seen|) && i < |forgotten| && |revived| < MAX_REACTIVATIONS
    requires Reviving(store, log, start, pick, forgotten, first, i, revived, used) && pick == Reviver(seen, sim)
    modifies store`log
    ensures Ready(store, start, |seen|)
    ensures Reviving(store, log, start, pick, forgotten, first, i + 1, more, taken)
  {
    NextRevived(pick, forgotten, first, i);
    var pair := TryRevive(seen, forgotten[i], sim, used);
    more, taken := revived, used;
    if pair.Some? {
      PutPair(store, start, Reactivate, pair.value, revived, log);
      more, taken := revived + [pair.value], used + {pair.value.0, pair.value.1};
    } else {
      assert revived + [] == revived;
    }
  }

  method Revive(store: EventStore, start: nat, seen: Log, forgotten: seq<nat>, sim: Sim, taken: set<nat>,
                ghost pick: Picker)
    returns (revived: seq<Pair>, used: set<nat>)
    requires Ready(store, start, |seen|) && pick == Reviver(seen, sim)
    modifies store`log
    ensures Ready(store, start, |seen|)
    ensures Reviving(store, old(store.log), start, pick, forgotten, taken, |forgotten|, revived, used)
  {
    revived, used := [], taken;
    ghost var log := store.log;
    NoneRevived(store, log, start, pick, forgotten, taken);
    var i := 0;
    while i < |forgotten| && |revived| < MAX_REACTIVATIONS
      invariant Ready(store, start, |seen|) && Reviving(store, log, start, pick, forgotten, taken, i, revived, used)
      decreases |forgotten| - i
    {
      revived, used := ReviveOne(store, start, seen, forgotten, i, sim, revived, used, pick, taken, log);
      i := i + 1;
    }
    AllRevived(store, log, start, pick, forgotten, taken, i, revived, used);
  }

  lemma NoneRevived(store: EventStore, log: Log, start: nat, pick: Picker, forgotten: seq<nat>, taken: set<nat>)
    requires store.log == log
    ensures Reviving(store, log, start, pick, forgotten, taken, 0, [], taken)
  {
    assert log + [] == log;
  }

  lemma AllRevived(store: EventStore, log: Log, start: nat, pick: Picker, forgotten: seq<nat>, taken: set<nat>, i: nat,
                   revived: seq<Pair>, used: set<nat>)
    requires Reviving(store, log, start, pick, forgotten, taken, i, revived, used)
    requires i == |forgotten| || |revived| >= MAX_REACTIVATIONS
    ensures Reviving(store, log, start, pick, forgotten, taken, |forgotten|, revived, used)
  {
    AtMostThree(pick, forgotten, taken, i);
    EnoughRevived(pick, forgotten, taken, i, |forgotten|);
  }

  lemma {:induction false} AtMostThree(pick: Picker, forgotten: seq<nat>, taken: set<nat>, i: nat)
    requires i <= |forgotten|
    ensures |Revived(pick, forgotten, taken, i)| <= MAX_REACTIVATIONS
  {
    if i > 0 {
      AtMostThree(pick, forgotten, taken, i - 1);
    }
  }

  lemma NextRevived(pick: Picker, forgotten: seq<nat>, taken: set<nat>, i: nat)
    requires i < |forgotten| && |Revived(pick, forgotten, taken, i)| < MAX_REACTIVATIONS
    ensures var ps := Revived(pick, forgotten, taken, i);
            var pair := pick(forgotten[i], taken + AllIds(ps));
            && Revived(pick, forgotten, taken, i + 1) == ps + OptSeq(pair)
            && AllIds(ps + OptSeq(pair)) == AllIds(ps) + OptIds(pair)
  {
    var ps := Revived(pick, forgotten, taken, i);
    var pair := pick(forgotten[i], taken + AllIds(ps));
    if pair.Some? {
      AllIdsSnoc(ps, pair.value);
    } else {
      assert ps + [] == ps;
    }
  }

  /** The loop stops at the third: a longer list adds nothing. */
  lemma {:induction false} EnoughRevived(pick: Picker, forgotten: seq<nat>, taken: set<nat>, i: nat, n: nat)
    requires i <= n <= |forgotten|
    requires i == n || |Revived(pick, forgotten, taken, i)| == MAX_REACTIVATIONS
    ensures Revived(pick, forgotten, taken, n) == Revived(pick, forgotten, taken, i)
    decreases n
  {
    if i < n {
      EnoughRevived(pick, forgotten, taken, i, n - 1);
    }
  }

  method PickPair(ps: seq<nat>, used: set<nat>, sim: Sim, fit: Fit) returns (pair: Option<Pair>)
    ensures Picks(Free(ps, used), sim, fit, pair)
  {
    var cand := Free(ps, used);
    var best := FindBestPair(cand, sim, fit);
    pair := MemoriesAt(cand, best);
  }

  lemma PickedWithin(seen: Log, p: Event -> bool, used: set<nat>, sim: Sim, fit: Fit, pair: Option<Pair>)
    requires Picks(Free(Keep(seen, Recent(seen), p), used), sim, fit, pair) && pair.Some?
    ensures pair.value.0 < |seen| && pair.value.1 < |seen|
  {
    PickedIsFree(Keep(seen, Recent(seen), p), used, sim, fit, pair);
  }

  method LinkAcross(store: EventStore, start: nat, seen: Log, sim: Sim, used: set<nat>) returns (cross: Option<Pair>)
    requires Ready(store, start, |seen|)
    modifies store`log
    ensures Ready(store, start, |seen|)
    ensures store.log == old(store.log) + PairLog(OptSeq(cross), CrossLink, start, store.clock)
    ensures Picks(Free(Worded(seen), used), sim, AcrossFamilies(seen, sim), cross)
  {
    cross := PickPair(Worded(seen), used, sim, AcrossFamilies(seen, sim));
    if cross.Some? {
      PickedWithin(seen, HasText, used, sim, AcrossFamilies(seen, sim), cross);
      assert store.log == store.log + PairLog([], CrossLink, start, store.clock);
      PutPair(store, start, CrossLink, cross.value, [], store.log);
      assert [] + [cross.value] == OptSeq(cross);
    }
  }

  method Dream(store: EventStore, start: nat, seen: Log, sim: Sim, dreams: bool, used: set<nat>)
    returns (dream: Option<Pair>)
    requires Ready(store, start, |seen|)
    modifies store`log
    ensures Ready(store, start, |seen|)
    ensures store.log == old(store.log) + DreamLog(dream, start, store.clock)
    ensures if dreams && |Thoughts(seen)| >= DREAM_MIN then Picks(Free(Thoughts(seen), used), sim, AnyTwo(), dream)
            else dream.None?
  {
    dream := None;
    if dreams && |Thoughts(seen)| >= DREAM_MIN {
      dream := PickPair(Thoughts(seen), used, sim, AnyTwo());
      if dream.Some? {
        PickedWithin(seen, IsWordedThought, used, sim, AnyTwo(), dream);
        var (a, b) := dream.value;
        var e := From(start, ThoughtCreated(Untagged), [a, b], store.clock).(text := "[dream]",
                                                                             recalled := Refs([a, b]));
        FromResolves(store.log, start, ThoughtCreated(Untagged), [a, b], store.clock);
        assert Links(e) == Links(From(start, ThoughtCreated(Untagged), [a, b], store.clock));
        Put(store, e);
      }
    }
  }

  /** What becomes of a synthesis: nothing, a thread already there, or a new thread of the mind's own. */
  ghost predicate SelfRule(log: Log, n: Night, now: real, r: Rules, self: SelfOutcome) {
    if n.selfRoll < n.selfProb && OwnRead(log, r.threadRead) < r.selfMax && n.synthesis.Some?
    then
      var s := n.synthesis.value;
      self == if HasTwin(log, {Evt(s.first), Evt(s.second)}, s.title, now, r) then Deduplicated
              else Born(s.first, s.second, s.title)
    else self.Untried?
  }

  method PutThread(store: EventStore, start: nat, s: Synthesis, tid: string)
    requires Ready(store, start, 0) && s.first < |store.log| && s.second < |store.log|
    modifies store`log
    ensures store.Valid()
    ensures store.log == old(store.log)
                         + SelfLog(Born(s.first, s.second, s.title), start, |old(store.log)|, tid, store.clock)
  {
    var now, pos := store.clock, |store.log|;
    var body := ThreadCreated(true, s.title, {Evt(s.first), Evt(s.second)});
    var created := From(start, body, [s.first, s.second], now).(thread := Some(tid));
    FromResolves(store.log, start, body, [s.first, s.second], now);
    assert Links(created) == Links(From(start, body, [s.first, s.second], now));
    Put(store, created);
    FromResolves(store.log, pos, ThreadActivated, [], now);
    assert Links(From(pos, ThreadActivated, [], now).(thread := Some(tid)))
           == Links(From(pos, ThreadActivated, [], now));
    Put(store, From(pos, ThreadActivated, [], now).(thread := Some(tid)));
  }

  method Crystallise(store: EventStore, start: nat, n: Night, r: Rules) returns (self: SelfOutcome)
    requires Ready(store, start, 0)
    requires n.synthesis.Some? ==> n.synthesis.value.first < |store.log| && n.synthesis.value.second < |store.log|
    modifies store`log
    ensures store.Valid()
    ensures store.log == old(store.log) + SelfLog(self, start, |old(store.log)|, n.tid, store.clock)
    ensures SelfRule(old(store.log), n, store.clock, r, self)
  {
    self := Untried;
    var own := CountSelfThreads(store.log, r.threadRead);
    if n.selfRoll < n.selfProb && own < r.selfMax && n.synthesis.Some? {
      var s := n.synthesis.value;
      var twin := NearIdenticalExists(store.log, {Evt(s.first), Evt(s.second)}, s.title, store.clock, r);
      if twin {
        self := Deduplicated;
      } else {
        PutThread(store, start, s, n.tid);
        self := Born(s.first, s.second, s.title);
      }
    }
  }

  // --------------------------------------------------------------- the cycle

  /** The inputs of a night name events of the log and its active threads. */
  ghost predicate Fits(n: Night, log: Log) {
    && (n.synthesis.Some? ==> n.synthesis.value.first < |log| && n.synthesis.value.second < |log|)
    && (set t | t in n.active) == M.ActiveThreads(M.Rebuilt(log))
  }

  /** The plan carried out on the log `seen`, which ends with the opening bracket. */
  ghost predicate Planned(seen: Log, n: Night, r: Rules, now: real, p: Plan) {
    && FollowsRules(seen, n.forgotten, n.sim, Dreams(n), p.mem)
    && p.mem.idle == IdleOf(n.active, M.Rebuilt(seen), Recent(seen))
    && seen != [] && SelfRule(seen + MemoryLog(p.mem, |seen| - 1, now), n, now, r, p.self)
  }

  lemma Regroup(s: Log, a: Log, b: Log, c: Log, d: Log, e: Log)
    ensures s + a + b + c + d + e == s + (a + b + c + d + e)
  {
  }

  lemma CompletedResolves(log: Log, p: Plan, start: nat, now: real)
    requires start + Durable(p) < |log|
    ensures LinksResolve(log, Completed(p, start, now))
  {
    var n := Durable(p);
    FromResolves(log, start, SleepStarted, [], now);
    assert Links(Completed(p, start, now)) == if n == 0 then [Evt(start)] else Refs(seq(n, i => start + 1 + i));
  }

  /** The four memory stages and the dormancy of idle threads. */
  method Consolidate(store: EventStore, start: nat, seen: Log, n: Night) returns (p: Memories)
    requires store.Valid() && store.log == seen && start < |seen|
    modifies store`log
    ensures Ready(store, start, |seen|) && store.log == seen + MemoryLog(p, start, store.clock)
    ensures FollowsRules(seen, n.forgotten, n.sim, Dreams(n), p)
    ensures p.idle == IdleOf(n.active, M.Rebuilt(seen), Recent(seen))
  {
    var mind := M.FromStore(seen, 1000);
    var threads := mind.threads;
    var merged := Merge(store, start, seen, n.sim);
    var idle := Quieten(store, start, n.active, threads, Recent(seen));
    ghost var pick := Reviver(seen, n.sim);
    var revived, used := Revive(store, start, seen, n.forgotten, n.sim, SetOf(merged), pick);
    var cross := LinkAcross(store, start, seen, n.sim, used);
    var dream := Dream(store, start, seen, n.sim, Dreams(n), used + OptIds(cross));
    Regroup(seen, MergeLog(merged, start, store.clock), IdleLog(idle, start, store.clock),
            PairLog(revived, Reactivate, start, store.clock), PairLog(OptSeq(cross), CrossLink, start, store.clock),
            DreamLog(dream, start, store.clock));
    p := Memories(merged, idle, revived, cross, dream);
  }

  lemma WrittenIs(seen: Log, p: Plan, tid: string, now: real)
    requires seen != []
    ensures var start := |seen| - 1;
            var log := seen + MemoryLog(p.mem, start, now);
            log + SelfLog(p.self, start, |log|, tid, now) == seen + Written(p, start, tid, now)
  {
  }

  /** The stages between the brackets. */
  method Stages(store: EventStore, seen: Log, n: Night, r: Rules) returns (p: Plan)
    requires store.Valid() && store.log == seen && seen != [] && Fits(n, seen)
    modifies store`log
    ensures Ready(store, |seen| - 1, |seen|) && Planned(seen, n, r, store.clock, p)
    ensures store.log == seen + Written(p, |seen| - 1, n.tid, store.clock)
  {
    var mem := Consolidate(store, |seen| - 1, seen, n);
    var self := Crystallise(store, |seen| - 1, n, r);
    p := Plan(mem, self);
    WrittenIs(seen, p, n.tid, store.clock);
  }

  method Close(store: EventStore, p: Plan, start: nat, ghost tid: string) returns (result: SleepResult)
    requires store.Valid() && start + |Written(p, start, tid, store.clock)| < |store.log|
    modifies store`log
    ensures store.Valid() && result == Label(p)
    ensures store.log == old(store.log) + [Completed(p, start, store.clock)]
  {
    DurableCountsEvents(p, start, tid, store.clock);
    CompletedResolves(store.log, p, start, store.clock);
    result := Label(p);
    Put(store, Completed(p, start, store.clock));
  }

  /** What a finished cycle leaves: plan, events and closing bracket. */
  ghost predicate Cycled(seen: Log, log: Log, n: Night, r: Rules, now: real, p: Plan) {
    && seen != [] && Planned(seen, n, r, now, p)
    && log == seen + Written(p, |seen| - 1, n.tid, now) + [Completed(p, |seen| - 1, now)]
  }

  method Finish(store: EventStore, seen: Log, n: Night, r: Rules) returns (p: Plan, result: SleepResult)
    requires store.Valid() && store.log == seen && seen != [] && Fits(n, seen)
    modifies store`log
    ensures store.Valid() && result == Label(p) && Cycled(seen, store.log, n, r, store.clock, p)
  {
    p := Stages(store, seen, n, r);
    result := Close(store, p, |seen| - 1, n.tid);
  }

  /** One cycle: the opening bracket, the stages, the closing bracket with label and count. */
  method SleepOnce(store: EventStore, n: Night, r: Rules) returns (p: Plan, result: SleepResult)
    requires store.Valid() && Fits(n, store.log + [Started(store.clock)])
    modifies store`log
    ensures store.Valid() && result == Label(p)
    ensures Cycled(old(store.log) + [Started(store.clock)], store.log, n, r, store.clock, p)
  {
    var seen := store.log + [Started(store.clock)];
    Put(store, Started(store.clock));
    p, result := Finish(store, seen, n, r);
  }
}
