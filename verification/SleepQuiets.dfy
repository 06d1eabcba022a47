/** What a sleep cycle does to the mental state (sleep.py against mental_state.py): afterwards the active
    threads are those touched recently, and a thread born in the cycle. */
module SleepQuiets {
  import opened EventLog
  import opened Sleep
  import opened SelfThreads
  import opened SleepCycle
  import opened M = MentalState

  /** An event the fold ignores. */
  predicate Ignored(e: Event) {
    Lifecycle(e).None? && !e.body.ThreadCreated? && !(Touches(e) && Named(e.thread))
  }

  lemma RebuiltOf(front: Log, e: Event, log: Log)
    requires log == front + [e]
    ensures Rebuilt(log) == Applied(Rebuilt(front), e, |front|)
  {
    assert log[..|log| - 1] == front && log[|log| - 1] == e;
  }

  lemma RebuiltSnoc(log: Log, e: Event)
    ensures Rebuilt(log + [e]) == Applied(Rebuilt(log), e, |log|)
  {
    RebuiltOf(log, e, log + [e]);
  }

  lemma {:induction false} IgnoredMany(log: Log, more: Log)
    requires forall i | 0 <= i < |more| :: Ignored(more[i])
    ensures Rebuilt(log + more) == Rebuilt(log)
  {
    if more == [] {
      assert log + more == log;
    } else {
      var front, e := more[..|more| - 1], more[|more| - 1];
      IgnoredMany(log, front);
      assert log + more == (log + front) + [e];
      RebuiltSnoc(log + front, e);
    }
  }

  lemma {:induction false} PairLogIsIgnored(pairs: seq<Pair>, action: SleepAction, start: nat, now: real)
    ensures forall i | 0 <= i < |PairLog(pairs, action, start, now)| :: Ignored(PairLog(pairs, action, start, now)[i])
  {
    if pairs != [] {
      PairLogIsIgnored(pairs[..|pairs| - 1], action, start, now);
    }
  }

  lemma QuietenOne(threads: Threads, e: Event, k: nat)
    requires e.body.ThreadDormant?
    ensures ActiveThreads(Applied(threads, e, k)) == ActiveThreads(threads) - {e.thread}
    ensures forall t :: t in Applied(threads, e, k) <==> t in threads || t == e.thread
  {
  }

  lemma {:induction false} QuietenMany(log: Log, idle: seq<Option<string>>, start: nat, now: real)
    ensures ActiveThreads(Rebuilt(log + IdleLog(idle, start, now))) == ActiveThreads(Rebuilt(log)) - set t | t in idle
  {
    if idle == [] {
      assert log + IdleLog(idle, start, now) == log;
    } else {
      var front, t := idle[..|idle| - 1], idle[|idle| - 1];
      QuietenMany(log, front, start, now);
      var before := log + IdleLog(front, start, now);
      var e := From(start, ThreadDormant, [], now).(thread := t);
      assert log + IdleLog(idle, start, now) == before + [e];
      RebuiltSnoc(before, e);
      QuietenOne(Rebuilt(before), e, |before|);
      assert idle == front + [t];
    }
  }

  /** The two events of a birth: the thread is created, then active. */
  lemma BirthActivates(threads: Threads, created: Event, activated: Event, k: nat, tid: string)
    requires created.body.ThreadCreated? && created.thread == Some(tid) && tid != ""
    requires activated.body.ThreadActivated? && activated.thread == Some(tid)
    ensures ActiveThreads(Applied(Applied(threads, created, k), activated, k + 1))
            == ActiveThreads(threads) + {Some(tid)}
  {
  }

  function Newborn(self: SelfOutcome, tid: string): set<Option<string>> {
    if self.Born? then {Some(tid)} else {}
  }

  lemma SelfLogActivates(log: Log, self: SelfOutcome, start: nat, tid: string, now: real)
    requires tid != ""
    ensures ActiveThreads(Rebuilt(log + SelfLog(self, start, |log|, tid, now)))
            == ActiveThreads(Rebuilt(log)) + Newborn(self, tid)
  {
    var more := SelfLog(self, start, |log|, tid, now);
    if self.Born? {
      assert log + more == (log + [more[0]]) + [more[1]];
      RebuiltSnoc(log, more[0]);
      RebuiltSnoc(log + [more[0]], more[1]);
      BirthActivates(Rebuilt(log), more[0], more[1], |log|, tid);
    } else {
      assert log + more == log;
    }
  }

  /** The memory stages touch no thread but the idle ones. */
  lemma FrontQuietens(log: Log, p: Memories, start: nat, now: real)
    ensures var mid := log + MergeLog(p.merged, start, now) + IdleLog(p.idle, start, now);
            ActiveThreads(Rebuilt(mid)) == ActiveThreads(Rebuilt(log)) - set t | t in p.idle
  {
    var m := MergeLog(p.merged, start, now);
    IgnoredMany(log, m);
    QuietenMany(log + m, p.idle, start, now);
  }

  lemma BackIsIgnored(mid: Log, p: Memories, start: nat, now: real)
    ensures var v, c := PairLog(p.revived, Reactivate, start, now), PairLog(OptSeq(p.cross), CrossLink, start, now);
            Rebuilt(mid + v + c + DreamLog(p.dream, start, now)).Keys == Rebuilt(mid).Keys
            && ActiveThreads(Rebuilt(mid + v + c + DreamLog(p.dream, start, now))) == ActiveThreads(Rebuilt(mid))
  {
    var v, c := PairLog(p.revived, Reactivate, start, now), PairLog(OptSeq(p.cross), CrossLink, start, now);
    PairLogIsIgnored(p.revived, Reactivate, start, now);
    IgnoredMany(mid, v);
    PairLogIsIgnored(OptSeq(p.cross), CrossLink, start, now);
    IgnoredMany(mid + v, c);
    IgnoredMany(mid + v + c, DreamLog(p.dream, start, now));
  }

  lemma MemoryLogQuietens(log: Log, p: Memories, start: nat, now: real)
    ensures ActiveThreads(Rebuilt(log + MemoryLog(p, start, now))) == ActiveThreads(Rebuilt(log)) - set t | t in p.idle
  {
    var m, i := MergeLog(p.merged, start, now), IdleLog(p.idle, start, now);
    FrontQuietens(log, p, start, now);
    BackIsIgnored(log + m + i, p, start, now);
    Regroup(log, m, i, PairLog(p.revived, Reactivate, start, now), PairLog(OptSeq(p.cross), CrossLink, start, now),
            DreamLog(p.dream, start, now));
  }

  lemma {:induction false} IdleAre(active: seq<Option<string>>, threads: Threads, recent: seq<nat>, t: Option<string>)
    ensures t in IdleOf(active, threads, recent) <==> t in active && t in threads && threads[t].last !in recent
  {
    if active != [] {
      assert active == active[..|active| - 1] + [active[|active| - 1]];
      IdleAre(active[..|active| - 1], threads, recent, t);
    }
  }

  /** The active threads last touched inside the recent window. */
  function Fresh(seen: Log): set<Option<string>> {
    set t | t in ActiveThreads(Rebuilt(seen)) && Rebuilt(seen)[t].last in Recent(seen)
  }

  lemma IdleLeavesFresh(seen: Log, n: Night, idle: seq<Option<string>>)
    requires Fits(n, seen) && idle == IdleOf(n.active, Rebuilt(seen), Recent(seen))
    ensures ActiveThreads(Rebuilt(seen)) - (set t | t in idle) == Fresh(seen)
  {
    forall t ensures t in ActiveThreads(Rebuilt(seen)) && t !in idle <==> t in Fresh(seen) {
      IdleAre(n.active, Rebuilt(seen), Recent(seen), t);
      assert t in (set u | u in n.active) <==> t in n.active;
    }
  }

  lemma WrittenActivates(seen: Log, p: Plan, tid: string, now: real)
    requires seen != [] && tid != ""
    ensures ActiveThreads(Rebuilt(seen + Written(p, |seen| - 1, tid, now)))
            == ActiveThreads(Rebuilt(seen)) - (set t | t in p.mem.idle) + Newborn(p.self, tid)
  {
    var start := |seen| - 1;
    MemoryLogQuietens(seen, p.mem, start, now);
    SelfLogActivates(seen + MemoryLog(p.mem, start, now), p.self, start, tid, now);
    WrittenIs(seen, p, tid, now);
  }

  lemma ClosingIsIgnored(log: Log, p: Plan, start: nat, now: real)
    ensures Rebuilt(log + [Completed(p, start, now)]) == Rebuilt(log)
  {
    RebuiltSnoc(log, Completed(p, start, now));
  }

  /** After a cycle the active threads are exactly the active ones touched recently, and the newborn. */
  lemma SleepLeavesFreshThreadsActive(seen: Log, log: Log, n: Night, r: Rules, now: real, p: Plan)
    requires Cycled(seen, log, n, r, now, p) && Fits(n, seen) && n.tid != ""
    ensures ActiveThreads(Rebuilt(log)) == Fresh(seen) + Newborn(p.self, n.tid)
  {
    WrittenActivates(seen, p, n.tid, now);
    ClosingIsIgnored(seen + Written(p, |seen| - 1, n.tid, now), p, |seen| - 1, now);
    IdleLeavesFresh(seen, n, p.mem.idle);
  }
}
