/** What the label of a sleep cycle tells (sleep.py): when a cycle that wrote nothing is not called a noop, and two
    nights in a row of which the second is such a cycle. */
module SleepNoop {
  import opened EventLog
  import opened SleepSearch
  import opened Sleep
  import opened SelfThreads
  import opened SleepCycle
  import opened SleepQuiets
  import M = MentalState

  /** The guard of the branch that drops a near-identical thread, on the log `seen`. */
  ghost predicate DropsTwin(seen: Log, n: Night, now: real, r: Rules) {
    && n.selfRoll < n.selfProb && OwnRead(seen, r.threadRead) < r.selfMax && n.synthesis.Some?
    && HasTwin(seen, {Evt(n.synthesis.value.first), Evt(n.synthesis.value.second)}, n.synthesis.value.title, now, r)
  }

  /** A cycle that wrote nothing is labelled something else than noop if and only if its memory stages found nothing
      and the thread it would have started has a twin among the thread rows read. It is then labelled consolidated. */
  lemma MislabelledIff(seen: Log, n: Night, r: Rules, now: real, p: Plan)
    requires Planned(seen, n, r, now, p)
    ensures Written(p, |seen| - 1, n.tid, now) == [] && !Label(p).Noop?
            <==> MemoryLog(p.mem, |seen| - 1, now) == [] && DropsTwin(seen, n, now, r)
    ensures Written(p, |seen| - 1, n.tid, now) == [] && !Label(p).Noop? ==> Label(p).Merged? && Durable(p) == 0
  {
    var mem := MemoryLog(p.mem, |seen| - 1, now);
    NoopMeansNothingWritten(p, |seen| - 1, n.tid, now);
    if mem == [] {
      assert seen + mem == seen;
    }
  }

  // ---------------------------------------------------- nothing to consolidate

  function Unlike(): Sim {
    (a: nat, b: nat) => 0.0
  }

  const NOTHING := Memories([], [], [], None, None)

  lemma NothingIsWritten(start: nat, now: real)
    ensures MemoryLog(NOTHING, start, now) == []
  {
    assert PairLog([], Reactivate, start, now) == [] && PairLog(OptSeq(None), CrossLink, start, now) == [];
    assert DreamLog(None, start, now) == [] && IdleLog([], start, now) == [];
  }

  /** Where no two memories are alike and none is forgotten, the memory stages of a dreamless night find nothing. */
  lemma NothingFound(seen: Log)
    ensures FollowsRules(seen, [], Unlike(), false, NOTHING)
  {
    assert IsCluster(Thoughts(seen), Unlike(), []);
    NoPair(Free(Worded(seen), SetOf(NOTHING.merged) + AllIds(NOTHING.revived)), AcrossFamilies(seen, Unlike()));
  }

  lemma NoPair(cand: seq<nat>, fit: Fit)
    requires forall a: nat, b: nat :: !fit(a, b)
    ensures Picks(cand, Unlike(), fit, None)
  {
    assert BestPair(cand, Unlike(), fit, |cand|, 0, None);
  }

  // ------------------------------------------------------------- two nights

  const PAIR := Synthesis(0, 1, "t")

  /** A dreamless night that would start a thread from the two memories. */
  function NightWith(active: seq<Option<string>>): Night {
    Night(active, [], Unlike(), 1.0, 0.0, 0.0, 1.0, Some(PAIR), "x")
  }

  function Memory(text: string): Event {
    Draft(false, ExperienceCreated).(text := text)
  }

  function Evening(): Log {
    [Memory("a"), Memory("b")]
  }

  function FirstSeen(): Log {
    Evening() + [Started(0.0)]
  }

  const FIRST := Plan(NOTHING, Born(0, 1, "t"))

  function NewThread(): Event {
    From(2, ThreadCreated(true, "t", {Evt(0), Evt(1)}), [0, 1], 0.0).(thread := Some("x"))
  }

  function NewlyActive(): Event {
    From(3, ThreadActivated, [], 0.0).(thread := Some("x"))
  }

  function Morning(): Log {
    FirstSeen() + [NewThread()] + [NewlyActive()] + [Completed(FIRST, 2, 0.0)]
  }

  function SecondSeen(): Log {
    Morning() + [Started(0.0)]
  }

  const SECOND := Plan(NOTHING, Deduplicated)

  lemma MorningIs()
    ensures Morning() == FirstSeen() + Written(FIRST, 2, "x", 0.0) + [Completed(FIRST, 2, 0.0)]
  {
    NothingIsWritten(2, 0.0);
    assert SelfLog(FIRST.self, 2, 3, "x", 0.0) == [NewThread(), NewlyActive()];
  }

  // ---------------------------------------------------------- the thread rows

  lemma {:induction false} NoThreadRows(log: Log, read: nat)
    requires forall k | 0 <= k < |log| :: !IsThread(log[k])
    ensures Newest(log, IsThread, read) == []
  {
    if log != [] {
      NoThreadRows(log[..|log| - 1], read);
    }
  }

  lemma NothingOwn(read: nat)
    ensures OwnRead(FirstSeen(), read) == 0 && Newest(FirstSeen(), IsThread, read) == []
  {
    NoThreadRows(FirstSeen(), read);
  }

  lemma OneOwn(read: nat)
    requires read > 0
    ensures OwnRead(SecondSeen(), read) == 1
  {
    NothingOwn(read - 1);
    OwnReadAppend(FirstSeen(), NewThread(), read);
    OwnReadAppend(FirstSeen() + [NewThread()], NewlyActive(), read);
    OwnReadAppend(FirstSeen() + [NewThread()] + [NewlyActive()], Completed(FIRST, 2, 0.0), read);
    OwnReadAppend(Morning(), Started(0.0), read);
  }

  lemma ThreadIsRead(read: nat)
    requires read > 0
    ensures 3 in Newest(SecondSeen(), IsThread, read)
  {
    NothingOwn(read - 1);
    NewestAppend(FirstSeen(), NewThread(), IsThread, read);
    NewestAppend(FirstSeen() + [NewThread()], NewlyActive(), IsThread, read);
    NewestAppend(FirstSeen() + [NewThread()] + [NewlyActive()], Completed(FIRST, 2, 0.0), IsThread, read);
    NewestAppend(Morning(), Started(0.0), IsThread, read);
  }

  // ----------------------------------------------------------- active threads

  lemma {:induction false} NoThreadsYet(log: Log)
    requires forall k | 0 <= k < |log| ::
             log[k].thread.None? && M.Lifecycle(log[k]).None? && !log[k].body.ThreadCreated?
    ensures M.Rebuilt(log) == map[]
  {
    if log != [] {
      NoThreadsYet(log[..|log| - 1]);
    }
  }

  lemma AfterNewThread()
    ensures M.Rebuilt(FirstSeen() + [NewThread()]) == map[Some("x") := M.ThreadView(M.Created, 3, [3])]
  {
    NoThreadsYet(FirstSeen());
    RebuiltSnoc(FirstSeen(), NewThread());
  }

  lemma AfterActivation()
    ensures M.Rebuilt(FirstSeen() + [NewThread()] + [NewlyActive()])
            == map[Some("x") := M.ThreadView(M.Activated, 4, [3, 4])]
  {
    AfterNewThread();
    RebuiltSnoc(FirstSeen() + [NewThread()], NewlyActive());
    assert [3] + [4] == [3, 4];
  }

  lemma IdleAppend(log: Log, e: Event)
    requires M.Lifecycle(e).None? && !M.Touches(e) && !e.body.ThreadCreated?
    ensures M.Rebuilt(log + [e]) == M.Rebuilt(log)
  {
    RebuiltSnoc(log, e);
  }

  lemma ThreadsThen()
    ensures M.Rebuilt(SecondSeen()) == map[Some("x") := M.ThreadView(M.Activated, 4, [3, 4])]
  {
    AfterActivation();
    IdleAppend(FirstSeen() + [NewThread()] + [NewlyActive()], Completed(FIRST, 2, 0.0));
    IdleAppend(Morning(), Started(0.0));
  }

  lemma {:induction false} VisibleHas(log: Log, lo: nat, k: nat)
    requires lo <= k < |log| && !log[k].system
    ensures k in Visible(log, lo)
    decreases |log| - lo
  {
    if lo < k {
      VisibleHas(log, lo + 1, k);
    }
  }

  lemma ThreadIsFresh()
    ensures IdleOf([Some("x")], M.Rebuilt(SecondSeen()), Recent(SecondSeen())) == []
  {
    ThreadsThen();
    VisibleHas(SecondSeen(), 0, 4);
    assert [Some("x")][..0] == [];
  }

  // ------------------------------------------------------------ both are cycles

  lemma QuietPlan(seen: Log, n: Night, r: Rules, now: real, self: SelfOutcome)
    requires seen != [] && n.forgotten == [] && n.sim == Unlike() && !Dreams(n) && SelfRule(seen, n, now, r, self)
    requires IdleOf(n.active, M.Rebuilt(seen), Recent(seen)) == []
    ensures Planned(seen, n, r, now, Plan(NOTHING, self))
  {
    NothingFound(seen);
    NothingIsWritten(|seen| - 1, now);
    assert seen + [] == seen;
  }

  lemma FirstBears(r: Rules)
    requires r.selfMax > 0
    ensures SelfRule(FirstSeen(), NightWith([]), 0.0, r, FIRST.self)
  {
    NothingOwn(r.threadRead);
  }

  lemma FirstFits()
    ensures Fits(NightWith([]), FirstSeen())
  {
    NoThreadsYet(FirstSeen());
  }

  lemma FirstNight(r: Rules)
    requires r.selfMax > 0
    ensures Cycled(FirstSeen(), Morning(), NightWith([]), r, 0.0, FIRST)
  {
    FirstBears(r);
    QuietPlan(FirstSeen(), NightWith([]), r, 0.0, FIRST.self);
    MorningIs();
  }

  lemma SecondDrops(r: Rules)
    requires r.selfMax > 1 && r.threadRead > 0 && InWindow(0.0, 0.0, r.poolS)
    ensures DropsTwin(SecondSeen(), NightWith([Some("x")]), 0.0, r)
  {
    OneOwn(r.threadRead);
    ThreadIsRead(r.threadRead);
    assert NearIdentical(SecondSeen()[3], {Evt(0), Evt(1)}, "t", 0.0, r);
  }

  lemma SecondFits()
    ensures Fits(NightWith([Some("x")]), SecondSeen())
  {
    ThreadsThen();
    assert M.ActiveThreads(M.Rebuilt(SecondSeen())) == {Some("x")};
  }

  lemma DroppedIsRuled(seen: Log, n: Night, now: real, r: Rules)
    requires DropsTwin(seen, n, now, r)
    ensures SelfRule(seen, n, now, r, Deduplicated)
  {
  }

  lemma SecondNight(r: Rules)
    requires r.selfMax > 1 && r.threadRead > 0 && InWindow(0.0, 0.0, r.poolS)
    ensures Planned(SecondSeen(), NightWith([Some("x")]), r, 0.0, SECOND)
  {
    ThreadIsFresh();
    SecondDrops(r);
    DroppedIsRuled(SecondSeen(), NightWith([Some("x")]), 0.0, r);
    QuietPlan(SecondSeen(), NightWith([Some("x")]), r, 0.0, Deduplicated);
  }

  lemma ClosesAtOnce(seen: Log, n: Night, r: Rules, now: real)
    requires seen != [] && Planned(seen, n, r, now, SECOND)
    ensures Cycled(seen, seen + [Completed(SECOND, |seen| - 1, now)], n, r, now, SECOND)
  {
    NothingIsWritten(|seen| - 1, now);
    assert seen + Written(SECOND, |seen| - 1, n.tid, now) == seen;
  }

  /** Whatever the rules, as long as they allow two own threads: a mind that starts a thread one night finds the same
      pair the next night, writes nothing, and calls the cycle consolidated. */
  lemma SecondNightWritesNothing(r: Rules)
    requires r.selfMax > 1 && r.threadRead > 0 && InWindow(0.0, 0.0, r.poolS)
    ensures Fits(NightWith([]), FirstSeen()) && Cycled(FirstSeen(), Morning(), NightWith([]), r, 0.0, FIRST)
    ensures Fits(NightWith([Some("x")]), SecondSeen())
    ensures Cycled(SecondSeen(), SecondSeen() + [Completed(SECOND, 6, 0.0)], NightWith([Some("x")]), r, 0.0, SECOND)
    ensures Label(SECOND).Merged? && Durable(SECOND) == 0
  {
    FirstFits();
    FirstNight(r);
    SecondFits();
    SecondNight(r);
    ClosesAtOnce(SecondSeen(), NightWith([Some("x")]), r, 0.0);
  }
}
