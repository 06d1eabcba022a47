/** The circadian machine and the sleep cycle together (circadian.py, sleep.py): what a cycle writes is never
    external, so a night of real cycles is stable. */
module SleepNight {
  import opened EventLog
  import C = Circadian
  import L = CircadianLife
  import CircadianMachine
  import opened SleepSearch
  import opened Sleep
  import opened SelfThreads
  import opened SleepCycle

  predicate Internal(log: Log) {
    forall i | 0 <= i < |log| :: !L.IsExternal(log[i])
  }

  lemma {:induction false} IdleIsInternal(idle: seq<Option<string>>, start: nat, now: real)
    ensures Internal(IdleLog(idle, start, now))
  {
    if idle != [] {
      IdleIsInternal(idle[..|idle| - 1], start, now);
    }
  }

  lemma {:induction false} PairsAreInternal(pairs: seq<Pair>, action: SleepAction, start: nat, now: real)
    ensures Internal(PairLog(pairs, action, start, now))
  {
    if pairs != [] {
      PairsAreInternal(pairs[..|pairs| - 1], action, start, now);
    }
  }

  lemma JoinedIsInternal(a: Log, b: Log)
    requires Internal(a) && Internal(b)
    ensures Internal(a + b)
  {
  }

  lemma MemoryIsInternal(p: Memories, start: nat, now: real)
    ensures Internal(MemoryLog(p, start, now))
  {
    var m, i := MergeLog(p.merged, start, now), IdleLog(p.idle, start, now);
    var v, c := PairLog(p.revived, Reactivate, start, now), PairLog(OptSeq(p.cross), CrossLink, start, now);
    var d := DreamLog(p.dream, start, now);
    IdleIsInternal(p.idle, start, now);
    PairsAreInternal(p.revived, Reactivate, start, now);
    PairsAreInternal(OptSeq(p.cross), CrossLink, start, now);
    JoinedIsInternal(m, i);
    JoinedIsInternal(m + i, v);
    JoinedIsInternal(m + i + v, c);
    JoinedIsInternal(m + i + v + c, d);
  }

  lemma SelfIsInternal(self: SelfOutcome, start: nat, pos: nat, tid: string, now: real)
    ensures Internal(SelfLog(self, start, pos, tid, now))
  {
  }

  lemma Bracketed(a: Event, b: Log, c: Log, d: Event)
    requires !L.IsExternal(a) && Internal(b) && Internal(c) && !L.IsExternal(d)
    ensures Internal([a] + (b + c) + [d])
  {
    JoinedIsInternal(b, c);
  }

  lemma Regrouped(before: Log, a: Event, b: Log, c: Event)
    ensures before + [a] + b + [c] == before + ([a] + b + [c])
  {
  }

  /** All the events of a cycle, brackets included. */
  function CycleEvents(p: Plan, start: nat, tid: string, now: real): Log {
    [Started(now)] + Written(p, start, tid, now) + [Completed(p, start, now)]
  }

  /** A cycle writes no user message and no experience. */
  lemma CycleIsInternal(p: Plan, start: nat, tid: string, now: real)
    ensures Internal(CycleEvents(p, start, tid, now))
  {
    MemoryIsInternal(p.mem, start, now);
    SelfIsInternal(p.self, start, start + 1 + |MemoryLog(p.mem, start, now)|, tid, now);
    Bracketed(Started(now), MemoryLog(p.mem, start, now),
              SelfLog(p.self, start, start + 1 + |MemoryLog(p.mem, start, now)|, tid, now), Completed(p, start, now));
  }

  /** What SleepOnce leaves in the log is such a cycle. */
  lemma CycledWritesCycle(before: Log, log: Log, n: Night, r: Rules, now: real, p: Plan)
    requires Cycled(before + [Started(now)], log, n, r, now, p)
    ensures log == before + CycleEvents(p, |before|, n.tid, now)
  {
    Regrouped(before, Started(now), Written(p, |before|, n.tid, now), Completed(p, |before|, now));
  }

  /** The drafts are the events of a cycle, or as many of them as were written before it raised. */
  ghost predicate OfCycle(drafts: seq<Event>) {
    exists p, start, tid, now :: drafts <= CycleEvents(p, start, tid, now)
  }

  lemma OfCycleIsInternal(drafts: seq<Event>)
    requires OfCycle(drafts)
    ensures L.NoExternal(drafts)
  {
    var p, start, tid, now :| drafts <= CycleEvents(p, start, tid, now);
    CycleIsInternal(p, start, tid, now);
  }

  /** A night with nobody about, outside the wake window, whose consolidations are sleep cycles. */
  ghost predicate RealNight(q: C.Params, t: real, s: L.Step) {
    match s
    case BeatAt(now, hour, eng) =>
      now - t >= L.Reach(q) && !C.InWindow(hour, q.wakeWindow) && OfCycle(eng.sleepWrites)
    case Others(_, drafts) => L.NoExternal(drafts)
    case Restart => true
  }

  /** Once asleep, with nobody about, the machine sleeps on at every beat outside the wake window, through any
      number of sleep cycles, whole or cut short, and across restarts. */
  lemma RealNightIsStable(q: C.Params, m: CircadianMachine.Memory, steps: seq<L.Step>, t: real, i: nat)
    requires L.Synced(m) && L.Chained(m.log) && L.RunOk(q, m, steps)
    requires C.AsleepState(m.state) && L.SilentSince(m.log, t) && L.Reach(q) <= C.NO_ACTIVITY
    requires forall j | 0 <= j < |steps| :: RealNight(q, t, steps[j])
    requires i < |L.Outcomes(q, m, steps)|
    ensures L.Outcomes(q, m, steps)[i].0 == Asleep && L.Outcomes(q, m, steps)[i].1 != CircadianMachine.Woke
  {
    forall j | 0 <= j < |steps| ensures L.QuietNight(q, t, steps[j]) {
      assert RealNight(q, t, steps[j]);
      if steps[j].BeatAt? {
        OfCycleIsInternal(steps[j].eng.sleepWrites);
      }
    }
    L.NightIsStable(q, m, steps, t, i);
  }
}
