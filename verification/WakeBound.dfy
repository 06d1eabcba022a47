/** How many wakes a run can take (circadian.py, beat and _wake_due): one to begin with, one for each
    re-opening from sleep, at most one for each user message of the run, and otherwise no more
    than the elapsed time has room for. */
module WakeBound {
  import opened Basics
  import opened EventLog
  import opened Circadian
  import opened CircadianMachine
  import opened CircadianLife

  /** The completed wakes of a run, sorted by what called for them. The first one needs no reason.
      `prompts` holds the message that each prompt wake answered. */
  datatype Tally = Tally(wakes: nat, reopens: nat, prompts: seq<nat>, cadence: nat)

  function LastMessage(log: Log): nat {
    var user := Last(log, IsUser);
    if user.Some? then user.value else 0
  }

  predicate Prompted(log: Log) {
    var wake := Last(log, IsWake);
    wake.Some? && FreshMessage(log, wake.value)
  }

  function TallyBeat(t: Tally, log: Log, b: Beaten): Tally {
    var t' := if b.state == Waking then t.(reopens := t.reopens + 1) else t;
    if !b.woke then t'
    else if t.wakes == 0 || b.state == Waking then t'.(wakes := t.wakes + 1)
    else if Prompted(log) then t'.(wakes := t.wakes + 1, prompts := t.prompts + [LastMessage(log)])
    else t'.(wakes := t.wakes + 1, cadence := t.cadence + 1)
  }

  function TallyRun(p: Params, m: Memory, steps: seq<Step>, t: Tally): Tally
    decreases |steps|
  {
    if steps == [] then t
    else
      var t' := if steps[0].BeatAt?
                then TallyBeat(t, m.log, BeatOf(p, m, steps[0].now, steps[0].hour, steps[0].eng)) else t;
      TallyRun(p, Do(p, m, steps[0]), steps[1..], t')
  }

  function TimeOf(s: Step, before: real): real {
    match s
    case BeatAt(now, _, _) => now
    case Others(now, _) => now
    case Restart => before
  }

  /** The clock of a run that begins at `t` never goes back. */
  predicate Clocked(steps: seq<Step>, t: real)
    decreases |steps|
  {
    steps == [] || (t <= TimeOf(steps[0], t) && Clocked(steps[1..], TimeOf(steps[0], t)))
  }

  function EndTime(steps: seq<Step>, t: real): real
    decreases |steps|
  {
    if steps == [] then t else EndTime(steps[1..], TimeOf(steps[0], t))
  }

  function ShortestInterval(p: Params): real {
    Min(p.activeWakeInterval, Min(p.quietWakeInterval, p.drowsyWakeInterval))
  }

  // ------------------------------------------------------------ invariant

  /** Every event of the log is at or before `now`, and in order. */
  ghost predicate UpTo(log: Log, now: real) {
    TimeOrdered(log) && forall k {:trigger log[k]} | 0 <= k < |log| :: log[k].at <= now
  }

  ghost predicate PromptsOk(log: Log, from: nat, prompts: seq<nat>, wake: real) {
    && (forall i | 0 <= i < |prompts| ::
          from <= prompts[i] < |log| && IsUser(log[prompts[i]]) && log[prompts[i]].at <= wake)
    && (forall i, j | 0 <= i < j < |prompts| :: prompts[i] < prompts[j])
  }

  /** The time of the last wake, if any. */
  function WakeTime(log: Log): Option<real> {
    var wake := Last(log, IsWake);
    if wake.None? then None else Some(log[wake.value].at)
  }

  /** `from` and `start` mark where in the log and when the run began. */
  ghost predicate Tallied(p: Params, log: Log, t: Tally, from: nat, start: real) {
    && from <= |log| && (forall k {:trigger log[k]} | 0 <= k < from :: log[k].at <= start)
    && t.wakes <= (if t.wakes == 0 then 0 else 1) + t.reopens + |t.prompts| + t.cadence
    && (t.wakes == 0 ==> t.prompts == [] && t.cadence == 0)
    && (t.wakes > 0 ==>
          && WakeTime(log).Some?
          && PromptsOk(log, from, t.prompts, WakeTime(log).value)
          && WakeTime(log).value >= start + t.cadence as real * ShortestInterval(p))
  }

  lemma UpToGrows(log: Log, log': Log, before: real, now: real)
    requires UpTo(log, before) && before <= now && Grows(log, log', now)
    ensures UpTo(log', now)
  {
    forall i, j | 0 <= i <= j < |log'| ensures log'[i].at <= log'[j].at {
      if j < |log| { assert log'[i] == log[i] && log'[j] == log[j]; }
      else if i < |log| { assert log'[i] == log[i]; }
    }
    forall k | 0 <= k < |log'| ensures log'[k].at <= now {
      if k < |log| { assert log'[k] == log[k]; }
    }
  }

  lemma WakeTimeGrows(log: Log, log': Log)
    requires log <= log' && TimeOrdered(log') && WakeTime(log).Some?
    ensures WakeTime(log').Some? && WakeTime(log).value <= WakeTime(log').value
  {
    var w := Last(log, IsWake).value;
    assert log'[w] == log[w] && IsWake(log'[w]);
  }

  /** Nothing counted: the tally survives any growth of the log. */
  lemma TalliedGrows(p: Params, log: Log, log': Log, t: Tally, from: nat, start: real)
    requires Tallied(p, log, t, from, start) && log <= log' && TimeOrdered(log')
    ensures Tallied(p, log', t, from, start)
  {
    if t.wakes > 0 { WakeTimeGrows(log, log'); }
  }

  // ------------------------------------------------------------- one wake

  lemma {:induction false} WrittenAll(log: Log, drafts: seq<Event>, now: real)
    requires AllWritten(log, drafts, now) && drafts != []
    ensures |Written(log, drafts, now)| > |log| && log <= Written(log, drafts, now)
    ensures Written(log, drafts, now)[|log|] == Stamped(drafts[0], now)
    decreases |drafts|
  {
    var log' := log + [Stamped(drafts[0], now)];
    WrittenGrows(log', drafts[1..], now);
  }

  lemma {:induction false} WrittenGrows(log: Log, drafts: seq<Event>, now: real)
    ensures log <= Written(log, drafts, now)
    decreases |drafts|
  {
    if drafts != [] && LinksResolve(log, drafts[0]) {
      WrittenGrows(log + [Stamped(drafts[0], now)], drafts[1..], now);
    }
  }

  /** A completed wake has its `wake.started` in the log after what was there before. */
  lemma WokeIsRecorded(m: Memory, state: Rhythm, due: bool, eng: Engines, now: real)
    requires AwakeTurn(m, state, due, eng, now).woke
    ensures due && exists k :: |m.log| <= k < |AwakeTurn(m, state, due, eng, now).memory.log|
                               && IsWake(AwakeTurn(m, state, due, eng, now).memory.log[k])
  {
    var mid := Written(m.log, WakeDrafts(eng), now);
    WrittenAll(m.log, WakeDrafts(eng), now);
    WrittenGrows(mid, eng.worldWrites, now);
    var log' := AwakeTurn(m, state, due, eng, now).memory.log;
    assert log'[|m.log|] == mid[|m.log|] == Stamped(Draft(true, WakeStarted), now);
  }

  lemma MovedKeepsLast(m: Memory, to: Rhythm, now: real)
    ensures var log' := Moved(m, to, now).log;
            && Last(log', IsWake) == Last(m.log, IsWake) && Last(log', IsUser) == Last(m.log, IsUser)
            && m.log <= log'
  {
    var e := Stamped(Change(m.log, m.state, to), now);
    LastAfter(m.log, e, IsWake);
    LastAfter(m.log, e, IsUser);
  }

  lemma DueForAReason(p: Params, log: Log, log': Log, now: real, state: Rhythm)
    requires WakeDue(p, log', now, state) && log <= log'
    requires Last(log', IsWake) == Last(log, IsWake) && Last(log', IsUser) == Last(log, IsUser)
    ensures WakeTime(log).None? || Prompted(log) || now - WakeTime(log).value >= ShortestInterval(p)
  {
  }

  /** Why a completed wake was taken. */
  lemma WokeForAReason(p: Params, m: Memory, ev: Evidence, now: real, eng: Engines)
    requires BeatOn(p, m, ev, now, eng).woke
    ensures var b := BeatOn(p, m, ev, now, eng);
            && (exists k :: |m.log| <= k < |b.memory.log| && IsWake(b.memory.log[k]))
            && (b.state == Waking || WakeTime(m.log).None? || Prompted(m.log)
                || now - WakeTime(m.log).value >= ShortestInterval(p))
  {
    var state := Decide(p, ev);
    var m1 := Moved(m, state, now);
    MovedKeepsLast(m, state, now);
    WokeIsRecorded(m1, state, state == Waking || WakeDue(p, m1.log, now, state), eng, now);
    if state != Waking {
      DueForAReason(p, m.log, m1.log, now, state);
    }
  }

  lemma WakeTimeIsNow(log: Log, log': Log, now: real)
    requires Grows(log, log', now) && exists k :: |log| <= k < |log'| && IsWake(log'[k])
    ensures WakeTime(log') == Some(now)
  {
    var k :| |log| <= k < |log'| && IsWake(log'[k]);
    assert Last(log', IsWake).value >= k;
  }

  lemma NewPrompt(log: Log, log': Log, t: Tally, from: nat, start: real, p: Params, now: real)
    requires Tallied(p, log, t, from, start) && t.wakes > 0 && TimeOrdered(log) && Prompted(log)
    requires 0.0 <= ShortestInterval(p) && log <= log' && UpTo(log', now)
    ensures PromptsOk(log', from, t.prompts + [LastMessage(log)], now)
  {
    var u, w := LastMessage(log), Last(log, IsWake).value;
    assert log[u].at > log[w].at;
    NonNegative(t.cadence as real, ShortestInterval(p));
    assert u >= from;
    forall i | 0 <= i < |t.prompts| ensures t.prompts[i] < u && log'[t.prompts[i]].at <= now {
      assert log[t.prompts[i]].at <= log[w].at;
    }
    assert log'[u] == log[u];
  }

  lemma NonNegative(a: real, b: real)
    requires 0.0 <= a && 0.0 <= b
    ensures 0.0 <= a * b
  {
  }

  /** One more interval fits between the last wake and now. */
  lemma CadenceRoom(c: nat, x: real, wake: real, start: real, now: real)
    requires wake >= start + c as real * x && now - wake >= x
    ensures now >= start + (c + 1) as real * x
  {
    assert (c + 1) as real * x == c as real * x + x;
  }

  lemma ReopenTallied(p: Params, log: Log, t: Tally, from: nat, start: real)
    requires Tallied(p, log, t, from, start)
    ensures Tallied(p, log, t.(reopens := t.reopens + 1), from, start)
    ensures t.wakes > 0 ==> Tallied(p, log, t.(wakes := t.wakes + 1, reopens := t.reopens + 1), from, start)
  {
  }

  lemma FirstTallied(p: Params, log: Log, t: Tally, from: nat, start: real, now: real)
    requires Tallied(p, log, t, from, start) && t.wakes == 0 && WakeTime(log) == Some(now) && start <= now
    ensures Tallied(p, log, t.(wakes := 1), from, start)
  {
    assert 0 as real * ShortestInterval(p) == 0.0;
  }

  lemma PromptTallied(p: Params, log: Log, t: Tally, from: nat, start: real, u: nat, now: real)
    requires Tallied(p, log, t, from, start) && t.wakes > 0 && WakeTime(log) == Some(now)
    requires PromptsOk(log, from, t.prompts + [u], now)
    ensures Tallied(p, log, t.(wakes := t.wakes + 1, prompts := t.prompts + [u]), from, start)
  {
  }

  lemma CadenceTallied(p: Params, log: Log, t: Tally, from: nat, start: real, wake: real, now: real)
    requires Tallied(p, log, t, from, start) && t.wakes > 0 && WakeTime(log) == Some(now)
    requires wake >= start + t.cadence as real * ShortestInterval(p) && now - wake >= ShortestInterval(p)
    ensures Tallied(p, log, t.(wakes := t.wakes + 1, cadence := t.cadence + 1), from, start)
  {
    CadenceRoom(t.cadence, ShortestInterval(p), wake, start, now);
  }

  lemma {:induction false} BeatTallied(
    p: Params, m: Memory, b: Beaten, t: Tally, from: nat, start: real, before: real, now: real)
    requires Tallied(p, m.log, t, from, start) && UpTo(m.log, before) && start <= before <= now
    requires Grows(m.log, b.memory.log, now) && 0.0 <= ShortestInterval(p)
    requires b.woke ==>
               && (exists k :: |m.log| <= k < |b.memory.log| && IsWake(b.memory.log[k]))
               && (b.state == Waking || WakeTime(m.log).None? || Prompted(m.log)
                   || now - WakeTime(m.log).value >= ShortestInterval(p))
    ensures Tallied(p, b.memory.log, TallyBeat(t, m.log, b), from, start)
  {
    var log' := b.memory.log;
    UpToGrows(m.log, log', before, now);
    TalliedGrows(p, m.log, log', t, from, start);
    ReopenTallied(p, log', t, from, start);
    if b.woke {
      WakeTimeIsNow(m.log, log', now);
      if t.wakes == 0 {
        FirstTallied(p, log', t, from, start, now);
        ReopenTallied(p, log', t.(wakes := 1), from, start);
      } else if b.state != Waking {
        if Prompted(m.log) {
          NewPrompt(m.log, log', t, from, start, p, now);
          PromptTallied(p, log', t, from, start, LastMessage(m.log), now);
        } else {
          CadenceTallied(p, log', t, from, start, WakeTime(m.log).value, now);
        }
      }
    }
  }

  lemma StepTallied(p: Params, m: Memory, s: Step, t: Tally, from: nat, start: real, before: real)
    requires Synced(m) && Chained(m.log) && StepOk(m, s) && 0.0 <= ShortestInterval(p)
    requires Tallied(p, m.log, t, from, start) && UpTo(m.log, before) && start <= before <= TimeOf(s, before)
    ensures UpTo(Do(p, m, s).log, TimeOf(s, before))
    ensures Tallied(p, Do(p, m, s).log,
              if s.BeatAt? then TallyBeat(t, m.log, BeatOf(p, m, s.now, s.hour, s.eng)) else t, from, start)
  {
    match s {
      case BeatAt(now, hour, eng) =>
        var b := BeatOf(p, m, now, hour, eng);
        BeatKeeps(p, m, now, hour, eng);
        if b.woke { WokeForAReason(p, m, Assemble(m.log, now, hour, m.state), now, eng); }
        UpToGrows(m.log, b.memory.log, before, now);
        BeatTallied(p, m, b, t, from, start, before, now);
      case Others(now, drafts) =>
        WrittenKeeps(m.log, drafts, now);
        UpToGrows(m.log, Written(m.log, drafts, now), before, now);
        TalliedGrows(p, m.log, Written(m.log, drafts, now), t, from, start);
      case Restart =>
    }
  }

  lemma {:induction false} RunTallied(
    p: Params, m: Memory, steps: seq<Step>, t: Tally, from: nat, start: real, before: real)
    requires Synced(m) && Chained(m.log) && RunOk(p, m, steps) && Clocked(steps, before)
    requires 0.0 <= ShortestInterval(p)
    requires Tallied(p, m.log, t, from, start) && UpTo(m.log, before) && start <= before
    ensures Tallied(p, Final(p, m, steps).log, TallyRun(p, m, steps, t), from, start)
    ensures UpTo(Final(p, m, steps).log, EndTime(steps, before))
    decreases |steps|
  {
    if steps != [] {
      StepKeeps(p, m, steps[0]);
      StepTallied(p, m, steps[0], t, from, start, before);
      var t' := if steps[0].BeatAt?
                then TallyBeat(t, m.log, BeatOf(p, m, steps[0].now, steps[0].hour, steps[0].eng)) else t;
      RunTallied(p, Do(p, m, steps[0]), steps[1..], t', from, start, TimeOf(steps[0], before));
    }
  }

  // -------------------------------------------------------------- the bound

  /** The user messages that entered the log during the run. */
  ghost function MessagesSince(log: Log, from: nat): set<nat> {
    set k | from <= k < |log| && IsUser(log[k])
  }

  lemma DistinctFit(s: seq<nat>, all: set<nat>)
    requires forall i | 0 <= i < |s| :: s[i] in all
    requires forall i, j | 0 <= i < j < |s| :: s[i] < s[j]
    ensures |s| <= |all|
  {
    if s != [] {
      var n := |s| - 1;
      DistinctFit(s[..n], all - {s[n]});
    }
  }

  ghost predicate AnsweredOnce(prompts: seq<nat>, messages: set<nat>) {
    && (forall i | 0 <= i < |prompts| :: prompts[i] in messages)
    && (forall i, j | 0 <= i < j < |prompts| :: prompts[i] != prompts[j])
  }

  /** The messages answered by prompt wakes are all different and all of this run; the wakes beyond
      the first, the re-openings and the messages of the run, each lasting at least the shortest
      interval, fit into the elapsed time. */
  ghost predicate WithinBounds(p: Params, log: Log, t: Tally, from: nat, elapsed: real) {
    && AnsweredOnce(t.prompts, MessagesSince(log, from))
    && (t.wakes - 1 - t.reopens - |MessagesSince(log, from)|) as real * ShortestInterval(p) <= elapsed
  }

  lemma IntervalsFit(excess: int, cadence: nat, x: real, wake: real, start: real, end: real)
    requires excess <= cadence && 0.0 <= x && start + cadence as real * x <= wake <= end
    ensures excess as real * x <= end - start
  {
    ScaleMonotone(x, excess as real, cadence as real);
  }

  lemma TallyBounds(p: Params, log: Log, t: Tally, from: nat, start: real, end: real)
    requires Tallied(p, log, t, from, start) && UpTo(log, end) && start <= end && 0.0 <= ShortestInterval(p)
    ensures WithinBounds(p, log, t, from, end - start)
  {
    DistinctFit(t.prompts, MessagesSince(log, from));
    var wake := if t.wakes > 0 then WakeTime(log).value else start;
    assert t.wakes == 0 ==> t.cadence as real * ShortestInterval(p) == 0.0;
    var excess := t.wakes - 1 - t.reopens - |MessagesSince(log, from)|;
    IntervalsFit(excess, t.cadence, ShortestInterval(p), wake, start, end);
  }

  lemma NothingTallied(p: Params, log: Log, start: real)
    requires UpTo(log, start)
    ensures Tallied(p, log, Tally(0, 0, [], 0), |log|, start)
  {
  }

  /** The bound, over any run. */
  lemma {:induction false} WakesAreBounded(p: Params, m: Memory, steps: seq<Step>, start: real)
    requires Synced(m) && Chained(m.log) && RunOk(p, m, steps) && Clocked(steps, start)
    requires UpTo(m.log, start) && 0.0 <= ShortestInterval(p)
    ensures WithinBounds(p, Final(p, m, steps).log, TallyRun(p, m, steps, Tally(0, 0, [], 0)),
                         |m.log|, EndTime(steps, start) - start)
  {
    NothingTallied(p, m.log, start);
    RunTallied(p, m, steps, Tally(0, 0, [], 0), |m.log|, start, start);
    ClockAdvances(steps, start);
    TallyBounds(p, Final(p, m, steps).log, TallyRun(p, m, steps, Tally(0, 0, [], 0)), |m.log|, start,
                EndTime(steps, start));
  }

  lemma {:induction false} ClockAdvances(steps: seq<Step>, t: real)
    requires Clocked(steps, t)
    ensures t <= EndTime(steps, t)
    decreases |steps|
  {
    if steps != [] { ClockAdvances(steps[1..], TimeOf(steps[0], t)); }
  }

  /** The tally counts exactly the beats that completed a wake. */
  lemma {:induction false} TallyCountsWakes(p: Params, m: Memory, steps: seq<Step>, t: Tally)
    ensures TallyRun(p, m, steps, t).wakes == t.wakes + Completed(p, m, steps)
    decreases |steps|
  {
    if steps != [] {
      var t' := if steps[0].BeatAt?
                then TallyBeat(t, m.log, BeatOf(p, m, steps[0].now, steps[0].hour, steps[0].eng)) else t;
      TallyCountsWakes(p, Do(p, m, steps[0]), steps[1..], t');
    }
  }

  /** The final value of the orchestrator's wake counter, started at zero. */
  function Completed(p: Params, m: Memory, steps: seq<Step>): nat
    decreases |steps|
  {
    if steps == [] then 0
    else
      (if steps[0].BeatAt? && BeatOf(p, m, steps[0].now, steps[0].hour, steps[0].eng).woke then 1 else 0)
      + Completed(p, Do(p, m, steps[0]), steps[1..])
  }
}
