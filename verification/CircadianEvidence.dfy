/** What the circadian machine acts on, said of the events in the log (circadian.py): the evidence it reads, the
    state it decides from it, and when a beat calls the mind or the sleep engine. */
module CircadianEvidence {
  import opened Basics
  import opened EventLog
  import opened Circadian
  import opened CircadianMachine
  import opened WakeBound

  // ------------------------------------------------------------ newest times

  /** `t` is the time of the newest event that satisfies `p`. */
  ghost predicate NewestTime(log: Log, p: Event -> bool, t: real) {
    && (exists k :: 0 <= k < |log| && p(log[k]) && log[k].at == t)
    && (forall k | 0 <= k < |log| && p(log[k]) :: log[k].at <= t)
  }

  ghost predicate Never(log: Log, p: Event -> bool) {
    forall k | 0 <= k < |log| :: !p(log[k])
  }

  lemma NewestTimeSnoc(log: Log, e: Event, p: Event -> bool)
    requires TimeOrdered(log + [e]) && p(e)
    ensures NewestTime(log + [e], p, e.at)
  {
    assert (log + [e])[|log|] == e;
    assert forall k | 0 <= k < |log + [e]| :: (log + [e])[k].at <= (log + [e])[|log|].at;
  }

  lemma NewestTimeSkip(log: Log, e: Event, p: Event -> bool, t: real)
    requires !p(e)
    ensures NewestTime(log, p, t) ==> NewestTime(log + [e], p, t)
    ensures Never(log, p) ==> Never(log + [e], p)
  {
    if NewestTime(log, p, t) {
      var k :| 0 <= k < |log| && p(log[k]) && log[k].at == t;
      assert (log + [e])[k] == log[k];
    }
  }

  ghost predicate IsNewest(log: Log, p: Event -> bool, t: Option<real>) {
    if t.None? then Never(log, p) else NewestTime(log, p, t.value)
  }

  /** One more event: its time is the newest if it satisfies `p`, otherwise nothing changes. */
  lemma NewestAfter(log: Log, e: Event, p: Event -> bool, t: Option<real>)
    requires TimeOrdered(log + [e]) && (p(e) || IsNewest(log, p, t))
    ensures IsNewest(log + [e], p, if p(e) then Some(e.at) else t)
  {
    if p(e) {
      NewestTimeSnoc(log, e, p);
    } else {
      NewestTimeSkip(log, e, p, if t.Some? then t.value else 0.0);
    }
  }

  lemma {:induction false} LatestIsBefore(log: Log, p: Event -> bool, rows: nat, at: real)
    requires forall k | 0 <= k < |log| :: log[k].at <= at
    ensures Later(Some(at), LatestOf(log, p, rows)) == Some(at)
  {
    if log != [] && rows > 0 {
      LatestIsBefore(log[..|log| - 1], p, if p(log[|log| - 1]) then rows - 1 else rows, at);
    }
  }

  /** On an ordered log the row limit of such a read does not matter. */
  lemma {:induction false} LatestIsNewest(log: Log, p: Event -> bool, rows: nat)
    requires TimeOrdered(log) && rows > 0
    ensures IsNewest(log, p, LatestOf(log, p, rows))
    decreases |log|
  {
    if log != [] {
      var front, e := log[..|log| - 1], log[|log| - 1];
      assert log == front + [e];
      if p(e) {
        LatestIsBefore(front, p, rows - 1, e.at);
      } else {
        LatestIsNewest(front, p, rows);
      }
      NewestAfter(front, e, p, LatestOf(front, p, rows));
    }
  }

  // ------------------------------------------------------------ the evidence

  /** `s` is the time since the newest event that satisfies `p`; thirty days stand for never. */
  ghost predicate Since(log: Log, now: real, p: Event -> bool, s: real) {
    if Never(log, p) then s == 30.0 * 86400.0 else NewestTime(log, p, now - s)
  }

  lemma SinceIs(log: Log, now: real, p: Event -> bool)
    requires UpTo(log, now)
    ensures Since(log, now, p, Elapsed(LatestOf(log, p, 200), now))
  {
    LatestIsNewest(log, p, 200);
  }

  function External(): Event -> bool {
    (e: Event) => e.body.UserMessage? || e.body.ExperienceCreated?
  }

  lemma LaterIsNewest(log: Log, a: Option<real>, b: Option<real>)
    requires IsNewest(log, IsUser, a) && IsNewest(log, IsExperience, b)
    ensures IsNewest(log, External(), Later(a, b))
  {
    if a.Some? {
      var k :| 0 <= k < |log| && IsUser(log[k]) && log[k].at == a.value;
      assert External()(log[k]);
    }
    if b.Some? {
      var k :| 0 <= k < |log| && IsExperience(log[k]) && log[k].at == b.value;
      assert External()(log[k]);
    }
  }

  /** The silences of the user, of the outside and of the sleep engine. */
  lemma SilencesRead(log: Log, now: real, hour: real, current: Rhythm)
    requires UpTo(log, now)
    ensures var ev := Assemble(log, now, hour, current);
            && Since(log, now, (e: Event) => e.body.UserMessage?, ev.sinceUser)
            && Since(log, now, (e: Event) => e.body.UserMessage? || e.body.ExperienceCreated?, ev.sinceExternal)
            && Since(log, now, (e: Event) => e.body.SleepCompleted?, ev.sinceConsolidation)
            && ev.hour == hour && ev.current == current
  {
    SinceIs(log, now, IsUser);
    SinceIs(log, now, IsSleepCompleted);
    LatestIsNewest(log, IsUser, 200);
    LatestIsNewest(log, IsExperience, 200);
    LaterIsNewest(log, LatestOf(log, IsUser, 200), LatestOf(log, IsExperience, 200));
    SameSince(log, now, IsUser, (e: Event) => e.body.UserMessage?);
    SameSince(log, now, IsSleepCompleted, (e: Event) => e.body.SleepCompleted?);
    SameSince(log, now, External(), (e: Event) => e.body.UserMessage? || e.body.ExperienceCreated?);
  }

  lemma SameSince(log: Log, now: real, p: Event -> bool, q: Event -> bool)
    requires forall e :: p(e) <==> q(e)
    ensures forall s :: Since(log, now, p, s) ==> Since(log, now, q, s)
  {
  }

  predicate OfRuntime(b: Body) {
    b.WakeStarted? || b.SleepStarted? || b.SleepCompleted? || b.StateChanged?
  }

  predicate BeginsDifferently(t: string, f: string) {
    |t| > 1 && |f| > 1 && (t[0] != f[0] || t[1] != f[1])
  }

  lemma NoRuntimeType(b: Body, i: nat)
    requires !b.Other? && !OfRuntime(b) && i < |RUNTIME|
    ensures BeginsDifferently(TypeName(b), RUNTIME[i])
  {
    assert RUNTIME[i][0] in ['w', 's', 'r', 't', 'c'];
  }

  lemma RuntimeType(b: Body)
    requires OfRuntime(b)
    ensures exists i | 0 <= i < |RUNTIME| :: RUNTIME[i] <= TypeName(b)
  {
    assert "wake." <= "wake.started" && "sleep." <= "sleep.started";
    assert "sleep." <= "sleep.completed" && "circadian." <= "circadian.state_changed";
    assert RUNTIME[0] == "wake." && RUNTIME[1] == "sleep." && RUNTIME[4] == "circadian.";
  }

  /** What does not count as activity: what is hidden, and the runtime's own brackets. */
  lemma BookkeepingIs(e: Event)
    requires !e.body.Other?
    ensures Bookkeeping(e) <==> e.system || OfRuntime(e.body)
  {
    if OfRuntime(e.body) {
      RuntimeType(e.body);
    } else {
      forall i | 0 <= i < |RUNTIME| ensures !(RUNTIME[i] <= TypeName(e.body)) {
        NoRuntimeType(e.body, i);
      }
    }
  }

  /** `k` is the newest of the last 300 events that is not bookkeeping. */
  ghost predicate NewestActivity(log: Log, k: int) {
    && 0 <= k < |log| && |log| - 300 <= k && !Bookkeeping(log[k])
    && forall j | k < j < |log| :: Bookkeeping(log[j])
  }

  lemma {:induction false} MeaningfulIs(log: Log, rows: nat)
    ensures var t := NewestMeaningful(log, rows);
            if t.None? then forall k | 0 <= k < |log| && |log| - rows <= k :: Bookkeeping(log[k])
            else exists k :: && 0 <= k < |log| && |log| - rows <= k && !Bookkeeping(log[k]) && t.value == log[k].at
                             && forall j | k < j < |log| :: Bookkeeping(log[j])
    decreases |log|
  {
    if log != [] && rows > 0 {
      var front, e := log[..|log| - 1], log[|log| - 1];
      assert log == front + [e];
      if !Bookkeeping(e) {
        assert log[|log| - 1] == e;
      } else {
        MeaningfulIs(front, rows - 1);
        assert forall k | 0 <= k < |front| :: front[k] == log[k];
      }
    }
  }

  /** The silence of the mind as a whole. */
  lemma ActivityRead(log: Log, now: real, hour: real, current: Rhythm)
    requires UpTo(log, now)
    ensures var s := Assemble(log, now, hour, current).sinceMeaningful;
            if exists k :: NewestActivity(log, k) then exists k :: NewestActivity(log, k) && s == now - log[k].at
            else s == 30.0 * 86400.0
  {
    MeaningfulIs(log, 300);
    var t := NewestMeaningful(log, 300);
    if t.Some? {
      var k :| && 0 <= k < |log| && |log| - 300 <= k && !Bookkeeping(log[k]) && t.value == log[k].at
               && forall j | k < j < |log| :: Bookkeeping(log[j]);
      assert NewestActivity(log, k);
    }
  }

  function WakeFrom(from: real): Event -> bool {
    (e: Event) => e.body.WakeStarted? && e.at >= from
  }

  lemma {:induction false} NoneFrom(log: Log, from: real)
    requires forall k | 0 <= k < |log| :: log[k].at < from
    ensures CountFrom(log, 0, WakeFrom(from)) == 0
  {
    if log != [] {
      NoneFrom(log[..|log| - 1], from);
    }
  }

  lemma {:induction false} RecentIs(log: Log, rows: nat, from: real)
    requires TimeOrdered(log)
    ensures var n := CountFrom(log, 0, WakeFrom(from)); WakesSince(log, rows, from) == if n <= rows then n else rows
    decreases |log|
  {
    if log != [] {
      var front, e := log[..|log| - 1], log[|log| - 1];
      assert log == front + [e];
      CountFromAppend(front, e, 0, WakeFrom(from));
      if rows > 0 {
        RecentIs(front, if IsWake(e) then rows - 1 else rows, from);
      }
      if e.at < from {
        NoneFrom(front, from);
      }
    }
  }

  /** The recent wakes are those of the last six hours, five hundred at most. */
  lemma WakesRead(log: Log, now: real, hour: real, current: Rhythm)
    requires TimeOrdered(log)
    ensures var n := CountFrom(log, 0, (e: Event) => e.body.WakeStarted? && e.at >= now - 6.0 * 3600.0);
            Assemble(log, now, hour, current).recentWakes == if n <= 500 then n else 500
  {
    RecentIs(log, 500, now - WAKE_DENSITY_WINDOW);
    SameCount(log, WakeFrom(now - WAKE_DENSITY_WINDOW),
              (e: Event) => e.body.WakeStarted? && e.at >= now - 6.0 * 3600.0);
  }

  lemma {:induction false} SameCount(log: Log, p: Event -> bool, q: Event -> bool)
    requires forall e :: p(e) <==> q(e)
    ensures CountFrom(log, 0, p) == CountFrom(log, 0, q)
  {
    if log != [] {
      SameCount(log[..|log| - 1], p, q);
    }
  }

  // ------------------------------------------------------------ the decision

  /** The share of a threshold that night and tiredness leave. */
  function Share(p: Params, ev: Evidence): real {
    var density := Max(p.wakeDensityFull, 0.000000001);
    var tired := Max(0.0, Min(1.0, ev.recentWakes as real / density));
    1.0 - Min(0.45, (if InWindow(ev.hour, p.nightWindow) then p.nightBias else 0.0) + 0.10 * tired)
  }

  /** How long the user must be silent before full sleep. */
  function SilenceForSleep(p: Params, ev: Evidence): real {
    var extra := ev.activeThreads as int - p.maxActiveForSleep;
    p.sleepAfter * Share(p, ev) * (1.0 + 0.25 * (if extra > 0 then extra else 0) as real)
  }

  /** Each state with all that must hold for a waking machine to be put there; the four exclude each other and one
      always applies. */
  lemma AwakeDecision(p: Params, ev: Evidence)
    requires !AsleepState(ev.current) && !ev.current.Waking?
    ensures var up := ev.sinceUser < p.activeUser || InWindow(ev.hour, p.wakeWindow);
            var sleepy, busy := ev.sinceUser >= SilenceForSleep(p, ev), ev.sinceMeaningful < p.activeMeaningful;
            var drowsy, quiet := ev.sinceUser >= p.drowsyAfter * Share(p, ev),
              ev.sinceUser >= p.quietAfter * Share(p, ev);
            && (Decide(p, ev).Asleep? <==> !up && sleepy)
            && (Decide(p, ev).Drowsy? <==> !up && !sleepy && !busy && drowsy)
            && (Decide(p, ev).Quiet? <==> !up && !sleepy && !busy && !drowsy && quiet)
            && (Decide(p, ev).Active? <==> up || (!sleepy && (busy || (!drowsy && !quiet))))
  {
    assert Kept(p, ev) == Share(p, ev);
    assert SleepThreshold(p, ev) == SilenceForSleep(p, ev);
  }

  /** A sleeping machine wakes for the user, for the outside and for the morning; a waking one is active next. */
  lemma AsleepDecision(p: Params, ev: Evidence)
    ensures ev.current.Asleep? || ev.current.Consolidating? ==>
              Decide(p, ev) == if || ev.sinceUser < p.activeUser || ev.sinceExternal < p.activeMeaningful
                                  || InWindow(ev.hour, p.wakeWindow)
                               then Waking else Asleep
    ensures ev.current.Waking? ==> Decide(p, ev).Active?
  {
  }

  /** From one hour of the day on to the next time it is another. */
  function Ahead(from: real, to: real): real {
    if from <= to then to - from else to - from + 24.0
  }

  /** An hour lies in a window, across midnight or not, if it comes before the window's end when one goes on from the
      window's start. */
  lemma InWindowIs(hour: real, w: Window)
    requires 0.0 <= hour < 24.0 && 0.0 <= w.start < 24.0 && 0.0 <= w.end < 24.0
    ensures InWindow(hour, w) <==> Ahead(w.start, hour) < Ahead(w.start, w.end)
  {
  }

  // ------------------------------------------------------- when a beat calls

  /** A beat that calls the mind completes a wake or raises in it. */
  predicate CallsMind(b: Beaten) {
    b.woke || b.action.WakeRaised?
  }

  predicate CallsSleep(b: Beaten) {
    b.action.Consolidated? || b.action.SleepRaised?
  }

  /** A user message later than every wake. */
  ghost predicate Unanswered(log: Log, u: nat) {
    && u < |log| && log[u].body.UserMessage?
    && forall k | 0 <= k < |log| && log[k].body.WakeStarted? :: log[k].at < log[u].at
  }

  /** Every wake lies at least `interval` back; in particular, if there was none. */
  ghost predicate WakesLieBack(log: Log, now: real, interval: real) {
    forall k | 0 <= k < |log| && log[k].body.WakeStarted? :: now - log[k].at >= interval
  }

  lemma DueIs(p: Params, log: Log, now: real, state: Rhythm)
    requires TimeOrdered(log)
    ensures WakeDue(p, log, now, state)
            <==> (exists u: nat :: Unanswered(log, u)) || WakesLieBack(log, now, WakeInterval(p, state))
  {
    var wake, user := Last(log, IsWake), Last(log, IsUser);
    if wake.None? {
      assert WakesLieBack(log, now, WakeInterval(p, state));
    } else {
      assert log[wake.value].body.WakeStarted?;
      assert forall k | 0 <= k < |log| && IsWake(log[k]) :: log[k].at <= log[wake.value].at;
      if FreshMessage(log, wake.value) {
        assert Unanswered(log, user.value);
      }
      if u: nat :| Unanswered(log, u) {
        assert IsUser(log[u]) && log[u].at <= log[user.value].at;
      }
    }
  }

  lemma AwakeCalls(m: Memory, state: Rhythm, due: bool, eng: Engines, now: real)
    ensures var b := AwakeTurn(m, state, due, eng, now); (CallsMind(b) <==> due) && !CallsSleep(b)
  {
  }

  lemma AsleepCalls(m: Memory, state: Rhythm, due: bool, eng: Engines, now: real)
    ensures var b := SleepTurn(m, state, due, eng, now); (CallsSleep(b) <==> due) && !CallsMind(b)
  {
  }

  lemma DueAfterMove(p: Params, m: Memory, to: Rhythm, now: real)
    ensures WakeDue(p, Moved(m, to, now).log, now, to) <==> WakeDue(p, m.log, now, to)
  {
    MovedKeepsLast(m, to, now);
    var wake, user := Last(m.log, IsWake), Last(m.log, IsUser);
    var log' := Moved(m, to, now).log;
    assert wake.Some? ==> log'[wake.value] == m.log[wake.value];
    assert user.Some? ==> log'[user.value] == m.log[user.value];
  }

  /** An awake beat calls the mind exactly if some user message is later than every wake, or every wake lies at least
      the interval of its state back. */
  lemma WakesExactlyWhenDue(p: Params, m: Memory, now: real, hour: real, eng: Engines)
    requires TimeOrdered(m.log)
    ensures var b := BeatOf(p, m, now, hour, eng);
            && (b.state.Waking? ==> CallsMind(b))
            && (b.state.Active? || b.state.Quiet? || b.state.Drowsy? ==>
                  (CallsMind(b) <==>
                     || (exists u: nat :: Unanswered(m.log, u))
                     || WakesLieBack(m.log, now, if b.state.Quiet? then p.quietWakeInterval
                                                 else if b.state.Drowsy? then p.drowsyWakeInterval
                                                 else p.activeWakeInterval)))
            && (b.state.Asleep? || b.state.Consolidating? ==> !CallsMind(b))
  {
    var ev := Assemble(m.log, now, hour, m.state);
    var state := Decide(p, ev);
    var m1 := Moved(m, state, now);
    DueAfterMove(p, m, state, now);
    DueIs(p, m.log, now, state);
    AwakeCalls(m1, state, state == Waking || WakeDue(p, m1.log, now, state), eng, now);
    AsleepCalls(m1, state, ConsolidationDue(p, ev), eng, now);
  }

  /** Every completed sleep lies at least `interval` back; in particular, if there was none. */
  ghost predicate SleepsLieBack(log: Log, now: real, interval: real) {
    forall k | 0 <= k < |log| && log[k].body.SleepCompleted? :: now - log[k].at >= interval
  }

  lemma ConsolidationDueIs(p: Params, m: Memory, now: real, hour: real)
    requires UpTo(m.log, now)
    ensures ConsolidationDue(p, Assemble(m.log, now, hour, m.state))
            <==> SleepsLieBack(m.log, now, Min(p.consolidationInterval, 30.0 * 86400.0))
  {
    var latest := LatestOf(m.log, IsSleepCompleted, 200);
    LatestIsNewest(m.log, IsSleepCompleted, 200);
    if latest.Some? {
      var k :| 0 <= k < |m.log| && IsSleepCompleted(m.log[k]) && m.log[k].at == latest.value;
      assert m.log[k].body.SleepCompleted?;
    }
  }

  /** A beat consolidates exactly if it finds the machine asleep and every completed sleep at least the consolidation
      interval back, or thirty days if that is shorter. */
  lemma ConsolidatesExactlyWhenDue(p: Params, m: Memory, now: real, hour: real, eng: Engines)
    requires UpTo(m.log, now)
    ensures var b := BeatOf(p, m, now, hour, eng);
            CallsSleep(b) <==>
              && (b.state.Asleep? || b.state.Consolidating?)
              && SleepsLieBack(m.log, now, Min(p.consolidationInterval, 30.0 * 86400.0))
  {
    var ev := Assemble(m.log, now, hour, m.state);
    var state := Decide(p, ev);
    var m1 := Moved(m, state, now);
    ConsolidationDueIs(p, m, now, hour);
    AwakeCalls(m1, state, state == Waking || WakeDue(p, m1.log, now, state), eng, now);
    AsleepCalls(m1, state, ConsolidationDue(p, ev), eng, now);
  }
}
