/** Whole runs of the circadian life (circadian.py): beats, other writers and restarts in any order.
    What every run keeps, that restarts are invisible, and how many wakes a run can take. */
module CircadianLife {
  import opened EventLog
  import opened Circadian
  import opened CircadianMachine

  // ------------------------------------------------------------------- runs

  datatype Step =
    | BeatAt(now: real, hour: real, eng: Engines)
    | Others(now: real, drafts: seq<Event>)   // user messages, experiences, anything but state changes
    | Restart

  predicate Timely(log: Log, now: real) {
    log != [] ==> log[|log| - 1].at <= now
  }

  /** Time does not run backwards, and only the machine writes state changes. */
  predicate StepOk(m: Memory, s: Step) {
    match s
    case BeatAt(now, _, eng) => Timely(m.log, now) && EnginesKeepOut(eng)
    case Others(now, drafts) => Timely(m.log, now) && KeepsOut(drafts)
    case Restart => true
  }

  function Do(p: Params, m: Memory, s: Step): Memory {
    match s
    case BeatAt(now, hour, eng) => BeatOf(p, m, now, hour, eng).memory
    case Others(now, drafts) => m.(log := Written(m.log, drafts, now))
    case Restart => m.(state := Recorded(m.log))
  }

  predicate RunOk(p: Params, m: Memory, steps: seq<Step>)
    decreases |steps|
  {
    steps == [] || (StepOk(m, steps[0]) && RunOk(p, Do(p, m, steps[0]), steps[1..]))
  }

  /** What the beats of a run decided and did, in order. */
  function Outcomes(p: Params, m: Memory, steps: seq<Step>): seq<(Rhythm, Action)>
    decreases |steps|
  {
    if steps == [] then [] else
      var rest := Outcomes(p, Do(p, m, steps[0]), steps[1..]);
      if steps[0].BeatAt? then
        var b := BeatOf(p, m, steps[0].now, steps[0].hour, steps[0].eng);
        [(b.state, b.action)] + rest
      else rest
  }

  function Final(p: Params, m: Memory, steps: seq<Step>): Memory
    decreases |steps|
  {
    if steps == [] then m else Final(p, Do(p, m, steps[0]), steps[1..])
  }

  // -------------------------------------------------------- what a step keeps

  /** The machine remembers what the log records. */
  predicate Synced(m: Memory) {
    m.state == Recorded(m.log)
  }

  /** The transitions of the machine. Waking is entered only from sleep and left only for ACTIVE. */
  predicate Legal(from: Rhythm, to: Rhythm) {
    match from
    case Asleep => to == Consolidating || to == Waking
    case Consolidating => to == Asleep || to == Waking
    case Waking => to == Active
    case _ => from != to && (Awake(to) || to == Asleep)
  }

  /** The recorded changes form one chain of legal transitions starting in ACTIVE. */
  ghost predicate Chained(log: Log) {
    forall k {:trigger log[k]} | 0 <= k < |log| && IsChange(log[k]) ::
      log[k].body.from == Recorded(log[..k]) && Legal(log[k].body.from, log[k].body.to)
  }

  ghost predicate Grows(log: Log, log': Log, now: real) {
    log <= log' && forall k {:trigger log'[k]} | |log| <= k < |log'| :: log'[k].at == now
  }

  lemma ChainedAppend(log: Log, e: Event)
    requires Chained(log)
    requires IsChange(e) ==> e.body.from == Recorded(log) && Legal(e.body.from, e.body.to)
    ensures Chained(log + [e])
  {
    var log' := log + [e];
    forall k | 0 <= k < |log'| && IsChange(log'[k])
      ensures log'[k].body.from == Recorded(log'[..k]) && Legal(log'[k].body.from, log'[k].body.to)
    {
      if k < |log| { assert log'[..k] == log[..k] && log'[k] == log[k]; } else { assert log'[..k] == log; }
    }
  }

  lemma {:induction false} WrittenKeeps(log: Log, drafts: seq<Event>, now: real)
    requires KeepsOut(drafts) && Chained(log)
    ensures Chained(Written(log, drafts, now)) && Grows(log, Written(log, drafts, now), now)
    ensures Recorded(Written(log, drafts, now)) == Recorded(log)
    decreases |drafts|
  {
    if drafts != [] && LinksResolve(log, drafts[0]) {
      ChainedAppend(log, Stamped(drafts[0], now));
      RecordedAfter(log, Stamped(drafts[0], now));
      WrittenKeeps(log + [Stamped(drafts[0], now)], drafts[1..], now);
    }
  }

  lemma MovedKeeps(m: Memory, to: Rhythm, now: real)
    requires Synced(m) && Chained(m.log) && (m.state == to || Legal(m.state, to))
    ensures var m' := Moved(m, to, now);
            Synced(m') && m'.state == to && Chained(m'.log) && Grows(m.log, m'.log, now)
  {
    if m.state != to {
      var e := Stamped(Change(m.log, m.state, to), now);
      ChainedAppend(m.log, e);
      RecordedAfter(m.log, e);
    }
  }

  lemma DecisionIsLegal(p: Params, ev: Evidence)
    ensures ev.current == Decide(p, ev) || (ev.current == Consolidating && Decide(p, ev) == Asleep)
            || Legal(ev.current, Decide(p, ev))
    ensures Decide(p, ev) != Consolidating
    ensures ev.current == Waking ==> Decide(p, ev) == Active
    ensures Decide(p, ev) == Waking <==> AsleepState(ev.current) && WakeTrigger(p, ev)
  {
  }

  ghost predicate Keeps(m: Memory, m': Memory, now: real) {
    Synced(m') && Chained(m'.log) && Grows(m.log, m'.log, now)
  }

  lemma GrowsOn(a: Log, b: Log, c: Log, now: real)
    requires Grows(a, b, now) && Grows(b, c, now)
    ensures Grows(a, c, now)
  {
    forall k | |a| <= k < |c| ensures c[k].at == now {
      if k < |b| { assert c[k] == b[k]; }
    }
  }

  lemma MovedAfterKeeps(m: Memory, m': Memory, to: Rhythm, now: real)
    requires Synced(m') && Chained(m'.log) && Grows(m.log, m'.log, now) && (m'.state == to || Legal(m'.state, to))
    ensures Keeps(m, Moved(m', to, now), now)
  {
    MovedKeeps(m', to, now);
    GrowsOn(m.log, m'.log, Moved(m', to, now).log, now);
  }

  lemma NightWrites(m: Memory, eng: Engines, now: real)
    requires Synced(m) && Chained(m.log) && EnginesKeepOut(eng)
    ensures Keeps(m, m.(log := Written(m.log, eng.sleepWrites, now)), now)
  {
    WrittenKeeps(m.log, eng.sleepWrites, now);
  }

  lemma NightEnds(m: Memory, m': Memory, state: Rhythm, eng: Engines, now: real)
    requires Keeps(m, m', now) && m'.state == Consolidating
    requires m' == m.(log := Written(m.log, eng.sleepWrites, now))
    ensures Keeps(m, NightTurn(m, state, eng, now).memory, now)
  {
    if !SleepFails(m.log, eng, now) {
      MovedAfterKeeps(m, m', Asleep, now);
    }
  }

  lemma NightKeeps(m: Memory, state: Rhythm, eng: Engines, now: real)
    requires Synced(m) && Chained(m.log) && m.state == Consolidating && EnginesKeepOut(eng)
    ensures Keeps(m, NightTurn(m, state, eng, now).memory, now)
  {
    NightWrites(m, eng, now);
    NightEnds(m, m.(log := Written(m.log, eng.sleepWrites, now)), state, eng, now);
  }

  lemma AwakeKeeps(m: Memory, state: Rhythm, due: bool, eng: Engines, now: real)
    requires Synced(m) && Chained(m.log) && EnginesKeepOut(eng)
    ensures Keeps(m, AwakeTurn(m, state, due, eng, now).memory, now)
  {
    var mid := if due then m.(log := Written(m.log, WakeDrafts(eng), now)) else m;
    WrittenKeeps(m.log, WakeDrafts(eng), now);
    WrittenKeeps(mid.log, eng.worldWrites, now);
    GrowsOn(m.log, mid.log, Written(mid.log, eng.worldWrites, now), now);
  }

  lemma TurnKeeps(p: Params, m: Memory, state: Rhythm, ev: Evidence, now: real, eng: Engines)
    requires Synced(m) && Chained(m.log) && EnginesKeepOut(eng) && m.state == state && state != Consolidating
    ensures Keeps(m, Turn(p, m, state, ev, now, eng).memory, now)
  {
    if AsleepState(state) {
      if ConsolidationDue(p, ev) {
        var m' := Moved(m, Consolidating, now);
        MovedKeeps(m, Consolidating, now);
        NightKeeps(m', state, eng, now);
        GrowsOn(m.log, m'.log, NightTurn(m', state, eng, now).memory.log, now);
      }
    } else {
      AwakeKeeps(m, state, state == Waking || WakeDue(p, m.log, now, state), eng, now);
    }
  }

  lemma BeatKeeps(p: Params, m: Memory, now: real, hour: real, eng: Engines)
    requires Synced(m) && Chained(m.log) && EnginesKeepOut(eng)
    ensures Keeps(m, BeatOf(p, m, now, hour, eng).memory, now)
  {
    var ev := Assemble(m.log, now, hour, m.state);
    BeatOnKeeps(p, m, ev, now, eng);
  }

  lemma BeatOnKeeps(p: Params, m: Memory, ev: Evidence, now: real, eng: Engines)
    requires Synced(m) && Chained(m.log) && EnginesKeepOut(eng) && ev.current == m.state
    ensures Keeps(m, BeatOn(p, m, ev, now, eng).memory, now)
  {
    var state := Decide(p, ev);
    DecisionIsLegal(p, ev);
    var m' := Moved(m, state, now);
    MovedKeeps(m, state, now);
    TurnKeeps(p, m', state, ev, now, eng);
    GrowsOn(m.log, m'.log, Turn(p, m', state, ev, now, eng).memory.log, now);
  }

  lemma StepKeeps(p: Params, m: Memory, s: Step)
    requires Synced(m) && Chained(m.log) && StepOk(m, s)
    ensures Synced(Do(p, m, s)) && Chained(Do(p, m, s).log) && m.log <= Do(p, m, s).log
  {
    match s {
      case BeatAt(now, hour, eng) => BeatKeeps(p, m, now, hour, eng);
      case Others(now, drafts) => WrittenKeeps(m.log, drafts, now);
      case Restart =>
    }
  }

  // --------------------------------------------------------------- main runs

  /** Over every run the memory agrees with the log and the recorded changes stay one legal chain. */
  lemma {:induction false} RunKeeps(p: Params, m: Memory, steps: seq<Step>)
    requires Synced(m) && Chained(m.log) && RunOk(p, m, steps)
    ensures Synced(Final(p, m, steps)) && Chained(Final(p, m, steps).log) && m.log <= Final(p, m, steps).log
    decreases |steps|
  {
    if steps != [] {
      StepKeeps(p, m, steps[0]);
      RunKeeps(p, Do(p, m, steps[0]), steps[1..]);
    }
  }

  function WithoutRestarts(steps: seq<Step>): seq<Step> {
    if steps == [] then []
    else (if steps[0].Restart? then [] else [steps[0]]) + WithoutRestarts(steps[1..])
  }

  /** Restarts anywhere in a run, also after a consolidation that raised, change no decision, no
      action and no event. */
  lemma {:induction false} RestartsAreInvisible(p: Params, m: Memory, steps: seq<Step>)
    requires Synced(m) && Chained(m.log) && RunOk(p, m, steps)
    ensures RunOk(p, m, WithoutRestarts(steps))
    ensures Outcomes(p, m, steps) == Outcomes(p, m, WithoutRestarts(steps))
    ensures Final(p, m, steps) == Final(p, m, WithoutRestarts(steps))
    decreases |steps|
  {
    if steps != [] {
      StepKeeps(p, m, steps[0]);
      RestartsAreInvisible(p, Do(p, m, steps[0]), steps[1..]);
      if steps[0].Restart? {
        assert WithoutRestarts(steps) == WithoutRestarts(steps[1..]);
      } else {
        var without := [steps[0]] + WithoutRestarts(steps[1..]);
        assert without[1..] == WithoutRestarts(steps[1..]);
      }
    }
  }

  /** In a legal chain two successive changes meet: the second leaves the state the first entered. */
  lemma SuccessiveChangesMeet(log: Log, j: nat, k: nat)
    requires Chained(log) && j < k < |log| && IsChange(log[j]) && IsChange(log[k])
    requires forall i | j < i < k :: !IsChange(log[i])
    ensures log[k].body.from == log[j].body.to && log[k].body.to != log[j].body.to
  {
    assert log[..k][j] == log[j];
    assert Last(log[..k], IsChange) == Some(j);
  }

  // ----------------------------------------------------------------- waking

  lemma BeatState(p: Params, m: Memory, now: real, hour: real, eng: Engines)
    requires Synced(m)
    ensures var b := BeatOf(p, m, now, hour, eng);
            && b.state == Decide(p, Assemble(m.log, now, hour, m.state))
            && (b.state == Waking ==> b.memory.state == Waking && AsleepState(m.state))
            && (m.state == Waking ==> b.state == Active)
  {
  }

  /** The first beat after waking is ACTIVE, whatever happens in between. */
  lemma {:induction false} FirstBeatAfterWaking(p: Params, m: Memory, steps: seq<Step>)
    requires Synced(m) && Chained(m.log) && RunOk(p, m, steps) && m.state == Waking
    ensures Outcomes(p, m, steps) != [] ==> Outcomes(p, m, steps)[0].0 == Active
    decreases |steps|
  {
    if steps != [] {
      StepKeeps(p, m, steps[0]);
      match steps[0] {
        case BeatAt(now, hour, eng) => BeatState(p, m, now, hour, eng);
        case Others(now, drafts) =>
          WrittenKeeps(m.log, drafts, now);
          FirstBeatAfterWaking(p, Do(p, m, steps[0]), steps[1..]);
        case Restart => FirstBeatAfterWaking(p, Do(p, m, steps[0]), steps[1..]);
      }
    }
  }

  lemma WakingFirst(p: Params, m: Memory, steps: seq<Step>)
    requires Synced(m) && Chained(m.log) && RunOk(p, m, steps) && steps != [] && steps[0].BeatAt?
    requires |Outcomes(p, m, steps)| > 1 && Outcomes(p, m, steps)[0].0 == Waking
    ensures Outcomes(p, m, steps)[1].0 == Active
  {
    StepKeeps(p, m, steps[0]);
    BeatState(p, m, steps[0].now, steps[0].hour, steps[0].eng);
    FirstBeatAfterWaking(p, Do(p, m, steps[0]), steps[1..]);
  }

  lemma OutcomesShift(p: Params, m: Memory, steps: seq<Step>, m': Memory, rest: seq<Step>, i: nat, j: nat)
    requires steps != [] && m' == Do(p, m, steps[0]) && rest == steps[1..]
    requires i == (if steps[0].BeatAt? then j + 1 else j) && i < |Outcomes(p, m, steps)|
    ensures j < |Outcomes(p, m', rest)| && Outcomes(p, m, steps)[i] == Outcomes(p, m', rest)[j]
  {
  }

  /** In every run a WAKE beat is followed by an ACTIVE beat. */
  lemma {:induction false} WakingThenActive(p: Params, m: Memory, steps: seq<Step>, i: nat)
    requires Synced(m) && Chained(m.log) && RunOk(p, m, steps)
    requires i + 1 < |Outcomes(p, m, steps)| && Outcomes(p, m, steps)[i].0 == Waking
    ensures Outcomes(p, m, steps)[i + 1].0 == Active
    decreases |steps|, 1
  {
    if steps[0].BeatAt? && i == 0 {
      WakingFirst(p, m, steps);
    } else {
      var m', rest, j := Do(p, m, steps[0]), steps[1..], if steps[0].BeatAt? then i - 1 else i;
      StepKeeps(p, m, steps[0]);
      OutcomesShift(p, m, steps, m', rest, i, j);
      WakingLater(p, m, steps, m', rest, i, j);
    }
  }

  /** The pair of beats lies in the rest of the run. */
  lemma {:induction false} WakingLater(
    p: Params, m: Memory, steps: seq<Step>, m': Memory, rest: seq<Step>, i: nat, j: nat)
    requires Synced(m') && Chained(m'.log) && RunOk(p, m', rest) && steps != []
    requires m' == Do(p, m, steps[0]) && rest == steps[1..] && i == (if steps[0].BeatAt? then j + 1 else j)
    requires i + 1 < |Outcomes(p, m, steps)| && j < |Outcomes(p, m', rest)| && Outcomes(p, m', rest)[j].0 == Waking
    ensures Outcomes(p, m, steps)[i + 1].0 == Active
    decreases |steps|, 0
  {
    OutcomesShift(p, m, steps, m', rest, i + 1, j + 1);
    WakingThenActive(p, m', rest, j);
  }

  // ---------------------------------------------------------- a stable night

  predicate IsExternal(e: Event) {
    IsUser(e) || IsExperience(e)
  }

  predicate NoExternal(drafts: seq<Event>) {
    forall i | 0 <= i < |drafts| :: !IsExternal(drafts[i])
  }

  /** The longer of the two windows in which outside activity can wake the machine. */
  function Reach(p: Params): real {
    if p.activeUser >= p.activeMeaningful then p.activeUser else p.activeMeaningful
  }

  /** No user message or experience happened after `t`. */
  ghost predicate SilentSince(log: Log, t: real) {
    forall k {:trigger log[k]} | 0 <= k < |log| && IsExternal(log[k]) :: log[k].at <= t
  }

  /** A night with nobody about: beats outside the wake window, at least `Reach` after `t`, and neither the sleep
      engine nor anyone else writes a message or an experience. */
  predicate QuietNight(p: Params, t: real, s: Step) {
    match s
    case BeatAt(now, hour, eng) =>
      now - t >= Reach(p) && !InWindow(hour, p.wakeWindow)
      && NoExternal(eng.sleepWrites)
    case Others(_, drafts) => NoExternal(drafts)
    case Restart => true
  }

  lemma {:induction false} LatestIsOld(log: Log, p: Event -> bool, rows: nat, t: real)
    requires forall k {:trigger log[k]} | 0 <= k < |log| && p(log[k]) :: log[k].at <= t
    ensures LatestOf(log, p, rows).Some? ==> LatestOf(log, p, rows).value <= t
  {
    if log != [] && rows > 0 {
      var init := log[..|log| - 1];
      assert forall k {:trigger init[k]} | 0 <= k < |init| :: init[k] == log[k];
      LatestIsOld(init, p, if p(log[|log| - 1]) then rows - 1 else rows, t);
    }
  }

  lemma SilentEvidence(p: Params, log: Log, now: real, hour: real, current: Rhythm, t: real)
    requires SilentSince(log, t) && now - t >= Reach(p) && Reach(p) <= NO_ACTIVITY
    ensures var ev := Assemble(log, now, hour, current);
            ev.sinceUser >= p.activeUser && ev.sinceExternal >= p.activeMeaningful
  {
    LatestIsOld(log, IsUser, 200, t);
    LatestIsOld(log, IsExperience, 200, t);
  }

  lemma {:induction false} WrittenSilently(log: Log, drafts: seq<Event>, now: real, t: real)
    requires SilentSince(log, t) && NoExternal(drafts)
    ensures SilentSince(Written(log, drafts, now), t)
    decreases |drafts|
  {
    if drafts != [] && LinksResolve(log, drafts[0]) {
      WrittenSilently(log + [Stamped(drafts[0], now)], drafts[1..], now, t);
    }
  }

  lemma MovedSilently(m: Memory, to: Rhythm, now: real, t: real)
    requires SilentSince(m.log, t)
    ensures SilentSince(Moved(m, to, now).log, t)
  {
  }

  lemma NightIsSilent(m: Memory, state: Rhythm, eng: Engines, now: real, t: real)
    requires SilentSince(m.log, t) && NoExternal(eng.sleepWrites)
    ensures SilentSince(NightTurn(m, state, eng, now).memory.log, t)
  {
    WrittenSilently(m.log, eng.sleepWrites, now, t);
    MovedSilently(m.(log := Written(m.log, eng.sleepWrites, now)), Asleep, now, t);
  }

  lemma AsleepBeat(p: Params, m: Memory, ev: Evidence, now: real, eng: Engines, t: real)
    requires AsleepState(m.state) && ev.current == m.state && !WakeTrigger(p, ev)
    requires SilentSince(m.log, t) && NoExternal(eng.sleepWrites)
    ensures var b := BeatOn(p, m, ev, now, eng);
            && b.state == Asleep && b.action != Woke && !b.woke && AsleepState(b.memory.state)
            && SilentSince(b.memory.log, t)
  {
    var m' := Moved(m, Asleep, now);
    MovedSilently(m, Asleep, now, t);
    if ConsolidationDue(p, ev) {
      MovedSilently(m', Consolidating, now, t);
      NightIsSilent(Moved(m', Consolidating, now), Asleep, eng, now, t);
    }
  }

  lemma NightStep(p: Params, m: Memory, s: Step, t: real)
    requires Synced(m) && AsleepState(m.state) && SilentSince(m.log, t) && Reach(p) <= NO_ACTIVITY
    requires QuietNight(p, t, s)
    ensures AsleepState(Do(p, m, s).state) || s.Restart?
    ensures SilentSince(Do(p, m, s).log, t)
    ensures s.BeatAt? ==> var b := BeatOf(p, m, s.now, s.hour, s.eng); b.state == Asleep && b.action != Woke
  {
    match s {
      case BeatAt(now, hour, eng) =>
        SilentEvidence(p, m.log, now, hour, m.state, t);
        AsleepBeat(p, m, Assemble(m.log, now, hour, m.state), now, eng, t);
      case Others(now, drafts) => WrittenSilently(m.log, drafts, now, t);
      case Restart =>
    }
  }

  lemma {:induction false} NightEndsAsleep(p: Params, m: Memory, steps: seq<Step>, t: real)
    requires Synced(m) && Chained(m.log) && RunOk(p, m, steps)
    requires AsleepState(m.state) && SilentSince(m.log, t) && Reach(p) <= NO_ACTIVITY
    requires forall i | 0 <= i < |steps| :: QuietNight(p, t, steps[i])
    ensures AsleepState(Final(p, m, steps).state)
    decreases |steps|
  {
    if steps != [] {
      assert QuietNight(p, t, steps[0]);
      StepKeeps(p, m, steps[0]);
      NightStep(p, m, steps[0], t);
      NightEndsAsleep(p, Do(p, m, steps[0]), steps[1..], t);
    }
  }

  /** Once asleep, with nobody about, the machine sleeps on at every beat outside the wake window,
      whatever its own consolidations write, whether or not they raise, and across restarts. */
  lemma {:induction false} NightIsStable(p: Params, m: Memory, steps: seq<Step>, t: real, i: nat)
    requires Synced(m) && Chained(m.log) && RunOk(p, m, steps)
    requires AsleepState(m.state) && SilentSince(m.log, t) && Reach(p) <= NO_ACTIVITY
    requires forall j | 0 <= j < |steps| :: QuietNight(p, t, steps[j])
    requires i < |Outcomes(p, m, steps)|
    ensures Outcomes(p, m, steps)[i].0 == Asleep && Outcomes(p, m, steps)[i].1 != Woke
    decreases |steps|
  {
    assert QuietNight(p, t, steps[0]);
    NightStep(p, m, steps[0], t);
    if !steps[0].BeatAt? || i > 0 {
      StepKeeps(p, m, steps[0]);
      var m', rest, j := Do(p, m, steps[0]), steps[1..], if steps[0].BeatAt? then i - 1 else i;
      OutcomesShift(p, m, steps, m', rest, i, j);
      assert RunOk(p, m', rest);
      NightIsStable(p, m', rest, t, j);
    }
  }
}
