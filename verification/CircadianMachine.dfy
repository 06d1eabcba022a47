/** The circadian machine and its orchestrator (circadian.py): one beat turns evidence into a state
    change, a wake, a consolidation or nothing. The classes are proved against the functions of the
    first half, which say what a beat does to the machine's memory and to the log. */
module CircadianMachine {
  import opened EventLog
  import opened Circadian

  // ---------------------------------------------------------- state and log

  /** The state a machine built from this log starts in. */
  function Recorded(log: Log): Rhythm {
    var last := Last(log, IsChange);
    if last.None? then Active else log[last.value].body.to
  }

  /** What one machine remembers, and the log it shares with everyone else. */
  datatype Memory = Memory(state: Rhythm, log: Log)

  /** The `circadian.state_changed` event, citing the newest user message. */
  function Change(log: Log, from: Rhythm, to: Rhythm): Event {
    var user := Last(log, IsUser);
    Draft(true, StateChanged(from, to)).(causedBy := if user.None? then [] else [Evt(user.value)])
  }

  function Stamped(e: Event, now: real): Event {
    e.(at := now)
  }

  function Moved(m: Memory, to: Rhythm, now: real): Memory {
    if m.state == to then m else Memory(to, m.log + [Stamped(Change(m.log, m.state, to), now)])
  }

  /** The log after others append these drafts; the first dangling link stops them. */
  function Written(log: Log, drafts: seq<Event>, now: real): Log
    decreases |drafts|
  {
    if drafts == [] || !LinksResolve(log, drafts[0]) then log
    else Written(log + [Stamped(drafts[0], now)], drafts[1..], now)
  }

  predicate AllWritten(log: Log, drafts: seq<Event>, now: real)
    decreases |drafts|
  {
    drafts == [] || (LinksResolve(log, drafts[0]) && AllWritten(log + [Stamped(drafts[0], now)], drafts[1..], now))
  }

  // ---------------------------------------------------------------- one beat

  /** What the engines do if this beat calls on them: the events they append, and whether they
      raise at the end. A wake begins with its `wake.started`, unless it raises even before. */
  datatype Engines = Engines(
    wakeStarts: bool, wakeWrites: seq<Event>, wakeRaises: bool,
    sleepWrites: seq<Event>, sleepRaises: bool,
    worldWrites: seq<Event>)

  datatype Action = Nothing | Woke | Consolidated | WakeRaised | SleepRaised | WorldRaised

  predicate ConsolidationDue(p: Params, ev: Evidence) {
    ev.sinceConsolidation >= NO_ACTIVITY || ev.sinceConsolidation >= p.consolidationInterval
  }

  function WakeInterval(p: Params, state: Rhythm): real {
    match state
    case Quiet => p.quietWakeInterval
    case Drowsy => p.drowsyWakeInterval
    case _ => p.activeWakeInterval
  }

  /** Is there a user message newer than the last wake? */
  predicate FreshMessage(log: Log, lastWake: nat)
    requires lastWake < |log|
  {
    var user := Last(log, IsUser);
    user.Some? && log[user.value].at > log[lastWake].at
  }

  predicate WakeDue(p: Params, log: Log, now: real, state: Rhythm) {
    var last := Last(log, IsWake);
    || last.None?
    || FreshMessage(log, last.value)
    || now - log[last.value].at >= WakeInterval(p, state)
  }

  function WakeDrafts(eng: Engines): seq<Event> {
    if eng.wakeStarts then [Draft(true, WakeStarted)] + eng.wakeWrites else []
  }

  predicate WakeFails(log: Log, eng: Engines, now: real) {
    eng.wakeRaises || !eng.wakeStarts || !AllWritten(log, WakeDrafts(eng), now)
  }

  predicate SleepFails(log: Log, eng: Engines, now: real) {
    eng.sleepRaises || !AllWritten(log, eng.sleepWrites, now)
  }

  datatype Beaten = Beaten(memory: Memory, state: Rhythm, action: Action, woke: bool)

  /** The sleep engine runs in a consolidating machine. If it raises, the machine stays there. */
  function NightTurn(m: Memory, state: Rhythm, eng: Engines, now: real): Beaten {
    var m' := m.(log := Written(m.log, eng.sleepWrites, now));
    if SleepFails(m.log, eng, now) then Beaten(m', state, SleepRaised, false)
    else Beaten(Moved(m', Asleep, now), state, Consolidated, false)
  }

  /** The part of a beat spent asleep. */
  function SleepTurn(m: Memory, state: Rhythm, due: bool, eng: Engines, now: real): Beaten {
    if due then NightTurn(Moved(m, Consolidating, now), state, eng, now)
    else Beaten(m, state, Nothing, false)
  }

  function WorldTurn(m: Memory, state: Rhythm, action: Action, eng: Engines, now: real): Beaten {
    Beaten(m.(log := Written(m.log, eng.worldWrites, now)), state,
           if AllWritten(m.log, eng.worldWrites, now) then action else WorldRaised,
           action.Woke?)
  }

  /** The part of a beat spent awake: perhaps a wake, then the world window. */
  function AwakeTurn(m: Memory, state: Rhythm, due: bool, eng: Engines, now: real): Beaten {
    if due then
      var m2 := m.(log := Written(m.log, WakeDrafts(eng), now));
      if WakeFails(m.log, eng, now) then Beaten(m2, state, WakeRaised, false)
      else WorldTurn(m2, state, Woke, eng, now)
    else WorldTurn(m, state, Nothing, eng, now)
  }

  /** What a beat does once the state is decided and recorded. */
  function Turn(p: Params, m: Memory, state: Rhythm, ev: Evidence, now: real, eng: Engines): Beaten {
    if AsleepState(state) then SleepTurn(m, state, ConsolidationDue(p, ev), eng, now)
    else AwakeTurn(m, state, state == Waking || WakeDue(p, m.log, now, state), eng, now)
  }

  /** A beat on given evidence. `woke` says that a wake was completed. */
  function BeatOn(p: Params, m: Memory, ev: Evidence, now: real, eng: Engines): Beaten {
    Turn(p, Moved(m, Decide(p, ev), now), Decide(p, ev), ev, now, eng)
  }

  /** A whole beat: the evidence is read from the log and the remembered state. */
  function BeatOf(p: Params, m: Memory, now: real, hour: real, eng: Engines): Beaten {
    BeatOn(p, m, Assemble(m.log, now, hour, m.state), now, eng)
  }

  // ----------------------------------------------------------------- classes

  /** Appends the drafts in order; a dangling link stops the writer. */
  method WriteAll(store: EventStore, drafts: seq<Event>) returns (all: bool)
    requires store.Valid()
    modifies store`log
    ensures store.Valid() && store.log == Written(old(store.log), drafts, store.clock)
    ensures all <==> AllWritten(old(store.log), drafts, store.clock)
  {
    all := true;
    ghost var start := store.log;
    for i := 0 to |drafts|
      invariant store.Valid()
      invariant Written(start, drafts, store.clock) == Written(store.log, drafts[i..], store.clock)
      invariant AllWritten(start, drafts, store.clock) <==> AllWritten(store.log, drafts[i..], store.clock)
    {
      var r := store.Append(drafts[i]);
      assert drafts[i..][1..] == drafts[i + 1..];
      if r.DanglingLink? {
        return false;
      }
    }
  }

  lemma ChangeResolves(log: Log, from: Rhythm, to: Rhythm)
    ensures LinksResolve(log, Change(log, from, to))
  {
  }

  lemma RecordedAfter(log: Log, e: Event)
    ensures Recorded(log + [e]) == if IsChange(e) then e.body.to else Recorded(log)
  {
    LastAfter(log, e, IsChange);
  }

  lemma LastAfter(log: Log, e: Event, p: Event -> bool)
    ensures Last(log + [e], p) == if p(e) then Some(|log|) else Last(log, p)
  {
    assert (log + [e])[..|log|] == log;
  }

  class Machine {
    const store: EventStore
    const params: Params
    var state: Rhythm

    /** The memory agrees with the log. */
    ghost predicate Valid()
      reads this, store
    {
      store.Valid() && state == Recorded(store.log)
    }

    ghost function Remembered(): Memory
      reads this, store
    {
      Memory(state, store.log)
    }

    /** A process start: the state is read back from the log. */
    constructor (store: EventStore, params: Params)
      requires store.Valid()
      ensures Valid() && this.store == store && this.params == params
    {
      this.store, this.params := store, params;
      this.state := Recorded(store.log);
    }

    method MoveTo(to: Rhythm)
      requires Valid()
      modifies this`state, store`log
      ensures Valid() && Remembered() == Moved(old(Remembered()), to, store.clock)
    {
      var from := state;
      if from != to {
        ChangeResolves(store.log, from, to);
        RecordedAfter(store.log, Stamped(Change(store.log, from, to), store.clock));
        var r := store.Append(Change(store.log, from, to));
        assert r.Stored?;
        state := to;
      }
    }

    method Assess(ev: Evidence) returns (target: Rhythm, changed: bool)
      requires Valid()
      modifies this`state, store`log
      ensures Valid() && target == Decide(params, ev) && (changed <==> target != old(state))
      ensures Remembered() == Moved(old(Remembered()), target, store.clock)
    {
      target := Decide(params, ev);
      changed := target != state;
      MoveTo(target);
    }
  }

  class Orchestrator {
    const store: EventStore
    const machine: Machine
    const params: Params
    var beats: nat
    var wakes: nat
    var consolidations: nat
    var trace: seq<(real, Rhythm, Action)>

    ghost predicate Valid()
      reads this, machine, machine.store
    {
      machine.store == store && machine.params == params && machine.Valid()
    }

    constructor (machine: Machine)
      requires machine.Valid()
      ensures Valid() && this.machine == machine && beats == wakes == consolidations == 0 && trace == []
    {
      this.store, this.machine, this.params := machine.store, machine, machine.params;
      beats, wakes, consolidations, trace := 0, 0, 0, [];
    }

    /** The counters and the trace after a beat that went as `b` says. */
    twostate predicate Counted(b: Beaten)
      reads this
    {
      && wakes == old(wakes) + (if b.woke then 1 else 0)
      && consolidations == old(consolidations) + (if b.action == Consolidated then 1 else 0)
    }

    /** One beat at the store's clock. A beat that raises is counted but leaves no trace entry. */
    method Beat(hour: real, eng: Engines) returns (state: Rhythm, action: Action, ghost b: Beaten)
      requires Valid() && EnginesKeepOut(eng)
      modifies this, machine, store`log
      ensures Valid() && beats == old(beats) + 1
      ensures b == BeatOf(params, old(machine.Remembered()), store.clock, hour, eng)
      ensures machine.Remembered() == b.memory && state == b.state && action == b.action
      ensures wakes == old(wakes) + (if b.woke then 1 else 0)
      ensures consolidations == old(consolidations) + (if action.Consolidated? then 1 else 0)
      ensures trace == old(trace) + (if Raised(action) then [] else [(store.clock, state, action)])
    {
      beats := beats + 1;
      var ev := Assemble(store.log, store.clock, hour, machine.state);
      state, action, b := Act(ev, eng);
      if !Raised(action) {
        trace := trace + [(store.clock, state, action)];
      }
    }

    method Act(ev: Evidence, eng: Engines) returns (state: Rhythm, action: Action, ghost b: Beaten)
      requires Valid() && EnginesKeepOut(eng)
      modifies this`wakes, this`consolidations, machine, store`log
      ensures Valid() && b == BeatOn(params, old(machine.Remembered()), ev, store.clock, eng)
      ensures machine.Remembered() == b.memory && state == b.state && action == b.action && Counted(b)
    {
      var changed;
      state, changed := machine.Assess(ev);
      action, b := ActIn(state, ev, eng);
    }

    method ActIn(state: Rhythm, ev: Evidence, eng: Engines) returns (action: Action, ghost b: Beaten)
      requires Valid() && EnginesKeepOut(eng)
      modifies this`wakes, this`consolidations, machine, store`log
      ensures Valid() && b == Turn(params, old(machine.Remembered()), state, ev, store.clock, eng)
      ensures machine.Remembered() == b.memory && state == b.state && action == b.action && Counted(b)
    {
      if AsleepState(state) {
        action, b := Slumber(state, ConsolidationDue(params, ev), eng);
      } else {
        action, b := Rouse(state, state == Waking || WakeDue(params, store.log, store.clock, state), eng);
      }
    }

    method Slumber(state: Rhythm, due: bool, eng: Engines) returns (action: Action, ghost b: Beaten)
      requires Valid() && EnginesKeepOut(eng)
      modifies this`consolidations, machine, store`log
      ensures Valid() && b == SleepTurn(old(machine.Remembered()), state, due, eng, store.clock)
      ensures machine.Remembered() == b.memory && state == b.state && action == b.action && Counted(b)
    {
      if due {
        action, b := BracketedNight(state, eng);
      } else {
        action, b := Nothing, Beaten(machine.Remembered(), state, Nothing, false);
      }
    }

    method BracketedNight(state: Rhythm, eng: Engines) returns (action: Action, ghost b: Beaten)
      requires Valid() && EnginesKeepOut(eng)
      modifies this`consolidations, machine, store`log
      ensures Valid()
      ensures b == NightTurn(Moved(old(machine.Remembered()), Consolidating, store.clock), state, eng, store.clock)
      ensures machine.Remembered() == b.memory && state == b.state && action == b.action && Counted(b)
    {
      machine.MoveTo(Consolidating);
      action, b := Consolidate(state, eng);
    }

    method Consolidate(state: Rhythm, eng: Engines) returns (action: Action, ghost b: Beaten)
      requires Valid() && EnginesKeepOut(eng)
      modifies this`consolidations, machine, store`log
      ensures Valid() && b == NightTurn(old(machine.Remembered()), state, eng, store.clock)
      ensures machine.Remembered() == b.memory && state == b.state && action == b.action && Counted(b)
    {
      b := NightTurn(machine.Remembered(), state, eng, store.clock);
      var all := RunEngine(eng.sleepWrites);
      if eng.sleepRaises || !all {
        return SleepRaised, b;
      }
      machine.MoveTo(Asleep);
      consolidations := consolidations + 1;
      action := Consolidated;
    }

    /** An engine writes its events; the machine's state stays what the log records. */
    method RunEngine(drafts: seq<Event>) returns (all: bool)
      requires Valid() && KeepsOut(drafts)
      modifies store`log
      ensures Valid() && store.log == Written(old(store.log), drafts, store.clock)
      ensures all <==> AllWritten(old(store.log), drafts, store.clock)
    {
      KeptOutStays(store.log, drafts, store.clock);
      all := WriteAll(store, drafts);
    }

    method Rouse(state: Rhythm, due: bool, eng: Engines) returns (action: Action, ghost b: Beaten)
      requires Valid() && EnginesKeepOut(eng)
      modifies this`wakes, store`log
      ensures Valid() && b == AwakeTurn(old(machine.Remembered()), state, due, eng, store.clock)
      ensures machine.Remembered() == b.memory && state == b.state && action == b.action && Counted(b)
    {
      b := AwakeTurn(machine.Remembered(), state, due, eng, store.clock);
      action := Nothing;
      if due {
        var all := RunEngine(WakeDrafts(eng));
        if eng.wakeRaises || !eng.wakeStarts || !all {
          return WakeRaised, b;
        }
        wakes := wakes + 1;
        action := Woke;
      }
      var all := RunEngine(eng.worldWrites);
      if !all {
        action := WorldRaised;
      }
    }
  }

  predicate Raised(a: Action) {
    a.WakeRaised? || a.SleepRaised? || a.WorldRaised?
  }

  /** The machine is the only writer of state changes. */
  predicate KeepsOut(drafts: seq<Event>) {
    forall i | 0 <= i < |drafts| :: !IsChange(drafts[i])
  }

  predicate EnginesKeepOut(eng: Engines) {
    KeepsOut(eng.wakeWrites) && KeepsOut(eng.sleepWrites) && KeepsOut(eng.worldWrites)
  }

  lemma {:induction false} KeptOutStays(log: Log, drafts: seq<Event>, now: real)
    requires KeepsOut(drafts)
    ensures Recorded(Written(log, drafts, now)) == Recorded(log)
    decreases |drafts|
  {
    if drafts != [] && LinksResolve(log, drafts[0]) {
      RecordedAfter(log, Stamped(drafts[0], now));
      KeptOutStays(log + [Stamped(drafts[0], now)], drafts[1..], now);
    }
  }
}
