/** What one beat leaves in the log (circadian.py), event by event. */
module CircadianBeat {
  import opened EventLog
  import opened Circadian
  import opened CircadianMachine
  import opened CircadianEvidence

  /** The record of a change of state on this log, citing the newest message of the user. */
  ghost predicate RecordsChange(e: Event, log: Log, from: Rhythm, to: Rhythm, now: real) {
    && e.body == StateChanged(from, to) && e.at == now && e.system && e.relatedTo == []
    && (forall u: nat | NewestMessage(log, u) :: e.causedBy == [Evt(u)])
    && ((forall u: nat :: !NewestMessage(log, u)) ==> e.causedBy == [])
  }

  predicate NewestMessage(log: Log, u: nat) {
    u < |log| && log[u].body.UserMessage? && forall k | u < k < |log| :: !log[k].body.UserMessage?
  }

  lemma NewestMessageIs(log: Log, u: nat)
    ensures NewestMessage(log, u) <==> Last(log, IsUser) == Some(u)
  {
    var last := Last(log, IsUser);
    if last.Some? && NewestMessage(log, u) {
      assert IsUser(log[u]) && u <= last.value;
    }
    if last == Some(u) {
      forall k | u < k < |log| ensures !log[k].body.UserMessage? {
        assert IsUser(log[k]) ==> k <= u;
      }
    }
  }

  lemma ChangeIs(log: Log, from: Rhythm, to: Rhythm, now: real)
    ensures RecordsChange(Stamped(Change(log, from, to), now), log, from, to, now)
  {
    var user := Last(log, IsUser);
    forall u: nat ensures NewestMessage(log, u) <==> user == Some(u) {
      NewestMessageIs(log, u);
    }
    if user.Some? { assert NewestMessage(log, user.value); }
  }

  /** The drafts as they are stored at `now`. */
  function AtTime(drafts: seq<Event>, now: real): (r: seq<Event>)
    ensures |r| == |drafts| && forall i | 0 <= i < |r| :: r[i] == drafts[i].(at := now)
  {
    seq(|drafts|, i requires 0 <= i < |drafts| => drafts[i].(at := now))
  }

  lemma {:induction false} AllArrive(log: Log, drafts: seq<Event>, now: real)
    requires AllWritten(log, drafts, now)
    ensures Written(log, drafts, now) == log + AtTime(drafts, now)
    decreases |drafts|
  {
    if drafts != [] {
      AllArrive(log + [Stamped(drafts[0], now)], drafts[1..], now);
      assert AtTime(drafts, now) == [Stamped(drafts[0], now)] + AtTime(drafts[1..], now);
    }
  }

  /** The arrival in a state: nothing if it was the state already, otherwise the record of the change. */
  ghost predicate Arrives(log: Log, more: seq<Event>, from: Rhythm, to: Rhythm, now: real) {
    if from == to then more == [] else |more| == 1 && RecordsChange(more[0], log, from, to, now)
  }

  lemma MovedArrives(m: Memory, to: Rhythm, now: real) returns (more: seq<Event>)
    ensures Moved(m, to, now) == Memory(to, m.log + more) && Arrives(m.log, more, m.state, to, now)
  {
    more := if m.state == to then [] else [Stamped(Change(m.log, m.state, to), now)];
    ChangeIs(m.log, m.state, to, now);
  }

  /** What a mind that is up writes in a beat: its wake, if it is called, and then what the world window adds. */
  function AwakeWrites(called: bool, eng: Engines, now: real): seq<Event> {
    AtTime(if called then [Draft(true, WakeStarted)] + eng.wakeWrites else [], now) + AtTime(eng.worldWrites, now)
  }

  lemma AwakeBeat(m: Memory, state: Rhythm, due: bool, eng: Engines, now: real)
    requires !Raised(AwakeTurn(m, state, due, eng, now).action)
    ensures AwakeTurn(m, state, due, eng, now).memory == Memory(m.state, m.log + AwakeWrites(due, eng, now))
  {
    if due {
      var m2 := m.(log := Written(m.log, WakeDrafts(eng), now));
      AllArrive(m.log, WakeDrafts(eng), now);
      AllArrive(m2.log, eng.worldWrites, now);
    } else {
      AllArrive(m.log, eng.worldWrites, now);
      assert AtTime([], now) == [];
    }
  }

  /** What a consolidating mind writes: the work of the sleep engine between two changes of state. */
  ghost predicate NightWrites(log: Log, more: seq<Event>, from: Rhythm, eng: Engines, now: real) {
    exists entered, left :: && more == entered + AtTime(eng.sleepWrites, now) + left
                            && Brackets(log, entered, left, from, eng, now)
  }

  ghost predicate Brackets(log: Log, entered: seq<Event>, left: seq<Event>, from: Rhythm, eng: Engines, now: real) {
    && Arrives(log, entered, from, Consolidating, now)
    && Arrives(log + (entered + AtTime(eng.sleepWrites, now)), left, Consolidating, Asleep, now)
  }

  lemma NightBeat(m: Memory, state: Rhythm, eng: Engines, now: real) returns (left: seq<Event>)
    requires !Raised(NightTurn(m, state, eng, now).action) && m.state == Consolidating
    ensures NightTurn(m, state, eng, now).memory == Memory(Asleep, m.log + AtTime(eng.sleepWrites, now) + left)
    ensures Arrives(m.log + AtTime(eng.sleepWrites, now), left, Consolidating, Asleep, now)
  {
    AllArrive(m.log, eng.sleepWrites, now);
    left := MovedArrives(m.(log := m.log + AtTime(eng.sleepWrites, now)), Asleep, now);
  }

  lemma Regrouped(log: Log, a: seq<Event>, b: seq<Event>, c: seq<Event>)
    ensures log + a + b == log + (a + b) && log + a + b + c == log + (a + b + c)
  {
  }

  lemma AsleepBeat(m: Memory, state: Rhythm, due: bool, eng: Engines, now: real) returns (more: seq<Event>)
    requires !Raised(SleepTurn(m, state, due, eng, now).action)
    ensures SleepTurn(m, state, due, eng, now).memory == Memory(if due then Asleep else m.state, m.log + more)
    ensures if due then NightWrites(m.log, more, m.state, eng, now) else more == []
  {
    if !due {
      more := [];
      assert m.log + more == m.log;
    } else {
      var entered := MovedArrives(m, Consolidating, now);
      var left := NightBeat(Moved(m, Consolidating, now), state, eng, now);
      var work := AtTime(eng.sleepWrites, now);
      Regrouped(m.log, entered, work, left);
      more := entered + work + left;
      assert Brackets(m.log, entered, left, m.state, eng, now);
    }
  }

  /** A beat in which nobody raises first records the change to the state it decides, if it is one. A mind that is up
      then wakes, if it is called, and looks at the world; a sleeping one does nothing, or consolidates and is asleep
      again. Nothing else is written. */
  lemma BeatWrites(p: Params, m: Memory, now: real, hour: real, eng: Engines)
    returns (first: seq<Event>, rest: seq<Event>)
    requires !Raised(BeatOf(p, m, now, hour, eng).action)
    ensures var b := BeatOf(p, m, now, hour, eng);
            && b.memory.log == m.log + first + rest && Arrives(m.log, first, m.state, b.state, now)
            && (AsleepState(b.state) ==> b.memory.state == (if CallsSleep(b) then Asleep else b.state))
            && (AsleepState(b.state) ==> if CallsSleep(b) then NightWrites(m.log + first, rest, b.state, eng, now)
                                         else rest == [])
            && (!AsleepState(b.state) ==> b.memory.state == b.state && rest == AwakeWrites(CallsMind(b), eng, now))
  {
    var ev := Assemble(m.log, now, hour, m.state);
    var state := Decide(p, ev);
    first := MovedArrives(m, state, now);
    var m1 := Moved(m, state, now);
    if AsleepState(state) {
      var due := ConsolidationDue(p, ev);
      AsleepCalls(m1, state, due, eng, now);
      rest := AsleepBeat(m1, state, due, eng, now);
    } else {
      var due := state == Waking || WakeDue(p, m1.log, now, state);
      AwakeCalls(m1, state, due, eng, now);
      AwakeBeat(m1, state, due, eng, now);
      rest := AwakeWrites(due, eng, now);
    }
  }

  // ------------------------------------------------------ a beat that raises

  /** A writer that is stopped leaves the first of its drafts. */
  lemma {:induction false} SomeArrive(log: Log, drafts: seq<Event>, now: real) returns (n: nat)
    ensures n <= |drafts| && Written(log, drafts, now) == log + AtTime(drafts, now)[..n]
    decreases |drafts|
  {
    if drafts == [] || !LinksResolve(log, drafts[0]) {
      n := 0;
      assert AtTime(drafts, now)[..0] == [];
    } else {
      var first := Stamped(drafts[0], now);
      var k := SomeArrive(log + [first], drafts[1..], now);
      n := k + 1;
      assert AtTime(drafts, now)[..n] == [first] + AtTime(drafts[1..], now)[..k];
    }
  }

  lemma BrokenWake(m: Memory, state: Rhythm, eng: Engines, now: real) returns (rest: seq<Event>)
    requires WakeFails(m.log, eng, now)
    ensures AwakeTurn(m, state, true, eng, now).memory == Memory(m.state, m.log + rest)
    ensures rest <= AwakeWrites(true, eng, now)
  {
    var n := SomeArrive(m.log, WakeDrafts(eng), now);
    rest := AtTime(WakeDrafts(eng), now)[..n];
  }

  lemma BrokenWorld(m: Memory, state: Rhythm, action: Action, eng: Engines, now: real) returns (seen: seq<Event>)
    ensures WorldTurn(m, state, action, eng, now).memory == Memory(m.state, m.log + seen)
    ensures seen <= AtTime(eng.worldWrites, now)
  {
    var n := SomeArrive(m.log, eng.worldWrites, now);
    seen := AtTime(eng.worldWrites, now)[..n];
  }

  lemma Prefixed(log: Log, woken: seq<Event>, seen: seq<Event>, all: seq<Event>)
    requires seen <= all
    ensures woken + seen <= woken + all && log + woken + seen == log + (woken + seen)
  {
  }

  lemma BrokenLook(m: Memory, state: Rhythm, due: bool, eng: Engines, now: real) returns (rest: seq<Event>)
    requires AwakeTurn(m, state, due, eng, now).action.WorldRaised?
    ensures AwakeTurn(m, state, due, eng, now).memory == Memory(m.state, m.log + rest)
    ensures rest <= AwakeWrites(due, eng, now)
  {
    var woken := AtTime(if due then [Draft(true, WakeStarted)] + eng.wakeWrites else [], now);
    if due {
      AllArrive(m.log, WakeDrafts(eng), now);
    }
    assert m.log + [] == m.log;
    var seen := BrokenWorld(m.(log := m.log + woken), state, if due then Woke else Nothing, eng, now);
    Prefixed(m.log, woken, seen, AtTime(eng.worldWrites, now));
    rest := woken + seen;
  }

  /** What the sleep engine left before it raised. */
  ghost predicate NightBegun(log: Log, more: seq<Event>, from: Rhythm, eng: Engines, now: real) {
    exists entered, work :: && more == entered + work && Arrives(log, entered, from, Consolidating, now)
                            && work <= AtTime(eng.sleepWrites, now)
  }

  lemma BrokenNight(m: Memory, state: Rhythm, eng: Engines, now: real) returns (more: seq<Event>)
    requires SleepTurn(m, state, true, eng, now).action.SleepRaised?
    ensures SleepTurn(m, state, true, eng, now).memory == Memory(Consolidating, m.log + more)
    ensures NightBegun(m.log, more, m.state, eng, now)
  {
    var entered := MovedArrives(m, Consolidating, now);
    var n := SomeArrive(m.log + entered, eng.sleepWrites, now);
    var work := AtTime(eng.sleepWrites, now)[..n];
    more := entered + work;
    assert m.log + entered + work == m.log + more;
  }

  /** A beat in which somebody raises leaves the beginning of what it would have written; a mind whose sleep engine
      raised stays consolidating. */
  lemma BrokenBeatWrites(p: Params, m: Memory, now: real, hour: real, eng: Engines)
    returns (first: seq<Event>, rest: seq<Event>)
    requires Raised(BeatOf(p, m, now, hour, eng).action)
    ensures var b := BeatOf(p, m, now, hour, eng);
            && b.memory.log == m.log + first + rest && Arrives(m.log, first, m.state, b.state, now)
            && (AsleepState(b.state) ==>
                  b.memory.state == Consolidating && NightBegun(m.log + first, rest, b.state, eng, now))
            && (!AsleepState(b.state) ==> b.memory.state == b.state && rest <= AwakeWrites(CallsMind(b), eng, now))
  {
    var ev := Assemble(m.log, now, hour, m.state);
    var state := Decide(p, ev);
    first := MovedArrives(m, state, now);
    var m1 := Moved(m, state, now);
    if AsleepState(state) {
      rest := BrokenNight(m1, state, eng, now);
    } else {
      var due := state == Waking || WakeDue(p, m1.log, now, state);
      AwakeCalls(m1, state, due, eng, now);
      if due && WakeFails(m1.log, eng, now) {
        rest := BrokenWake(m1, state, eng, now);
      } else {
        rest := BrokenLook(m1, state, due, eng, now);
      }
    }
  }

  /** Each draft cites only what stands in a log of `n` events once those before it have been added. */
  predicate Fit(n: nat, drafts: seq<Event>) {
    forall i: nat | i < |drafts| :: CitesBelow(drafts[i], n + i)
  }

  predicate CitesBelow(e: Event, n: nat) {
    && (forall i | 0 <= i < |e.causedBy| :: e.causedBy[i].Evt? ==> e.causedBy[i].pos < n)
    && (forall i | 0 <= i < |e.relatedTo| :: e.relatedTo[i].Evt? ==> e.relatedTo[i].pos < n)
  }

  lemma CitesBelowIs(log: Log, e: Event)
    ensures LinksResolve(log, e) <==> CitesBelow(e, |log|)
  {
    var links := Links(e);
    assert forall i | 0 <= i < |e.causedBy| :: links[i] == e.causedBy[i];
    assert forall i | 0 <= i < |e.relatedTo| :: links[|e.causedBy| + i] == e.relatedTo[i];
  }

  lemma FitSplits(n: nat, drafts: seq<Event>)
    requires drafts != []
    ensures Fit(n, drafts) <==> CitesBelow(drafts[0], n) && Fit(n + 1, drafts[1..])
  {
    if Fit(n, drafts) {
      forall i: nat | i < |drafts[1..]| ensures CitesBelow(drafts[1..][i], n + 1 + i) {
        assert CitesBelow(drafts[i + 1], n + (i + 1));
      }
    } else if CitesBelow(drafts[0], n) {
      var i: nat :| i < |drafts| && !CitesBelow(drafts[i], n + i);
      assert drafts[1..][i - 1] == drafts[i] && n + 1 + (i - 1) == n + i;
    }
  }

  lemma {:induction false} FitIs(log: Log, drafts: seq<Event>, now: real)
    ensures AllWritten(log, drafts, now) <==> Fit(|log|, drafts)
    decreases |drafts|
  {
    if drafts != [] {
      CitesBelowIs(log, drafts[0]);
      FitIs(log + [Stamped(drafts[0], now)], drafts[1..], now);
      FitSplits(|log|, drafts);
    }
  }

  /** What a beat reports that decided `b.state` on a log of `n` events. The wake fails if it raises, never starts, or
      cites what is not there; the window, after a wake that did not fail, if it cites what is not there; the night if
      it raises or cites what is not there. A wake is counted exactly if it was called and did not fail. */
  predicate Reports(b: Beaten, n: nat, mind: bool, night: bool, eng: Engines) {
    var wake := [Draft(true, WakeStarted)] + eng.wakeWrites;
    var fails := mind && (eng.wakeRaises || !eng.wakeStarts || !Fit(n, wake));
    && (b.action.WakeRaised? <==> fails) && (b.woke <==> mind && !fails)
    && (b.action.WorldRaised? <==>
          !AsleepState(b.state) && !fails && !Fit(n + (if mind then |wake| else 0), eng.worldWrites))
    && (b.action.SleepRaised? <==>
          night && (eng.sleepRaises || !Fit(n + (if b.state == Consolidating then 0 else 1), eng.sleepWrites)))
    && (!Raised(b.action) ==> b.action == if mind then Woke else if night then Consolidated else Nothing)
  }

  lemma AwakeReports(m: Memory, due: bool, eng: Engines, now: real)
    requires !AsleepState(m.state)
    ensures Reports(AwakeTurn(m, m.state, due, eng, now), |m.log|, due, false, eng)
  {
    var wake := [Draft(true, WakeStarted)] + eng.wakeWrites;
    if due {
      FitIs(m.log, WakeDrafts(eng), now);
      if !WakeFails(m.log, eng, now) {
        AllArrive(m.log, wake, now);
        FitIs(Written(m.log, wake, now), eng.worldWrites, now);
      }
    } else {
      FitIs(m.log, eng.worldWrites, now);
    }
  }

  lemma AsleepReports(m: Memory, due: bool, eng: Engines, now: real)
    requires AsleepState(m.state)
    ensures Reports(SleepTurn(m, m.state, due, eng, now), |m.log|, false, due, eng)
  {
    FitIs(Moved(m, Consolidating, now).log, eng.sleepWrites, now);
  }

  /** When a beat raises, and what it reports when it does not. */
  lemma BeatReports(p: Params, m: Memory, now: real, hour: real, eng: Engines)
    ensures var b := BeatOf(p, m, now, hour, eng);
            Reports(b, |m.log| + (if b.state == m.state then 0 else 1), CallsMind(b), CallsSleep(b), eng)
  {
    var ev := Assemble(m.log, now, hour, m.state);
    var state := Decide(p, ev);
    var m1 := Moved(m, state, now);
    assert m1.state == state && |m1.log| == |m.log| + if state == m.state then 0 else 1;
    if AsleepState(state) {
      var due := ConsolidationDue(p, ev);
      AsleepCalls(m1, state, due, eng, now);
      AsleepReports(m1, due, eng, now);
    } else {
      var due := state == Waking || WakeDue(p, m1.log, now, state);
      AwakeCalls(m1, state, due, eng, now);
      AwakeReports(m1, due, eng, now);
    }
  }
}
