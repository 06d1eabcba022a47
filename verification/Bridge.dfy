/** The material bridge from questions to the mind's own threads (world.py): a re-met question re-activates
    dormant self threads whose basis memories resonate with it. The bridge keeps its own reading of thread
    lifecycles, which is compared here with the mental state. */
module Bridge {
  import opened EventLog
  import opened MentalState

  datatype Life = Begun | Running | Resting

  /** Settings: the flag, the similarity gate, the row limit, the similarity of a question's text to a
      memory's text, and the test for blank text. */
  datatype Settings = Settings(enabled: bool, minSim: real, read: nat, sim: (nat, nat) -> real, blank: string -> bool)

  type Thread = Option<string>

  /** What the pass over the events has gathered: the threads in order of first mention, their state, and
      the basis of the self threads. */
  datatype Survey = Survey(order: seq<Thread>, life: map<Thread, Life>, basis: map<Thread, set<Ref>>)

  function Noted(s: Survey, t: Thread, l: Life): Survey {
    s.(order := if t in s.life then s.order else s.order + [t], life := s.life[t := l])
  }

  function Surveyed(s: Survey, e: Event): Survey {
    match e.body
    case ThreadCreated(own, _, derived) =>
      if own then Noted(s, e.thread, Begun).(basis := s.basis[e.thread := derived]) else s
    case ThreadActivated => if Named(e.thread) then Noted(s, e.thread, Running) else s
    case ThreadRevisited => if Named(e.thread) then Noted(s, e.thread, Running) else s
    case ThreadDormant => if Named(e.thread) then Noted(s, e.thread, Resting) else s
    case _ => s
  }

  function SurveyOf(log: Log): Survey {
    if log == [] then Survey([], map[], map[]) else Surveyed(SurveyOf(log[..|log| - 1]), log[|log| - 1])
  }

  lemma SurveySnoc(log: Log, e: Event)
    ensures SurveyOf(log + [e]) == Surveyed(SurveyOf(log), e)
  {
    assert (log + [e])[..|log|] == log;
  }

  ghost predicate Listed(s: Survey) {
    && (forall t :: t in s.order <==> t in s.life)
    && (forall i, j | 0 <= i < j < |s.order| :: s.order[i] != s.order[j])
  }

  lemma NotedKeepsListed(s: Survey, t: Thread, l: Life)
    requires Listed(s)
    ensures Listed(Noted(s, t, l))
  {
  }

  lemma SurveyedKeepsListed(s: Survey, e: Event)
    requires Listed(s)
    ensures Listed(Surveyed(s, e))
  {
    NotedKeepsListed(s, e.thread, Begun);
    NotedKeepsListed(s, e.thread, Running);
    NotedKeepsListed(s, e.thread, Resting);
  }

  /** Every thread mentioned is listed, once. */
  lemma {:induction false} SurveyListsItsThreads(log: Log)
    ensures Listed(SurveyOf(log))
  {
    if log != [] {
      SurveyListsItsThreads(log[..|log| - 1]);
      SurveyedKeepsListed(SurveyOf(log[..|log| - 1]), log[|log| - 1]);
    }
  }

  // ------------------------------------------------------------- resonance

  predicate Resonant(log: Log, q: nat, b: Ref, st: Settings) {
    Resolves(log, b) && !st.blank(log[b.pos].text) && st.sim(q, b.pos) >= st.minSim
  }

  predicate Resonates(log: Log, q: nat, basis: set<Ref>, st: Settings) {
    st.minSim <= 0.0 || exists b | b in basis :: Resonant(log, q, b, st)
  }

  method BestResonance(log: Log, q: nat, basis: set<Ref>, st: Settings) returns (best: real)
    ensures best >= st.minSim <==> Resonates(log, q, basis, st)
  {
    best := 0.0;
    var left := basis;
    while left != {}
      invariant left <= basis && best >= 0.0
      invariant best >= st.minSim <==> st.minSim <= 0.0 || exists b | b in basis - left :: Resonant(log, q, b, st)
    {
      var b :| b in left;
      ghost var done := basis - left;
      left := left - {b};
      assert basis - left == done + {b};
      if Resolves(log, b) && !st.blank(log[b.pos].text) && best < st.sim(q, b.pos) {
        best := st.sim(q, b.pos);
      }
    }
    assert basis - left == basis;
  }

  // --------------------------------------------------------------- the bridge

  predicate Reawakens(log: Log, s: Survey, q: nat, t: Thread, st: Settings) {
    t in s.life && s.life[t].Resting? && Resonates(log, q, if t in s.basis then s.basis[t] else {}, st)
  }

  function Reawakened(log: Log, s: Survey, ts: seq<Thread>, q: nat, st: Settings): (out: seq<Thread>)
    ensures forall t :: t in out <==> t in ts && Reawakens(log, s, q, t, st)
  {
    if ts == [] then [] else
      var out, t := Reawakened(log, s, ts[..|ts| - 1], q, st), ts[|ts| - 1];
      assert ts == ts[..|ts| - 1] + [t];
      if Reawakens(log, s, q, t, st) then out + [t] else out
  }

  function Activation(t: Thread, q: nat, revisit: nat, now: real): Event {
    Draft(false, ThreadActivated).(thread := t, causedBy := [Evt(revisit)], relatedTo := [Evt(q)], at := now)
  }

  function Activations(ts: seq<Thread>, q: nat, revisit: nat, now: real): (a: Log)
    ensures |a| == |ts| && forall i | 0 <= i < |a| :: a[i] == Activation(ts[i], q, revisit, now)
  {
    seq(|ts|, i requires 0 <= i < |ts| => Activation(ts[i], q, revisit, now))
  }

  function ReadOf(log: Log, st: Settings): Log {
    if st.read <= |log| then log[..st.read] else log
  }

  /** The threads the bridge re-activates for question `q` on this log. */
  function Bridged(log: Log, q: nat, st: Settings): seq<Thread>
    requires q < |log|
  {
    if !st.enabled || st.blank(log[q].text) then []
    else
      var s := SurveyOf(ReadOf(log, st));
      Reawakened(log, s, s.order, q, st)
  }

  method TakeSurvey(events: Log) returns (s: Survey)
    ensures s == SurveyOf(events)
  {
    s := Survey([], map[], map[]);
    for i := 0 to |events|
      invariant s == SurveyOf(events[..i])
    {
      assert events[..i + 1][..i] == events[..i];
      s := Surveyed(s, events[i]);
    }
    assert events[..|events|] == events;
  }

  lemma ReawakenedSnoc(log: Log, s: Survey, i: nat, q: nat, st: Settings)
    requires i < |s.order|
    ensures Reawakened(log, s, s.order[..i + 1], q, st)
            == Reawakened(log, s, s.order[..i], q, st)
               + if Reawakens(log, s, q, s.order[i], st) then [s.order[i]] else []
  {
    assert s.order[..i + 1][..i] == s.order[..i];
  }

  lemma ActivationsSnoc(ts: seq<Thread>, t: Thread, q: nat, revisit: nat, now: real)
    ensures Activations(ts + [t], q, revisit, now)
            == Activations(ts, q, revisit, now) + [Activation(t, q, revisit, now)]
  {
  }

  method Wakes(log: Log, s: Survey, q: nat, t: Thread, st: Settings) returns (wake: bool)
    ensures wake <==> Reawakens(log, s, q, t, st)
  {
    wake := false;
    if t in s.life && s.life[t].Resting? {
      var best := BestResonance(log, q, if t in s.basis then s.basis[t] else {}, st);
      wake := best >= st.minSim;
    }
  }

  /** The log after the first `i` surveyed threads. */
  ghost predicate Woken(log: Log, log': Log, s: Survey, i: nat, q: nat, revisit: nat, now: real, st: Settings) {
    i <= |s.order| && log' == log + Activations(Reawakened(log, s, s.order[..i], q, st), q, revisit, now)
  }

  lemma NoneWoken(log: Log, s: Survey, q: nat, revisit: nat, now: real, st: Settings)
    ensures Woken(log, log, s, 0, q, revisit, now, st)
  {
    assert log + [] == log;
  }

  lemma WokenSnoc(log: Log, log': Log, s: Survey, i: nat, q: nat, revisit: nat, now: real, st: Settings)
    requires i < |s.order| && Woken(log, log', s, i, q, revisit, now, st)
    ensures Woken(log,
                  if Reawakens(log, s, q, s.order[i], st)
                  then log' + [Activation(s.order[i], q, revisit, now)]
                  else log',
                  s, i + 1, q, revisit, now, st)
  {
    var ts := Reawakened(log, s, s.order[..i], q, st);
    ReawakenedSnoc(log, s, i, q, st);
    ActivationsSnoc(ts, s.order[i], q, revisit, now);
    assert ts + [] == ts;
  }

  method PutActivation(store: EventStore, t: Thread, q: nat, revisit: nat)
    requires store.Valid() && q < |store.log| && revisit < |store.log|
    modifies store`log
    ensures store.Valid() && store.log == old(store.log) + [Activation(t, q, revisit, store.clock)]
  {
    var e := Activation(t, q, revisit, store.clock);
    assert Links(e) == [Evt(revisit), Evt(q)];
    var _ := store.Append(e);
  }

  method WakeOne(store: EventStore, events: Log, s: Survey, i: nat, q: nat, revisit: nat, st: Settings)
    requires store.Valid() && q < |store.log| && revisit < |store.log| && i < |s.order|
    requires Woken(events, store.log, s, i, q, revisit, store.clock, st)
    modifies store`log
    ensures store.Valid() && old(store.log) <= store.log
    ensures Woken(events, store.log, s, i + 1, q, revisit, store.clock, st)
  {
    WokenSnoc(events, store.log, s, i, q, revisit, store.clock, st);
    var wake := Wakes(events, s, q, s.order[i], st);
    if wake {
      PutActivation(store, s.order[i], q, revisit);
    }
  }

  method WakeAll(store: EventStore, s: Survey, q: nat, revisit: nat, st: Settings)
    requires store.Valid() && q < |store.log| && revisit < |store.log|
    modifies store`log
    ensures store.Valid() && Woken(old(store.log), store.log, s, |s.order|, q, revisit, store.clock, st)
  {
    var events := store.log;
    NoneWoken(events, s, q, revisit, store.clock, st);
    for i := 0 to |s.order|
      invariant store.Valid() && events <= store.log && Woken(events, store.log, s, i, q, revisit, store.clock, st)
    {
      WakeOne(store, events, s, i, q, revisit, st);
    }
  }

  /** Appends one activation for each thread to re-activate, citing the revisit and the question. */
  method BridgeQuestion(store: EventStore, q: nat, revisit: nat, st: Settings)
    requires store.Valid() && q < |store.log| && revisit < |store.log|
    modifies store`log
    ensures store.Valid()
    ensures store.log == old(store.log) + Activations(Bridged(old(store.log), q, st), q, revisit, store.clock)
  {
    if !st.enabled || st.blank(store.log[q].text) {
      assert store.log + [] == store.log;
    } else {
      var s := TakeSurvey(ReadOf(store.log, st));
      WakeAll(store, s, q, revisit, st);
      assert s.order[..|s.order|] == s.order;
    }
  }

  // ----------------------------------------------- against the mental state

  /** Only the mind's own creations and no closing: the lifecycle the bridge knows about. */
  predicate Plain(log: Log, t: Thread) {
    forall k | 0 <= k < |log| && log[k].thread == t ::
      !log[k].body.ThreadClosed? && (log[k].body.ThreadCreated? ==> log[k].body.selfOrigin)
  }

  function Translated(s: ThreadState): Life {
    match s
    case Created => Begun
    case Activated => Running
    case Dormant => Resting
    case Closed => Resting
  }

  /** One event keeps the two readings of a plain thread together. */
  lemma SameReading(s: Survey, threads: Threads, e: Event, k: nat, t: Thread)
    requires Named(t) && (t in s.life <==> t in threads)
    requires t in threads ==> s.life[t] == Translated(threads[t].state)
    requires e.thread == t ==> !e.body.ThreadClosed? && (e.body.ThreadCreated? ==> e.body.selfOrigin)
    ensures t in Surveyed(s, e).life <==> t in Applied(threads, e, k)
    ensures t in Applied(threads, e, k) ==> Surveyed(s, e).life[t] == Translated(Applied(threads, e, k)[t].state)
  {
  }

  lemma PlainPrefix(log: Log, n: nat, t: Thread)
    requires Plain(log, t) && n <= |log|
    ensures Plain(log[..n], t)
  {
  }

  /** On such threads the bridge's reading is the mental state's. */
  lemma {:induction false} BridgeReadsTheMentalState(log: Log, t: Thread)
    requires Named(t) && Plain(log, t)
    ensures t in SurveyOf(log).life <==> t in Rebuilt(log)
    ensures t in Rebuilt(log) ==> SurveyOf(log).life[t] == Translated(Rebuilt(log)[t].state)
  {
    if log != [] {
      var n := |log| - 1;
      PlainPrefix(log, n, t);
      BridgeReadsTheMentalState(log[..n], t);
      SameReading(SurveyOf(log[..n]), Rebuilt(log[..n]), log[n], n, t);
    }
  }

  function BasisIn(s: Survey, t: Thread): set<Ref> {
    if t in s.basis then s.basis[t] else {}
  }

  /** The newest lifecycle event of `t` in this log put it to rest. */
  predicate LastRested(log: Log, t: Thread) {
    var last := LastLifecycle(log, t);
    last.Some? && log[last.value].body.ThreadDormant?
  }

  lemma DormantIffLastRested(log: Log, t: Thread)
    ensures t in Rebuilt(log) && Rebuilt(log)[t].state.Dormant? <==> LastRested(log, t)
  {
    StateIsLastLifecycle(log, t);
  }

  lemma ReadIsPrefix(log: Log, st: Settings)
    ensures ReadOf(log, st) <= log
    ensures |log| <= st.read ==> ReadOf(log, st) == log
  {
    if st.read == |log| {
      assert log[..st.read] == log;
    }
  }

  lemma RestingIffLastRested(log: Log, t: Thread)
    requires Named(t) && Plain(log, t)
    ensures t in SurveyOf(log).life && SurveyOf(log).life[t].Resting? <==> LastRested(log, t)
  {
    BridgeReadsTheMentalState(log, t);
    StateOfPlain(log, t);
    DormantIffLastRested(log, t);
  }

  /** The bridge re-activates a plain thread exactly if the newest of its lifecycle events inside the read put it
      to rest and its basis, as read, resonates. */
  lemma BridgeWakesTheRested(log: Log, q: nat, t: Thread, st: Settings)
    requires q < |log| && Named(t) && Plain(log, t) && st.enabled && !st.blank(log[q].text)
    ensures t in Bridged(log, q, st)
            <==> LastRested(ReadOf(log, st), t) && Resonates(log, q, BasisIn(SurveyOf(ReadOf(log, st)), t), st)
  {
    var read := ReadOf(log, st);
    ReadIsPrefix(log, st);
    PlainPrefix(log, |read|, t);
    assert log[..|read|] == read;
    RestingIffLastRested(read, t);
    SurveyListsItsThreads(read);
  }

  /** So it wakes what the mental state has dormant if and only if the read and the whole log agree on the
      thread's last rest, or nothing resonates; in particular whenever the log fits the read. */
  lemma BridgeWakesTheDormant(log: Log, q: nat, t: Thread, st: Settings)
    requires q < |log| && Named(t) && Plain(log, t) && st.enabled && !st.blank(log[q].text)
    ensures var read := ReadOf(log, st);
            var resonates := Resonates(log, q, BasisIn(SurveyOf(read), t), st);
            (t in Bridged(log, q, st) <==> t in Rebuilt(log) && Rebuilt(log)[t].state.Dormant? && resonates)
            <==> (resonates ==> (LastRested(read, t) <==> LastRested(log, t)))
    ensures |log| <= st.read ==> ReadOf(log, st) == log
  {
    BridgeWakesTheRested(log, q, t, st);
    DormantIffLastRested(log, t);
    ReadIsPrefix(log, st);
  }

  lemma {:induction false} StateOfPlain(log: Log, t: Thread)
    requires Named(t) && Plain(log, t)
    ensures t in Rebuilt(log) ==> !Rebuilt(log)[t].state.Closed?
  {
    if log != [] {
      PlainPrefix(log, |log| - 1, t);
      StateOfPlain(log[..|log| - 1], t);
    }
  }

  // ------------------------------------------------------------ a stale read

  function Assessed(): Event {
    Draft(true, Other("circadian.assessed"))
  }

  function Idle(m: nat): (log: Log)
    ensures |log| == m
  {
    if m == 0 then [] else Idle(m - 1) + [Assessed()]
  }

  lemma IdleSnoc(log: Log, m: nat)
    requires m > 0
    ensures log + Idle(m) == log + Idle(m - 1) + [Assessed()]
  {
  }

  lemma IdleStep(front: Log, log: Log)
    requires log == front + [Assessed()]
    ensures SurveyOf(log) == SurveyOf(front)
  {
    SurveySnoc(front, Assessed());
  }

  lemma {:induction false} IdleUnseen(log: Log, m: nat)
    ensures SurveyOf(log + Idle(m)) == SurveyOf(log)
  {
    if m == 0 {
      assert log + Idle(0) == log;
    } else {
      IdleSnoc(log, m);
      IdleStep(log + Idle(m - 1), log + Idle(m));
      IdleUnseen(log, m - 1);
    }
  }

  function Begins(t: Thread): Event {
    Draft(false, ThreadCreated(true, "s", {Evt(0)})).(thread := t)
  }

  function Rests(t: Thread): Event {
    Draft(false, ThreadDormant).(thread := t)
  }

  function Stirs(t: Thread): Event {
    Draft(false, ThreadActivated).(thread := t)
  }

  lemma FoundResting(memory: Event, t: Thread)
    requires Named(t) && memory.body.ExperienceCreated?
    ensures SurveyOf([memory, Begins(t), Rests(t)]) == Survey([t], map[t := Resting], map[t := {Evt(0)}])
  {
    var none := Survey([], map[], map[]);
    assert [memory, Begins(t), Rests(t)][..2] == [memory, Begins(t)];
    assert [memory, Begins(t)][..1] == [memory] && [memory][..0] == [];
    assert SurveyOf([memory]) == Surveyed(SurveyOf([]), memory) == none;
    assert SurveyOf([memory, Begins(t)]) == Surveyed(none, Begins(t));
    assert Surveyed(none, Begins(t)) == Survey([t], map[t := Begun], map[t := {Evt(0)}]);
    assert map[t := Begun][t := Resting] == map[t := Resting];
  }

  lemma LeftActive(front: Log, on: Event, q: Event, t: Thread)
    requires on.body.ThreadActivated? && on.thread == t && q.body.QuestionCreated?
    ensures t in Rebuilt(front + [on, q]) && Rebuilt(front + [on, q])[t].state.Activated?
  {
    assert (front + [on, q])[..|front| + 1] == front + [on];
    assert (front + [on])[..|front|] == front;
  }

  /** A thread begun and rested inside the read, re-activated just past it. */
  function Stale(memory: Event, q: Event, t: Thread, read: nat): Log
    requires read >= 3
  {
    [memory, Begins(t), Rests(t)] + Idle(read - 3) + [Stirs(t), q]
  }

  lemma OneReawakens(log: Log, q: nat, t: Thread, st: Settings)
    requires Resonates(log, q, {Evt(0)}, st)
    ensures var s := Survey([t], map[t := Resting], map[t := {Evt(0)}]); t in Reawakened(log, s, s.order, q, st)
  {
    var s := Survey([t], map[t := Resting], map[t := {Evt(0)}]);
    assert Reawakens(log, s, q, t, st) && t in s.order;
  }

  /** Whatever the read limit and the gate, past the read the bridge can activate a thread that is already active:
      its basis memory resonates, and the read ends before its last activation. */
  lemma StaleReadWakesTheActive(memory: Event, q: Event, t: Thread, st: Settings)
    requires Named(t) && memory.body.ExperienceCreated? && q.body.QuestionCreated?
    requires st.enabled && st.read >= 3 && !st.blank(memory.text) && !st.blank(q.text)
    requires st.sim(st.read + 1, 0) >= st.minSim
    ensures var log := Stale(memory, q, t, st.read);
            && |log| == st.read + 2 && log[st.read + 1] == q
            && t in Bridged(log, st.read + 1, st) && t in Rebuilt(log) && Rebuilt(log)[t].state.Activated?
  {
    var log, begun := Stale(memory, q, t, st.read), [memory, Begins(t), Rests(t)];
    var read := begun + Idle(st.read - 3);
    assert ReadOf(log, st) == read;
    IdleUnseen(begun, st.read - 3);
    FoundResting(memory, t);
    assert log[0] == memory && Resonant(log, st.read + 1, Evt(0), st);
    OneReawakens(log, st.read + 1, t, st);
    LeftActive(read, Stirs(t), q, t);
  }
}
