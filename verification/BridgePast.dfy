/** The bridge past its read (world.py): the survey no longer changes, so one observation wakes a thread once for each
    question it meets that resonates with it. */
module BridgePast {
  import opened EventLog
  import opened Basics
  import opened MentalState
  import opened Bridge
  import opened Questions
  import opened BridgeOnce

  /** Each own thread was begun from memories that are in the log, as its writer makes them (sleep.py). */
  ghost predicate BasisResolves(log: Log) {
    forall k, b | 0 <= k < |log| && log[k].body.ThreadCreated? && b in log[k].body.derived :: b.Evt? ==> b.pos < |log|
  }

  /** Meeting question `q` wakes the thread, as far as the log `log` tells. */
  predicate WokenFor(log: Log, q: nat, t: Thread, st: Settings)
    requires q < |log|
  {
    st.enabled && !st.blank(log[q].text) && Reawakens(log, SurveyOf(ReadOf(log, st)), q, t, st)
  }

  /** How many of the questions wake the thread. */
  function Occasions(log: Log, touched: seq<nat>, t: Thread, st: Settings): nat
    requires InLog(log, touched)
  {
    if touched == [] then 0 else
      Occasions(log, touched[..|touched| - 1], t, st) + if WokenFor(log, touched[|touched| - 1], t, st) then 1 else 0
  }

  predicate Wakes(e: Event, t: Thread) {
    e.body.ThreadActivated? && e.thread == t
  }

  function WakesOf(t: Thread): Event -> bool {
    (e: Event) => Wakes(e, t)
  }

  // ------------------------------------------------ the survey stands still

  lemma SameRead(log: Log, log': Log, st: Settings)
    requires log <= log' && st.read <= |log|
    ensures ReadOf(log', st) == ReadOf(log, st)
  {
  }

  lemma {:induction false} BasisIsInLog(log: Log, n: nat, t: Thread, b: Ref)
    requires BasisResolves(log) && n <= |log|
    requires t in SurveyOf(log[..n]).basis && b in SurveyOf(log[..n]).basis[t]
    ensures b.Evt? ==> b.pos < |log|
  {
    if n > 0 {
      assert log[..n][..n - 1] == log[..n - 1];
      var e := log[n - 1];
      if !(e.body.ThreadCreated? && e.body.selfOrigin && e.thread == t) {
        BasisIsInLog(log, n - 1, t, b);
      }
    }
  }

  lemma SameResonance(log: Log, log': Log, q: nat, basis: set<Ref>, st: Settings)
    requires log <= log' && forall b | b in basis :: b.Evt? ==> b.pos < |log|
    ensures Resonates(log', q, basis, st) <==> Resonates(log, q, basis, st)
  {
    forall b | b in basis ensures Resonant(log', q, b, st) <==> Resonant(log, q, b, st) {
    }
  }

  lemma SameOccasion(log: Log, log': Log, q: nat, t: Thread, st: Settings)
    requires log <= log' && st.read <= |log| && q < |log| && BasisResolves(log)
    ensures WokenFor(log', q, t, st) <==> WokenFor(log, q, t, st)
  {
    SameRead(log, log', st);
    var s := SurveyOf(ReadOf(log, st));
    var basis := if t in s.basis then s.basis[t] else {};
    forall b | b in basis ensures b.Evt? ==> b.pos < |log| {
      BasisIsInLog(log, st.read, t, b);
    }
    SameResonance(log, log', q, basis, st);
  }

  // ------------------------------------------------------ one question

  lemma BridgedIff(log: Log, q: nat, t: Thread, st: Settings)
    requires q < |log|
    ensures t in Bridged(log, q, st) <==> WokenFor(log, q, t, st)
    ensures Distinct(Bridged(log, q, st))
  {
    var s := SurveyOf(ReadOf(log, st));
    SurveyListsItsThreads(ReadOf(log, st));
    ReawakenedIsDistinct(log, s, s.order, q, st);
  }

  lemma OneActivation(before: Log, last: Thread, q: nat, revisit: nat, now: real, after: Log, lo: nat, t: Thread)
    requires lo <= |before| && after == before + [Activation(last, q, revisit, now)]
    ensures CountFrom(after, lo, WakesOf(t)) == CountFrom(before, lo, WakesOf(t)) + if last == t then 1 else 0
  {
    CountFromAppend(before, Activation(last, q, revisit, now), lo, WakesOf(t));
  }

  lemma LastActivation(log: Log, ts: seq<Thread>, last: Thread, q: nat, revisit: nat, now: real)
    ensures log + Activations(ts + [last], q, revisit, now)
            == log + Activations(ts, q, revisit, now) + [Activation(last, q, revisit, now)]
  {
    ActivationsSnoc(ts, last, q, revisit, now);
  }

  lemma {:induction false} ActivationsCount(log: Log, ts: seq<Thread>, q: nat, revisit: nat, now: real, lo: nat,
                                            t: Thread)
    requires lo <= |log| && Distinct(ts)
    ensures CountFrom(log + Activations(ts, q, revisit, now), lo, WakesOf(t))
            == CountFrom(log, lo, WakesOf(t)) + if t in ts then 1 else 0
  {
    if ts == [] {
      assert log + Activations(ts, q, revisit, now) == log;
    } else {
      var front, last := ts[..|ts| - 1], ts[|ts| - 1];
      assert ts == front + [last];
      ActivationsCount(log, front, q, revisit, now, lo, t);
      LastActivation(log, front, last, q, revisit, now);
      OneActivation(log + Activations(front, q, revisit, now), last, q, revisit, now,
                    log + Activations(ts, q, revisit, now), lo, t);
    }
  }

  lemma MeetingCount(log: Log, q: nat, obs: nat, now: real, st: Settings, lo: nat, t: Thread)
    requires q < |log| && lo <= |log|
    ensures CountFrom(Met(log, q, obs, now, st), lo, WakesOf(t))
            == CountFrom(log, lo, WakesOf(t)) + if WokenFor(log + [Revisit(q, obs, now)], q, t, st) then 1 else 0
  {
    var met := log + [Revisit(q, obs, now)];
    CountFromAppend(log, Revisit(q, obs, now), lo, WakesOf(t));
    BridgedIff(met, q, t, st);
    ActivationsCount(met, Bridged(met, q, st), q, |log|, now, lo, t);
  }

  /** Past the read one observation activates a thread exactly as often as it meets a question that resonates with it:
      twice as soon as it meets two. */
  lemma {:induction false} WokenForEachQuestion(log: Log, touched: seq<nat>, obs: nat, now: real, st: Settings,
                                                t: Thread)
    requires InLog(log, touched) && st.read <= |log| && BasisResolves(log)
    ensures CountFrom(TouchLog(log, touched, obs, now, st), |log|, WakesOf(t)) == Occasions(log, touched, t, st)
  {
    if touched == [] {
      NoneAfter(log, |log|, WakesOf(t));
    } else {
      var n := |touched| - 1;
      var before := TouchLog(log, touched[..n], obs, now, st);
      WokenForEachQuestion(log, touched[..n], obs, now, st, t);
      MeetingCount(before, touched[n], obs, now, st, |log|, t);
      SameOccasion(log, before + [Revisit(touched[n], obs, now)], touched[n], t, st);
    }
  }

  /** A thread begun and rested inside the read, and two questions past it. */
  function TwoQuestions(memory: Event, q: Event, q': Event, t: Thread, read: nat): Log
    requires read >= 3
  {
    [memory, Begins(t), Rests(t)] + Idle(read - 3) + [q, q']
  }

  lemma {:induction false} IdleBegins(m: nat, k: nat)
    requires k < m
    ensures Idle(m)[k] == Assessed()
  {
    if k < m - 1 {
      IdleBegins(m - 1, k);
    }
  }

  lemma TwoQuestionsResolve(log: Log, memory: Event, q: Event, q': Event, t: Thread, read: nat)
    requires read >= 3 && log == TwoQuestions(memory, q, q', t, read)
    requires memory.body.ExperienceCreated? && q.body.QuestionCreated? && q'.body.QuestionCreated?
    ensures BasisResolves(log)
  {
    forall k, b | 0 <= k < |log| && log[k].body.ThreadCreated? && b in log[k].body.derived
      ensures b.Evt? ==> b.pos < |log|
    {
      if 3 <= k < read {
        IdleBegins(read - 3, k - 3);
      }
    }
  }

  lemma OneOccasion(log: Log, q: nat, memory: Event, t: Thread, st: Settings)
    requires q < |log| && log[0] == memory && !st.blank(memory.text) && !st.blank(log[q].text) && st.enabled
    requires SurveyOf(ReadOf(log, st)) == Survey([t], map[t := Resting], map[t := {Evt(0)}])
             && st.sim(q, 0) >= st.minSim
    ensures WokenFor(log, q, t, st)
  {
    assert Resonant(log, q, Evt(0), st);
  }

  lemma TwoOccasions(log: Log, a: nat, b: nat, t: Thread, st: Settings)
    requires a < |log| && b < |log| && WokenFor(log, a, t, st) && WokenFor(log, b, t, st)
    ensures Occasions(log, [a, b], t, st) == 2
  {
    assert [a, b][..1] == [a] && [a][..0] == [];
    assert Occasions(log, [a], t, st) == 1;
  }

  /** So one observation does wake a thread twice, whatever the read limit and the gate. */
  lemma WokenTwice(memory: Event, q: Event, q': Event, t: Thread, obs: nat, now: real, st: Settings)
    requires Named(t) && memory.body.ExperienceCreated? && q.body.QuestionCreated? && q'.body.QuestionCreated?
    requires st.enabled && st.read >= 3 && !st.blank(memory.text) && !st.blank(q.text) && !st.blank(q'.text)
    requires st.sim(st.read, 0) >= st.minSim && st.sim(st.read + 1, 0) >= st.minSim
    ensures var log := TwoQuestions(memory, q, q', t, st.read);
            CountFrom(TouchLog(log, [st.read, st.read + 1], obs, now, st), |log|, WakesOf(t)) == 2
  {
    var log, begun := TwoQuestions(memory, q, q', t, st.read), [memory, Begins(t), Rests(t)];
    assert ReadOf(log, st) == begun + Idle(st.read - 3);
    IdleUnseen(begun, st.read - 3);
    FoundResting(memory, t);
    OneOccasion(log, st.read, memory, t, st);
    OneOccasion(log, st.read + 1, memory, t, st);
    TwoOccasions(log, st.read, st.read + 1, t, st);
    TwoQuestionsResolve(log, memory, q, q', t, st.read);
    WokenForEachQuestion(log, [st.read, st.read + 1], obs, now, st, t);
  }
}
