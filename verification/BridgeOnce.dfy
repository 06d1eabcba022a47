/** One observation may meet several questions, and each of them may wake threads: while the bridge reads
    the whole log, no thread is woken twice (world.py). */
module BridgeOnce {
  import opened EventLog
  import opened Basics
  import opened MentalState
  import opened Bridge
  import opened Questions

  predicate IsRunning(log: Log, t: Thread) {
    var s := SurveyOf(log);
    t in s.life && s.life[t].Running?
  }

  /** Events that put no thread to rest and begin none. */
  predicate Gentle(more: Log) {
    forall i | 0 <= i < |more| :: !more[i].body.ThreadDormant? && !more[i].body.ThreadCreated?
  }

  lemma {:induction false} RunningStays(log: Log, more: Log, t: Thread)
    requires IsRunning(log, t) && Gentle(more)
    ensures IsRunning(log + more, t)
  {
    if more == [] {
      assert log + more == log;
    } else {
      var n := |more| - 1;
      RunningStays(log, more[..n], t);
      SurveySnoc(log + more[..n], more[n]);
      assert log + more == log + more[..n] + [more[n]];
    }
  }

  lemma {:induction false} RestingIsNamed(log: Log, t: Thread)
    requires t in SurveyOf(log).life && SurveyOf(log).life[t].Resting?
    ensures Named(t)
  {
    var front := log[..|log| - 1];
    if t in SurveyOf(front).life && SurveyOf(front).life[t].Resting? {
      RestingIsNamed(front, t);
    }
  }

  lemma ActivationStarts(log: Log, e: Event, more: Log)
    requires e.body.ThreadActivated? && Named(e.thread) && Gentle(more)
    ensures IsRunning(log + [e] + more, e.thread)
  {
    SurveySnoc(log, e);
    RunningStays(log + [e], more, e.thread);
  }

  lemma SplitAt(log: Log, a: Log, i: nat)
    requires i < |a|
    ensures log + a == log + a[..i] + [a[i]] + a[i + 1..]
  {
  }

  /** Every thread the bridge activates runs afterwards. */
  lemma ActivatedRuns(log: Log, ts: seq<Thread>, i: nat, q: nat, revisit: nat, now: real)
    requires i < |ts| && Named(ts[i])
    ensures IsRunning(log + Activations(ts, q, revisit, now), ts[i])
  {
    var a := Activations(ts, q, revisit, now);
    SplitAt(log, a, i);
    ActivationStarts(log + a[..i], a[i], a[i + 1..]);
  }

  lemma {:induction false} ReawakenedIsDistinct(log: Log, s: Survey, ts: seq<Thread>, q: nat, st: Settings)
    requires Distinct(ts)
    ensures Distinct(Reawakened(log, s, ts, q, st))
  {
    if ts != [] {
      ReawakenedIsDistinct(log, s, ts[..|ts| - 1], q, st);
    }
  }

  /** The bridge names resting threads only, each once. */
  lemma BridgedIsResting(log: Log, q: nat, st: Settings)
    requires q < |log| && |log| <= st.read
    ensures Distinct(Bridged(log, q, st))
    ensures forall t | t in Bridged(log, q, st) :: Named(t) && !IsRunning(log, t)
  {
    assert ReadOf(log, st) == log by {
      if st.read == |log| {
        assert log[..st.read] == log;
      }
    }
    SurveyListsItsThreads(log);
    ReawakenedIsDistinct(log, SurveyOf(log), SurveyOf(log).order, q, st);
    forall t | t in Bridged(log, q, st) ensures Named(t) && !IsRunning(log, t) {
      RestingIsNamed(log, t);
    }
  }

  /** From position `n` on: each activated thread is running, and no two activations name one thread. */
  ghost predicate OnceEach(log: Log, n: nat) {
    && (forall i | n <= i < |log| && log[i].body.ThreadActivated? :: IsRunning(log, log[i].thread))
    && (forall i, j | n <= i < j < |log| && log[i].body.ThreadActivated? && log[j].body.ThreadActivated? ::
          log[i].thread != log[j].thread)
  }

  lemma QuietKeepsOnce(log: Log, n: nat, e: Event)
    requires OnceEach(log, n) && !e.body.ThreadActivated? && Gentle([e])
    ensures OnceEach(log + [e], n)
  {
    forall i | n <= i < |log| && log[i].body.ThreadActivated? ensures IsRunning(log + [e], log[i].thread) {
      RunningStays(log, [e], log[i].thread);
    }
  }

  lemma WakingKeepsOnce(log: Log, n: nat, ts: seq<Thread>, q: nat, revisit: nat, now: real)
    requires OnceEach(log, n) && Distinct(ts) && forall t | t in ts :: Named(t) && !IsRunning(log, t)
    ensures OnceEach(log + Activations(ts, q, revisit, now), n)
  {
    var a := Activations(ts, q, revisit, now);
    forall i | n <= i < |log + a| && (log + a)[i].body.ThreadActivated?
      ensures IsRunning(log + a, (log + a)[i].thread)
    {
      if i < |log| {
        RunningStays(log, a, log[i].thread);
      } else {
        assert ts[i - |log|] in ts;
        ActivatedRuns(log, ts, i - |log|, q, revisit, now);
      }
    }
    forall i, j | n <= i < j < |log + a| && (log + a)[i].body.ThreadActivated? && (log + a)[j].body.ThreadActivated?
      ensures (log + a)[i].thread != (log + a)[j].thread
    {
      if i < |log| <= j {
        assert ts[j - |log|] in ts;
      }
    }
  }

  lemma MeetingKeepsOnce(log: Log, n: nat, q: nat, obs: nat, now: real, st: Settings)
    requires OnceEach(log, n) && q < |log| < st.read
    ensures OnceEach(Met(log, q, obs, now, st), n)
  {
    var met := log + [Revisit(q, obs, now)];
    QuietKeepsOnce(log, n, Revisit(q, obs, now));
    BridgedIsResting(met, q, st);
    WakingKeepsOnce(met, n, Bridged(met, q, st), q, |log|, now);
  }

  /** However many questions an observation meets, each thread is woken at most once. */
  lemma {:induction false} NoThreadWokenTwice(log: Log, touched: seq<nat>, obs: nat, now: real, st: Settings)
    requires InLog(log, touched) && |TouchLog(log, touched, obs, now, st)| <= st.read
    ensures OnceEach(TouchLog(log, touched, obs, now, st), |log|)
  {
    if touched != [] {
      var n := |touched| - 1;
      var before := TouchLog(log, touched[..n], obs, now, st);
      assert |before| < |Met(before, touched[n], obs, now, st)|;
      NoThreadWokenTwice(log, touched[..n], obs, now, st);
      MeetingKeepsOnce(before, |log|, touched[n], obs, now, st);
    }
  }
}
