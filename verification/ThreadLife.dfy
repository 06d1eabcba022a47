/** What the rebuilt mental state holds of a thread (mental_state.py), said over the events of the log. */
module ThreadLife {
  import opened EventLog
  import opened MentalState

  predicate HasName(t: Option<string>) {
    t.Some? && |t.value| > 0
  }

  /** An event that begins the thread, moves it, rests it or closes it. A beginning without a name does not count. */
  predicate Moves(e: Event, t: Option<string>) {
    && e.thread == t
    && match e.body
       case ThreadCreated(_, _, _) => HasName(t)
       case ThreadActivated => true
       case ThreadRevisited => true
       case ThreadDormant => true
       case ThreadClosed => true
       case _ => false
  }

  predicate Begins(e: Event, t: Option<string>) {
    e.thread == t && e.body.ThreadCreated? && HasName(t)
  }

  /** A thought, an experience or a message under the name of the thread. */
  predicate Visits(e: Event, t: Option<string>) {
    && e.thread == t && HasName(t)
    && (e.body.ThoughtCreated? || e.body.ExperienceCreated? || e.body.UserMessage?)
  }

  predicate NewestMove(log: Log, k: nat, t: Option<string>) {
    k < |log| && Moves(log[k], t) && forall j | k < j < |log| :: !Moves(log[j], t)
  }

  lemma NewestMoveIs(log: Log, k: nat, t: Option<string>)
    ensures NewestMove(log, k, t) <==> LastLifecycle(log, t) == Some(k)
  {
    var last := LastLifecycle(log, t);
    assert forall j | 0 <= j < |log| :: SetsState(log[j], t) <==> Moves(log[j], t);
    if NewestMove(log, k, t) {
      assert SetsState(log[k], t) && k <= last.value;
    }
    if last == Some(k) {
      forall j | k < j < |log| ensures !Moves(log[j], t) {
        assert SetsState(log[j], t) ==> j <= k;
      }
    }
  }

  /** A thread is known exactly if something moved it, and its state is what the newest of those events made it. */
  lemma StateIs(log: Log, t: Option<string>)
    ensures t in Rebuilt(log) <==> exists k: nat :: NewestMove(log, k, t)
    ensures forall k: nat | NewestMove(log, k, t) ::
              var s := Rebuilt(log)[t].state;
              && (s.Created? <==> log[k].body.ThreadCreated?)
              && (s.Activated? <==> log[k].body.ThreadActivated? || log[k].body.ThreadRevisited?)
              && (s.Dormant? <==> log[k].body.ThreadDormant?)
              && (s.Closed? <==> log[k].body.ThreadClosed?)
  {
    StateIsLastLifecycle(log, t);
    forall k: nat ensures NewestMove(log, k, t) <==> LastLifecycle(log, t) == Some(k) {
      NewestMoveIs(log, k, t);
    }
    if LastLifecycle(log, t).Some? {
      assert NewestMove(log, LastLifecycle(log, t).value, t);
    }
  }

  /** The threads a mind is busy with: those something woke, with nothing since that rested or closed them. */
  lemma ActiveAre(log: Log, t: Option<string>)
    ensures t in ActiveThreads(Rebuilt(log)) <==>
              exists k: nat :: NewestMove(log, k, t) && (log[k].body.ThreadActivated? || log[k].body.ThreadRevisited?)
  {
    StateIs(log, t);
  }

  // ----------------------------------------------------------- its events

  /** Something moved the thread before position `n`. */
  predicate MovedBefore(log: Log, n: nat, t: Option<string>) {
    n <= |log| && exists j | 0 <= j < n :: Moves(log[j], t)
  }

  /** Event `k` moved the thread, or visited it once it was known, and the thread did not begin anew since. */
  predicate Belongs(log: Log, k: nat, t: Option<string>) {
    && k < |log| && (Moves(log[k], t) || (Visits(log[k], t) && MovedBefore(log, k, t)))
    && forall j | k < j < |log| :: !Begins(log[j], t)
  }

  lemma MovedBeforeSnoc(log: Log, e: Event, n: nat, t: Option<string>)
    requires n <= |log|
    ensures MovedBefore(log + [e], n, t) <==> MovedBefore(log, n, t)
  {
    assert forall j | 0 <= j < n :: (log + [e])[j] == log[j];
  }

  lemma BelongsSnoc(log: Log, e: Event, k: nat, t: Option<string>)
    ensures Belongs(log + [e], k, t) <==>
              if k == |log| then Moves(e, t) || (Visits(e, t) && MovedBefore(log, |log|, t))
              else Belongs(log, k, t) && !Begins(e, t)
  {
    var longer := log + [e];
    if k <= |log| {
      MovedBeforeSnoc(log, e, k, t);
      assert k < |log| ==> longer[k] == log[k];
      assert longer[|log|] == e;
      assert forall j | k < j < |log| :: longer[j] == log[j];
    }
  }

  lemma KnownIs(log: Log, t: Option<string>)
    ensures t in Rebuilt(log) <==> MovedBefore(log, |log|, t)
  {
    StateIsLastLifecycle(log, t);
    var last := LastLifecycle(log, t);
    assert forall j | 0 <= j < |log| :: SetsState(log[j], t) <==> Moves(log[j], t);
    if last.Some? { assert Moves(log[last.value], t); }
  }

  /** One event adds itself to the list, begins the list anew, or leaves it alone. */
  lemma AppliedEvents(threads: Threads, e: Event, k: nat, t: Option<string>)
    requires t in Applied(threads, e, k)
    ensures var known, events := if t in threads then threads[t].events else [], Applied(threads, e, k)[t].events;
            forall i: nat :: i in events <==>
              || (i == k && (Moves(e, t) || (Visits(e, t) && t in threads)))
              || (i in known && !Begins(e, t))
  {
  }

  /** The events listed under a thread. */
  lemma {:induction false} EventsAre(log: Log, t: Option<string>, k: nat)
    requires t in Rebuilt(log)
    ensures k in Rebuilt(log)[t].events <==> Belongs(log, k, t)
  {
    var front, e := log[..|log| - 1], log[|log| - 1];
    assert log == front + [e];
    AppliedEvents(Rebuilt(front), e, |front|, t);
    BelongsSnoc(front, e, k, t);
    KnownIs(front, t);
    if t in Rebuilt(front) {
      EventsAre(front, t, k);
      EventsRunForward(front, t);
    } else if k < |front| {
      assert !Belongs(front, k, t);
    }
  }
}
