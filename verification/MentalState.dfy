/** The mental state rebuilt from the log (mental_state.py): threads folded event by event, and the
    paged read that feeds the fold. */
module MentalState {
  import opened EventLog

  datatype ThreadState = Created | Activated | Dormant | Closed

  datatype ThreadView = ThreadView(state: ThreadState, last: nat, events: seq<nat>)

  /** Threads by id. An id may be missing: a lifecycle event without one is filed under None. */
  type Threads = map<Option<string>, ThreadView>

  predicate Named(t: Option<string>) {
    t.Some? && t.value != ""
  }

  /** The state a lifecycle event puts its thread in. */
  function Lifecycle(e: Event): Option<ThreadState> {
    match e.body
    case ThreadCreated(_, _, _) => if Named(e.thread) then Some(Created) else None
    case ThreadActivated => Some(Activated)
    case ThreadRevisited => Some(Activated)
    case ThreadDormant => Some(Dormant)
    case ThreadClosed => Some(Closed)
    case _ => None
  }

  predicate Touches(e: Event) {
    match e.body
    case ThoughtCreated(_) => true
    case ExperienceCreated => true
    case UserMessage => true
    case _ => false
  }

  /** One event of the fold. */
  function Applied(threads: Threads, e: Event, k: nat): Threads {
    var t := e.thread;
    var known := if t in threads then threads[t].events else [];
    if e.body.ThreadCreated? then
      if Named(t) then threads[t := ThreadView(Created, k, [k])] else threads
    else if Lifecycle(e).Some? then
      threads[t := ThreadView(Lifecycle(e).value, k, known + [k])]
    else if Touches(e) && Named(t) && t in threads then
      threads[t := threads[t].(last := k, events := if k in known then known else known + [k])]
    else threads
  }

  function Rebuilt(log: Log): Threads {
    if log == [] then map[] else Applied(Rebuilt(log[..|log| - 1]), log[|log| - 1], |log| - 1)
  }

  function ActiveThreads(threads: Threads): set<Option<string>> {
    set t | t in threads && threads[t].state.Activated?
  }

  class Mind {
    var threads: Threads

    constructor ()
      ensures threads == map[]
    {
      threads := map[];
    }

    /** Updates the view in place, one branch per event type. */
    method Apply(e: Event, k: nat)
      modifies this
      ensures threads == Applied(old(threads), e, k)
    {
      var t := e.thread;
      match e.body {
        case ThreadCreated(_, _, _) =>
          if Named(t) {
            threads := threads[t := ThreadView(Created, k, [k])];
          }
        case ThreadActivated => SetState(t, Activated, k);
        case ThreadRevisited => SetState(t, Activated, k);
        case ThreadDormant => SetState(t, Dormant, k);
        case ThreadClosed => SetState(t, Closed, k);
        case ThoughtCreated(_) => Touch(t, k);
        case ExperienceCreated => Touch(t, k);
        case UserMessage => Touch(t, k);
        case _ =>
      }
    }

    method SetState(t: Option<string>, state: ThreadState, k: nat)
      modifies this
      ensures threads == old(threads)[t := ThreadView(state, k,
                           (if t in old(threads) then old(threads)[t].events else []) + [k])]
    {
      if t !in threads {
        // a thread referenced without a created event gets a minimal view
        threads := threads[t := ThreadView(Created, k, [])];
      }
      threads := threads[t := ThreadView(state, k, threads[t].events + [k])];
    }

    method Touch(t: Option<string>, k: nat)
      modifies this
      ensures threads == if Named(t) && t in old(threads)
                         then old(threads)[t := old(threads)[t].(last := k,
                                events := if k in old(threads)[t].events then old(threads)[t].events
                                          else old(threads)[t].events + [k])]
                         else old(threads)
    {
      if Named(t) && t in threads {
        var v := threads[t];
        if k !in v.events {
          v := v.(events := v.events + [k]);
        }
        threads := threads[t := v.(last := k)];
      }
    }

  }

  /** The paging loop: whatever the page size, the pages put together are the whole log. */
  method AllEvents(log: Log, page: nat) returns (events: Log)
    requires page > 0
    ensures events == log
  {
    events := [];
    var batch := SinceSeq(log, 0, page);
    while batch != []
      invariant |events| <= |log| && events == log[..|events|]
      invariant batch == SinceSeq(log, |events|, page)
      decreases |log| - |events|
    {
      events := events + batch;
      batch := SinceSeq(log, |events|, page);
    }
  }

  method FromStore(log: Log, page: nat) returns (mind: Mind)
    requires page > 0
    ensures fresh(mind) && mind.threads == Rebuilt(log)
  {
    mind := new Mind();
    var events := AllEvents(log, page);
    for k := 0 to |events|
      invariant fresh(mind) && mind.threads == Rebuilt(log[..k])
    {
      assert log[..k + 1][..k] == log[..k];
      mind.Apply(events[k], k);
    }
    assert log[..|log|] == log;
  }

  // ------------------------------------------------------- what the fold says

  predicate SetsState(e: Event, t: Option<string>) {
    Lifecycle(e).Some? && e.thread == t
  }

  /** The newest event that sets the state of thread `t`. */
  function LastLifecycle(log: Log, t: Option<string>): (r: Option<nat>)
    ensures r.Some? ==> r.value < |log| && SetsState(log[r.value], t)
    ensures forall k | 0 <= k < |log| && SetsState(log[k], t) :: r.Some? && k <= r.value
  {
    if log == [] then None
    else if SetsState(log[|log| - 1], t) then Some(|log| - 1)
    else
      var r := LastLifecycle(log[..|log| - 1], t);
      assert forall k | 0 <= k < |log| - 1 :: log[..|log| - 1][k] == log[k];
      r
  }

  /** The view of a thread is decided by the newest of its lifecycle events, whatever touched it since. */
  lemma {:induction false} StateIsLastLifecycle(log: Log, t: Option<string>)
    ensures t in Rebuilt(log) <==> LastLifecycle(log, t).Some?
    ensures t in Rebuilt(log) ==> Some(Rebuilt(log)[t].state) == Lifecycle(log[LastLifecycle(log, t).value])
  {
    if log != [] {
      StateIsLastLifecycle(log[..|log| - 1], t);
    }
  }

  /** A view whose events run forward, end with its last event and belong to the thread. */
  ghost predicate Forward(log: Log, t: Option<string>, v: ThreadView) {
    && v.events != [] && v.events[|v.events| - 1] == v.last && v.last < |log|
    && (forall i, j | 0 <= i < j < |v.events| :: v.events[i] < v.events[j])
    && (forall i | 0 <= i < |v.events| :: v.events[i] <= v.last && log[v.events[i]].thread == t)
  }

  lemma ForwardGrows(log: Log, e: Event, t: Option<string>, v: ThreadView)
    requires Forward(log, t, v)
    ensures Forward(log + [e], t, v)
    ensures e.thread == t ==> Forward(log + [e], t, v.(last := |log|, events := v.events + [|log|]))
    ensures |log| !in v.events
  {
    assert forall i | 0 <= i < |v.events| :: (log + [e])[v.events[i]] == log[v.events[i]];
  }

  lemma AppliedForward(log: Log, e: Event, threads: Threads, t: Option<string>)
    requires t in threads ==> Forward(log, t, threads[t])
    requires t in Applied(threads, e, |log|)
    ensures Forward(log + [e], t, Applied(threads, e, |log|)[t])
  {
    if t in threads {
      ForwardGrows(log, e, t, threads[t]);
    }
  }

  /** A thread's event list runs forward in time, without repeats, and ends with its last event. */
  lemma {:induction false} EventsRunForward(log: Log, t: Option<string>)
    requires t in Rebuilt(log)
    ensures Forward(log, t, Rebuilt(log)[t])
  {
    var front, e := log[..|log| - 1], log[|log| - 1];
    assert log == front + [e];
    if t in Rebuilt(front) {
      EventsRunForward(front, t);
    }
    AppliedForward(front, e, Rebuilt(front), t);
  }
}
