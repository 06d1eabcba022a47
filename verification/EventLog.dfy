/** The append-only event log (event_store.py, models.py).

    An event's id is its position in the log; `seq` in the source is that position plus one.
    A reference held by an event is either such an id or a name (a thread or entity id) that no
    event ever carries. Links are validated on append; the ids kept in an event's metadata
    (`recalled`, a question's evidence) are not. */
module EventLog {

  datatype Option<+T> = None | Some(value: T)

  datatype Ref = Evt(pos: nat) | Name(text: string)

  datatype Origin = SelfThread | PrivateProject | World | UserDerived | Untagged

  /** The six states of the circadian machine (circadian.py). */
  datatype Rhythm = Active | Quiet | Drowsy | Asleep | Consolidating | Waking

  /** How the world window finds its material (world.py). */
  datatype EntryMode = Following | AtTheEdge | Alien | ByAccident

  datatype SleepAction = Compress | Reactivate | CrossLink

  datatype SleepResult = Noop | Merged | Dreamed

  /** The event type with the part of the content that some reader uses.
      `Other` stands for every type that is not listed. */
  datatype Body =
    | UserMessage
    | ExperienceCreated
    | ThoughtCreated(origin: Origin)
    | ThreadCreated(selfOrigin: bool, title: string, derived: set<Ref>)
    | ThreadActivated
    | ThreadDormant
    | ThreadClosed
    | ThreadRevisited
    | QuestionCreated(topic: string, evidence: seq<Ref>)
    | QuestionRevisited(question: Ref)
    | WindowOpened(mode: EntryMode, looked: string)
    | Observation(topic: string, item: string)
    | ImpressionFormed(topic: string, item: string)
    | ImpressionPromoted(impression: Ref)
    | MemoryConsolidated(action: SleepAction)
    | ShareCandidate
    | WakeStarted
    | SleepStarted
    | SleepCompleted(result: SleepResult, eventCount: nat)
    | StateChanged(from: Rhythm, to: Rhythm)
    | ProjectCreated(project: Ref)
    | Other(typ: string)

  datatype Event = Event(
    at: real,                 // created_at, in seconds
    system: bool,             // visibility == "system"
    text: string,
    thread: Option<string>,   // the thread_id of the links or of the content
    source: Option<string>,   // content.source
    causedBy: seq<Ref>,
    relatedTo: seq<Ref>,
    recalled: seq<Ref>,       // metadata.recalled: not validated by append
    copies: seq<Ref>,         // the thought a promotion says it came from (content, provenance)
    body: Body)

  type Log = seq<Event>

  function Draft(system: bool, body: Body): Event {
    Event(0.0, system, "", None, None, [], [], [], [], body)
  }

  function TypeName(b: Body): string {
    match b
    case UserMessage => "conversation.user_message"
    case ExperienceCreated => "experience.created"
    case ThoughtCreated(_) => "thought.created"
    case ThreadCreated(_, _, _) => "thread.created"
    case ThreadActivated => "thread.activated"
    case ThreadDormant => "thread.dormant"
    case ThreadClosed => "thread.closed"
    case ThreadRevisited => "thread.revisited"
    case QuestionCreated(_, _) => "question.created"
    case QuestionRevisited(_) => "question.revisited"
    case WindowOpened(_, _) => "world.window_opened"
    case Observation(_, _) => "world.observation"
    case ImpressionFormed(_, _) => "impression.formed"
    case ImpressionPromoted(_) => "impression.promoted"
    case MemoryConsolidated(_) => "memory.consolidated"
    case ShareCandidate => "memory.share_candidate"
    case WakeStarted => "wake.started"
    case SleepStarted => "sleep.started"
    case SleepCompleted(_, _) => "sleep.completed"
    case StateChanged(_, _) => "circadian.state_changed"
    case ProjectCreated(_) => "project.created"
    case Other(t) => t
  }

  predicate IsUser(e: Event) {
    e.body.UserMessage?
  }

  predicate IsThought(e: Event) {
    e.body.ThoughtCreated?
  }

  /** The part of the type before its first dot. */
  function Family(t: string): string {
    if t == "" || t[0] == '.' then "" else [t[0]] + Family(t[1..])
  }

  /** The same, asked of one family: the type is its name or goes on with a dot. */
  predicate InFamily(t: string, f: string) {
    t == f || f + "." <= t
  }

  lemma {:induction false} FamilyIs(t: string, f: string)
    requires '.' !in f
    ensures Family(t) == f <==> InFamily(t, f)
  {
    if t != "" && t[0] != '.' && f != "" && f[0] == t[0] {
      FamilyIs(t[1..], f[1..]);
      assert f == [f[0]] + f[1..] && t == [t[0]] + t[1..];
      assert f + "." == [f[0]] + (f[1..] + ".");
    } else if t == "" || t[0] == '.' {
      assert f != "" ==> f[0] != '.';
    }
  }

  // ------------------------------------------------------------ invariants

  function Links(e: Event): seq<Ref> {
    e.causedBy + e.relatedTo
  }

  predicate Resolves(log: Log, r: Ref) {
    r.Evt? && r.pos < |log|
  }

  predicate Dangles(log: Log, r: Ref) {
    r.Evt? && r.pos >= |log|
  }

  /** No link of `e` names an event that is not in `log`. */
  predicate LinksResolve(log: Log, e: Event) {
    forall i | 0 <= i < |Links(e)| :: !Dangles(log, Links(e)[i])
  }

  /** Every link points to an earlier event. */
  ghost predicate Causal(log: Log) {
    forall k | 0 <= k < |log| :: LinksResolve(log[..k], log[k])
  }

  ghost predicate TimeOrdered(log: Log) {
    forall i, j | 0 <= i <= j < |log| :: log[i].at <= log[j].at
  }

  lemma CausalLink(log: Log, k: nat, r: Ref)
    requires Causal(log) && k < |log| && r in Links(log[k]) && r.Evt?
    ensures r.pos < k
  {
    var i :| 0 <= i < |Links(log[k])| && Links(log[k])[i] == r;
    assert LinksResolve(log[..k], log[k]);
    assert !Dangles(log[..k], Links(log[k])[i]);
  }

  lemma CausalAppend(log: Log, e: Event)
    requires Causal(log) && LinksResolve(log, e)
    ensures Causal(log + [e])
  {
    var log' := log + [e];
    forall k | 0 <= k < |log'| ensures LinksResolve(log'[..k], log'[k]) {
      if k < |log| {
        assert log'[..k] == log[..k];
      } else {
        assert log'[..k] == log;
      }
    }
  }

  /** What every event keeps, the log keeps. */
  lemma {:induction false} AlongLog(log: Log, n: nat, m: nat, f: Log -> bool)
    requires n <= m <= |log| && f(log[..n])
    requires forall k | n < k <= |log| && f(log[..k - 1]) :: f(log[..k])
    ensures f(log[..m])
    decreases m
  {
    if n < m {
      AlongLog(log, n, m - 1, f);
    }
  }

  // ----------------------------------------------------------------- reads

  predicate InLog(log: Log, rows: seq<nat>) {
    forall i | 0 <= i < |rows| :: rows[i] < |log|
  }

  function PositionsFrom(log: Log, p: Event -> bool, n: nat): (s: seq<nat>)
    requires n <= |log|
    ensures forall i | 0 <= i < |s| :: s[i] < n && p(log[s[i]])
    ensures forall i, j | 0 <= i < j < |s| :: s[i] < s[j]
    ensures forall k | 0 <= k < n && p(log[k]) :: k in s
  {
    if n == 0 then [] else
      var s := PositionsFrom(log, p, n - 1);
      if p(log[n - 1]) then
        assert forall k | 0 <= k < n && p(log[k]) :: k in s || k == n - 1;
        s + [n - 1]
      else s
  }

  lemma PositionsOfPrefix(log: Log, log': Log, p: Event -> bool, n: nat)
    requires n <= |log| && log <= log'
    ensures PositionsFrom(log, p, n) == PositionsFrom(log', p, n)
  {
  }

  /** Positions of the events satisfying `p`, oldest first: a SELECT ordered by seq. */
  function Positions(log: Log, p: Event -> bool): (s: seq<nat>)
    ensures forall i | 0 <= i < |s| :: s[i] < |log| && p(log[s[i]])
    ensures forall i, j | 0 <= i < j < |s| :: s[i] < s[j]
    ensures forall k | 0 <= k < |log| && p(log[k]) :: k in s
  {
    PositionsFrom(log, p, |log|)
  }

  lemma PositionsAppend(log: Log, e: Event, p: Event -> bool)
    ensures Positions(log + [e], p) == if p(e) then Positions(log, p) + [|log|] else Positions(log, p)
  {
    PositionsOfPrefix(log, log + [e], p, |log|);
  }

  /** The first `limit` rows of an ascending read. */
  function Oldest(log: Log, p: Event -> bool, limit: nat): seq<nat> {
    var s := Positions(log, p);
    if limit <= |s| then s[..limit] else s
  }

  function Head(s: seq<nat>, limit: nat): seq<nat> {
    if limit <= |s| then s[..limit] else s
  }

  lemma HeadKeeps(s: seq<nat>, t: seq<nat>, limit: nat, k: nat)
    requires s <= t && k in Head(s, limit)
    ensures k in Head(t, limit)
  {
    var i :| 0 <= i < |Head(s, limit)| && Head(s, limit)[i] == k;
    assert Head(t, limit)[i] == k;
  }

  lemma OldestIsHead(log: Log, p: Event -> bool, limit: nat)
    ensures Oldest(log, p, limit) == Head(Positions(log, p), limit)
  {
  }

  /** The first `limit` rows of a descending read, newest first. */
  function Newest(log: Log, p: Event -> bool, limit: nat): seq<nat> {
    if log == [] || limit == 0 then []
    else if p(log[|log| - 1]) then [|log| - 1] + Newest(log[..|log| - 1], p, limit - 1)
    else Newest(log[..|log| - 1], p, limit)
  }

  lemma NewestAppend(log: Log, e: Event, p: Event -> bool, limit: nat)
    ensures Newest(log + [e], p, limit)
            == if p(e) && limit > 0 then [|log|] + Newest(log, p, limit - 1) else Newest(log, p, limit)
  {
    assert (log + [e])[..|log|] == log;
  }

  lemma {:induction false} NewestWithin(log: Log, p: Event -> bool, limit: nat)
    ensures forall i | 0 <= i < |Newest(log, p, limit)| :: Newest(log, p, limit)[i] < |log|
  {
    if log != [] && limit > 0 {
      NewestWithin(log[..|log| - 1], p, if p(log[|log| - 1]) then limit - 1 else limit);
    }
  }

  /** The events from position `lo` on that satisfy `p`. */
  function CountFrom(log: Log, lo: nat, p: Event -> bool): nat {
    if |log| <= lo then 0 else
      CountFrom(log[..|log| - 1], lo, p) + if p(log[|log| - 1]) then 1 else 0
  }

  lemma CountFromAppend(log: Log, e: Event, lo: nat, p: Event -> bool)
    ensures CountFrom(log + [e], lo, p) == CountFrom(log, lo, p) + if lo <= |log| && p(e) then 1 else 0
  {
    assert (log + [e])[..|log|] == log;
  }

  ghost predicate Reads(log: Log, k: nat, p: Event -> bool, limit: nat) {
    k in Newest(log, p, limit) <==> k < |log| && p(log[k]) && CountFrom(log, k + 1, p) < limit
  }

  lemma NoneAfter(log: Log, lo: nat, p: Event -> bool)
    requires |log| <= lo
    ensures CountFrom(log, lo, p) == 0
  {
  }

  lemma {:induction false} CountLess(log: Log, k: nat, p: Event -> bool)
    requires k < |log| && p(log[k])
    ensures CountFrom(log, k + 1, p) < CountFrom(log, 0, p)
    decreases |log|
  {
    var front := log[..|log| - 1];
    if k < |front| {
      CountLess(front, k, p);
    } else {
      NoneAfter(log, k + 1, p);
    }
  }

  lemma ReadsAppend(log: Log, e: Event, log': Log, k: nat, p: Event -> bool, limit: nat)
    requires log' == log + [e] && Reads(log, k, p, limit) && (limit > 0 ==> Reads(log, k, p, limit - 1))
    ensures Reads(log', k, p, limit)
  {
    NewestAppend(log, e, p, limit);
    CountFromAppend(log, e, k + 1, p);
    if k >= |log| {
      NoneAfter(log, k + 1, p);
    }
  }

  lemma NothingToRead(p: Event -> bool, limit: nat)
    ensures Newest([], p, limit) == []
  {
  }

  /** A row is read if and only if fewer rows than the limit came after it. */
  lemma {:induction false} NewestIff(log: Log, k: nat, p: Event -> bool, limit: nat)
    ensures Reads(log, k, p, limit)
    decreases |log|
  {
    if log == [] {
      NothingToRead(p, limit);
    } else {
      var front := log[..|log| - 1];
      NewestIff(front, k, p, limit);
      if limit > 0 {
        NewestIff(front, k, p, limit - 1);
      }
      ReadsAppend(front, log[|log| - 1], log, k, p, limit);
    }
  }

  /** The single row of `list(1, type_prefix, order="desc")`. */
  function Last(log: Log, p: Event -> bool): (r: Option<nat>)
    ensures r.Some? ==> r.value < |log| && p(log[r.value])
    ensures forall k | 0 <= k < |log| && p(log[k]) :: r.Some? && k <= r.value
  {
    if |log| == 0 then None
    else if p(log[|log| - 1]) then Some(|log| - 1)
    else
      var r := Last(log[..|log| - 1], p);
      assert forall k | 0 <= k < |log| - 1 :: log[..|log| - 1][k] == log[k];
      r
  }

  /** `since_seq(seq, limit)`: rows after the first `seq` ones, oldest first. */
  function SinceSeq(log: Log, seq_: nat, limit: nat): Log {
    if seq_ >= |log| then []
    else if seq_ + limit <= |log| then log[seq_..seq_ + limit]
    else log[seq_..]
  }

  // ----------------------------------------------------------------- store

  datatype Appended = Stored(pos: nat) | DanglingLink(link: Ref)

  class EventStore {
    var log: Log
    var clock: real

    ghost predicate Valid()
      reads this
    {
      && Causal(log)
      && TimeOrdered(log)
      && (log != [] ==> log[|log| - 1].at <= clock)
    }

    constructor (start: real)
      ensures Valid() && log == [] && clock == start
    {
      log, clock := [], start;
    }

    /** The injected clock moves; it never runs backwards. */
    method Advance(now: real)
      requires Valid() && clock <= now
      modifies this`clock
      ensures Valid() && clock == now
    {
      clock := now;
    }

    method Validate(draft: Event) returns (bad: Option<Ref>)
      ensures bad.None? <==> LinksResolve(log, draft)
      ensures bad.Some? ==> bad.value in Links(draft) && Dangles(log, bad.value)
    {
      var links := Links(draft);
      for i := 0 to |links|
        invariant forall j | 0 <= j < i :: !Dangles(log, links[j])
      {
        if links[i].Evt? && links[i].pos >= |log| {
          assert Dangles(log, Links(draft)[i]);
          return Some(links[i]);
        }
      }
      return None;
    }

    /** Appends one event stamped with the store's clock, or rejects it whole. */
    method Append(draft: Event) returns (r: Appended)
      requires Valid()
      modifies this`log
      ensures Valid()
      ensures r.Stored? <==> LinksResolve(old(log), draft)
      ensures r.Stored? ==> r.pos == |old(log)| && log == old(log) + [draft.(at := clock)]
      ensures r.DanglingLink? ==> log == old(log) && r.link in Links(draft) && Dangles(log, r.link)
    {
      var bad := Validate(draft);
      if bad.Some? {
        return DanglingLink(bad.value);
      }
      var e := draft.(at := clock);
      assert Links(e) == Links(draft);
      CausalAppend(log, e);
      r := Stored(|log|);
      log := log + [e];
    }
  }
}
