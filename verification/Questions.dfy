/** The lifecycle of a question (world.py). A question dies by being left alone: dormancy is computed
    from timestamps, never written. Reads stop after `cap` rows, oldest first. */
module Questions {
  import opened EventLog
  import opened Genesis
  import opened Bridge

  predicate IsQuestion(e: Event) {
    e.body.QuestionCreated?
  }

  // ------------------------------------------------------------- last touch

  /** The rows of `ps` that revisit `q`. */
  function TouchesOf(log: Log, ps: seq<nat>, q: nat): (rv: seq<nat>)
    requires InLog(log, ps)
    ensures InLog(log, rv)
  {
    if ps == [] then [] else
      var rest, k := TouchesOf(log, ps[..|ps| - 1], q), ps[|ps| - 1];
      if RevisitOf(log, k, q) then rest + [k] else rest
  }

  function MaxAt(log: Log, rv: seq<nat>, base: real): real
    requires InLog(log, rv)
  {
    if rv == [] then base else
      var rest, t := MaxAt(log, rv[..|rv| - 1], base), log[rv[|rv| - 1]].at;
      if rest < t then t else rest
  }

  function LastTouch(log: Log, q: nat, cap: nat): real
    requires q < |log|
  {
    LatestOf(log, Oldest(log, IsRevisit, cap), q)
  }

  predicate Dormant(log: Log, q: nat, now: real, dormantS: real, cap: nat)
    requires q < |log|
  {
    now - LastTouch(log, q, cap) > dormantS
  }

  lemma {:induction false} TouchesOfPrefix(log: Log, e: Event, ps: seq<nat>, q: nat)
    requires InLog(log, ps)
    ensures TouchesOf(log + [e], ps, q) == TouchesOf(log, ps, q)
  {
    if ps != [] {
      TouchesOfPrefix(log, e, ps[..|ps| - 1], q);
    }
  }

  lemma {:induction false} MaxAtPrefix(log: Log, e: Event, rv: seq<nat>, base: real)
    requires InLog(log, rv)
    ensures MaxAt(log + [e], rv, base) == MaxAt(log, rv, base)
  {
    if rv != [] {
      MaxAtPrefix(log, e, rv[..|rv| - 1], base);
    }
  }

  predicate Read(log: Log, cap: nat) {
    |Positions(log, IsRevisit)| < cap
  }

  /** The listed revisits after one append. */
  lemma ListedAppend(log: Log, e: Event, cap: nat)
    ensures Oldest(log + [e], IsRevisit, cap)
            == if IsRevisit(e) && Read(log, cap) then Oldest(log, IsRevisit, cap) + [|log|]
               else Oldest(log, IsRevisit, cap)
  {
    PositionsAppend(log, e, IsRevisit);
  }

  /** The latest touch of `q` among the rows `ps`. */
  function LatestOf(log: Log, ps: seq<nat>, q: nat): real
    requires InLog(log, ps) && q < |log|
  {
    MaxAt(log, TouchesOf(log, ps, q), log[q].at)
  }

  lemma LatestBefore(log: Log, e: Event, ps: seq<nat>, q: nat)
    requires InLog(log, ps) && q < |log|
    ensures LatestOf(log + [e], ps, q) == LatestOf(log, ps, q)
  {
    TouchesOfPrefix(log, e, ps, q);
    MaxAtPrefix(log, e, TouchesOf(log, ps, q), log[q].at);
  }

  lemma LatestSnoc(log: Log, ps: seq<nat>, k: nat, q: nat)
    requires InLog(log, ps) && q < |log| && k < |log|
    ensures LatestOf(log, ps + [k], q)
            == if RevisitOf(log, k, q) && LatestOf(log, ps, q) < log[k].at then log[k].at else LatestOf(log, ps, q)
  {
    var rv := TouchesOf(log, ps, q);
    assert (ps + [k])[..|ps|] == ps && (rv + [k])[..|rv|] == rv;
  }

  /** A revisit moves the last touch forward, while there is room left in the read. */
  lemma LastTouchAppend(log: Log, e: Event, q: nat, cap: nat)
    requires q < |log|
    ensures LastTouch(log + [e], q, cap)
            == if e.body == QuestionRevisited(Evt(q)) && Read(log, cap) && LastTouch(log, q, cap) < e.at
               then e.at else LastTouch(log, q, cap)
  {
    var ps := Oldest(log, IsRevisit, cap);
    ListedAppend(log, e, cap);
    LatestBefore(log, e, ps, q);
    if IsRevisit(e) && Read(log, cap) {
      LatestSnoc(log + [e], ps, |log|, q);
    }
  }

  lemma {:induction false} LastTouchGrows(log: Log, n: nat, q: nat, cap: nat)
    requires q < n <= |log|
    ensures LastTouch(log[..n], q, cap) <= LastTouch(log, q, cap)
    decreases |log|
  {
    if n == |log| {
      assert log[..n] == log;
    } else {
      var front := log[..|log| - 1];
      assert front[..n] == log[..n] && log == front + [log[|log| - 1]];
      LastTouchGrows(front, n, q, cap);
      LastTouchAppend(front, log[|log| - 1], q, cap);
    }
  }

  // -------------------------------------------------------- derived lifecycle

  datatype Row = Row(question: nat, topic: string, createdAt: real, lastTouched: real, revisits: nat,
                     dormant: bool)

  function RowOf(log: Log, q: nat, now: real, dormantS: real, cap: nat): Row
    requires q < |log| && IsQuestion(log[q])
  {
    Row(q, log[q].body.topic, log[q].at, LastTouch(log, q, cap),
        |TouchesOf(log, Oldest(log, IsRevisit, cap), q)|, Dormant(log, q, now, dormantS, cap))
  }

  function Group(byQ: map<Ref, seq<nat>>, q: nat): seq<nat> {
    if Evt(q) in byQ then byQ[Evt(q)] else []
  }

  ghost predicate Grouped(byQ: map<Ref, seq<nat>>, log: Log, revisits: seq<nat>) {
    InLog(log, revisits) && forall q: nat {:trigger Group(byQ, q)} :: Group(byQ, q) == TouchesOf(log, revisits, q)
  }

  method GroupByQuestion(log: Log, revisits: seq<nat>) returns (byQ: map<Ref, seq<nat>>)
    requires InLog(log, revisits)
    requires forall i | 0 <= i < |revisits| :: IsRevisit(log[revisits[i]])
    ensures Grouped(byQ, log, revisits)
  {
    byQ := map[];
    for i := 0 to |revisits|
      invariant Grouped(byQ, log, revisits[..i])
    {
      var k := revisits[i];
      var r := log[k].body.question;
      var grown := byQ[r := (if r in byQ then byQ[r] else []) + [k]];
      forall q: nat ensures Group(grown, q) == TouchesOf(log, revisits[..i + 1], q) {
        assert revisits[..i + 1][..i] == revisits[..i];
        assert Group(byQ, q) == TouchesOf(log, revisits[..i], q);
      }
      byQ := grown;
    }
    assert revisits[..|revisits|] == revisits;
  }

  method LatestTouch(log: Log, rv: seq<nat>, created: real) returns (t: real)
    requires InLog(log, rv)
    ensures t == MaxAt(log, rv, created)
  {
    t := created;
    for j := 0 to |rv|
      invariant t == MaxAt(log, rv[..j], created)
    {
      assert rv[..j + 1][..j] == rv[..j];
      if t < log[rv[j]].at {
        t := log[rv[j]].at;
      }
    }
    assert rv[..|rv|] == rv;
  }

  method MakeRow(log: Log, q: nat, byQ: map<Ref, seq<nat>>, now: real, dormantS: real, ghost cap: nat)
    returns (row: Row)
    requires q < |log| && IsQuestion(log[q]) && Grouped(byQ, log, Oldest(log, IsRevisit, cap))
    ensures row == RowOf(log, q, now, dormantS, cap)
  {
    var rv := Group(byQ, q);
    var last := LatestTouch(log, rv, log[q].at);
    row := Row(q, log[q].body.topic, log[q].at, last, |rv|, now - last > dormantS);
  }

  predicate AllQuestions(log: Log, qs: seq<nat>) {
    forall i | 0 <= i < |qs| :: qs[i] < |log| && IsQuestion(log[qs[i]])
  }

  /** `rows` describes the questions `qs`, in that order. */
  predicate Describes(rows: seq<Row>, log: Log, qs: seq<nat>, now: real, dormantS: real, cap: nat) {
    && AllQuestions(log, qs)
    && |rows| == |qs|
    && forall i | 0 <= i < |rows| :: rows[i] == RowOf(log, qs[i], now, dormantS, cap)
  }

  function TableOf(log: Log, qs: seq<nat>, now: real, dormantS: real, cap: nat): (rows: seq<Row>)
    requires AllQuestions(log, qs)
    ensures |rows| == |qs|
  {
    if qs == [] then [] else
      TableOf(log, qs[..|qs| - 1], now, dormantS, cap) + [RowOf(log, qs[|qs| - 1], now, dormantS, cap)]
  }

  lemma {:induction false} TableAt(log: Log, qs: seq<nat>, i: nat, now: real, dormantS: real, cap: nat)
    requires AllQuestions(log, qs) && i < |qs|
    ensures TableOf(log, qs, now, dormantS, cap)[i] == RowOf(log, qs[i], now, dormantS, cap)
  {
    if i < |qs| - 1 {
      TableAt(log, qs[..|qs| - 1], i, now, dormantS, cap);
    }
  }

  lemma TableDescribes(log: Log, qs: seq<nat>, now: real, dormantS: real, cap: nat)
    requires AllQuestions(log, qs)
    ensures Describes(TableOf(log, qs, now, dormantS, cap), log, qs, now, dormantS, cap)
  {
    forall i | 0 <= i < |qs|
      ensures TableOf(log, qs, now, dormantS, cap)[i] == RowOf(log, qs[i], now, dormantS, cap)
    {
      TableAt(log, qs, i, now, dormantS, cap);
    }
  }

  lemma TableSnoc(log: Log, qs: seq<nat>, i: nat, now: real, dormantS: real, cap: nat)
    requires AllQuestions(log, qs) && i < |qs|
    ensures TableOf(log, qs[..i + 1], now, dormantS, cap)
            == TableOf(log, qs[..i], now, dormantS, cap) + [RowOf(log, qs[i], now, dormantS, cap)]
  {
    assert qs[..i + 1][..i] == qs[..i];
  }

  method MakeRows(log: Log, created: seq<nat>, byQ: map<Ref, seq<nat>>, now: real, dormantS: real, ghost cap: nat)
    returns (rows: seq<Row>)
    requires AllQuestions(log, created) && Grouped(byQ, log, Oldest(log, IsRevisit, cap))
    ensures rows == TableOf(log, created, now, dormantS, cap)
  {
    rows := [];
    for i := 0 to |created|
      invariant rows == TableOf(log, created[..i], now, dormantS, cap)
    {
      var row := MakeRow(log, created[i], byQ, now, dormantS, cap);
      TableSnoc(log, created, i, now, dormantS, cap);
      rows := rows + [row];
    }
    assert created[..|created|] == created;
  }

  /** One row per listed question, in order of creation. */
  method QuestionState(log: Log, now: real, dormantS: real, cap: nat) returns (rows: seq<Row>)
    ensures Describes(rows, log, Oldest(log, IsQuestion, cap), now, dormantS, cap)
  {
    var created := Oldest(log, IsQuestion, cap);
    var byQ := GroupByQuestion(log, Oldest(log, IsRevisit, cap));
    rows := MakeRows(log, created, byQ, now, dormantS, cap);
    TableDescribes(log, created, now, dormantS, cap);
  }

  // ------------------------------------------------------------- the writer

  /** An open question about the observed topic, asked before this observation. */
  predicate Touchable(log: Log, q: nat, obs: nat, dormantS: real, cap: nat)
    requires q < |log| && IsQuestion(log[q]) && obs < |log| && log[obs].body.Observation?
  {
    && !Dormant(log, q, log[obs].at, dormantS, cap)
    && log[q].body.topic == log[obs].body.topic
    && log[q].at < log[obs].at
  }

  function Picked(qs: seq<nat>, f: nat -> bool): (out: seq<nat>)
    ensures forall q :: q in out <==> q in qs && f(q)
  {
    if qs == [] then [] else
      var rest, q := Picked(qs[..|qs| - 1], f), qs[|qs| - 1];
      assert qs == qs[..|qs| - 1] + [q];
      if f(q) then rest + [q] else rest
  }

  lemma PickedSnoc(qs: seq<nat>, i: nat, f: nat -> bool)
    requires i < |qs|
    ensures Picked(qs[..i + 1], f) == Picked(qs[..i], f) + if f(qs[i]) then [qs[i]] else []
  {
    assert qs[..i + 1][..i] == qs[..i];
  }

  function TouchableOf(log: Log, qs: seq<nat>, obs: nat, dormantS: real, cap: nat): (out: seq<nat>)
    requires obs < |log| && log[obs].body.Observation?
    requires AllQuestions(log, qs)
    ensures forall q :: q in out <==> q in qs && Touchable(log, q, obs, dormantS, cap)
  {
    Picked(qs, (q: nat) => q < |log| && IsQuestion(log[q]) && Touchable(log, q, obs, dormantS, cap))
  }

  function Revisiting(q: nat, obs: nat): Event {
    Draft(false, QuestionRevisited(Evt(q))).(causedBy := [Evt(obs)], relatedTo := [Evt(q)])
  }

  function Revisit(q: nat, obs: nat, now: real): Event {
    Revisiting(q, obs).(at := now)
  }

  /** One question met again: its revisit, then the activations the bridge finds on the log so far. */
  function Met(log: Log, q: nat, obs: nat, now: real, st: Settings): Log
    requires q < |log|
  {
    var met := log + [Revisit(q, obs, now)];
    met + Activations(Bridged(met, q, st), q, |log|, now)
  }

  /** The log once the questions `touched` have been met again, one after the other. */
  function TouchLog(log: Log, touched: seq<nat>, obs: nat, now: real, st: Settings): (r: Log)
    requires InLog(log, touched)
    ensures log <= r
  {
    if touched == [] then log else
      Met(TouchLog(log, touched[..|touched| - 1], obs, now, st), touched[|touched| - 1], obs, now, st)
  }

  lemma TouchLogSnoc(log: Log, touched: seq<nat>, q: nat, obs: nat, now: real, st: Settings)
    requires InLog(log, touched) && q < |log|
    ensures InLog(log, touched + [q])
    ensures TouchLog(log, touched + [q], obs, now, st) == Met(TouchLog(log, touched, obs, now, st), q, obs, now, st)
  {
    assert (touched + [q])[..|touched|] == touched;
  }

  // what it adds, seen from the questions

  /** The questions revisited in a log, in order. */
  function Revisited(log: Log): seq<Ref> {
    if log == [] then [] else
      var rest, e := Revisited(log[..|log| - 1]), log[|log| - 1];
      if IsRevisit(e) then rest + [e.body.question] else rest
  }

  lemma RevisitedSnoc(log: Log, e: Event)
    ensures Revisited(log + [e]) == if IsRevisit(e) then Revisited(log) + [e.body.question] else Revisited(log)
  {
    assert (log + [e])[..|log|] == log;
  }

  lemma {:induction false} NothingRevisited(log: Log, more: Log)
    requires forall i | 0 <= i < |more| :: !IsRevisit(more[i])
    ensures Revisited(log + more) == Revisited(log)
  {
    if more == [] {
      assert log + more == log;
    } else {
      var n := |more| - 1;
      NothingRevisited(log, more[..n]);
      RevisitedSnoc(log + more[..n], more[n]);
      assert log + more == log + more[..n] + [more[n]];
    }
  }

  lemma MeetingRevisits(log: Log, q: nat, obs: nat, now: real, st: Settings)
    requires q < |log|
    ensures Revisited(Met(log, q, obs, now, st)) == Revisited(log) + [Evt(q)]
  {
    RevisitedSnoc(log, Revisit(q, obs, now));
    var met := log + [Revisit(q, obs, now)];
    ActivationsRevisitNothing(met, Bridged(met, q, st), q, |log|, now);
  }

  lemma ActivationsRevisitNothing(log: Log, ts: seq<Thread>, q: nat, revisit: nat, now: real)
    ensures Revisited(log + Activations(ts, q, revisit, now)) == Revisited(log)
  {
    NothingRevisited(log, Activations(ts, q, revisit, now));
  }

  function Evts(qs: seq<nat>): seq<Ref> {
    if qs == [] then [] else Evts(qs[..|qs| - 1]) + [Evt(qs[|qs| - 1])]
  }

  lemma Appended(a: seq<Ref>, b: seq<Ref>, r: Ref)
    ensures a + b + [r] == a + (b + [r])
  {
  }

  /** Whatever the bridge writes in between, each touched question is revisited once, in order. */
  lemma {:induction false} TouchedAreRevisited(log: Log, touched: seq<nat>, obs: nat, now: real, st: Settings)
    requires InLog(log, touched)
    ensures Revisited(TouchLog(log, touched, obs, now, st)) == Revisited(log) + Evts(touched)
  {
    if touched == [] {
      assert Revisited(log) + [] == Revisited(log);
    } else {
      var n := |touched| - 1;
      TouchedAreRevisited(log, touched[..n], obs, now, st);
      MeetingRevisits(TouchLog(log, touched[..n], obs, now, st), touched[n], obs, now, st);
      Appended(Revisited(log), Evts(touched[..n]), Evt(touched[n]));
    }
  }

  lemma TouchableSnoc(log: Log, qs: seq<nat>, i: nat, obs: nat, dormantS: real, cap: nat)
    requires obs < |log| && log[obs].body.Observation? && i < |qs|
    requires AllQuestions(log, qs)
    ensures TouchableOf(log, qs[..i + 1], obs, dormantS, cap)
            == TouchableOf(log, qs[..i], obs, dormantS, cap)
               + if Touchable(log, qs[i], obs, dormantS, cap) then [qs[i]] else []
  {
    PickedSnoc(qs, i, (q: nat) => q < |log| && IsQuestion(log[q]) && Touchable(log, q, obs, dormantS, cap));
  }

  /** The log after `touched` were met; meeting can only push a last touch forward. */
  ghost predicate Touched(log: Log, log': Log, touched: seq<nat>, obs: nat, now: real, dormantS: real, cap: nat,
                          st: Settings)
  {
    && InLog(log, touched)
    && log' == TouchLog(log, touched, obs, now, st)
    && (Disciplined(log, dormantS, cap) ==> Disciplined(log', dormantS, cap))
  }

  /** A question open on a log is open, at the same instant, on every longer one. */
  lemma StillOpen(log: Log, log': Log, q: nat, now: real, dormantS: real, cap: nat)
    requires log <= log' && q < |log| && !Dormant(log, q, now, dormantS, cap)
    ensures !Dormant(log', q, now, dormantS, cap)
  {
    assert log'[..|log|] == log;
    LastTouchGrows(log', |log|, q, cap);
  }

  lemma RevisitKeepsDiscipline(log: Log, log': Log, q: nat, obs: nat, now: real, dormantS: real, cap: nat)
    requires log <= log' && q < |log| && !Dormant(log, q, now, dormantS, cap) && Disciplined(log', dormantS, cap)
    ensures Disciplined(log' + [Revisit(q, obs, now)], dormantS, cap)
  {
    StillOpen(log, log', q, now, dormantS, cap);
    TimelyKeepsDiscipline(log', Revisit(q, obs, now), q, dormantS, cap);
  }

  lemma {:induction false} QuietEventsKeepDiscipline(log: Log, more: Log, dormantS: real, cap: nat)
    requires Disciplined(log, dormantS, cap) && forall i | 0 <= i < |more| :: !IsRevisit(more[i])
    ensures Disciplined(log + more, dormantS, cap)
  {
    if more == [] {
      assert log + more == log;
    } else {
      var n := |more| - 1;
      QuietEventsKeepDiscipline(log, more[..n], dormantS, cap);
      OthersKeepDiscipline(log + more[..n], more[n], dormantS, cap);
      assert log + more == log + more[..n] + [more[n]];
    }
  }

  lemma MeetingKeepsDiscipline(log: Log, log': Log, q: nat, obs: nat, now: real, dormantS: real, cap: nat, st: Settings)
    requires log <= log' && q < |log| && !Dormant(log, q, now, dormantS, cap) && Disciplined(log', dormantS, cap)
    ensures Disciplined(Met(log', q, obs, now, st), dormantS, cap)
  {
    RevisitKeepsDiscipline(log, log', q, obs, now, dormantS, cap);
    var met := log' + [Revisit(q, obs, now)];
    QuietEventsKeepDiscipline(met, Activations(Bridged(met, q, st), q, |log'|, now), dormantS, cap);
  }

  lemma TouchedSnoc(log: Log, log': Log, touched: seq<nat>, q: nat, obs: nat, now: real, dormantS: real, cap: nat,
                    st: Settings)
    requires Touched(log, log', touched, obs, now, dormantS, cap, st)
    requires q < |log| && !Dormant(log, q, now, dormantS, cap)
    ensures log <= log' && Touched(log, Met(log', q, obs, now, st), touched + [q], obs, now, dormantS, cap, st)
  {
    TouchLogSnoc(log, touched, q, obs, now, st);
    if Disciplined(log, dormantS, cap) {
      MeetingKeepsDiscipline(log, log', q, obs, now, dormantS, cap, st);
    }
  }

  /** One revisit citing the observation and the question, then the bridge. */
  method Meet(store: EventStore, q: nat, obs: nat, st: Settings)
    requires store.Valid() && q < |store.log| && obs < |store.log|
    modifies store`log
    ensures store.Valid() && store.log == Met(old(store.log), q, obs, store.clock, st)
  {
    var draft := Revisiting(q, obs);
    assert Links(draft) == [Evt(obs), Evt(q)];
    var r := store.Append(draft);
    BridgeQuestion(store, q, r.pos, st);
  }

  method MeetRow(store: EventStore, row: Row, obs: nat, topic: string, st: Settings,
                 ghost log: Log, ghost touched: seq<nat>, ghost dormantS: real, ghost cap: nat)
    returns (hit: bool)
    requires store.Valid() && obs < |log| && log[obs].body.Observation? && log[obs].body.topic == topic
             && log[obs].at == store.clock
    requires row.question < |log| && IsQuestion(log[row.question])
    requires row == RowOf(log, row.question, store.clock, dormantS, cap)
    requires Touched(log, store.log, touched, obs, store.clock, dormantS, cap, st)
    modifies store`log
    ensures store.Valid() && (hit <==> Touchable(log, row.question, obs, dormantS, cap))
    ensures Touched(log, store.log, if hit then touched + [row.question] else touched,
                    obs, store.clock, dormantS, cap, st)
  {
    hit := !row.dormant && row.topic == topic && row.createdAt < store.clock;
    if hit {
      TouchedSnoc(log, store.log, touched, row.question, obs, store.clock, dormantS, cap, st);
      Meet(store, row.question, obs, st);
    }
  }

  /** Records that an observation met the open questions on its topic again, at its own instant, and lets
      each of them wake the mind's own threads. */
  method TouchOpenQuestions(store: EventStore, obs: nat, dormantS: real, cap: nat, st: Settings)
    returns (touched: seq<nat>)
    requires store.Valid() && obs < |store.log| && store.log[obs].body.Observation?
    requires store.log[obs].at == store.clock
    modifies store`log
    ensures store.Valid() && InLog(old(store.log), touched)
    ensures touched == TouchableOf(old(store.log), Oldest(old(store.log), IsQuestion, cap), obs, dormantS, cap)
    ensures store.log == TouchLog(old(store.log), touched, obs, store.clock, st)
    ensures Disciplined(old(store.log), dormantS, cap) ==> Disciplined(store.log, dormantS, cap)
  {
    ghost var log := store.log;
    ghost var qs := Oldest(log, IsQuestion, cap);
    var now, topic := store.log[obs].at, store.log[obs].body.topic;
    var rows := QuestionState(store.log, now, dormantS, cap);
    touched := [];
    for i := 0 to |rows|
      invariant store.Valid()
      invariant touched == TouchableOf(log, qs[..i], obs, dormantS, cap)
      invariant Touched(log, store.log, touched, obs, now, dormantS, cap, st)
    {
      TouchableSnoc(log, qs, i, obs, dormantS, cap);
      var hit := MeetRow(store, rows[i], obs, topic, st, log, touched, dormantS, cap);
      if hit {
        touched := touched + [rows[i].question];
      }
    }
    assert qs[..|qs|] == qs;
  }

  // ------------------------------------------------------- dead stays dead

  /** Revisit `k` came while its question was still open. */
  ghost predicate Timely(log: Log, k: nat, q: nat, dormantS: real, cap: nat)
    requires k < |log|
  {
    q < k && !Dormant(log[..k], q, log[k].at, dormantS, cap)
  }

  /** No two successive touches of a question are more than `dormantS` apart. */
  ghost predicate Disciplined(log: Log, dormantS: real, cap: nat) {
    forall k: nat, q: nat {:trigger Timely(log, k, q, dormantS, cap)} | RevisitOf(log, k, q) ::
      Timely(log, k, q, dormantS, cap)
  }

  lemma StillTimely(log: Log, log': Log, k: nat, q: nat, dormantS: real, cap: nat)
    requires log <= log' && k < |log|
    ensures Timely(log', k, q, dormantS, cap) <==> Timely(log, k, q, dormantS, cap)
    ensures RevisitOf(log', k, q) <==> RevisitOf(log, k, q)
  {
    assert log'[..k] == log[..k];
  }

  lemma DisciplinedPrefix(log: Log, n: nat, dormantS: real, cap: nat)
    requires Disciplined(log, dormantS, cap) && n <= |log|
    ensures Disciplined(log[..n], dormantS, cap)
  {
    forall k: nat, q: nat | RevisitOf(log[..n], k, q) ensures Timely(log[..n], k, q, dormantS, cap) {
      StillTimely(log[..n], log, k, q, dormantS, cap);
    }
  }

  /** The new last event is either no revisit or a timely one. */
  lemma DisciplinedAppend(log: Log, e: Event, dormantS: real, cap: nat)
    requires Disciplined(log, dormantS, cap)
    requires forall q: nat | RevisitOf(log + [e], |log|, q) :: Timely(log + [e], |log|, q, dormantS, cap)
    ensures Disciplined(log + [e], dormantS, cap)
  {
    forall k: nat, q: nat | RevisitOf(log + [e], k, q) ensures Timely(log + [e], k, q, dormantS, cap) {
      if k < |log| {
        StillTimely(log, log + [e], k, q, dormantS, cap);
      }
    }
  }

  lemma TimelyKeepsDiscipline(log: Log, e: Event, q: nat, dormantS: real, cap: nat)
    requires e.body == QuestionRevisited(Evt(q)) && q < |log|
    requires !Dormant(log, q, e.at, dormantS, cap)
    ensures Disciplined(log, dormantS, cap) ==> Disciplined(log + [e], dormantS, cap)
  {
    assert (log + [e])[..|log|] == log;
    assert Timely(log + [e], |log|, q, dormantS, cap);
    if Disciplined(log, dormantS, cap) {
      DisciplinedAppend(log, e, dormantS, cap);
    }
  }

  /** Only revisits matter: every other writer is free. */
  lemma OthersKeepDiscipline(log: Log, e: Event, dormantS: real, cap: nat)
    requires Disciplined(log, dormantS, cap) && !IsRevisit(e)
    ensures Disciplined(log + [e], dormantS, cap)
  {
    DisciplinedAppend(log, e, dormantS, cap);
  }

  /** An event after a question's silence has run out is no timely revisit of it. */
  lemma DeadStaysDead(log: Log, e: Event, q: nat, touch: real, now: real, dormantS: real, cap: nat)
    requires q < |log| && LastTouch(log, q, cap) == touch && now - touch > dormantS && now <= e.at
    requires e.body == QuestionRevisited(Evt(q)) ==> !Dormant(log, q, e.at, dormantS, cap)
    ensures e.body != QuestionRevisited(Evt(q)) && LastTouch(log + [e], q, cap) == touch
  {
    LastTouchAppend(log, e, q, cap);
  }

  lemma OneMoreAfterDeath(front: Log, e: Event, log: Log, q: nat, touch: real, now: real, dormantS: real, cap: nat)
    requires log == front + [e] && q < |front| && now <= e.at
    requires e.body == QuestionRevisited(Evt(q)) ==> !Dormant(front, q, e.at, dormantS, cap)
    requires LastTouch(front, q, cap) == touch && now - touch > dormantS
    ensures LastTouch(log, q, cap) == touch
  {
    DeadStaysDead(front, e, q, touch, now, dormantS, cap);
  }

  lemma TimelyAt(log: Log, k: nat, q: nat, dormantS: real, cap: nat)
    requires Disciplined(log, dormantS, cap) && q < k < |log| && log[k].body == QuestionRevisited(Evt(q))
    ensures !Dormant(log[..k], q, log[k].at, dormantS, cap)
  {
    assert RevisitOf(log, k, q) && Timely(log, k, q, dormantS, cap);
  }

  lemma DeathStepAt(log: Log, m: nat, q: nat, touch: real, now: real, dormantS: real, cap: nat)
    requires q + 1 < m <= |log| && Disciplined(log, dormantS, cap) && now <= log[m - 1].at
    requires LastTouch(log[..m - 1], q, cap) == touch && now - touch > dormantS
    ensures LastTouch(log[..m], q, cap) == touch
  {
    var front, e := log[..m - 1], log[m - 1];
    if e.body == QuestionRevisited(Evt(q)) {
      TimelyAt(log, m - 1, q, dormantS, cap);
    }
    FrontOf(log, m);
    OneMoreAfterDeath(front, e, log[..m], q, touch, now, dormantS, cap);
  }

  lemma FrontOf(log: Log, m: nat)
    requires 0 < m <= |log|
    ensures log[..m] == log[..m - 1] + [log[m - 1]]
  {
  }

  ghost function TouchedLastAt(q: nat, touch: real, cap: nat): Log -> bool {
    (log: Log) => q < |log| && LastTouch(log, q, cap) == touch
  }

  /** Once dormant, never touched again, so dormant at every later instant. */
  lemma DeathIsPermanent(log: Log, n: nat, q: nat, now: real, dormantS: real, cap: nat)
    requires q < n <= |log| && Disciplined(log, dormantS, cap)
    requires forall k | n <= k < |log| :: now <= log[k].at
    requires Dormant(log[..n], q, now, dormantS, cap)
    ensures LastTouch(log, q, cap) == LastTouch(log[..n], q, cap)
  {
    var touch := LastTouch(log[..n], q, cap);
    var f := TouchedLastAt(q, touch, cap);
    forall m | n < m <= |log| && f(log[..m - 1]) ensures f(log[..m]) {
      DeathStepAt(log, m, q, touch, now, dormantS, cap);
    }
    AlongLog(log, n, |log|, f);
    assert log[..|log|] == log;
  }

  /** So no later event is a revisit of it. */
  lemma NeverTouchedAgain(log: Log, n: nat, q: nat, now: real, dormantS: real, cap: nat, k: nat)
    requires q < n <= k < |log| && Disciplined(log, dormantS, cap)
    requires forall j | n <= j < |log| :: now <= log[j].at
    requires Dormant(log[..n], q, now, dormantS, cap)
    ensures log[k].body != QuestionRevisited(Evt(q))
  {
    var front := log[..k];
    assert front[..n] == log[..n];
    DisciplinedPrefix(log, k, dormantS, cap);
    DeathIsPermanent(front, n, q, now, dormantS, cap);
    assert RevisitOf(log, k, q) ==> Timely(log, k, q, dormantS, cap);
  }

  // --------------------------------------------------------------- the runs

  /** The world window opens an item at `at`, or anything else is written. */
  datatype Step = Open(at: real, topic: string, item: string) | Write(at: real, draft: Event)

  method OpenItem(store: EventStore, topic: string, item: string, dormantS: real, cap: nat, st: Settings)
    requires store.Valid() && Disciplined(store.log, dormantS, cap)
    modifies store`log
    ensures store.Valid() && Disciplined(store.log, dormantS, cap) && old(store.log) <= store.log
  {
    ghost var before := store.log;
    var draft := Draft(false, Observation(topic, item));
    assert Links(draft) == [];
    var obs := store.Append(draft);
    OthersKeepDiscipline(before, draft.(at := store.clock), dormantS, cap);
    var _ := TouchOpenQuestions(store, obs.pos, dormantS, cap, st);
  }

  method LiveStep(store: EventStore, step: Step, dormantS: real, cap: nat, st: Settings)
    requires store.Valid() && Disciplined(store.log, dormantS, cap)
    requires store.clock <= step.at && (step.Write? ==> !IsRevisit(step.draft))
    modifies store
    ensures store.Valid() && Disciplined(store.log, dormantS, cap) && old(store.log) <= store.log
            && store.clock == step.at
  {
    ghost var before := store.log;
    store.Advance(step.at);
    match step {
      case Open(at, topic, item) =>
        OpenItem(store, topic, item, dormantS, cap, st);
      case Write(at, draft) =>
        var r := store.Append(draft);
        if r.Stored? {
          OthersKeepDiscipline(before, draft.(at := at), dormantS, cap);
        }
    }
  }

  /** In every run in which only the window writes revisits, the log is disciplined. */
  method Live(store: EventStore, steps: seq<Step>, dormantS: real, cap: nat, st: Settings)
    requires store.Valid() && Disciplined(store.log, dormantS, cap)
    requires forall i | 0 <= i < |steps| ::
             store.clock <= steps[i].at && (steps[i].Write? ==> !IsRevisit(steps[i].draft))
    requires forall i, j | 0 <= i < j < |steps| :: steps[i].at <= steps[j].at
    modifies store
    ensures store.Valid() && Disciplined(store.log, dormantS, cap) && old(store.log) <= store.log
  {
    for i := 0 to |steps|
      invariant store.Valid() && Disciplined(store.log, dormantS, cap) && old(store.log) <= store.log
      invariant forall j | i <= j < |steps| :: store.clock <= steps[j].at
    {
      LiveStep(store, steps[i], dormantS, cap, st);
    }
  }
}
