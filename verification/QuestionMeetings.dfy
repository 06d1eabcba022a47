/** What one observation does to the questions it meets and the threads they wake (world.py), said over the
    events of the log: which questions, which threads, and what each written event cites. */
module QuestionMeetings {
  import opened EventLog
  import opened Genesis
  import opened MentalState
  import opened Bridge
  import opened Questions

  // ---------------------------------------------------------- which questions

  /** The question was asked, or met again in a revisit among those read, at most `dormantS` ago. */
  predicate Alive(log: Log, q: nat, now: real, dormantS: real, cap: nat)
    requires q < |log|
  {
    || now - log[q].at <= dormantS
    || exists k :: k in Oldest(log, IsRevisit, cap) && MeetsWithin(log, k, q, now, dormantS)
  }

  predicate MeetsWithin(log: Log, k: nat, q: nat, now: real, dormantS: real) {
    k < |log| && log[k].body == QuestionRevisited(Evt(q)) && now - log[k].at <= dormantS
  }

  lemma {:induction false} LatestIs(log: Log, ps: seq<nat>, q: nat, now: real, d: real)
    requires InLog(log, ps) && q < |log|
    ensures now - LatestOf(log, ps, q) <= d
            <==> now - log[q].at <= d || exists k :: k in ps && MeetsWithin(log, k, q, now, d)
  {
    if ps != [] {
      var front, last := ps[..|ps| - 1], ps[|ps| - 1];
      assert ps == front + [last];
      LatestIs(log, front, q, now, d);
      LatestSnoc(log, front, last, q);
      if MeetsWithin(log, last, q, now, d) { assert last in ps; }
    }
  }

  /** The questions met again by an observation are those of the read that are about its topic, were asked before it and
      are still alive. */
  lemma TouchableIs(log: Log, obs: nat, dormantS: real, cap: nat, q: nat)
    requires obs < |log| && log[obs].body.Observation?
    ensures q in TouchableOf(log, Oldest(log, IsQuestion, cap), obs, dormantS, cap)
            <==> && q in Oldest(log, IsQuestion, cap)
                 && log[q].body.topic == log[obs].body.topic && log[q].at < log[obs].at
                 && Alive(log, q, log[obs].at, dormantS, cap)
  {
    if q in Oldest(log, IsQuestion, cap) {
      LatestIs(log, Oldest(log, IsRevisit, cap), q, log[obs].at, dormantS);
    }
  }

  // ------------------------------------------------------------ which threads

  /** What the bridge takes for news of a thread. */
  predicate Moves(e: Event, t: Thread) {
    && e.thread == t
    && match e.body
       case ThreadCreated(own, _, _) => own
       case ThreadActivated => Named(t)
       case ThreadRevisited => Named(t)
       case ThreadDormant => Named(t)
       case _ => false
  }

  predicate Begun(e: Event, t: Thread) {
    e.thread == t && e.body.ThreadCreated? && e.body.selfOrigin
  }

  predicate NewestMove(log: Log, k: nat, t: Thread) {
    k < |log| && Moves(log[k], t) && forall j | k < j < |log| :: !Moves(log[j], t)
  }

  predicate NewestBegin(log: Log, k: nat, t: Thread) {
    k < |log| && Begun(log[k], t) && forall j | k < j < |log| :: !Begun(log[j], t)
  }

  lemma NewestMoveSnoc(log: Log, e: Event, k: nat, t: Thread)
    ensures NewestMove(log + [e], k, t) <==> if Moves(e, t) then k == |log| else NewestMove(log, k, t)
  {
    var longer := log + [e];
    assert longer[|log|] == e;
    if Moves(e, t) && k < |log| { assert !NewestMove(longer, k, t); }
    if !Moves(e, t) && NewestMove(longer, k, t) {
      forall j | k < j < |log| ensures !Moves(log[j], t) { assert !Moves(longer[j], t); }
    }
  }

  lemma NewestBeginSnoc(log: Log, e: Event, k: nat, t: Thread)
    ensures NewestBegin(log + [e], k, t) <==> if Begun(e, t) then k == |log| else NewestBegin(log, k, t)
  {
    var longer := log + [e];
    assert longer[|log|] == e;
    if Begun(e, t) && k < |log| { assert !NewestBegin(longer, k, t); }
    if !Begun(e, t) && NewestBegin(longer, k, t) {
      forall j | k < j < |log| ensures !Begun(log[j], t) { assert !Begun(longer[j], t); }
    }
  }

  lemma {:induction false} RestingIs(log: Log, t: Thread)
    ensures t in SurveyOf(log).life && SurveyOf(log).life[t].Resting?
            <==> exists k: nat :: NewestMove(log, k, t) && log[k].body.ThreadDormant?
  {
    if log != [] {
      var front, e := log[..|log| - 1], log[|log| - 1];
      assert log == front + [e];
      RestingIs(front, t);
      forall k: nat ensures NewestMove(log, k, t) <==> if Moves(e, t) then k == |front| else NewestMove(front, k, t) {
        NewestMoveSnoc(front, e, k, t);
      }
      RestingStep(SurveyOf(front), e, t);
      if Moves(e, t) { assert NewestMove(log, |front|, t); }
    }
  }

  lemma RestingStep(s: Survey, e: Event, t: Thread)
    ensures var s' := Surveyed(s, e);
            (t in s'.life && s'.life[t].Resting?)
            == if Moves(e, t) then e.body.ThreadDormant? else t in s.life && s.life[t].Resting?
  {
  }

  lemma {:induction false} BasisIs(log: Log, t: Thread, b: Ref)
    ensures b in BasisIn(SurveyOf(log), t) <==> exists k: nat :: NewestBegin(log, k, t) && b in log[k].body.derived
  {
    if log != [] {
      var front, e := log[..|log| - 1], log[|log| - 1];
      assert log == front + [e];
      BasisIs(front, t, b);
      forall k: nat ensures NewestBegin(log, k, t) <==> if Begun(e, t) then k == |front| else NewestBegin(front, k, t) {
        NewestBeginSnoc(front, e, k, t);
      }
      if Begun(e, t) { assert NewestBegin(log, |front|, t); }
    }
  }

  /** The thread grew from a memory that has words and is close enough to the question; the newest of its beginnings
      inside the read says from what. */
  ghost predicate GrewFromKin(log: Log, read: Log, q: nat, t: Thread, st: Settings) {
    exists k: nat, b :: NewestBegin(read, k, t) && b in read[k].body.derived && Kin(log, q, b, st)
  }

  predicate Kin(log: Log, q: nat, b: Ref, st: Settings) {
    b.Evt? && b.pos < |log| && !st.blank(log[b.pos].text) && st.minSim <= st.sim(q, b.pos)
  }

  lemma ResonatesIs(log: Log, q: nat, t: Thread, st: Settings)
    ensures Resonates(log, q, BasisIn(SurveyOf(ReadOf(log, st)), t), st)
            <==> st.minSim <= 0.0 || GrewFromKin(log, ReadOf(log, st), q, t, st)
  {
    var read := ReadOf(log, st);
    var basis := BasisIn(SurveyOf(read), t);
    forall b ensures b in basis <==> exists k: nat :: NewestBegin(read, k, t) && b in read[k].body.derived {
      BasisIs(read, t, b);
    }
    forall b ensures Resonant(log, q, b, st) <==> Kin(log, q, b, st) {
    }
  }

  /** A question with words wakes exactly the threads whose newest move inside the read put them to rest and that grew
      from something close to it. Closing a thread is no move, and neither is a beginning that is not the mind's own. */
  lemma BridgedIs(log: Log, q: nat, t: Thread, st: Settings)
    requires q < |log|
    ensures t in Bridged(log, q, st)
            <==> && st.enabled && !st.blank(log[q].text)
                 && (exists k: nat :: NewestMove(ReadOf(log, st), k, t) && ReadOf(log, st)[k].body.ThreadDormant?)
                 && (st.minSim <= 0.0 || GrewFromKin(log, ReadOf(log, st), q, t, st))
  {
    var read := ReadOf(log, st);
    RestingIs(read, t);
    ResonatesIs(log, q, t, st);
    SurveyListsItsThreads(read);
  }

  // ------------------------------------------------------ what is written down

  /** The record of question `q` met again because of the observation. */
  predicate RecordsMeeting(e: Event, q: nat, obs: nat, now: real) {
    && e.body == QuestionRevisited(Evt(q)) && e.causedBy == [Evt(obs)] && e.relatedTo == [Evt(q)]
    && e.at == now && !e.system
  }

  /** The record of a thread woken by question `q`, brought about by its revisit at `rv`. */
  predicate RecordsWaking(e: Event, q: nat, rv: nat, now: real) {
    && e.body == ThreadActivated && e.causedBy == [Evt(rv)] && e.relatedTo == [Evt(q)] && e.at == now && !e.system
  }

  /** Event `k` was written by meeting one of the questions `touched`. */
  ghost predicate Recorded(log: Log, from: nat, k: nat, touched: seq<nat>, obs: nat, now: real) {
    && k < |log|
    && exists q: nat :: q in touched && (|| RecordsMeeting(log[k], q, obs, now)
                                    || exists rv: nat ::
                                      MeetingAt(log, from, rv, k, q, obs, now) && RecordsWaking(log[k], q, rv, now))
  }

  predicate MeetingAt(log: Log, from: nat, rv: nat, k: nat, q: nat, obs: nat, now: real) {
    from <= rv < k <= |log| && RecordsMeeting(log[rv], q, obs, now)
  }

  lemma StillRecorded(log: Log, log': Log, from: nat, k: nat, touched: seq<nat>, touched': seq<nat>, obs: nat,
                      now: real)
    requires log <= log' && Recorded(log, from, k, touched, obs, now) && forall q | q in touched :: q in touched'
    ensures Recorded(log', from, k, touched', obs, now)
  {
    var q: nat :| q in touched && (|| RecordsMeeting(log[k], q, obs, now)
                              || exists rv: nat ::
                                MeetingAt(log, from, rv, k, q, obs, now) && RecordsWaking(log[k], q, rv, now));
    assert log'[k] == log[k] && q in touched';
    if !RecordsMeeting(log[k], q, obs, now) {
      var rv: nat :| MeetingAt(log, from, rv, k, q, obs, now) && RecordsWaking(log[k], q, rv, now);
      assert log'[rv] == log[rv] && MeetingAt(log', from, rv, k, q, obs, now);
    }
  }

  lemma MeetingIsRecorded(log: Log, from: nat, k: nat, q: nat, touched: seq<nat>, obs: nat, now: real, st: Settings)
    requires q < |log| && q in touched && from <= |log| <= k < |Met(log, q, obs, now, st)|
    ensures Recorded(Met(log, q, obs, now, st), from, k, touched, obs, now)
  {
    var met := Met(log, q, obs, now, st);
    assert met[|log|] == Revisit(q, obs, now);
    assert RecordsMeeting(met[|log|], q, obs, now);
    if k > |log| {
      var woken := Bridged(log + [Revisit(q, obs, now)], q, st);
      assert met[k] == Activation(woken[k - |log| - 1], q, |log|, now);
      assert MeetingAt(met, from, |log|, k, q, obs, now) && RecordsWaking(met[k], q, |log|, now);
    }
  }

  /** Every event written while an observation meets questions is the record of one of them met again, or of a thread
      that this record woke. */
  lemma {:induction false} MeetingsAreRecorded(log: Log, touched: seq<nat>, obs: nat, now: real, st: Settings, k: nat)
    requires InLog(log, touched) && |log| <= k < |TouchLog(log, touched, obs, now, st)|
    ensures Recorded(TouchLog(log, touched, obs, now, st), |log|, k, touched, obs, now)
  {
    var front, q := touched[..|touched| - 1], touched[|touched| - 1];
    var before := TouchLog(log, front, obs, now, st);
    assert touched == front + [q];
    assert q in touched && forall x | x in front :: x in touched;
    if k < |before| {
      MeetingsAreRecorded(log, front, obs, now, st, k);
      StillRecorded(before, Met(before, q, obs, now, st), |log|, k, front, touched, obs, now);
    } else {
      MeetingIsRecorded(before, |log|, k, q, touched, obs, now, st);
    }
  }
}
