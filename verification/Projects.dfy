/** Genesis over time (private_projects.py, check_genesis): when it is permanent, and what one check writes. */
module Projects {
  import opened EventLog
  import opened Reachability
  import opened Genesis

  // ------------------------------------------------------------- permanence

  /** The evidence ids of a question are among its links, as its writer makes them
      (world.py, _form_question), so none of them dangles. */
  ghost predicate EvidenceResolves(log: Log) {
    forall q, i | 0 <= q < |log| && log[q].body.QuestionCreated? && 0 <= i < |log[q].body.evidence| ::
      !Dangles(log, log[q].body.evidence[i])
  }

  lemma EvidenceNotNew(log: Log, q: nat, e: nat)
    requires EvidenceResolves(log) && IsQuestionAt(log, q) && Evt(e) in log[q].body.evidence
    ensures e < |log|
  {
    var i :| 0 <= i < |log[q].body.evidence| && log[q].body.evidence[i] == Evt(e);
    assert !Dangles(log, log[q].body.evidence[i]);
  }

  lemma ReachesStill(log: Log, log': Log, a: Ref, b: Ref)
    requires log <= log' && Reaches(log, a, b)
    ensures Reaches(log', a, b)
  {
    var p :| IsTrail(log, p) && p[0] == a && p[|p| - 1] == b;
    forall i | 0 < i < |p| ensures p[i] in Recalls(log', p[i - 1]) {
      assert p[i] in Recalls(log, p[i - 1]);
    }
    assert IsTrail(log', p);
  }

  lemma RevisitStill(log: Log, log': Log, k: nat, q: nat)
    requires log <= log' && k < |log|
    ensures RevisitOf(log', k, q) <==> RevisitOf(log, k, q)
    ensures CausedByObservations(log, k) ==> CausedByObservations(log', k)
    ensures q < |log| ==> (WeekApart(log', q, k) <==> WeekApart(log, q, k))
  {
  }

  lemma MaterialStill(log: Log, log': Log, q: nat)
    requires log <= log' && EvidenceResolves(log) && IsQuestionAt(log, q)
    requires TwoSources(log, q) && NoConversation(log, q) && GrewIntoThought(log, q)
    ensures TwoSources(log', q) && NoConversation(log', q) && GrewIntoThought(log', q)
  {
    var a: nat, b: nat :| EvidenceAt(log, q, a) && EvidenceAt(log, q, b) && SourceOf(log[a]) != SourceOf(log[b]);
    assert EvidenceAt(log', q, a) && EvidenceAt(log', q, b);
    forall e: nat | EvidenceAt(log', q, e) ensures !FromConversation(log'[e]) {
      EvidenceNotNew(log, q, e);
      assert EvidenceAt(log, q, e);
    }
    var t: nat, y :| t < |log| && IsOwnThought(log[t]) && Target(log, q, y) && Reaches(log, Evt(t), y);
    ReachesStill(log, log', Evt(t), y);
    assert Target(log', q, y);
  }

  lemma MeetingsStill(log: Log, log': Log, q: nat)
    requires log <= log' && q < |log| && MetTwice(log, q) && SpansAWeek(log, q)
    ensures MetTwice(log', q) && SpansAWeek(log', q)
  {
    var a: nat, b: nat :| a < b && RevisitOf(log, a, q) && RevisitOf(log, b, q);
    RevisitStill(log, log', a, q);
    RevisitStill(log, log', b, q);
    var k: nat :| RevisitOf(log, k, q) && WeekApart(log, q, k);
    RevisitStill(log, log', k, q);
  }

  /** A question that qualifies goes on qualifying exactly as long as every later revisit of it is
      caused by observations alone. */
  lemma {:induction false} GenesisIsPermanent(log: Log, log': Log, q: nat)
    requires log <= log' && EvidenceResolves(log) && Qualifies(log, q)
    ensures Qualifies(log', q) <==>
              forall k: nat | |log| <= k && RevisitOf(log', k, q) :: CausedByObservations(log', k)
  {
    MaterialStill(log, log', q);
    MeetingsStill(log, log', q);
    if forall k: nat | |log| <= k && RevisitOf(log', k, q) :: CausedByObservations(log', k) {
      forall k: nat | RevisitOf(log', k, q) ensures CausedByObservations(log', k) {
        if k < |log| { RevisitStill(log, log', k, q); }
      }
    } else {
      var k: nat :| |log| <= k && RevisitOf(log', k, q) && !CausedByObservations(log', k);
      assert !RevisitsObserved(log', q);
    }
  }

  lemma CausesWithinRead(log: Log, limit: nat, k: nat)
    requires Causal(log) && k < |ReadUpTo(log, limit)|
    ensures CausedByObservations(ReadUpTo(log, limit), k) <==> CausedByObservations(log, k)
  {
    var e := log[k];
    if CausedByObservations(log, k) {
      forall i | 0 <= i < |e.causedBy| ensures e.causedBy[i].pos < k {
        assert Links(e)[i] == e.causedBy[i];
        CausalLink(log, k, e.causedBy[i]);
      }
    }
  }

  ghost predicate LaterObserved(log: Log, from: nat, to: nat, q: nat) {
    forall k: nat | from <= k < to && RevisitOf(log, k, q) :: CausedByObservations(log, k)
  }

  lemma ObservedAsRead(log: Log, limit: nat, from: nat, q: nat)
    requires Causal(log)
    ensures LaterObserved(ReadUpTo(log, limit), from, limit, q) <==> LaterObserved(log, from, limit, q)
  {
    var r := ReadUpTo(log, limit);
    forall k: nat | k < |r|
      ensures (RevisitOf(r, k, q) <==> RevisitOf(log, k, q))
              && (CausedByObservations(r, k) <==> CausedByObservations(log, k))
    {
      CausesWithinRead(log, limit, k);
    }
  }

  lemma PermanentBetween(r: Log, r': Log, to: nat, q: nat)
    requires r <= r' && |r'| <= to && EvidenceResolves(r) && Qualifies(r, q)
    ensures Qualifies(r', q) <==> LaterObserved(r', |r|, to, q)
  {
    GenesisIsPermanent(r, r', q);
  }

  /** The same through the bounded read: exactly the later revisits inside the read matter. */
  lemma GenesisIsPermanentAsRead(log: Log, log': Log, limit: nat, q: nat)
    requires log <= log' && Causal(log') && EvidenceResolves(ReadUpTo(log, limit))
    requires Qualifies(ReadUpTo(log, limit), q)
    ensures Qualifies(ReadUpTo(log', limit), q) <==> LaterObserved(log', |log|, limit, q)
  {
    var from := |ReadUpTo(log, limit)|;
    PermanentBetween(ReadUpTo(log, limit), ReadUpTo(log', limit), limit, q);
    ObservedAsRead(log', limit, from, q);
  }

  // --------------------------------------------------------------- emission

  /** Is there a project for question `q` among the first `limit` project rows? */
  predicate HasProject(log: Log, q: nat, limit: nat) {
    var rows := Oldest(log, IsProject, limit);
    exists i | 0 <= i < |rows| :: log[rows[i]].body.project == Evt(q)
  }

  ghost predicate OneProjectEach(log: Log) {
    forall i, j | 0 <= i < j < |log| && IsProject(log[i]) && IsProject(log[j]) ::
      log[i].body.project != log[j].body.project
  }

  function Evidence(log: Log, q: nat): seq<Ref> {
    if IsQuestionAt(log, q) then log[q].body.evidence else []
  }

  /** The `project.created` event for a question, citing the question and its evidence, and the
      newest revisit of the whole log if it happens to be of this question. */
  function ProjectFor(log: Log, q: nat): Event {
    var last := Last(log, IsRevisit);
    Draft(false, ProjectCreated(Evt(q))).(
      causedBy := if last.Some? && log[last.value].body.question == Evt(q) then [Evt(last.value)] else [],
      relatedTo := [Evt(q)] + Evidence(log, q))
  }

  /** The log after a project was written at `now` for each of `qs`, in order. */
  function Founded(log: Log, qs: seq<nat>, now: real): Log {
    if qs == [] then log else
      var before := Founded(log, qs[..|qs| - 1], now);
      before + [ProjectFor(before, qs[|qs| - 1]).(at := now)]
  }

  lemma FoundedSnoc(log: Log, qs: seq<nat>, q: nat, now: real)
    ensures Founded(log, qs + [q], now) == Founded(log, qs, now) + [ProjectFor(Founded(log, qs, now), q).(at := now)]
  {
    assert (qs + [q])[..|qs|] == qs;
  }

  /** The newest revisit in the log, if it is of `q`. */
  ghost predicate NewestRevisit(log: Log, k: nat, q: nat) {
    RevisitOf(log, k, q) && forall j | k < j < |log| :: !log[j].body.QuestionRevisited?
  }

  /** What a project cites: its question with that question's evidence, and as its cause the newest revisit of all, if
      that is a revisit of the question. */
  ghost predicate Cites(log: Log, e: Event, q: nat) {
    && e.body == ProjectCreated(Evt(q))
    && e.relatedTo == [Evt(q)] + (if IsQuestionAt(log, q) then log[q].body.evidence else [])
    && (forall k: nat | NewestRevisit(log, k, q) :: e.causedBy == [Evt(k)])
    && ((forall k: nat :: !NewestRevisit(log, k, q)) ==> e.causedBy == [])
  }

  lemma ProjectCites(log: Log, q: nat)
    ensures Cites(log, ProjectFor(log, q), q)
  {
    var last := Last(log, IsRevisit);
    if last.Some? && log[last.value].body.question == Evt(q) {
      assert NewestRevisit(log, last.value, q);
    }
    forall k: nat | NewestRevisit(log, k, q) ensures last == Some(k) {
      assert IsRevisit(log[k]);
    }
  }

  lemma CitesStill(log: Log, log': Log, e: Event, q: nat)
    requires log <= log' && q < |log| && forall j | |log| <= j < |log'| :: !log'[j].body.QuestionRevisited?
    ensures Cites(log', e, q) <==> Cites(log, e, q)
  {
    forall k: nat ensures NewestRevisit(log', k, q) <==> NewestRevisit(log, k, q) {
      assert forall j | 0 <= j < |log| :: log'[j] == log[j];
    }
  }

  lemma {:induction false} FoundedGrows(log: Log, qs: seq<nat>, now: real)
    ensures var log' := Founded(log, qs, now);
            log <= log' && |log'| == |log| + |qs| && forall j | |log| <= j < |log'| :: log'[j].body.ProjectCreated?
  {
    if qs != [] {
      FoundedGrows(log, qs[..|qs| - 1], now);
    }
  }

  /** Each project written cites what it is for, as the log stood before the check. */
  lemma {:induction false} FoundedCites(log: Log, qs: seq<nat>, now: real, i: nat)
    requires i < |qs| && qs[i] < |log|
    ensures var log' := Founded(log, qs, now);
            |log| + i < |log'| && Cites(log, log'[|log| + i], qs[i]) && log'[|log| + i].at == now
    decreases |qs|
  {
    var front, n := qs[..|qs| - 1], |qs| - 1;
    var before := Founded(log, front, now);
    FoundedGrows(log, front, now);
    FoundedGrows(log, qs, now);
    if i < n {
      FoundedCites(log, front, now, i);
    } else {
      NewestCites(log, before, qs[n], now);
    }
  }

  lemma NewestCites(log: Log, before: Log, q: nat, now: real)
    requires log <= before && q < |log| && forall j | |log| <= j < |before| :: before[j].body.ProjectCreated?
    ensures Cites(log, ProjectFor(before, q).(at := now), q)
  {
    ProjectCites(before, q);
    CitesStill(log, before, ProjectFor(before, q), q);
  }

  /** What such a log adds, links and times aside: one project for each of `created`, in order. */
  ghost predicate AddsProjects(log: Log, log': Log, created: seq<nat>) {
    && log <= log' && |log'| == |log| + |created|
    && (forall k | |log| <= k < |log'| ::
          log'[k].body == ProjectCreated(Evt(created[k - |log|])) && log'[k].recalled == [])
  }

  method Existing(log: Log, limit: nat) returns (s: set<Ref>)
    ensures forall q: nat :: Evt(q) in s <==> HasProject(log, q, limit)
  {
    var rows := Oldest(log, IsProject, limit);
    s := {};
    for i := 0 to |rows|
      invariant forall r :: r in s <==> exists j | 0 <= j < i :: log[rows[j]].body.project == r
    {
      s := s + {log[rows[i]].body.project};
    }
  }

  /** The candidates without a project are those written, in the same order. */
  ghost predicate Picked(candidates: seq<nat>, existing: set<Ref>, created: seq<nat>) {
    && Ascending(created)
    && (forall q {:trigger q in created} | q in created :: q in candidates && Evt(q) !in existing)
  }

  /** After the first `i` candidates. */
  ghost predicate Emitting(start: Log, log: Log, candidates: seq<nat>, existing: set<Ref>, created: seq<nat>, i: nat) {
    && i <= |candidates| && AddsProjects(start, log, created) && Picked(candidates, existing, created)
    && Ahead(created, candidates, i)
    && forall j | 0 <= j < i :: candidates[j] in created || Evt(candidates[j]) in existing
  }

  lemma EmitsOne(start: Log, log: Log, candidates: seq<nat>, existing: set<Ref>, created: seq<nat>, i: nat, e: Event)
    requires Emitting(start, log, candidates, existing, created, i) && i < |candidates| && Ascending(candidates)
    requires Evt(candidates[i]) !in existing && e.body == ProjectCreated(Evt(candidates[i])) && e.recalled == []
    ensures Emitting(start, log + [e], candidates, existing, created + [candidates[i]], i + 1)
  {
    var q := candidates[i];
    assert q in candidates;
    StepAhead(created, candidates, i);
    AddsOne(start, log, created, q, e);
    AscendingSnoc(created, q);
    assert q in created + [q];
  }

  lemma EmitsNone(start: Log, log: Log, candidates: seq<nat>, existing: set<Ref>, created: seq<nat>, i: nat)
    requires Emitting(start, log, candidates, existing, created, i) && i < |candidates| && Ascending(candidates)
    requires Evt(candidates[i]) in existing
    ensures Emitting(start, log, candidates, existing, created, i + 1)
  {
    StepAhead(created, candidates, i);
  }

  /** The loop that writes the projects; it stops at a rejected append. */
  method Emit(store: EventStore, candidates: seq<nat>, existing: set<Ref>) returns (created: seq<nat>, raised: bool)
    requires store.Valid() && Ascending(candidates) && forall q | q in candidates :: IsQuestionAt(store.log, q)
    modifies store`log
    ensures store.Valid() && AddsProjects(old(store.log), store.log, created)
    ensures store.log == Founded(old(store.log), created, store.clock)
    ensures Picked(candidates, existing, created)
    ensures !raised ==> forall q | q in candidates :: q in created || Evt(q) in existing
    ensures raised ==> !EvidenceResolves(old(store.log))
  {
    created, raised := [], false;
    ghost var start := store.log;
    for i := 0 to |candidates|
      invariant store.Valid() && Emitting(start, store.log, candidates, existing, created, i)
      invariant store.log == Founded(start, created, store.clock)
    {
      var q := candidates[i];
      assert q in candidates;
      if Evt(q) !in existing {
        var e := ProjectFor(store.log, q);
        EmitsOne(start, store.log, candidates, existing, created, i, e.(at := store.clock));
        var r := store.Append(e);
        if r.DanglingLink? {
          DanglesOnlyByEvidence(start, store.log, created, q, r.link);
          raised := true;
          return;
        }
        FoundedSnoc(start, created, q, store.clock);
        created := created + [q];
      } else {
        EmitsNone(start, store.log, candidates, existing, created, i);
      }
    }
  }

  ghost predicate Ahead(created: seq<nat>, candidates: seq<nat>, i: nat) {
    forall q, j {:trigger q in created, candidates[j]} | q in created && i <= j < |candidates| :: q < candidates[j]
  }

  lemma StepAhead(created: seq<nat>, candidates: seq<nat>, i: nat)
    requires Ascending(candidates) && i < |candidates| && Ahead(created, candidates, i)
    ensures Ahead(created, candidates, i + 1) && Ahead(created + [candidates[i]], candidates, i + 1)
    ensures forall q | q in created :: q < candidates[i]
  {
  }

  lemma AddsOne(start: Log, log: Log, created: seq<nat>, q: nat, e: Event)
    requires AddsProjects(start, log, created)
    requires e.body == ProjectCreated(Evt(q)) && e.recalled == []
    ensures AddsProjects(start, log + [e], created + [q])
  {
  }

  /** One check. Every candidate without a project gets one, no other question does, and an append
      is rejected only when some question's evidence dangles. */
  method CheckGenesis(store: EventStore, enabled: bool, readLimit: nat, projectLimit: nat)
    returns (created: seq<nat>, raised: bool)
    requires store.Valid()
    modifies store`log
    ensures store.Valid() && store.log == Founded(old(store.log), created, store.clock)
    ensures AddsProjects(old(store.log), store.log, created)
    ensures !enabled ==> created == [] && !raised
    ensures raised ==> !EvidenceResolves(old(store.log))
    ensures Ascending(created) && NewGenesis(old(store.log), readLimit, projectLimit, created)
    ensures enabled && !raised ==> Covered(old(store.log), readLimit, projectLimit, created)
  {
    created, raised := [], false;
    if enabled {
      var existing := Existing(store.log, projectLimit);
      var candidates := GenesisCandidates(store.log, readLimit);
      CandidatesAreQuestions(store.log, readLimit, candidates);
      created, raised := Emit(store, candidates, existing);
    }
  }

  /** Everything written is for a question that qualifies and had no project. */
  ghost predicate NewGenesis(log: Log, readLimit: nat, projectLimit: nat, created: seq<nat>) {
    forall q {:trigger q in created} | q in created ::
      Qualifies(ReadUpTo(log, readLimit), q) && !HasProject(log, q, projectLimit)
  }

  /** Every question that qualifies had a project or is given one. */
  ghost predicate Covered(log: Log, readLimit: nat, projectLimit: nat, created: seq<nat>) {
    forall q: nat {:trigger q in created} | Qualifies(ReadUpTo(log, readLimit), q) ::
      q in created || HasProject(log, q, projectLimit)
  }

  lemma CandidatesAreQuestions(log: Log, limit: nat, candidates: seq<nat>)
    requires forall q {:trigger q in candidates} | q in candidates :: Qualifies(ReadUpTo(log, limit), q)
    ensures forall q | q in candidates :: IsQuestionAt(log, q)
  {
  }

  lemma DanglesOnlyByEvidence(start: Log, log: Log, created: seq<nat>, q: nat, link: Ref)
    requires AddsProjects(start, log, created) && IsQuestionAt(start, q)
    requires link in Links(ProjectFor(log, q)) && Dangles(log, link)
    ensures !EvidenceResolves(start)
  {
    var e := ProjectFor(log, q);
    var i :| 0 <= i < |Links(e)| && Links(e)[i] == link;
    assert link in e.causedBy || link in e.relatedTo;
    assert link in start[q].body.evidence;
    if EvidenceResolves(start) { EvidenceNotNew(start, q, link.pos); }
  }
}
