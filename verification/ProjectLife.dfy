/** Repeated checks (private_projects.py, check_genesis): which question can ever receive a second project, since
    only the oldest project rows are read, and what holds over whole lives. */
module ProjectLife {
  import opened EventLog
  import opened Reachability
  import opened Genesis
  import opened Projects

  ghost predicate HasSome(log: Log, q: nat) {
    exists k: nat :: k < |log| && IsProject(log[k]) && log[k].body.project == Evt(q)
  }

  /** The question has projects, and all of them lie past the read. */
  ghost predicate PastRead(log: Log, q: nat, limit: nat) {
    var rows := Positions(log, IsProject);
    HasSome(log, q) && forall i | 0 <= i < |rows| && i < limit :: log[rows[i]].body.project != Evt(q)
  }

  /** Every project of a question is read, or is past the read. */
  lemma ReadOrPast(log: Log, q: nat, limit: nat)
    ensures HasSome(log, q) <==> HasProject(log, q, limit) || PastRead(log, q, limit)
    ensures PastRead(log, q, limit) ==> !HasProject(log, q, limit)
  {
    var rows := Oldest(log, IsProject, limit);
    assert forall i | 0 <= i < |rows| :: rows[i] == Positions(log, IsProject)[i];
    if HasProject(log, q, limit) {
      var i :| 0 <= i < |rows| && log[rows[i]].body.project == Evt(q);
      assert IsProject(log[rows[i]]);
    }
  }

  /** While the project rows fit the read, nothing lies past it. */
  lemma NothingPast(log: Log, q: nat, limit: nat)
    requires |Positions(log, IsProject)| <= limit
    ensures !PastRead(log, q, limit)
  {
    var rows := Positions(log, IsProject);
    if HasSome(log, q) {
      var k: nat :| k < |log| && IsProject(log[k]) && log[k].body.project == Evt(q);
      assert k in rows;
      var i :| 0 <= i < |rows| && rows[i] == k;
    }
  }

  /** An emission for questions without a project keeps every question at one. */
  lemma AddsKeepsOneEach(log: Log, log': Log, created: seq<nat>)
    requires OneProjectEach(log) && AddsProjects(log, log', created) && Ascending(created)
    requires forall q | q in created :: !HasSome(log, q)
    ensures OneProjectEach(log')
  {
    forall i, j | 0 <= i < j < |log'| && IsProject(log'[i]) && IsProject(log'[j])
      ensures log'[i].body.project != log'[j].body.project
    {
      if j >= |log| {
        assert created[j - |log|] in created;
        if i < |log| { assert log'[i] == log[i]; }
      }
    }
  }

  lemma NoNewTrail(log: Log, log': Log, a: Ref, b: Ref)
    requires log <= log' && forall k | |log| <= k < |log'| :: log'[k].recalled == []
    requires Reaches(log', a, b)
    ensures Reaches(log, a, b)
  {
    var p :| IsTrail(log', p) && p[0] == a && p[|p| - 1] == b;
    forall i | 0 < i < |p| ensures p[i] in Recalls(log, p[i - 1]) {
      assert p[i] in Recalls(log', p[i - 1]);
    }
    assert IsTrail(log, p);
  }

  ghost predicate OnlyProjects(log: Log, log': Log) {
    log <= log' && forall k | |log| <= k < |log'| :: IsProject(log'[k]) && log'[k].recalled == []
  }

  lemma MeetingsAreInert(log: Log, log': Log, q: nat)
    requires OnlyProjects(log, log') && q < |log| && MetTwice(log', q) && SpansAWeek(log', q)
    ensures MetTwice(log, q) && SpansAWeek(log, q)
  {
    var a: nat, b: nat :| a < b && RevisitOf(log', a, q) && RevisitOf(log', b, q);
    assert RevisitOf(log, a, q) && RevisitOf(log, b, q);
    var k: nat :| RevisitOf(log', k, q) && WeekApart(log', q, k);
    assert RevisitOf(log, k, q) && WeekApart(log, q, k);
  }

  lemma CausesAreInert(log: Log, log': Log, q: nat)
    requires OnlyProjects(log, log') && RevisitsObserved(log', q)
    ensures RevisitsObserved(log, q)
  {
    forall k: nat | RevisitOf(log, k, q) ensures CausedByObservations(log, k) {
      assert RevisitOf(log', k, q) && CausedByObservations(log', k);
    }
  }

  lemma ThoughtsAreInert(log: Log, log': Log, q: nat)
    requires OnlyProjects(log, log') && IsQuestionAt(log, q) && GrewIntoThought(log', q)
    ensures GrewIntoThought(log, q)
  {
    var t: nat, y :| t < |log'| && IsOwnThought(log'[t]) && Target(log', q, y) && Reaches(log', Evt(t), y);
    NoNewTrail(log, log', Evt(t), y);
    assert Target(log, q, y);
  }

  lemma EvidenceIsInert(log: Log, log': Log, q: nat)
    requires log <= log' && EvidenceResolves(log) && IsQuestionAt(log, q)
    requires TwoSources(log', q) && NoConversation(log', q)
    ensures TwoSources(log, q) && NoConversation(log, q)
  {
    forall e: nat ensures EvidenceAt(log, q, e) <==> EvidenceAt(log', q, e) {
      if EvidenceAt(log', q, e) { EvidenceNotNew(log, q, e); }
    }
    var a: nat, b: nat :| EvidenceAt(log', q, a) && EvidenceAt(log', q, b) && SourceOf(log'[a]) != SourceOf(log'[b]);
    assert EvidenceAt(log, q, a) && EvidenceAt(log, q, b);
  }

  /** Projects themselves bring about no genesis. */
  lemma ProjectsAreInert(log: Log, log': Log, q: nat)
    requires OnlyProjects(log, log') && EvidenceResolves(log) && Qualifies(log', q)
    ensures Qualifies(log, q)
  {
    assert IsQuestionAt(log, q);
    MeetingsAreInert(log, log', q);
    EvidenceIsInert(log, log', q);
    ThoughtsAreInert(log, log', q);
    CausesAreInert(log, log', q);
  }

  lemma CreatedHasProject(log: Log, log': Log, created: seq<nat>, q: nat)
    requires AddsProjects(log, log', created) && (q in created || HasSome(log, q))
    ensures HasSome(log', q)
  {
    if q in created {
      var i :| 0 <= i < |created| && created[i] == q;
      assert IsProject(log'[|log| + i]);
    } else {
      SomeStays(log, log', q);
    }
  }

  lemma SomeStays(log: Log, log': Log, q: nat)
    requires log <= log' && HasSome(log, q)
    ensures HasSome(log', q)
  {
    var k: nat :| k < |log| && IsProject(log[k]) && log[k].body.project == Evt(q);
    assert log'[k] == log[k];
  }

  lemma ReadOnlyProjects(log: Log, log': Log, created: seq<nat>, limit: nat)
    requires AddsProjects(log, log', created)
    ensures OnlyProjects(ReadUpTo(log, limit), ReadUpTo(log', limit))
  {
  }

  // --------------------------------------------------------------- one check

  /** A check, complete or cut short by a rejected append. */
  ghost predicate Emitted(log: Log, log': Log, created: seq<nat>, readLimit: nat, projectLimit: nat) {
    && AddsProjects(log, log', created) && Ascending(created)
    && NewGenesis(log, readLimit, projectLimit, created)
  }

  /** A complete check writes a further project for a question exactly if it qualifies and all its projects lie past
      the read. */
  lemma DuplicatedIff(log: Log, log': Log, created: seq<nat>, readLimit: nat, projectLimit: nat, q: nat)
    requires Emitted(log, log', created, readLimit, projectLimit) && Covered(log, readLimit, projectLimit, created)
    ensures q in created && HasSome(log, q)
            <==> Qualifies(ReadUpTo(log, readLimit), q) && PastRead(log, q, projectLimit)
  {
    ReadOrPast(log, q, projectLimit);
  }

  lemma WrittenAgain(log: Log, log': Log, created: seq<nat>, q: nat)
    requires AddsProjects(log, log', created) && q in created && HasSome(log, q)
    ensures !OneProjectEach(log')
  {
    var k: nat :| k < |log| && IsProject(log[k]) && log[k].body.project == Evt(q);
    var i :| 0 <= i < |created| && created[i] == q;
    assert log'[k] == log[k] && IsProject(log'[|log| + i]);
  }

  /** A check, whole or cut short, keeps every question at one project if and only if it writes none for a question
      whose projects lie past the read. */
  lemma EmissionKeepsOneEachIff(log: Log, log': Log, created: seq<nat>, readLimit: nat, projectLimit: nat)
    requires OneProjectEach(log) && Emitted(log, log', created, readLimit, projectLimit)
    ensures OneProjectEach(log') <==> forall q {:trigger q in created} | q in created :: !PastRead(log, q, projectLimit)
  {
    forall q | q in created ensures HasSome(log, q) <==> PastRead(log, q, projectLimit) {
      ReadOrPast(log, q, projectLimit);
    }
    if q {:trigger q in created} :| q in created && HasSome(log, q) {
      WrittenAgain(log, log', created, q);
    } else {
      AddsKeepsOneEach(log, log', created);
    }
  }

  /** A check straight after a complete one writes something if and only if some qualifying question's projects
      all lie past the read. */
  lemma SecondCheckIsIdleIff(log: Log, log': Log, created: seq<nat>, created': seq<nat>, readLimit: nat,
                             projectLimit: nat)
    requires AddsProjects(log, log', created) && EvidenceResolves(ReadUpTo(log, readLimit))
    requires Covered(log, readLimit, projectLimit, created)
    requires NewGenesis(log', readLimit, projectLimit, created') && Covered(log', readLimit, projectLimit, created')
    ensures created' == []
            <==> forall q: nat | Qualifies(ReadUpTo(log', readLimit), q) :: !PastRead(log', q, projectLimit)
  {
    if created' != [] {
      var q := created'[0];
      assert q in created';
      StillOwed(log, log', created, readLimit, projectLimit, q);
    }
    forall q: nat | Qualifies(ReadUpTo(log', readLimit), q) && PastRead(log', q, projectLimit) ensures q in created' {
      ReadOrPast(log', q, projectLimit);
    }
  }

  /** After a complete check a qualifying question without a project as read has projects past the read. */
  lemma StillOwed(log: Log, log': Log, created: seq<nat>, readLimit: nat, projectLimit: nat, q: nat)
    requires AddsProjects(log, log', created) && EvidenceResolves(ReadUpTo(log, readLimit))
    requires Covered(log, readLimit, projectLimit, created)
    requires Qualifies(ReadUpTo(log', readLimit), q) && !HasProject(log', q, projectLimit)
    ensures PastRead(log', q, projectLimit)
  {
    ReadOnlyProjects(log, log', created, readLimit);
    ProjectsAreInert(ReadUpTo(log, readLimit), ReadUpTo(log', readLimit), q);
    ReadOrPast(log, q, projectLimit);
    CreatedHasProject(log, log', created, q);
    ReadOrPast(log', q, projectLimit);
  }

  /** While the project rows fit the read a second check writes nothing. */
  lemma SecondCheckIsIdle(log: Log, log': Log, created: seq<nat>, created': seq<nat>, readLimit: nat, projectLimit: nat)
    requires AddsProjects(log, log', created) && EvidenceResolves(ReadUpTo(log, readLimit))
    requires Covered(log, readLimit, projectLimit, created)
    requires NewGenesis(log', readLimit, projectLimit, created') && |Positions(log', IsProject)| <= projectLimit
    ensures created' == []
  {
    if created' != [] {
      var q := created'[0];
      assert q in created';
      StillOwed(log, log', created, readLimit, projectLimit, q);
      NothingPast(log', q, projectLimit);
    }
  }

  // ------------------------------------------------------------------- lives

  /** The log between one check and the next grows by anything but projects. */
  ghost predicate OthersWrite(log: Log, log': Log) {
    log <= log' && forall k | |log| <= k < |log'| :: !IsProject(log'[k])
  }

  ghost predicate Attempted(log: Log, log': Log, readLimit: nat, projectLimit: nat) {
    exists created :: Emitted(log, log', created, readLimit, projectLimit)
  }

  /** A complete check. */
  ghost predicate Checked(log: Log, log': Log, readLimit: nat, projectLimit: nat) {
    exists created :: Emitted(log, log', created, readLimit, projectLimit)
                      && Covered(log, readLimit, projectLimit, created)
  }

  /** A check that writes a project for a question whose projects lie past the read. */
  ghost predicate Repeats(log: Log, log': Log, readLimit: nat, projectLimit: nat) {
    exists created, q: nat :: Emitted(log, log', created, readLimit, projectLimit) && q in created
                              && PastRead(log, q, projectLimit)
  }

  ghost predicate LifeStep(log: Log, log': Log, readLimit: nat, projectLimit: nat) {
    OthersWrite(log, log') || Attempted(log, log', readLimit, projectLimit)
  }

  /** A life: checks, whether they end or are cut short, and stretches in which others write. */
  ghost predicate Life(logs: seq<Log>, readLimit: nat, projectLimit: nat) {
    && logs != [] && logs[0] == []
    && forall i | 0 < i < |logs| :: LifeStep(logs[i - 1], logs[i], readLimit, projectLimit)
  }

  lemma StepKeepsOneEachIff(log: Log, log': Log, readLimit: nat, projectLimit: nat)
    requires LifeStep(log, log', readLimit, projectLimit)
    ensures OneProjectEach(log') ==> OneProjectEach(log)
    ensures OneProjectEach(log) ==> (OneProjectEach(log') <==> !Repeats(log, log', readLimit, projectLimit))
  {
    assert forall k | 0 <= k < |log| :: log'[k] == log[k];
    if OneProjectEach(log) {
      if Repeats(log, log', readLimit, projectLimit) {
        var created, q: nat :|
          Emitted(log, log', created, readLimit, projectLimit) && q in created && PastRead(log, q, projectLimit);
        EmissionKeepsOneEachIff(log, log', created, readLimit, projectLimit);
      } else if !OthersWrite(log, log') {
        var created :| Emitted(log, log', created, readLimit, projectLimit);
        EmissionKeepsOneEachIff(log, log', created, readLimit, projectLimit);
      }
    }
  }

  ghost predicate RepeatsAt(logs: seq<Log>, i: nat, readLimit: nat, projectLimit: nat) {
    0 < i < |logs| && Repeats(logs[i - 1], logs[i], readLimit, projectLimit)
  }

  ghost predicate NeverRepeats(logs: seq<Log>, readLimit: nat, projectLimit: nat) {
    forall i: nat :: !RepeatsAt(logs, i, readLimit, projectLimit)
  }

  lemma {:induction false} OneProjectEachUpTo(logs: seq<Log>, n: nat, readLimit: nat, projectLimit: nat)
    requires Life(logs, readLimit, projectLimit) && n < |logs|
    ensures OneProjectEach(logs[n]) <==> forall i: nat | i <= n :: !RepeatsAt(logs, i, readLimit, projectLimit)
  {
    if n > 0 {
      OneProjectEachUpTo(logs, n - 1, readLimit, projectLimit);
      StepKeepsOneEachIff(logs[n - 1], logs[n], readLimit, projectLimit);
      assert RepeatsAt(logs, n, readLimit, projectLimit) <==> Repeats(logs[n - 1], logs[n], readLimit, projectLimit);
    }
  }

  /** At the end of a life no question has two projects if and only if no check wrote one for a question whose
      projects lay past its read. */
  lemma OneProjectEachIff(logs: seq<Log>, readLimit: nat, projectLimit: nat)
    requires Life(logs, readLimit, projectLimit)
    ensures OneProjectEach(logs[|logs| - 1]) <==> NeverRepeats(logs, readLimit, projectLimit)
  {
    OneProjectEachUpTo(logs, |logs| - 1, readLimit, projectLimit);
  }

  lemma NothingRepeats(log: Log, log': Log, readLimit: nat, projectLimit: nat)
    requires |Positions(log, IsProject)| <= projectLimit
    ensures !Repeats(log, log', readLimit, projectLimit)
  {
    forall q: nat ensures !PastRead(log, q, projectLimit) {
      NothingPast(log, q, projectLimit);
    }
  }

  /** While the project rows fit the read no question ever has two projects. */
  lemma OneProjectEachInLife(logs: seq<Log>, readLimit: nat, projectLimit: nat)
    requires Life(logs, readLimit, projectLimit)
    requires forall i | 0 <= i < |logs| - 1 :: |Positions(logs[i], IsProject)| <= projectLimit
    ensures OneProjectEach(logs[|logs| - 1])
  {
    forall i: nat ensures !RepeatsAt(logs, i, readLimit, projectLimit) {
      if 0 < i < |logs| {
        NothingRepeats(logs[i - 1], logs[i], readLimit, projectLimit);
      }
    }
    OneProjectEachIff(logs, readLimit, projectLimit);
  }

  lemma {:induction false} LifeOnlyGrows(logs: seq<Log>, readLimit: nat, projectLimit: nat, i: nat)
    requires Life(logs, readLimit, projectLimit) && i < |logs|
    ensures logs[i] <= logs[|logs| - 1]
    decreases |logs| - i
  {
    if i < |logs| - 1 {
      assert logs[i] <= logs[i + 1] by {
        assert LifeStep(logs[i + 1 - 1], logs[i + 1], readLimit, projectLimit);
      }
      LifeOnlyGrows(logs, readLimit, projectLimit, i + 1);
    }
  }

  /** A question that qualified at any complete check of a life has a project at its end, and exactly one if and only
      if no check repeated one past its read. */
  lemma ExactlyOneProject(logs: seq<Log>, readLimit: nat, projectLimit: nat, i: nat, q: nat)
    requires Life(logs, readLimit, projectLimit) && 0 < i < |logs|
    requires Checked(logs[i - 1], logs[i], readLimit, projectLimit) && Qualifies(ReadUpTo(logs[i - 1], readLimit), q)
    ensures HasSome(logs[|logs| - 1], q)
    ensures OneProjectEach(logs[|logs| - 1]) <==> NeverRepeats(logs, readLimit, projectLimit)
  {
    OneProjectEachIff(logs, readLimit, projectLimit);
    var log, log' := logs[i - 1], logs[i];
    var created :| Emitted(log, log', created, readLimit, projectLimit)
      && Covered(log, readLimit, projectLimit, created);
    ReadOrPast(log, q, projectLimit);
    CreatedHasProject(log, log', created, q);
    LifeOnlyGrows(logs, readLimit, projectLimit, i);
    SomeStays(log', logs[|logs| - 1], q);
  }
}
