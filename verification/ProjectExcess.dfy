/** A life in which a question receives two projects (private_projects.py, check_genesis): one question more than
    the read of projects holds rows qualifies, and a second check no longer reads the project of the last one. */
module ProjectExcess {
  import opened EventLog
  import opened Reachability
  import opened Genesis
  import opened Projects
  import opened ProjectLife

  function Seen(source: string, at: real): Event {
    Draft(false, Observation("t", "i")).(source := Some(source), at := at)
  }

  function Met(q: nat, cause: nat, at: real): Event {
    Draft(false, QuestionRevisited(Evt(q))).(causedBy := [Evt(cause)], relatedTo := [Evt(q)], at := at)
  }

  /** Eight events: two observations, a question about both, two later re-meetings more than a week apart, and a
      thought of the resident's own that recalls the question. */
  function TaleAt(b: nat, k: nat, at: real): Event {
    match k
    case 0 => Seen("a", at)
    case 1 => Seen("b", at)
    case 2 => Draft(false, QuestionCreated("t", [Evt(b), Evt(b + 1)])).(relatedTo := [Evt(b), Evt(b + 1)], at := at)
    case 3 => Seen("a", at + 86400.0)
    case 4 => Met(b + 2, b + 3, at + 86400.0)
    case 5 => Seen("b", at + 691200.0)
    case 6 => Met(b + 2, b + 5, at + 691200.0)
    case _ => Draft(false, ThoughtCreated(SelfThread)).(recalled := [Evt(b + 2)], at := at + 691200.0)
  }

  /** One such tale after another. */
  function Tale(k: nat): Event {
    TaleAt(k / 8 * 8, k % 8, (k / 8) as real * 691200.0)
  }

  function Tales(n: nat): Log {
    seq(8 * n, (k: nat) => Tale(k))
  }

  function Question(i: nat): nat {
    8 * i + 2
  }

  function Asked(n: nat): seq<nat> {
    seq(n, (i: nat) => Question(i))
  }

  lemma TaleIs(n: nat, i: nat, k: nat)
    requires i < n && k < 8
    ensures 8 * i + k < |Tales(n)| && Tales(n)[8 * i + k] == TaleAt(8 * i, k, i as real * 691200.0)
  {
    assert (8 * i + k) / 8 == i && (8 * i + k) % 8 == k;
  }

  // ------------------------------------------------------------ they qualify

  lemma EveryRevisitIsObserved(n: nat, k: nat)
    requires k < |Tales(n)| && IsRevisit(Tales(n)[k])
    ensures CausedByObservations(Tales(n), k)
  {
    var i, j := k / 8, k % 8;
    TaleIs(n, i, j);
    TaleIs(n, i, j - 1);
    assert Tales(n)[k].causedBy == [Evt(k - 1)];
  }

  lemma TaleMeets(n: nat, i: nat, k: nat)
    requires i < n && (k == 4 || k == 6)
    ensures RevisitOf(Tales(n), 8 * i + k, Question(i))
  {
    TaleIs(n, i, k);
  }

  lemma TaleSpans(n: nat, i: nat)
    requires i < n
    ensures WeekApart(Tales(n), Question(i), 8 * i + 6)
  {
    TaleIs(n, i, 2);
    TaleIs(n, i, 6);
  }

  lemma TaleMeetings(n: nat, i: nat)
    requires i < n
    ensures MetTwice(Tales(n), Question(i)) && SpansAWeek(Tales(n), Question(i))
  {
    TaleMeets(n, i, 4);
    TaleMeets(n, i, 6);
    TaleSpans(n, i);
  }

  lemma TaleRevisits(n: nat, q: nat)
    ensures RevisitsObserved(Tales(n), q)
  {
    forall k: nat | RevisitOf(Tales(n), k, q) ensures CausedByObservations(Tales(n), k) {
      EveryRevisitIsObserved(n, k);
    }
  }

  lemma ObservationsAreOfTheWorld(e: Event)
    requires e.body.Observation?
    ensures !FromConversation(e)
  {
    assert TypeName(e.body)[0] == 'w';
  }

  lemma ObservedEvidence(log: Log, q: nat, a: nat, b: nat)
    requires IsQuestionAt(log, q) && log[q].body.evidence == [Evt(a), Evt(b)] && a < |log| && b < |log|
    requires log[a].body == log[b].body == Observation("t", "i") && SourceOf(log[a]) != SourceOf(log[b])
    ensures TwoSources(log, q) && NoConversation(log, q)
  {
    assert EvidenceAt(log, q, a) && EvidenceAt(log, q, b);
    forall e: nat | EvidenceAt(log, q, e) ensures !FromConversation(log[e]) {
      ObservationsAreOfTheWorld(log[e]);
    }
  }

  lemma TaleEvidence(n: nat, i: nat)
    requires i < n
    ensures IsQuestionAt(Tales(n), Question(i)) && TwoSources(Tales(n), Question(i))
            && NoConversation(Tales(n), Question(i))
  {
    TaleIs(n, i, 0);
    TaleIs(n, i, 1);
    TaleIs(n, i, 2);
    ObservedEvidence(Tales(n), Question(i), 8 * i, 8 * i + 1);
  }

  lemma TaleThought(n: nat, i: nat)
    requires i < n && IsQuestionAt(Tales(n), Question(i))
    ensures GrewIntoThought(Tales(n), Question(i))
  {
    var log, q, t := Tales(n), Question(i), 8 * i + 7;
    TaleIs(n, i, 7);
    assert Evt(q) in Recalls(log, Evt(t));
    ReachesChild(log, Evt(t), Evt(q));
    assert Target(log, q, Evt(q));
  }

  lemma TaleQualifies(n: nat, i: nat)
    requires i < n
    ensures Qualifies(Tales(n), Question(i))
  {
    TaleMeetings(n, i);
    TaleRevisits(n, Question(i));
    TaleEvidence(n, i);
    TaleThought(n, i);
  }

  lemma QuestionsAreAsked(n: nat, q: nat)
    requires IsQuestionAt(Tales(n), q)
    ensures q / 8 < n && q == Question(q / 8) && Tales(n)[q].body.evidence == [Evt(q - 2), Evt(q - 1)]
  {
    TaleIs(n, q / 8, q % 8);
  }

  lemma TalesResolve(n: nat)
    ensures EvidenceResolves(Tales(n))
  {
    var log := Tales(n);
    forall q, i | 0 <= q < |log| && log[q].body.QuestionCreated? && 0 <= i < |log[q].body.evidence|
      ensures !Dangles(log, log[q].body.evidence[i])
    {
      QuestionsAreAsked(n, q);
    }
  }

  lemma TaleLinks(b: nat, k: nat, at: real, i: nat)
    requires k < 8 && i < |Links(TaleAt(b, k, at))|
    ensures Links(TaleAt(b, k, at))[i].Evt? && Links(TaleAt(b, k, at))[i].pos < b + k
  {
  }

  lemma TalesAreCausal(n: nat)
    ensures Causal(Tales(n))
  {
    var log := Tales(n);
    forall k | 0 <= k < |log| ensures LinksResolve(log[..k], log[k]) {
      forall i | 0 <= i < |Links(log[k])| ensures !Dangles(log[..k], Links(log[k])[i]) {
        TaleLinks(k / 8 * 8, k % 8, (k / 8) as real * 691200.0, i);
      }
    }
  }

  lemma TalesRunForward(n: nat)
    ensures TimeOrdered(Tales(n))
  {
    var log := Tales(n);
    forall i, j | 0 <= i <= j < |log| ensures log[i].at <= log[j].at {
      TaleTimes(i / 8, i % 8, j / 8, j % 8);
    }
  }

  lemma TaleTimes(i: nat, k: nat, j: nat, l: nat)
    requires k < 8 && l < 8 && (i < j || (i == j && k <= l))
    ensures TaleAt(8 * i, k, i as real * 691200.0).at <= TaleAt(8 * j, l, j as real * 691200.0).at
  {
    assert i < j ==> (i + 1) as real * 691200.0 <= j as real * 691200.0;
  }

  /** The criterion can be met by any number of questions at once, on logs that the store accepts. */
  lemma GenesisIsPossible(n: nat)
    ensures Causal(Tales(n)) && TimeOrdered(Tales(n)) && EvidenceResolves(Tales(n))
    ensures forall q: nat :: Qualifies(Tales(n), q) <==> q in Asked(n)
  {
    TalesAreCausal(n);
    TalesRunForward(n);
    TalesResolve(n);
    forall q: nat ensures Qualifies(Tales(n), q) <==> q in Asked(n) {
      if Qualifies(Tales(n), q) {
        QuestionsAreAsked(n, q);
        assert Asked(n)[q / 8] == q;
      }
      if q in Asked(n) {
        var i :| 0 <= i < n && Asked(n)[i] == q;
        TaleQualifies(n, i);
      }
    }
  }

  // -------------------------------------------------------------- two checks

  lemma {:induction false} FoundedAdds(log: Log, qs: seq<nat>, now: real)
    ensures AddsProjects(log, Founded(log, qs, now), qs)
  {
    if qs != [] {
      var front, q := qs[..|qs| - 1], qs[|qs| - 1];
      FoundedAdds(log, front, now);
      assert qs == front + [q];
      AddsOne(log, Founded(log, front, now), front, q, ProjectFor(Founded(log, front, now), q).(at := now));
    }
  }

  /** The project rows are for these questions, in order. */
  ghost predicate HasRows(log: Log, qs: seq<nat>) {
    var rows := Positions(log, IsProject);
    |rows| == |qs| && forall i | 0 <= i < |rows| :: log[rows[i]].body.project == Evt(qs[i])
  }

  lemma RowsGrow(log: Log, qs: seq<nat>, q: nat, e: Event)
    requires HasRows(log, qs) && e.body == ProjectCreated(Evt(q))
    ensures HasRows(log + [e], qs + [q])
  {
    PositionsAppend(log, e, IsProject);
  }

  lemma {:induction false} FoundedRows(log: Log, qs: seq<nat>, now: real)
    requires Positions(log, IsProject) == []
    ensures HasRows(Founded(log, qs, now), qs)
  {
    if qs != [] {
      var front, q := qs[..|qs| - 1], qs[|qs| - 1];
      FoundedRows(log, front, now);
      assert qs == front + [q];
      RowsGrow(Founded(log, front, now), front, q, ProjectFor(Founded(log, front, now), q).(at := now));
    }
  }

  lemma TalesHaveNone(n: nat)
    ensures Positions(Tales(n), IsProject) == []
  {
    var rows := Positions(Tales(n), IsProject);
    if rows != [] {
      TaleIs(n, rows[0] / 8, rows[0] % 8);
    }
  }

  lemma NothingToSee(log: Log, q: nat, limit: nat)
    requires Positions(log, IsProject) == []
    ensures !HasProject(log, q, limit)
  {
  }

  lemma AskedAscend(n: nat)
    ensures Ascending(Asked(n))
  {
  }

  /** The first check of the tales gives every question its project. */
  lemma FirstCheck(n: nat, log: Log, first: Log, readLimit: nat, projectLimit: nat)
    requires log == Tales(n) && |log| <= readLimit && AddsProjects(log, first, Asked(n))
    ensures Emitted(log, first, Asked(n), readLimit, projectLimit) && Covered(log, readLimit, projectLimit, Asked(n))
  {
    GenesisIsPossible(n);
    TalesHaveNone(n);
    AskedAscend(n);
    assert ReadUpTo(log, readLimit) == log;
    forall q: nat ensures !HasProject(log, q, projectLimit) {
      NothingToSee(log, q, projectLimit);
    }
  }

  /** On the log after it the same questions qualify. */
  lemma StillQualify(n: nat, first: Log, q: nat)
    requires AddsProjects(Tales(n), first, Asked(n))
    ensures Qualifies(first, q) <==> q in Asked(n)
  {
    GenesisIsPossible(n);
    if q in Asked(n) {
      GenesisIsPermanent(Tales(n), first, q);
    }
    if Qualifies(first, q) {
      ProjectsAreInert(Tales(n), first, q);
    }
  }

  /** Only the project of the last question lies past a read of one row fewer. */
  lemma LastIsPast(n: nat, log: Log, i: nat)
    requires HasRows(log, Asked(n)) && i < n
    ensures PastRead(log, Question(i), n - 1) <==> i == n - 1
  {
    var rows := Positions(log, IsProject);
    assert IsProject(log[rows[i]]) && log[rows[i]].body.project == Evt(Asked(n)[i]);
    forall k | 0 <= k < |rows| ensures log[rows[k]].body.project == Evt(Question(k)) {
      assert Asked(n)[k] == Question(k);
    }
  }

  lemma OthersAreRead(n: nat, log: Log, q: nat)
    requires n > 0 && HasRows(log, Asked(n)) && q in Asked(n)
    ensures HasProject(log, q, n - 1) <==> q != Question(n - 1)
  {
    var i :| 0 <= i < n && Asked(n)[i] == q;
    LastIsPast(n, log, i);
    ReadOrPast(log, q, n - 1);
    var rows := Positions(log, IsProject);
    assert IsProject(log[rows[i]]) && log[rows[i]].body.project == Evt(q);
  }

  /** What the second check finds. */
  lemma SecondFinds(n: nat, first: Log, x: nat)
    requires n > 0 && AddsProjects(Tales(n), first, Asked(n)) && HasRows(first, Asked(n))
    ensures Qualifies(first, x) && !HasProject(first, x, n - 1) <==> x == Question(n - 1)
  {
    StillQualify(n, first, x);
    assert Asked(n)[n - 1] == Question(n - 1);
    if x in Asked(n) {
      OthersAreRead(n, first, x);
    }
  }

  /** The second check writes the last question's project again, and nothing else. */
  lemma SecondCheck(n: nat, first: Log, second: Log, q: nat, readLimit: nat)
    requires n > 0 && AddsProjects(Tales(n), first, Asked(n)) && HasRows(first, Asked(n)) && |first| <= readLimit
    requires q == Question(n - 1) && AddsProjects(first, second, [q])
    ensures Emitted(first, second, [q], readLimit, n - 1) && Covered(first, readLimit, n - 1, [q])
  {
    assert ReadUpTo(first, readLimit) == first;
    forall x: nat ensures Qualifies(first, x) && !HasProject(first, x, n - 1) <==> x in [q] {
      SecondFinds(n, first, x);
    }
  }

  lemma TalesAreOthers(n: nat)
    ensures OthersWrite([], Tales(n))
  {
    forall k | 0 <= k < |Tales(n)| ensures !IsProject(Tales(n)[k]) {
      TaleIs(n, k / 8, k % 8);
    }
  }

  lemma ThreeSteps(a: Log, b: Log, c: Log, d: Log, readLimit: nat, projectLimit: nat)
    requires a == [] && OthersWrite(a, b)
    requires Checked(b, c, readLimit, projectLimit) && Checked(c, d, readLimit, projectLimit)
    ensures Life([a, b, c, d], readLimit, projectLimit)
  {
    var logs := [a, b, c, d];
    forall i | 0 < i < |logs| ensures LifeStep(logs[i - 1], logs[i], readLimit, projectLimit) {
      CheckedIsAttempted(b, c, readLimit, projectLimit);
      CheckedIsAttempted(c, d, readLimit, projectLimit);
    }
  }

  lemma CheckedIsAttempted(log: Log, log': Log, readLimit: nat, projectLimit: nat)
    requires Checked(log, log', readLimit, projectLimit)
    ensures Attempted(log, log', readLimit, projectLimit)
  {
  }

  lemma LastIsWrittenTwice(n: nat, first: Log, second: Log, q: nat)
    requires n > 0 && HasRows(first, Asked(n)) && q == Question(n - 1) && AddsProjects(first, second, [q])
    ensures !OneProjectEach(second)
  {
    LastIsPast(n, first, n - 1);
    WrittenAgain(first, second, [q], q);
  }

  lemma TwoChecks(n: nat, first: Log, second: Log, now: real, readLimit: nat)
    requires n > 0 && first == Founded(Tales(n), Asked(n), now) && second == Founded(first, [Question(n - 1)], now)
    requires 9 * n <= readLimit
    ensures Checked(Tales(n), first, readLimit, n - 1) && Checked(first, second, readLimit, n - 1)
    ensures !OneProjectEach(second)
  {
    FoundedAdds(Tales(n), Asked(n), now);
    FirstCheck(n, Tales(n), first, readLimit, n - 1);
    TalesHaveNone(n);
    FoundedRows(Tales(n), Asked(n), now);
    FoundedAdds(first, [Question(n - 1)], now);
    SecondCheck(n, first, second, Question(n - 1), readLimit);
    LastIsWrittenTwice(n, first, second, Question(n - 1));
  }

  /** For every row limit of the projects: a life of two complete checks at the end of which a question has two
      projects. The read of events may be as long as one likes. */
  lemma TwoProjectsForOneQuestion(projectLimit: nat, readLimit: nat, now: real)
    requires 9 * (projectLimit + 1) <= readLimit
    ensures var n := projectLimit + 1;
            var first := Founded(Tales(n), Asked(n), now);
            var second := Founded(first, [Question(projectLimit)], now);
            && Life([[], Tales(n), first, second], readLimit, projectLimit)
            && Checked(Tales(n), first, readLimit, projectLimit) && Checked(first, second, readLimit, projectLimit)
            && !OneProjectEach(second)
  {
    var n := projectLimit + 1;
    var first := Founded(Tales(n), Asked(n), now);
    var second := Founded(first, [Question(projectLimit)], now);
    TwoChecks(n, first, second, now, readLimit);
    TalesAreOthers(n);
    ThreeSteps([], Tales(n), first, second, readLimit, projectLimit);
  }
}
