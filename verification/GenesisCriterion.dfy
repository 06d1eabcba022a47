/** The structural criterion of genesis, said over the events of the log (private_projects.py). */
module GenesisCriterion {
  import opened EventLog
  import opened Reachability
  import opened Genesis

  /** Event `k` meets question `q` again. */
  predicate MeetsAgain(log: Log, k: nat, q: nat) {
    k < |log| && log[k].body == QuestionRevisited(Evt(q))
  }

  predicate ObservedAt(log: Log, r: Ref) {
    r.Evt? && r.pos < |log| && log[r.pos].body.Observation?
  }

  predicate GrownFrom(log: Log, q: nat, e: nat) {
    q < |log| && log[q].body.QuestionCreated? && e < |log| && Evt(e) in log[q].body.evidence
  }

  predicate Spoken(e: Event) {
    TypeName(e.body) == "conversation" || "conversation." <= TypeName(e.body)
  }

  /** Two events of different sources, an event without one being its own type's. */
  predicate Differ(a: Event, b: Event) {
    (if a.source.Some? && |a.source.value| > 0 then a.source.value else TypeName(a.body))
    != (if b.source.Some? && |b.source.value| > 0 then b.source.value else TypeName(b.body))
  }

  ghost predicate Recalling(log: Log, t: nat, q: nat) {
    && t < |log| && q < |log| && log[q].body.QuestionCreated?
    && (log[t].body == ThoughtCreated(SelfThread) || log[t].body == ThoughtCreated(PrivateProject))
    && exists y :: Reaches(log, Evt(t), y) && (y == Evt(q) || y in log[q].body.evidence)
  }

  lemma MeetingsAre(log: Log, q: nat)
    requires q < |log|
    ensures MetTwice(log, q) <==> exists a: nat, b: nat :: a < b && MeetsAgain(log, a, q) && MeetsAgain(log, b, q)
    ensures SpansAWeek(log, q) <==> exists k: nat :: MeetsAgain(log, k, q) && log[k].at >= log[q].at + 604800.0
  {
    forall k: nat ensures MeetsAgain(log, k, q) <==> RevisitOf(log, k, q) {
    }
    if k: nat :| RevisitOf(log, k, q) && WeekApart(log, q, k) {
      assert MeetsAgain(log, k, q) && log[k].at >= log[q].at + 604800.0;
    }
    if k: nat :| MeetsAgain(log, k, q) && log[k].at >= log[q].at + 604800.0 {
      assert RevisitOf(log, k, q) && WeekApart(log, q, k);
    }
  }

  lemma CausesAre(log: Log, q: nat)
    ensures RevisitsObserved(log, q) <==>
              forall k: nat, i: nat | MeetsAgain(log, k, q) && i < |log[k].causedBy| ::
                ObservedAt(log, log[k].causedBy[i])
  {
    forall k: nat ensures MeetsAgain(log, k, q) <==> RevisitOf(log, k, q) {
    }
    forall k: nat | k < |log|
      ensures CausedByObservations(log, k) <==>
                forall i: nat | i < |log[k].causedBy| :: ObservedAt(log, log[k].causedBy[i])
    {
    }
  }

  lemma SourcesAre(log: Log, q: nat)
    requires IsQuestionAt(log, q)
    ensures TwoSources(log, q) <==>
              exists a: nat, b: nat :: GrownFrom(log, q, a) && GrownFrom(log, q, b) && Differ(log[a], log[b])
  {
    if a: nat, b: nat :| EvidenceAt(log, q, a) && EvidenceAt(log, q, b) && SourceOf(log[a]) != SourceOf(log[b]) {
      assert GrownFrom(log, q, a) && GrownFrom(log, q, b) && Differ(log[a], log[b]);
    }
    if a: nat, b: nat :| GrownFrom(log, q, a) && GrownFrom(log, q, b) && Differ(log[a], log[b]) {
      assert EvidenceAt(log, q, a) && EvidenceAt(log, q, b) && SourceOf(log[a]) != SourceOf(log[b]);
    }
  }

  lemma ConversationsAre(log: Log, q: nat)
    requires IsQuestionAt(log, q)
    ensures NoConversation(log, q) <==> forall e: nat | GrownFrom(log, q, e) :: !Spoken(log[e])
  {
    forall e: nat ensures EvidenceAt(log, q, e) <==> GrownFrom(log, q, e) {
    }
  }

  lemma ThoughtsAre(log: Log, q: nat)
    requires IsQuestionAt(log, q)
    ensures GrewIntoThought(log, q) <==> exists t: nat :: Recalling(log, t, q)
  {
    if t: nat, y :| t < |log| && IsOwnThought(log[t]) && Target(log, q, y) && Reaches(log, Evt(t), y) {
      assert Recalling(log, t, q);
    }
    if t: nat :| Recalling(log, t, q) {
      var y :| Reaches(log, Evt(t), y) && (y == Evt(q) || y in log[q].body.evidence);
      assert IsOwnThought(log[t]) && Target(log, q, y);
    }
  }

  /** A question qualifies exactly if it was met twice, at least once seven days or more after it was asked; it grew
      from two sources, none of them a conversation; a thought of the mind's own recalls it, or what it grew from,
      directly or not; and it was never met but through what was observed. */
  lemma QualifiesIs(log: Log, q: nat)
    ensures Qualifies(log, q) <==>
              && q < |log| && log[q].body.QuestionCreated?
              && (exists a: nat, b: nat :: a < b && MeetsAgain(log, a, q) && MeetsAgain(log, b, q))
              && (exists k: nat :: MeetsAgain(log, k, q) && log[k].at >= log[q].at + 604800.0)
              && (exists a: nat, b: nat :: GrownFrom(log, q, a) && GrownFrom(log, q, b) && Differ(log[a], log[b]))
              && (forall e: nat | GrownFrom(log, q, e) :: !Spoken(log[e]))
              && (exists t: nat :: Recalling(log, t, q))
              && (forall k: nat, i: nat | MeetsAgain(log, k, q) && i < |log[k].causedBy| ::
                    ObservedAt(log, log[k].causedBy[i]))
  {
    if q < |log| && log[q].body.QuestionCreated? {
      MeetingsAre(log, q);
      CausesAre(log, q);
      SourcesAre(log, q);
      ConversationsAre(log, q);
      ThoughtsAre(log, q);
    }
  }
}
