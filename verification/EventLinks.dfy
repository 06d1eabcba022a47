/** The invariants of the store and the families of event types, said over the fields of the events (event_store.py,
    models.py). */
module EventLinks {
  import opened EventLog

  predicate Cites(e: Event, r: Ref) {
    r in e.causedBy || r in e.relatedTo
  }

  lemma LinkAt(e: Event, r: Ref)
    ensures r in Links(e) <==> Cites(e, r)
  {
  }

  /** The links of a draft resolve exactly if no cause and no relation of it is the id of an event yet to come. */
  lemma LinksResolveIs(log: Log, e: Event)
    ensures LinksResolve(log, e) <==> forall k: nat | Cites(e, Evt(k)) :: k < |log|
  {
    var links := Links(e);
    forall k: nat ensures Evt(k) in links <==> Cites(e, Evt(k)) {
      LinkAt(e, Evt(k));
    }
    if LinksResolve(log, e) {
      forall k: nat | Cites(e, Evt(k)) ensures k < |log| {
        var i :| 0 <= i < |links| && links[i] == Evt(k);
      }
    } else {
      var i :| 0 <= i < |links| && Dangles(log, links[i]);
      assert links[i] in links && links[i] == Evt(links[i].pos);
      assert Cites(e, Evt(links[i].pos));
    }
  }

  /** A causal log cites backwards. */
  lemma CausalIs(log: Log)
    ensures Causal(log) <==> forall j: nat, k: nat | k < |log| && Cites(log[k], Evt(j)) :: j < k
  {
    forall k | 0 <= k < |log|
      ensures LinksResolve(log[..k], log[k]) <==> forall j: nat | Cites(log[k], Evt(j)) :: j < k
    {
      LinksResolveIs(log[..k], log[k]);
    }
  }

  lemma {:induction false} FamilyBeforeDot(t: string, head: string)
    requires '.' !in head && head + "." <= t
    ensures Family(t) == head
  {
    if head != "" {
      assert t[0] == head[0] && head[0] in head;
      FamilyBeforeDot(t[1..], head[1..]);
    }
  }

  /** The families of the listed types. */
  lemma FamilyOf(b: Body)
    requires !b.Other?
    ensures Family(TypeName(b))
            == match b
               case UserMessage => "conversation"
               case ExperienceCreated => "experience"
               case ThoughtCreated(_) => "thought"
               case ThreadCreated(_, _, _) => "thread"
               case ThreadActivated => "thread"
               case ThreadDormant => "thread"
               case ThreadClosed => "thread"
               case ThreadRevisited => "thread"
               case QuestionCreated(_, _) => "question"
               case QuestionRevisited(_) => "question"
               case WindowOpened(_, _) => "world"
               case Observation(_, _) => "world"
               case ImpressionFormed(_, _) => "impression"
               case ImpressionPromoted(_) => "impression"
               case MemoryConsolidated(_) => "memory"
               case ShareCandidate => "memory"
               case WakeStarted => "wake"
               case SleepStarted => "sleep"
               case SleepCompleted(_, _) => "sleep"
               case StateChanged(_, _) => "circadian"
               case ProjectCreated(_) => "project"
  {
    match b
    case UserMessage => FamilyBeforeDot("conversation.user_message", "conversation");
    case ExperienceCreated => FamilyBeforeDot("experience.created", "experience");
    case ThoughtCreated(_) => FamilyBeforeDot("thought.created", "thought");
    case ThreadCreated(_, _, _) => FamilyBeforeDot("thread.created", "thread");
    case ThreadActivated => FamilyBeforeDot("thread.activated", "thread");
    case ThreadDormant => FamilyBeforeDot("thread.dormant", "thread");
    case ThreadClosed => FamilyBeforeDot("thread.closed", "thread");
    case ThreadRevisited => FamilyBeforeDot("thread.revisited", "thread");
    case QuestionCreated(_, _) => FamilyBeforeDot("question.created", "question");
    case QuestionRevisited(_) => FamilyBeforeDot("question.revisited", "question");
    case WindowOpened(_, _) => FamilyBeforeDot("world.window_opened", "world");
    case Observation(_, _) => FamilyBeforeDot("world.observation", "world");
    case ImpressionFormed(_, _) => FamilyBeforeDot("impression.formed", "impression");
    case ImpressionPromoted(_) => FamilyBeforeDot("impression.promoted", "impression");
    case MemoryConsolidated(_) => FamilyBeforeDot("memory.consolidated", "memory");
    case ShareCandidate => FamilyBeforeDot("memory.share_candidate", "memory");
    case WakeStarted => FamilyBeforeDot("wake.started", "wake");
    case SleepStarted => FamilyBeforeDot("sleep.started", "sleep");
    case SleepCompleted(_, _) => FamilyBeforeDot("sleep.completed", "sleep");
    case StateChanged(_, _) => FamilyBeforeDot("circadian.state_changed", "circadian");
    case ProjectCreated(_) => FamilyBeforeDot("project.created", "project");
  }
}
