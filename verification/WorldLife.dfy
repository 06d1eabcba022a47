/** One look through the world window and whole lives of it (world.py): what a beat writes, the caps and the
    rest that every run keeps, and what they come to once the bounded reads are full. */
module WorldLife {
  import opened EventLog
  import opened WorldWindow
  import opened Impressions

  /** A beat's inputs: the circadian state, the user's silence, the draws, how the world answers, and the old
      memory that the semantic search finds for the material. */
  datatype Beat = Beat(
    asleep: bool, quiet: bool, silence: Option<real>, focused: bool, roll: real, draw: real, choice: nat,
    fetched: bool, impressionRoll: real, promotionRoll: real, associationRoll: real, memory: Option<nat>, world: World)

  datatype Verdict = Sleeping | Spent | Resting | Declined | NothingThere | Looks(mode: EntryMode, item: Item)

  predicate OnTheTable(log: Log, now: real, b: Beat, p: Params, r: Reads) {
    !b.asleep && Today(log, AnyOpening, now, r.rows) < p.maxLight && !Cooling(log, now, p)
  }

  function Urge(log: Log, now: real, b: Beat, p: Params, r: Reads): real
    requires OnTheTable(log, now, b, p, r) && p.silenceFullS != 0.0
  {
    Propensity(b.quiet, b.silence, b.focused, Today(log, AnyOpening, now, r.rows), p)
  }

  function Modes(log: Log, now: real, b: Beat, p: Params, r: Reads): seq<EntryMode> {
    OpenAmong(log, now, ORDER, b.world, p, r)
  }

  /** The draw falls on mode `m`. */
  ghost predicate FallsOn(avail: seq<EntryMode>, draw: real, m: EntryMode)
    requires 0.0 <= draw < 1.0
  {
    avail != [] && exists k | 0 <= k < |avail| :: avail[k] == m && Holds(avail, k, Point(avail, draw))
  }

  predicate OneOf(offer: seq<Item>, choice: nat, it: Item) {
    offer != [] && it == offer[choice % |offer|]
  }

  /** A look in the mode the draw falls on, at one of the items on offer in it. */
  ghost predicate Chooses(log: Log, now: real, b: Beat, p: Params, r: Reads, m: EntryMode, it: Item)
    requires 0.0 <= b.draw < 1.0
  {
    FallsOn(Modes(log, now, b, p, r), b.draw, m) && OneOf(Offer(log, now, m, b.world, p, r), b.choice, it)
  }

  /** When each answer is the right one; no two exclude each other wrongly, and one always applies. */
  ghost predicate Proper(log: Log, now: real, b: Beat, p: Params, r: Reads, v: Verdict)
    requires 0.0 <= b.draw < 1.0 && p.silenceFullS != 0.0
  {
    match v
    case Sleeping => b.asleep
    case Spent => !b.asleep && Today(log, AnyOpening, now, r.rows) >= p.maxLight
    case Resting => !b.asleep && Today(log, AnyOpening, now, r.rows) < p.maxLight && Cooling(log, now, p)
    case Declined => OnTheTable(log, now, b, p, r) && b.roll >= Urge(log, now, b, p, r)
    case NothingThere => OnTheTable(log, now, b, p, r) && b.roll < Urge(log, now, b, p, r)
                         && Modes(log, now, b, p, r) == []
    case Looks(m, it) => OnTheTable(log, now, b, p, r) && b.roll < Urge(log, now, b, p, r)
                         && Chooses(log, now, b, p, r, m, it)
  }

  // ------------------------------------------------------------ what is written

  function Skip(now: real): Event {
    Draft(true, Other("world.window_skipped")).(at := now)
  }

  function Opening(m: EntryMode, it: Item, now: real): Event {
    Draft(true, WindowOpened(m, it.id)).(at := now)
  }

  function Failed(n: nat, now: real): Event {
    Draft(true, Other("world.fetch_failed")).(causedBy := [Evt(n)], at := now)
  }

  function Material(it: Item, n: nat, now: real): Event {
    Draft(false, Observation(it.topic, it.id)).(causedBy := [Evt(n)], at := now)
  }

  function Browsing(n: nat, now: real): Event {
    Draft(false, Other("world.experience")).(causedBy := [Evt(n + 1)], at := now)
  }

  function Impression(it: Item, n: nat, now: real): Event {
    Draft(false, ImpressionFormed(it.topic, it.id)).(causedBy := [Evt(n + 2)], relatedTo := [Evt(n + 1)], at := now)
  }

  /** The observation with what always follows it. */
  function Looked(log: Log, m: EntryMode, it: Item, b: Beat, now: real, p: Params): Log {
    var seen := Browsed(log, m, it, now);
    if b.impressionRoll < p.impressionProb then seen + [Impression(it, |log|, now)] else seen
  }

  /** What a look may lead to beyond an impression. */
  datatype Idea = NoIdea | Rekindled(prior: nat) | Associated(memory: nat)

  /** A thought forms where the day's deep reads are not used up, and either an old impression is re-activated or
      an old memory comes up. */
  function IdeaOf(log: Log, it: Item, b: Beat, now: real, p: Params, r: Reads): Idea {
    if Today(log, WorldThought, now, r.rows) >= p.maxDeep then NoIdea
    else IdeaFrom(log, Prior(log, now, it, b.world.links(it.id), r), b, p)
  }

  function IdeaFrom(log: Log, prior: Option<nat>, b: Beat, p: Params): Idea {
    if prior.Some? && b.promotionRoll < p.promotionProb then Rekindled(prior.value)
    else if b.associationRoll < p.associationProb && b.memory.Some? && b.memory.value < |log|
    then Associated(b.memory.value)
    else NoIdea
  }

  /** The observation behind an impression, if it is there. */
  function Behind(log: Log, q: nat): seq<Ref> {
    if q < |log| && log[q].relatedTo != [] && Resolves(log, log[q].relatedTo[0]) then [log[q].relatedTo[0]] else []
  }

  function Promotion(q: nat, behind: seq<Ref>, n: nat, now: real): Event {
    Draft(false, ImpressionPromoted(Evt(q))).(causedBy := [Evt(n + 1)], relatedTo := [Evt(q)] + behind, at := now)
  }

  /** The thought of a rekindled impression, caused by the observation and by the promotion. */
  function Rekindling(q: nat, behind: seq<Ref>, n: nat, promotion: nat, now: real): Event {
    Draft(false, ThoughtCreated(Origin.World)).(
      causedBy := [Evt(n + 1), Evt(promotion)], relatedTo := [Evt(n + 1), Evt(q)] + behind, recalled := behind,
      at := now)
  }

  function Association(memory: nat, n: nat, now: real): Event {
    Draft(false, ThoughtCreated(Origin.World)).(
      causedBy := [Evt(n + 1)], relatedTo := [Evt(n + 1), Evt(memory)], recalled := [Evt(memory)], at := now)
  }

  /** What an idea adds to the log `seen` of a look that began at position `n`. */
  function WithIdea(seen: Log, idea: Idea, n: nat, now: real): Log {
    match idea
    case NoIdea => seen
    case Rekindled(q) => seen + [Promotion(q, Behind(seen, q), n, now)]
                         + [Rekindling(q, Behind(seen, q), n, |seen|, now)]
    case Associated(memory) => seen + [Association(memory, n, now)]
  }

  /** The log after one look that led to an idea, or did not. */
  function After(log: Log, m: EntryMode, it: Item, b: Beat, now: real, p: Params, idea: Idea): Log {
    if !b.fetched then log + [Opening(m, it, now)] + [Failed(|log|, now)]
    else WithIdea(Looked(log, m, it, b, now, p), idea, |log|, now)
  }

  function AfterBeat(log: Log, v: Verdict, b: Beat, now: real, p: Params, idea: Idea): Log {
    match v
    case Declined => log + [Skip(now)]
    case NothingThere => log + [Skip(now)]
    case Looks(m, it) => After(log, m, it, b, now, p, idea)
    case _ => log
  }

  method Put(store: EventStore, draft: Event)
    requires store.Valid() && LinksResolve(store.log, draft)
    modifies store`log
    ensures store.Valid() && store.log == old(store.log) + [draft.(at := store.clock)]
  {
    var _ := store.Append(draft);
  }

  /** The opening, the observation and the experience. */
  function Browsed(log: Log, m: EntryMode, it: Item, now: real): Log {
    log + [Opening(m, it, now)] + [Material(it, |log|, now)] + [Browsing(|log|, now)]
  }

  method Browse(store: EventStore, m: EntryMode, it: Item)
    requires store.Valid()
    modifies store`log
    ensures store.Valid() && store.log == Browsed(old(store.log), m, it, store.clock)
  {
    var n, now := |store.log|, store.clock;
    Put(store, Opening(m, it, now));
    Put(store, Material(it, n, now));
    Put(store, Browsing(n, now));
  }

  method LookClosely(store: EventStore, m: EntryMode, it: Item, b: Beat, p: Params)
    requires store.Valid()
    modifies store`log
    ensures store.Valid() && store.log == Looked(old(store.log), m, it, b, store.clock, p)
    ensures |store.log| >= |old(store.log)| + 3
  {
    var n := |store.log|;
    Browse(store, m, it);
    if b.impressionRoll < p.impressionProb {
      Put(store, Impression(it, n, store.clock));
    }
  }

  method LookInVain(store: EventStore, m: EntryMode, it: Item)
    requires store.Valid()
    modifies store`log
    ensures store.Valid()
    ensures store.log == old(store.log) + [Opening(m, it, store.clock)] + [Failed(|old(store.log)|, store.clock)]
  {
    var n := |store.log|;
    Put(store, Opening(m, it, store.clock));
    Put(store, Failed(n, store.clock));
  }

  method Think(log: Log, it: Item, b: Beat, now: real, p: Params, r: Reads) returns (idea: Idea)
    ensures idea == IdeaOf(log, it, b, now, p, r) && Grounded(log, idea)
  {
    var deep := CountToday(log, WorldThought, now, r.rows);
    if deep >= p.maxDeep {
      return NoIdea;
    }
    var prior := FindReactivable(log, now, it, b.world.links(it.id), r);
    PriorIsInLog(log, now, it, b.world.links(it.id), r);
    IdeaIsInLog(log, prior, b, p);
    return IdeaFrom(log, prior, b, p);
  }

  predicate Grounded(log: Log, idea: Idea) {
    (idea.Rekindled? ==> idea.prior < |log|) && (idea.Associated? ==> idea.memory < |log|)
  }

  lemma PriorIsInLog(log: Log, now: real, it: Item, links: seq<Item>, r: Reads)
    ensures Prior(log, now, it, links, r).Some? ==> Prior(log, now, it, links, r).value < |log|
  {
  }

  lemma IdeaIsInLog(log: Log, prior: Option<nat>, b: Beat, p: Params)
    requires prior.Some? ==> prior.value < |log|
    ensures Grounded(log, IdeaFrom(log, prior, b, p))
  {
  }

  method PutRekindling(store: EventStore, q: nat, n: nat)
    requires store.Valid() && n + 1 < |store.log| && q < |store.log|
    modifies store`log
    ensures store.Valid() && store.log == WithIdea(old(store.log), Rekindled(q), n, store.clock)
  {
    var behind, at := Behind(store.log, q), |store.log|;
    var promotion, thought := Promotion(q, behind, n, store.clock), Rekindling(q, behind, n, at, store.clock);
    assert Links(promotion) == [Evt(n + 1), Evt(q)] + behind;
    Put(store, promotion);
    assert Links(thought) == [Evt(n + 1), Evt(at), Evt(n + 1), Evt(q)] + behind;
    Put(store, thought);
  }

  method PutAssociation(store: EventStore, memory: nat, n: nat)
    requires store.Valid() && n + 1 < |store.log| && memory < |store.log|
    modifies store`log
    ensures store.Valid() && store.log == WithIdea(old(store.log), Associated(memory), n, store.clock)
  {
    var thought := Association(memory, n, store.clock);
    assert Links(thought) == [Evt(n + 1), Evt(n + 1), Evt(memory)];
    Put(store, thought);
  }

  /** Writes an idea down. */
  method PutIdea(store: EventStore, idea: Idea, n: nat)
    requires store.Valid() && n + 1 < |store.log|
    requires Grounded(store.log, idea)
    modifies store`log
    ensures store.Valid() && store.log == WithIdea(old(store.log), idea, n, store.clock)
  {
    match idea {
      case NoIdea =>
      case Rekindled(q) => PutRekindling(store, q, n);
      case Associated(memory) => PutAssociation(store, memory, n);
    }
  }

  /** A whole look, once the world has answered. */
  method LookAndThink(store: EventStore, m: EntryMode, it: Item, b: Beat, p: Params, r: Reads) returns (idea: Idea)
    requires store.Valid()
    modifies store`log
    ensures store.Valid() && idea == IdeaOf(Looked(old(store.log), m, it, b, store.clock, p), it, b, store.clock, p, r)
    ensures store.log == WithIdea(Looked(old(store.log), m, it, b, store.clock, p), idea, |old(store.log)|, store.clock)
  {
    var n := |store.log|;
    LookClosely(store, m, it, b, p);
    idea := Think(store.log, it, b, store.clock, p, r);
    PutIdea(store, idea, n);
  }

  /** The idea a look leads to. */
  ghost predicate Led(log: Log, m: EntryMode, it: Item, b: Beat, now: real, p: Params, r: Reads, idea: Idea) {
    idea == if b.fetched then IdeaOf(Looked(log, m, it, b, now, p), it, b, now, p, r) else NoIdea
  }

  method Look(store: EventStore, m: EntryMode, it: Item, b: Beat, p: Params, r: Reads) returns (idea: Idea)
    requires store.Valid()
    modifies store`log
    ensures store.Valid() && Led(old(store.log), m, it, b, store.clock, p, r, idea)
    ensures store.log == After(old(store.log), m, it, b, store.clock, p, idea)
  {
    if !b.fetched {
      idea := NoIdea;
      LookInVain(store, m, it);
    } else {
      idea := LookAndThink(store, m, it, b, p, r);
    }
  }

  lemma OfferIsThere(log: Log, now: real, b: Beat, p: Params, r: Reads, m: EntryMode)
    requires m in Modes(log, now, b, p, r)
    ensures Offer(log, now, m, b.world, p, r) != []
  {
  }

  method Select(log: Log, now: real, b: Beat, p: Params, r: Reads) returns (v: Verdict)
    requires 0.0 <= b.draw < 1.0
    ensures v.Looks? || (v.NothingThere? && Modes(log, now, b, p, r) == [])
    ensures v.Looks? ==> Chooses(log, now, b, p, r, v.mode, v.item)
  {
    var avail := Modes(log, now, b, p, r);
    if avail == [] {
      return NothingThere;
    }
    var k := PickMode(avail, b.draw);
    OfferIsThere(log, now, b, p, r, avail[k]);
    var offer := Offer(log, now, avail[k], b.world, p, r);
    v := Looks(avail[k], offer[b.choice % |offer|]);
  }

  /** The guards in front of the soft decider. */
  method Guard(log: Log, now: real, b: Beat, p: Params, r: Reads) returns (v: Option<Verdict>, seen: nat)
    requires 0.0 <= b.draw < 1.0 && p.silenceFullS != 0.0
    ensures v.None? ==> OnTheTable(log, now, b, p, r) && seen == Today(log, AnyOpening, now, r.rows)
    ensures v.Some? ==> (v.value.Sleeping? || v.value.Spent? || v.value.Resting?) && Proper(log, now, b, p, r, v.value)
  {
    seen := 0;
    if b.asleep {
      return Some(Sleeping), seen;
    }
    seen := CountToday(log, AnyOpening, now, r.rows);
    if seen >= p.maxLight {
      return Some(Spent), seen;
    }
    var last := Last(log, IsOpening);
    if last.Some? && now - log[last.value].at < p.cooldownS {
      return Some(Resting), seen;
    }
    return None, seen;
  }

  /** Guards, the soft decider, the choice. */
  method Decide(log: Log, now: real, b: Beat, p: Params, r: Reads) returns (v: Verdict)
    requires 0.0 <= b.draw < 1.0 && p.silenceFullS != 0.0
    ensures Proper(log, now, b, p, r, v)
  {
    var guarded, seen := Guard(log, now, b, p, r);
    if guarded.Some? {
      return guarded.value;
    }
    if b.roll >= Propensity(b.quiet, b.silence, b.focused, seen, p) {
      return Declined;
    }
    v := Select(log, now, b, p, r);
  }

  /** A window that stays closed. */
  method StayClosed(store: EventStore, v: Verdict, ghost b: Beat, ghost p: Params)
    requires store.Valid() && !v.Looks?
    modifies store`log
    ensures store.Valid() && store.log == AfterBeat(old(store.log), v, b, store.clock, p, NoIdea)
  {
    if v.Declined? || v.NothingThere? {
      Put(store, Skip(store.clock));
    }
  }

  /** Carries a verdict out. */
  method Act(store: EventStore, v: Verdict, b: Beat, p: Params, r: Reads) returns (idea: Idea)
    requires store.Valid()
    modifies store`log
    ensures store.Valid() && store.log == AfterBeat(old(store.log), v, b, store.clock, p, idea)
    ensures if v.Looks? then Led(old(store.log), v.mode, v.item, b, store.clock, p, r, idea) else idea.NoIdea?
  {
    if v.Looks? {
      idea := Look(store, v.mode, v.item, b, p, r);
    } else {
      idea := NoIdea;
      StayClosed(store, v, b, p);
    }
  }

  /** One beat of the window: the hard guards write nothing, a declined look leaves its trace, an opening leaves
      its chain of provenance. */
  method MaybeOpen(store: EventStore, b: Beat, p: Params, r: Reads) returns (v: Verdict, idea: Idea)
    requires store.Valid() && 0.0 <= b.draw < 1.0 && p.silenceFullS != 0.0
    modifies store`log
    ensures store.Valid() && Proper(old(store.log), store.clock, b, p, r, v)
    ensures store.log == AfterBeat(old(store.log), v, b, store.clock, p, idea)
    ensures if v.Looks? then Led(old(store.log), v.mode, v.item, b, store.clock, p, r, idea) else idea.NoIdea?
  {
    v := Decide(store.log, store.clock, b, p, r);
    idea := Act(store, v, b, p, r);
  }
}
