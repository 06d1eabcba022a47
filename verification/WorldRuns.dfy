/** Lives of the world window (world.py): the rest between two looks and the daily caps in every run, and what
    the limits come to once the bounded reads are full. */
module WorldRuns {
  import opened EventLog
  import opened WorldWindow
  import opened Impressions
  import opened WorldLife

  /** Any two openings are at least the cooldown apart. */
  ghost predicate Rested(log: Log, cooldownS: real) {
    forall i, j | 0 <= i < j < |log| && IsOpening(log[i]) && IsOpening(log[j]) :: log[j].at - log[i].at >= cooldownS
  }

  function CapOf(c: Kind, p: Params): nat {
    match c
    case AnyOpening => p.maxLight
    case AlienOpening => p.maxAlien
    case AccidentOpening => p.maxAccident
    case WorldThought => p.maxDeep
  }

  /** None of the day's rows lies past the read. */
  ghost predicate DayIsRead(log: Log, c: Kind, day: int, read: nat) {
    var rows := Positions(log, RowsFor(c));
    forall i | read <= i < |rows| :: !Counts(c, day, log[rows[i]])
  }

  ghost predicate WithinCap(log: Log, c: Kind, day: int, p: Params, read: nat) {
    DayIsRead(log, c, day, read) ==> Total(log, CountsOn(c, day)) <= CapOf(c, p)
  }

  /** Day by day: no cap is exceeded on a day whose rows lie inside the read. */
  ghost predicate Capped(log: Log, p: Params, read: nat) {
    forall c, day :: WithinCap(log, c, day, p, read)
  }

  /** `e` names event `j`, of its own instant, as its first cause. */
  ghost predicate Cites(log: Log, e: Event, j: nat) {
    j < |log| && e.causedBy != [] && e.causedBy[0] == Evt(j) && log[j].at == e.at
  }

  predicate IsWorldThought(e: Event) {
    e.body.ThoughtCreated? && e.body.origin.World?
  }

  /** The second cause of a thought is the promotion of an impression it relates to. */
  ghost predicate Rekindles(log: Log, e: Event, i: nat) {
    i < |log| && |e.causedBy| == 2 && e.causedBy[1] == Evt(i) && IsPromotion(log[i])
      && log[i].body.impression in e.relatedTo
  }

  ghost predicate Backed(log: Log, e: Event) {
    && (IsObservation(e) ==> exists j: nat :: Cites(log, e, j) && IsOpening(log[j]))
    && (IsWorldThought(e) ==>
          && (exists j: nat :: Cites(log, e, j) && IsObservation(log[j]))
          && (|e.causedBy| == 1 || exists i: nat :: Rekindles(log, e, i)))
  }

  ghost predicate BackedAt(log: Log, k: nat) {
    k < |log| && Backed(log, log[k])
  }

  /** Every observation stems from an opening, and every world thought from an observation. */
  ghost predicate Observed(log: Log) {
    forall k: nat {:trigger BackedAt(log, k)} | k < |log| :: BackedAt(log, k)
  }

  /** The opening at `k` was made while the day, as read, was below the cap. */
  ghost predicate Allowed(log: Log, k: nat, cap: nat, read: nat) {
    k < |log| && IsOpening(log[k]) ==> Today(log[..k], AnyOpening, log[k].at, read) < cap
  }

  ghost predicate AllAllowed(log: Log, cap: nat, read: nat) {
    forall k: nat {:trigger Allowed(log, k, cap, read)} | k < |log| :: Allowed(log, k, cap, read)
  }

  ghost predicate Sound(log: Log, p: Params, r: Reads) {
    && Rested(log, p.cooldownS) && AllAllowed(log, p.maxLight, r.rows) && Capped(log, p, r.rows) && Observed(log)
    && AllWellChosen(log, r.impressions, r.promotions)
  }

  // --------------------------------------------------------------- one event

  lemma DayWasRead(log: Log, e: Event, c: Kind, day: int, read: nat)
    requires DayIsRead(log + [e], c, day, read)
    ensures DayIsRead(log, c, day, read)
    ensures Counts(c, day, e) ==> |Positions(log, RowsFor(c))| < read
  {
    var rows := Positions(log, RowsFor(c));
    PositionsAppend(log, e, RowsFor(c));
    assert Counts(c, day, e) ==> Positions(log + [e], RowsFor(c))[|rows|] == |log|;
    forall i | read <= i < |rows| ensures !Counts(c, day, log[rows[i]]) {
      assert Positions(log + [e], RowsFor(c))[i] == rows[i] && (log + [e])[rows[i]] == log[rows[i]];
    }
  }

  lemma WithinCapAppend(log: Log, e: Event, c: Kind, day: int, p: Params, read: nat)
    requires WithinCap(log, c, day, p, read)
    requires Counts(c, day, e) ==> Today(log, c, e.at, read) < CapOf(c, p)
    ensures WithinCap(log + [e], c, day, p, read)
  {
    if DayIsRead(log + [e], c, day, read) {
      DayWasRead(log, e, c, day, read);
      TotalAppend(log, e, CountsOn(c, day));
      if Counts(c, day, e) {
        TallyIsTotal(log, RowsFor(c), CountsOn(c, day));
      }
    }
  }

  lemma CappedAppend(log: Log, e: Event, p: Params, read: nat)
    requires Capped(log, p, read)
    requires forall c | Counts(c, DayOf(e.at), e) :: Today(log, c, e.at, read) < CapOf(c, p)
    ensures Capped(log + [e], p, read)
  {
    forall c, day ensures WithinCap(log + [e], c, day, p, read) {
      assert WithinCap(log, c, day, p, read);
      WithinCapAppend(log, e, c, day, p, read);
    }
  }

  lemma CitesStill(log: Log, e: Event, j: nat, next: Event)
    requires Cites(log, e, j)
    ensures Cites(log + [next], e, j) && (log + [next])[j] == log[j]
  {
  }

  lemma BackedStill(log: Log, e: Event, next: Event)
    requires Backed(log, e)
    ensures Backed(log + [next], e)
  {
    if IsObservation(e) {
      var j: nat :| Cites(log, e, j) && IsOpening(log[j]);
      CitesStill(log, e, j, next);
    }
    if IsWorldThought(e) {
      var j: nat :| Cites(log, e, j) && IsObservation(log[j]);
      CitesStill(log, e, j, next);
      if |e.causedBy| != 1 {
        var i: nat :| Rekindles(log, e, i);
        assert Rekindles(log + [next], e, i);
      }
    }
  }

  lemma ObservedAppend(log: Log, e: Event)
    requires Observed(log) && Backed(log, e)
    ensures Observed(log + [e])
  {
    forall k: nat | k < |log + [e]| ensures BackedAt(log + [e], k) {
      if k < |log| {
        assert BackedAt(log, k);
      }
      BackedStill(log, (log + [e])[k], e);
    }
  }

  /** Events that are neither openings, observations, promotions nor world thoughts change nothing here. */
  predicate Foreign(e: Event) {
    !IsOpening(e) && !IsObservation(e) && !IsPromotion(e) && !IsWorldThought(e)
  }

  lemma AllowedAppend(log: Log, e: Event, cap: nat, read: nat)
    requires AllAllowed(log, cap, read) && (IsOpening(e) ==> Today(log, AnyOpening, e.at, read) < cap)
    ensures AllAllowed(log + [e], cap, read)
  {
    forall k: nat | k < |log + [e]| ensures Allowed(log + [e], k, cap, read) {
      if k < |log| {
        assert Allowed(log, k, cap, read) && (log + [e])[..k] == log[..k];
      } else {
        assert (log + [e])[..k] == log;
      }
    }
  }

  lemma RestedByOthers(log: Log, e: Event, cooldownS: real)
    requires Rested(log, cooldownS) && !IsOpening(e)
    ensures Rested(log + [e], cooldownS)
  {
  }

  lemma UnpromotedKeepsChosen(log: Log, e: Event, r: Reads)
    requires AllWellChosen(log, r.impressions, r.promotions) && !IsPromotion(e)
    ensures AllWellChosen(log + [e], r.impressions, r.promotions)
  {
    WellChosenAppend(log, e, r.impressions, r.promotions);
  }

  /** Anything the window writes after an opening: observations and thoughts must be backed, thoughts within the
      cap, promotions well chosen. */
  lemma LaterKeepsSound(log: Log, e: Event, p: Params, r: Reads)
    requires Sound(log, p, r) && !IsOpening(e) && Backed(log, e)
    requires IsWorldThought(e) ==> Today(log, WorldThought, e.at, r.rows) < p.maxDeep
    requires AllWellChosen(log + [e], r.impressions, r.promotions)
    ensures Sound(log + [e], p, r)
  {
    RestedByOthers(log, e, p.cooldownS);
    AllowedAppend(log, e, p.maxLight, r.rows);
    CappedAppend(log, e, p, r.rows);
    ObservedAppend(log, e);
  }

  lemma ForeignKeepsSound(log: Log, e: Event, p: Params, r: Reads)
    requires Sound(log, p, r) && Foreign(e)
    ensures Sound(log + [e], p, r)
  {
    UnpromotedKeepsChosen(log, e, r);
    LaterKeepsSound(log, e, p, r);
  }

  lemma MaterialKeepsSound(log: Log, e: Event, p: Params, r: Reads)
    requires Sound(log, p, r) && IsObservation(e) && Backed(log, e)
    ensures Sound(log + [e], p, r)
  {
    UnpromotedKeepsChosen(log, e, r);
    LaterKeepsSound(log, e, p, r);
  }

  lemma ThoughtKeepsSound(log: Log, e: Event, p: Params, r: Reads)
    requires Sound(log, p, r) && IsThought(e) && Backed(log, e) && Today(log, WorldThought, e.at, r.rows) < p.maxDeep
    ensures Sound(log + [e], p, r)
  {
    UnpromotedKeepsChosen(log, e, r);
    LaterKeepsSound(log, e, p, r);
  }

  lemma PromotionKeepsSound(log: Log, e: Event, q: nat, p: Params, r: Reads)
    requires Sound(log, p, r) && e.body == ImpressionPromoted(Evt(q))
    requires q in Oldest(log, IsImpression, r.impressions) && Evt(q) !in RecentlyPromoted(log, r)
    ensures Sound(log + [e], p, r)
  {
    WellChosenAppend(log, e, r.impressions, r.promotions);
    LaterKeepsSound(log, e, p, r);
  }

  lemma RestedAppend(log: Log, e: Event, p: Params)
    requires Rested(log, p.cooldownS) && TimeOrdered(log) && !Cooling(log, e.at, p)
    ensures Rested(log + [e], p.cooldownS)
  {
    forall i | 0 <= i < |log| && IsOpening(log[i]) ensures e.at - log[i].at >= p.cooldownS {
      var last := Last(log, IsOpening);
      assert i <= last.value && log[i].at <= log[last.value].at;
    }
  }

  lemma OpeningIsWithinCaps(log: Log, now: real, b: Beat, m: EntryMode, it: Item, p: Params, r: Reads)
    requires OnTheTable(log, now, b, p, r) && UnderModeCap(log, now, m, p, r)
    ensures forall c | Counts(c, DayOf(now), Opening(m, it, now)) :: Today(log, c, now, r.rows) < CapOf(c, p)
  {
  }

  lemma OpeningIsBacked(log: Log, m: EntryMode, it: Item, now: real)
    ensures Backed(log, Opening(m, it, now))
  {
  }

  lemma OpeningKeepsSound(log: Log, now: real, b: Beat, m: EntryMode, it: Item, p: Params, r: Reads)
    requires Sound(log, p, r) && TimeOrdered(log)
    requires OnTheTable(log, now, b, p, r) && UnderModeCap(log, now, m, p, r)
    ensures Sound(log + [Opening(m, it, now)], p, r)
  {
    var e := Opening(m, it, now);
    UnpromotedKeepsChosen(log, e, r);
    RestedAppend(log, e, p);
    AllowedAppend(log, e, p.maxLight, r.rows);
    OpeningIsWithinCaps(log, now, b, m, it, p, r);
    CappedAppend(log, e, p, r.rows);
    OpeningIsBacked(log, m, it, now);
    ObservedAppend(log, e);
  }

  // ---------------------------------------------------------------- one beat

  lemma ChosenIsUnderCap(log: Log, now: real, b: Beat, p: Params, r: Reads, m: EntryMode, it: Item)
    requires 0.0 <= b.draw < 1.0 && Chooses(log, now, b, p, r, m, it)
    ensures UnderModeCap(log, now, m, p, r)
  {
    var avail := Modes(log, now, b, p, r);
    var k :| 0 <= k < |avail| && avail[k] == m && Holds(avail, k, Point(avail, b.draw));
    assert m in avail;
  }

  lemma LookedKeepsSound(log: Log, m: EntryMode, it: Item, b: Beat, now: real, p: Params, r: Reads)
    requires Sound(log + [Opening(m, it, now)], p, r)
    ensures Sound(Looked(log, m, it, b, now, p), p, r)
  {
    var n, first := |log|, log + [Opening(m, it, now)];
    assert Cites(first, Material(it, n, now), n);
    MaterialKeepsSound(first, Material(it, n, now), p, r);
    ForeignKeepsSound(first + [Material(it, n, now)], Browsing(n, now), p, r);
    if b.impressionRoll < p.impressionProb {
      ForeignKeepsSound(Browsed(log, m, it, now), Impression(it, n, now), p, r);
    }
  }

  /** Position `n + 1` of the log holds the observation of this instant. */
  ghost predicate ObservedNow(log: Log, n: nat, now: real) {
    n + 1 < |log| && IsObservation(log[n + 1]) && log[n + 1].at == now
  }

  lemma LookedIsObserved(log: Log, m: EntryMode, it: Item, b: Beat, now: real, p: Params)
    ensures ObservedNow(Looked(log, m, it, b, now, p), |log|, now)
  {
  }

  /** A promotion is no thought: it leaves the day's count alone. */
  lemma {:induction false} PromotionUncounted(log: Log, e: Event, now: real, read: nat)
    requires IsPromotion(e)
    ensures Today(log + [e], WorldThought, now, read) == Today(log, WorldThought, now, read)
  {
    PositionsAppend(log, e, IsThought);
    TallyOfLonger(log, e, Oldest(log, IsThought, read), CountsOn(WorldThought, DayOf(now)));
  }

  lemma AssociationKeepsSound(seen: Log, memory: nat, n: nat, now: real, p: Params, r: Reads)
    requires Sound(seen, p, r) && ObservedNow(seen, n, now) && Today(seen, WorldThought, now, r.rows) < p.maxDeep
    ensures Sound(seen + [Association(memory, n, now)], p, r)
  {
    assert Cites(seen, Association(memory, n, now), n + 1);
    ThoughtKeepsSound(seen, Association(memory, n, now), p, r);
  }

  lemma RekindlingKeepsSound(seen: Log, q: nat, n: nat, now: real, p: Params, r: Reads)
    requires Sound(seen, p, r) && ObservedNow(seen, n, now) && Today(seen, WorldThought, now, r.rows) < p.maxDeep
    requires q in Oldest(seen, IsImpression, r.impressions) && Evt(q) !in RecentlyPromoted(seen, r)
    ensures Sound(WithIdea(seen, Rekindled(q), n, now), p, r)
  {
    var behind := Behind(seen, q);
    var promotion := Promotion(q, behind, n, now);
    var thought := Rekindling(q, behind, n, |seen|, now);
    var later := seen + [promotion];
    PromotionKeepsSound(seen, promotion, q, p, r);
    PromotionUncounted(seen, promotion, now, r.rows);
    assert Cites(later, thought, n + 1) && Rekindles(later, thought, |seen|);
    ThoughtKeepsSound(later, thought, p, r);
  }

  lemma IdeaKeepsSound(seen: Log, it: Item, b: Beat, n: nat, now: real, p: Params, r: Reads)
    requires Sound(seen, p, r) && ObservedNow(seen, n, now)
    ensures Sound(WithIdea(seen, IdeaOf(seen, it, b, now, p, r), n, now), p, r)
  {
    var idea := IdeaOf(seen, it, b, now, p, r);
    match idea {
      case NoIdea =>
      case Rekindled(q) => RekindlingKeepsSound(seen, q, n, now, p, r);
      case Associated(memory) => AssociationKeepsSound(seen, memory, n, now, p, r);
    }
  }

  lemma AfterKeepsSound(log: Log, m: EntryMode, it: Item, b: Beat, now: real, idea: Idea, p: Params, r: Reads)
    requires Sound(log + [Opening(m, it, now)], p, r) && Led(log, m, it, b, now, p, r, idea)
    ensures Sound(After(log, m, it, b, now, p, idea), p, r)
  {
    if !b.fetched {
      ForeignKeepsSound(log + [Opening(m, it, now)], Failed(|log|, now), p, r);
    } else {
      LookedKeepsSound(log, m, it, b, now, p, r);
      LookedIsObserved(log, m, it, b, now, p);
      IdeaKeepsSound(Looked(log, m, it, b, now, p), it, b, |log|, now, p, r);
    }
  }

  lemma BeatKeepsSound(log: Log, v: Verdict, b: Beat, now: real, idea: Idea, p: Params, r: Reads)
    requires Sound(log, p, r) && TimeOrdered(log)
    requires 0.0 <= b.draw < 1.0 && p.silenceFullS != 0.0 && Proper(log, now, b, p, r, v)
    requires v.Looks? ==> Led(log, v.mode, v.item, b, now, p, r, idea)
    ensures Sound(AfterBeat(log, v, b, now, p, idea), p, r)
  {
    match v {
      case Declined => ForeignKeepsSound(log, Skip(now), p, r);
      case NothingThere => ForeignKeepsSound(log, Skip(now), p, r);
      case Looks(m, it) =>
        ChosenIsUnderCap(log, now, b, p, r, m, it);
        OpeningKeepsSound(log, now, b, m, it, p, r);
        AfterKeepsSound(log, m, it, b, now, idea, p, r);
      case _ =>
    }
  }

  // ------------------------------------------------------------------- runs

  datatype Step = Consider(at: real, beat: Beat) | Write(at: real, draft: Event)

  predicate Fair(s: Step) {
    (s.Consider? ==> 0.0 <= s.beat.draw < 1.0) && (s.Write? ==> Foreign(s.draft))
  }

  method LiveStep(store: EventStore, s: Step, p: Params, r: Reads)
    requires store.Valid() && Sound(store.log, p, r) && Fair(s) && store.clock <= s.at && p.silenceFullS != 0.0
    modifies store
    ensures store.Valid() && Sound(store.log, p, r) && store.clock == s.at
  {
    store.Advance(s.at);
    ghost var log := store.log;
    match s {
      case Consider(at, b) =>
        var v, idea := MaybeOpen(store, b, p, r);
        BeatKeepsSound(log, v, b, at, idea, p, r);
      case Write(at, draft) =>
        var done := store.Append(draft);
        if done.Stored? {
          ForeignKeepsSound(log, draft.(at := at), p, r);
        }
    }
  }

  /** In every run the cooldown separates the openings, every cap holds on every day whose rows lie inside the
      read, and promotions are well chosen. */
  method Live(store: EventStore, steps: seq<Step>, p: Params, r: Reads)
    requires store.Valid() && store.log == [] && p.silenceFullS != 0.0
    requires forall i | 0 <= i < |steps| :: Fair(steps[i]) && store.clock <= steps[i].at
    requires forall i, j | 0 <= i < j < |steps| :: steps[i].at <= steps[j].at
    modifies store
    ensures store.Valid() && Sound(store.log, p, r)
  {
    for i := 0 to |steps|
      invariant store.Valid() && Sound(store.log, p, r)
      invariant forall j | i <= j < |steps| :: store.clock <= steps[j].at
    {
      LiveStep(store, steps[i], p, r);
    }
  }

  // ------------------------------------------------- past the bounded reads

  /** The earliest instant of a day at which an `n`-th opening can lie. */
  function Earliest(day: int, n: int, cooldownS: real): real {
    day as real * DAY + (n - 1) as real * cooldownS
  }

  lemma DayContains(at: real)
    ensures DayOf(at) as real * DAY <= at < (DayOf(at) + 1) as real * DAY
  {
  }

  lemma FirstOfDay(at: real, cooldownS: real)
    ensures at >= Earliest(DayOf(at), 1, cooldownS)
  {
    DayContains(at);
  }

  lemma NextOfDay(at: real, at': real, day: int, n: int, cooldownS: real)
    requires at >= Earliest(day, n, cooldownS) && at' - at >= cooldownS
    ensures at' >= Earliest(day, n + 1, cooldownS)
  {
    assert (n + 1 - 1) as real * cooldownS == (n - 1) as real * cooldownS + cooldownS;
  }

  ghost predicate LiesLate(log: Log, k: nat, day: int, n: int, cooldownS: real) {
    k < |log| && IsOpening(log[k]) && DayOf(log[k].at) == day && log[k].at >= Earliest(day, n, cooldownS)
  }

  lemma LaterStill(log: Log, e: Event, k: nat, day: int, n: int, cooldownS: real)
    requires Rested(log + [e], cooldownS) && LiesLate(log, k, day, n, cooldownS) && IsOpening(e) && DayOf(e.at) == day
    ensures LiesLate(log + [e], |log|, day, n + 1, cooldownS)
  {
    assert (log + [e])[k] == log[k] && (log + [e])[|log|] == e;
    NextOfDay(log[k].at, e.at, day, n, cooldownS);
  }

  /** Of a day with openings, one lies late enough for all the rests before it. */
  lemma {:induction false} OneLiesLate(log: Log, cooldownS: real, day: int) returns (k: nat)
    requires Rested(log, cooldownS) && Total(log, CountsOn(AnyOpening, day)) > 0
    ensures LiesLate(log, k, day, Total(log, CountsOn(AnyOpening, day)), cooldownS)
  {
    var f, front, e := CountsOn(AnyOpening, day), log[..|log| - 1], log[|log| - 1];
    assert log == front + [e];
    TotalAppend(front, e, f);
    if Total(front, f) == 0 {
      k := |front|;
      FirstOfDay(e.at, cooldownS);
    } else {
      k := OneLiesLate(front, cooldownS, day);
      if f(e) {
        LaterStill(front, e, k, day, Total(front, f), cooldownS);
        k := |front|;
      } else {
        assert log[k] == front[k];
      }
    }
  }

  /** Whatever the caps and their reads say, the cooldown alone bounds a day. */
  lemma CooldownBoundsTheDay(log: Log, cooldownS: real, day: int)
    requires Rested(log, cooldownS) && cooldownS > 0.0
    ensures (Total(log, CountsOn(AnyOpening, day)) - 1) as real * cooldownS < DAY
  {
    var n := Total(log, CountsOn(AnyOpening, day));
    if n > 0 {
      var k := OneLiesLate(log, cooldownS, day);
      FitsInDay(log[k].at, n, cooldownS);
    }
  }

  lemma FitsInDay(at: real, n: int, cooldownS: real)
    requires at >= Earliest(DayOf(at), n, cooldownS)
    ensures (n - 1) as real * cooldownS < DAY
  {
    DayContains(at);
  }

  /** At the default cooldown: never more than twelve looks a day, on any log. */
  lemma TwelveAtMost(log: Log, day: int)
    requires Rested(log, DEFAULTS.cooldownS)
    ensures Total(log, CountsOn(AnyOpening, day)) <= 12
  {
    CooldownBoundsTheDay(log, DEFAULTS.cooldownS, day);
  }

  /** Once the read is filled with the rows of other days, no cap on openings or thoughts ever bites again. */
  lemma FullReadCountsNothing(log: Log, c: Kind, now: real, read: nat)
    requires read <= |Positions(log, RowsFor(c))|
    requires forall i | 0 <= i < read :: DayOf(log[Positions(log, RowsFor(c))[i]].at) != DayOf(now)
    ensures Today(log, c, now, read) == 0
  {
    NoneCount(log, Positions(log, RowsFor(c))[..read], CountsOn(c, DayOf(now)));
  }

  lemma {:induction false} NoneCount(log: Log, rows: seq<nat>, f: Event -> bool)
    requires InLog(log, rows) && forall i | 0 <= i < |rows| :: !f(log[rows[i]])
    ensures Tally(log, rows, f) == 0
  {
    if rows != [] {
      NoneCount(log, rows[..|rows| - 1], f);
    }
  }
}
