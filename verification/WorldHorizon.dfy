/** The re-observation horizon (world.py, _select): it is given in days and compared with seconds. When it holds
    anything back at all, when the rule in days is kept, and a life that breaks it at the shipped settings. */
module WorldHorizon {
  import opened Basics
  import opened EventLog
  import opened WorldWindow
  import opened WorldLife
  import opened WorldRuns
  import opened WorldExcess

  /** The rule as its name states it. */
  predicate EligibleInDays(seen: map<string, real>, now: real, id: string, p: Params) {
    id in seen ==> now - seen[id] >= p.horizon * DAY
  }

  /** The code's test and the rule differ on one item exactly in the stretch between the two numbers of seconds. */
  lemma TestsDifferIff(seen: map<string, real>, now: real, id: string, p: Params)
    ensures Eligible(seen, now, id, p) != EligibleInDays(seen, now, id, p)
            <==> && id in seen
                 && Min(p.horizon, p.horizon * DAY) <= now - seen[id] < Max(p.horizon, p.horizon * DAY)
  {
  }

  /** A log that the store can hold at `now`, on which the window may open. */
  ghost predicate MayOpen(log: Log, now: real, b: Beat, p: Params, r: Reads) {
    && Observed(log) && TimeOrdered(log) && (log != [] ==> log[|log| - 1].at <= now)
    && OnTheTable(log, now, b, p, r)
  }

  /** An item that the horizon keeps from a window that may open. */
  ghost predicate HeldBack(log: Log, now: real, b: Beat, id: string, p: Params, r: Reads) {
    MayOpen(log, now, b, p, r) && !Eligible(SeenIn(log, r), now, id, p)
  }

  /** An item that the code lets through although fewer days than the horizon have passed. */
  ghost predicate TooSoon(log: Log, now: real, b: Beat, id: string, p: Params, r: Reads) {
    && MayOpen(log, now, b, p, r)
    && Eligible(SeenIn(log, r), now, id, p) && !EligibleInDays(SeenIn(log, r), now, id, p)
  }

  // ------------------------------------------------- every look is rested

  /** An item seen was seen at the instant of an opening, so at least the cooldown ago. */
  lemma SeenBeforeRest(log: Log, now: real, b: Beat, id: string, p: Params, r: Reads)
    requires Observed(log) && TimeOrdered(log) && OnTheTable(log, now, b, p, r) && id in SeenIn(log, r)
    ensures now - SeenIn(log, r)[id] >= p.cooldownS && p.maxLight > 0 && r.observations > 0
    ensures log != [] && SeenIn(log, r)[id] <= log[|log| - 1].at
  {
    var rows := Oldest(log, IsObservation, r.observations);
    var k := SeenSomewhere(log, rows, id);
    assert BackedAt(log, k);
    var j: nat :| Cites(log, log[k], j) && IsOpening(log[j]);
    var last := Last(log, IsOpening);
    assert j <= last.value && log[j].at <= log[last.value].at;
  }

  /** Up to the cooldown's number the horizon holds nothing back. */
  lemma HorizonBelowCooldownIsIdle(log: Log, now: real, b: Beat, id: string, p: Params, r: Reads)
    requires Observed(log) && TimeOrdered(log) && OnTheTable(log, now, b, p, r) && p.horizon <= p.cooldownS
    ensures Eligible(SeenIn(log, r), now, id, p)
  {
    if id in SeenIn(log, r) {
      SeenBeforeRest(log, now, b, id, p, r);
    }
  }

  // --------------------------------------------------------- one look before

  /** One look at the thing, at `at`. */
  function Glance(at: real): Log {
    [Opening(Following, THING, at), Material(THING, 0, at)]
  }

  lemma GlanceRows(at: real)
    ensures Positions(Glance(at), IsOpening) == [0] && Positions(Glance(at), IsObservation) == [1]
  {
    var o, e := Opening(Following, THING, at), Material(THING, 0, at);
    assert Glance(at) == [] + [o] + [e];
    PositionsAppend([], o, IsOpening);
    PositionsAppend([] + [o], e, IsOpening);
    PositionsAppend([], o, IsObservation);
    PositionsAppend([] + [o], e, IsObservation);
  }

  lemma GlanceSeen(at: real, r: Reads)
    requires r.observations > 0
    ensures SeenIn(Glance(at), r) == map[THING.id := at]
  {
    GlanceRows(at);
    assert Oldest(Glance(at), IsObservation, r.observations) == [1];
    assert SeenOf(Glance(at), []) == map[];
  }

  lemma GlanceObserved(at: real)
    ensures Observed(Glance(at))
  {
    var log := Glance(at);
    assert Cites(log, log[1], 0) && IsOpening(log[0]);
    forall k: nat | k < |log| ensures BackedAt(log, k) {
    }
  }

  lemma OnlyOpening(log: Log, at: real)
    requires Positions(log, IsOpening) == [0] && log[0].at == at
    ensures Last(log, IsOpening) == Some(0)
  {
    assert Positions(log, IsOpening)[0] == 0 && IsOpening(log[0]);
    assert Last(log, IsOpening).value in Positions(log, IsOpening);
  }

  /** On a later day, at least the cooldown after it, the window may open again. */
  lemma GlanceMayOpen(at: real, now: real, b: Beat, p: Params, r: Reads)
    requires !b.asleep && p.maxLight > 0 && DayOf(at) < DayOf(now) && at <= now && now - at >= p.cooldownS
    ensures MayOpen(Glance(at), now, b, p, r)
  {
    var log := Glance(at);
    GlanceObserved(at);
    GlanceRows(at);
    OnlyOpening(log, at);
    NoneCount(log, Oldest(log, IsOpening, r.rows), CountsOn(AnyOpening, DayOf(now)));
  }

  /** The first day boundary after a stretch of `d` seconds. */
  function Boundary(d: real): real {
    ((d / DAY).Floor + 1) as real * DAY
  }

  lemma BoundaryIsNextDay(d: real)
    requires d > 0.0
    ensures DayOf(Boundary(d) - d) < DayOf(Boundary(d))
  {
    var n := (d / DAY).Floor + 1;
    assert Boundary(d) / DAY == n as real;
    assert (Boundary(d) - d) / DAY == n as real - d / DAY < n as real;
  }

  lemma GlanceBefore(log: Log, at: real, now: real, b: Beat, p: Params, r: Reads)
    requires !b.asleep && p.maxLight > 0 && r.observations > 0 && now - at >= p.cooldownS
    requires at <= now && DayOf(at) < DayOf(now) && log == Glance(at)
    ensures MayOpen(log, now, b, p, r) && SeenIn(log, r) == map[THING.id := at]
  {
    GlanceMayOpen(at, now, b, p, r);
    GlanceSeen(at, r);
  }

  /** Any stretch of at least the cooldown can lie between a look and a beat that may look again. */
  lemma StretchIsPossible(d: real, b: Beat, p: Params, r: Reads) returns (log: Log, now: real)
    requires !b.asleep && p.maxLight > 0 && r.observations > 0 && d > 0.0 && d >= p.cooldownS
    ensures MayOpen(log, now, b, p, r) && SeenIn(log, r) == map[THING.id := now - d]
  {
    now := Boundary(d);
    log := Glance(now - d);
    BoundaryIsNextDay(d);
    GlanceBefore(log, now - d, now, b, p, r);
  }

  // ------------------------------------------------------------ both promises

  /** The horizon holds something back on some log if and only if it exceeds the cooldown, number for number. */
  lemma HorizonBitesIff(b: Beat, p: Params, r: Reads)
    requires !b.asleep
    ensures (exists log: Log, now: real, id: string :: HeldBack(log, now, b, id, p, r))
            <==> p.maxLight > 0 && r.observations > 0 && p.horizon > Max(p.cooldownS, 0.0)
  {
    if log: Log, now: real, id: string :| HeldBack(log, now, b, id, p, r) {
      SeenBeforeRest(log, now, b, id, p, r);
    }
    if p.maxLight > 0 && r.observations > 0 && p.horizon > Max(p.cooldownS, 0.0) {
      var log, now := StretchIsPossible((Max(p.cooldownS, 0.0) + p.horizon) / 2.0, b, p, r);
      assert HeldBack(log, now, b, THING.id, p, r);
    }
  }

  /** The rule in days is broken on some log if and only if the horizon, as days, exceeds the cooldown. */
  lemma DaysAreBrokenIff(b: Beat, p: Params, r: Reads)
    requires !b.asleep
    ensures (exists log: Log, now: real, id: string :: TooSoon(log, now, b, id, p, r))
            <==> p.maxLight > 0 && r.observations > 0 && p.horizon * DAY > Max(p.cooldownS, 0.0)
  {
    if log: Log, now: real, id: string :| TooSoon(log, now, b, id, p, r) {
      SeenBeforeRest(log, now, b, id, p, r);
    }
    if p.maxLight > 0 && r.observations > 0 && p.horizon * DAY > Max(p.cooldownS, 0.0) {
      var log, now := StretchIsPossible(Max(p.cooldownS, p.horizon), b, p, r);
      assert TooSoon(log, now, b, THING.id, p, r);
    }
  }

  // ------------------------------------------------------- a life that breaks it

  /** The active profile (profiles.py): 45 minutes of rest, 14 looks a day, a horizon of two days. */
  const ACTIVE := DEFAULTS.(cooldownS := 2700.0, maxLight := 14, horizon := 2.0)

  /** A beat that looks at the thing in focus; the world answers, and nothing more comes of it. */
  function Glancing(): Beat {
    Outage().(fetched := true, impressionRoll := 1.0, promotionRoll := 1.0, associationRoll := 1.0)
  }

  function AfterGlance(): Log {
    Glance(0.0) + [Browsing(0, 0.0)]
  }

  ghost predicate LooksAt(log: Log, now: real, r: Reads) {
    Proper(log, now, Glancing(), ACTIVE, r, Looks(Following, THING))
  }

  lemma ThingIsOpen(log: Log, now: real, r: Reads)
    requires Eligible(SeenIn(log, r), now, THING.id, ACTIVE)
    ensures var offer := Offer(log, now, Following, Glancing().world, ACTIVE, r); offer != [] && offer[0] == THING
  {
    var w := Glancing().world;
    assert w.focus == {"t"} && "t" in Known(log, w, r);
    assert THING in w.items && Offered(THING, now, Following, w, ACTIVE, Known(log, w, r), SeenIn(log, r));
    var offer := Offer(log, now, Following, w, ACTIVE, r);
    assert THING in offer && offer[0] in offer;
  }

  lemma ChoosesAgain(log: Log, now: real, r: Reads)
    requires Today(log, AnyOpening, now, r.rows) <= 1 && Eligible(SeenIn(log, r), now, THING.id, ACTIVE)
    ensures Chooses(log, now, Glancing(), ACTIVE, r, Following, THING)
  {
    ThingIsOpen(log, now, r);
    FirstIsOpen(log, now, ORDER, Glancing().world, ACTIVE, r);
    PointZero(Modes(log, now, Glancing(), ACTIVE, r));
  }

  lemma WantsAgain(log: Log, now: real, r: Reads)
    requires OnTheTable(log, now, Glancing(), ACTIVE, r) && Today(log, AnyOpening, now, r.rows) <= 1
    ensures Glancing().roll < Urge(log, now, Glancing(), ACTIVE, r)
  {
  }

  lemma FollowsThing(log: Log, now: real, r: Reads)
    requires OnTheTable(log, now, Glancing(), ACTIVE, r) && Today(log, AnyOpening, now, r.rows) <= 1
    requires Eligible(SeenIn(log, r), now, THING.id, ACTIVE)
    ensures LooksAt(log, now, r)
  {
    ChoosesAgain(log, now, r);
    WantsAgain(log, now, r);
  }

  lemma AfterGlanceRows()
    ensures Positions(AfterGlance(), IsOpening) == [0] && Positions(AfterGlance(), IsObservation) == [1]
  {
    GlanceRows(0.0);
    PositionsAppend(Glance(0.0), Browsing(0, 0.0), IsOpening);
    PositionsAppend(Glance(0.0), Browsing(0, 0.0), IsObservation);
  }

  lemma FirstGlance(r: Reads)
    ensures LooksAt([], 0.0, r)
  {
    assert Positions([], IsOpening) == [] && Positions([], IsObservation) == [];
    FollowsThing([], 0.0, r);
  }

  lemma NothingCame(log: Log, now: real, r: Reads)
    ensures IdeaOf(log, THING, Glancing(), now, ACTIVE, r) == NoIdea
  {
  }

  lemma GlanceIsWritten(r: Reads)
    ensures Led([], Following, THING, Glancing(), 0.0, ACTIVE, r, NoIdea)
    ensures AfterGlance() == AfterBeat([], Looks(Following, THING), Glancing(), 0.0, ACTIVE, NoIdea)
  {
    NothingCame(Looked([], Following, THING, Glancing(), 0.0, ACTIVE), 0.0, r);
    GlanceLog();
  }

  lemma GlanceLog()
    ensures AfterGlance() == Looked([], Following, THING, Glancing(), 0.0, ACTIVE)
  {
  }

  lemma OneRowAtMost(log: Log, now: real, r: Reads)
    requires Positions(log, IsOpening) == [0]
    ensures Today(log, AnyOpening, now, r.rows) <= 1
  {
    var rows, f := Oldest(log, IsOpening, r.rows), CountsOn(AnyOpening, DayOf(now));
    assert Tally(log, [], f) == 0;
    assert rows == [] || rows[..|rows| - 1] == [];
  }

  lemma SecondGlance(log: Log, r: Reads)
    requires log == AfterGlance() && r.observations > 0
    ensures LooksAt(log, 2700.0, r) && !EligibleInDays(SeenIn(log, r), 2700.0, THING.id, ACTIVE)
  {
    AfterGlanceRows();
    SeenAtZero(log, r);
    OnlyOpening(log, 0.0);
    OneRowAtMost(log, 2700.0, r);
    FollowsThing(log, 2700.0, r);
  }

  lemma SeenAtZero(log: Log, r: Reads)
    requires log == AfterGlance() && r.observations > 0 && Positions(log, IsObservation) == [1]
    ensures SeenIn(log, r) == map[THING.id := 0.0]
  {
    assert Oldest(log, IsObservation, r.observations) == [1];
    assert SeenOf(log, []) == map[];
  }

  /** At the active profile: a beat at time 0 looks at the thing, and the beat 45 minutes later looks at it again,
      although the horizon promises two days. */
  lemma LookedAtAgain(r: Reads)
    requires r.observations > 0
    ensures LooksAt([], 0.0, r) && Led([], Following, THING, Glancing(), 0.0, ACTIVE, r, NoIdea)
    ensures AfterGlance() == AfterBeat([], Looks(Following, THING), Glancing(), 0.0, ACTIVE, NoIdea)
    ensures LooksAt(AfterGlance(), 2700.0, r) && !EligibleInDays(SeenIn(AfterGlance(), r), 2700.0, THING.id, ACTIVE)
  {
    FirstGlance(r);
    GlanceIsWritten(r);
    SecondGlance(AfterGlance(), r);
  }
}
