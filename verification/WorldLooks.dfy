/** One beat of the world window, said over the events of the log (world.py): what the window counts, when it looks, in
    which modes, and what a look leaves behind, event by event. */
module WorldLooks {
  import opened Basics
  import opened EventLog
  import opened WorldWindow
  import opened WorldLife
  import opened Impressions

  // ---------------------------------------------------------- what is counted

  /** Two instants of one day. */
  ghost predicate SameDay(a: real, b: real) {
    exists d: int :: OnDay(a, d) && OnDay(b, d)
  }

  predicate OnDay(t: real, d: int) {
    d as real * 86400.0 <= t < (d + 1) as real * 86400.0
  }

  lemma DayOfIs(t: real, d: int)
    ensures DayOf(t) == d <==> OnDay(t, d)
  {
    assert (t / 86400.0) * 86400.0 == t;
  }

  lemma SameDayIs(a: real, b: real)
    ensures SameDay(a, b) <==> DayOf(a) == DayOf(b)
  {
    DayOfIs(a, DayOf(a));
    DayOfIs(b, DayOf(a));
    forall d: int | OnDay(a, d) && OnDay(b, d) ensures DayOf(a) == DayOf(b) {
      DayOfIs(a, d);
      DayOfIs(b, d);
    }
  }

  /** The rows among those read that satisfy `f`. */
  function Among(log: Log, rows: seq<nat>, f: Event -> bool): (s: set<nat>) {
    set k | k in rows && k < |log| && f(log[k])
  }

  lemma AmongSnoc(log: Log, rows: seq<nat>, k: nat, f: Event -> bool)
    requires k < |log| && k !in rows
    ensures |Among(log, rows + [k], f)| == |Among(log, rows, f)| + if f(log[k]) then 1 else 0
  {
    var more := Among(log, rows + [k], f);
    if f(log[k]) {
      assert more == Among(log, rows, f) + {k};
    } else {
      assert more == Among(log, rows, f);
    }
  }

  lemma {:induction false} TallyIsSize(log: Log, rows: seq<nat>, f: Event -> bool)
    requires InLog(log, rows) && forall i, j | 0 <= i < j < |rows| :: rows[i] < rows[j]
    ensures Tally(log, rows, f) == |Among(log, rows, f)|
  {
    if rows != [] {
      var front, k := rows[..|rows| - 1], rows[|rows| - 1];
      assert rows == front + [k];
      TallyIsSize(log, front, f);
      AmongSnoc(log, front, k, f);
    }
  }

  ghost predicate OpenedToday(log: Log, k: nat, now: real) {
    k < |log| && log[k].body.WindowOpened? && SameDay(log[k].at, now)
  }

  /** The openings of the day among the rows read; those in one mode; and the thoughts the world gave rise to. */
  ghost function OpeningsToday(log: Log, now: real, read: nat): set<nat> {
    set k | k in Oldest(log, IsOpening, read) && OpenedToday(log, k, now)
  }

  ghost function InMode(log: Log, now: real, read: nat, m: EntryMode): set<nat> {
    set k | k in Oldest(log, IsOpening, read) && OpenedToday(log, k, now) && log[k].body.mode == m
  }

  ghost function ThoughtsToday(log: Log, now: real, read: nat): set<nat> {
    set k | k in Oldest(log, IsThought, read) && k < |log| && SameDay(log[k].at, now)
            && log[k].body == ThoughtCreated(Origin.World)
  }

  lemma TodayIsSize(log: Log, c: Kind, now: real, read: nat)
    ensures Today(log, c, now, read) == |Among(log, Oldest(log, RowsFor(c), read), CountsOn(c, DayOf(now)))|
  {
    TallyIsSize(log, Oldest(log, RowsFor(c), read), CountsOn(c, DayOf(now)));
  }

  lemma SameDays(log: Log, now: real)
    ensures forall k | 0 <= k < |log| :: SameDay(log[k].at, now) <==> DayOf(log[k].at) == DayOf(now)
  {
    forall k | 0 <= k < |log| ensures SameDay(log[k].at, now) <==> DayOf(log[k].at) == DayOf(now) {
      SameDayIs(log[k].at, now);
    }
  }

  /** The four counts. */
  lemma OpeningsAreCounted(log: Log, now: real, read: nat)
    ensures Today(log, AnyOpening, now, read) == |OpeningsToday(log, now, read)|
  {
    SameDays(log, now);
    TodayIsSize(log, AnyOpening, now, read);
    assert Among(log, Oldest(log, IsOpening, read), CountsOn(AnyOpening, DayOf(now))) == OpeningsToday(log, now, read);
  }

  lemma AliensAreCounted(log: Log, now: real, read: nat)
    ensures Today(log, AlienOpening, now, read) == |InMode(log, now, read, Alien)|
  {
    SameDays(log, now);
    TodayIsSize(log, AlienOpening, now, read);
    assert Among(log, Oldest(log, IsOpening, read), CountsOn(AlienOpening, DayOf(now)))
           == InMode(log, now, read, Alien);
  }

  lemma AccidentsAreCounted(log: Log, now: real, read: nat)
    ensures Today(log, AccidentOpening, now, read) == |InMode(log, now, read, ByAccident)|
  {
    SameDays(log, now);
    TodayIsSize(log, AccidentOpening, now, read);
    assert Among(log, Oldest(log, IsOpening, read), CountsOn(AccidentOpening, DayOf(now)))
        == InMode(log, now, read, ByAccident);
  }

  lemma ThoughtsAreCounted(log: Log, now: real, read: nat)
    ensures Today(log, WorldThought, now, read) == |ThoughtsToday(log, now, read)|
  {
    SameDays(log, now);
    TodayIsSize(log, WorldThought, now, read);
    assert Among(log, Oldest(log, IsThought, read), CountsOn(WorldThought, DayOf(now)))
           == ThoughtsToday(log, now, read);
  }

  // ------------------------------------------------------ when it may look

  /** The newest opening is younger than the cooldown. */
  predicate JustLooked(log: Log, now: real, cooldownS: real, k: nat) {
    && k < |log| && log[k].body.WindowOpened? && now - log[k].at < cooldownS
    && forall j | k < j < |log| :: !log[j].body.WindowOpened?
  }

  lemma CoolingIs(log: Log, now: real, p: Params)
    ensures Cooling(log, now, p) <==> exists k: nat :: JustLooked(log, now, p.cooldownS, k)
  {
    var last := Last(log, IsOpening);
    if last.Some? {
      var newest := last.value;
      forall j | newest < j < |log| ensures !log[j].body.WindowOpened? {
        assert IsOpening(log[j]) ==> j <= newest;
      }
      forall k: nat | JustLooked(log, now, p.cooldownS, k) ensures k == newest {
        assert IsOpening(log[k]);
      }
      if now - log[newest].at < p.cooldownS { assert JustLooked(log, now, p.cooldownS, newest); }
    } else {
      forall k: nat ensures !JustLooked(log, now, p.cooldownS, k) {
        assert k < |log| ==> !IsOpening(log[k]);
      }
    }
  }

  /** The mind is up, has looks of the day left, and did not just look. */
  ghost predicate MayLook(log: Log, now: real, b: Beat, p: Params, r: Reads) {
    && !b.asleep && |OpeningsToday(log, now, r.rows)| < p.maxLight
    && !exists k: nat :: JustLooked(log, now, p.cooldownS, k)
  }

  lemma OnTheTableIs(log: Log, now: real, b: Beat, p: Params, r: Reads)
    ensures OnTheTable(log, now, b, p, r) <==> MayLook(log, now, b, p, r)
  {
    OpeningsAreCounted(log, now, r.rows);
    CoolingIs(log, now, p);
  }

  /** The mode is switched on, its cap for the day is not reached, and it has something to reach for. */
  ghost predicate MayReach(log: Log, now: real, m: EntryMode, w: World, p: Params, r: Reads) {
    && m in p.modes && Offer(log, now, m, w, p, r) != []
    && match m
       case Alien => |InMode(log, now, r.rows, Alien)| < p.maxAlien
       case ByAccident => |InMode(log, now, r.rows, ByAccident)| < p.maxAccident
       case _ => |OpeningsToday(log, now, r.rows)| < p.maxLight
  }

  lemma AllInOrder(m: EntryMode)
    ensures m in ORDER
  {
    assert ORDER[0] == Following && ORDER[1] == AtTheEdge && ORDER[2] == Alien && ORDER[3] == ByAccident;
  }

  lemma OpenIs(log: Log, now: real, m: EntryMode, w: World, p: Params, r: Reads)
    ensures Open(log, now, m, w, p, r) <==> MayReach(log, now, m, w, p, r)
  {
    OpeningsAreCounted(log, now, r.rows);
    AliensAreCounted(log, now, r.rows);
    AccidentsAreCounted(log, now, r.rows);
  }

  lemma ModesAre(log: Log, now: real, b: Beat, p: Params, r: Reads, m: EntryMode)
    ensures m in Modes(log, now, b, p, r) <==> MayReach(log, now, m, b.world, p, r)
  {
    AllInOrder(m);
    OpenIs(log, now, m, b.world, p, r);
  }

  // ---------------------------------------------------------------- the roll

  /** The number the roll is compared with: a base, more for a quiet state and for the user's silence, less for a mind
      with active threads and for the looks of the day, kept between zero and the ceiling. */
  function Appetite(b: Beat, looks: nat, p: Params): real
    requires p.maxLight > 0 && p.silenceFullS != 0.0
  {
    var still := if b.silence.None? then 1.0 else Min(1.0, b.silence.value / p.silenceFullS);
    var urge := p.base + (if b.quiet then p.quietBonus else 0.0) + p.silenceBonus * still
                - (if b.focused then p.focusPenalty else 0.0)
                - p.exposurePenalty * Min(1.0, looks as real / p.maxLight as real);
    if urge < 0.0 || p.ceiling < 0.0 then 0.0 else if p.ceiling < urge then p.ceiling else urge
  }

  lemma PropensityIs(b: Beat, looks: nat, p: Params)
    requires p.maxLight > 0 && p.silenceFullS != 0.0
    ensures Propensity(b.quiet, b.silence, b.focused, looks, p) == Appetite(b, looks, p)
  {
  }

  /** The window answers with a look, or with a refusal that it records, exactly if it may look; it refuses for want of
      appetite exactly if the roll is not below it, and otherwise looks exactly if some mode has something to reach
      for. */
  lemma LooksExactlyWhen(log: Log, now: real, b: Beat, p: Params, r: Reads, v: Verdict)
    requires 0.0 <= b.draw < 1.0 && p.silenceFullS != 0.0 && Proper(log, now, b, p, r, v)
    ensures v.Looks? || v.Declined? || v.NothingThere? <==> MayLook(log, now, b, p, r)
    ensures MayLook(log, now, b, p, r) ==>
              && (v.Declined? <==> b.roll >= Appetite(b, |OpeningsToday(log, now, r.rows)|, p))
              && (!v.Declined? ==> (v.Looks? <==> exists m :: MayReach(log, now, m, b.world, p, r)))
    ensures v.Sleeping? <==> b.asleep
    ensures v.Spent? <==> !b.asleep && |OpeningsToday(log, now, r.rows)| >= p.maxLight
  {
    OnTheTableIs(log, now, b, p, r);
    OpeningsAreCounted(log, now, r.rows);
    if MayLook(log, now, b, p, r) {
      PropensityIs(b, |OpeningsToday(log, now, r.rows)|, p);
    }
    forall m ensures m in Modes(log, now, b, p, r) <==> MayReach(log, now, m, b.world, p, r) {
      ModesAre(log, now, b, p, r, m);
    }
    var modes := Modes(log, now, b, p, r);
    if modes != [] { assert modes[0] in modes; }
  }

  /** With all four modes open the draw is split at 0.5, 0.8 and 0.9. */
  lemma SharesAre(draw: real, k: nat)
    requires 0.0 <= draw < 1.0 && k < 4
    ensures Holds(ORDER, k, Point(ORDER, draw))
            <==> k == if draw < 0.5 then 0 else if draw < 0.8 then 1 else if draw < 0.9 then 2 else 3
  {
    var s := ORDER;
    assert s[..0] == [] && s[..1] == [Following] && s[..2] == [Following, AtTheEdge];
    assert s[..3] == [Following, AtTheEdge, Alien] && s[..4] == s;
    assert s[..1][..0] == [] && s[..2][..1] == s[..1] && s[..3][..2] == s[..2] && s[..4][..3] == s[..3];
    assert Sum(s[..1]) == 0.5 && Sum(s[..2]) == 0.8 && Sum(s[..3]) == 0.9 && Sum(s) == 1.0;
  }

  // --------------------------------------------------------- what a look leaves

  predicate Wrote(e: Event, body: Body, causes: seq<Ref>, relations: seq<Ref>, now: real) {
    e.body == body && e.causedBy == causes && e.relatedTo == relations && e.at == now
  }

  /** A look in vain is the opening and the failure it brought about. */
  lemma VainLook(log: Log, m: EntryMode, it: Item, b: Beat, now: real, p: Params, idea: Idea)
    requires !b.fetched
    ensures var log', n := After(log, m, it, b, now, p, idea), |log|;
            && log <= log' && |log'| == n + 2
            && Wrote(log'[n], WindowOpened(m, it.id), [], [], now) && log'[n].system
            && Wrote(log'[n + 1], Other("world.fetch_failed"), [Evt(n)], [], now) && log'[n + 1].system
  {
  }

  /** What every other look leaves: the opening, what was seen, brought about by it, the experience of seeing it, and
      perhaps an impression of the experience, related to what was seen. */
  ghost predicate LeavesTrace(log: Log, log': Log, m: EntryMode, it: Item, impressed: bool, now: real) {
    var n := |log|;
    && log <= log' && n + 3 <= |log'|
    && Wrote(log'[n], WindowOpened(m, it.id), [], [], now) && log'[n].system
    && Wrote(log'[n + 1], Observation(it.topic, it.id), [Evt(n)], [], now) && !log'[n + 1].system
    && Wrote(log'[n + 2], Other("world.experience"), [Evt(n + 1)], [], now) && !log'[n + 2].system
    && (impressed ==> && n + 4 <= |log'| && !log'[n + 3].system
                      && Wrote(log'[n + 3], ImpressionFormed(it.topic, it.id), [Evt(n + 2)], [Evt(n + 1)], now))
  }

  /** The observation behind impression `q`: what it is related to first, if that is in the log. */
  ghost predicate BehindIs(log: Log, q: nat, behind: seq<Ref>) {
    if q < |log| && log[q].relatedTo != [] && log[q].relatedTo[0].Evt? && log[q].relatedTo[0].pos < |log|
    then behind == [log[q].relatedTo[0]] else behind == []
  }

  /** What an idea adds at the end: the promotion of an old impression and the thought it brought about, or the thought
      of an old memory. `seen` is the observation. */
  ghost predicate LeavesIdea(log: Log, log': Log, idea: Idea, seen: nat, now: real) {
    && log <= log'
    && match idea
       case NoIdea => log' == log
       case Rekindled(q) =>
         var n := |log|;
         && |log'| == n + 2 && !log'[n].system && !log'[n + 1].system
         && exists behind :: && BehindIs(log, q, behind) && log'[n + 1].recalled == behind
              && Wrote(log'[n], ImpressionPromoted(Evt(q)), [Evt(seen)], [Evt(q)] + behind, now)
              && Wrote(log'[n + 1], ThoughtCreated(Origin.World), [Evt(seen), Evt(n)],
                       [Evt(seen), Evt(q)] + behind, now)
       case Associated(memory) =>
         var n := |log|;
         && |log'| == n + 1 && !log'[n].system && log'[n].recalled == [Evt(memory)]
         && Wrote(log'[n], ThoughtCreated(Origin.World), [Evt(seen)], [Evt(seen), Evt(memory)], now)
  }

  lemma IdeaLeaves(seen: Log, idea: Idea, n: nat, now: real)
    ensures LeavesIdea(seen, WithIdea(seen, idea, n, now), idea, n + 1, now)
  {
    if idea.Rekindled? {
      assert BehindIs(seen, idea.prior, Behind(seen, idea.prior));
    }
  }

  lemma LookLeaves(log: Log, m: EntryMode, it: Item, b: Beat, now: real, p: Params)
    ensures LeavesTrace(log, Looked(log, m, it, b, now, p), m, it, b.impressionRoll < p.impressionProb, now)
    ensures |Looked(log, m, it, b, now, p)| == |log| + if b.impressionRoll < p.impressionProb then 4 else 3
  {
  }

  /** A look the world answers leaves its trace and then what its idea adds. */
  lemma LookIsRecorded(log: Log, m: EntryMode, it: Item, b: Beat, now: real, p: Params, idea: Idea) returns (seen: Log)
    requires b.fetched
    ensures LeavesTrace(log, seen, m, it, b.impressionRoll < p.impressionProb, now)
    ensures |seen| == |log| + if b.impressionRoll < p.impressionProb then 4 else 3
    ensures LeavesIdea(seen, After(log, m, it, b, now, p, idea), idea, |log| + 1, now)
  {
    seen := Looked(log, m, it, b, now, p);
    LookLeaves(log, m, it, b, now, p);
    IdeaLeaves(seen, idea, |log|, now);
  }

  /** The impression found comes first, if the roll allows it; then the old memory, if the other roll does. */
  ghost predicate Follows(log: Log, prior: Option<nat>, may: bool, b: Beat, p: Params, idea: Idea) {
    var rekindles := prior.Some? && b.promotionRoll < p.promotionProb;
    var associates := b.associationRoll < p.associationProb && b.memory.Some? && b.memory.value < |log|;
    && (idea.Rekindled? <==> may && rekindles) && (idea.Rekindled? ==> idea.prior == prior.value)
    && (idea.Associated? <==> may && !rekindles && associates)
    && (idea.Associated? ==> idea.memory == b.memory.value)
  }

  lemma IdeaFromFollows(log: Log, prior: Option<nat>, b: Beat, p: Params)
    ensures Follows(log, prior, true, b, p, IdeaFrom(log, prior, b, p)) && Follows(log, prior, false, b, p, NoIdea)
  {
  }

  /** A thought forms only while the thoughts the world gave rise to today are fewer than the cap. */
  lemma IdeaExactlyWhen(log: Log, it: Item, b: Beat, now: real, p: Params, r: Reads)
    ensures var prior := Prior(log, now, it, b.world.links(it.id), r);
            var may := |ThoughtsToday(log, now, r.rows)| < p.maxDeep;
            Follows(log, prior, may, b, p, IdeaOf(log, it, b, now, p, r))
  {
    ThoughtsAreCounted(log, now, r.rows);
    var prior := Prior(log, now, it, b.world.links(it.id), r);
    IdeaFromFollows(log, prior, b, p);
  }
}
