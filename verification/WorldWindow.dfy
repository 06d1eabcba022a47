/** The world window (world.py, maybe_open and _open): its guards, its daily caps over a bounded read, the
    rest it takes between two looks, and what it may look at. Draws of the random generator, the sources'
    answers and the topics in focus are inputs. */
module WorldWindow {
  import opened Basics
  import opened EventLog

  const DAY := 86400.0

  datatype Params = Params(
    maxLight: nat, maxDeep: nat, maxAlien: nat, maxAccident: nat, cooldownS: real,
    base: real, quietBonus: real, silenceBonus: real, silenceFullS: real, focusPenalty: real,
    exposurePenalty: real, ceiling: real,
    impressionProb: real, promotionProb: real, associationProb: real,
    modes: set<EntryMode>, horizon: real)

  const DEFAULTS := Params(8, 3, 1, 2, 7200.0, 0.22, 0.12, 0.18, 43200.0, 0.10, 0.20, 0.70, 0.90, 0.35, 0.25,
                           {Following, AtTheEdge, Alien, ByAccident}, 1000000000000000000.0)

  /** Row limits of the reads of openings and thoughts, of observations, of impressions and of promotions. */
  datatype Reads = Reads(rows: nat, observations: nat, impressions: nat, promotions: nat)

  datatype Item = Item(id: string, topic: string)

  datatype World = World(items: seq<Item>, focus: set<string>, adjacent: map<string, set<string>>,
                         links: string -> seq<Item>)

  function DayOf(at: real): int {
    (at / DAY).Floor
  }

  // ------------------------------------------------------------ daily counts

  /** What the window counts per day. */
  datatype Kind = AnyOpening | AlienOpening | AccidentOpening | WorldThought

  predicate IsOpening(e: Event) {
    e.body.WindowOpened?
  }

  predicate IsObservation(e: Event) {
    e.body.Observation?
  }

  function RowsFor(c: Kind): Event -> bool {
    if c.WorldThought? then IsThought else IsOpening
  }

  predicate Counts(c: Kind, day: int, e: Event) {
    && DayOf(e.at) == day
    && match c
       case AnyOpening => e.body.WindowOpened?
       case AlienOpening => e.body.WindowOpened? && e.body.mode.Alien?
       case AccidentOpening => e.body.WindowOpened? && e.body.mode.ByAccident?
       case WorldThought => e.body.ThoughtCreated? && e.body.origin.World?
  }

  function CountsOn(c: Kind, day: int): Event -> bool {
    (e: Event) => Counts(c, day, e)
  }

  /** How many events of the whole log satisfy `f`. */
  function Total(log: Log, f: Event -> bool): nat {
    if log == [] then 0 else Total(log[..|log| - 1], f) + if f(log[|log| - 1]) then 1 else 0
  }

  /** How many of the rows read do. */
  function Tally(log: Log, rows: seq<nat>, f: Event -> bool): nat
    requires InLog(log, rows)
  {
    if rows == [] then 0 else Tally(log, rows[..|rows| - 1], f) + if f(log[rows[|rows| - 1]]) then 1 else 0
  }

  function Today(log: Log, c: Kind, now: real, read: nat): nat {
    Tally(log, Oldest(log, RowsFor(c), read), CountsOn(c, DayOf(now)))
  }

  lemma TallySnoc(log: Log, rows: seq<nat>, i: nat, f: Event -> bool)
    requires InLog(log, rows) && i < |rows|
    ensures Tally(log, rows[..i + 1], f) == Tally(log, rows[..i], f) + if f(log[rows[i]]) then 1 else 0
  {
    assert rows[..i + 1][..i] == rows[..i];
  }

  method CountRows(log: Log, rows: seq<nat>, f: Event -> bool) returns (n: nat)
    requires InLog(log, rows)
    ensures n == Tally(log, rows, f)
  {
    n := 0;
    for i := 0 to |rows|
      invariant n == Tally(log, rows[..i], f)
    {
      TallySnoc(log, rows, i, f);
      if f(log[rows[i]]) {
        n := n + 1;
      }
    }
    assert rows[..|rows|] == rows;
  }

  method CountToday(log: Log, c: Kind, now: real, read: nat) returns (n: nat)
    ensures n == Today(log, c, now, read)
  {
    n := CountRows(log, Oldest(log, RowsFor(c), read), CountsOn(c, DayOf(now)));
  }

  lemma TotalAppend(log: Log, e: Event, f: Event -> bool)
    ensures Total(log + [e], f) == Total(log, f) + if f(e) then 1 else 0
  {
    assert (log + [e])[..|log|] == log;
  }

  lemma {:induction false} TallyOfLonger(log: Log, e: Event, rows: seq<nat>, f: Event -> bool)
    requires InLog(log, rows)
    ensures Tally(log + [e], rows, f) == Tally(log, rows, f)
  {
    if rows != [] {
      TallyOfLonger(log, e, rows[..|rows| - 1], f);
    }
  }

  lemma TallyGrows(log: Log, e: Event, rows: seq<nat>, f: Event -> bool)
    requires InLog(log, rows)
    ensures Tally(log + [e], rows + [|log|], f) == Tally(log, rows, f) + if f(e) then 1 else 0
  {
    TallyOfLonger(log, e, rows, f);
    assert (rows + [|log|])[..|rows|] == rows;
  }

  lemma TallyAppend(log: Log, e: Event, p: Event -> bool, f: Event -> bool)
    requires f(e) ==> p(e)
    ensures Tally(log + [e], Positions(log + [e], p), f) == Tally(log, Positions(log, p), f) + if f(e) then 1 else 0
  {
    PositionsAppend(log, e, p);
    if p(e) {
      TallyGrows(log, e, Positions(log, p), f);
    } else {
      TallyOfLonger(log, e, Positions(log, p), f);
    }
  }

  /** Read whole, the rows of the type counted give the true count. */
  lemma {:induction false} TallyIsTotal(log: Log, p: Event -> bool, f: Event -> bool)
    requires forall e :: f(e) ==> p(e)
    ensures Tally(log, Positions(log, p), f) == Total(log, f)
  {
    if log != [] {
      var front, e := log[..|log| - 1], log[|log| - 1];
      assert log == front + [e];
      TallyIsTotal(front, p, f);
      TallyAppend(front, e, p, f);
    }
  }

  lemma {:induction false} TallySplits(log: Log, rows: seq<nat>, n: nat, f: Event -> bool)
    requires InLog(log, rows) && n <= |rows|
    ensures Tally(log, rows[..n], f) <= Tally(log, rows, f)
    ensures Tally(log, rows[..n], f) == Tally(log, rows, f) <==> forall i | n <= i < |rows| :: !f(log[rows[i]])
    decreases |rows|
  {
    if n == |rows| {
      assert rows[..n] == rows;
    } else {
      var init := rows[..|rows| - 1];
      assert init[..n] == rows[..n];
      TallySplits(log, init, n, f);
      assert forall i | n <= i < |init| :: init[i] == rows[i];
    }
  }

  lemma OldestIsExactIff(log: Log, p: Event -> bool, f: Event -> bool, read: nat)
    requires forall e :: f(e) ==> p(e)
    ensures Tally(log, Oldest(log, p, read), f) == Total(log, f)
            <==> forall i | read <= i < |Positions(log, p)| :: !f(log[Positions(log, p)[i]])
  {
    TallyIsTotal(log, p, f);
    if read <= |Positions(log, p)| {
      TallySplits(log, Positions(log, p), read, f);
    }
  }

  /** The read counts the oldest rows first, so today's count is exact if and only if none of today's rows lies
      past the read. */
  lemma TodayIsExactIff(log: Log, c: Kind, now: real, read: nat)
    ensures var rows := Positions(log, RowsFor(c));
            Today(log, c, now, read) == Total(log, CountsOn(c, DayOf(now)))
            <==> forall i | read <= i < |rows| :: !Counts(c, DayOf(now), log[rows[i]])
  {
    OldestIsExactIff(log, RowsFor(c), CountsOn(c, DayOf(now)), read);
  }

  // ---------------------------------------------------------------- guards

  predicate Cooling(log: Log, now: real, p: Params) {
    var last := Last(log, IsOpening);
    last.Some? && now - log[last.value].at < p.cooldownS
  }

  function Still(silence: Option<real>, p: Params): real
    requires p.silenceFullS != 0.0
  {
    p.silenceBonus * (match silence case None => 1.0 case Some(s) => Min(1.0, s / p.silenceFullS))
  }

  function Sated(looks: nat, p: Params): real
    requires p.maxLight > 0
  {
    p.exposurePenalty * Min(1.0, looks as real / p.maxLight as real)
  }

  function Clamped(still: real, sated: real, quiet: bool, focused: bool, p: Params): real {
    Max(0.0, Min(p.ceiling,
                 p.base + (if quiet then p.quietBonus else 0.0)
                   + still - (if focused then p.focusPenalty else 0.0) - sated))
  }

  /** The soft decider: one number for one roll. `silence` is the time since the last user message. */
  function Propensity(quiet: bool, silence: Option<real>, focused: bool, looks: nat, p: Params): real
    requires p.maxLight > 0 && p.silenceFullS != 0.0
  {
    Clamped(Still(silence, p), Sated(looks, p), quiet, focused, p)
  }

  lemma ShareGrows(a: real, b: real, whole: real)
    requires a <= b && whole > 0.0
    ensures Min(1.0, a / whole) <= Min(1.0, b / whole)
  {
    assert b / whole - a / whole == (b - a) / whole;
  }

  lemma Weighted(w: real, a: real, b: real)
    requires w >= 0.0 && a <= b
    ensures w * a <= w * b
  {
  }

  lemma StillGrows(s: real, s': real, p: Params)
    requires s <= s' && p.silenceFullS > 0.0 && p.silenceBonus >= 0.0
    ensures Still(Some(s), p) <= Still(Some(s'), p) <= Still(None, p)
  {
    ShareGrows(s, s', p.silenceFullS);
    Weighted(p.silenceBonus, Min(1.0, s / p.silenceFullS), Min(1.0, s' / p.silenceFullS));
    Weighted(p.silenceBonus, Min(1.0, s' / p.silenceFullS), 1.0);
  }

  lemma SatedGrows(looks: nat, looks': nat, p: Params)
    requires looks' <= looks && p.maxLight > 0 && p.exposurePenalty >= 0.0
    ensures Sated(looks', p) <= Sated(looks, p)
  {
    ShareGrows(looks' as real, looks as real, p.maxLight as real);
    Weighted(p.exposurePenalty, Min(1.0, looks' as real / p.maxLight as real),
             Min(1.0, looks as real / p.maxLight as real));
  }

  lemma ClampedMoves(a: real, a': real, b: real, b': real, quiet: bool, quiet': bool, focused: bool, focused': bool,
                     p: Params)
    requires p.ceiling >= 0.0 && p.quietBonus >= 0.0 && p.focusPenalty >= 0.0
    requires a <= a' && b' <= b && (quiet ==> quiet') && (focused' ==> focused)
    ensures 0.0 <= Clamped(a, b, quiet, focused, p) <= Clamped(a', b', quiet', focused', p) <= p.ceiling
  {
  }

  /** One roll against one number: it stays in range, and longer silence, a quiet state, an unfocused mind or
      fewer looks today, in any combination, never make an opening less likely. */
  lemma PropensityMoves(quiet: bool, quiet': bool, s: real, s': real, focused: bool, focused': bool, looks: nat,
                        looks': nat, p: Params)
    requires p.maxLight > 0 && p.silenceFullS > 0.0 && p.ceiling >= 0.0
    requires p.quietBonus >= 0.0 && p.silenceBonus >= 0.0 && p.focusPenalty >= 0.0 && p.exposurePenalty >= 0.0
    requires (quiet ==> quiet') && s <= s' && (focused' ==> focused) && looks' <= looks
    ensures 0.0 <= Propensity(quiet, Some(s), focused, looks, p) <= Propensity(quiet', Some(s'), focused', looks', p)
            <= p.ceiling
    ensures Propensity(quiet', Some(s'), focused', looks', p) <= Propensity(quiet', None, focused', looks', p)
  {
    StillGrows(s, s', p);
    SatedGrows(looks, looks', p);
    ClampedMoves(Still(Some(s), p), Still(Some(s'), p), Sated(looks, p), Sated(looks', p), quiet, quiet', focused,
                 focused', p);
    ClampedMoves(Still(Some(s'), p), Still(None, p), Sated(looks', p), Sated(looks', p), quiet', quiet', focused',
                 focused', p);
  }

  // -------------------------------------------------------------- the choice

  /** When each item was observed last, among the rows read. */
  function SeenOf(log: Log, rows: seq<nat>): map<string, real>
    requires InLog(log, rows)
  {
    if rows == [] then map[] else Noticed(SeenOf(log, rows[..|rows| - 1]), log[rows[|rows| - 1]])
  }

  function Noticed(seen: map<string, real>, e: Event): map<string, real> {
    if e.body.Observation? && e.body.item != "" && (e.body.item !in seen || e.at > seen[e.body.item])
    then seen[e.body.item := e.at] else seen
  }

  method LastObservations(log: Log, rows: seq<nat>) returns (seen: map<string, real>)
    requires InLog(log, rows)
    ensures seen == SeenOf(log, rows)
  {
    seen := map[];
    for i := 0 to |rows|
      invariant seen == SeenOf(log, rows[..i])
    {
      assert rows[..i + 1][..i] == rows[..i];
      seen := Noticed(seen, log[rows[i]]);
    }
    assert rows[..|rows|] == rows;
  }

  predicate Sees(log: Log, k: nat, id: string) {
    k < |log| && log[k].body.Observation? && log[k].body.item == id
  }

  /** An entry is the time of an observation of the item. */
  lemma {:induction false} SeenSomewhere(log: Log, rows: seq<nat>, id: string) returns (k: nat)
    requires InLog(log, rows) && id in SeenOf(log, rows)
    ensures k in rows && Sees(log, k, id) && log[k].at == SeenOf(log, rows)[id]
  {
    var init := rows[..|rows| - 1];
    k := rows[|rows| - 1];
    assert rows == init + [k];
    if id in SeenOf(log, init) && SeenOf(log, rows)[id] == SeenOf(log, init)[id] {
      k := SeenSomewhere(log, init, id);
    }
  }

  /** And none of the rows read is newer. */
  lemma {:induction false} SeenIsLatest(log: Log, rows: seq<nat>, k: nat, id: string)
    requires InLog(log, rows) && k in rows && Sees(log, k, id) && id != ""
    ensures id in SeenOf(log, rows) && log[k].at <= SeenOf(log, rows)[id]
  {
    var init := rows[..|rows| - 1];
    assert rows == init + [rows[|rows| - 1]];
    if k in init {
      SeenIsLatest(log, init, k, id);
    }
  }

  /** The horizon is given in days and compared with seconds. */
  predicate Eligible(seen: map<string, real>, now: real, id: string, p: Params) {
    id in seen ==> now - seen[id] >= p.horizon
  }

  function Known(log: Log, w: World, r: Reads): set<string> {
    var rows := Oldest(log, IsObservation, r.observations);
    (set i | 0 <= i < |rows| && log[rows[i]].body.Observation? :: log[rows[i]].body.topic) + w.focus
  }

  function Near(known: set<string>, w: World): set<string> {
    (set t, u | t in known && t in w.adjacent && u in w.adjacent[t] :: u) - known
  }

  function ModeOf(topic: string, known: set<string>, w: World): EntryMode {
    if topic in known then Following else if topic in Near(known, w) then AtTheEdge else Alien
  }

  function Filtered(items: seq<Item>, keep: Item -> bool): (out: seq<Item>)
    ensures forall it :: it in out <==> it in items && keep(it)
  {
    if items == [] then [] else
      assert items == [items[0]] + items[1..];
      if keep(items[0]) then [items[0]] + Filtered(items[1..], keep) else Filtered(items[1..], keep)
  }

  /** The links of the item looked at last. */
  function Wandering(log: Log, w: World, r: Reads): seq<Item> {
    var rows := Oldest(log, IsObservation, r.observations);
    if rows == [] || !log[rows[|rows| - 1]].body.Observation? then [] else w.links(log[rows[|rows| - 1]].body.item)
  }

  function SeenIn(log: Log, r: Reads): map<string, real> {
    SeenOf(log, Oldest(log, IsObservation, r.observations))
  }

  predicate Offered(it: Item, now: real, m: EntryMode, w: World, p: Params, known: set<string>,
                    seen: map<string, real>)
  {
    Eligible(seen, now, it.id, p) && (m.ByAccident? || ModeOf(it.topic, known, w) == m)
  }

  /** What the window may reach for in a given mode. */
  function Offer(log: Log, now: real, m: EntryMode, w: World, p: Params, r: Reads): (offer: seq<Item>)
    ensures forall it :: it in offer <==> it in (if m.ByAccident? then Wandering(log, w, r) else w.items)
                                          && Offered(it, now, m, w, p, Known(log, w, r), SeenIn(log, r))
  {
    var known, seen := Known(log, w, r), SeenIn(log, r);
    Filtered(if m.ByAccident? then Wandering(log, w, r) else w.items,
             (it: Item) => Offered(it, now, m, w, p, known, seen))
  }

  /** A topic the mind is on, or of an observation read. */
  predicate Familiar(log: Log, w: World, r: Reads, topic: string) {
    || topic in w.focus
    || exists i | 0 <= i < |Oldest(log, IsObservation, r.observations)| ::
         var k := Oldest(log, IsObservation, r.observations)[i]; log[k].body.Observation? && log[k].body.topic == topic
  }

  /** A topic that is not familiar, next to one that is. */
  ghost predicate Adjoining(log: Log, w: World, r: Reads, topic: string) {
    !Familiar(log, w, r, topic) && exists t :: Familiar(log, w, r, t) && t in w.adjacent && topic in w.adjacent[t]
  }

  lemma KnownIs(log: Log, w: World, r: Reads, topic: string)
    ensures topic in Known(log, w, r) <==> Familiar(log, w, r, topic)
  {
  }

  lemma NearIs(log: Log, w: World, r: Reads, topic: string)
    ensures topic in Near(Known(log, w, r), w) <==> Adjoining(log, w, r, topic)
  {
    forall t ensures t in Known(log, w, r) <==> Familiar(log, w, r, t) {
      KnownIs(log, w, r, t);
    }
  }

  /** The newest of the rows read. */
  predicate LastRow(rows: seq<nat>, k: nat) {
    k in rows && forall i | 0 <= i < |rows| :: rows[i] <= k
  }

  lemma RowAt(rows: seq<nat>, k: nat) returns (i: nat)
    requires k in rows
    ensures i < |rows| && rows[i] == k
  {
    i :| i < |rows| && rows[i] == k;
  }

  lemma LastRowIs(rows: seq<nat>, k: nat)
    requires forall i, j | 0 <= i < j < |rows| :: rows[i] < rows[j]
    ensures LastRow(rows, k) <==> rows != [] && k == rows[|rows| - 1]
  {
    if rows != [] {
      var last := |rows| - 1;
      assert forall i | 0 <= i < |rows| :: rows[i] <= rows[last];
      if LastRow(rows, k) {
        var i := RowAt(rows, k);
        assert rows[last] <= k && rows[i] <= rows[last];
      }
    }
  }

  lemma OffersKnown(log: Log, now: real, m: EntryMode, w: World, p: Params, r: Reads, it: Item)
    requires Eligible(SeenIn(log, r), now, it.id, p) && !m.ByAccident?
    ensures it in Offer(log, now, m, w, p, r) <==> it in w.items && ModeOf(it.topic, Known(log, w, r), w) == m
  {
  }

  lemma ModeIs(log: Log, w: World, r: Reads, topic: string)
    ensures ModeOf(topic, Known(log, w, r), w)
            == if Familiar(log, w, r, topic) then Following else if Adjoining(log, w, r, topic) then AtTheEdge
              else Alien
  {
    KnownIs(log, w, r, topic);
    NearIs(log, w, r, topic);
  }

  predicate LinkedFrom(log: Log, w: World, it: Item, k: nat) {
    k < |log| && log[k].body.Observation? && it in w.links(log[k].body.item)
  }

  lemma WanderingIs(log: Log, w: World, r: Reads, it: Item)
    ensures it in Wandering(log, w, r)
            <==> exists k :: LastRow(Oldest(log, IsObservation, r.observations), k) && LinkedFrom(log, w, it, k)
  {
    var rows := Oldest(log, IsObservation, r.observations);
    forall k ensures LastRow(rows, k) <==> rows != [] && k == rows[|rows| - 1] {
      LastRowIs(rows, k);
    }
    if rows != [] {
      assert LastRow(rows, rows[|rows| - 1]);
    }
  }

  /** An item may be looked at when no observation of it among those read is younger than the horizon. */
  lemma EligibleIs(log: Log, r: Reads, now: real, id: string, p: Params)
    requires id != ""
    ensures Eligible(SeenIn(log, r), now, id, p)
            <==> forall k | k in Oldest(log, IsObservation, r.observations) && Sees(log, k, id) ::
                   now - log[k].at >= p.horizon
  {
    var rows := Oldest(log, IsObservation, r.observations);
    if id in SeenOf(log, rows) {
      var k := SeenSomewhere(log, rows, id);
    }
    forall k | k in rows && Sees(log, k, id)
      ensures id in SeenOf(log, rows) && log[k].at <= SeenOf(log, rows)[id]
    {
      SeenIsLatest(log, rows, k, id);
    }
  }

  /** What each mode reaches for, among the items not observed too recently: familiar ground, what adjoins it, what does
      neither, or whatever the item looked at last links to. */
  lemma OfferIs(log: Log, now: real, w: World, p: Params, r: Reads, it: Item)
    requires Eligible(SeenIn(log, r), now, it.id, p)
    ensures it in Offer(log, now, Following, w, p, r) <==> it in w.items && Familiar(log, w, r, it.topic)
    ensures it in Offer(log, now, AtTheEdge, w, p, r) <==> it in w.items && Adjoining(log, w, r, it.topic)
    ensures it in Offer(log, now, Alien, w, p, r)
            <==> it in w.items && !Familiar(log, w, r, it.topic) && !Adjoining(log, w, r, it.topic)
  {
    OffersKnown(log, now, Following, w, p, r, it);
    OffersKnown(log, now, AtTheEdge, w, p, r, it);
    OffersKnown(log, now, Alien, w, p, r, it);
    ModeIs(log, w, r, it.topic);
  }

  lemma AccidentIs(log: Log, now: real, w: World, p: Params, r: Reads, it: Item)
    requires Eligible(SeenIn(log, r), now, it.id, p)
    ensures it in Offer(log, now, ByAccident, w, p, r)
            <==> exists k :: LastRow(Oldest(log, IsObservation, r.observations), k) && LinkedFrom(log, w, it, k)
  {
    WanderingIs(log, w, r, it);
  }

  /** An item observed too recently is offered in no mode. */
  lemma RecentIsNotOffered(log: Log, now: real, m: EntryMode, w: World, p: Params, r: Reads, it: Item, k: nat)
    requires k in Oldest(log, IsObservation, r.observations) && Sees(log, k, it.id) && it.id != ""
    requires now - log[k].at < p.horizon
    ensures it !in Offer(log, now, m, w, p, r)
  {
    EligibleIs(log, r, now, it.id, p);
  }

  predicate UnderModeCap(log: Log, now: real, m: EntryMode, p: Params, r: Reads) {
    match m
    case Alien => Today(log, AlienOpening, now, r.rows) < p.maxAlien
    case ByAccident => Today(log, AccidentOpening, now, r.rows) < p.maxAccident
    case _ => Today(log, AnyOpening, now, r.rows) < p.maxLight
  }

  predicate Open(log: Log, now: real, m: EntryMode, w: World, p: Params, r: Reads) {
    m in p.modes && UnderModeCap(log, now, m, p, r) && Offer(log, now, m, w, p, r) != []
  }

  const ORDER := [Following, AtTheEdge, Alien, ByAccident]

  function OpenAmong(log: Log, now: real, ms: seq<EntryMode>, w: World, p: Params, r: Reads): (out: seq<EntryMode>)
    ensures forall m :: m in out <==> m in ms && Open(log, now, m, w, p, r)
  {
    if ms == [] then [] else
      var rest, m := OpenAmong(log, now, ms[..|ms| - 1], w, p, r), ms[|ms| - 1];
      assert ms == ms[..|ms| - 1] + [m];
      if Open(log, now, m, w, p, r) then rest + [m] else rest
  }

  function Weight(m: EntryMode): real {
    match m
    case Following => 0.5
    case AtTheEdge => 0.3
    case _ => 0.1
  }

  function Sum(ms: seq<EntryMode>): (s: real)
    ensures ms != [] ==> s > 0.0
    ensures s >= 0.0
  {
    if ms == [] then 0.0 else Sum(ms[..|ms| - 1]) + Weight(ms[|ms| - 1])
  }

  lemma {:induction false} SumGrows(ms: seq<EntryMode>, i: nat, j: nat)
    requires i <= j <= |ms|
    ensures Sum(ms[..i]) <= Sum(ms[..j])
    decreases j
  {
    if i < j {
      assert ms[..j][..j - 1] == ms[..j - 1];
      SumGrows(ms, i, j - 1);
    }
  }

  /** Mode `j` holds the point `x` of the summed weights. */
  predicate Holds(ms: seq<EntryMode>, j: nat, x: real) {
    j < |ms| && Sum(ms[..j]) <= x < Sum(ms[..j + 1])
  }

  method PickAt(avail: seq<EntryMode>, x: real) returns (k: nat)
    requires avail != [] && 0.0 <= x < Sum(avail)
    ensures Holds(avail, k, x) && forall j: nat :: Holds(avail, j, x) ==> j == k
  {
    assert avail[..|avail|] == avail;
    var acc := 0.0;
    k := 0;
    while true
      invariant k < |avail| && acc == Sum(avail[..k]) <= x
      decreases |avail| - k
    {
      assert avail[..k + 1][..k] == avail[..k];
      acc := acc + Weight(avail[k]);
      if x < acc {
        HoldsOnce(avail, x, k);
        return;
      }
      k := k + 1;
    }
  }

  lemma HoldsOnce(ms: seq<EntryMode>, x: real, k: nat)
    requires Holds(ms, k, x)
    ensures forall j: nat :: Holds(ms, j, x) ==> j == k
  {
    forall j: nat | Holds(ms, j, x) ensures j == k {
      if j < k {
        SumGrows(ms, j + 1, k);
      } else if k < j {
        SumGrows(ms, k + 1, j);
      }
    }
  }

  lemma Scaled(draw: real, s: real)
    requires 0.0 <= draw < 1.0 && s > 0.0
    ensures 0.0 <= draw * s < s
  {
    assert (1.0 - draw) * s > 0.0;
  }

  function Scale(draw: real, s: real): (x: real)
    requires 0.0 <= draw < 1.0 && s > 0.0
    ensures 0.0 <= x < s
  {
    Scaled(draw, s);
    draw * s
  }

  function Point(avail: seq<EntryMode>, draw: real): (x: real)
    requires avail != [] && 0.0 <= draw < 1.0
    ensures 0.0 <= x < Sum(avail)
  {
    Scale(draw, Sum(avail))
  }

  /** The mode whose share of the weights holds the draw: each available mode is picked in proportion to its
      weight, and the fallback to the last mode is never needed on exact numbers. */
  method PickMode(avail: seq<EntryMode>, draw: real) returns (k: nat)
    requires avail != [] && 0.0 <= draw < 1.0
    ensures Holds(avail, k, Point(avail, draw))
    ensures forall j: nat {:trigger avail[j]} | j < |avail| && Holds(avail, j, Point(avail, draw)) :: j == k
  {
    k := PickAt(avail, Point(avail, draw));
  }
}
