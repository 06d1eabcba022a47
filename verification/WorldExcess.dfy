/** A life of the world window in which a day exceeds its cap (world.py): once the read of openings is filled
    with the rows of earlier days, only the cooldown limits the day. And which caps it can therefore exceed. */
module WorldExcess {
  import opened EventLog
  import opened WorldWindow
  import opened WorldLife
  import opened WorldRuns

  /** The defaults with a cap of `k` openings a day. */
  function Allowing(k: nat): Params {
    DEFAULTS.(maxLight := k)
  }

  const THING := Item("a", "t")

  /** A beat that looks at the thing in focus; the world does not answer. */
  function Outage(): Beat {
    Beat(false, false, None, false, 0.0, 0.0, 0, false, 0.0, 0.0, 0.0, None,
         World.World([THING], {"t"}, map[], _ => []))
  }

  /** One look a day until the read is full, then looks two hours apart. */
  function When(i: nat, read: nat): real {
    if i < read then i as real * DAY else read as real * DAY + (i - read) as real * 7200.0
  }

  function Lived(n: nat, read: nat): (log: Log)
    ensures |log| == 2 * n
  {
    if n == 0 then [] else
      Lived(n - 1, read) + [Opening(Following, THING, When(n - 1, read))] + [Failed(2 * (n - 1), When(n - 1, read))]
  }

  lemma WhenGrows(n: nat, read: nat)
    ensures When(n + 1, read) - When(n, read) >= 7200.0
  {
  }

  lemma DayOfWhen(i: nat, read: nat)
    requires i < read + 12
    ensures DayOf(When(i, read)) == if i < read then i else read
  {
    if i < read {
      assert When(i, read) / DAY == i as real;
    } else {
      assert When(i, read) / DAY == read as real + (i - read) as real / 12.0;
    }
  }

  // ---------------------------------------------------------------- its rows

  /** The openings stand at the even positions; there are no observations. */
  ghost predicate HasRows(log: Log, n: nat, read: nat) {
    && |log| == 2 * n
    && |Positions(log, IsOpening)| == n && Positions(log, IsObservation) == []
    && (forall i | 0 <= i < n :: Positions(log, IsOpening)[i] == 2 * i)
    && (forall i | 0 <= i < n :: log[2 * i] == Opening(Following, THING, When(i, read)))
  }

  lemma RowsOfNext(log: Log, o: Event, f: Event)
    requires IsOpening(o) && !IsOpening(f) && !IsObservation(o) && !IsObservation(f)
    ensures Positions(log + [o] + [f], IsOpening) == Positions(log, IsOpening) + [|log|]
    ensures Positions(log + [o] + [f], IsObservation) == Positions(log, IsObservation)
  {
    PositionsAppend(log, o, IsOpening);
    PositionsAppend(log + [o], f, IsOpening);
    PositionsAppend(log, o, IsObservation);
    PositionsAppend(log + [o], f, IsObservation);
  }

  lemma RowsGrow(log: Log, n: nat, read: nat)
    requires HasRows(log, n, read)
    ensures HasRows(log + [Opening(Following, THING, When(n, read))] + [Failed(2 * n, When(n, read))], n + 1, read)
  {
    RowsOfNext(log, Opening(Following, THING, When(n, read)), Failed(2 * n, When(n, read)));
  }

  lemma {:induction false} LivedRows(n: nat, read: nat)
    ensures HasRows(Lived(n, read), n, read)
  {
    if n > 0 {
      LivedRows(n - 1, read);
      RowsGrow(Lived(n - 1, read), n - 1, read);
    }
  }

  lemma LastOpening(log: Log, n: nat, read: nat)
    requires HasRows(log, n, read) && n > 0
    ensures Last(log, IsOpening) == Some(2 * (n - 1))
  {
    var k := Last(log, IsOpening);
    assert IsOpening(log[2 * (n - 1)]);
    assert k.value in Positions(log, IsOpening);
  }

  // ---------------------------------------------------------- each step is due

  lemma NothingCountedToday(log: Log, n: nat, read: nat)
    requires HasRows(log, n, read) && n < read + 12
    ensures Today(log, AnyOpening, When(n, read), read) == 0
  {
    var rows := Oldest(log, IsOpening, read);
    DayOfWhen(n, read);
    forall i | 0 <= i < |rows| ensures !CountsOn(AnyOpening, DayOf(When(n, read)))(log[rows[i]]) {
      assert rows[i] == 2 * i;
      DayOfWhen(i, read);
    }
    NoneCount(log, rows, CountsOn(AnyOpening, DayOf(When(n, read))));
  }

  lemma NotCooling(log: Log, n: nat, k: nat, read: nat)
    requires HasRows(log, n, read)
    ensures !Cooling(log, When(n, read), Allowing(k))
  {
    if n > 0 {
      LastOpening(log, n, read);
      WhenGrows(n - 1, read);
      assert log[2 * (n - 1)] == Opening(Following, THING, When(n - 1, read));
    } else {
      assert log == [];
    }
  }

  lemma ThingIsOffered(log: Log, now: real, k: nat, r: Reads)
    requires Positions(log, IsObservation) == []
    ensures var offer := Offer(log, now, Following, Outage().world, Allowing(k), r); offer != [] && offer[0] == THING
  {
    var w := Outage().world;
    assert Oldest(log, IsObservation, r.observations) == [];
    assert SeenIn(log, r) == map[];
    assert w.focus == {"t"} && "t" in Known(log, w, r);
    assert THING in w.items && Offered(THING, now, Following, w, Allowing(k), Known(log, w, r), SeenIn(log, r));
    var offer := Offer(log, now, Following, w, Allowing(k), r);
    assert THING in offer && offer[0] in offer;
  }

  lemma {:induction false} FirstIsOpen(log: Log, now: real, ms: seq<EntryMode>, w: World, p: Params, r: Reads)
    requires ms != [] && Open(log, now, ms[0], w, p, r)
    ensures var avail := OpenAmong(log, now, ms, w, p, r); avail != [] && avail[0] == ms[0]
  {
    if |ms| > 1 {
      FirstIsOpen(log, now, ms[..|ms| - 1], w, p, r);
    }
  }

  lemma PointZero(avail: seq<EntryMode>)
    requires avail != []
    ensures Holds(avail, 0, Point(avail, 0.0))
  {
    assert avail[..0] == [] && avail[..1] != [];
  }

  lemma ChoosesThing(log: Log, now: real, k: nat, r: Reads)
    requires k > 0 && Positions(log, IsObservation) == [] && Today(log, AnyOpening, now, r.rows) == 0
    ensures Chooses(log, now, Outage(), Allowing(k), r, Following, THING)
  {
    ThingIsOffered(log, now, k, r);
    FirstIsOpen(log, now, ORDER, Outage().world, Allowing(k), r);
    var avail := Modes(log, now, Outage(), Allowing(k), r);
    PointZero(avail);
  }

  lemma WantsToLook(log: Log, now: real, k: nat, r: Reads)
    requires Today(log, AnyOpening, now, r.rows) == 0 && OnTheTable(log, now, Outage(), Allowing(k), r)
    ensures Outage().roll < Urge(log, now, Outage(), Allowing(k), r)
  {
  }

  lemma StepIsDue(log: Log, n: nat, k: nat, r: Reads)
    requires k > 0 && HasRows(log, n, r.rows) && n < r.rows + 12
    ensures Proper(log, When(n, r.rows), Outage(), Allowing(k), r, Looks(Following, THING))
  {
    var now := When(n, r.rows);
    NothingCountedToday(log, n, r.rows);
    NotCooling(log, n, k, r.rows);
    ChoosesThing(log, now, k, r);
    WantsToLook(log, now, k, r);
  }

  // ------------------------------------------------------------- its last day

  lemma {:induction false} LastDayCount(n: nat, read: nat)
    requires n <= read + 12
    ensures Total(Lived(n, read), CountsOn(AnyOpening, read)) == if n <= read then 0 else n - read
  {
    if n > 0 {
      var front, now := Lived(n - 1, read), When(n - 1, read);
      LastDayCount(n - 1, read);
      DayOfWhen(n - 1, read);
      TotalAppend(front, Opening(Following, THING, now), CountsOn(AnyOpening, read));
      TotalAppend(front + [Opening(Following, THING, now)], Failed(2 * (n - 1), now), CountsOn(AnyOpening, read));
    }
  }

  /** The window's next beat of this life, at its time, is the look that the log records. */
  ghost predicate Step(n: nat, k: nat, r: Reads) {
    var v, now := Looks(Following, THING), When(n, r.rows);
    && Proper(Lived(n, r.rows), now, Outage(), Allowing(k), r, v)
    && Lived(n + 1, r.rows) == AfterBeat(Lived(n, r.rows), v, Outage(), now, Allowing(k), NoIdea)
    && now < When(n + 1, r.rows)
  }

  lemma StepOf(n: nat, k: nat, r: Reads)
    requires k > 0 && n < r.rows + 12
    ensures Step(n, k, r)
  {
    LivedRows(n, r.rows);
    StepIsDue(Lived(n, r.rows), n, k, r);
    WhenGrows(n, r.rows);
  }

  /** At the default cooldown, whatever the row limit and the cap: a life of the window alone, beat by beat, that
      ends with a day of twelve openings, as many as the cooldown allows. */
  lemma TwelveLooksOnOneDay(k: nat, r: Reads)
    requires k > 0
    ensures forall n | 0 <= n < r.rows + 12 :: Step(n, k, r)
    ensures Total(Lived(r.rows + 12, r.rows), CountsOn(AnyOpening, r.rows)) == 12
  {
    forall n | 0 <= n < r.rows + 12 ensures Step(n, k, r) {
      StepOf(n, k, r);
    }
    LastDayCount(r.rows + 12, r.rows);
  }

  // ------------------------------------------------------- which caps are kept

  /** Ordered in time, and no event after `at`. */
  ghost predicate OrderedTo(log: Log, at: real) {
    TimeOrdered(log) && forall i | 0 <= i < |log| :: log[i].at <= at
  }

  lemma OrderedNext(log: Log, o: Event, f: Event, at: real)
    requires OrderedTo(log, o.at) && o.at == f.at <= at
    ensures OrderedTo(log + [o] + [f], at)
  {
  }

  lemma {:induction false} LivedIsOrdered(n: nat, read: nat)
    ensures OrderedTo(Lived(n, read), When(n, read))
  {
    if n > 0 {
      LivedIsOrdered(n - 1, read);
      WhenGrows(n - 1, read);
      var now := When(n - 1, read);
      OrderedNext(Lived(n - 1, read), Opening(Following, THING, now), Failed(2 * (n - 1), now), When(n, read));
    }
  }

  lemma NothingIsSound(p: Params, r: Reads)
    ensures Sound([], p, r)
  {
    forall c, day ensures WithinCap([], c, day, p, r.rows) {
      assert Total([], CountsOn(c, day)) == 0;
    }
  }

  lemma SoundNext(log: Log, next: Log, now: real, b: Beat, p: Params, r: Reads)
    requires Sound(log, p, r) && TimeOrdered(log) && p.silenceFullS != 0.0 && 0.0 <= b.draw < 1.0 && !b.fetched
    requires Proper(log, now, b, p, r, Looks(Following, THING))
    requires next == AfterBeat(log, Looks(Following, THING), b, now, p, NoIdea)
    ensures Sound(next, p, r)
  {
    BeatKeepsSound(log, Looks(Following, THING), b, now, NoIdea, p, r);
  }

  lemma LivedStaysSound(n: nat, k: nat, r: Reads)
    requires k > 0 && n < r.rows + 12 && Sound(Lived(n, r.rows), Allowing(k), r)
    ensures Sound(Lived(n + 1, r.rows), Allowing(k), r)
  {
    LivedIsOrdered(n, r.rows);
    StepOf(n, k, r);
    SoundNext(Lived(n, r.rows), Lived(n + 1, r.rows), When(n, r.rows), Outage(), Allowing(k), r);
  }

  lemma {:induction false} LivedIsSound(n: nat, k: nat, r: Reads)
    requires k > 0 && n <= r.rows + 12
    ensures Sound(Lived(n, r.rows), Allowing(k), r)
  {
    if n == 0 {
      NothingIsSound(Allowing(k), r);
    } else {
      LivedIsSound(n - 1, k, r);
      LivedStaysSound(n - 1, k, r);
    }
  }

  /** A log as every run leaves it, on which a day has more openings than its cap. */
  ghost predicate Exceeds(log: Log, day: int, k: nat, r: Reads) {
    Sound(log, Allowing(k), r) && TimeOrdered(log) && Total(log, CountsOn(AnyOpening, day)) > k
  }

  lemma {:induction false} NoneAllowed(log: Log, read: nat, day: int)
    requires AllAllowed(log, 0, read)
    ensures Total(log, CountsOn(AnyOpening, day)) == 0
  {
    if log != [] {
      var last := |log| - 1;
      assert Allowed(log, last, 0, read);
      forall i: nat | i < last ensures Allowed(log[..last], i, 0, read) {
        assert Allowed(log, i, 0, read) && log[..last][..i] == log[..i];
      }
      NoneAllowed(log[..last], read, day);
    }
  }

  lemma LivedExceeds(k: nat, r: Reads)
    requires 0 < k < 12
    ensures Exceeds(Lived(r.rows + 12, r.rows), r.rows, k, r)
  {
    LastDayCount(r.rows + 12, r.rows);
    LivedIsSound(r.rows + 12, k, r);
    LivedIsOrdered(r.rows + 12, r.rows);
  }

  lemma ExceedsOnlyIf(log: Log, day: int, k: nat, r: Reads)
    requires Exceeds(log, day, k, r)
    ensures 0 < k < 12
  {
    TwelveAtMost(log, day);
    if k == 0 {
      NoneAllowed(log, r.rows, day);
    }
  }

  /** At the default cooldown, whatever the row limit: some day exceeds a cap of `k` openings if and only if `k`
      lies between one and eleven. */
  lemma CapIsExceededIff(k: nat, r: Reads)
    ensures (exists log: Log, day: int :: Exceeds(log, day, k, r)) <==> 0 < k < 12
  {
    if log: Log, day: int :| Exceeds(log, day, k, r) {
      ExceedsOnlyIf(log, day, k, r);
    }
    if 0 < k < 12 {
      LivedExceeds(k, r);
      assert Exceeds(Lived(r.rows + 12, r.rows), r.rows, k, r);
    }
  }
}
