/** The circadian decision (circadian.py): evidence read from the log, and the pure choice of a state
    from that evidence. */
module Circadian {
  import opened Basics
  import opened EventLog
  import MentalState

  // ------------------------------------------------------------- parameters

  datatype Window = Window(start: real, end: real)

  datatype Params = Params(
    activeUser: real, activeMeaningful: real,
    quietAfter: real, drowsyAfter: real, sleepAfter: real,
    nightWindow: Window, nightBias: real, wakeWindow: Window,
    wakeDensityFull: real, maxActiveForSleep: int,
    consolidationInterval: real,
    activeWakeInterval: real, quietWakeInterval: real, drowsyWakeInterval: real)

  const HOUR := 3600.0

  const DEFAULTS := Params(
    0.5 * HOUR, HOUR,
    2.0 * HOUR, 4.0 * HOUR, 6.0 * HOUR,
    Window(22.0, 6.0), 0.20, Window(6.0, 9.0),
    6.0, 2,
    2.0 * HOUR,
    HOUR, 3.0 * HOUR, 4.0 * HOUR)

  /** Silence reads as this when there was never any such activity. */
  const NO_ACTIVITY := 30.0 * 86400.0

  /** The density window is always the default one, whatever the machine's parameters. */
  const WAKE_DENSITY_WINDOW := 6.0 * HOUR

  datatype Evidence = Evidence(
    hour: real, sinceUser: real, sinceMeaningful: real, sinceExternal: real, sinceConsolidation: real,
    recentWakes: nat, activeThreads: nat, current: Rhythm)

  predicate AsleepState(s: Rhythm) {
    s.Asleep? || s.Consolidating?
  }

  predicate InWindow(hour: real, w: Window) {
    if w.start <= w.end then w.start <= hour < w.end else hour >= w.start || hour < w.end
  }

  // ---------------------------------------------------------------- evidence

  predicate IsExperience(e: Event) { e.body.ExperienceCreated? }
  predicate IsSleepCompleted(e: Event) { e.body.SleepCompleted? }
  predicate IsWake(e: Event) { e.body.WakeStarted? }
  predicate IsChange(e: Event) { e.body.StateChanged? }

  function Later(a: Option<real>, b: Option<real>): Option<real> {
    if a.None? then b else if b.None? then a else if a.value >= b.value then a else b
  }

  /** The latest time among the newest `rows` events that satisfy `p`. */
  function LatestOf(log: Log, p: Event -> bool, rows: nat): Option<real> {
    if log == [] || rows == 0 then None
    else
      var last := log[|log| - 1];
      if p(last) then Later(Some(last.at), LatestOf(log[..|log| - 1], p, rows - 1))
      else LatestOf(log[..|log| - 1], p, rows)
  }

  function Elapsed(latest: Option<real>, now: real): real {
    if latest.None? then NO_ACTIVITY else if now - latest.value > 0.0 then now - latest.value else 0.0
  }

  const RUNTIME := ["wake.", "sleep.", "reentry.", "telemetry.", "circadian."]

  predicate Bookkeeping(e: Event) {
    e.system || exists i | 0 <= i < |RUNTIME| :: RUNTIME[i] <= TypeName(e.body)
  }

  /** The newest of the last `rows` events that is not bookkeeping. */
  function NewestMeaningful(log: Log, rows: nat): Option<real> {
    if log == [] || rows == 0 then None
    else if !Bookkeeping(log[|log| - 1]) then Some(log[|log| - 1].at)
    else NewestMeaningful(log[..|log| - 1], rows - 1)
  }

  /** How many wakes, among the newest `rows`, precede the first one older than `from`. */
  function WakesSince(log: Log, rows: nat, from: real): nat {
    if log == [] || rows == 0 then 0
    else
      var last := log[|log| - 1];
      if !IsWake(last) then WakesSince(log[..|log| - 1], rows, from)
      else if last.at < from then 0
      else 1 + WakesSince(log[..|log| - 1], rows - 1, from)
  }

  function Assemble(log: Log, now: real, hour: real, current: Rhythm): Evidence {
    Evidence(
      hour,
      Elapsed(LatestOf(log, IsUser, 200), now),
      Elapsed(NewestMeaningful(log, 300), now),
      Elapsed(Later(LatestOf(log, IsUser, 200), LatestOf(log, IsExperience, 200)), now),
      Elapsed(LatestOf(log, IsSleepCompleted, 200), now),
      WakesSince(log, 500, now - WAKE_DENSITY_WINDOW),
      |MentalState.ActiveThreads(MentalState.Rebuilt(log))|,
      current)
  }

  // ---------------------------------------------------------------- decision

  function Clamp01(x: real): real {
    if x < 0.0 then 0.0 else Min(x, 1.0)
  }

  function Tiredness(p: Params, wakes: nat): real {
    Clamp01(wakes as real / (if p.wakeDensityFull >= 0.000000001 then p.wakeDensityFull else 0.000000001))
  }

  function Bias(p: Params, ev: Evidence): real {
    Min(0.45, (if InWindow(ev.hour, p.nightWindow) then p.nightBias else 0.0)
              + 0.10 * Tiredness(p, ev.recentWakes))
  }

  function ThreadResistance(p: Params, threads: nat): int {
    if threads - p.maxActiveForSleep > 0 then threads - p.maxActiveForSleep else 0
  }

  /** The share of each base threshold that the bias leaves. */
  function Kept(p: Params, ev: Evidence): real {
    1.0 - Bias(p, ev)
  }

  function QuietThreshold(p: Params, ev: Evidence): real {
    p.quietAfter * Kept(p, ev)
  }

  function DrowsyThreshold(p: Params, ev: Evidence): real {
    p.drowsyAfter * Kept(p, ev)
  }

  /** Each active thread past the baseline lengthens the silence that full sleep takes. */
  function Stretch(p: Params, threads: nat): real {
    1.0 + 0.25 * ThreadResistance(p, threads) as real
  }

  function SleepThreshold(p: Params, ev: Evidence): real {
    Product(p.sleepAfter, Kept(p, ev), Stretch(p, ev.activeThreads))
  }

  function Product(a: real, x: real, r: real): real {
    a * x * r
  }

  predicate WakeTrigger(p: Params, ev: Evidence) {
    || ev.sinceUser < p.activeUser
    || ev.sinceExternal < p.activeMeaningful
    || InWindow(ev.hour, p.wakeWindow)
  }

  function Decide(p: Params, ev: Evidence): Rhythm {
    if AsleepState(ev.current) then
      if WakeTrigger(p, ev) then Waking else Asleep
    else if ev.current == Waking then Active
    else if ev.sinceUser < p.activeUser then Active
    else if InWindow(ev.hour, p.wakeWindow) then Active
    else if ev.sinceUser >= SleepThreshold(p, ev) then Asleep
    else if ev.sinceMeaningful < p.activeMeaningful then Active
    else if ev.sinceUser >= DrowsyThreshold(p, ev) then Drowsy
    else if ev.sinceUser >= QuietThreshold(p, ev) then Quiet
    else Active
  }

  // ------------------------------------------------- the threshold arithmetic

  predicate OrderedBases(p: Params) {
    0.0 <= p.quietAfter <= p.drowsyAfter <= p.sleepAfter
  }

  lemma TirednessBounds(p: Params, m: nat, n: nat)
    requires m <= n
    ensures 0.0 <= Tiredness(p, m) <= Tiredness(p, n) <= 1.0
  {
    var d := if p.wakeDensityFull >= 0.000000001 then p.wakeDensityFull else 0.000000001;
    DivideMonotone(m as real, n as real, d);
    DivideMonotone(0.0, m as real, d);
  }

  lemma DivideMonotone(a: real, b: real, d: real)
    requires a <= b && d > 0.0
    ensures a / d <= b / d
  {
    assert b / d - a / d == (b - a) / d;
  }

  lemma ScaleMonotone(a: real, x: real, y: real)
    requires 0.0 <= a && x <= y
    ensures a * x <= a * y && x * a <= y * a
  {
  }

  lemma ProductMonotone(a: real, x: real, y: real, r: real, s: real)
    requires 0.0 <= a && 0.0 <= x <= y && 0.0 <= r <= s
    ensures 0.0 <= Product(a, x, r) <= Product(a, y, s)
  {
    ScaleMonotone(a, 0.0, x);
    ScaleMonotone(a, x, y);
    ScaleMonotone(a * x, 0.0, r);
    ScaleMonotone(a * x, r, s);
    ScaleMonotone(s, a * x, a * y);
  }

  lemma KeptBounds(p: Params, ev: Evidence)
    ensures 0.55 <= Kept(p, ev)
    ensures 0.0 <= p.nightBias ==> Kept(p, ev) <= 1.0
  {
    TirednessBounds(p, 0, ev.recentWakes);
  }

  lemma SleepNeedsMost(p: Params, ev: Evidence)
    requires 0.0 <= p.sleepAfter
    ensures p.sleepAfter * Kept(p, ev) <= SleepThreshold(p, ev)
  {
    KeptBounds(p, ev);
    ProductMonotone(p.sleepAfter, Kept(p, ev), Kept(p, ev), 1.0, Stretch(p, ev.activeThreads));
  }

  /** Whatever the evidence, the three thresholds keep the order of their bases. */
  lemma ThresholdsStayOrdered(p: Params, ev: Evidence)
    requires OrderedBases(p)
    ensures 0.0 <= QuietThreshold(p, ev) <= DrowsyThreshold(p, ev) <= SleepThreshold(p, ev)
  {
    KeptBounds(p, ev);
    BasesStayOrdered(p, Kept(p, ev));
    SleepNeedsMost(p, ev);
  }

  lemma BasesStayOrdered(p: Params, kept: real)
    requires OrderedBases(p) && 0.0 <= kept
    ensures 0.0 <= p.quietAfter * kept <= p.drowsyAfter * kept <= p.sleepAfter * kept
  {
    ScaleMonotone(kept, 0.0, p.quietAfter);
    ScaleMonotone(kept, p.quietAfter, p.drowsyAfter);
    ScaleMonotone(kept, p.drowsyAfter, p.sleepAfter);
  }

  predicate Awake(s: Rhythm) {
    s.Active? || s.Quiet? || s.Drowsy?
  }

  /** `later` speaks for rest at least as strongly as `ev`, signal by signal. */
  predicate MoreRestful(p: Params, ev: Evidence, later: Evidence) {
    && ev.sinceUser <= later.sinceUser && ev.sinceMeaningful <= later.sinceMeaningful
    && ev.recentWakes <= later.recentWakes
    && (InWindow(ev.hour, p.nightWindow) ==> InWindow(later.hour, p.nightWindow))
    && later.activeThreads <= ev.activeThreads
  }

  lemma QuietFalls(p: Params, ev: Evidence, later: Evidence)
    requires 0.0 <= p.quietAfter && 0.0 <= p.nightBias && MoreRestful(p, ev, later)
    ensures QuietThreshold(p, later) <= QuietThreshold(p, ev)
  {
    KeptFalls(p, ev, later);
    ScaleMonotone(p.quietAfter, Kept(p, later), Kept(p, ev));
  }

  lemma DrowsyFalls(p: Params, ev: Evidence, later: Evidence)
    requires 0.0 <= p.drowsyAfter && 0.0 <= p.nightBias && MoreRestful(p, ev, later)
    ensures DrowsyThreshold(p, later) <= DrowsyThreshold(p, ev)
  {
    KeptFalls(p, ev, later);
    ScaleMonotone(p.drowsyAfter, Kept(p, later), Kept(p, ev));
  }

  lemma SleepFalls(p: Params, ev: Evidence, later: Evidence)
    requires 0.0 <= p.sleepAfter && 0.0 <= p.nightBias && MoreRestful(p, ev, later)
    ensures SleepThreshold(p, later) <= SleepThreshold(p, ev)
  {
    KeptFalls(p, ev, later);
    KeptBounds(p, later);
    ProductMonotone(p.sleepAfter, Kept(p, later), Kept(p, ev), Stretch(p, later.activeThreads),
                    Stretch(p, ev.activeThreads));
  }

  lemma KeptFalls(p: Params, ev: Evidence, later: Evidence)
    requires 0.0 <= p.nightBias && MoreRestful(p, ev, later)
    ensures Kept(p, later) <= Kept(p, ev)
  {
    TirednessBounds(p, ev.recentWakes, later.recentWakes);
  }

  /** An awake machine outside the morning: more silence, more recent wakes, night, or fewer active
      threads, in any combination, never lead to a shallower state. */
  lemma DescentIsMonotone(p: Params, ev: Evidence, later: Evidence)
    requires OrderedBases(p) && 0.0 <= p.nightBias
    requires Awake(ev.current) && Awake(later.current)
    requires !InWindow(ev.hour, p.wakeWindow) && !InWindow(later.hour, p.wakeWindow)
    requires ev.sinceUser <= later.sinceUser && ev.sinceMeaningful <= later.sinceMeaningful
    requires ev.recentWakes <= later.recentWakes && later.activeThreads <= ev.activeThreads
    requires InWindow(ev.hour, p.nightWindow) ==> InWindow(later.hour, p.nightWindow)
    ensures Decide(p, ev).Asleep? ==> Decide(p, later).Asleep?
    ensures Decide(p, ev).Drowsy? ==> Decide(p, later).Drowsy? || Decide(p, later).Asleep?
    ensures Decide(p, ev).Quiet? ==> Decide(p, later).Quiet? || Decide(p, later).Drowsy? || Decide(p, later).Asleep?
    ensures !Decide(p, later).Waking?
  {
    QuietFalls(p, ev, later);
    DrowsyFalls(p, ev, later);
    SleepFalls(p, ev, later);
  }

  /** An awake machine outside the morning falls asleep exactly from a finite silence on, whatever
      the number of active threads. */
  lemma SilencePutsToSleep(p: Params, ev: Evidence)
    requires Awake(ev.current) && !InWindow(ev.hour, p.wakeWindow)
    ensures Decide(p, ev) == Asleep <==>
              ev.sinceUser >= p.activeUser && ev.sinceUser >= SleepThreshold(p, ev)
    ensures forall s: real :: SleepThreshold(p, ev.(sinceUser := s)) == SleepThreshold(p, ev)
  {
  }

  /** A mind that never had a user message reads a fixed silence of thirty days. */
  lemma NeverMessagedSilence(log: Log, now: real, hour: real, current: Rhythm)
    requires forall k | 0 <= k < |log| :: !IsUser(log[k])
    ensures Assemble(log, now, hour, current).sinceUser == NO_ACTIVITY
  {
    NoneLatest(log, IsUser, 200);
  }

  lemma {:induction false} NoneLatest(log: Log, p: Event -> bool, rows: nat)
    requires forall k | 0 <= k < |log| :: !p(log[k])
    ensures LatestOf(log, p, rows).None?
  {
    if log != [] && rows > 0 { NoneLatest(log[..|log| - 1], p, rows); }
  }

  /** Against thirty days of silence the default threshold of six hours may be stretched 120 times. */
  lemma StretchedThreshold(k: real, r: real)
    ensures Product(DEFAULTS.sleepAfter, k, r) <= NO_ACTIVITY <==> k * r <= 120.0
  {
    assert Product(DEFAULTS.sleepAfter, k, r) == DEFAULTS.sleepAfter * (k * r);
  }

  /** Such a mind, awake and outside the morning, sleeps if and only if what the night and its tiredness leave of
      the threshold, times the stretch its active threads put on it, is at most 120. */
  lemma NeverMessagedMind(ev: Evidence)
    requires ev.sinceUser == NO_ACTIVITY && Awake(ev.current) && !InWindow(ev.hour, DEFAULTS.wakeWindow)
    ensures Decide(DEFAULTS, ev) == Asleep <==> Kept(DEFAULTS, ev) * Stretch(DEFAULTS, ev.activeThreads) <= 120.0
  {
    StretchedThreshold(Kept(DEFAULTS, ev), Stretch(DEFAULTS, ev.activeThreads));
    SilencePutsToSleep(DEFAULTS, ev);
  }

  /** So by day and rested up to 478 threads, by night and rested up to 598. */
  lemma RestedBounds(ev: Evidence)
    requires ev.sinceUser == NO_ACTIVITY && Awake(ev.current) && !InWindow(ev.hour, DEFAULTS.wakeWindow)
    requires ev.recentWakes == 0
    ensures Decide(DEFAULTS, ev) == Asleep
            <==> ev.activeThreads <= if InWindow(ev.hour, DEFAULTS.nightWindow) then 598 else 478
  {
    NeverMessagedMind(ev);
    assert Tiredness(DEFAULTS, 0) == 0.0;
  }

  /** The same mind at another hour and with other recent wakes. */
  function At(ev: Evidence, hour: real, wakes: nat): Evidence {
    ev.(hour := hour, recentWakes := wakes)
  }

  /** No hour outside the morning and no tiredness ever puts it to sleep. */
  ghost predicate Vetoed(ev: Evidence) {
    forall hour, wakes: nat {:trigger At(ev, hour, wakes)} ::
      0.0 <= hour < 24.0 && !InWindow(hour, DEFAULTS.wakeWindow) ==> Decide(DEFAULTS, At(ev, hour, wakes)) != Asleep
  }

  lemma LeastKept(ev: Evidence)
    ensures Kept(DEFAULTS, ev) >= 0.7
    ensures InWindow(ev.hour, DEFAULTS.nightWindow) && ev.recentWakes == 6 ==> Kept(DEFAULTS, ev) == 0.7
  {
    TirednessBounds(DEFAULTS, 0, ev.recentWakes);
    assert Tiredness(DEFAULTS, 6) == 1.0;
  }

  lemma StretchAtNight(threads: nat)
    ensures 0.7 * Stretch(DEFAULTS, threads) <= 120.0 <==> threads <= 683
  {
  }

  lemma MoreThanEnough(k: real, r: real)
    requires k >= 0.7 && r >= 0.0 && 0.7 * r > 120.0
    ensures k * r > 120.0
  {
    ScaleMonotone(r, 0.7, k);
  }

  /** Where the promise that threads are never a permanent veto ends: a mind that was never messaged is kept awake
      for ever if and only if it has at least 684 active threads. With fewer it sleeps at night, tired. */
  lemma VetoIsPermanentIff(ev: Evidence)
    requires ev.sinceUser == NO_ACTIVITY && Awake(ev.current)
    ensures Vetoed(ev) <==> ev.activeThreads >= 684
  {
    StretchAtNight(ev.activeThreads);
    if ev.activeThreads >= 684 {
      forall hour, wakes: nat | 0.0 <= hour < 24.0 && !InWindow(hour, DEFAULTS.wakeWindow)
        ensures Decide(DEFAULTS, At(ev, hour, wakes)) != Asleep
      {
        NeverMessagedMind(At(ev, hour, wakes));
        LeastKept(At(ev, hour, wakes));
        MoreThanEnough(Kept(DEFAULTS, At(ev, hour, wakes)), Stretch(DEFAULTS, ev.activeThreads));
      }
    } else {
      var night := At(ev, 23.0, 6);
      NeverMessagedMind(night);
      LeastKept(night);
    }
  }

  // ------------------------------------------------- such a mind can exist

  function Name(n: nat): (s: string)
    ensures |s| == n + 1
  {
    if n == 0 then "t" else Name(n - 1) + "t"
  }

  /** `n` threads activated, nothing else. */
  function Threaded(n: nat): Log {
    if n == 0 then [] else Threaded(n - 1) + [Draft(false, ThreadActivated).(thread := Some(Name(n - 1)))]
  }

  lemma OneMoreActive(before: MentalState.Threads, e: Event, k: nat)
    requires e.body.ThreadActivated? && e.thread !in before
    ensures var after := MentalState.Applied(before, e, k);
            && after.Keys == before.Keys + {e.thread}
            && MentalState.ActiveThreads(after) == MentalState.ActiveThreads(before) + {e.thread}
  {
  }

  lemma {:induction false} ThreadedIsQuiet(n: nat)
    ensures forall k | 0 <= k < |Threaded(n)| :: !IsUser(Threaded(n)[k])
  {
    if n > 0 {
      ThreadedIsQuiet(n - 1);
    }
  }

  lemma ThreadedStep(n: nat)
    ensures var e := Draft(false, ThreadActivated).(thread := Some(Name(n)));
            MentalState.Rebuilt(Threaded(n + 1))
              == MentalState.Applied(MentalState.Rebuilt(Threaded(n)), e, |Threaded(n)|)
  {
    assert Threaded(n + 1)[..|Threaded(n)|] == Threaded(n);
  }

  lemma OneMoreThread(before: MentalState.Threads, after: MentalState.Threads, n: nat, k: nat)
    requires after == MentalState.Applied(before, Draft(false, ThreadActivated).(thread := Some(Name(n))), k)
    requires |MentalState.ActiveThreads(before)| == n && forall t | t in before :: t.Some? && |t.value| <= n
    ensures |MentalState.ActiveThreads(after)| == n + 1 && forall t | t in after :: t.Some? && |t.value| <= n + 1
  {
    var e := Draft(false, ThreadActivated).(thread := Some(Name(n)));
    assert |e.thread.value| == n + 1;
    OneMoreActive(before, e, k);
  }

  lemma {:induction false} ThreadedIsActive(n: nat)
    ensures |MentalState.ActiveThreads(MentalState.Rebuilt(Threaded(n)))| == n
    ensures forall t | t in MentalState.Rebuilt(Threaded(n)) :: t.Some? && |t.value| <= n
  {
    if n > 0 {
      ThreadedIsActive(n - 1);
      ThreadedStep(n - 1);
      OneMoreThread(MentalState.Rebuilt(Threaded(n - 1)), MentalState.Rebuilt(Threaded(n)), n - 1, |Threaded(n - 1)|);
    }
  }

  /** For any number of threads some log reads as that mind, at every time and hour. */
  lemma VetoedLog(n: nat, now: real, hour: real, current: Rhythm)
    requires n >= 684 && Awake(current) && 0.0 <= hour < 24.0 && !InWindow(hour, DEFAULTS.wakeWindow)
    ensures Decide(DEFAULTS, Assemble(Threaded(n), now, hour, current)) != Asleep
    ensures Vetoed(Assemble(Threaded(n), now, hour, current))
  {
    var ev := Assemble(Threaded(n), now, hour, current);
    ThreadedIsActive(n);
    ThreadedIsQuiet(n);
    NeverMessagedSilence(Threaded(n), now, hour, current);
    VetoIsPermanentIff(ev);
    assert At(ev, ev.hour, ev.recentWakes) == ev;
  }
}
