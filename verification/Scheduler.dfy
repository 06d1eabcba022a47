/** The live scheduler (scheduler.py) as steps: what runs between two await points is one step. The loop
    and any number of outside callers may be inside `tick`; cancellation can strike at every await. */
module Scheduler {

  /** Where a caller of `tick` is: at the yield that follows taking the flag, or inside the beat. */
  datatype Stage = Yielding | Beating

  datatype Loop = Off | Parked | Ticking(stage: Stage)

  /** Who asked for what and what became of it. No step decides anything by these counts. */
  datatype Book = Book(calls: nat, skipped: nat, raised: nat, delivered: nat, served: nat, dropped: nat)

  datatype Sys = Sys(poke: bool, stopping: bool, halting: bool, task: bool, inFlight: bool, loop: Loop,
                     others: map<nat, Stage>, beats: nat, errors: nat, book: Book)

  /** `halting` is the time from the start of `stop` to its end. */
  datatype Step =
    | Start
    | RequestWake
    | LoopWakes                       // the poke or the timeout ends the wait: clear the poke, call tick
    | LoopBegins                      // the yield is over: the beat starts
    | LoopEnds(ok: bool)              // the beat returns or raises
    | Cancel                          // the loop's task is cancelled at an await
    | OtherCalls(id: nat)
    | OtherBegins(id: nat)
    | OtherEnds(id: nat, ok: bool)    // `ok` only once the beat has started
    | StopBegins
    | StopEnds

  predicate Running(s: Sys) {
    s.task && !s.loop.Off?
  }

  predicate Enabled(s: Sys, step: Step) {
    match step
    case Start => !s.halting
    case RequestWake => true
    case LoopWakes => s.loop.Parked?
    case LoopBegins => s.loop == Ticking(Yielding)
    case LoopEnds(_) => s.loop == Ticking(Beating)
    case Cancel => !s.loop.Off?
    case OtherCalls(id) => id !in s.others
    case OtherBegins(id) => id in s.others && s.others[id].Yielding?
    case OtherEnds(id, ok) => id in s.others && (ok ==> s.others[id].Beating?)
    case StopBegins => s.task && !s.halting
    case StopEnds => s.halting && s.loop.Off?
  }

  function Initial(): Sys {
    Sys(false, false, false, false, false, Off, map[], 0, 0, Book(0, 0, 0, 0, 0, 0))
  }

  // ------------------------------------------------------------ the bookkeeping

  /** Requests that no beat has followed and no stop has dropped. */
  function Pending(b: Book): int {
    b.delivered - b.served - b.dropped
  }

  function Served(b: Book): Book {
    b.(served := if Pending(b) > 0 then b.served + Pending(b) else b.served)
  }

  function Dropped(b: Book): Book {
    b.(dropped := if Pending(b) > 0 then b.dropped + Pending(b) else b.dropped)
  }

  /** After its tick the loop parks again, unless it is being stopped. */
  function NextPark(s: Sys): Loop {
    if s.stopping then Off else Parked
  }

  // ------------------------------------------------------------------ the steps

  function Do(s: Sys, step: Step): Sys
    requires Enabled(s, step)
  {
    var b := s.book;
    match step
    case Start => if Running(s) then s else s.(stopping := false, task := true, loop := Parked)
    case RequestWake => s.(poke := true, book := b.(delivered := b.delivered + 1))
    case LoopWakes =>
      if s.inFlight
      then s.(poke := false, loop := NextPark(s), book := b.(calls := b.calls + 1, skipped := b.skipped + 1))
      else s.(poke := false, inFlight := true, loop := Ticking(Yielding), book := b.(calls := b.calls + 1))
    case LoopBegins => s.(loop := Ticking(Beating), book := Served(b))
    case LoopEnds(ok) =>
      if ok then s.(inFlight := false, loop := NextPark(s), beats := s.beats + 1)
      else s.(inFlight := false, loop := NextPark(s), errors := s.errors + 1, book := b.(raised := b.raised + 1))
    case Cancel =>
      var lost := if s.loop == Ticking(Yielding) && !s.poke then Dropped(b) else b;
      if s.loop.Ticking?
      then s.(inFlight := false, loop := Off, book := lost.(raised := lost.raised + 1))
      else s.(loop := Off)
    case OtherCalls(id) =>
      if s.inFlight then s.(book := b.(calls := b.calls + 1, skipped := b.skipped + 1))
      else s.(inFlight := true, others := s.others[id := Yielding], book := b.(calls := b.calls + 1))
    case OtherBegins(id) => s.(others := s.others[id := Beating], book := Served(b))
    case OtherEnds(id, ok) =>
      var t := s.(inFlight := false, others := s.others - {id});
      if ok then t.(beats := s.beats + 1) else t.(book := b.(raised := b.raised + 1))
    case StopBegins => s.(stopping := true, halting := true, poke := true, task := false)
    case StopEnds => s.(halting := false, poke := false, book := Dropped(b))
  }

  predicate Legal(s: Sys, steps: seq<Step>)
    decreases |steps|, 0
  {
    steps == [] || (Legal(s, steps[..|steps| - 1]) && Enabled(After(s, steps[..|steps| - 1]), steps[|steps| - 1]))
  }

  function After(s: Sys, steps: seq<Step>): Sys
    requires Legal(s, steps)
    decreases |steps|, 1
  {
    if steps == [] then s else Do(After(s, steps[..|steps| - 1]), steps[|steps| - 1])
  }

  lemma OneMore(s: Sys, steps: seq<Step>, step: Step)
    requires Legal(s, steps) && Enabled(After(s, steps), step)
    ensures Legal(s, steps + [step]) && After(s, steps + [step]) == Do(After(s, steps), step)
  {
    assert (steps + [step])[..|steps|] == steps;
  }

  /** A loop that is alive belongs to the scheduler or to the stop under way. */
  predicate Owned(s: Sys) {
    !s.loop.Off? ==> s.task || s.halting
  }

  // ---------------------------------------------------------- one tick at a time

  /** The callers inside `tick`. */
  function Inside(s: Sys): nat {
    (if s.loop.Ticking? then 1 else 0) + |s.others|
  }

  predicate OneTick(s: Sys) {
    && Owned(s)
    && (s.inFlight <==> Inside(s) == 1)
    && Inside(s) <= 1
    && s.book.calls == s.beats + s.book.skipped + s.book.raised + Inside(s)
  }

  predicate ByOthers(step: Step) {
    step.OtherCalls? || step.OtherBegins? || step.OtherEnds?
  }

  lemma OneTickByLoop(s: Sys, step: Step)
    requires Enabled(s, step) && OneTick(s) && !ByOthers(step)
    ensures OneTick(Do(s, step))
  {
  }

  lemma OneTickCalled(s: Sys, id: nat)
    requires Enabled(s, OtherCalls(id)) && OneTick(s)
    ensures OneTick(Do(s, OtherCalls(id)))
  {
    assert |s.others[id := Yielding]| == |s.others| + 1;
  }

  lemma OneTickBegun(s: Sys, id: nat)
    requires Enabled(s, OtherBegins(id)) && OneTick(s)
    ensures OneTick(Do(s, OtherBegins(id)))
  {
    assert s.others[id := Beating].Keys == s.others.Keys;
    assert |s.others[id := Beating]| == |s.others[id := Beating].Keys|;
  }

  lemma OneTickEnded(s: Sys, id: nat, ok: bool)
    requires Enabled(s, OtherEnds(id, ok)) && OneTick(s)
    ensures OneTick(Do(s, OtherEnds(id, ok)))
  {
    assert (s.others - {id}).Keys == s.others.Keys - {id};
    assert |(s.others - {id}).Keys| == |s.others.Keys| - 1;
  }

  lemma OneTickStep(s: Sys, step: Step)
    requires Enabled(s, step) && OneTick(s)
    ensures OneTick(Do(s, step))
  {
    if step.OtherCalls? {
      OneTickCalled(s, step.id);
    } else if step.OtherBegins? {
      OneTickBegun(s, step.id);
    } else if step.OtherEnds? {
      OneTickEnded(s, step.id, step.ok);
    } else {
      OneTickByLoop(s, step);
    }
  }

  /** Under every interleaving at most one tick is in flight, and every call ends as exactly one of
      completed, skipped or raised. */
  lemma {:induction false} OneTickAlways(s: Sys, steps: seq<Step>)
    requires OneTick(s) && Legal(s, steps)
    ensures OneTick(After(s, steps))
    decreases |steps|
  {
    if steps != [] {
      var front := steps[..|steps| - 1];
      OneTickAlways(s, front);
      OneTickStep(After(s, front), steps[|steps| - 1]);
    }
  }

  // ------------------------------------------------------------ what is counted

  function Times(steps: seq<Step>, f: Step -> bool): nat {
    if steps == [] then 0 else
      Times(steps[..|steps| - 1], f) + if f(steps[|steps| - 1]) then 1 else 0
  }

  predicate Completes(step: Step) {
    (step.LoopEnds? && step.ok) || (step.OtherEnds? && step.ok)
  }

  predicate Breaks(step: Step) {
    step.LoopEnds? && !step.ok
  }

  predicate Asks(step: Step) {
    step.RequestWake?
  }

  predicate Calls(step: Step) {
    step.LoopWakes? || step.OtherCalls?
  }

  lemma BeatsMove(s: Sys, step: Step)
    requires Enabled(s, step)
    ensures Do(s, step).beats == s.beats + if Completes(step) then 1 else 0
  {
  }

  lemma ErrorsMove(s: Sys, step: Step)
    requires Enabled(s, step)
    ensures Do(s, step).errors == s.errors + if Breaks(step) then 1 else 0
  {
  }

  lemma RequestsMove(s: Sys, step: Step)
    requires Enabled(s, step)
    ensures Do(s, step).book.delivered == s.book.delivered + if Asks(step) then 1 else 0
  {
  }

  lemma CallsMove(s: Sys, step: Step)
    requires Enabled(s, step)
    ensures Do(s, step).book.calls == s.book.calls + if Calls(step) then 1 else 0
  {
  }

  /** The beats are the ticks that completed, whoever called them; the errors are the loop's own ticks that raised. */
  lemma {:induction false} CountersAre(s: Sys, steps: seq<Step>)
    requires s == Initial() && Legal(s, steps)
    ensures var r := After(s, steps);
            && r.beats == Times(steps, Completes) && r.errors == Times(steps, Breaks)
            && r.book.delivered == Times(steps, Asks) && r.book.calls == Times(steps, Calls)
    decreases |steps|
  {
    if steps != [] {
      var front := steps[..|steps| - 1];
      CountersAre(s, front);
      BeatsMove(After(s, front), steps[|steps| - 1]);
      ErrorsMove(After(s, front), steps[|steps| - 1]);
      RequestsMove(After(s, front), steps[|steps| - 1]);
      CallsMove(After(s, front), steps[|steps| - 1]);
    }
  }

  // ---------------------------------------------------------- stopping and starting

  /** A stop under way gives up the loop's task, pokes it awake, and admits neither a start nor another stop. */
  lemma StopBegun(s: Sys)
    requires Enabled(s, StopBegins)
    ensures var t := Do(s, StopBegins);
            && t.stopping && t.poke && !Running(t) && !Enabled(t, StopBegins) && !Enabled(t, Start)
            && t.loop == s.loop && t.inFlight == s.inFlight && t.others == s.others && t.book == s.book
  {
  }

  /** It ends once the loop has: the poke is clear, no request is left open, and the next start parks a new loop. */
  lemma StopEnded(s: Sys)
    requires Enabled(s, StopEnds)
    ensures var t := Do(s, StopEnds);
            && !t.poke && t.loop.Off? && Pending(t.book) <= 0 && Enabled(t, Start)
            && t.inFlight == s.inFlight && t.others == s.others
            && var u := Do(t, Start); u.loop.Parked? && Running(u) && !u.stopping && !u.poke
  {
  }

  /** A cancellation ends the loop at once. Inside its tick it frees the flag and counts as a tick that raised; the open
      requests are lost with it exactly if the tick had yet to begin its beat and nobody poked again. */
  lemma Cancelled(s: Sys)
    requires Enabled(s, Cancel)
    ensures var t := Do(s, Cancel);
            && t.loop.Off? && t.poke == s.poke && t.task == s.task && t.others == s.others
            && t.inFlight == (s.inFlight && !s.loop.Ticking?)
            && t.book.raised == s.book.raised + (if s.loop.Ticking? then 1 else 0)
            && t.book.dropped == s.book.dropped
                                 + (if s.loop == Ticking(Yielding) && !s.poke && Pending(s.book) > 0
                                    then Pending(s.book) else 0)
  {
  }

  // ------------------------------------------------------------ requests are heard

  /** The loop wakes while somebody else is inside `tick`, a request is open, and the loop is not being stopped:
      its own tick is skipped, and the request with it. */
  predicate Clashes(s: Sys, step: Step) {
    step.LoopWakes? && s.inFlight && Pending(s.book) > 0 && !s.stopping
  }

  predicate NoClash(s: Sys, steps: seq<Step>)
    requires Legal(s, steps)
    decreases |steps|
  {
    steps == [] ||
    (NoClash(s, steps[..|steps| - 1]) && !Clashes(After(s, steps[..|steps| - 1]), steps[|steps| - 1]))
  }

  /** The loop is parked with the poke clear only if no request is open. */
  predicate QuietIsHeard(s: Sys) {
    s.loop.Parked? && !s.poke ==> s.book.delivered == s.book.served + s.book.dropped
  }

  /** A stop under way drops what is open when it ends; until then a parked loop keeps its poke. */
  predicate Stops(s: Sys) {
    && Owned(s) && (s.halting ==> s.stopping) && (s.stopping && !s.halting ==> s.loop.Off?)
    && (s.halting && s.loop.Parked? ==> s.poke)
  }

  lemma StopsStep(s: Sys, step: Step)
    requires Enabled(s, step) && Stops(s)
    ensures Stops(Do(s, step))
  {
  }

  /** A request still open has the poke set for it, a tick about to begin its beat, or a stop to drop it. */
  predicate Heard(s: Sys) {
    0 <= Pending(s.book) && (Pending(s.book) > 0 ==> s.poke || s.loop == Ticking(Yielding) || s.halting)
  }

  lemma HeardStep(s: Sys, step: Step)
    requires Enabled(s, step) && Stops(s) && Heard(s) && !Clashes(s, step)
    ensures Heard(Do(s, step))
  {
  }

  lemma HeardIsQuiet(s: Sys)
    requires Stops(s) && Heard(s)
    ensures QuietIsHeard(s)
  {
  }

  /** A clash breaks the promise on the spot: the loop parks again with the poke clear. */
  lemma ClashUnhears(s: Sys)
    requires Enabled(s, LoopWakes) && Clashes(s, LoopWakes)
    ensures !QuietIsHeard(Do(s, LoopWakes))
  {
  }

  lemma {:induction false} StopsAlways(s: Sys, steps: seq<Step>)
    requires Stops(s) && Legal(s, steps)
    ensures Stops(After(s, steps))
    decreases |steps|
  {
    if steps != [] {
      var front := steps[..|steps| - 1];
      StopsAlways(s, front);
      StopsStep(After(s, front), steps[|steps| - 1]);
    }
  }

  lemma {:induction false} HeardAlways(s: Sys, steps: seq<Step>)
    requires Stops(s) && Heard(s) && Legal(s, steps) && NoClash(s, steps)
    ensures Heard(After(s, steps))
    decreases |steps|
  {
    if steps != [] {
      var front := steps[..|steps| - 1];
      StopsAlways(s, front);
      HeardAlways(s, front);
      HeardStep(After(s, front), steps[|steps| - 1]);
    }
  }

  predicate LoopOnly(step: Step) {
    !step.OtherCalls? && !step.OtherBegins? && !step.OtherEnds?
  }

  predicate Alone(s: Sys) {
    s.others == map[] && Owned(s) && (s.inFlight <==> s.loop.Ticking?)
  }

  lemma AloneStep(s: Sys, step: Step)
    requires Enabled(s, step) && Alone(s) && LoopOnly(step)
    ensures Alone(Do(s, step)) && !Clashes(s, step)
  {
  }

  /** The loop never clashes with itself. */
  lemma {:induction false} LoopAloneNeverClashes(s: Sys, steps: seq<Step>)
    requires Alone(s) && Legal(s, steps) && forall i | 0 <= i < |steps| :: LoopOnly(steps[i])
    ensures Alone(After(s, steps)) && NoClash(s, steps)
    decreases |steps|
  {
    if steps != [] {
      var front := steps[..|steps| - 1];
      LoopAloneNeverClashes(s, front);
      AloneStep(After(s, front), steps[|steps| - 1]);
    }
  }

  predicate Cuts(step: Step) {
    step.Cancel? || step.StopEnds?
  }

  lemma UncutKeepsDropped(s: Sys, step: Step)
    requires Enabled(s, step) && !Cuts(step)
    ensures Do(s, step).book.dropped == s.book.dropped
  {
  }

  lemma {:induction false} OnlyCutsDrop(s: Sys, steps: seq<Step>)
    requires Legal(s, steps) && forall i | 0 <= i < |steps| :: !Cuts(steps[i])
    ensures After(s, steps).book.dropped == s.book.dropped
    decreases |steps|
  {
    if steps != [] {
      var front := steps[..|steps| - 1];
      OnlyCutsDrop(s, front);
      UncutKeepsDropped(After(s, front), steps[|steps| - 1]);
    }
  }

  /** After the first `n` steps every request delivered has been followed by the start of a beat, or was dropped
      by a stop or a cancellation, if the loop is then parked with the poke clear. */
  predicate HeardAt(s: Sys, steps: seq<Step>, n: nat) {
    n <= |steps| && Legal(s, steps[..n]) && QuietIsHeard(After(s, steps[..n]))
  }

  predicate HeardThroughout(s: Sys, steps: seq<Step>) {
    forall n | 0 <= n <= |steps| :: HeardAt(s, steps, n)
  }

  lemma ThroughoutSnoc(s: Sys, steps: seq<Step>)
    requires steps != [] && Legal(s, steps)
    ensures HeardThroughout(s, steps) <==> HeardThroughout(s, steps[..|steps| - 1]) && QuietIsHeard(After(s, steps))
  {
    var front := steps[..|steps| - 1];
    assert steps[..|steps|] == steps;
    forall n | 0 <= n <= |front| ensures HeardAt(s, steps, n) <==> HeardAt(s, front, n) {
      assert front[..n] == steps[..n];
    }
    assert HeardAt(s, steps, |steps|) <==> QuietIsHeard(After(s, steps));
  }

  lemma ClashIsLast(s: Sys, steps: seq<Step>)
    requires steps != [] && Legal(s, steps) && Clashes(After(s, steps[..|steps| - 1]), steps[|steps| - 1])
    ensures !QuietIsHeard(After(s, steps))
  {
    ClashUnhears(After(s, steps[..|steps| - 1]));
  }

  lemma {:induction false} HeardIffNoClash(s: Sys, steps: seq<Step>)
    requires Stops(s) && Heard(s) && Legal(s, steps)
    ensures HeardThroughout(s, steps) <==> NoClash(s, steps)
    decreases |steps|
  {
    if steps == [] {
      HeardIsQuiet(s);
      assert steps[..0] == steps;
    } else {
      var front := steps[..|steps| - 1];
      HeardIffNoClash(s, front);
      ThroughoutSnoc(s, steps);
      if NoClash(s, steps) {
        HeardAlways(s, steps);
        StopsAlways(s, steps);
        HeardIsQuiet(After(s, steps));
      } else if Clashes(After(s, front), steps[|steps| - 1]) {
        ClashIsLast(s, steps);
      }
    }
  }

  /** In any run from the start: at every moment parked and quiet means heard, if and only if the loop never wakes
      into another's tick while a request is open and it is not being stopped. */
  lemma ParkedAndQuietMeansHeard(steps: seq<Step>)
    requires Legal(Initial(), steps)
    ensures HeardThroughout(Initial(), steps) <==> NoClash(Initial(), steps)
  {
    HeardIffNoClash(Initial(), steps);
  }

  lemma QuietAtEnd(s: Sys, steps: seq<Step>)
    requires Stops(s) && Heard(s) && Legal(s, steps) && NoClash(s, steps)
    ensures QuietIsHeard(After(s, steps))
  {
    HeardAlways(s, steps);
    StopsAlways(s, steps);
    HeardIsQuiet(After(s, steps));
  }

  /** Parked with the poke clear, every request has been followed by the start of a beat. */
  predicate QuietIsServed(s: Sys) {
    s.loop.Parked? && !s.poke ==> s.book.delivered == s.book.served
  }

  lemma LoopAloneIsHeard(s: Sys, steps: seq<Step>)
    requires Alone(s) && Stops(s) && Heard(s) && Legal(s, steps)
    requires forall i | 0 <= i < |steps| :: LoopOnly(steps[i]) && !Cuts(steps[i])
    ensures s.book.dropped == 0 ==> QuietIsServed(After(s, steps))
  {
    LoopAloneNeverClashes(s, steps);
    OnlyCutsDrop(s, steps);
    QuietAtEnd(s, steps);
  }

  lemma BeginsCalm()
    ensures var s := Initial(); Alone(s) && Stops(s) && Heard(s) && s.book.dropped == 0
  {
  }

  /** In particular when the loop is the only ticker. */
  lemma LoopAloneHearsEveryRequest(steps: seq<Step>)
    requires Legal(Initial(), steps) && forall i | 0 <= i < |steps| :: LoopOnly(steps[i]) && !Cuts(steps[i])
    ensures QuietIsServed(After(Initial(), steps))
  {
    BeginsCalm();
    LoopAloneIsHeard(Initial(), steps);
  }

  /** With an outside ticker the promise fails: a request that arrives while its beat runs wakes the loop,
      the tick is skipped, and the poke is gone. */
  lemma OutsideTickerSwallowsARequest() returns (steps: seq<Step>)
    ensures Legal(Initial(), steps)
    ensures var s := After(Initial(), steps);
            s.loop.Parked? && !s.poke && s.book.delivered == 1 && s.book.served == s.book.dropped == 0
            && !QuietIsHeard(s)
  {
    steps := [];
    OneMore(Initial(), steps, Start);
    steps := steps + [Start];
    OneMore(Initial(), steps, OtherCalls(0));
    steps := steps + [OtherCalls(0)];
    OneMore(Initial(), steps, OtherBegins(0));
    steps := steps + [OtherBegins(0)];
    OneMore(Initial(), steps, RequestWake);
    steps := steps + [RequestWake];
    OneMore(Initial(), steps, LoopWakes);
    steps := steps + [LoopWakes];
  }

  // -------------------------------------------------------------- the object

  /** The scheduler's fields, with its task and outside callers, changed segment by segment. */
  class CircadianScheduler {
    var poke: bool
    var stopping: bool
    var inFlight: bool
    var beats: nat
    var errors: nat
    var task: bool
    var halting: bool
    var loop: Loop
    var others: map<nat, Stage>
    ghost var book: Book

    constructor ()
      ensures View() == Initial()
    {
      poke, stopping, inFlight, task, halting := false, false, false, false, false;
      beats, errors, loop, others := 0, 0, Off, map[];
      book := Book(0, 0, 0, 0, 0, 0);
    }

    ghost function View(): Sys
      reads this
    {
      Sys(poke, stopping, halting, task, inFlight, loop, others, beats, errors, book)
    }

    /** The guard of `tick`: a caller that finds the flag set is turned away. */
    method Enter() returns (entered: bool)
      modifies this`inFlight, this`book
      ensures entered == !old(inFlight) && inFlight
      ensures book == old(book).(calls := old(book).calls + 1,
                                 skipped := old(book).skipped + if entered then 0 else 1)
    {
      entered := !inFlight;
      if entered {
        inFlight := true;
      }
      book := book.(calls := book.calls + 1, skipped := book.skipped + if entered then 0 else 1);
    }

    /** The end of `tick`: the flag falls whether the beat returned, raised or was cancelled. */
    method Leave(ok: bool)
      modifies this`inFlight, this`beats, this`book
      ensures !inFlight && beats == old(beats) + (if ok then 1 else 0)
      ensures book == old(book).(raised := old(book).raised + if ok then 0 else 1)
    {
      if ok {
        beats := beats + 1;
      }
      inFlight := false;
      book := book.(raised := book.raised + if ok then 0 else 1);
    }

    /** The wait of the loop is over. */
    method WakeUp()
      requires Enabled(View(), LoopWakes)
      modifies this
      ensures View() == Do(old(View()), LoopWakes)
    {
      poke := false;
      var entered := Enter();
      loop := if entered then Ticking(Yielding) else if stopping then Off else Parked;
    }

    /** The loop's beat returned or raised. */
    method FinishTick(ok: bool)
      requires Enabled(View(), LoopEnds(ok))
      modifies this
      ensures View() == Do(old(View()), LoopEnds(ok))
    {
      Leave(ok);
      if !ok {
        errors := errors + 1;
      }
      loop := if stopping then Off else Parked;
    }

    /** The loop's task is cancelled at the await it stands at. */
    method CancelTask()
      requires Enabled(View(), Cancel)
      modifies this
      ensures View() == Do(old(View()), Cancel)
    {
      if loop == Ticking(Yielding) && !poke {
        book := Dropped(book);
      }
      if loop.Ticking? {
        Leave(false);
      }
      loop := Off;
    }

    /** One segment of the loop's task. */
    method LoopResumes(step: Step)
      requires Enabled(View(), step) && (step.LoopWakes? || step.LoopBegins? || step.LoopEnds? || step.Cancel?)
      modifies this
      ensures View() == Do(old(View()), step)
    {
      match step {
        case LoopWakes => WakeUp();
        case LoopBegins =>
          loop := Ticking(Beating);
          book := Served(book);
        case LoopEnds(ok) => FinishTick(ok);
        case Cancel => CancelTask();
      }
    }

    /** One segment of an outside caller of `tick`. */
    method OtherResumes(step: Step)
      requires Enabled(View(), step) && (step.OtherCalls? || step.OtherBegins? || step.OtherEnds?)
      modifies this
      ensures View() == Do(old(View()), step)
    {
      match step {
        case OtherCalls(id) =>
          var entered := Enter();
          if entered {
            others := others[id := Yielding];
          }
        case OtherBegins(id) =>
          others := others[id := Beating];
          book := Served(book);
        case OtherEnds(id, ok) =>
          Leave(ok);
          others := others - {id};
      }
    }

    method Resume(step: Step)
      requires Enabled(View(), step)
      modifies this
      ensures View() == Do(old(View()), step)
    {
      match step {
        case Start =>
          if !(task && !loop.Off?) {
            stopping, task, loop := false, true, Parked;
          }
        case RequestWake =>
          poke := true;
          book := book.(delivered := book.delivered + 1);
        case StopBegins =>
          stopping, halting, poke, task := true, true, true, false;
        case StopEnds =>
          halting, poke := false, false;
          book := Dropped(book);
        case OtherCalls(_) => OtherResumes(step);
        case OtherBegins(_) => OtherResumes(step);
        case OtherEnds(_, _) => OtherResumes(step);
        case _ => LoopResumes(step);
      }
    }

    /** Whatever the interleaving, the object never has two ticks in flight. */
    method Run(steps: seq<Step>)
      requires View() == Initial() && Legal(View(), steps)
      modifies this
      ensures View() == After(Initial(), steps) && OneTick(View())
    {
      for i := 0 to |steps|
        invariant Legal(Initial(), steps[..i]) && View() == After(Initial(), steps[..i])
      {
        LegalPrefix(Initial(), steps, i + 1);
        assert steps[..i + 1][..i] == steps[..i];
        Resume(steps[i]);
      }
      assert steps[..|steps|] == steps;
      OneTickAlways(Initial(), steps);
    }
  }

  lemma {:induction false} LegalPrefix(s: Sys, steps: seq<Step>, n: nat)
    requires Legal(s, steps) && n <= |steps|
    ensures Legal(s, steps[..n])
    decreases |steps|
  {
    if n < |steps| {
      var front := steps[..|steps| - 1];
      LegalPrefix(s, front, n);
      assert front[..n] == steps[..n];
    } else {
      assert steps[..n] == steps;
    }
  }
}
