/** What the route policy is for (route_policy.py): a mind with nothing new rests instead of re-chewing an
    old thread, and a mind that loops on one thread departs from it. Both within exact noise margins. */
module RoutePromises {
  import opened Basics
  import opened EventLog
  import opened RoutePolicy
  import opened RouteAudit

  lemma SwingBounds(d: real, e: real)
    requires 0.0 <= d < 1.0 && e > 0.0
    ensures -e <= Swing(d, e) < e
  {
    assert (1.0 - d) * e > 0.0 && d * e >= 0.0;
    assert (1.0 - d) * e == e - d * e;
    assert Swing(d, e) == 2.0 * (d * e) - e;
  }

  lemma NoiseBounds(p: Params, ds: seq<real>, r: Route)
    requires Draws(ds)
    ensures p.exploration > 0.0 ==> -p.exploration <= Noise(p, ds, r) < p.exploration
    ensures p.exploration <= 0.0 ==> Noise(p, ds, r) == 0.0
  {
    if p.exploration > 0.0 {
      SwingBounds(ds[Rank(r)], p.exploration);
    }
  }

  lemma DampingSign(hist: seq<Route>, gain: real, r: Route)
    requires gain >= 0.0
    ensures Dominant(hist) != Some(r) ==> Damping(hist, gain, r) >= 0.0
    ensures !Departs(r) ==> Damping(hist, gain, r) <= 0.0
  {
    var top := Dominant(hist);
    if top.Some? {
      assert Share(hist, top.value) > 0.5;
      if top.value != r && Departs(r) {
        assert gain * Share(hist, top.value) >= 0.0;
      }
    }
  }

  // ------------------------------------------------ nothing new: rest wins

  /** With nothing new since the last wake, an active thread is not continued: rest scores higher, unless
      rest itself has filled the recent history. This holds while the perturbation is at most 0.0625. */
  lemma NothingNewIsNotRechewed(s: State, p: Params, ds: seq<real>, scores: Scores)
    requires s.added == 0 && Dominant(Window(s, p)) != Some(Rest)
    requires Draws(ds) && p.gain >= 0.0 && p.exploration <= 0.0625 && Scored(scores, s, p, ds)
    ensures scores[Continuity] < scores[Rest] && ArgMax(scores) != Continuity
  {
    NoiseBounds(p, ds, Continuity);
    NoiseBounds(p, ds, Rest);
    DampingSign(Window(s, p), p.gain, Continuity);
    DampingSign(Window(s, p), p.gain, Rest);
    BestBeats(scores, |ROUTES|, Rest);
  }

  /** One active thread, nothing new, no history. */
  function OneThread(): State {
    State(1, 0, 0, 20, false, 0.0, false, [], [], 0.0, false, 0.0)
  }

  /** A draw that gives continuity the noise `n`, every other draw at its lowest. */
  function Tempting(p: Params, n: real): seq<real>
    requires p.exploration > 0.0
  {
    [(1.0 + n / p.exploration) / 2.0, 0.0, 0.0, 0.0, 0.0, 0.0, 0.0, 0.0]
  }

  lemma TemptingDraw(p: Params, n: real)
    requires 0.0 <= n < p.exploration
    ensures Draws(Tempting(p, n))
    ensures Noise(p, Tempting(p, n), Continuity) == n
    ensures forall r: Route | r != Continuity :: Noise(p, Tempting(p, n), r) == -p.exploration
  {
    var e, q := p.exploration, n / p.exploration;
    assert q * e == n;
    assert 0.0 <= q < 1.0 by {
      assert (1.0 - q) * e == e - n;
    }
    var d := (1.0 + q) / 2.0;
    assert d * 2.0 - 1.0 == q;
    forall r: Route | r != Continuity ensures Noise(p, Tempting(p, n), r) == -e {
      assert ROUTES[Rank(r)] == r && Rank(r) != 0;
      assert (0.0 * 2.0 - 1.0) * e == -e;
    }
  }

  /** The margin is sharp: any larger perturbation, such as the default 0.08, can re-chew. */
  lemma LargerNoiseCanRechew(p: Params, scores: Scores)
    requires p.exploration > 0.0625 && Scored(scores, OneThread(), p, Tempting(p, 0.0625))
    ensures Draws(Tempting(p, 0.0625)) && ArgMax(scores) == Continuity
  {
    TemptingDraw(p, 0.0625);
    forall r | r in scores && r != Continuity ensures scores[r] < scores[Continuity] {
      assert scores[r] == Score(OneThread(), p, Tempting(p, 0.0625), r);
    }
    AheadIsChosen(scores, Continuity);
  }

  // --------------------------------------- nothing new, and rested too often

  lemma RevisitBase(s: State)
    requires LiftOf(s) >= 0.0
    ensures Base(s, Revisit) >= 0.12
  {
  }

  lemma RevisitGain(hist: seq<Route>, gain: real, top: Route, gained: real)
    requires Dominant(hist) == Some(top) && top != Revisit && gained == gain * Share(hist, top)
    ensures Damping(hist, gain, Revisit) == gained
  {
  }

  /** Whatever else dominates the window, revisiting gains by its share. */
  lemma RevisitFloor(s: State, p: Params, ds: seq<real>, gained: real)
    requires |ds| == |ROUTES| && LiftOf(s) >= 0.0 && Damping(Window(s, p), p.gain, Revisit) == gained
    ensures Score(s, p, ds, Revisit) >= 0.12 + gained + Noise(p, ds, Revisit)
  {
    RevisitBase(s);
    RevisitSum(s, p, ds);
  }

  lemma RevisitSum(s: State, p: Params, ds: seq<real>)
    requires |ds| == |ROUTES|
    ensures Score(s, p, ds, Revisit)
            == Base(s, Revisit) + Damping(Window(s, p), p.gain, Revisit) + Noise(p, ds, Revisit)
  {
  }

  lemma NothingNewCeiling(s: State, p: Params, ds: seq<real>)
    requires |ds| == |ROUTES| && Dominant(Window(s, p)) == Some(Rest) && s.added == 0
    ensures Score(s, p, ds, Continuity) <= 0.375 + Noise(p, ds, Continuity)
  {
    assert Fatigue(s, p, Continuity) == Damping(Window(s, p), p.gain, Continuity) + 0.0;
  }

  /** Nothing is new, and a wake with the window `hist` continues a thread. */
  ghost predicate Rechews(hist: seq<Route>, p: Params, s: State, ds: seq<real>, scores: Scores) {
    && s.added == 0 && LiftOf(s) >= 0.0 && Window(s, p) == hist
    && Draws(ds) && Scored(scores, s, p, ds) && ArgMax(scores) == Continuity
  }

  lemma ChosenIsNotBelow(scores: Scores, r: Route)
    requires Full(scores)
    ensures scores[r] <= scores[ArgMax(scores)]
  {
    BestBeats(scores, |ROUTES|, r);
  }

  lemma Outweighed(c: real, r: real, nc: real, nr: real, x: real, e: real)
    requires c <= 0.375 + nc && r >= 0.12 + x + nr && nc < e && nr >= -e && x >= 0.255 + 2.0 * e
    ensures c < r
  {
  }

  lemma RestedGap(hist: seq<Route>, s: State, p: Params, ds: seq<real>, x: real)
    requires Draws(ds) && LiftOf(s) >= 0.0 && s.added == 0 && p.exploration > 0.0
    requires Window(s, p) == hist && Dominant(hist) == Some(Rest)
    requires Damping(hist, p.gain, Revisit) == x >= 0.255 + 2.0 * p.exploration
    ensures Score(s, p, ds, Continuity) < Score(s, p, ds, Revisit)
  {
    NoiseBounds(p, ds, Continuity);
    NoiseBounds(p, ds, Revisit);
    NothingNewCeiling(s, p, ds);
    RevisitFloor(s, p, ds, x);
    Outweighed(Score(s, p, ds, Continuity), Score(s, p, ds, Revisit), Noise(p, ds, Continuity), Noise(p, ds, Revisit),
               x, p.exploration);
  }

  lemma RechewsMeans(hist: seq<Route>, p: Params, s: State, ds: seq<real>, scores: Scores)
    requires Rechews(hist, p, s, ds, scores)
    ensures Score(s, p, ds, Revisit) <= Score(s, p, ds, Continuity)
  {
    ChosenIsNotBelow(scores, Revisit);
    assert Revisit in scores && Continuity in scores;
  }

  /** When rest itself dominates, revisiting takes its place: it gains what the fatigue of rest gives away. */
  lemma RestedWindowHolds(hist: seq<Route>, p: Params, x: real, s: State, ds: seq<real>, scores: Scores)
    requires Dominant(hist) == Some(Rest) && p.exploration > 0.0 && Rechews(hist, p, s, ds, scores)
    requires Damping(hist, p.gain, Revisit) == x
    ensures x < 0.255 + 2.0 * p.exploration
  {
    RechewsMeans(hist, p, s, ds, scores);
    if x >= 0.255 + 2.0 * p.exploration {
      RestedGap(hist, s, p, ds, x);
    }
  }

  function ScoresOf(s: State, p: Params, ds: seq<real>): (m: Scores)
    requires |ds| == |ROUTES|
    ensures Scored(m, s, p, ds)
  {
    assert forall r: Route :: r in ROUTES by {
      forall r: Route ensures r in ROUTES {
        AllListed(r);
      }
    }
    map r | r in ROUTES :: Score(s, p, ds, r)
  }

  /** Between what revisiting gains and the largest noise. */
  function Edge(x: real): real {
    Max(0.0, (x - 0.255) / 2.0)
  }

  /** The scores of one thread's state after a window dominated by rest, noise aside: `x` is what the other departures
      gain and `y` the share of rest. The world route stays at -1 or below. */
  function Rested(r: Route, x: real, y: real): real {
    match r
    case Continuity => 0.375
    case Revisit => 0.12 + x
    case Distant => 0.08 + x
    case Serendipity => 0.08 + x
    case SelfLook => 0.08
    case Personal => 0.12
    case WorldRoute => -1.0
    case Rest => 0.50 - 0.5 * y
  }

  function After(hist: seq<Route>): State {
    OneThread().(history := hist)
  }

  lemma AfterWindow(hist: seq<Route>, p: Params)
    requires |hist| <= p.window
    ensures Window(After(hist), p) == hist
  {
    assert |hist| == p.window ==> hist[..p.window] == hist;
  }

  lemma RestDamps(hist: seq<Route>, gain: real, x: real, y: real, r: Route)
    requires Dominant(hist) == Some(Rest) && y == Share(hist, Rest) && x == gain * y
    ensures Damping(hist, gain, r) == if r == Rest then -0.5 * y else if Departs(r) then x else 0.0
    ensures y > 0.5
  {
  }

  lemma BareScore(s: State, p: Params, ds: seq<real>, r: Route)
    requires |ds| == |ROUTES| && s.topics == []
    ensures var bare := Base(s, r) + Damping(Window(s, p), p.gain, r) + Noise(p, ds, r);
            Score(s, p, ds, r) == if r == WorldRoute then Min(bare, -1.0) else bare
  {
  }

  lemma RestedScore(hist: seq<Route>, p: Params, x: real, y: real, ds: seq<real>, r: Route)
    requires Dominant(hist) == Some(Rest) && |hist| <= p.window && |ds| == |ROUTES|
    requires y == Share(hist, Rest) && x == p.gain * y
    ensures var total := Score(After(hist), p, ds, r);
            if r == WorldRoute then total <= Rested(r, x, y) else total == Rested(r, x, y) + Noise(p, ds, r)
  {
    AfterWindow(hist, p);
    RestDamps(hist, p.gain, x, y, r);
    BareScore(After(hist), p, ds, r);
  }

  lemma Outbid(r: Route, x: real, y: real, e: real, bid: real, best: real)
    requires r != Continuity && y > 0.5 && e > 0.0 && 0.0 <= x < 0.255 + 2.0 * e && best == 0.375 + Edge(x)
    requires if r == WorldRoute then bid <= Rested(r, x, y) else bid == Rested(r, x, y) - e
    ensures bid < best
  {
  }

  /** Draws that give continuity the noise `n` and every other route the lowest. */
  ghost predicate Leans(p: Params, ds: seq<real>, n: real) {
    Draws(ds) && Noise(p, ds, Continuity) == n && forall r: Route | r != Continuity :: Noise(p, ds, r) == -p.exploration
  }

  lemma SomeLean(p: Params, n: real) returns (ds: seq<real>)
    requires 0.0 <= n < p.exploration
    ensures Leans(p, ds, n)
  {
    ds := Tempting(p, n);
    TemptingDraw(p, n);
  }

  /** The scores under such draws. */
  ghost predicate Bids(scores: Scores, x: real, y: real, n: real, e: real) {
    && Full(scores) && scores[Continuity] == 0.375 + n
    && forall r | r in scores && r != Continuity ::
         if r == WorldRoute then scores[r] <= Rested(r, x, y) else scores[r] == Rested(r, x, y) - e
  }

  lemma BidsAre(hist: seq<Route>, p: Params, x: real, y: real, n: real, ds: seq<real>, scores: Scores)
    requires Dominant(hist) == Some(Rest) && |hist| <= p.window && y == Share(hist, Rest) && x == p.gain * y
    requires Leans(p, ds, n) && Scored(scores, After(hist), p, ds)
    ensures Bids(scores, x, y, n, p.exploration)
  {
    forall r | r in scores
      ensures if r == WorldRoute then scores[r] <= Rested(r, x, y) else scores[r] == Rested(r, x, y) + Noise(p, ds, r)
    {
      RestedScore(hist, p, x, y, ds, r);
    }
  }

  lemma BidsTempt(scores: Scores, x: real, y: real, e: real)
    requires Bids(scores, x, y, Edge(x), e) && y > 0.5 && e > 0.0 && 0.0 <= x < 0.255 + 2.0 * e
    ensures ArgMax(scores) == Continuity
  {
    forall r | r in scores && r != Continuity ensures scores[r] < scores[Continuity] {
      Outbid(r, x, y, e, scores[r], scores[Continuity]);
    }
    AheadIsChosen(scores, Continuity);
  }

  lemma RestedShare(hist: seq<Route>, gain: real) returns (x: real, y: real)
    requires Dominant(hist) == Some(Rest) && gain >= 0.0
    ensures y == Share(hist, Rest) > 0.5 && x == gain * y >= 0.0
  {
    y := Share(hist, Rest);
    x := gain * y;
    RestDamps(hist, gain, x, y, Rest);
  }

  lemma RestedMindCan(hist: seq<Route>, p: Params, x: real, y: real) returns (ds: seq<real>, scores: Scores)
    requires Dominant(hist) == Some(Rest) && |hist| <= p.window && p.exploration > 0.0
    requires y == Share(hist, Rest) && x == p.gain * y
    requires y > 0.5 && 0.0 <= x < 0.255 + 2.0 * p.exploration
    ensures Draws(ds) && Scored(scores, After(hist), p, ds) && ArgMax(scores) == Continuity
  {
    ds := SomeLean(p, Edge(x));
    scores := ScoresOf(After(hist), p, ds);
    BidsAre(hist, p, x, y, Edge(x), ds, scores);
    BidsTempt(scores, x, y, p.exploration);
  }

  ghost predicate CanRechew(hist: seq<Route>, p: Params) {
    exists s: State, ds: seq<real>, scores: Scores :: Rechews(hist, p, s, ds, scores)
  }

  lemma RechewsOnlyIf(hist: seq<Route>, p: Params, x: real)
    requires Dominant(hist) == Some(Rest) && p.exploration > 0.0 && Damping(hist, p.gain, Revisit) == x
    requires CanRechew(hist, p)
    ensures x < 0.255 + 2.0 * p.exploration
  {
    var s: State, ds: seq<real>, scores: Scores :| Rechews(hist, p, s, ds, scores);
    RestedWindowHolds(hist, p, x, s, ds, scores);
  }

  lemma RechewsIf(hist: seq<Route>, p: Params, x: real, y: real)
    requires Dominant(hist) == Some(Rest) && |hist| <= p.window && p.exploration > 0.0
    requires y == Share(hist, Rest) && x == p.gain * y
    requires y > 0.5 && 0.0 <= x < 0.255 + 2.0 * p.exploration
    ensures CanRechew(hist, p)
  {
    var ds, scores := RestedMindCan(hist, p, x, y);
    AfterWindow(hist, p);
    assert Rechews(hist, p, After(hist), ds, scores);
  }

  /** The exception of the first promise, exactly: with a window dominated by rest some wake re-chews with nothing new
      if and only if the gain `x` of the other departures is less than the noise can bridge. */
  lemma RestedMindRechewsIff(hist: seq<Route>, p: Params, x: real)
    requires Dominant(hist) == Some(Rest) && |hist| <= p.window && p.gain >= 0.0 && p.exploration > 0.0
    requires x == p.gain * Share(hist, Rest)
    ensures CanRechew(hist, p) <==> x < 0.255 + 2.0 * p.exploration
  {
    RevisitGain(hist, p.gain, Rest, x);
    var x', y := RestedShare(hist, p.gain);
    if CanRechew(hist, p) {
      RechewsOnlyIf(hist, p, x);
    } else if x < 0.255 + 2.0 * p.exploration {
      RechewsIf(hist, p, x', y);
    }
  }

  // ------------------------------------------------- a loop is left behind

  lemma ContinuityCeiling(s: State, p: Params, ds: seq<real>)
    requires |ds| == |ROUTES| && Dominant(Window(s, p)) == Some(Continuity)
    ensures Score(s, p, ds, Continuity) <= 0.60 - 0.5 * Share(Window(s, p), Continuity) + Noise(p, ds, Continuity)
  {
  }

  lemma Distribute(g: real, x: real)
    ensures (0.5 + g) * x == 0.5 * x + g * x
  {
  }

  lemma Undercut(c: real, r: real, nc: real, nr: real, share: real, gained: real, e: real)
    requires c <= 0.60 - 0.5 * share + nc && r >= 0.12 + gained + nr && nc <= e && nr >= -e
    requires 0.5 * share + gained > 0.48 + 2.0 * e
    ensures c < r
  {
  }

  lemma LoopLosesTo(s: State, p: Params, ds: seq<real>, share: real, gained: real)
    requires Draws(ds) && LiftOf(s) >= 0.0 && p.exploration >= 0.0
    requires Dominant(Window(s, p)) == Some(Continuity) && share == Share(Window(s, p), Continuity)
    requires gained == p.gain * share && 0.5 * share + gained > 0.48 + 2.0 * p.exploration
    ensures Score(s, p, ds, Continuity) < Score(s, p, ds, Revisit)
  {
    NoiseBounds(p, ds, Continuity);
    NoiseBounds(p, ds, Revisit);
    ContinuityCeiling(s, p, ds);
    RevisitGain(Window(s, p), p.gain, Continuity, gained);
    RevisitFloor(s, p, ds, gained);
    Undercut(Score(s, p, ds, Continuity), Score(s, p, ds, Revisit), Noise(p, ds, Continuity), Noise(p, ds, Revisit),
             share, gained, p.exploration);
  }

  /** A window dominated by one continued thread: revisit gains what continuity loses. */
  lemma LoopIsBroken(s: State, p: Params, ds: seq<real>, scores: Scores)
    requires Draws(ds) && LiftOf(s) >= 0.0 && p.exploration >= 0.0 && Scored(scores, s, p, ds)
    requires Dominant(Window(s, p)) == Some(Continuity)
    requires (0.5 + p.gain) * Share(Window(s, p), Continuity) > 0.48 + 2.0 * p.exploration
    ensures ArgMax(scores) != Continuity
  {
    var share := Share(Window(s, p), Continuity);
    Distribute(p.gain, share);
    LoopLosesTo(s, p, ds, share, p.gain * share);
    ChosenIsNotBelow(scores, Revisit);
  }

  /** Under the default parameters two thirds of the window are enough. */
  lemma DefaultLoopIsBroken(s: State, ds: seq<real>, scores: Scores)
    requires Draws(ds) && LiftOf(s) >= 0.0 && Scored(scores, s, DEFAULTS, ds)
    requires var hist := Window(s, DEFAULTS);
             |hist| >= 2 && 3 * multiset(hist)[Continuity] >= 2 * |hist|
    ensures ArgMax(scores) != Continuity
  {
    var hist := Window(s, DEFAULTS);
    var n, l := multiset(hist)[Continuity], |hist|;
    QuotientAbove(n as real, l as real, 0.65);
    assert 3.0 * (n as real) == (3 * n) as real && 2.0 * (l as real) == (2 * l) as real;
    assert Share(hist, Continuity) > 0.65;
    LoopIsBroken(s, DEFAULTS, ds, scores);
  }
}
