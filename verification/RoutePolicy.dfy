/** Route selection (route_policy.py) and the audit of its revival lift (telemetry.py). Scores are
    exact reals; the draws of the generator are parameters. */
module RoutePolicy {
  import opened Basics
  import opened EventLog

  datatype Route = Continuity | Revisit | Distant | Serendipity | SelfLook | Personal | WorldRoute | Rest

  const ROUTES := [Continuity, Revisit, Distant, Serendipity, SelfLook, Personal, WorldRoute, Rest]

  /** The slice of state that bears on the choice. */
  datatype State = State(active: nat, dormant: nat, added: nat, total: nat, userSpoke: bool, concentration: real,
                         explored: bool, history: seq<Route>, topics: seq<string>, idleS: real,
                         revival: bool, lift: real)

  datatype Params = Params(exploration: real, window: nat, gain: real)

  const DEFAULTS := Params(0.08, 6, 0.5)

  type Scores = map<Route, real>

  ghost predicate Full(m: Scores) {
    forall r: Route {:trigger r in m} :: r in m
  }

  lemma AllListed(r: Route)
    ensures r in ROUTES
  {
    assert ROUTES[Rank(r)] == r;
  }

  function Neutral(): (m: Scores)
    ensures Full(m) && forall r | r in m :: m[r] == 0.0
  {
    assert forall r: Route :: r in ROUTES by {
      forall r: Route ensures r in ROUTES {
        AllListed(r);
      }
    }
    map r | r in ROUTES :: 0.0
  }

  function Departs(r: Route): bool {
    r == Revisit || r == Distant || r == Serendipity || r == Rest
  }

  // ----------------------------------------------------------------- scoring

  function ActiveBonus(s: State): real {
    if s.active == 0 then 0.0 else if s.added == 0 then 0.225 else 0.45
  }

  /** The weight a state gives each route, before fatigue and noise. */
  function Base(s: State, r: Route): real {
    match r
    case Continuity => 0.15 + ActiveBonus(s)
    case Revisit => 0.12 + Min(0.40, 0.20 * (s.dormant as real)) + if s.revival then s.lift else 0.0
    case Distant => 0.08 + 0.50 * Max(0.0, s.concentration - 0.5)
    case Serendipity => 0.08 + if s.explored then 0.35 else 0.0
    case Personal => 0.12 + if s.userSpoke then 0.50 else 0.0
    case SelfLook => 0.08 + if s.total < 20 then 0.25 else 0.0
    case Rest => if s.added == 0 then 0.50 else if s.idleS > 86400.0 then 0.35 else 0.12
    case WorldRoute => 0.0
  }

  method BaseScores(s: State) returns (scores: Scores)
    ensures Full(scores) && forall r | r in scores :: scores[r] == Base(s, r)
  {
    scores := Neutral();
    var bonus := if s.active > 0 then 0.45 else 0.0;
    if s.active > 0 && s.added == 0 {
      bonus := bonus * 0.5;
    }
    scores := scores[Continuity := 0.15 + bonus];
    scores := scores[Revisit := 0.12 + Min(0.40, 0.20 * (s.dormant as real))];
    scores := scores[Distant := 0.08 + 0.50 * Max(0.0, s.concentration - 0.5)];
    scores := scores[Serendipity := 0.08 + if s.explored then 0.35 else 0.0];
    scores := scores[Personal := 0.12 + if s.userSpoke then 0.50 else 0.0];
    scores := scores[SelfLook := 0.08 + if s.total < 20 then 0.25 else 0.0];
    if s.added == 0 {
      scores := scores[Rest := 0.50];
    } else {
      scores := scores[Rest := 0.12];
      if s.idleS > 86400.0 {
        scores := scores[Rest := Max(scores[Rest], 0.35)];
      }
    }
    if s.revival {
      scores := scores[Revisit := scores[Revisit] + s.lift];
    }
  }

  // ----------------------------------------------------------------- fatigue

  function Share<T(==)>(xs: seq<T>, x: T): real
    requires xs != []
  {
    multiset(xs)[x] as real / |xs| as real
  }

  /** The greatest number of times one value occurs among the first `k`. */
  function TopCount<T(==)>(xs: seq<T>, k: nat): nat
    requires k <= |xs|
  {
    if k == 0 then 0 else
      var n, m := TopCount(xs, k - 1), multiset(xs)[xs[k - 1]];
      if n < m then m else n
  }

  /** The route that fills more than half of the history: at most one can. */
  function Majority(hist: seq<Route>): (m: Option<Route>)
    requires hist != []
    ensures m.Some? ==> Share(hist, m.value) > 0.5
    ensures forall r: Route | Share(hist, r) > 0.5 :: m == Some(r)
  {
    MajorityIsUnique(hist);
    if Share(hist, Continuity) > 0.5 then Some(Continuity)
    else if Share(hist, Revisit) > 0.5 then Some(Revisit)
    else if Share(hist, Distant) > 0.5 then Some(Distant)
    else if Share(hist, Serendipity) > 0.5 then Some(Serendipity)
    else if Share(hist, SelfLook) > 0.5 then Some(SelfLook)
    else if Share(hist, Personal) > 0.5 then Some(Personal)
    else if Share(hist, WorldRoute) > 0.5 then Some(WorldRoute)
    else if Share(hist, Rest) > 0.5 then Some(Rest)
    else None
  }

  lemma {:induction false} TwoCounts(hist: seq<Route>, a: Route, b: Route)
    requires a != b
    ensures multiset(hist)[a] + multiset(hist)[b] <= |hist|
  {
    if hist != [] {
      var front := hist[..|hist| - 1];
      assert hist == front + [hist[|hist| - 1]];
      TwoCounts(front, a, b);
    }
  }

  lemma MajorityIsUnique(hist: seq<Route>)
    requires hist != []
    ensures forall a: Route, b: Route | Share(hist, a) > 0.5 && Share(hist, b) > 0.5 :: a == b
  {
    forall a: Route, b: Route | Share(hist, a) > 0.5 && Share(hist, b) > 0.5 ensures a == b {
      if a != b {
        TwoCounts(hist, a, b);
        HalfOf(multiset(hist)[a], |hist|);
        HalfOf(multiset(hist)[b], |hist|);
      }
    }
  }

  lemma QuotientAbove(x: real, l: real, c: real)
    requires l > 0.0
    ensures x / l > c <==> x > c * l
  {
    var q := x / l;
    assert q * l == x;
    assert x - c * l == (q - c) * l;
  }

  lemma HalfOf(n: nat, len: nat)
    requires len > 0
    ensures n as real / len as real > 0.5 <==> 2 * n > len
  {
    QuotientAbove(n as real, len as real, 0.5);
  }

  function Window(s: State, p: Params): seq<Route> {
    if p.window <= |s.history| then s.history[..p.window] else s.history
  }

  /** The dominant route, if the window has one and holds two entries or more. */
  function Dominant(hist: seq<Route>): Option<Route> {
    if |hist| >= 2 then Majority(hist) else None
  }

  /** The dominant route is damped and the other departure routes gain. */
  function Damping(hist: seq<Route>, gain: real, r: Route): real {
    var top := Dominant(hist);
    if top.None? then 0.0
    else if top.value == r then -0.5 * Share(hist, r)
    else if Departs(r) then gain * Share(hist, top.value)
    else 0.0
  }

  function TopicPull(s: State): real {
    if s.topics == [] then 0.0 else
      var share := TopCount(s.topics, |s.topics|) as real / |s.topics| as real;
      if share > 0.6 then share else 0.0
  }

  /** Fatigue of routes, and the pull of one topic away from itself. */
  function Fatigue(s: State, p: Params, r: Route): real {
    Damping(Window(s, p), p.gain, r)
    + if r == Distant then 0.40 * TopicPull(s) else if r == Serendipity then 0.20 * TopicPull(s) else 0.0
  }

  method MostCommon<T(==)>(xs: seq<T>) returns (top: T, n: nat)
    requires xs != []
    ensures n == multiset(xs)[top] == TopCount(xs, |xs|)
    ensures forall x :: multiset(xs)[x] <= n
  {
    top, n := xs[0], 0;
    for i := 0 to |xs|
      invariant n == TopCount(xs, i) && (i > 0 ==> n == multiset(xs)[top])
      invariant forall j | 0 <= j < i :: multiset(xs)[xs[j]] <= n
    {
      if n < multiset(xs)[xs[i]] {
        top, n := xs[i], multiset(xs)[xs[i]];
      }
    }
    forall x ensures multiset(xs)[x] <= n {
      if x in xs {
        var j :| 0 <= j < |xs| && xs[j] == x;
      } else {
        assert x !in multiset(xs);
      }
    }
  }

  method Dampen(top: Route, dominance: real, gain: real) returns (adj: Scores)
    ensures Full(adj)
    ensures forall r | r in adj ::
              adj[r] == if r == top then -0.5 * dominance else if Departs(r) then gain * dominance else 0.0
  {
    adj := Neutral()[top := -0.5 * dominance];
    var departures := [Revisit, Distant, Serendipity, Rest];
    for i := 0 to 4
      invariant Full(adj)
      invariant forall r | r in adj :: adj[r] ==
                  if r == top then -0.5 * dominance else if r in departures[..i] then gain * dominance else 0.0
    {
      if departures[i] != top {
        adj := adj[departures[i] := adj[departures[i]] + gain * dominance];
      }
    }
    assert departures[..4] == departures;
    assert forall r :: r in departures <==> Departs(r);
  }

  method RouteFatigue(hist: seq<Route>, gain: real) returns (adj: Scores)
    ensures Full(adj) && forall r | r in adj :: adj[r] == Damping(hist, gain, r)
  {
    adj := Neutral();
    if |hist| >= 2 {
      var top, n := MostCommon(hist);
      var dominance := n as real / |hist| as real;
      LargestIsMajority(hist, top);
      if dominance > 0.5 {
        adj := Dampen(top, dominance, gain);
        DampedByTop(hist, top, gain, adj);
      } else {
        UndampedIsNeutral(hist, gain);
      }
    } else {
      UndampedIsNeutral(hist, gain);
    }
  }

  lemma DampedByTop(hist: seq<Route>, top: Route, gain: real, adj: Scores)
    requires |hist| >= 2 && Majority(hist) == Some(top) && Full(adj)
    requires forall r | r in adj ::
               adj[r] == if r == top then -0.5 * Share(hist, top)
                         else if Departs(r) then gain * Share(hist, top) else 0.0
    ensures forall r | r in adj :: adj[r] == Damping(hist, gain, r)
  {
  }

  lemma UndampedIsNeutral(hist: seq<Route>, gain: real)
    requires Dominant(hist).None?
    ensures forall r: Route :: Damping(hist, gain, r) == 0.0
  {
  }

  method FatigueAdjustments(s: State, p: Params) returns (adj: Scores)
    ensures Full(adj) && forall r | r in adj :: adj[r] == Fatigue(s, p, r)
  {
    adj := RouteFatigue(Window(s, p), p.gain);
    if s.topics != [] {
      var _, tn := MostCommon(s.topics);
      var tdom := tn as real / |s.topics| as real;
      if tdom > 0.6 {
        adj := adj[Distant := adj[Distant] + 0.40 * tdom];
        adj := adj[Serendipity := adj[Serendipity] + 0.20 * tdom];
      }
    }
  }

  /** The most common route is the majority, if there is one. */
  lemma LargestIsMajority(hist: seq<Route>, top: Route)
    requires hist != [] && forall r: Route :: multiset(hist)[r] <= multiset(hist)[top]
    ensures Majority(hist) == if Share(hist, top) > 0.5 then Some(top) else None
  {
    var m := Majority(hist);
    if m.Some? {
      HalfOf(multiset(hist)[m.value], |hist|);
      HalfOf(multiset(hist)[top], |hist|);
    }
  }

  // ------------------------------------------------------------------ select

  /** The place of a route in ROUTES. */
  function Rank(r: Route): (k: nat)
    ensures k < |ROUTES| && ROUTES[k] == r
  {
    match r
    case Continuity => 0
    case Revisit => 1
    case Distant => 2
    case Serendipity => 3
    case SelfLook => 4
    case Personal => 5
    case WorldRoute => 6
    case Rest => 7
  }

  lemma RankOf(i: nat)
    requires i < |ROUTES|
    ensures Rank(ROUTES[i]) == i
  {
  }

  /** The first route with the greatest score, in the order of ROUTES, among the first `k`. */
  function Best(scores: Scores, k: nat): (r: Route)
    requires Full(scores) && 0 < k <= |ROUTES|
  {
    if k == 1 then ROUTES[0] else
      var b := Best(scores, k - 1);
      if scores[b] < scores[ROUTES[k - 1]] then ROUTES[k - 1] else b
  }

  function ArgMax(scores: Scores): Route
    requires Full(scores)
  {
    Best(scores, |ROUTES|)
  }

  ghost predicate BeatenBy(scores: Scores, r: Route, b: Route)
    requires Full(scores)
  {
    scores[r] < scores[b] || (scores[r] == scores[b] && Rank(b) <= Rank(r))
  }

  lemma {:induction false} BestBeats(scores: Scores, k: nat, r: Route)
    requires Full(scores) && 0 < k <= |ROUTES| && Rank(r) < k
    ensures Rank(Best(scores, k)) < k && BeatenBy(scores, r, Best(scores, k))
  {
    if k > 1 {
      RankOf(k - 1);
      if Rank(r) < k - 1 {
        BestBeats(scores, k - 1, r);
      } else {
        BestBeats(scores, k - 1, ROUTES[0]);
      }
    }
  }

  /** One draw in [0, 1) for each route, in the order of ROUTES. */
  ghost predicate Draws(ds: seq<real>) {
    |ds| == |ROUTES| && forall i | 0 <= i < |ds| :: 0.0 <= ds[i] < 1.0
  }

  /** A draw in [0, 1) spread over the perturbation. */
  function Swing(draw: real, width: real): real {
    (draw * 2.0 - 1.0) * width
  }

  function Noise(p: Params, ds: seq<real>, r: Route): real
    requires |ds| == |ROUTES|
  {
    if p.exploration > 0.0 then Swing(ds[Rank(r)], p.exploration) else 0.0
  }

  /** The score a route competes with; the unbound world route is held at -1 or below. */
  function Score(s: State, p: Params, ds: seq<real>, r: Route): real
    requires |ds| == |ROUTES|
  {
    var x := Base(s, r) + Fatigue(s, p, r) + Noise(p, ds, r);
    if r == WorldRoute then Min(x, -1.0) else x
  }

  ghost predicate Scored(scores: Scores, s: State, p: Params, ds: seq<real>)
    requires |ds| == |ROUTES|
  {
    Full(scores) && forall r | r in scores :: scores[r] == Score(s, p, ds, r)
  }

  /** Adds to each route its own amount, route after route. */
  method AddEach(scores: Scores, delta: Scores) returns (sum: Scores)
    requires Full(scores) && Full(delta)
    ensures Full(sum) && forall r: Route | r in sum && r in scores && r in delta :: sum[r] == scores[r] + delta[r]
  {
    sum := scores;
    for i := 0 to |ROUTES|
      invariant Full(sum)
      invariant forall r: Route | r in sum && r in scores && r in delta ::
                  sum[r] == if Rank(r) < i then scores[r] + delta[r] else scores[r]
    {
      RankOf(i);
      sum := sum[ROUTES[i] := sum[ROUTES[i]] + delta[ROUTES[i]]];
    }
  }

  function NoiseOf(p: Params, ds: seq<real>): (m: Scores)
    requires |ds| == |ROUTES|
    ensures Full(m) && forall r | r in m :: m[r] == Noise(p, ds, r)
  {
    assert forall r: Route :: r in ROUTES by {
      forall r: Route ensures r in ROUTES {
        AllListed(r);
      }
    }
    map r | r in ROUTES :: Noise(p, ds, r)
  }

  method FirstGreatest(scores: Scores) returns (route: Route)
    requires Full(scores)
    ensures route == ArgMax(scores)
  {
    route := ROUTES[0];
    for k := 1 to |ROUTES|
      invariant route == Best(scores, k)
    {
      if scores[route] < scores[ROUTES[k]] {
        route := ROUTES[k];
      }
    }
  }

  method ScoreRoutes(s: State, p: Params, ds: seq<real>) returns (scores: Scores)
    requires |ds| == |ROUTES|
    ensures Full(scores)
    ensures forall r | r in scores :: scores[r] == Base(s, r) + Fatigue(s, p, r) + Noise(p, ds, r)
  {
    scores := BaseScores(s);
    var adj := FatigueAdjustments(s, p);
    scores := AddEach(scores, adj);
    if p.exploration > 0.0 {
      scores := AddEach(scores, NoiseOf(p, ds));
    }
  }

  method Select(s: State, p: Params, ds: seq<real>) returns (route: Route, scores: Scores)
    requires |ds| == |ROUTES|
    ensures Scored(scores, s, p, ds) && route == ArgMax(scores)
  {
    scores := ScoreRoutes(s, p, ds);
    scores := scores[WorldRoute := Min(scores[WorldRoute], -1.0)];
    route := FirstGreatest(scores);
  }

  // ------------------------------------------------------- facts of arg-max

  ghost predicate RaisedAt(lo: Scores, hi: Scores, r: Route)
    requires Full(lo) && Full(hi)
  {
    lo[r] <= hi[r] && forall q | q in lo && q in hi && q != r :: lo[q] == hi[q]
  }

  lemma RaiseStep(lo: Scores, hi: Scores, r: Route, b: Route, c: Route, e: Route)
    requires Full(lo) && Full(hi) && RaisedAt(lo, hi, r) && (c == r || c == b) && hi[b] <= hi[c]
    ensures var b', c' := if lo[b] < lo[e] then e else b, if hi[c] < hi[e] then e else c;
            c' == r || c' == b'
  {
  }

  lemma {:induction false} RankOfBest(scores: Scores, k: nat)
    requires Full(scores) && 0 < k <= |ROUTES|
    ensures Rank(Best(scores, k)) < k
  {
    RankOf(0);
    BestBeats(scores, k, ROUTES[0]);
  }

  /** Raising one score can only move the choice to that route. */
  lemma {:induction false} RaiseOne(lo: Scores, hi: Scores, r: Route, k: nat)
    requires Full(lo) && Full(hi) && 0 < k <= |ROUTES| && RaisedAt(lo, hi, r)
    ensures Best(hi, k) == r || Best(hi, k) == Best(lo, k)
  {
    if k > 1 {
      RaiseOne(lo, hi, r, k - 1);
      RankOfBest(lo, k - 1);
      BestBeats(hi, k - 1, Best(lo, k - 1));
      RaiseStep(lo, hi, r, Best(lo, k - 1), Best(hi, k - 1), ROUTES[k - 1]);
    }
  }

  /** A route ahead of all others is the choice. */
  lemma AheadIsChosen(scores: Scores, r: Route)
    requires Full(scores) && forall q | q in scores && q != r :: scores[q] < scores[r]
    ensures ArgMax(scores) == r
  {
    BestBeats(scores, |ROUTES|, r);
  }

  /** A route is not the choice if one before it scores as much. */
  lemma BehindIsNotChosen(scores: Scores, r: Route, q: Route)
    requires Full(scores) && Rank(q) < Rank(r) && scores[r] <= scores[q]
    ensures ArgMax(scores) != r
  {
    BestBeats(scores, |ROUTES|, q);
  }
}
