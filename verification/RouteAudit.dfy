/** The audit of the revival lift (telemetry.py), and what can never be chosen (route_policy.py). */
module RouteAudit {
  import opened EventLog
  import opened RoutePolicy

  /** The same state with no revival candidate: the same wake without the lift. */
  function Calm(s: State): State {
    s.(revival := false)
  }

  function LiftOf(s: State): real {
    if s.revival then s.lift else 0.0
  }

  lemma LiftTouchesRevisitOnly(s: State, p: Params, ds: seq<real>, r: Route)
    requires |ds| == |ROUTES|
    ensures Score(s, p, ds, r) == Score(Calm(s), p, ds, r) + if r == Revisit then LiftOf(s) else 0.0
  {
  }

  /** Same noise, same state: the lift can only move the choice to "revisit". */
  lemma LiftMovesOnlyToRevisit(s: State, p: Params, ds: seq<real>, with: Scores, calm: Scores)
    requires |ds| == |ROUTES| && LiftOf(s) >= 0.0
    requires Scored(with, s, p, ds) && Scored(calm, Calm(s), p, ds)
    ensures ArgMax(with) == ArgMax(calm) || ArgMax(with) == Revisit
  {
    forall r: Route ensures with[r] == calm[r] + if r == Revisit then LiftOf(s) else 0.0 {
      LiftTouchesRevisitOnly(s, p, ds, r);
    }
    RaiseOne(calm, with, Revisit, |ROUTES|);
  }

  /** The recorded scores with the lift taken back. */
  function Lowered(scores: Scores, lift: real): Scores
    requires Full(scores)
  {
    scores[Revisit := scores[Revisit] - lift]
  }

  /** Taking the lift back gives the scores of the wake without it, exactly. */
  lemma LoweredIsCalm(s: State, p: Params, ds: seq<real>, with: Scores, calm: Scores)
    requires |ds| == |ROUTES| && Scored(with, s, p, ds) && Scored(calm, Calm(s), p, ds)
    ensures Lowered(with, LiftOf(s)) == calm
  {
    var low := Lowered(with, LiftOf(s));
    forall r: Route ensures low[r] == calm[r] {
      LiftTouchesRevisitOnly(s, p, ds, r);
    }
  }

  // ---------------------------------------------------------------- the audit

  /** A recorded route decision. `scores` may be missing. */
  datatype Decision = Decision(candidate: bool, route: Route, scores: Option<Scores>)

  ghost predicate WellFormed(d: Decision) {
    d.scores.Some? ==> Full(d.scores.value)
  }

  predicate Counts(d: Decision, lift: real)
    requires WellFormed(d)
  {
    d.candidate && d.route == Revisit && d.scores.Some? && ArgMax(Lowered(d.scores.value, lift)) != Revisit
  }

  /** How many of the first `n` decisions satisfy the audit's test. */
  function Tally(ds: seq<Decision>, lift: real, n: nat): nat
    requires n <= |ds| && forall i | 0 <= i < |ds| :: WellFormed(ds[i])
  {
    if n == 0 then 0 else Tally(ds, lift, n - 1) + if Counts(ds[n - 1], lift) then 1 else 0
  }

  method RevivalIntervention(ds: seq<Decision>, lift: real) returns (inLull: nat, changed: nat)
    requires forall i | 0 <= i < |ds| :: WellFormed(ds[i])
    ensures changed == Tally(ds, lift, |ds|) <= inLull <= |ds|
  {
    inLull, changed := 0, 0;
    for i := 0 to |ds|
      invariant changed == Tally(ds, lift, i) <= inLull <= i
    {
      if ds[i].candidate && ds[i].route == Revisit {
        inLull := inLull + 1;
        if ds[i].scores.Some? {
          var lowered := Lowered(ds[i].scores.value, lift);
          var other := FirstGreatest(lowered);
          if other != Revisit {
            changed := changed + 1;
          }
        }
      }
    }
  }

  /** A wake as it happened, and the decision it recorded with unrounded scores. */
  datatype Wake = Wake(state: State, draws: seq<real>)

  ghost predicate Recorded(w: Wake, p: Params, d: Decision) {
    && |w.draws| == |ROUTES| && d.candidate == w.state.revival && d.scores.Some?
    && Scored(d.scores.value, w.state, p, w.draws) && d.route == ArgMax(d.scores.value)
  }

  /** The route the same wake takes without the lift. */
  ghost predicate CalmRoute(w: Wake, p: Params, r: Route)
    requires |w.draws| == |ROUTES|
  {
    exists calm: Scores {:trigger Scored(calm, Calm(w.state), p, w.draws)} ::
      Scored(calm, Calm(w.state), p, w.draws) && r == ArgMax(calm)
  }

  /** The audit counts a wake exactly when the lift decided it. */
  lemma AuditIsExact(w: Wake, p: Params, d: Decision, r: Route)
    requires Recorded(w, p, d) && w.state.lift >= 0.0 && CalmRoute(w, p, r)
    ensures Counts(d, w.state.lift) <==> d.route != r
    ensures d.route != r ==> d.route == Revisit && d.candidate
  {
    var calm: Scores :| Scored(calm, Calm(w.state), p, w.draws) && r == ArgMax(calm);
    LoweredIsCalm(w.state, p, w.draws, d.scores.value, calm);
    LiftMovesOnlyToRevisit(w.state, p, w.draws, d.scores.value, calm);
    if !w.state.revival {
      assert Lowered(d.scores.value, 0.0) == d.scores.value;
    }
  }

  /** Decision `d` is the record of wake `w`, whose route without the lift is `r`. */
  ghost predicate Audited(w: Wake, p: Params, d: Decision, r: Route, lift: real) {
    Recorded(w, p, d) && w.state.lift == lift && CalmRoute(w, p, r)
  }

  lemma AuditedCounts(w: Wake, p: Params, d: Decision, r: Route, lift: real)
    requires Audited(w, p, d, r, lift) && lift >= 0.0
    ensures WellFormed(d) && (Counts(d, lift) <==> d.route != r)
  {
    AuditIsExact(w, p, d, r);
  }

  /** The records of a window of wakes under one lift. */
  ghost predicate AuditedAll(ws: seq<Wake>, p: Params, ds: seq<Decision>, calm: seq<Route>, lift: real) {
    |ws| == |ds| == |calm| && forall i | 0 <= i < |ws| :: Audited(ws[i], p, ds[i], calm[i], lift)
  }

  /** The audit's verdict on each decision, and the wakes the lift decided. */
  function Verdicts(ds: seq<Decision>, lift: real): (v: seq<bool>)
    requires forall i | 0 <= i < |ds| :: WellFormed(ds[i])
    ensures |v| == |ds| && forall i | 0 <= i < |v| :: v[i] == Counts(ds[i], lift)
  {
    seq(|ds|, i requires 0 <= i < |ds| => Counts(ds[i], lift))
  }

  function Trues(v: seq<bool>): nat {
    if v == [] then 0 else Trues(v[..|v| - 1]) + if v[|v| - 1] then 1 else 0
  }

  lemma {:induction false} TallyIsTrues(ds: seq<Decision>, lift: real, n: nat)
    requires n <= |ds| && forall i | 0 <= i < |ds| :: WellFormed(ds[i])
    ensures Tally(ds, lift, n) == Trues(Verdicts(ds, lift)[..n])
  {
    if n > 0 {
      TallyIsTrues(ds, lift, n - 1);
      assert Verdicts(ds, lift)[..n][..n - 1] == Verdicts(ds, lift)[..n - 1];
    }
  }

  function Moved(ds: seq<Decision>, calm: seq<Route>): (v: seq<bool>)
    requires |ds| == |calm|
    ensures |v| == |ds| && forall i | 0 <= i < |v| :: v[i] == (ds[i].route != calm[i])
  {
    seq(|ds|, i requires 0 <= i < |ds| => ds[i].route != calm[i])
  }

  /** Over a window: the audit's count is the number of wakes the lift decided. */
  lemma AuditCountsDecidedWakes(ws: seq<Wake>, p: Params, ds: seq<Decision>, calm: seq<Route>, lift: real)
    requires AuditedAll(ws, p, ds, calm, lift) && lift >= 0.0
    requires forall i | 0 <= i < |ds| :: WellFormed(ds[i])
    ensures Tally(ds, lift, |ds|) == Trues(Moved(ds, calm))
  {
    TallyIsTrues(ds, lift, |ds|);
    var v, w := Verdicts(ds, lift), Moved(ds, calm);
    assert v[..|ds|] == v;
    forall i | 0 <= i < |ds| ensures v[i] == w[i] {
      AuditedCounts(ws[i], p, ds[i], calm[i], lift);
    }
    assert v == w;
  }

  // ---------------------------------------------------------------- rounding

  ghost predicate Near(a: Scores, b: Scores, eps: real)
    requires Full(a) && Full(b)
  {
    forall r | r in a && r in b :: b[r] - eps <= a[r] <= b[r] + eps
  }

  /** Recorded scores are rounded. The re-argmax still finds the route without the lift whenever that
      route leads by more than twice the rounding error. */
  lemma AuditToleratesRounding(s: State, p: Params, ds: seq<real>, rounded: Scores, with: Scores, calm: Scores,
                               eps: real)
    requires |ds| == |ROUTES| && Scored(with, s, p, ds) && Scored(calm, Calm(s), p, ds)
    requires Full(rounded) && Near(rounded, with, eps)
    requires forall r | r in calm && r != ArgMax(calm) :: calm[r] + 2.0 * eps < calm[ArgMax(calm)]
    ensures ArgMax(Lowered(rounded, LiftOf(s))) == ArgMax(calm)
  {
    var low, best := Lowered(rounded, LiftOf(s)), ArgMax(calm);
    LoweredIsCalm(s, p, ds, with, calm);
    assert low[best] >= calm[best] - eps;
    forall r | r in low && r != best ensures low[r] < low[best] {
      assert low[r] <= calm[r] + eps;
    }
    AheadIsChosen(low, best);
  }

  // -------------------------------------------------------------------- world

  /** Some route before "world" always scores -1 or more. */
  lemma HoldsTheFloor(s: State, p: Params, ds: seq<real>) returns (r: Route)
    requires Draws(ds) && LiftOf(s) >= 0.0 && p.gain >= 0.06 && p.exploration <= 1.15
    ensures Rank(r) < Rank(WorldRoute) && Score(s, p, ds, r) >= -1.0
  {
    var hist := Window(s, p);
    r := if Dominant(hist) == Some(Continuity) then Revisit else Continuity;
    NoiseFloor(p, ds, r);
    if Dominant(hist) == Some(Continuity) {
      assert Share(hist, Continuity) > 0.5;
      Product(p.gain, Share(hist, Continuity));
    }
  }

  lemma Product(g: real, x: real)
    requires g >= 0.06 && x > 0.5
    ensures g * x >= 0.03
  {
    assert g * x - 0.03 == (g - 0.06) * x + 0.06 * (x - 0.5);
    assert (g - 0.06) * x >= 0.0;
  }

  lemma NoiseFloor(p: Params, ds: seq<real>, r: Route)
    requires Draws(ds) && p.exploration <= 1.15
    ensures Noise(p, ds, r) >= -1.15
  {
    if p.exploration > 0.0 {
      var d := ds[Rank(r)];
      assert (d * 2.0 - 1.0) * p.exploration == 2.0 * (d * p.exploration) - p.exploration;
      assert d * p.exploration >= 0.0;
    }
  }

  /** The unbound world route is never chosen while the perturbation stays below 1.15. */
  lemma WorldIsNeverChosen(s: State, p: Params, ds: seq<real>, scores: Scores)
    requires Draws(ds) && LiftOf(s) >= 0.0 && p.gain >= 0.06 && p.exploration <= 1.15
    requires Scored(scores, s, p, ds)
    ensures ArgMax(scores) != WorldRoute
  {
    var r := HoldsTheFloor(s, p, ds);
    BehindIsNotChosen(scores, WorldRoute, r);
  }

  /** A state with nothing to do: no thread, no message, no fatigue. */
  function Idle(): State {
    State(0, 0, 1, 20, false, 0.0, false, [], [], 0.0, false, 0.0)
  }

  const LOWEST: seq<real> := [0.0, 0.0, 0.0, 0.0, 0.0, 0.0, 0.5, 0.0]

  /** The bound is sharp: with any larger perturbation some wake chooses the world route. */
  lemma LargerNoiseCanChooseWorld(p: Params, scores: Scores)
    requires p.exploration > 1.15 && Scored(scores, Idle(), p, LOWEST)
    ensures Draws(LOWEST) && ArgMax(scores) == WorldRoute
  {
    forall r | r in scores && r != WorldRoute ensures scores[r] < scores[WorldRoute] {
      assert scores[r] == Score(Idle(), p, LOWEST, r);
      assert Noise(p, LOWEST, r) == -p.exploration;
    }
    AheadIsChosen(scores, WorldRoute);
  }
}
