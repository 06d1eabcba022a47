/** What each signal does to the route scores (route_policy.py), said of the scores that compete, and what a
    user who has just spoken can count on. */
module RouteSignals {
  import opened Basics
  import opened EventLog
  import opened RoutePolicy
  import opened RoutePromises

  /** The two states give every route the same score, except that the second gives route `r` `gain` more. */
  ghost predicate Lifts(lo: State, hi: State, p: Params, ds: seq<real>, r: Route, gain: real)
    requires |ds| == |ROUTES|
  {
    && Score(hi, p, ds, r) == Score(lo, p, ds, r) + gain
    && forall q: Route | q != r :: Score(hi, p, ds, q) == Score(lo, p, ds, q)
  }

  lemma SameFatigue(lo: State, hi: State, p: Params, r: Route)
    requires lo.history == hi.history && lo.topics == hi.topics
    ensures Fatigue(hi, p, r) == Fatigue(lo, p, r)
  {
    assert Window(hi, p) == Window(lo, p) && TopicPull(hi) == TopicPull(lo);
  }

  /** What moves the weight of a route moves its score. */
  lemma ScoreMoves(lo: State, hi: State, p: Params, ds: seq<real>, r: Route, gain: real)
    requires |ds| == |ROUTES| && lo.history == hi.history && lo.topics == hi.topics
    requires Base(hi, r) == Base(lo, r) + gain && (r == WorldRoute ==> gain == 0.0)
    ensures Score(hi, p, ds, r) == Score(lo, p, ds, r) + gain
  {
    SameFatigue(lo, hi, p, r);
    Summed(Base(lo, r), Base(hi, r), Fatigue(lo, p, r), Noise(p, ds, r), gain, r == WorldRoute);
  }

  lemma Summed(lo: real, hi: real, fatigue: real, noise: real, gain: real, held: bool)
    requires hi == lo + gain && (held ==> gain == 0.0)
    ensures (if held then Min(hi + fatigue + noise, -1.0) else hi + fatigue + noise)
            == (if held then Min(lo + fatigue + noise, -1.0) else lo + fatigue + noise) + gain
  {
  }

  lemma OneIsLifted(lo: State, hi: State, p: Params, ds: seq<real>, r: Route, gain: real)
    requires |ds| == |ROUTES| && lo.history == hi.history && lo.topics == hi.topics && r != WorldRoute
    requires Base(hi, r) == Base(lo, r) + gain && forall q: Route | q != r :: Base(hi, q) == Base(lo, q)
    ensures Lifts(lo, hi, p, ds, r, gain)
  {
    ScoreMoves(lo, hi, p, ds, r, gain);
    forall q: Route | q != r ensures Score(hi, p, ds, q) == Score(lo, p, ds, q) {
      ScoreMoves(lo, hi, p, ds, q, 0.0);
    }
  }

  /** With nothing to speak for any route: the scores before fatigue and noise. */
  lemma NoSignals(s: State, p: Params, ds: seq<real>)
    requires |ds| == |ROUTES| && s.history == [] && s.topics == [] && p.exploration <= 0.0
    requires s.active == 0 && s.dormant == 0 && s.added > 0 && s.total >= 20 && s.idleS <= 86400.0
    requires !s.userSpoke && !s.explored && !s.revival && s.concentration <= 0.5
    ensures Score(s, p, ds, Continuity) == 0.15
    ensures Score(s, p, ds, Revisit) == Score(s, p, ds, Personal) == Score(s, p, ds, Rest) == 0.12
    ensures Score(s, p, ds, Distant) == Score(s, p, ds, Serendipity) == Score(s, p, ds, SelfLook) == 0.08
    ensures Score(s, p, ds, WorldRoute) == -1.0
  {
  }

  lemma UserSpeaks(s: State, p: Params, ds: seq<real>)
    requires |ds| == |ROUTES|
    ensures Lifts(s.(userSpoke := false), s.(userSpoke := true), p, ds, Personal, 0.5)
  {
    OneIsLifted(s.(userSpoke := false), s.(userSpoke := true), p, ds, Personal, 0.5);
  }

  lemma Explores(s: State, p: Params, ds: seq<real>)
    requires |ds| == |ROUTES|
    ensures Lifts(s.(explored := false), s.(explored := true), p, ds, Serendipity, 0.35)
  {
    OneIsLifted(s.(explored := false), s.(explored := true), p, ds, Serendipity, 0.35);
  }

  lemma IsYoung(s: State, p: Params, ds: seq<real>, few: nat, many: nat)
    requires |ds| == |ROUTES| && few < 20 <= many
    ensures Lifts(s.(total := many), s.(total := few), p, ds, SelfLook, 0.25)
  {
    OneIsLifted(s.(total := many), s.(total := few), p, ds, SelfLook, 0.25);
  }

  /** Concentration counts from one half on, at one half. */
  lemma Concentrates(s: State, p: Params, ds: seq<real>, c: real)
    requires |ds| == |ROUTES|
    ensures Lifts(s.(concentration := 0.5), s.(concentration := c), p, ds, Distant,
                  if c <= 0.5 then 0.0 else 0.5 * (c - 0.5))
  {
    OneIsLifted(s.(concentration := 0.5), s.(concentration := c), p, ds, Distant,
                if c <= 0.5 then 0.0 else 0.5 * (c - 0.5));
  }

  /** A day without meaningful activity favours rest, unless nothing is new, which favours it anyway. */
  lemma IdlesLong(s: State, p: Params, ds: seq<real>, short: real, long: real)
    requires |ds| == |ROUTES| && short <= 86400.0 < long
    ensures Lifts(s.(idleS := short), s.(idleS := long), p, ds, Rest, if s.added == 0 then 0.0 else 0.23)
  {
    OneIsLifted(s.(idleS := short), s.(idleS := long), p, ds, Rest, if s.added == 0 then 0.0 else 0.23);
  }

  /** An active thread favours continuity, half as much when nothing is new. */
  lemma HasActive(s: State, p: Params, ds: seq<real>, n: nat)
    requires |ds| == |ROUTES| && n > 0
    ensures Lifts(s.(active := 0), s.(active := n), p, ds, Continuity, if s.added == 0 then 0.225 else 0.45)
  {
    OneIsLifted(s.(active := 0), s.(active := n), p, ds, Continuity, if s.added == 0 then 0.225 else 0.45);
  }

  /** Two dormant threads are as good as any more. */
  lemma HasDormant(s: State, p: Params, ds: seq<real>, n: nat)
    requires |ds| == |ROUTES|
    ensures Lifts(s.(dormant := 0), s.(dormant := n), p, ds, Revisit,
                  if n == 0 then 0.0 else if n == 1 then 0.2 else 0.4)
  {
    OneIsLifted(s.(dormant := 0), s.(dormant := n), p, ds, Revisit,
                if n == 0 then 0.0 else if n == 1 then 0.2 else 0.4);
  }

  lemma HasRevival(s: State, p: Params, ds: seq<real>)
    requires |ds| == |ROUTES|
    ensures Lifts(s.(revival := false), s.(revival := true), p, ds, Revisit, s.lift)
  {
    OneIsLifted(s.(revival := false), s.(revival := true), p, ds, Revisit, s.lift);
  }

  /** Nothing new: rest gains, and continuity loses half of what an active thread gave it. */
  lemma NothingNew(s: State, p: Params, ds: seq<real>, n: nat)
    requires |ds| == |ROUTES| && n > 0 && s.idleS <= 86400.0
    ensures var none, some := s.(added := 0), s.(added := n);
            && Score(none, p, ds, Rest) == Score(some, p, ds, Rest) + 0.38
            && Score(none, p, ds, Continuity) == Score(some, p, ds, Continuity) - (if s.active > 0 then 0.225 else 0.0)
            && forall r: Route | r != Rest && r != Continuity :: Score(none, p, ds, r) == Score(some, p, ds, r)
  {
    var none, some := s.(added := 0), s.(added := n);
    ScoreMoves(some, none, p, ds, Rest, 0.38);
    ScoreMoves(some, none, p, ds, Continuity, if s.active > 0 then -0.225 else 0.0);
    forall r: Route | r != Rest && r != Continuity ensures Score(none, p, ds, r) == Score(some, p, ds, r) {
      ScoreMoves(some, none, p, ds, r, 0.0);
    }
  }

  // ------------------------------------------------------- what repeats itself

  /** How much of a list one value takes up. */
  function PartOf<T(==)>(xs: seq<T>, x: T): real
    requires xs != []
  {
    multiset(xs)[x] as real / |xs| as real
  }

  /** The recent routes: one that fills more than half of them is damped, and the four ways of leaving gain. */
  lemma RoutesTire(hist: seq<Route>, gain: real, top: Route, r: Route)
    requires |hist| >= 2 && 2 * multiset(hist)[top] > |hist|
    ensures Damping(hist, gain, r)
            == if r == top then -0.5 * PartOf(hist, top)
               else if r.Revisit? || r.Distant? || r.Serendipity? || r.Rest? then gain * PartOf(hist, top) else 0.0
  {
    HalfOf(multiset(hist)[top], |hist|);
    assert Dominant(hist) == Some(top) && Share(hist, top) == PartOf(hist, top);
    DampedBy(hist, gain, top, PartOf(hist, top), r);
  }

  lemma DampedBy(hist: seq<Route>, gain: real, top: Route, part: real, r: Route)
    requires Dominant(hist) == Some(top) && part == Share(hist, top)
    ensures Damping(hist, gain, r)
            == if r == top then -0.5 * part
               else if r.Revisit? || r.Distant? || r.Serendipity? || r.Rest? then gain * part else 0.0
  {
  }

  lemma NothingTires(hist: seq<Route>, gain: real, r: Route)
    requires |hist| < 2 || forall t: Route :: 2 * multiset(hist)[t] <= |hist|
    ensures Damping(hist, gain, r) == 0.0
  {
    if |hist| >= 2 && Dominant(hist).Some? {
      HalfOf(multiset(hist)[Dominant(hist).value], |hist|);
    }
  }

  /** No value occurs more often among the first `k` than the count says, and one occurs as often. */
  lemma {:induction false} TopCountIsMost<T>(xs: seq<T>, k: nat)
    requires k <= |xs|
    ensures forall i | 0 <= i < k :: multiset(xs)[xs[i]] <= TopCount(xs, k)
    ensures k > 0 ==> exists i | 0 <= i < k :: multiset(xs)[xs[i]] == TopCount(xs, k)
  {
    if k > 0 {
      TopCountIsMost(xs, k - 1);
      assert multiset(xs)[xs[k - 1]] <= TopCount(xs, k);
      if k == 1 {
        assert xs[0] in multiset(xs);
      }
    }
  }

  lemma TopicPullIs(s: State, t: string)
    requires s.topics != [] && forall u: string :: multiset(s.topics)[u] <= multiset(s.topics)[t]
    ensures TopicPull(s) == if PartOf(s.topics, t) > 0.6 then PartOf(s.topics, t) else 0.0
  {
    TopCountIsMost(s.topics, |s.topics|);
    var i :| 0 <= i < |s.topics| && multiset(s.topics)[s.topics[i]] == TopCount(s.topics, |s.topics|);
    assert multiset(s.topics)[t] > 0;
    var j :| 0 <= j < |s.topics| && s.topics[j] == t;
  }

  /** The most frequent topic, once it fills more than six tenths of the recent ones, speaks for distant material and
      half as much for serendipity. */
  lemma TopicDominates(s: State, p: Params, ds: seq<real>, t: string)
    requires |ds| == |ROUTES|
    requires s.topics != [] && forall u: string :: multiset(s.topics)[u] <= multiset(s.topics)[t]
    ensures var part := PartOf(s.topics, t);
            var pull := if part > 0.6 then part else 0.0;
            var none := s.(topics := []);
            && Score(s, p, ds, Distant) == Score(none, p, ds, Distant) + 0.4 * pull
            && Score(s, p, ds, Serendipity) == Score(none, p, ds, Serendipity) + 0.2 * pull
            && forall r: Route | r != Distant && r != Serendipity :: Score(s, p, ds, r) == Score(none, p, ds, r)
  {
    TopicPullIs(s, t);
  }

  /** The recent history is the newest entries, up to the window, and it acts on the scores by its damping alone. */
  lemma HistoryActs(s: State, p: Params, ds: seq<real>, r: Route)
    requires |ds| == |ROUTES| && r != WorldRoute
    ensures var hist := if |s.history| <= p.window then s.history else s.history[..p.window];
            Score(s, p, ds, r) == Score(s.(history := []), p, ds, r) + Damping(hist, p.gain, r)
  {
    assert |s.history| == p.window ==> s.history[..p.window] == s.history;
  }

  // ------------------------------------------------------ a user is heard

  /** A user has just spoken, a thread is active and something is new; neither route dominates the recent history. */
  ghost predicate Addressed(s: State, p: Params) {
    && s.userSpoke && s.active > 0 && s.added > 0
    && Dominant(Window(s, p)) != Some(Personal) && Dominant(Window(s, p)) != Some(Continuity)
  }

  lemma AddressedScores(s: State, p: Params, ds: seq<real>)
    requires Addressed(s, p) && |ds| == |ROUTES|
    ensures Score(s, p, ds, Personal) == 0.62 + Noise(p, ds, Personal)
    ensures Score(s, p, ds, Continuity) == 0.60 + Noise(p, ds, Continuity)
  {
  }

  /** Then the personal route beats continuity whatever the draws, if and only if the perturbation is at most 0.01. */
  lemma UserIsHeardIff(s: State, p: Params)
    requires Addressed(s, p)
    ensures (forall ds: seq<real> | Draws(ds) :: Score(s, p, ds, Continuity) < Score(s, p, ds, Personal))
            <==> p.exploration <= 0.01
  {
    if p.exploration <= 0.01 {
      forall ds: seq<real> | Draws(ds) ensures Score(s, p, ds, Continuity) < Score(s, p, ds, Personal) {
        AddressedScores(s, p, ds);
        NoiseBounds(p, ds, Personal);
        NoiseBounds(p, ds, Continuity);
      }
    } else {
      var ds := SomeLean(p, 0.01);
      AddressedScores(s, p, ds);
      assert Draws(ds) && Score(s, p, ds, Continuity) >= Score(s, p, ds, Personal);
    }
  }

  /** Without noise, and with nothing else to speak for a route, the user is answered. */
  lemma UserIsAnswered(s: State, p: Params, ds: seq<real>, scores: Scores)
    requires Addressed(s, p) && Draws(ds) && p.exploration <= 0.0 && Scored(scores, s, p, ds)
    requires s.dormant == 0 && !s.revival && s.total >= 20 && !s.explored && s.concentration <= 1.0
    requires s.topics == [] && s.history == [] && s.idleS <= 86400.0
    ensures ArgMax(scores) == Personal
  {
    AddressedScores(s, p, ds);
    forall r | r in scores && r != Personal ensures scores[r] < scores[Personal] {
      assert scores[r] == Score(s, p, ds, r);
    }
    AheadIsChosen(scores, Personal);
  }
}
