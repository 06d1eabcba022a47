/** One consolidation cycle (sleep.py): what each stage picks, the memory set the stages share, and the
    events the cycle leaves behind. */
module Sleep {
  import opened EventLog
  import opened Basics
  import opened SleepSearch
  import M = MentalState

  const RECENT_WINDOW := 15
  const MAX_REACTIVATIONS := 3
  const DREAM_MIN := 3

  // ------------------------------------------------------------- observation

  function Visible(log: Log, lo: nat): (s: seq<nat>)
    ensures forall i | 0 <= i < |s| :: lo <= s[i] < |log| && !log[s[i]].system
    ensures forall i, j | 0 <= i < j < |s| :: s[i] < s[j]
    decreases |log| - lo
  {
    if lo >= |log| then [] else (if log[lo].system then [] else [lo]) + Visible(log, lo + 1)
  }

  /** The visible ones among the last rows of the log, oldest first. */
  function Recent(log: Log): seq<nat> {
    Visible(log, if |log| >= RECENT_WINDOW then |log| - RECENT_WINDOW else 0)
  }

  function Keep(log: Log, ps: seq<nat>, p: Event -> bool): (s: seq<nat>)
    ensures forall e :: e in s <==> e in ps && e < |log| && p(log[e])
    ensures Distinct(ps) ==> Distinct(s)
  {
    if ps == [] then [] else
      var s, e := Keep(log, ps[..|ps| - 1], p), ps[|ps| - 1];
      assert ps == ps[..|ps| - 1] + [e];
      if e < |log| && p(log[e]) then s + [e] else s
  }

  predicate HasText(e: Event) {
    e.text != ""
  }

  predicate IsWordedThought(e: Event) {
    e.body.ThoughtCreated? && e.text != ""
  }

  function Worded(log: Log): seq<nat> {
    Keep(log, Recent(log), HasText)
  }

  function Thoughts(log: Log): seq<nat> {
    Keep(log, Recent(log), IsWordedThought)
  }

  function Free(ps: seq<nat>, used: set<nat>): (s: seq<nat>)
    ensures forall e :: e in s <==> e in ps && e !in used
  {
    if ps == [] then [] else
      var s, e := Free(ps[..|ps| - 1], used), ps[|ps| - 1];
      assert ps == ps[..|ps| - 1] + [e];
      if e !in used then s + [e] else s
  }

  // -------------------------------------------------------------- the stages

  type Pair = (nat, nat)

  function Ids(p: Pair): set<nat> {
    {p.0, p.1}
  }

  function AllIds(ps: seq<Pair>): set<nat> {
    if ps == [] then {} else AllIds(ps[..|ps| - 1]) + Ids(ps[|ps| - 1])
  }

  function SetOf(s: seq<nat>): set<nat> {
    set e | e in s
  }

  /** Active threads whose last event is outside the recent window. */
  function IdleOf(active: seq<Option<string>>, threads: M.Threads, recent: seq<nat>): seq<Option<string>> {
    if active == [] then [] else
      var rest, t := IdleOf(active[..|active| - 1], threads, recent), active[|active| - 1];
      if t in threads && threads[t].last !in recent then rest + [t] else rest
  }

  /** How a stage pairs a memory, given the memories already taken. */
  type Picker = (nat, set<nat>) -> Option<Pair>

  /** The reactivations found among the first `n` forgotten memories; memories of `used` are taken. */
  function Revived(pick: Picker, forgotten: seq<nat>, used: set<nat>, n: nat): (ps: seq<Pair>)
    requires n <= |forgotten|
    ensures |ps| <= MAX_REACTIVATIONS
  {
    if n == 0 then [] else
      var ps := Revived(pick, forgotten, used, n - 1);
      if |ps| == MAX_REACTIVATIONS then ps else
        var pair := pick(forgotten[n - 1], used + AllIds(ps));
        if pair.Some? then ps + [pair.value] else ps
  }

  /** A free, forgotten memory with its closest free companion in the recent window, if close enough. */
  function RevivalOf(log: Log, h: nat, sim: Sim, used: set<nat>): Option<Pair> {
    if !Revivable(log, h, used) then None else
      var b := BestFor(h, Worded(log), sim, used, |Worded(log)|);
      if b.Some? && sim(h, b.value) >= RELATED then Some((h, b.value)) else None
  }

  function Reviver(log: Log, sim: Sim): Picker {
    (h: nat, used: set<nat>) => RevivalOf(log, h, sim, used)
  }

  /** A picker never takes a memory that is already taken. */
  ghost predicate TakesFree(pick: Picker) {
    forall h: nat, used: set<nat> | pick(h, used).Some? :: Ids(pick(h, used).value) !! used
  }

  lemma ReviverTakesFree(log: Log, sim: Sim)
    ensures TakesFree(Reviver(log, sim))
  {
    var pick := Reviver(log, sim);
    forall h: nat, used: set<nat> | pick(h, used).Some? ensures Ids(pick(h, used).value) !! used {
      assert pick(h, used) == RevivalOf(log, h, sim, used);
    }
  }

  predicate Revivable(log: Log, h: nat, used: set<nat>) {
    h < |log| && log[h].text != "" && h !in used && h !in Recent(log)
  }

  /** `pair` is the first most similar fitting pair of `cand`, if there is one. */
  ghost predicate Picks(cand: seq<nat>, sim: Sim, fit: Fit, pair: Option<Pair>) {
    exists best: Option<Pair> {:trigger BestPair(cand, sim, fit, |cand|, 0, best)} ::
      BestPair(cand, sim, fit, |cand|, 0, best) && pair == MemoriesAt(cand, best)
  }

  function MemoriesAt(cand: seq<nat>, best: Option<Pair>): Option<Pair> {
    if best.Some? && best.value.0 < |cand| && best.value.1 < |cand|
    then Some((cand[best.value.0], cand[best.value.1])) else None
  }

  function FamilyAt(log: Log, e: nat): string {
    if e < |log| then Family(TypeName(log[e].body)) else ""
  }

  function AcrossFamilies(log: Log, sim: Sim): Fit {
    (a: nat, b: nat) => FamilyAt(log, a) != FamilyAt(log, b) && sim(a, b) >= RELATED
  }

  function AnyTwo(): Fit {
    (a: nat, b: nat) => true
  }

  // ---------------------------------------------------------------- the plan

  datatype SelfOutcome = Untried | Deduplicated | Born(first: nat, second: nat, title: string)

  /** What the memory stages of one cycle pick. */
  datatype Memories = Memories(merged: seq<nat>, idle: seq<Option<string>>, revived: seq<Pair>, cross: Option<Pair>,
                               dream: Option<Pair>)

  datatype Plan = Plan(mem: Memories, self: SelfOutcome)

  /** The memories the four consolidating stages take, one set for each event they write. */
  function Takings(p: Memories): seq<set<nat>> {
    (if p.merged == [] then [] else [SetOf(p.merged)]) + PairSets(p.revived)
    + PairSets(if p.cross.Some? then [p.cross.value] else [])
    + PairSets(if p.dream.Some? then [p.dream.value] else [])
  }

  function PairSets(ps: seq<Pair>): (s: seq<set<nat>>)
    ensures |s| == |ps|
  {
    if ps == [] then [] else PairSets(ps[..|ps| - 1]) + [Ids(ps[|ps| - 1])]
  }

  function OptIds(p: Option<Pair>): set<nat> {
    if p.Some? then Ids(p.value) else {}
  }

  /** The plan follows the rules of the four memory stages on the log `log`. */
  ghost predicate FollowsRules(log: Log, forgotten: seq<nat>, sim: Sim, dreams: bool, p: Memories) {
    var used1 := SetOf(p.merged);
    var used2 := used1 + AllIds(p.revived);
    var used3 := used2 + OptIds(p.cross);
    && IsCluster(Thoughts(log), sim, p.merged)
    && p.revived == Revived(Reviver(log, sim), forgotten, used1, |forgotten|)
    && Picks(Free(Worded(log), used2), sim, AcrossFamilies(log, sim), p.cross)
    && if dreams && |Thoughts(log)| >= DREAM_MIN then Picks(Free(Thoughts(log), used3), sim, AnyTwo(), p.dream)
       else p.dream.None?
  }

  // ------------------------------------------------------ no memory used twice

  ghost predicate Disjoint(ss: seq<set<nat>>) {
    forall i, j | 0 <= i < j < |ss| :: ss[i] !! ss[j]
  }

  function Union(ss: seq<set<nat>>): set<nat> {
    if ss == [] then {} else Union(ss[..|ss| - 1]) + ss[|ss| - 1]
  }

  lemma {:induction false} UnionHolds(ss: seq<set<nat>>, i: nat)
    requires i < |ss|
    ensures ss[i] <= Union(ss)
  {
    if i < |ss| - 1 {
      UnionHolds(ss[..|ss| - 1], i);
    }
  }

  lemma DisjointSnoc(ss: seq<set<nat>>, s: set<nat>)
    requires Disjoint(ss) && s !! Union(ss)
    ensures Disjoint(ss + [s]) && Union(ss + [s]) == Union(ss) + s
  {
    assert (ss + [s])[..|ss|] == ss;
    forall i | 0 <= i < |ss| ensures ss[i] !! s {
      UnionHolds(ss, i);
    }
  }

  lemma AllIdsSnoc(ps: seq<Pair>, pair: Pair)
    ensures AllIds(ps + [pair]) == AllIds(ps) + Ids(pair) && PairSets(ps + [pair]) == PairSets(ps) + [Ids(pair)]
  {
    assert (ps + [pair])[..|ps|] == ps;
  }

  /** Reactivations take memories that are free, each once. */
  lemma {:induction false} RevivedDisjoint(pick: Picker, forgotten: seq<nat>, ss: seq<set<nat>>, n: nat)
    requires n <= |forgotten| && Disjoint(ss) && TakesFree(pick)
    ensures var ps := Revived(pick, forgotten, Union(ss), n);
            Disjoint(ss + PairSets(ps)) && Union(ss + PairSets(ps)) == Union(ss) + AllIds(ps)
  {
    if n == 0 {
      assert ss + PairSets([]) == ss;
    } else {
      RevivedDisjoint(pick, forgotten, ss, n - 1);
      var ps := Revived(pick, forgotten, Union(ss), n - 1);
      var pair := pick(forgotten[n - 1], Union(ss) + AllIds(ps));
      if pair.Some? {
        DisjointPair(ss, ps, pair.value);
      }
    }
  }

  lemma DisjointPair(ss: seq<set<nat>>, ps: seq<Pair>, pair: Pair)
    requires Disjoint(ss + PairSets(ps)) && Union(ss + PairSets(ps)) == Union(ss) + AllIds(ps)
    ensures Ids(pair) !! Union(ss) + AllIds(ps) ==>
              var more := ss + PairSets(ps + [pair]);
              Disjoint(more) && Union(more) == Union(ss) + AllIds(ps + [pair])
  {
    if Ids(pair) !! Union(ss) + AllIds(ps) {
      AllIdsSnoc(ps, pair);
      DisjointSnoc(ss + PairSets(ps), Ids(pair));
      assert ss + PairSets(ps + [pair]) == ss + PairSets(ps) + [Ids(pair)];
    }
  }

  lemma PickedIsFree(ps: seq<nat>, used: set<nat>, sim: Sim, fit: Fit, pair: Option<Pair>)
    requires Picks(Free(ps, used), sim, fit, pair) && pair.Some?
    ensures pair.value.0 in ps && pair.value.1 in ps && Ids(pair.value) !! used
  {
    var cand := Free(ps, used);
    var best: Option<Pair> :| BestPair(cand, sim, fit, |cand|, 0, best) && pair == MemoriesAt(cand, best);
    assert cand[best.value.0] in cand && cand[best.value.1] in cand;
  }

  lemma OneMore(ss: seq<set<nat>>, p: Option<Pair>)
    requires Disjoint(ss) && (p.Some? ==> Ids(p.value) !! Union(ss))
    ensures var more := ss + PairSets(if p.Some? then [p.value] else []);
            Disjoint(more) && Union(more) == Union(ss) + OptIds(p)
  {
    if p.Some? {
      DisjointSnoc(ss, Ids(p.value));
      assert [p.value][..0] == [];
      assert ss + PairSets([p.value]) == ss + [Ids(p.value)];
    } else {
      assert ss + PairSets([]) == ss;
    }
  }

  /** Within a cycle no memory is consolidated twice, and at most three memories are reactivated. */
  lemma NoMemoryTwice(log: Log, forgotten: seq<nat>, sim: Sim, dreams: bool, p: Memories)
    requires FollowsRules(log, forgotten, sim, dreams, p)
    ensures Disjoint(Takings(p)) && |p.revived| <= MAX_REACTIVATIONS
  {
    var ss: seq<set<nat>> := if p.merged == [] then [] else [SetOf(p.merged)];
    assert Union(ss) == SetOf(p.merged);
    ReviverTakesFree(log, sim);
    RevivedDisjoint(Reviver(log, sim), forgotten, ss, |forgotten|);
    var ss2 := ss + PairSets(p.revived);
    if p.cross.Some? {
      PickedIsFree(Worded(log), Union(ss2), sim, AcrossFamilies(log, sim), p.cross);
    }
    OneMore(ss2, p.cross);
    var ss3 := ss2 + PairSets(if p.cross.Some? then [p.cross.value] else []);
    if p.dream.Some? {
      PickedIsFree(Thoughts(log), Union(ss3), sim, AnyTwo(), p.dream);
    }
    OneMore(ss3, p.dream);
  }
}
