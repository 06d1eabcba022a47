/** What a thought grew from (private_projects.py, the nested _reachable): a depth-first closure over
    recalled ids, with a dictionary shared by all roots and a cycle guard renewed for each. */
module Reachability {
  import opened EventLog

  /** The ids an id leads to. Only an event of the log leads anywhere. */
  function Recalls(log: Log, r: Ref): seq<Ref> {
    if Resolves(log, r) then log[r.pos].recalled else []
  }

  ghost predicate IsTrail(log: Log, p: seq<Ref>) {
    && p != []
    && (forall i | 0 < i < |p| :: p[i] in Recalls(log, p[i - 1]))
  }

  /** The reflexive and transitive closure of recalling. */
  ghost predicate Reaches(log: Log, a: Ref, b: Ref) {
    exists p :: IsTrail(log, p) && p[0] == a && p[|p| - 1] == b
  }

  lemma ReachesSelf(log: Log, a: Ref)
    ensures Reaches(log, a, a)
  {
    assert IsTrail(log, [a]);
  }

  lemma ReachesTransitive(log: Log, a: Ref, b: Ref, c: Ref)
    requires Reaches(log, a, b) && Reaches(log, b, c)
    ensures Reaches(log, a, c)
  {
    var p :| IsTrail(log, p) && p[0] == a && p[|p| - 1] == b;
    var q :| IsTrail(log, q) && q[0] == b && q[|q| - 1] == c;
    var r := p + q[1..];
    forall i | 0 < i < |r| ensures r[i] in Recalls(log, r[i - 1]) {
      if i >= |p| { assert r[i] == q[i - |p| + 1] && r[i - 1] == q[i - |p|]; }
    }
    assert IsTrail(log, r) && r[0] == a && r[|r| - 1] == c;
  }

  lemma ReachesChild(log: Log, a: Ref, c: Ref)
    requires c in Recalls(log, a)
    ensures Reaches(log, a, c)
  {
    assert IsTrail(log, [a, c]);
  }

  /** Leaving `a` for something else, the last departure goes to a child other than `a`. */
  lemma Departure(log: Log, a: Ref, b: Ref) returns (c: Ref)
    requires Reaches(log, a, b) && a != b
    ensures c in Recalls(log, a) && c != a && Reaches(log, c, b)
  {
    var p :| IsTrail(log, p) && p[0] == a && p[|p| - 1] == b;
    c := DepartureOf(log, p);
  }

  lemma DepartureOf(log: Log, p: seq<Ref>) returns (c: Ref)
    requires IsTrail(log, p) && p[0] != p[|p| - 1]
    ensures c in Recalls(log, p[0]) && c != p[0] && Reaches(log, c, p[|p| - 1])
  {
    assert IsTrail(log, p[1..]);
    if p[1] == p[0] {
      c := DepartureOf(log, p[1..]);
    } else {
      c := p[1];
    }
  }

  /** An id leads to itself and, if it is an event of the log, to whatever the ids it recalled lead to. */
  lemma ReachesIs(log: Log, a: Ref, b: Ref)
    ensures Reaches(log, a, b) <==>
              a == b || (a.Evt? && a.pos < |log| && exists c :: c in log[a.pos].recalled && Reaches(log, c, b))
  {
    if a == b {
      ReachesSelf(log, a);
    } else if Reaches(log, a, b) {
      var c := Departure(log, a, b);
      assert c in log[a.pos].recalled;
    } else if a.Evt? && a.pos < |log| {
      forall c | c in log[a.pos].recalled ensures !Reaches(log, c, b) {
        ReachesChild(log, a, c);
        if Reaches(log, c, b) { ReachesTransitive(log, a, c, b); }
      }
    }
  }

  /** Two different ids that lead to each other. */
  ghost predicate Entwined(log: Log, a: Ref, b: Ref) {
    a != b && Reaches(log, a, b) && Reaches(log, b, a)
  }

  /** Nothing reachable from `x` lies on a cycle of two or more ids. */
  ghost predicate Untangled(log: Log, x: Ref) {
    forall a, b {:trigger Entwined(log, a, b)} | Reaches(log, x, a) && Reaches(log, x, b) :: !Entwined(log, a, b)
  }

  lemma UntangledBelow(log: Log, x: Ref, y: Ref)
    requires Untangled(log, x) && Reaches(log, x, y)
    ensures Untangled(log, y)
  {
    forall a, b | Reaches(log, y, a) && Reaches(log, y, b) ensures !Entwined(log, a, b) {
      ReachesTransitive(log, x, y, a);
      ReachesTransitive(log, x, y, b);
    }
  }

  ghost predicate Sound(log: Log, x: Ref, reach: set<Ref>) {
    forall y {:trigger Reaches(log, x, y)} | y in reach :: Reaches(log, x, y)
  }

  ghost predicate Full(log: Log, x: Ref, reach: set<Ref>) {
    forall y {:trigger Reaches(log, x, y)} | Reaches(log, x, y) :: y in reach
  }

  /** Every id the walk can meet. */
  ghost predicate Universe(log: Log, all: set<Ref>) {
    forall r, c {:trigger r in all, c in Recalls(log, r)} | r in all && c in Recalls(log, r) :: c in all
  }

  /** A set closed under recalling with no two of its ids entwined. */
  ghost predicate Calm(log: Log, calm: set<Ref>) {
    && (forall x, c {:trigger x in calm, c in Recalls(log, x)} | x in calm && c in Recalls(log, x) :: c in calm)
    && (forall a, b {:trigger Entwined(log, a, b)} | a in calm && b in calm :: !Entwined(log, a, b))
  }

  // ------------------------------------------------------------- the memo

  type Memo = map<Ref, set<Ref>>

  /** An entry is right as far as it goes, and whole for an id that lies clear of every cycle. */
  ghost predicate GoodEntry(log: Log, calm: set<Ref>, x: Ref, reach: set<Ref>) {
    x in reach && Sound(log, x, reach) && (x in calm ==> Full(log, x, reach))
  }

  ghost predicate GoodEntries(log: Log, calm: set<Ref>, memo: Memo) {
    forall x {:trigger x in memo} | x in memo :: GoodEntry(log, calm, x, memo[x])
  }

  /** The children of a filled entry are filled or still open. */
  ghost predicate ChildrenMet(log: Log, memo: Memo, open: set<Ref>) {
    forall x, c {:trigger x in memo, c in Recalls(log, x)} | x in memo && c in Recalls(log, x) :: c in memo || c in open
  }

  /** `rank` numbers the entries in the order they were filled; an entry holds nothing filled after it. */
  ghost predicate Ranked(memo: Memo, rank: map<Ref, nat>) {
    && rank.Keys == memo.Keys
    && (forall x {:trigger x in rank} | x in rank :: rank[x] < |rank|)
    && (forall x, y {:trigger rank[x], rank[y]} | x in rank && y in rank && rank[x] == rank[y] :: x == y)
    && (forall x, y {:trigger y in memo[x]} | x in memo && y in memo[x] :: y in memo && rank[y] <= rank[x])
  }

  lemma RankedFill(memo: Memo, rank: map<Ref, nat>, eid: Ref, reach: set<Ref>)
    requires Ranked(memo, rank) && eid !in memo && reach <= memo.Keys + {eid}
    ensures Ranked(memo[eid := reach], rank[eid := |rank|])
  {
    assert rank[eid := |rank|].Keys == rank.Keys + {eid};
    assert |rank[eid := |rank|]| == |rank| + 1 by {
      assert |rank[eid := |rank|].Keys| == |rank.Keys| + 1;
    }
  }

  /** Entries are filled once and never changed. */
  ghost predicate Extends(memo: Memo, memo': Memo) {
    memo.Keys <= memo'.Keys && forall x {:trigger x in memo} | x in memo :: memo'[x] == memo[x]
  }

  lemma FillExtends(before: Memo, memo: Memo, eid: Ref, reach: set<Ref>)
    requires Extends(before, memo) && eid !in memo && memo.Keys - before.Keys <= reach && eid in reach
    ensures Extends(before, memo[eid := reach]) && memo[eid := reach].Keys - before.Keys <= reach
  {
  }

  /** What the loop over the first `n` children of `eid` has gathered. */
  ghost predicate Gathered(log: Log, calm: set<Ref>, eid: Ref, n: nat, reach: set<Ref>) {
    && n <= |Recalls(log, eid)|
    && eid in reach && Sound(log, eid, reach)
    && (eid in calm ==> forall j | 0 <= j < n && Recalls(log, eid)[j] != eid :: Full(log, Recalls(log, eid)[j], reach))
  }

  /** The first `n` children of `eid` lie in `met`. */
  ghost predicate Met(log: Log, eid: Ref, n: nat, met: set<Ref>) {
    n <= |Recalls(log, eid)| && forall j | 0 <= j < n :: Recalls(log, eid)[j] in met
  }

  lemma MetMore(log: Log, eid: Ref, n: nat, met: set<Ref>, met': set<Ref>)
    requires n < |Recalls(log, eid)| && Met(log, eid, n, met) && met <= met' && Recalls(log, eid)[n] in met'
    ensures Met(log, eid, n + 1, met')
  {
  }

  ghost predicate Bookkept(all: set<Ref>, filled: set<Ref>, open: set<Ref>, seen: set<Ref>) {
    filled + open <= all && open <= seen && seen <= filled + open && open !! filled
  }

  ghost predicate MemoOk(log: Log, calm: set<Ref>, memo: Memo, rank: map<Ref, nat>, open: set<Ref>) {
    GoodEntries(log, calm, memo) && ChildrenMet(log, memo, open) && Ranked(memo, rank)
  }

  lemma MemoOpen(log: Log, calm: set<Ref>, memo: Memo, rank: map<Ref, nat>, open: set<Ref>,
                 all: set<Ref>, seen: set<Ref>, eid: Ref)
    requires MemoOk(log, calm, memo, rank, open) && Bookkept(all, memo.Keys, open, seen)
    requires eid in all && eid !in memo && eid !in seen
    ensures MemoOk(log, calm, memo, rank, open + {eid})
    ensures Bookkept(all, memo.Keys, open + {eid}, seen + {eid})
  {
  }

  lemma MemoFill(
    log: Log, calm: set<Ref>, memo: Memo, rank: map<Ref, nat>, open: set<Ref>,
    all: set<Ref>, seen: set<Ref>, eid: Ref, reach: set<Ref>)
    requires MemoOk(log, calm, memo, rank, open + {eid}) && eid !in open
    requires Bookkept(all, memo.Keys, open + {eid}, seen)
    requires reach <= memo.Keys + {eid} && Gathered(log, calm, eid, |Recalls(log, eid)|, reach)
    requires Met(log, eid, |Recalls(log, eid)|, memo.Keys + (open + {eid}))
    ensures MemoOk(log, calm, memo[eid := reach], rank[eid := |rank|], open)
    ensures Bookkept(all, memo[eid := reach].Keys, open, seen)
  {
    assert memo[eid := reach].Keys == memo.Keys + {eid};
    EntriesFill(log, calm, memo, eid, reach);
    RankedFill(memo, rank, eid, reach);
    ChildrenFill(log, memo, open, eid, reach);
  }

  lemma EntriesFill(log: Log, calm: set<Ref>, memo: Memo, eid: Ref, reach: set<Ref>)
    requires GoodEntries(log, calm, memo) && Gathered(log, calm, eid, |Recalls(log, eid)|, reach)
    ensures GoodEntries(log, calm, memo[eid := reach])
  {
    GatheredAll(log, calm, eid, reach);
  }

  lemma ChildrenFill(log: Log, memo: Memo, open: set<Ref>, eid: Ref, reach: set<Ref>)
    requires ChildrenMet(log, memo, open + {eid})
    requires Met(log, eid, |Recalls(log, eid)|, memo.Keys + (open + {eid}))
    ensures ChildrenMet(log, memo[eid := reach], open)
  {
  }

  lemma Gather(log: Log, calm: set<Ref>, eid: Ref, n: nat, reach: set<Ref>, more: set<Ref>)
    requires n < |Recalls(log, eid)| && Gathered(log, calm, eid, n, reach)
    requires Sound(log, Recalls(log, eid)[n], more)
    requires eid in calm && Recalls(log, eid)[n] != eid ==> Full(log, Recalls(log, eid)[n], more)
    ensures Gathered(log, calm, eid, n + 1, reach + more)
  {
    var c := Recalls(log, eid)[n];
    ReachesChild(log, eid, c);
    forall y | y in more ensures Reaches(log, eid, y) {
      assert Reaches(log, c, y);
      ReachesTransitive(log, eid, c, y);
    }
  }

  lemma GatheredAll(log: Log, calm: set<Ref>, eid: Ref, reach: set<Ref>)
    requires Gathered(log, calm, eid, |Recalls(log, eid)|, reach)
    ensures GoodEntry(log, calm, eid, reach)
  {
    if eid in calm {
      forall y | Reaches(log, eid, y) ensures y in reach {
        if y != eid {
          var c := Departure(log, eid, y);
          var j :| 0 <= j < |Recalls(log, eid)| && Recalls(log, eid)[j] == c;
          assert Full(log, Recalls(log, eid)[j], reach);
        }
      }
    }
  }

  /** A child that is still open is the parent itself, when the parent lies clear of every cycle. */
  lemma OpenChild(log: Log, calm: set<Ref>, eid: Ref, c: Ref)
    requires Calm(log, calm) && eid in calm && c in Recalls(log, eid) && Reaches(log, c, eid)
    ensures c == eid
  {
    ReachesChild(log, eid, c);
    if c != eid { assert Entwined(log, eid, c); }
  }

  class Closure {
    const log: Log
    ghost const all: set<Ref>
    ghost const calm: set<Ref>
    var transitive: Memo
    var seen: set<Ref>
    ghost var rank: map<Ref, nat>

    /** `open` holds the ids whose call has not returned. */
    ghost predicate Valid(open: set<Ref>)
      reads this
    {
      && Calm(log, calm) && Universe(log, all)
      && Bookkept(all, transitive.Keys, open, seen)
      && MemoOk(log, calm, transitive, rank, open)
    }

    constructor (log: Log, ghost all: set<Ref>, ghost calm: set<Ref>)
      requires Universe(log, all) && Calm(log, calm)
      ensures this.log == log && this.all == all && this.calm == calm && transitive == map[] && Valid({})
    {
      this.log, this.all, this.calm := log, all, calm;
      transitive, seen, rank := map[], {}, map[];
    }

    /** Every entry filled since `before` is reachable from `root`. */
    ghost predicate FilledFrom(before: set<Ref>, root: Ref)
      reads this
    {
      forall x {:trigger x in transitive} | x in transitive && x !in before :: Reaches(log, root, x)
    }

    method Reachable(eid: Ref, ghost open: set<Ref>) returns (reach: set<Ref>)
      requires Valid(open) && eid in all
      requires forall s {:trigger s in open} | s in open :: Reaches(log, s, eid)
      modifies this
      ensures Valid(open)
      ensures Extends(old(transitive), transitive) && old(seen) <= seen
      ensures if eid in open then reach == {} else eid in transitive && reach == transitive[eid]
      ensures FilledFrom(old(transitive.Keys), eid)
      ensures transitive.Keys - old(transitive.Keys) <= reach
      decreases all - seen, 0
    {
      if eid in transitive {
        return transitive[eid];
      }
      if eid in seen {
        return {};
      }
      MemoOpen(log, calm, transitive, rank, open, all, seen, eid);
      seen := seen + {eid};
      ReachesSelf(log, eid);
      forall s | s in open + {eid} ensures Reaches(log, s, eid) { }
      reach := Gathering(eid, open + {eid});
      Fill(eid, reach, open, old(transitive));
    }

    /** After the first `i` recalled ids of `eid`: what was gathered, and what was filled meanwhile. */
    ghost predicate Collected(eid: Ref, i: nat, inside: set<Ref>, before: Memo, reach: set<Ref>)
      requires i <= |Recalls(log, eid)|
      reads this
    {
      && Valid(inside) && Extends(before, transitive) && FilledFrom(before.Keys, eid)
      && transitive.Keys - before.Keys <= reach <= transitive.Keys + {eid} && Gathered(log, calm, eid, i, reach)
      && Met(log, eid, i, transitive.Keys + inside)
    }

    /** The loop over the recalled ids of `eid`. */
    method Gathering(eid: Ref, ghost inside: set<Ref>) returns (reach: set<Ref>)
      requires Valid(inside) && eid in inside
      requires forall s {:trigger s in inside} | s in inside :: Reaches(log, s, eid)
      modifies this
      ensures eid in seen && old(seen) <= seen
      ensures Collected(eid, |Recalls(log, eid)|, inside, old(transitive), reach)
      decreases all - seen, 3
    {
      reach := {eid};
      ReachesSelf(log, eid);
      var recalled := Recalls(log, eid);
      for i := 0 to |recalled|
        invariant old(seen) <= seen
        invariant Collected(eid, i, inside, old(transitive), reach)
      {
        reach := GatherOne(eid, i, inside, old(transitive), reach);
      }
    }

    method GatherOne(eid: Ref, i: nat, ghost inside: set<Ref>, ghost before: Memo, reach: set<Ref>)
      returns (more: set<Ref>)
      requires i < |Recalls(log, eid)| && eid in inside && Collected(eid, i, inside, before, reach)
      requires forall s {:trigger s in inside} | s in inside :: Reaches(log, s, eid)
      modifies this
      ensures old(seen) <= seen && Collected(eid, i + 1, inside, before, more)
      decreases all - seen, 2
    {
      ghost var met := transitive.Keys + inside;
      var found := Child(eid, Recalls(log, eid)[i], inside, before.Keys);
      MetMore(log, eid, i, met, transitive.Keys + inside);
      Gather(log, calm, eid, i, reach, found);
      more := reach + found;
    }

    /** The call of `eid` returns: its entry is filled and it is no longer open. */
    method Fill(eid: Ref, reach: set<Ref>, ghost open: set<Ref>, ghost before: Memo)
      requires eid !in open && Collected(eid, |Recalls(log, eid)|, open + {eid}, before, reach)
      modifies this`transitive, this`rank
      ensures Valid(open) && eid in transitive && transitive[eid] == reach
      ensures Extends(before, transitive) && FilledFrom(before.Keys, eid)
      ensures transitive.Keys - before.Keys <= reach
    {
      MemoFill(log, calm, transitive, rank, open, all, seen, eid, reach);
      FillExtends(before, transitive, eid, reach);
      ReachesSelf(log, eid);
      transitive := transitive[eid := reach];
      rank := rank[eid := |rank|];
    }

    /** One recursive call of the loop. */
    method Child(eid: Ref, rid: Ref, ghost inside: set<Ref>, ghost before: set<Ref>) returns (more: set<Ref>)
      requires Valid(inside) && eid in inside && rid in Recalls(log, eid) && FilledFrom(before, eid)
      requires forall s {:trigger s in inside} | s in inside :: Reaches(log, s, eid)
      modifies this
      ensures Valid(inside)
      ensures Extends(old(transitive), transitive) && old(seen) <= seen
      ensures transitive.Keys - old(transitive.Keys) <= more
      ensures rid in transitive.Keys + inside && more <= transitive.Keys
      ensures Sound(log, rid, more) && (eid in calm && rid != eid ==> Full(log, rid, more))
      ensures FilledFrom(before, eid)
      decreases all - seen, 1
    {
      ReachesChild(log, eid, rid);
      forall s | s in inside ensures Reaches(log, s, rid) {
        ReachesTransitive(log, s, eid, rid);
      }
      more := Reachable(rid, inside);
      forall x | x in transitive && x !in before ensures Reaches(log, eid, x) {
        if x !in old(transitive) { ReachesTransitive(log, eid, rid, x); }
      }
      if rid in inside && eid in calm {
        OpenChild(log, calm, eid, rid);
      }
    }

    /** The loop over the self-thoughts: the guard is renewed for each, the dictionary is not. */
    method CloseOver(roots: seq<Ref>)
      requires Valid({}) && transitive == map[] && forall r | r in roots :: r in all
      modifies this
      ensures Valid({})
      ensures forall r | r in roots :: r in transitive
      ensures AllFromRoots(roots) && Carried(transitive, roots)
    {
      for i := 0 to |roots|
        invariant Valid({}) && AllFromRoots(roots) && Carried(transitive, roots)
        invariant Holds(transitive.Keys, roots, i)
      {
        ghost var before := transitive.Keys;
        Root(roots, roots[i]);
        HoldsMore(before, transitive.Keys, roots, i);
      }
    }

    ghost predicate AllFromRoots(roots: seq<Ref>)
      reads this
    {
      forall x {:trigger FromRoots(log, roots, x)} | x in transitive :: FromRoots(log, roots, x)
    }

    method Root(ghost roots: seq<Ref>, r: Ref)
      requires Valid({}) && r in all && r in roots && AllFromRoots(roots) && Carried(transitive, roots)
      modifies this
      ensures Valid({}) && r in transitive && old(transitive.Keys) <= transitive.Keys
      ensures AllFromRoots(roots) && Carried(transitive, roots)
    {
      seen := {};
      ghost var before, memo := transitive.Keys, transitive;
      var reach := Reachable(r, {});
      assert reach == transitive[r];
      CarriedGrows(memo, transitive, roots, r);
      forall x | x in transitive ensures FromRoots(log, roots, x) {
        if x !in before {
          var i :| 0 <= i < |roots| && roots[i] == r;
          assert Reaches(log, roots[i], x);
        }
      }
    }
  }

  /** Some root's entry holds `x`. */
  ghost predicate InSomeEntry(memo: Memo, roots: seq<Ref>, x: Ref) {
    exists h {:trigger memo[h]} :: h in roots && h in memo && x in memo[h]
  }

  /** Whatever was filled lies in the entry of the root whose call filled it. */
  ghost predicate Carried(memo: Memo, roots: seq<Ref>) {
    forall x {:trigger InSomeEntry(memo, roots, x)} | x in memo :: InSomeEntry(memo, roots, x)
  }

  lemma CarriedGrows(memo: Memo, memo': Memo, roots: seq<Ref>, r: Ref)
    requires Carried(memo, roots) && Extends(memo, memo') && r in roots && r in memo'
    requires memo'.Keys - memo.Keys <= memo'[r]
    ensures Carried(memo', roots)
  {
    forall x | x in memo' ensures InSomeEntry(memo', roots, x) {
      if x in memo {
        assert InSomeEntry(memo, roots, x);
        var h :| h in roots && h in memo && x in memo[h];
        assert x in memo'[h];
      } else {
        assert x in memo'[r];
      }
    }
  }

  /** Entangled or not, what one root reaches stands in the entry of some root. */
  lemma SomeRootHolds(log: Log, memo: Memo, roots: seq<Ref>, r: Ref, y: Ref)
    requires ChildrenMet(log, memo, {}) && Carried(memo, roots) && r in memo && Reaches(log, r, y)
    ensures InSomeEntry(memo, roots, y)
  {
    var p :| IsTrail(log, p) && p[0] == r && p[|p| - 1] == y;
    KeysAreClosed(log, memo, p);
  }

  /** Nothing that a root reaches is missing from all the roots' entries. */
  ghost predicate Complete(log: Log, memo: Memo, roots: seq<Ref>) {
    forall r, y {:trigger Reaches(log, r, y)} | r in roots && Reaches(log, r, y) :: InSomeEntry(memo, roots, y)
  }

  ghost predicate Holds(filled: set<Ref>, roots: seq<Ref>, n: nat)
    requires n <= |roots|
  {
    forall j {:trigger roots[j]} | 0 <= j < n :: roots[j] in filled
  }

  lemma HoldsMore(before: set<Ref>, after: set<Ref>, roots: seq<Ref>, n: nat)
    requires n < |roots| && Holds(before, roots, n) && before <= after && roots[n] in after
    ensures Holds(after, roots, n + 1)
  {
  }

  ghost predicate FromRoots(log: Log, roots: seq<Ref>, x: Ref) {
    exists i :: 0 <= i < |roots| && Reaches(log, roots[i], x)
  }

  /** Every id of a log: its events and whatever their thoughts recall. */
  ghost function Mentioned(log: Log): set<Ref> {
    (set k | 0 <= k < |log| :: Evt(k))
    + (set k, i | 0 <= k < |log| && 0 <= i < |log[k].recalled| :: log[k].recalled[i])
  }

  lemma MentionedIsUniverse(log: Log)
    ensures Universe(log, Mentioned(log))
  {
    forall r, c | r in Mentioned(log) && c in Recalls(log, r) ensures c in Mentioned(log) {
      var i :| 0 <= i < |log[r.pos].recalled| && log[r.pos].recalled[i] == c;
    }
  }

  ghost function Untangling(log: Log, all: set<Ref>): set<Ref> {
    set x | x in all && Untangled(log, x)
  }

  lemma UntanglingIsCalm(log: Log, all: set<Ref>)
    requires Universe(log, all)
    ensures Calm(log, Untangling(log, all))
  {
    var calm := Untangling(log, all);
    forall x, c | x in calm && c in Recalls(log, x) ensures c in calm {
      ReachesChild(log, x, c);
      UntangledBelow(log, x, c);
    }
    forall a, b | a in calm && b in calm ensures !Entwined(log, a, b) {
      ReachesSelf(log, a);
    }
  }

  ghost predicate Exact(log: Log, x: Ref, reach: set<Ref>) {
    forall y {:trigger Reaches(log, x, y)} :: y in reach <==> Reaches(log, x, y)
  }

  lemma {:induction false} KeysAreClosed(log: Log, memo: Memo, p: seq<Ref>)
    requires ChildrenMet(log, memo, {}) && IsTrail(log, p) && p[0] in memo
    ensures p[|p| - 1] in memo
    decreases |p|
  {
    if |p| > 1 {
      assert p[1] in Recalls(log, p[0]);
      assert IsTrail(log, p[1..]);
      KeysAreClosed(log, memo, p[1..]);
    }
  }

  lemma EntriesAreSound(log: Log, calm: set<Ref>, memo: Memo)
    requires GoodEntries(log, calm, memo)
    ensures forall x, y | x in memo && y in memo[x] :: Reaches(log, x, y)
  {
    forall x, y | x in memo && y in memo[x] ensures Reaches(log, x, y) {
      assert GoodEntry(log, calm, x, memo[x]);
    }
  }

  lemma UntangledIsExact(log: Log, all: set<Ref>, memo: Memo, r: Ref, x: Ref)
    requires memo.Keys <= all && GoodEntries(log, Untangling(log, all), memo)
    requires x in memo && Untangled(log, r) && Reaches(log, r, x)
    ensures Exact(log, x, memo[x])
  {
    UntangledBelow(log, r, x);
    assert GoodEntry(log, Untangling(log, all), x, memo[x]);
  }

  lemma TangledIsInexact(log: Log, memo: Memo, rank: map<Ref, nat>, r: Ref)
    requires ChildrenMet(log, memo, {}) && Ranked(memo, rank) && r in memo && !Untangled(log, r)
    ensures exists x :: x in memo && !Exact(log, x, memo[x])
  {
    var a, b :| Reaches(log, r, a) && Reaches(log, r, b) && Entwined(log, a, b);
    var p :| IsTrail(log, p) && p[0] == r && p[|p| - 1] == a;
    KeysAreClosed(log, memo, p);
    var q :| IsTrail(log, q) && q[0] == r && q[|q| - 1] == b;
    KeysAreClosed(log, memo, q);
    if rank[a] < rank[b] {
      assert b !in memo[a];
    } else {
      assert a !in memo[b];
    }
  }

  ghost predicate AllExact(log: Log, memo: Memo) {
    forall x {:trigger x in memo} | x in memo :: Exact(log, x, memo[x])
  }

  ghost predicate AllUntangled(log: Log, roots: seq<Ref>) {
    forall r {:trigger r in roots} | r in roots :: Untangled(log, r)
  }

  lemma UntangledImpliesExact(log: Log, all: set<Ref>, memo: Memo, roots: seq<Ref>)
    requires memo.Keys <= all && GoodEntries(log, Untangling(log, all), memo)
    requires AllUntangled(log, roots)
    requires forall x {:trigger FromRoots(log, roots, x)} | x in memo :: FromRoots(log, roots, x)
    ensures AllExact(log, memo)
  {
    forall x | x in memo ensures Exact(log, x, memo[x]) {
      assert FromRoots(log, roots, x);
      var i :| 0 <= i < |roots| && Reaches(log, roots[i], x);
      assert roots[i] in roots;
      UntangledIsExact(log, all, memo, roots[i], x);
    }
  }

  lemma TangledImpliesInexact(log: Log, memo: Memo, rank: map<Ref, nat>, roots: seq<Ref>)
    requires ChildrenMet(log, memo, {}) && Ranked(memo, rank)
    requires !AllUntangled(log, roots)
    requires forall r {:trigger r in roots} | r in roots :: r in memo
    ensures !AllExact(log, memo)
  {
    var r :| r in roots && !Untangled(log, r);
    TangledIsInexact(log, memo, rank, r);
  }

  /** Every entry of the finished dictionary is the exact closure if and only if no two different
      ids that the roots reach lead to each other; the order of the roots plays no part. */
  lemma ExactIffUntangled(log: Log, all: set<Ref>, memo: Memo, rank: map<Ref, nat>, roots: seq<Ref>)
    requires memo.Keys <= all && GoodEntries(log, Untangling(log, all), memo)
    requires ChildrenMet(log, memo, {}) && Ranked(memo, rank)
    requires forall r {:trigger r in roots} | r in roots :: r in memo
    requires forall x {:trigger FromRoots(log, roots, x)} | x in memo :: FromRoots(log, roots, x)
    ensures AllExact(log, memo) <==> AllUntangled(log, roots)
  {
    if AllUntangled(log, roots) {
      UntangledImpliesExact(log, all, memo, roots);
    } else {
      TangledImpliesInexact(log, memo, rank, roots);
    }
  }

  /** Every recalled id names an earlier event or no event at all, as the writers ensure. */
  ghost predicate RecallsBack(log: Log) {
    forall k, i | 0 <= k < |log| && 0 <= i < |log[k].recalled| && Resolves(log, log[k].recalled[i]) ::
      log[k].recalled[i].pos < k
  }

  lemma {:induction false} TrailGoesBack(log: Log, p: seq<Ref>)
    requires RecallsBack(log) && IsTrail(log, p) && |p| > 1
    ensures Resolves(log, p[0])
    ensures Resolves(log, p[|p| - 1]) ==> p[|p| - 1].pos < p[0].pos
    decreases |p|
  {
    assert p[1] in Recalls(log, p[0]);
    var i :| 0 <= i < |log[p[0].pos].recalled| && log[p[0].pos].recalled[i] == p[1];
    if |p| > 2 {
      assert IsTrail(log, p[1..]);
      TrailGoesBack(log, p[1..]);
    }
  }

  lemma RecallsBackIsUntangled(log: Log, x: Ref)
    requires RecallsBack(log)
    ensures Untangled(log, x)
  {
    forall a, b | Reaches(log, x, a) && Reaches(log, x, b) ensures !Entwined(log, a, b) {
      if Entwined(log, a, b) {
        var p :| IsTrail(log, p) && p[0] == a && p[|p| - 1] == b;
        var q :| IsTrail(log, q) && q[0] == b && q[|q| - 1] == a;
        TrailGoesBack(log, p);
        TrailGoesBack(log, q);
      }
    }
  }

  function Recalling(refs: seq<Ref>): Event {
    Draft(false, ThoughtCreated(SelfThread)).(recalled := refs)
  }

  /** Nothing in `append` forbids two thoughts that recall each other, and then some entry is short. */
  lemma EntwinedPair()
    ensures var log := [Recalling([Evt(1)]), Recalling([Evt(0)])];
            LinksResolve([], log[0]) && LinksResolve([log[0]], log[1]) && !AllUntangled(log, [Evt(0), Evt(1)])
  {
    var log := [Recalling([Evt(1)]), Recalling([Evt(0)])];
    ReachesSelf(log, Evt(0));
    ReachesChild(log, Evt(0), Evt(1));
    ReachesChild(log, Evt(1), Evt(0));
    assert Entwined(log, Evt(0), Evt(1));
    assert Evt(0) in [Evt(0), Evt(1)] && !Untangled(log, Evt(0));
  }

  /** The whole computation: one dictionary for all the given thoughts. It never over-approximates, the entries
      together miss nothing, and each is exact precisely if no cycle troubles the roots. */
  method TransitiveSets(log: Log, roots: seq<Ref>) returns (memo: Memo)
    requires forall r | r in roots :: Resolves(log, r)
    ensures forall r | r in roots :: r in memo
    ensures forall x, y | x in memo && y in memo[x] :: Reaches(log, x, y)
    ensures Complete(log, memo, roots)
    ensures AllExact(log, memo) <==> AllUntangled(log, roots)
  {
    ghost var all := Mentioned(log);
    MentionedIsUniverse(log);
    UntanglingIsCalm(log, all);
    var closure := new Closure(log, all, Untangling(log, all));
    closure.CloseOver(roots);
    memo := closure.transitive;
    ExactIffUntangled(log, all, memo, closure.rank, roots);
    EntriesAreSound(log, Untangling(log, all), memo);
    forall r, y | r in roots && Reaches(log, r, y) ensures InSomeEntry(memo, roots, y) {
      SomeRootHolds(log, memo, roots, r, y);
    }
  }
}
