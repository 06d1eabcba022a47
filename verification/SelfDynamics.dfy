/** How deep thought begets thought (self_dynamics.py): the memoised longest-chain search. */
module SelfDynamics {
  import opened EventLog

  predicate SelfOrigin(o: Origin) {
    o.SelfThread? || o.PrivateProject?
  }

  /** The self-origin thoughts of the read window, oldest first: the rows of a read that stops
      after `limit` thoughts, at or after `since` if a window is given. */
  function SelfThoughts(log: Log, since: Option<real>, limit: nat): (s: seq<nat>)
    ensures forall i | 0 <= i < |s| :: s[i] < |log| && IsThought(log[s[i]]) && SelfOrigin(log[s[i]].body.origin)
  {
    Kept(log, Oldest(log, IsThought, limit), since)
  }

  function Kept(log: Log, rows: seq<nat>, since: Option<real>): (s: seq<nat>)
    requires forall i | 0 <= i < |rows| :: rows[i] < |log| && IsThought(log[rows[i]])
    ensures forall i | 0 <= i < |s| :: s[i] < |log| && IsThought(log[s[i]]) && SelfOrigin(log[s[i]].body.origin)
  {
    if rows == [] then [] else
      assert IsThought(log[rows[0]]);
      var e := log[rows[0]];
      (if (since.Some? ==> e.at >= since.value) && SelfOrigin(e.body.origin) then [rows[0]] else [])
          + Kept(log, rows[1..], since)
  }

  lemma {:induction false} KeptIs(log: Log, rows: seq<nat>, since: Option<real>, k: nat)
    requires forall i | 0 <= i < |rows| :: rows[i] < |log| && IsThought(log[rows[i]])
    ensures k in Kept(log, rows, since) <==>
              && k in rows && k < |log| && log[k].body.ThoughtCreated?
              && (log[k].body.origin.SelfThread? || log[k].body.origin.PrivateProject?)
              && (since.Some? ==> since.value <= log[k].at)
  {
    if rows != [] {
      assert rows == [rows[0]] + rows[1..];
      KeptIs(log, rows[1..], since, k);
    }
  }

  /** The thoughts the metric looks at: of those read, the mind's own that are not older than the window. */
  lemma SelfThoughtsAre(log: Log, since: Option<real>, limit: nat, k: nat)
    ensures k in SelfThoughts(log, since, limit) <==>
              && k in Oldest(log, IsThought, limit)
              && (log[k].body.origin.SelfThread? || log[k].body.origin.PrivateProject?)
              && (since.Some? ==> since.value <= log[k].at)
  {
    KeptIs(log, Oldest(log, IsThought, limit), since, k);
  }

  // ---------------------------------------------------------------- chains

  /** The thread a root call compares with: `thread_id or ""`. */
  function ThreadKey(e: Event): string {
    if e.thread.Some? then e.thread.value else ""
  }

  /** Does thought `t`, searched on behalf of a root thought with this thread and position,
      continue to thought `r`? This is the test in the source, which looks at the root. */
  predicate Continues(log: Log, pool: seq<nat>, t: nat, r: nat, thread: string, root: nat)
    requires t < |log|
  {
    && r < |log|
    && Evt(r) in log[t].relatedTo
    && r in pool
    && log[r].thread == Some(thread)
    && r < root
  }

  /** The intended step: cite an earlier self-origin thought of one's own thread. */
  predicate Begets(log: Log, pool: seq<nat>, t: nat, r: nat)
    requires t < |log|
  {
    Continues(log, pool, t, r, ThreadKey(log[t]), t)
  }

  ghost predicate IsChain(log: Log, pool: seq<nat>, c: seq<nat>) {
    && c != []
    && (forall i | 0 <= i < |c| :: c[i] < |log| && c[i] in pool)
    && (forall i | 0 < i < |c| :: Begets(log, pool, c[i - 1], c[i]))
  }

  /** One step of a chain: to an earlier thought of the pool that this one is related to, in the same thread; a
      thought without a thread goes on only into the nameless one. */
  lemma BegetsIs(log: Log, pool: seq<nat>, t: nat, r: nat)
    requires t < |log| && r < |log|
    ensures Begets(log, pool, t, r) <==>
              && r in pool && r < t && Evt(r) in log[t].relatedTo
              && log[r].thread == if log[t].thread.Some? then log[t].thread else Some("")
  {
  }

  /** What a chain is, over the events themselves. */
  lemma ChainIs(log: Log, pool: seq<nat>, c: seq<nat>)
    requires forall i | 0 <= i < |c| :: c[i] < |log| && c[i] in pool
    ensures IsChain(log, pool, c) <==>
              && c != []
              && forall i | 0 <= i < |c| - 1 ::
                   && c[i + 1] < c[i] && Evt(c[i + 1]) in log[c[i]].relatedTo
                   && log[c[i + 1]].thread == if log[c[i]].thread.Some? then log[c[i]].thread else Some("")
  {
    forall i | 0 <= i < |c| - 1
      ensures Begets(log, pool, c[i], c[i + 1]) <==>
                && c[i + 1] < c[i] && Evt(c[i + 1]) in log[c[i]].relatedTo
                && log[c[i + 1]].thread == if log[c[i]].thread.Some? then log[c[i]].thread else Some("")
    {
      BegetsIs(log, pool, c[i], c[i + 1]);
    }
    assert IsChain(log, pool, c) <==> c != [] && forall i | 0 <= i < |c| - 1 :: Begets(log, pool, c[i], c[i + 1]) by {
      if IsChain(log, pool, c) {
        forall i | 0 <= i < |c| - 1 ensures Begets(log, pool, c[i], c[i + 1]) { assert 0 < i + 1 < |c|; }
      }
    }
  }

  /** `n` is the length of the longest chain that starts at `t`. */
  ghost predicate LongestFrom(log: Log, pool: seq<nat>, t: nat, n: nat) {
    && (exists c :: IsChain(log, pool, c) && c[0] == t && |c| == n)
    && (forall c | IsChain(log, pool, c) && c[0] == t :: |c| <= n)
  }

  /** A causal log lets the root's position stand in for the citing thought's own. */
  lemma RootPositionIsIdle(log: Log, pool: seq<nat>, t: nat, r: nat, root: nat)
    requires Causal(log) && t < |log| && t <= root
    ensures Continues(log, pool, t, r, ThreadKey(log[t]), root) <==> Begets(log, pool, t, r)
  {
    if r < |log| && Evt(r) in log[t].relatedTo {
      CausalLink(log, t, Evt(r));
    }
  }

  lemma ChainTail(log: Log, pool: seq<nat>, c: seq<nat>)
    requires IsChain(log, pool, c) && |c| > 1
    ensures IsChain(log, pool, c[1..]) && Begets(log, pool, c[0], c[1])
  {
  }

  lemma ChainCons(log: Log, pool: seq<nat>, t: nat, c: seq<nat>)
    requires IsChain(log, pool, c) && t < |log| && t in pool && Begets(log, pool, t, c[0])
    ensures IsChain(log, pool, [t] + c)
  {
  }

  // ---------------------------------------------------------------- search

  function Larger(a: nat, b: nat): nat {
    if a >= b then a else b
  }

  /** Among the chains from `t` whose first citation is one of the first `i`, none is longer than `best`. */
  ghost predicate Bounded(log: Log, pool: seq<nat>, t: nat, i: nat, best: nat)
    requires t < |log| && i <= |log[t].relatedTo|
  {
    forall j, c | 0 <= j < i && IsChain(log, pool, c) && |c| > 1 && c[0] == t && log[t].relatedTo[j] == Evt(c[1]) ::
      |c| <= best
  }

  ghost predicate Searched(log: Log, pool: seq<nat>, t: nat, i: nat, longest: seq<nat>, best: nat)
    requires t < |log| && i <= |log[t].relatedTo|
  {
    IsChain(log, pool, longest) && longest[0] == t && |longest| == best && Bounded(log, pool, t, i, best)
  }

  /** The nested `depth` function with the dictionary it fills. A memo hit returns an entry that
      may have been computed for another root's thread and position. */
  class DepthSearch {
    const log: Log
    const pool: seq<nat>
    var memo: map<nat, nat>

    ghost predicate Valid()
      reads this
    {
      && Causal(log)
      && (forall t | t in pool :: t < |log|)
      && (forall t | t in memo :: t < |log| && LongestFrom(log, pool, t, memo[t]))
    }

    constructor (log: Log, pool: seq<nat>)
      requires Causal(log) && forall t | t in pool :: t < |log|
      ensures Valid() && this.log == log && this.pool == pool && memo == map[]
    {
      this.log, this.pool, this.memo := log, pool, map[];
    }

    /** One search. It is asked with the root's thread and position, and answers for `t` alone. */
    method Depth(t: nat, thread: string, root: nat, chain: set<nat>) returns (best: nat)
      requires Valid() && t in pool && thread == ThreadKey(log[t]) && t <= root
      requires forall u | u in chain :: t < u
      modifies this`memo
      ensures Valid() && LongestFrom(log, pool, t, best)
      ensures old(memo.Keys) <= memo.Keys && t in memo && memo[t] == best
      decreases t
    {
      if t in memo {
        return memo[t];
      }
      if t in chain {
        assert false; // citations only reach back, so no thought meets itself
      }
      best := 1;
      ghost var longest := [t];
      var related := log[t].relatedTo;
      for i := 0 to |related|
        invariant Valid() && old(memo.Keys) <= memo.Keys
        invariant Searched(log, pool, t, i, longest, best)
      {
        var rid := related[i];
        if rid.Evt? && rid.pos < |log| && Continues(log, pool, t, rid.pos, thread, root) {
          RootPositionIsIdle(log, pool, t, rid.pos, root);
          var deeper := Depth(rid.pos, thread, root, chain + {t});
          ghost var was, so := longest, best;
          longest := LongerWitness(log, pool, t, rid.pos, deeper, best, longest);
          best := Larger(best, 1 + deeper);
          SearchedDeeper(log, pool, t, i, deeper, was, so, longest, best);
        } else {
          SearchedPast(log, pool, t, i, thread, root, longest, best);
        }
      }
      SearchedAll(log, pool, t, longest, best);
      memo := memo[t := best];
    }

    /** The root calls, in the order of the pool. */
    method Deepest() returns (best: nat, ghost lengths: seq<nat>)
      requires Valid()
      modifies this`memo
      ensures Answered(log, pool, lengths, best)
    {
      best, lengths := 0, [];
      for i := 0 to |pool|
        invariant Valid() && AnsweredTo(log, pool, i, lengths, best)
      {
        var t := pool[i];
        assert t in pool;
        var d := Depth(t, ThreadKey(log[t]), t, {});
        AnswersOne(log, pool, i, lengths, d, best);
        lengths := lengths + [d];
        best := Larger(best, d);
      }
    }
  }

  lemma AnswersOne(log: Log, pool: seq<nat>, i: nat, lengths: seq<nat>, d: nat, best: nat)
    requires i < |pool| && AnsweredTo(log, pool, i, lengths, best) && LongestFrom(log, pool, pool[i], d)
    ensures AnsweredTo(log, pool, i + 1, lengths + [d], Larger(best, d))
  {
    assert (lengths + [d])[i] == d;
  }

  /** Each of the first `n` entries answers for its root, and `best` is the largest of them. */
  ghost predicate AnsweredTo(log: Log, pool: seq<nat>, n: nat, lengths: seq<nat>, best: nat) {
    && n <= |pool| && |lengths| == n
    && (forall j | 0 <= j < n :: LongestFrom(log, pool, pool[j], lengths[j]))
    && (forall j | 0 <= j < n :: lengths[j] <= best)
    && (if n == 0 then best == 0 else best in lengths)
  }

  ghost predicate Answered(log: Log, pool: seq<nat>, lengths: seq<nat>, best: nat) {
    AnsweredTo(log, pool, |pool|, lengths, best)
  }

  lemma SearchedDeeper(log: Log, pool: seq<nat>, t: nat, i: nat, deeper: nat,
                       was: seq<nat>, so: nat, longest: seq<nat>, best: nat)
    requires t < |log| && i < |log[t].relatedTo| && Searched(log, pool, t, i, was, so)
    requires log[t].relatedTo[i].Evt? && LongestFrom(log, pool, log[t].relatedTo[i].pos, deeper)
    requires IsChain(log, pool, longest) && longest[0] == t && |longest| == best && best == Larger(so, 1 + deeper)
    ensures Searched(log, pool, t, i + 1, longest, best)
  {
    BoundThrough(log, pool, t, log[t].relatedTo[i].pos, deeper);
  }

  lemma SearchedPast(log: Log, pool: seq<nat>, t: nat, i: nat, thread: string, root: nat, longest: seq<nat>, best: nat)
    requires Causal(log) && t < |log| && i < |log[t].relatedTo| && Searched(log, pool, t, i, longest, best)
    requires thread == ThreadKey(log[t]) && t <= root
    requires var rid := log[t].relatedTo[i]; !(rid.Evt? && rid.pos < |log|
                                               && Continues(log, pool, t, rid.pos, thread, root))
    ensures Searched(log, pool, t, i + 1, longest, best)
  {
    NoChainThrough(log, pool, t, log[t].relatedTo[i], thread, root);
  }

  lemma SearchedAll(log: Log, pool: seq<nat>, t: nat, longest: seq<nat>, best: nat)
    requires t < |log| && Searched(log, pool, t, |log[t].relatedTo|, longest, best)
    ensures LongestFrom(log, pool, t, best)
  {
    var related := log[t].relatedTo;
    forall c | IsChain(log, pool, c) && c[0] == t ensures |c| <= best {
      if |c| > 1 {
        ChainTail(log, pool, c);
        var j :| 0 <= j < |related| && related[j] == Evt(c[1]);
      }
    }
  }

  lemma LongerWitness(log: Log, pool: seq<nat>, t: nat, r: nat, deeper: nat, best: nat, longest: seq<nat>)
    returns (w: seq<nat>)
    requires t < |log| && t in pool && Begets(log, pool, t, r) && LongestFrom(log, pool, r, deeper)
    requires IsChain(log, pool, longest) && longest[0] == t && |longest| == best
    ensures IsChain(log, pool, w) && w[0] == t && |w| == Larger(best, 1 + deeper)
  {
    w := longest;
    if 1 + deeper > best {
      var c :| IsChain(log, pool, c) && c[0] == r && |c| == deeper;
      ChainCons(log, pool, t, c);
      w := [t] + c;
    }
  }

  lemma BoundThrough(log: Log, pool: seq<nat>, t: nat, r: nat, deeper: nat)
    requires LongestFrom(log, pool, r, deeper)
    ensures forall c | IsChain(log, pool, c) && |c| > 1 && c[0] == t && c[1] == r :: |c| <= 1 + deeper
  {
    forall c | IsChain(log, pool, c) && |c| > 1 && c[0] == t && c[1] == r ensures |c| <= 1 + deeper {
      ChainTail(log, pool, c);
    }
  }

  lemma NoChainThrough(log: Log, pool: seq<nat>, t: nat, rid: Ref, thread: string, root: nat)
    requires Causal(log) && t < |log| && thread == ThreadKey(log[t]) && t <= root
    requires rid.Evt? && rid.pos < |log| ==> !Continues(log, pool, t, rid.pos, thread, root)
    ensures forall c | IsChain(log, pool, c) && |c| > 1 && c[0] == t :: rid != Evt(c[1])
  {
    forall c | IsChain(log, pool, c) && |c| > 1 && c[0] == t ensures rid != Evt(c[1]) {
      if rid == Evt(c[1]) {
        ChainTail(log, pool, c);
        RootPositionIsIdle(log, pool, t, c[1], root);
      }
    }
  }

  lemma LongestOverall(log: Log, pool: seq<nat>, lengths: seq<nat>, best: nat)
    requires Answered(log, pool, lengths, best)
    ensures forall c | IsChain(log, pool, c) :: |c| <= best
    ensures pool != [] ==> exists c :: IsChain(log, pool, c) && |c| == best
  {
    forall c | IsChain(log, pool, c) ensures |c| <= best {
      var j :| 0 <= j < |pool| && pool[j] == c[0];
      assert LongestFrom(log, pool, pool[j], lengths[j]);
    }
    if pool != [] {
      var j :| 0 <= j < |pool| && lengths[j] == best;
      assert LongestFrom(log, pool, pool[j], lengths[j]);
    }
  }

  /** The metric: the length of the longest chain among the self thoughts of the window. */
  method SelfThreadGenerationDepth(log: Log, since: Option<real>, limit: nat) returns (best: nat)
    requires Causal(log)
    ensures var pool := SelfThoughts(log, since, limit);
            && (forall c | IsChain(log, pool, c) :: |c| <= best)
            && (pool == [] ==> best == 0)
            && (pool != [] ==> exists c :: IsChain(log, pool, c) && |c| == best)
  {
    var thoughts := SelfThoughts(log, since, limit);
    var search := new DepthSearch(log, thoughts);
    ghost var lengths;
    best, lengths := search.Deepest();
    LongestOverall(log, thoughts, lengths, best);
  }

  // -------------------------------------------- why the memo may be shared

  /** The nested function without its dictionary: what the search of one root finds at `t`.
      `room` is the complement of the source's `chain`. */
  ghost function Uncached(log: Log, pool: seq<nat>, t: nat, thread: string, root: nat, room: set<nat>): nat
    requires t < |log|
    decreases room, 1, 0
  {
    if t !in room then 1
    else UncachedOver(log, pool, t, thread, root, room - {t}, |log[t].relatedTo|)
  }

  ghost function UncachedOver(
    log: Log, pool: seq<nat>, t: nat, thread: string, root: nat, room: set<nat>, n: nat): nat
    requires t < |log| && n <= |log[t].relatedTo|
    decreases room, 2, n
  {
    if n == 0 then 1 else
      var rid := log[t].relatedTo[n - 1];
      var rest := UncachedOver(log, pool, t, thread, root, room, n - 1);
      if rid.Evt? && rid.pos < |log| && Continues(log, pool, t, rid.pos, thread, root) then
        Larger(rest, 1 + Uncached(log, pool, rid.pos, thread, root, room))
      else rest
  }

  ghost predicate Covers(room: set<nat>, t: nat) {
    forall u | 0 <= u <= t :: u in room
  }

  /** On a causal log a search finds the same value at `t` on behalf of every root of the thread:
      that is what entitles the dictionary to ignore the root's thread and position. */
  lemma {:induction false} RootsAgree(
    log: Log, pool: seq<nat>, t: nat, root: nat, room: set<nat>, root': nat, room': set<nat>)
    requires Causal(log) && t < |log| && t <= root && t <= root' && Covers(room, t) && Covers(room', t)
    ensures Uncached(log, pool, t, ThreadKey(log[t]), root, room)
         == Uncached(log, pool, t, ThreadKey(log[t]), root', room')
    decreases t, |log[t].relatedTo| + 1
  {
    RootsAgreeOver(log, pool, t, root, room - {t}, root', room' - {t}, |log[t].relatedTo|);
  }

  lemma {:induction false} RootsAgreeOver(
    log: Log, pool: seq<nat>, t: nat, root: nat, room: set<nat>, root': nat, room': set<nat>, n: nat)
    requires Causal(log) && t < |log| && t <= root && t <= root' && n <= |log[t].relatedTo|
    requires t > 0 ==> Covers(room, t - 1) && Covers(room', t - 1)
    ensures UncachedOver(log, pool, t, ThreadKey(log[t]), root, room, n)
         == UncachedOver(log, pool, t, ThreadKey(log[t]), root', room', n)
    decreases t, n
  {
    if n > 0 {
      RootsAgreeOver(log, pool, t, root, room, root', room', n - 1);
      var rid := log[t].relatedTo[n - 1];
      if rid.Evt? && rid.pos < |log| {
        RootPositionIsIdle(log, pool, t, rid.pos, root);
        RootPositionIsIdle(log, pool, t, rid.pos, root');
        if Begets(log, pool, t, rid.pos) {
          RootsAgree(log, pool, rid.pos, root, room, root', room');
        }
      }
    }
  }

  function Thought(thread: string, related: seq<Ref>): Event {
    Draft(false, ThoughtCreated(SelfThread)).(thread := Some(thread), relatedTo := related)
  }

  /** Without the store's invariant the roots disagree: here thought 0 cites a later thought, and
      a root at position 1 finds less at it than a root at position 2 does. */
  lemma RootsDisagreeOffStore()
    ensures var log := [Thought("s", [Evt(1)]), Thought("s", []), Thought("s", [Evt(0)])];
            && !Causal(log)
            && Uncached(log, [0, 1, 2], 0, "s", 1, {0, 1, 2}) == 1
            && Uncached(log, [0, 1, 2], 0, "s", 2, {0, 1, 2}) == 2
  {
    var log := [Thought("s", [Evt(1)]), Thought("s", []), Thought("s", [Evt(0)])];
    var pool := [0, 1, 2];
    assert Dangles(log[..0], Links(log[0])[0]);
    assert !LinksResolve(log[..0], log[0]);
    assert UncachedOver(log, pool, 0, "s", 1, {1, 2}, 0) == 1;
    assert Uncached(log, pool, 0, "s", 1, {0, 1, 2}) == 1;
    assert UncachedOver(log, pool, 1, "s", 2, {2}, 0) == 1;
    assert Uncached(log, pool, 1, "s", 2, {1, 2}) == 1;
    assert {0, 1, 2} - {0} == {1, 2};
    assert {1, 2} - {1} == {2};
    assert Continues(log, pool, 0, 1, "s", 2);
  }
}
