/** Multi-path recall (memory.py, multi_recall): the hits of several retrieval paths, taken round-robin,
    without repeats, up to a cap. A hit is named by its event. */
module MultiRecall {

  /** What the rounds emit before path `j` of round `i`: all earlier rounds, then the earlier paths. */
  function Emitted(lists: seq<seq<nat>>, i: nat, j: nat): seq<nat>
    requires j <= |lists|
    decreases i, j
  {
    if j > 0 then Emitted(lists, i, j - 1) + (if i < |lists[j - 1]| then [lists[j - 1][i]] else [])
    else if i > 0 then Emitted(lists, i - 1, |lists|)
    else []
  }

  /** The number of rounds in which some path still has a hit. */
  function Rounds(lists: seq<seq<nat>>): (n: nat)
    ensures forall l | l in lists :: |l| <= n
    ensures n > 0 ==> exists l :: l in lists && |l| == n
  {
    if lists == [] then 0
    else
      var n := Rounds(lists[1..]);
      assert lists[0] in lists;
      if |lists[0]| > n then |lists[0]| else n
  }

  /** The whole round-robin interleaving, repeats included. */
  function Interleaving(lists: seq<seq<nat>>): seq<nat> {
    Emitted(lists, Rounds(lists), 0)
  }

  /** Keep the first occurrence of every hit. */
  function Dedup(s: seq<nat>): (r: seq<nat>)
    ensures forall x :: x in r <==> x in s
  {
    if s == [] then []
    else
      var n := |s| - 1;
      assert s == s[..n] + [s[n]];
      var r := Dedup(s[..n]);
      if s[n] in r then r else r + [s[n]]
  }

  function Take(s: seq<nat>, cap: int): seq<nat> {
    if cap <= 0 then [] else if cap <= |s| then s[..cap] else s
  }

  lemma DedupSnoc(s: seq<nat>, x: nat)
    ensures Dedup(s + [x]) == if x in s then Dedup(s) else Dedup(s) + [x]
  {
    assert (s + [x])[..|s|] == s;
  }

  /** What is emitted later never disturbs what was kept earlier. */
  lemma {:induction false} DedupPrefix(s: seq<nat>, t: seq<nat>)
    ensures Dedup(s) <= Dedup(s + t)
    decreases |t|
  {
    if t == [] {
      assert s + t == s;
    } else {
      var n := |t| - 1;
      DedupPrefix(s, t[..n]);
      assert s + t == s + t[..n] + [t[n]];
      DedupSnoc(s + t[..n], t[n]);
    }
  }

  lemma {:induction false} EmittedPrefix(lists: seq<seq<nat>>, i: nat, j: nat, i': nat, j': nat)
    requires j <= |lists| && j' <= |lists| && (i < i' || (i == i' && j <= j'))
    ensures Emitted(lists, i, j) <= Emitted(lists, i', j')
    decreases i', j'
  {
    if i == i' && j == j' {
    } else if j' > 0 {
      EmittedPrefix(lists, i, j, i', j' - 1);
    } else {
      EmittedPrefix(lists, i, j, i' - 1, |lists|);
    }
  }

  lemma EmittedWithin(lists: seq<seq<nat>>, i: nat, j: nat)
    requires j <= |lists| && (i < Rounds(lists) || (i == Rounds(lists) && j == 0))
    ensures Dedup(Emitted(lists, i, j)) <= Dedup(Interleaving(lists))
  {
    EmittedPrefix(lists, i, j, Rounds(lists), 0);
    var s, t := Emitted(lists, i, j), Interleaving(lists);
    assert t == s + t[|s|..];
    DedupPrefix(s, t[|s|..]);
  }

  /** Stopping when the cap is reached leaves the first `cap` hits of the whole interleaving. */
  lemma CutHere(lists: seq<seq<nat>>, i: nat, j: nat, cap: int)
    requires j <= |lists| && (i < Rounds(lists) || (i == Rounds(lists) && j == 0))
    requires |Dedup(Emitted(lists, i, j))| == cap
    ensures Dedup(Emitted(lists, i, j)) == Take(Dedup(Interleaving(lists)), cap)
  {
    EmittedWithin(lists, i, j);
  }

  lemma NoRoundLeft(lists: seq<seq<nat>>, cap: int)
    requires |Dedup(Interleaving(lists))| < cap
    ensures Dedup(Interleaving(lists)) == Take(Dedup(Interleaving(lists)), cap)
  {
  }

  lemma LongestList(lists: seq<seq<nat>>, i: nat)
    ensures i < Rounds(lists) <==> exists j :: 0 <= j < |lists| && i < |lists[j]|
  {
    if i < Rounds(lists) {
      var l :| l in lists && |l| == Rounds(lists);
      var j :| 0 <= j < |lists| && lists[j] == l;
    }
    if j :| 0 <= j < |lists| && i < |lists[j]| {
      assert lists[j] in lists;
    }
  }

  /** `any(i < len(l) for l in lists)` */
  predicate SomeLeft(lists: seq<seq<nat>>, i: nat) {
    exists j :: 0 <= j < |lists| && i < |lists[j]|
  }

  /** The state between two rounds: `i` rounds merged, below the cap. */
  ghost predicate Merging(lists: seq<seq<nat>>, cap: int, i: nat, merged: seq<nat>, seen: set<nat>) {
    && merged == Dedup(Emitted(lists, i, 0)) && (|merged| < cap || merged == [])
    && forall x :: x in seen <==> x in merged
  }

  /** The merging loops, with their early return. */
  method Merge(lists: seq<seq<nat>>, cap: int) returns (merged: seq<nat>)
    ensures merged == Take(Dedup(Interleaving(lists)), cap)
  {
    merged := [];
    var seen: set<nat> := {};
    var i := 0;
    while |merged| < cap && SomeLeft(lists, i)
      invariant i <= Rounds(lists) && Merging(lists, cap, i, merged, seen)
      decreases Rounds(lists) - i
    {
      LongestList(lists, i);
      var done;
      merged, seen, done := OneRound(lists, cap, i, merged, seen);
      if done {
        return;
      }
      i := i + 1;
    }
    if cap > 0 {
      LongestList(lists, i);
      NoRoundLeft(lists, cap);
    }
  }

  lemma EmittedStep(lists: seq<seq<nat>>, i: nat, j: nat)
    requires j < |lists|
    ensures Emitted(lists, i, j + 1) ==
              if i < |lists[j]| then Emitted(lists, i, j) + [lists[j][i]] else Emitted(lists, i, j)
    ensures Emitted(lists, i + 1, 0) == Emitted(lists, i, |lists|)
  {
  }

  /** The inner loop: one round over the paths, stopping at the cap. */
  method OneRound(lists: seq<seq<nat>>, cap: int, i: nat, before: seq<nat>, seen: set<nat>)
    returns (merged: seq<nat>, seen': set<nat>, done: bool)
    requires i < Rounds(lists) && before == Dedup(Emitted(lists, i, 0)) && |before| < cap
    requires forall x :: x in seen <==> x in before
    ensures done ==> merged == Take(Dedup(Interleaving(lists)), cap)
    ensures !done ==> merged == Dedup(Emitted(lists, i + 1, 0)) && |merged| < cap
    ensures forall x :: x in seen' <==> x in merged
  {
    merged, seen', done := before, seen, false;
    for j := 0 to |lists|
      invariant merged == Dedup(Emitted(lists, i, j)) && |merged| < cap && !done
      invariant forall x :: x in seen' <==> x in merged
    {
      var l := lists[j];
      EmittedStep(lists, i, j);
      if i < |l| {
        var h := l[i];
        DedupSnoc(Emitted(lists, i, j), h);
        if h !in seen' {
          seen' := seen' + {h};
          merged := merged + [h];
        }
        if |merged| >= cap {
          CutHere(lists, i, j + 1, cap);
          done := true;
          return;
        }
      }
    }
  }

  // --------------------------------------------------------------- the order

  function Least(a: nat, b: nat): nat {
    if a <= b then a else b
  }

  /** How many hits of the first `n` paths come before hit `i` of path `p`: from the paths before `p` one round more. */
  function HitsBefore(lists: seq<seq<nat>>, i: nat, p: nat, n: nat): nat
    requires n <= |lists|
  {
    if n == 0 then 0
    else HitsBefore(lists, i, p, n - 1) + Least(|lists[n - 1]|, if n - 1 < p then i + 1 else i)
  }

  lemma {:induction false} NextPath(lists: seq<seq<nat>>, i: nat, p: nat, n: nat)
    requires n <= |lists| && p < |lists|
    ensures HitsBefore(lists, i, p + 1, n)
            == HitsBefore(lists, i, p, n) + if p < n && i < |lists[p]| then 1 else 0
  {
    if n > 0 {
      NextPath(lists, i, p, n - 1);
    }
  }

  lemma {:induction false} NextRound(lists: seq<seq<nat>>, i: nat, n: nat)
    requires n <= |lists|
    ensures HitsBefore(lists, i + 1, 0, n) == HitsBefore(lists, i, |lists|, n)
  {
    if n > 0 {
      NextRound(lists, i, n - 1);
    }
  }

  lemma {:induction false} NothingBefore(lists: seq<seq<nat>>, n: nat)
    requires n <= |lists|
    ensures HitsBefore(lists, 0, 0, n) == 0
  {
    if n > 0 {
      NothingBefore(lists, n - 1);
    }
  }

  lemma {:induction false} EmittedCounts(lists: seq<seq<nat>>, i: nat, p: nat)
    requires p <= |lists|
    ensures |Emitted(lists, i, p)| == HitsBefore(lists, i, p, |lists|)
    decreases i, p
  {
    if p > 0 {
      EmittedCounts(lists, i, p - 1);
      NextPath(lists, i, p - 1, |lists|);
    } else if i > 0 {
      EmittedCounts(lists, i - 1, |lists|);
      NextRound(lists, i - 1, |lists|);
    } else {
      NothingBefore(lists, |lists|);
    }
  }

  /** Round by round and within a round path by path: each hit stands in the interleaving behind exactly the hits of
      earlier rounds and, of its own round, those of earlier paths. */
  lemma HitsStandInTurn(lists: seq<seq<nat>>, i: nat, p: nat)
    requires p < |lists| && i < |lists[p]|
    ensures var k := HitsBefore(lists, i, p, |lists|);
            k < |Interleaving(lists)| && Interleaving(lists)[k] == lists[p][i]
  {
    EmittedCounts(lists, i, p);
    EmittedStep(lists, i, p);
    assert lists[p] in lists;
    EmittedPrefix(lists, i, p + 1, Rounds(lists), 0);
  }

  lemma {:induction false} AllHits(lists: seq<seq<nat>>, rounds: nat, n: nat)
    requires n <= |lists| && forall l | l in lists :: |l| <= rounds
    ensures HitsBefore(lists, rounds, 0, n) == Lengths(lists[..n])
  {
    if n > 0 {
      AllHits(lists, rounds, n - 1);
      assert lists[n - 1] in lists;
      assert lists[..n][..n - 1] == lists[..n - 1];
    }
  }

  function Lengths(lists: seq<seq<nat>>): nat {
    if lists == [] then 0 else Lengths(lists[..|lists| - 1]) + |lists[|lists| - 1]|
  }

  /** And nothing else stands there: it is as long as the paths together. */
  lemma InterleavingIsWhole(lists: seq<seq<nat>>)
    ensures |Interleaving(lists)| == Lengths(lists)
  {
    EmittedCounts(lists, Rounds(lists), 0);
    AllHits(lists, Rounds(lists), |lists|);
    assert lists[..|lists|] == lists;
  }

  // ------------------------------------------------------------- properties

  /** The place of the first occurrence. */
  ghost function First(s: seq<nat>, x: nat): (k: nat)
    requires x in s
    ensures k < |s| && s[k] == x
    ensures forall j | 0 <= j < k :: s[j] != x
  {
    var n := |s| - 1;
    assert s == s[..n] + [s[n]];
    if x in s[..n] then First(s[..n], x) else n
  }

  /** The kept hits stand in the order of their first occurrences; in particular none repeats. */
  lemma {:induction false} DedupKeepsFirsts(s: seq<nat>)
    ensures forall a, b | 0 <= a < b < |Dedup(s)| ::
              Dedup(s)[a] in s && Dedup(s)[b] in s && First(s, Dedup(s)[a]) < First(s, Dedup(s)[b])
  {
    if s != [] {
      var n := |s| - 1;
      assert s == s[..n] + [s[n]];
      var r, r' := Dedup(s), Dedup(s[..n]);
      DedupKeepsFirsts(s[..n]);
      forall a, b | 0 <= a < b < |r| ensures r[a] in s && r[b] in s && First(s, r[a]) < First(s, r[b]) {
        assert r[a] in r && r[b] in r;
        assert r[a] == r'[a] && r'[a] in r';
      }
    }
  }

  lemma {:induction false} RoundIsShort(lists: seq<seq<nat>>, i: nat, j: nat)
    requires j <= |lists|
    ensures |Emitted(lists, i, j)| <= |Emitted(lists, i, 0)| + j
    decreases j
  {
    if j > 0 { RoundIsShort(lists, i, j - 1); }
  }

  lemma {:induction false} FirstHitsEmitted(lists: seq<seq<nat>>, p: nat, j: nat)
    requires p < j <= |lists| && lists[p] != []
    ensures lists[p][0] in Emitted(lists, 0, j)
    decreases j
  {
    if p < j - 1 { FirstHitsEmitted(lists, p, j - 1); }
  }

  lemma {:induction false} DedupShorter(s: seq<nat>)
    ensures |Dedup(s)| <= |s|
  {
    if s != [] { DedupShorter(s[..|s| - 1]); }
  }

  lemma TakePrefix(r: seq<nat>, all: seq<nat>, cap: int, x: nat)
    requires r <= all && |r| <= cap && x in r
    ensures x in Take(all, cap)
  {
    var k :| 0 <= k < |r| && r[k] == x;
    assert Take(all, cap)[k] == x;
  }

  /** If the cap is at least the number of paths, the first hit of every path that has one is there. */
  lemma EveryPathIsHeard(lists: seq<seq<nat>>, cap: int, p: nat)
    requires |lists| <= cap && p < |lists| && lists[p] != []
    ensures lists[p][0] in Take(Dedup(Interleaving(lists)), cap)
  {
    var first := Emitted(lists, 0, |lists|);
    assert lists[p] in lists;
    assert Emitted(lists, 1, 0) == first;
    EmittedWithin(lists, 1, 0);
    FirstHitsEmitted(lists, p, |lists|);
    RoundIsShort(lists, 0, |lists|);
    DedupShorter(first);
    TakePrefix(Dedup(first), Dedup(Interleaving(lists)), cap, lists[p][0]);
  }

  /** The cap when no total is asked for. */
  function DefaultCap(lists: seq<seq<nat>>, each: int): int {
    each * (if |lists| > 1 then |lists| else 1)
  }

  lemma {:induction false} EmittedBound(lists: seq<seq<nat>>, i: nat)
    ensures |Emitted(lists, i, 0)| <= i * |lists|
    decreases i
  {
    if i > 0 {
      EmittedBound(lists, i - 1);
      RoundIsShort(lists, i - 1, |lists|);
      assert (i - 1) * |lists| + |lists| == i * |lists|;
    }
  }

  /** With the default cap nothing is cut: paths that return at most `each` hits are merged whole. */
  lemma DefaultCapCutsNothing(lists: seq<seq<nat>>, each: nat)
    requires forall l | l in lists :: |l| <= each
    ensures Take(Dedup(Interleaving(lists)), DefaultCap(lists, each)) == Dedup(Interleaving(lists))
  {
    var n := Rounds(lists);
    assert n <= each;
    EmittedBound(lists, n);
    DedupShorter(Interleaving(lists));
    MultiplyUp(n, each, |lists|);
  }

  lemma MultiplyUp(n: nat, m: nat, k: nat)
    requires n <= m
    ensures n * k <= m * k
  {
  }
}
