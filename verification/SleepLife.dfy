/** What sleep cycles keep (sleep.py): no memory linked twice within a cycle, and over any run of cycles
    and other writes the bound on the mind's own threads and the ban on near-identical ones. */
module SleepLife {
  import opened EventLog
  import opened Sleep
  import opened SelfThreads
  import opened SleepCycle
  import M = MentalState

  // ----------------------------------------------- links within one cycle

  /** The memories an event of the cycle relates to. */
  function Linked(e: Event): set<nat> {
    set r | r in e.relatedTo && r.Evt? :: r.pos
  }

  function LinkSets(log: Log): (s: seq<set<nat>>)
    ensures |s| == |log| && forall i | 0 <= i < |s| :: s[i] == Linked(log[i])
  {
    seq(|log|, i requires 0 <= i < |log| => Linked(log[i]))
  }

  lemma LinkedFrom(start: nat, body: Body, ids: seq<nat>, now: real)
    ensures Linked(From(start, body, ids, now)) == SetOf(ids)
  {
    var refs := Refs(ids);
    forall k | k in SetOf(ids) ensures k in Linked(From(start, body, ids, now)) {
      var i :| 0 <= i < |ids| && ids[i] == k;
      assert refs[i] == Evt(k);
    }
  }

  lemma {:induction false} IdleLinks(idle: seq<Option<string>>, start: nat, now: real)
    ensures forall e | e in IdleLog(idle, start, now) :: Linked(e) == {} && !IsSelfThread(e)
  {
    if idle != [] {
      IdleLinks(idle[..|idle| - 1], start, now);
      LinkedFrom(start, ThreadDormant, [], now);
    }
  }

  lemma {:induction false} PairLinks(pairs: seq<Pair>, action: SleepAction, start: nat, now: real)
    ensures LinkSets(PairLog(pairs, action, start, now)) == PairSets(pairs)
    ensures forall e | e in PairLog(pairs, action, start, now) :: !IsSelfThread(e)
  {
    if pairs != [] {
      var p := pairs[|pairs| - 1];
      PairLinks(pairs[..|pairs| - 1], action, start, now);
      LinkedFrom(start, MemoryConsolidated(action), [p.0, p.1], now);
      assert SetOf([p.0, p.1]) == Ids(p);
      assert LinkSets(PairLog(pairs, action, start, now))
          == LinkSets(PairLog(pairs[..|pairs| - 1], action, start, now)) + [Ids(p)];
    }
  }

  lemma MergeLinks(merged: seq<nat>, start: nat, now: real)
    ensures LinkSets(MergeLog(merged, start, now)) == if merged == [] then [] else [SetOf(merged)]
  {
    LinkedFrom(start, MemoryConsolidated(Compress), merged, now);
  }

  lemma DreamLinks(dream: Option<Pair>, start: nat, now: real)
    ensures LinkSets(DreamLog(dream, start, now)) == PairSets(OptSeq(dream))
  {
    if dream.Some? {
      var (a, b) := dream.value;
      LinkedFrom(start, ThoughtCreated(Untagged), [a, b], now);
      assert Linked(DreamLog(dream, start, now)[0]) == Linked(From(start, ThoughtCreated(Untagged), [a, b], now));
      assert SetOf([a, b]) == Ids(dream.value);
      assert [dream.value][..0] == [];
    }
  }

  lemma LinkSetsConcat(a: Log, b: Log)
    ensures LinkSets(a + b) == LinkSets(a) + LinkSets(b)
  {
  }

  lemma EmptySetsBetween(a: seq<set<nat>>, z: seq<set<nat>>, b: seq<set<nat>>)
    requires Disjoint(a + b) && forall i | 0 <= i < |z| :: z[i] == {}
    ensures Disjoint(a + z + b)
  {
    var all, ab := a + z + b, a + b;
    forall i, j | 0 <= i < j < |all| ensures all[i] !! all[j] {
      if !(|a| <= i < |a| + |z|) && !(|a| <= j < |a| + |z|) {
        var i', j' := if i < |a| then i else i - |z|, if j < |a| then j else j - |z|;
        assert all[i] == ab[i'] && all[j] == ab[j'];
      }
    }
  }

  /** The events of a cycle that consolidate memories never link the same memory twice. */
  lemma LinksAreDisjoint(log: Log, n: Night, p: Memories, start: nat, now: real)
    requires FollowsRules(log, n.forgotten, n.sim, Dreams(n), p)
    ensures Disjoint(LinkSets(MemoryLog(p, start, now)))
  {
    var m, i := MergeLog(p.merged, start, now), IdleLog(p.idle, start, now);
    var v, c := PairLog(p.revived, Reactivate, start, now), PairLog(OptSeq(p.cross), CrossLink, start, now);
    var d := DreamLog(p.dream, start, now);
    MergeLinks(p.merged, start, now);
    IdleLinks(p.idle, start, now);
    PairLinks(p.revived, Reactivate, start, now);
    PairLinks(OptSeq(p.cross), CrossLink, start, now);
    DreamLinks(p.dream, start, now);
    LinkSetsConcat(m, i);
    LinkSetsConcat(m + i, v);
    LinkSetsConcat(m + i + v, c);
    LinkSetsConcat(m + i + v + c, d);
    NoMemoryTwice(log, n.forgotten, n.sim, Dreams(n), p);
    Cut(LinkSets(m), LinkSets(i), LinkSets(v), LinkSets(c), LinkSets(d));
    assert forall k | 0 <= k < |i| :: i[k] in i;
  }

  lemma Cut(m: seq<set<nat>>, i: seq<set<nat>>, v: seq<set<nat>>, c: seq<set<nat>>, d: seq<set<nat>>)
    requires Disjoint(m + v + c + d)
    ensures (forall k | 0 <= k < |i| :: i[k] == {}) ==> Disjoint(m + i + v + c + d)
  {
    if forall k | 0 <= k < |i| :: i[k] == {} {
      assert m + v + c + d == m + (v + c + d);
      EmptySetsBetween(m, i, v + c + d);
      assert m + i + v + c + d == m + i + (v + c + d);
    }
  }

  // ------------------------------------------------------- over many cycles

  lemma {:induction false} SoundMany(log: Log, more: Log, r: Rules)
    requires Sound(log, r) && forall e | e in more :: !IsSelfThread(e)
    ensures Sound(log + more, r)
  {
    if more == [] {
      assert log + more == log;
    } else {
      var front := more[..|more| - 1];
      SoundMany(log, front, r);
      assert log + more == log + front + [more[|more| - 1]];
      SoundAppend(log + front, more[|more| - 1], r);
    }
  }

  lemma MemoryLogOwnsNoThread(p: Memories, start: nat, now: real)
    ensures forall e | e in MemoryLog(p, start, now) :: !IsSelfThread(e)
  {
    IdleLinks(p.idle, start, now);
    PairLinks(p.revived, Reactivate, start, now);
    PairLinks(OptSeq(p.cross), CrossLink, start, now);
  }

  /** A new thread passed both checks on the log it was added to. */
  lemma SelfLogSound(log: Log, n: Night, self: SelfOutcome, start: nat, now: real, r: Rules)
    requires Sound(log, r) && SelfRule(log, n, now, r, self)
    ensures Sound(log + SelfLog(self, start, |log|, n.tid, now), r)
  {
    var more := SelfLog(self, start, |log|, n.tid, now);
    if self.Born? {
      SoundAppend(log, more[0], r);
      SoundAppend(log + [more[0]], more[1], r);
      assert log + more == log + [more[0]] + [more[1]];
    } else {
      assert log + more == log;
    }
  }

  /** A cycle keeps the cap and the ban on near-identical threads. */
  lemma CycleKeepsSound(before: Log, log: Log, n: Night, r: Rules, now: real, p: Plan)
    requires Sound(before, r) && Cycled(before + [Started(now)], log, n, r, now, p)
    ensures Sound(log, r)
  {
    var seen, start := before + [Started(now)], |before|;
    var mem := MemoryLog(p.mem, start, now);
    SoundAppend(before, Started(now), r);
    MemoryLogOwnsNoThread(p.mem, start, now);
    SoundMany(seen, mem, r);
    SelfLogSound(seen + mem, n, p.self, start, now, r);
    WrittenIs(seen, p, n.tid, now);
    SoundAppend(seen + Written(p, start, n.tid, now), Completed(p, start, now), r);
  }

  /** A step of the mind's life: a cycle on what the store then holds, or a write by anyone else. */
  datatype Step = Sleeps(at: real, night: Night) | Writes(at: real, draft: Event)

  /** In every run in which only sleep creates the mind's own threads, every log is sound. */
  method Nights(store: EventStore, steps: seq<Step>, r: Rules)
    requires store.Valid() && Sound(store.log, r)
    requires forall i | 0 <= i < |steps| :: store.clock <= steps[i].at
                                            && (steps[i].Writes? ==> !IsSelfThread(steps[i].draft))
    requires forall i, j | 0 <= i < j < |steps| :: steps[i].at <= steps[j].at
    modifies store
    ensures store.Valid() && Sound(store.log, r)
  {
    for i := 0 to |steps|
      invariant store.Valid() && Sound(store.log, r)
      invariant forall j | i <= j < |steps| :: store.clock <= steps[j].at
    {
      store.Advance(steps[i].at);
      match steps[i] {
        case Sleeps(_, night) => SleepSoundly(store, night, r);
        case Writes(_, draft) => WriteSoundly(store, draft, r);
      }
    }
  }

  method WriteSoundly(store: EventStore, draft: Event, ghost r: Rules)
    requires store.Valid() && Sound(store.log, r) && !IsSelfThread(draft)
    modifies store`log
    ensures store.Valid() && Sound(store.log, r)
  {
    SoundAppend(store.log, draft.(at := store.clock), r);
    var _ := store.Append(draft);
  }

  method SleepSoundly(store: EventStore, night: Night, r: Rules)
    requires store.Valid() && Sound(store.log, r)
    modifies store`log
    ensures store.Valid() && Sound(store.log, r)
  {
    var fits := FitsNow(store.log + [Started(store.clock)], night);
    if fits {
      ghost var before := store.log;
      var p, _ := SleepOnce(store, night, r);
      CycleKeepsSound(before, store.log, night, r, store.clock, p);
    }
  }

  method FitsNow(log: Log, n: Night) returns (fits: bool)
    ensures fits ==> Fits(n, log)
  {
    var mind := M.FromStore(log, 1000);
    fits := (set t | t in n.active) == M.ActiveThreads(mind.threads)
            && (n.synthesis.Some? ==> n.synthesis.value.first < |log| && n.synthesis.value.second < |log|);
  }
}
