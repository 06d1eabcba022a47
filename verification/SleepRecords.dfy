/** What one consolidation cycle leaves in the log, event by event (sleep.py): what each event cites, that nothing
    picked goes unrecorded, what the closing bracket says, and when a thread of the mind's own is born. */
module SleepRecords {
  import opened EventLog
  import opened Sleep
  import opened SelfThreads
  import opened SleepCycle
  import opened SleepPicks

  // ------------------------------------------------------- the memory stages

  predicate Names(e: Event, ids: seq<nat>) {
    |e.relatedTo| == |ids| && forall i | 0 <= i < |ids| :: e.relatedTo[i] == Evt(ids[i])
  }

  /** An event of one of the first five stages, brought about by the opening bracket: the cluster folded, a thread put
      to rest, an old memory brought back, two families linked, or a dream. */
  predicate OfStage(e: Event, p: Memories, start: nat, now: real) {
    && e.causedBy == [Evt(start)] && e.at == now && !e.system
    && match e.body
       case MemoryConsolidated(Compress) => p.merged != [] && Names(e, p.merged)
       case MemoryConsolidated(Reactivate) => exists i | 0 <= i < |p.revived| :: NamesPair(e, p.revived[i])
       case MemoryConsolidated(CrossLink) => p.cross.Some? && NamesPair(e, p.cross.value)
       case ThreadDormant => e.thread in p.idle && e.relatedTo == []
       case ThoughtCreated(origin) =>
         origin.Untagged? && p.dream.Some? && NamesPair(e, p.dream.value) && e.recalled == e.relatedTo
       case _ => false
  }

  predicate NamesPair(e: Event, pair: Pair) {
    e.relatedTo == [Evt(pair.0), Evt(pair.1)]
  }

  lemma PairRefs(a: nat, b: nat)
    ensures Refs([a, b]) == [Evt(a), Evt(b)]
  {
  }

  lemma {:induction false} PairAt(ps: seq<Pair>, a: SleepAction, start: nat, now: real, i: nat)
    requires i < |ps|
    ensures |PairLog(ps, a, start, now)| == |ps|
    ensures var e := PairLog(ps, a, start, now)[i];
            && e.body == MemoryConsolidated(a) && NamesPair(e, ps[i])
            && e.causedBy == [Evt(start)] && e.at == now && !e.system
  {
    PairLogLength(ps, a, start, now);
    PairLogLength(ps[..|ps| - 1], a, start, now);
    if i < |ps| - 1 {
      PairAt(ps[..|ps| - 1], a, start, now, i);
    } else {
      PairRefs(ps[i].0, ps[i].1);
    }
  }

  lemma {:induction false} IdleAt(idle: seq<Option<string>>, start: nat, now: real, i: nat)
    requires i < |idle|
    ensures |IdleLog(idle, start, now)| == |idle|
    ensures var e := IdleLog(idle, start, now)[i];
            && e.body == ThreadDormant && e.thread == idle[i] && e.relatedTo == []
            && e.causedBy == [Evt(start)] && e.at == now && !e.system
  {
    IdleLogLength(idle, start, now);
    IdleLogLength(idle[..|idle| - 1], start, now);
    if i < |idle| - 1 {
      IdleAt(idle[..|idle| - 1], start, now, i);
    }
  }

  lemma RevivedOfStage(p: Memories, start: nat, now: real, e: Event)
    requires e in PairLog(p.revived, Reactivate, start, now)
    ensures OfStage(e, p, start, now)
  {
    PairLogLength(p.revived, Reactivate, start, now);
    var i :| 0 <= i < |p.revived| && PairLog(p.revived, Reactivate, start, now)[i] == e;
    PairAt(p.revived, Reactivate, start, now, i);
  }

  lemma CrossOfStage(p: Memories, start: nat, now: real, e: Event)
    requires e in PairLog(OptSeq(p.cross), CrossLink, start, now)
    ensures OfStage(e, p, start, now)
  {
    PairLogLength(OptSeq(p.cross), CrossLink, start, now);
    PairAt(OptSeq(p.cross), CrossLink, start, now, 0);
  }

  lemma IdleOfStage(p: Memories, start: nat, now: real, e: Event)
    requires e in IdleLog(p.idle, start, now)
    ensures OfStage(e, p, start, now)
  {
    IdleLogLength(p.idle, start, now);
    var i :| 0 <= i < |p.idle| && IdleLog(p.idle, start, now)[i] == e;
    IdleAt(p.idle, start, now, i);
  }

  lemma OthersOfStage(p: Memories, start: nat, now: real, e: Event)
    requires e in MergeLog(p.merged, start, now) || e in DreamLog(p.dream, start, now)
    ensures OfStage(e, p, start, now)
  {
    if e in DreamLog(p.dream, start, now) {
      PairRefs(p.dream.value.0, p.dream.value.1);
    }
  }

  lemma MemoryOfStage(p: Memories, start: nat, now: real, e: Event)
    requires e in MemoryLog(p, start, now)
    ensures OfStage(e, p, start, now)
  {
    if e in PairLog(p.revived, Reactivate, start, now) {
      RevivedOfStage(p, start, now, e);
    } else if e in PairLog(OptSeq(p.cross), CrossLink, start, now) {
      CrossOfStage(p, start, now, e);
    } else if e in IdleLog(p.idle, start, now) {
      IdleOfStage(p, start, now, e);
    } else {
      OthersOfStage(p, start, now, e);
    }
  }

  // -------------------------------------------------------- the whole cycle

  /** The two records of a thread born at position `k`: its beginning, from the two memories it is grown from, and then
      its activation. */
  predicate OfBirth(e: Event, k: nat, self: SelfOutcome, start: nat, tid: string, now: real) {
    && self.Born? && e.thread == Some(tid) && e.at == now && !e.system
    && match e.body
       case ThreadCreated(own, title, derived) =>
         && own && title == self.title && derived == {Evt(self.first), Evt(self.second)}
         && e.relatedTo == [Evt(self.first), Evt(self.second)] && e.causedBy == [Evt(start)]
       case ThreadActivated => k > 0 && e.causedBy == [Evt(k - 1)] && e.relatedTo == []
       case _ => false
  }

  /** The closing bracket: the number of events it reports, each cited, or the opening one if there is none. */
  predicate Closes(e: Event, start: nat, count: nat, now: real) {
    && e.body.SleepCompleted? && e.body.eventCount == count && e.at == now && e.system
    && |e.causedBy| == (if count == 0 then 1 else count)
    && forall i | 0 <= i < |e.causedBy| :: e.causedBy[i] == Evt(if count == 0 then start else start + 1 + i)
  }

  lemma BornAt(self: SelfOutcome, start: nat, pos: nat, tid: string, now: real, i: nat)
    requires i < |SelfLog(self, start, pos, tid, now)|
    ensures OfBirth(SelfLog(self, start, pos, tid, now)[i], pos + i, self, start, tid, now)
  {
    PairRefs(self.first, self.second);
  }

  lemma ClosesWell(p: Plan, start: nat, now: real)
    ensures Closes(Completed(p, start, now), start, Durable(p), now)
  {
  }

  /** Event `k` records a stage of the cycle begun at `start`, or the birth of a thread. */
  predicate Recorded(e: Event, k: nat, p: Plan, start: nat, tid: string, now: real) {
    OfStage(e, p.mem, start, now) || OfBirth(e, k, p.self, start, tid, now)
  }

  lemma WrittenRecord(p: Plan, start: nat, tid: string, now: real, w: Log, j: nat)
    requires w == Written(p, start, tid, now) && j < |w|
    ensures Recorded(w[j], start + 1 + j, p, start, tid, now)
  {
    var mem := MemoryLog(p.mem, start, now);
    if j < |mem| {
      assert mem[j] in mem;
      MemoryOfStage(p.mem, start, now, mem[j]);
    } else {
      BornAt(p.self, start, start + 1 + |mem|, tid, now, j - |mem|);
    }
  }

  ghost predicate AllRecorded(w: Log, p: Plan, start: nat, tid: string, now: real) {
    forall j | 0 <= j < |w| :: Recorded(w[j], start + 1 + j, p, start, tid, now)
  }

  lemma WrittenIsRecorded(p: Plan, start: nat, tid: string, now: real)
    ensures AllRecorded(Written(p, start, tid, now), p, start, tid, now)
  {
    var w := Written(p, start, tid, now);
    forall j | 0 <= j < |w| ensures Recorded(w[j], start + 1 + j, p, start, tid, now) {
      WrittenRecord(p, start, tid, now, w, j);
    }
  }

  lemma BodyIsRecorded(seen: Log, w: Log, last: Event, log: Log, tid: string, now: real, p: Plan, start: nat, k: nat)
    requires log == seen + w + [last] && |seen| == start + 1 && |seen| <= k < |log| - 1
    requires AllRecorded(w, p, start, tid, now)
    ensures Recorded(log[k], k, p, start, tid, now)
  {
    Between(seen, w, last, log, k);
    var j := k - |seen|;
    assert Recorded(w[j], start + 1 + j, p, start, tid, now);
  }

  /** Every event of a finished cycle but the last is a record of a stage or of the birth of a thread. */
  lemma CycleIsRecorded(seen: Log, log: Log, n: Night, r: Rules, now: real, p: Plan, k: nat)
    requires Cycled(seen, log, n, r, now, p) && |seen| <= k < |log| - 1
    ensures Recorded(log[k], k, p, |seen| - 1, n.tid, now)
  {
    var start: nat := |seen| - 1;
    WrittenIsRecorded(p, start, n.tid, now);
    BodyIsRecorded(seen, Written(p, start, n.tid, now), Completed(p, start, now), log, n.tid, now, p, start, k);
  }

  /** The last is the closing bracket, which reports every event but the activation of a new thread. */
  lemma CycleIsClosed(seen: Log, log: Log, n: Night, r: Rules, now: real, p: Plan)
    requires Cycled(seen, log, n, r, now, p)
    ensures Closes(log[|log| - 1], |seen| - 1, |log| - |seen| - (if p.self.Born? then 2 else 1), now)
  {
    DurableCountsEvents(p, |seen| - 1, n.tid, now);
    ClosesWell(p, |seen| - 1, now);
  }

  // ----------------------------------------------------- nothing is left out

  /** Event `k` of the cycle has this body. */
  predicate At(seen: Log, log: Log, k: nat, body: Body) {
    |seen| <= k < |log| && log[k].body == body
  }

  lemma PlaceOf(es: seq<Event>, e: Event) returns (i: nat)
    requires e in es
    ensures i < |es| && es[i] == e
  {
    i :| i < |es| && es[i] == e;
  }

  lemma RevivalPlace(p: Memories, start: nat, now: real, i: nat) returns (j: nat)
    requires i < |p.revived|
    ensures j < |MemoryLog(p, start, now)|
    ensures var e := MemoryLog(p, start, now)[j]; e.body == MemoryConsolidated(Reactivate) && NamesPair(e, p.revived[i])
  {
    var es := PairLog(p.revived, Reactivate, start, now);
    PairAt(p.revived, Reactivate, start, now, i);
    assert es[i] in es;
    j := PlaceOf(MemoryLog(p, start, now), es[i]);
  }

  lemma RestPlace(p: Memories, start: nat, now: real, i: nat) returns (j: nat)
    requires i < |p.idle|
    ensures j < |MemoryLog(p, start, now)|
    ensures var e := MemoryLog(p, start, now)[j]; e.body == ThreadDormant && e.thread == p.idle[i]
  {
    var es := IdleLog(p.idle, start, now);
    IdleAt(p.idle, start, now, i);
    assert es[i] in es;
    j := PlaceOf(MemoryLog(p, start, now), es[i]);
  }

  lemma MergePlace(p: Memories, start: nat, now: real) returns (j: nat)
    requires p.merged != []
    ensures j < |MemoryLog(p, start, now)|
    ensures var e := MemoryLog(p, start, now)[j]; e.body == MemoryConsolidated(Compress) && Names(e, p.merged)
  {
    var es := MergeLog(p.merged, start, now);
    assert es[0] in es;
    j := PlaceOf(MemoryLog(p, start, now), es[0]);
  }

  lemma DreamPlace(p: Memories, start: nat, now: real) returns (j: nat)
    requires p.dream.Some?
    ensures j < |MemoryLog(p, start, now)|
    ensures var e := MemoryLog(p, start, now)[j]; e.body == ThoughtCreated(Untagged) && NamesPair(e, p.dream.value)
  {
    var es := DreamLog(p.dream, start, now);
    assert es[0] in es;
    j := PlaceOf(MemoryLog(p, start, now), es[0]);
    PairRefs(p.dream.value.0, p.dream.value.1);
  }

  /** The events `mem` stand in the log right after `seen`. */
  predicate Stands(seen: Log, log: Log, mem: Log) {
    forall j | 0 <= j < |mem| :: |seen| + j < |log| && log[|seen| + j] == mem[j]
  }

  lemma RevivalThere(seen: Log, log: Log, p: Memories, start: nat, now: real, i: nat) returns (k: nat)
    requires Stands(seen, log, MemoryLog(p, start, now)) && i < |p.revived|
    ensures At(seen, log, k, MemoryConsolidated(Reactivate)) && NamesPair(log[k], p.revived[i])
  {
    var j := RevivalPlace(p, start, now, i);
    k := |seen| + j;
  }

  lemma RestThere(seen: Log, log: Log, p: Memories, start: nat, now: real, i: nat) returns (k: nat)
    requires Stands(seen, log, MemoryLog(p, start, now)) && i < |p.idle|
    ensures At(seen, log, k, ThreadDormant) && log[k].thread == p.idle[i]
  {
    var j := RestPlace(p, start, now, i);
    k := |seen| + j;
  }

  lemma MergeThere(seen: Log, log: Log, p: Memories, start: nat, now: real) returns (k: nat)
    requires Stands(seen, log, MemoryLog(p, start, now)) && p.merged != []
    ensures At(seen, log, k, MemoryConsolidated(Compress)) && Names(log[k], p.merged)
  {
    var j := MergePlace(p, start, now);
    k := |seen| + j;
  }

  lemma DreamThere(seen: Log, log: Log, p: Memories, start: nat, now: real) returns (k: nat)
    requires Stands(seen, log, MemoryLog(p, start, now)) && p.dream.Some?
    ensures At(seen, log, k, ThoughtCreated(Untagged)) && NamesPair(log[k], p.dream.value)
  {
    var j := DreamPlace(p, start, now);
    k := |seen| + j;
  }

  /** Every reactivation is recorded after `seen`, and so are every thread put to rest, the merge and the dream. */
  ghost predicate RecordsAll(seen: Log, log: Log, p: Memories) {
    && (forall i | 0 <= i < |p.revived| ::
          exists k: nat :: At(seen, log, k, MemoryConsolidated(Reactivate)) && NamesPair(log[k], p.revived[i]))
    && (forall i | 0 <= i < |p.idle| :: exists k: nat :: At(seen, log, k, ThreadDormant) && log[k].thread == p.idle[i])
    && (p.merged != [] ==> exists k: nat :: At(seen, log, k, MemoryConsolidated(Compress)) && Names(log[k], p.merged))
    && (p.dream.Some? ==>
          exists k: nat :: At(seen, log, k, ThoughtCreated(Untagged)) && NamesPair(log[k], p.dream.value))
  }

  lemma StandingRecordsAll(seen: Log, log: Log, p: Memories, start: nat, now: real)
    requires Stands(seen, log, MemoryLog(p, start, now))
    ensures RecordsAll(seen, log, p)
  {
    forall i | 0 <= i < |p.revived|
      ensures exists k: nat :: At(seen, log, k, MemoryConsolidated(Reactivate)) && NamesPair(log[k], p.revived[i])
    {
      var k := RevivalThere(seen, log, p, start, now, i);
    }
    forall i | 0 <= i < |p.idle|
      ensures exists k: nat :: At(seen, log, k, ThreadDormant) && log[k].thread == p.idle[i]
    {
      var k := RestThere(seen, log, p, start, now, i);
    }
    if p.merged != [] { var k := MergeThere(seen, log, p, start, now); }
    if p.dream.Some? { var k := DreamThere(seen, log, p, start, now); }
  }

  lemma CycleStands(seen: Log, log: Log, n: Night, r: Rules, now: real, p: Plan)
    requires Cycled(seen, log, n, r, now, p)
    ensures Stands(seen, log, MemoryLog(p.mem, |seen| - 1, now))
  {
    var mem := MemoryLog(p.mem, |seen| - 1, now);
    forall j | 0 <= j < |mem| ensures |seen| + j < |log| && log[|seen| + j] == mem[j] {
      InCycle(seen, log, n, r, now, p, j);
    }
  }

  /** Nothing picked goes unrecorded. */
  lemma NothingIsLeftOut(seen: Log, log: Log, n: Night, r: Rules, now: real, p: Plan)
    requires Cycled(seen, log, n, r, now, p)
    ensures RecordsAll(seen, log, p.mem)
  {
    CycleStands(seen, log, n, r, now, p);
    StandingRecordsAll(seen, log, p.mem, |seen| - 1, now);
  }

  /** A dream is recorded exactly if the closing bracket says so; it says noop exactly if the cycle wrote nothing and
      dropped no thread. */
  lemma LabelIs(seen: Log, log: Log, n: Night, r: Rules, now: real, p: Plan)
    requires Cycled(seen, log, n, r, now, p)
    ensures log[|log| - 1].body.SleepCompleted?
    ensures log[|log| - 1].body.result.Dreamed? <==> exists k: nat :: At(seen, log, k, ThoughtCreated(Untagged))
    ensures log[|log| - 1].body.result.Noop? <==> |log| == |seen| + 1 && !p.self.Deduplicated?
  {
    NoopMeansNothingWritten(p, |seen| - 1, n.tid, now);
    NothingIsLeftOut(seen, log, n, r, now, p);
    forall k: nat | At(seen, log, k, ThoughtCreated(Untagged)) ensures p.mem.dream.Some? {
      CycleIsClosed(seen, log, n, r, now, p);
      CycleIsRecorded(seen, log, n, r, now, p, k);
    }
  }

  // ------------------------------------------------- a thread of the mind's own

  /** The own threads among the newest `read` thread rows. */
  function OwnAmong(log: Log, read: nat): set<nat> {
    set k | k in Newest(log, IsThread, read) && k < |log| && log[k].body.ThreadCreated? && log[k].body.selfOrigin
  }

  lemma {:induction false} SelfInIs(log: Log, rows: seq<nat>)
    requires forall i, j | 0 <= i < j < |rows| :: rows[i] != rows[j]
    ensures SelfIn(log, rows)
            == |set k | k in rows && k < |log| && log[k].body.ThreadCreated? && log[k].body.selfOrigin|
  {
    if rows != [] {
      var own := set k | k in rows && k < |log| && log[k].body.ThreadCreated? && log[k].body.selfOrigin;
      var rest := rows[1..];
      var ownRest := set k | k in rest && k < |log| && log[k].body.ThreadCreated? && log[k].body.selfOrigin;
      SelfInIs(log, rest);
      assert rows == [rows[0]] + rest;
      assert rows[0] !in rest;
      if rows[0] < |log| && IsSelfThread(log[rows[0]]) {
        assert own == ownRest + {rows[0]};
      } else {
        assert own == ownRest;
      }
    }
  }

  lemma {:induction false} NewestAreDistinct(log: Log, p: Event -> bool, limit: nat)
    ensures forall i, j | 0 <= i < j < |Newest(log, p, limit)| :: Newest(log, p, limit)[i] != Newest(log, p, limit)[j]
  {
    if log != [] && limit > 0 {
      var front := log[..|log| - 1];
      NewestAreDistinct(front, p, if p(log[|log| - 1]) then limit - 1 else limit);
      NewestWithin(front, p, if p(log[|log| - 1]) then limit - 1 else limit);
    }
  }

  /** An own thread of the window that grew from the same two memories or has the same title, however spelled. */
  ghost predicate TwinAmong(log: Log, s: Synthesis, now: real, r: Rules, k: nat) {
    && k in OwnAmong(log, r.threadRead)
    && (r.poolS.Some? ==> now - r.poolS.value <= log[k].at)
    && (|| log[k].body.derived == {Evt(s.first), Evt(s.second)}
        || (r.norm(s.title) != "" && r.norm(log[k].body.title) == r.norm(s.title)))
  }

  lemma HasTwinIs(log: Log, s: Synthesis, now: real, r: Rules)
    ensures HasTwin(log, {Evt(s.first), Evt(s.second)}, s.title, now, r)
            <==> exists k: nat :: TwinAmong(log, s, now, r, k)
  {
    if k :| k in Newest(log, IsThread, r.threadRead)
            && k < |log| && NearIdentical(log[k], {Evt(s.first), Evt(s.second)}, s.title, now, r) {
      assert Evt(s.first) in {Evt(s.first), Evt(s.second)};
      assert TwinAmong(log, s, now, r, k);
    }
    if k: nat :| TwinAmong(log, s, now, r, k) {
      assert NearIdentical(log[k], {Evt(s.first), Evt(s.second)}, s.title, now, r);
    }
  }

  lemma {:induction false} SameThreads(log: Log, more: Log, read: nat)
    requires forall i | 0 <= i < |more| :: !more[i].body.ThreadCreated?
    ensures Newest(log + more, IsThread, read) == Newest(log, IsThread, read)
  {
    if more == [] {
      assert log + more == log;
    } else {
      var front := more[..|more| - 1];
      SameThreads(log, front, read);
      assert log + more == (log + front) + [more[|more| - 1]];
      NewestAppend(log + front, more[|more| - 1], IsThread, read);
    }
  }

  lemma SameTwins(log: Log, more: Log, s: Synthesis, now: real, r: Rules)
    requires forall i | 0 <= i < |more| :: !more[i].body.ThreadCreated?
    ensures OwnAmong(log + more, r.threadRead) == OwnAmong(log, r.threadRead)
    ensures forall k: nat :: TwinAmong(log + more, s, now, r, k) <==> TwinAmong(log, s, now, r, k)
  {
    SameThreads(log, more, r.threadRead);
    NewestWithin(log, IsThread, r.threadRead);
    assert forall k | k in Newest(log, IsThread, r.threadRead) :: k < |log| && (log + more)[k] == log[k];
  }

  lemma SelfRuleIs(log: Log, n: Night, now: real, r: Rules, self: SelfOutcome)
    requires SelfRule(log, n, now, r, self)
    ensures var may := n.selfRoll < n.selfProb && |OwnAmong(log, r.threadRead)| < r.selfMax && n.synthesis.Some?;
            && (self.Untried? <==> !may)
            && (self.Deduplicated? <==> may && exists k: nat :: TwinAmong(log, n.synthesis.value, now, r, k))
            && (self.Born? ==> self == Born(n.synthesis.value.first, n.synthesis.value.second, n.synthesis.value.title))
  {
    NewestAreDistinct(log, IsThread, r.threadRead);
    SelfInIs(log, Newest(log, IsThread, r.threadRead));
    if n.synthesis.Some? {
      HasTwinIs(log, n.synthesis.value, now, r);
    }
  }

  /** A cycle tries to give the mind a thread of its own exactly if the roll allows it, fewer own threads than the cap
      stand among the newest thread rows, and there are two memories to grow it from. The thread is then born unless an
      own thread of the window is its twin. */
  lemma BornExactlyWhen(seen: Log, n: Night, r: Rules, now: real, p: Plan)
    requires Planned(seen, n, r, now, p)
    ensures var may := n.selfRoll < n.selfProb && |OwnAmong(seen, r.threadRead)| < r.selfMax && n.synthesis.Some?;
            && (p.self.Untried? <==> !may)
            && (p.self.Deduplicated? <==> may && exists k: nat :: TwinAmong(seen, n.synthesis.value, now, r, k))
            && (p.self.Born? ==>
                  p.self == Born(n.synthesis.value.first, n.synthesis.value.second, n.synthesis.value.title))
  {
    var mem := MemoryLog(p.mem, |seen| - 1, now);
    forall i | 0 <= i < |mem| ensures !mem[i].body.ThreadCreated? {
      assert mem[i] in mem;
      MemoryOfStage(p.mem, |seen| - 1, now, mem[i]);
    }
    SelfRuleIs(seen + mem, n, now, r, p.self);
    SameTwins(seen, mem, if n.synthesis.Some? then n.synthesis.value else Synthesis(0, 0, ""), now, r);
  }
}
