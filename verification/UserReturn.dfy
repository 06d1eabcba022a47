/** The facts of an absence (continuity.py): the scan of the gap window, the questions that died in it,
    and the events written when the user returns. */
module UserReturn {
  import opened EventLog
  import opened Genesis
  import opened Questions
  import opened Continuity

  datatype Class = ThreadBack | QuestionRemet | ImpressionCollision | WorldChangedMind | SelfThoughtExtended
                 | WentDormant

  /** What a fact is about; at most one fact is kept for each. */
  datatype Anchor = AtQuestion(question: Ref) | AtThread(thread: Option<string>) | AtImpression(pos: nat)
                  | AtThought(pos: nat) | Dead(asked: nat)

  datatype Fact = Fact(cls: Class, anchor: Anchor, evidence: seq<Ref>)

  // -------------------------------------------------------------- detection

  /** `evidence` with the ids of `rids` that are in the log and not there yet. */
  function WithResolved(log: Log, evidence: seq<Ref>, rids: seq<Ref>): seq<Ref>
    decreases rids
  {
    if rids == [] then evidence
    else if Resolves(log, rids[0]) && rids[0] !in evidence then WithResolved(log, evidence + [rids[0]], rids[1..])
    else WithResolved(log, evidence, rids[1..])
  }

  function FirstOfWorld(log: Log, rids: seq<Ref>): Option<Ref> {
    if rids == [] then None
    else if Resolves(log, rids[0]) && Family(TypeName(log[rids[0].pos].body)) == "world" then Some(rids[0])
    else FirstOfWorld(log, rids[1..])
  }

  /** The structural signature of an event that changed the mind. */
  function Detect(log: Log, k: nat): Option<Fact>
    requires k < |log|
  {
    var e := log[k];
    match e.body
    case QuestionRevisited(q) =>
      var grewFrom := if Resolves(log, q) && IsQuestion(log[q.pos]) then log[q.pos].body.evidence else [];
      Some(Fact(QuestionRemet, AtQuestion(q), WithResolved(log, [Evt(k), q], grewFrom)))
    case ThreadRevisited => Some(Fact(ThreadBack, AtThread(e.thread), [Evt(k)]))
    case ThoughtCreated(_) =>
      var world := FirstOfWorld(log, e.recalled);
      if world.Some? then Some(Fact(WorldChangedMind, AtThought(k), [Evt(k), world.value]))
      else if IsOwnThought(e) then Some(Fact(SelfThoughtExtended, AtThought(k), [Evt(k)]))
      else None
    case ImpressionPromoted(impression) => Some(Fact(ImpressionCollision, AtImpression(k), [Evt(k), impression]))
    case _ => None
  }

  // ------------------------------------------------- what is detected, by fields

  predicate OfFamilyAt(log: Log, rids: seq<Ref>, i: nat, family: string) {
    && i < |rids| && Resolves(log, rids[i])
    && Family(TypeName(log[rids[i].pos].body)) == family
  }

  /** The first id of an event of the world, if there is one. */
  lemma {:induction false} FirstOfWorldIs(log: Log, rids: seq<Ref>)
    ensures FirstOfWorld(log, rids).None? <==> forall i: nat :: !OfFamilyAt(log, rids, i, "world")
    ensures FirstOfWorld(log, rids).Some?
            ==> exists i: nat :: OfFamilyAt(log, rids, i, "world") && FirstOfWorld(log, rids).value == rids[i]
                                 && forall j: nat | j < i :: !OfFamilyAt(log, rids, j, "world")
  {
    if rids != [] {
      FirstOfWorldIs(log, rids[1..]);
      assert forall i: nat :: OfFamilyAt(log, rids[1..], i, "world") <==> OfFamilyAt(log, rids, i + 1, "world");
      if OfFamilyAt(log, rids, 0, "world") {
      } else if FirstOfWorld(log, rids[1..]).Some? {
        var i: nat :| OfFamilyAt(log, rids[1..], i, "world") && FirstOfWorld(log, rids[1..]).value == rids[1..][i]
                      && forall j: nat | j < i :: !OfFamilyAt(log, rids[1..], j, "world");
        assert OfFamilyAt(log, rids, i + 1, "world");
        forall j: nat | j < i + 1 ensures !OfFamilyAt(log, rids, j, "world") {
          if j > 0 { assert !OfFamilyAt(log, rids[1..], j - 1, "world"); }
        }
      } else {
        forall i: nat ensures !OfFamilyAt(log, rids, i, "world") {
          if i > 0 { assert !OfFamilyAt(log, rids[1..], i - 1, "world"); }
        }
      }
    }
  }

  /** The evidence goes on with the ids that are in the log, each once. */
  lemma {:induction false} WithResolvedIs(log: Log, evidence: seq<Ref>, rids: seq<Ref>)
    ensures evidence <= WithResolved(log, evidence, rids)
    ensures forall r :: r in WithResolved(log, evidence, rids) <==> r in evidence || (r in rids && Resolves(log, r))
    ensures DistinctRefs(evidence) ==> DistinctRefs(WithResolved(log, evidence, rids))
    decreases rids
  {
    if rids != [] {
      var more := if Resolves(log, rids[0]) && rids[0] !in evidence then evidence + [rids[0]] else evidence;
      assert rids == [rids[0]] + rids[1..];
      WithResolvedIs(log, more, rids[1..]);
      assert evidence <= more;
    }
  }

  predicate DistinctRefs(s: seq<Ref>) {
    forall i, j | 0 <= i < j < |s| :: s[i] != s[j]
  }

  /** What an event of the window tells the user who is back. A thread met again is one fact; so is a
      promotion, with the impression it promotes. A thought tells that the world changed the mind if
      it recalled an event of the world, and otherwise that an own line of thought went on if it is
      the mind's own. Nothing else tells anything. */
  lemma DetectedIs(log: Log, k: nat)
    requires k < |log|
    ensures log[k].body.ThreadRevisited?
            ==> Detect(log, k) == Some(Fact(ThreadBack, AtThread(log[k].thread), [Evt(k)]))
    ensures log[k].body.ImpressionPromoted?
            ==> Detect(log, k)
                == Some(Fact(ImpressionCollision, AtImpression(k), [Evt(k), log[k].body.impression]))
    ensures log[k].body.ThoughtCreated? && Detect(log, k).Some? ==> Detect(log, k).value.anchor == AtThought(k)
    ensures Detect(log, k).Some? && Detect(log, k).value.cls == WorldChangedMind
            <==> log[k].body.ThoughtCreated? && exists i: nat :: OfFamilyAt(log, log[k].recalled, i, "world")
    ensures Detect(log, k).Some? && Detect(log, k).value.cls == WorldChangedMind
            ==> exists i: nat :: OfFamilyAt(log, log[k].recalled, i, "world")
                                 && Detect(log, k).value.evidence == [Evt(k), log[k].recalled[i]]
                                 && forall j: nat | j < i :: !OfFamilyAt(log, log[k].recalled, j, "world")
    ensures Detect(log, k).Some? && Detect(log, k).value.cls == SelfThoughtExtended
            <==> (log[k].body == ThoughtCreated(SelfThread) || log[k].body == ThoughtCreated(PrivateProject))
                 && forall i: nat :: !OfFamilyAt(log, log[k].recalled, i, "world")
    ensures Detect(log, k).Some? && Detect(log, k).value.cls == SelfThoughtExtended
            ==> Detect(log, k).value.evidence == [Evt(k)]
    ensures Detect(log, k).Some? ==> log[k].body.QuestionRevisited? || log[k].body.ThreadRevisited?
                                     || log[k].body.ImpressionPromoted? || log[k].body.ThoughtCreated?
  {
    FirstOfWorldIs(log, log[k].recalled);
  }

  /** A question met again brings back the revisit, the question, and whatever of the question's own
      evidence is in the log, each once. */
  lemma RemetIs(log: Log, k: nat)
    requires k < |log| && log[k].body.QuestionRevisited?
    ensures Detect(log, k).Some?
    ensures var f, q := Detect(log, k).value, log[k].body.question;
            && f.cls == QuestionRemet && f.anchor == AtQuestion(q) && [Evt(k), q] <= f.evidence
            && (q != Evt(k) ==> DistinctRefs(f.evidence))
            && forall r :: r in f.evidence
                           <==> r == Evt(k) || r == q
                                || (Resolves(log, q) && log[q.pos].body.QuestionCreated? && Resolves(log, r)
                                    && r in log[q.pos].body.evidence)
  {
    var q := log[k].body.question;
    var grewFrom := if Resolves(log, q) && IsQuestion(log[q.pos]) then log[q.pos].body.evidence else [];
    WithResolvedIs(log, [Evt(k), q], grewFrom);
  }

  lemma DetectedAnchor(log: Log, k: nat, q: nat)
    requires k < |log|
    ensures Detect(log, k).Some? ==> !Detect(log, k).value.anchor.Dead?
    ensures Detect(log, k).Some? && Detect(log, k).value.anchor == AtQuestion(Evt(q)) <==> RevisitOf(log, k, q)
  {
  }

  /** What the detectors say of the window [lo, hi). */
  function Detections(log: Log, lo: nat, hi: nat): (ds: seq<Option<Fact>>)
    requires lo <= hi <= |log|
    ensures |ds| == hi - lo
  {
    seq(hi - lo, i requires 0 <= i < hi - lo => Detect(log, lo + i))
  }

  function AnchorsOf(facts: seq<Fact>): set<Anchor> {
    if facts == [] then {} else AnchorsOf(facts[..|facts| - 1]) + {facts[|facts| - 1].anchor}
  }

  lemma {:induction false} AnchorsOfConcat(f: seq<Fact>, g: seq<Fact>)
    ensures AnchorsOf(f + g) == AnchorsOf(f) + AnchorsOf(g)
  {
    if g == [] {
      assert f + g == f;
    } else {
      assert (f + g)[..|f + g| - 1] == f + g[..|g| - 1];
      AnchorsOfConcat(f, g[..|g| - 1]);
    }
  }

  lemma DetectionsSnoc(log: Log, lo: nat, hi: nat)
    requires lo <= hi < |log|
    ensures Detections(log, lo, hi + 1) == Detections(log, lo, hi) + [Detect(log, hi)]
  {
  }

  /** The detected facts in order, the first for each anchor. */
  function KeepFirst(ds: seq<Option<Fact>>): seq<Fact> {
    if ds == [] then [] else
      var rest, d := KeepFirst(ds[..|ds| - 1]), ds[|ds| - 1];
      if d.Some? && d.value.anchor !in AnchorsOf(rest) then rest + [d.value] else rest
  }

  lemma KeepFirstSnoc(ds: seq<Option<Fact>>, d: Option<Fact>)
    ensures KeepFirst(ds + [d])
            == KeepFirst(ds) + if d.Some? && d.value.anchor !in AnchorsOf(KeepFirst(ds)) then [d.value] else []
  {
    assert (ds + [d])[..|ds|] == ds;
  }

  predicate Detects(ds: seq<Option<Fact>>, k: nat, a: Anchor) {
    k < |ds| && ds[k].Some? && ds[k].value.anchor == a
  }

  /** Every detected anchor is kept, by its first fact, and kept once. */
  lemma {:induction false} KeepFirstKeeps(ds: seq<Option<Fact>>, k: nat)
    requires k < |ds| && ds[k].Some?
    ensures ds[k].value.anchor in AnchorsOf(KeepFirst(ds))
    ensures (forall j: nat | j < k :: !Detects(ds, j, ds[k].value.anchor)) ==> ds[k].value in KeepFirst(ds)
  {
    var front, d := ds[..|ds| - 1], ds[|ds| - 1];
    assert ds == front + [d];
    KeepFirstSnoc(front, d);
    AnchorsOfConcat(KeepFirst(front),
                    if d.Some? && d.value.anchor !in AnchorsOf(KeepFirst(front)) then [d.value] else []);
    if k < |front| {
      assert forall j: nat | j < k :: Detects(front, j, ds[k].value.anchor) ==> Detects(ds, j, ds[k].value.anchor);
      KeepFirstKeeps(front, k);
    } else if d.value.anchor in AnchorsOf(KeepFirst(front)) {
      var j := KeptWasDetected(front, d.value.anchor);
      assert Detects(ds, j, d.value.anchor);
    }
  }

  lemma {:induction false} KeptWasDetected(ds: seq<Option<Fact>>, a: Anchor) returns (k: nat)
    requires a in AnchorsOf(KeepFirst(ds))
    ensures Detects(ds, k, a)
  {
    var front, d := ds[..|ds| - 1], ds[|ds| - 1];
    KeepFirstSnoc(front, d);
    assert ds == front + [d];
    AnchorsOfConcat(KeepFirst(front),
                    if d.Some? && d.value.anchor !in AnchorsOf(KeepFirst(front)) then [d.value] else []);
    if a in AnchorsOf(KeepFirst(front)) {
      k := KeptWasDetected(front, a);
    } else {
      k := |front|;
    }
  }

  lemma {:induction false} KeepFirstIsDistinct(ds: seq<Option<Fact>>)
    ensures |AnchorsOf(KeepFirst(ds))| == |KeepFirst(ds)|
  {
    if ds != [] {
      var front, d := ds[..|ds| - 1], ds[|ds| - 1];
      KeepFirstIsDistinct(front);
      AnchorsOfConcat(KeepFirst(front),
                      if d.Some? && d.value.anchor !in AnchorsOf(KeepFirst(front)) then [d.value] else []);
    }
  }

  lemma WindowStep(log: Log, lo: nat, hi: nat)
    requires lo <= hi < |log|
    ensures var d, out := Detect(log, hi), KeepFirst(Detections(log, lo, hi));
            && KeepFirst(Detections(log, lo, hi + 1))
               == (if d.Some? && d.value.anchor !in AnchorsOf(out) then out + [d.value] else out)
            && (d.Some? ==> AnchorsOf(out + [d.value]) == AnchorsOf(out) + {d.value.anchor})
  {
    var d, out := Detect(log, hi), KeepFirst(Detections(log, lo, hi));
    DetectionsSnoc(log, lo, hi);
    KeepFirstSnoc(Detections(log, lo, hi), d);
    if d.Some? {
      AnchorsOfConcat(out, [d.value]);
    }
  }

  /** `out` and `seen` after the events of [lo, k). */
  ghost predicate ScannedTo(log: Log, lo: nat, k: nat, out: seq<Fact>, seen: set<Anchor>) {
    lo <= k <= |log| && out == KeepFirst(Detections(log, lo, k)) && seen == AnchorsOf(out)
  }

  /** The scan of the window after `prev` and before `m`, cut by the read limit. */
  method WindowFacts(log: Log, prev: nat, m: nat, limit: nat) returns (out: seq<Fact>, seen: set<Anchor>)
    requires prev < m <= |log|
    ensures ScannedTo(log, prev + 1, WindowEnd(prev, m, limit), out, seen)
  {
    var end := prev + 1 + |SinceSeq(log, prev + 1, limit)|;
    WindowRows(log, prev, m, limit);
    out, seen := [], {};
    var k := prev + 1;
    while k < end && k < m
      invariant k <= end && k <= m
      invariant ScannedTo(log, prev + 1, k, out, seen)
    {
      out, seen := Notice(log, prev + 1, k, out, seen);
      k := k + 1;
    }
  }

  /** Where the scan stops: the read limit or the message. */
  lemma WindowRows(log: Log, prev: nat, m: nat, limit: nat)
    requires prev < m <= |log|
    ensures var n := |SinceSeq(log, prev + 1, limit)|;
            n <= |log| - prev - 1 && WindowEnd(prev, m, limit) == if prev + 1 + n < m then prev + 1 + n else m
  {
  }

  method Notice(log: Log, ghost lo: nat, k: nat, out: seq<Fact>, seen: set<Anchor>)
    returns (out': seq<Fact>, seen': set<Anchor>)
    requires k < |log| && ScannedTo(log, lo, k, out, seen)
    ensures ScannedTo(log, lo, k + 1, out', seen')
  {
    WindowStep(log, lo, k);
    out', seen' := out, seen;
    var d := Detect(log, k);
    if d.Some? && d.value.anchor !in seen {
      seen' := seen + {d.value.anchor};
      out' := out + [d.value];
    }
  }

  function WindowEnd(prev: nat, m: nat, limit: nat): nat {
    if prev + 1 + limit < m then prev + 1 + limit else m
  }

  // ------------------------------------------------------- deaths in the gap

  function DeathFact(q: nat): Fact {
    Fact(WentDormant, Dead(q), [Evt(q)])
  }

  /** The questions of `qs` whose silence ran out between the two instants. */
  function DeathsOf(log: Log, qs: seq<nat>, prevAt: real, nowAt: real, r: Rails): seq<Fact> {
    if qs == [] then [] else
      var rest, q := DeathsOf(log, qs[..|qs| - 1], prevAt, nowAt, r), qs[|qs| - 1];
      if Died(log, q, prevAt, nowAt, r) then rest + [DeathFact(q)] else rest
  }

  predicate Died(log: Log, q: nat, prevAt: real, nowAt: real, r: Rails) {
    q < |log| && Dormant(log, q, nowAt, r.dormantS, r.questionRead)
      && !Dormant(log, q, prevAt, r.dormantS, r.questionRead)
  }

  lemma AnchorsSnoc(facts: seq<Fact>, f: Fact)
    ensures AnchorsOf(facts + [f]) == AnchorsOf(facts) + {f.anchor}
  {
    assert (facts + [f])[..|facts|] == facts;
  }

  lemma DeathTold(facts: seq<Fact>, q: nat, died: bool, a: Anchor)
    ensures a in AnchorsOf(if died then facts + [DeathFact(q)] else facts)
            <==> a in AnchorsOf(facts) || (died && a == Dead(q))
  {
    AnchorsSnoc(facts, DeathFact(q));
  }

  lemma {:induction false} DeathAnchors(log: Log, qs: seq<nat>, prevAt: real, nowAt: real, r: Rails, a: Anchor)
    ensures a in AnchorsOf(DeathsOf(log, qs, prevAt, nowAt, r))
            <==> a.Dead? && a.asked in qs && Died(log, a.asked, prevAt, nowAt, r)
  {
    if qs != [] {
      var front, q := qs[..|qs| - 1], qs[|qs| - 1];
      assert qs == front + [q];
      DeathAnchors(log, front, prevAt, nowAt, r, a);
      DeathTold(DeathsOf(log, front, prevAt, nowAt, r), q, Died(log, q, prevAt, nowAt, r), a);
    }
  }

  lemma DeathsSnoc(log: Log, qs: seq<nat>, i: nat, prevAt: real, nowAt: real, r: Rails)
    requires i < |qs|
    ensures DeathsOf(log, qs[..i + 1], prevAt, nowAt, r)
            == DeathsOf(log, qs[..i], prevAt, nowAt, r)
               + if Died(log, qs[i], prevAt, nowAt, r) then [DeathFact(qs[i])] else []
  {
    assert qs[..i + 1][..i] == qs[..i];
  }

  method OpenOnes(rows: seq<Row>) returns (open: set<nat>)
    ensures forall q :: q in open <==> exists i | 0 <= i < |rows| :: rows[i].question == q && !rows[i].dormant
  {
    open := {};
    for i := 0 to |rows|
      invariant forall q :: q in open <==> exists j | 0 <= j < i :: rows[j].question == q && !rows[j].dormant
    {
      if !rows[i].dormant {
        open := open + {rows[i].question};
      }
    }
  }

  /** `open` tells, for the listed questions, which were open at `at`. */
  ghost predicate OpenAt(open: set<nat>, log: Log, at: real, r: Rails) {
    var qs := Oldest(log, IsQuestion, r.questionRead);
    forall i {:trigger qs[i]} | 0 <= i < |qs| ::
      qs[i] < |log| && (qs[i] in open <==> !Dormant(log, qs[i], at, r.dormantS, r.questionRead))
  }

  method OpenThen(log: Log, at: real, r: Rails) returns (open: set<nat>)
    ensures OpenAt(open, log, at, r)
  {
    ghost var qs := Oldest(log, IsQuestion, r.questionRead);
    var rows := QuestionState(log, at, r.dormantS, r.questionRead);
    open := OpenOnes(rows);
    forall i | 0 <= i < |qs|
      ensures qs[i] < |log| && (qs[i] in open <==> !Dormant(log, qs[i], at, r.dormantS, r.questionRead))
    {
      assert rows[i].question == qs[i];
    }
  }

  lemma NotToldYet(log: Log, i: nat, prevAt: real, nowAt: real, r: Rails)
    requires i < |Oldest(log, IsQuestion, r.questionRead)|
    ensures var qs := Oldest(log, IsQuestion, r.questionRead);
            Dead(qs[i]) !in AnchorsOf(DeathsOf(log, qs[..i], prevAt, nowAt, r))
  {
    var qs := Oldest(log, IsQuestion, r.questionRead);
    DeathAnchors(log, qs[..i], prevAt, nowAt, r, Dead(qs[i]));
  }

  ghost predicate TellsNoDeath(seen: set<Anchor>) {
    forall a {:trigger a in seen} | a in seen :: !a.Dead?
  }

  method GapDeaths(log: Log, prevAt: real, nowAt: real, r: Rails, seen: set<Anchor>) returns (out: seq<Fact>)
    requires TellsNoDeath(seen)
    ensures out == DeathsOf(log, Oldest(log, IsQuestion, r.questionRead), prevAt, nowAt, r)
  {
    ghost var qs := Oldest(log, IsQuestion, r.questionRead);
    var rows := QuestionState(log, nowAt, r.dormantS, r.questionRead);
    var open := OpenThen(log, prevAt, r);
    out := [];
    var told := seen;
    for i := 0 to |rows|
      invariant out == DeathsOf(log, qs[..i], prevAt, nowAt, r) && told == seen + AnchorsOf(out)
    {
      out, told := GapDeath(log, i, rows[i], open, prevAt, nowAt, r, out, told, seen);
    }
    assert qs[..|qs|] == qs;
  }

  method GapDeath(log: Log, ghost i: nat, row: Row, open: set<nat>, ghost prevAt: real, ghost nowAt: real,
                  ghost r: Rails, out: seq<Fact>, told: set<Anchor>, ghost seen: set<Anchor>)
    returns (out': seq<Fact>, told': set<Anchor>)
    requires i < |Oldest(log, IsQuestion, r.questionRead)| && OpenAt(open, log, prevAt, r) && TellsNoDeath(seen)
    requires var qs := Oldest(log, IsQuestion, r.questionRead);
             && row == RowOf(log, qs[i], nowAt, r.dormantS, r.questionRead)
             && out == DeathsOf(log, qs[..i], prevAt, nowAt, r) && told == seen + AnchorsOf(out)
    ensures out' == DeathsOf(log, Oldest(log, IsQuestion, r.questionRead)[..i + 1], prevAt, nowAt, r)
    ensures told' == seen + AnchorsOf(out')
  {
    DeathsSnoc(log, Oldest(log, IsQuestion, r.questionRead), i, prevAt, nowAt, r);
    NotToldYet(log, i, prevAt, nowAt, r);
    out', told' := out, told;
    if row.dormant && row.question in open && Dead(row.question) !in told {
      AnchorsOfConcat(out, [DeathFact(row.question)]);
      told' := told + {Dead(row.question)};
      out' := out + [DeathFact(row.question)];
    }
  }

  function WindowSpec(log: Log, prev: nat, m: nat, r: Rails): seq<Fact>
    requires prev < m < |log|
  {
    KeepFirst(Detections(log, prev + 1, WindowEnd(prev, m, r.windowRead)))
  }

  function DeathSpec(log: Log, prev: nat, m: nat, r: Rails): seq<Fact>
    requires prev < m < |log|
  {
    DeathsOf(log, Oldest(log, IsQuestion, r.questionRead), log[prev].at, log[m].at, r)
  }

  function CandidateSpec(log: Log, prev: nat, m: nat, r: Rails): seq<Fact>
    requires prev < m < |log|
  {
    WindowSpec(log, prev, m, r) + DeathSpec(log, prev, m, r)
  }

  ghost predicate MetIn(log: Log, lo: nat, hi: nat, q: nat) {
    exists k | lo <= k < hi :: RevisitOf(log, k, q)
  }

  lemma WindowAnchors(log: Log, lo: nat, hi: nat, q: nat)
    requires lo <= hi <= |log|
    ensures forall a | a in AnchorsOf(KeepFirst(Detections(log, lo, hi))) :: !a.Dead?
    ensures AtQuestion(Evt(q)) in AnchorsOf(KeepFirst(Detections(log, lo, hi))) <==> MetIn(log, lo, hi, q)
  {
    var a, ds := AtQuestion(Evt(q)), Detections(log, lo, hi);
    forall a | a in AnchorsOf(KeepFirst(ds)) ensures !a.Dead? {
      var k := KeptWasDetected(ds, a);
      DetectedAnchor(log, lo + k, q);
    }
    if a in AnchorsOf(KeepFirst(ds)) {
      var k := KeptWasDetected(ds, a);
      DetectedAnchor(log, lo + k, q);
    }
    if MetIn(log, lo, hi, q) {
      var k :| lo <= k < hi && RevisitOf(log, k, q);
      DetectedAnchor(log, k, q);
      KeepFirstKeeps(ds, k - lo);
    }
  }

  /** The candidates: the facts of the window, then the deaths. */
  method Candidates(log: Log, prev: nat, m: nat, r: Rails) returns (facts: seq<Fact>)
    requires prev < m < |log|
    ensures facts == CandidateSpec(log, prev, m, r)
  {
    var found, seen := WindowFacts(log, prev, m, r.windowRead);
    WindowAnchors(log, prev + 1, WindowEnd(prev, m, r.windowRead), 0);
    var dead := GapDeaths(log, log[prev].at, log[m].at, r, seen);
    facts := found + dead;
  }

  lemma MeetingsAreTold(log: Log, prev: nat, m: nat, r: Rails, q: nat)
    requires prev < m < |log|
    ensures Dead(q) !in AnchorsOf(WindowSpec(log, prev, m, r))
    ensures AtQuestion(Evt(q)) in AnchorsOf(WindowSpec(log, prev, m, r))
            <==> MetIn(log, prev + 1, WindowEnd(prev, m, r.windowRead), q)
  {
    WindowAnchors(log, prev + 1, WindowEnd(prev, m, r.windowRead), q);
  }

  lemma DeathsAreTold(log: Log, prev: nat, m: nat, r: Rails, q: nat)
    requires prev < m < |log| && q in Oldest(log, IsQuestion, r.questionRead)
    ensures AtQuestion(Evt(q)) !in AnchorsOf(DeathSpec(log, prev, m, r))
    ensures Dead(q) in AnchorsOf(DeathSpec(log, prev, m, r)) <==> Died(log, q, log[prev].at, log[m].at, r)
  {
    var qs := Oldest(log, IsQuestion, r.questionRead);
    DeathAnchors(log, qs, log[prev].at, log[m].at, r, Dead(q));
    DeathAnchors(log, qs, log[prev].at, log[m].at, r, AtQuestion(Evt(q)));
  }

  /** The two lists do not share their anchors, so a question met again and left to die within one
      absence is told twice, and only such a question is. */
  lemma ToldTwiceIffMetAndDied(log: Log, prev: nat, m: nat, r: Rails, q: nat)
    requires prev < m < |log| && q in Oldest(log, IsQuestion, r.questionRead)
    ensures {AtQuestion(Evt(q)), Dead(q)} <= AnchorsOf(CandidateSpec(log, prev, m, r))
            <==> && MetIn(log, prev + 1, WindowEnd(prev, m, r.windowRead), q)
                 && Died(log, q, log[prev].at, log[m].at, r)
  {
    AnchorsOfConcat(WindowSpec(log, prev, m, r), DeathSpec(log, prev, m, r));
    MeetingsAreTold(log, prev, m, r, q);
    DeathsAreTold(log, prev, m, r, q);
  }

  /** The deaths among the candidates are exactly the reports whose history is known. */
  lemma CandidateIsReport(log: Log, m: nat, p: nat, q: nat, r: Rails)
    requires m < |log| && PrevUser(log[..m + 1], m, r.userRead) == Some(p)
    requires log[m].at - log[p].at >= r.threshold
    ensures Dead(q) in AnchorsOf(DeathSpec(log[..m + 1], p, m, r)) <==> Reports(log, m, q, r)
  {
    var seen := log[..m + 1];
    DeathAnchors(seen, Oldest(seen, IsQuestion, r.questionRead), seen[p].at, seen[m].at, r, Dead(q));
    PrevIsLocal(log, m, r.userRead);
    if Listed(seen, q, r.questionRead) {
      var _ := ReportsMeans(log, m, q, r);
    }
  }

  // --------------------------------------------------------- what is written

  datatype Return =
    | NoAbsence
    | Raised(link: Ref)                 // an evidence id the store does not know
    | Noted(facts: seq<Fact>, selected: seq<Fact>)

  const ABSENCE := "absence.detected"
  const CANDIDATE := "reentry.candidate"
  const SELECTED := "reentry.selected"
  const NOOP := "reentry.noop"

  function Note(typ: string, m: nat, evidence: seq<Ref>): Event {
    Draft(true, Other(typ)).(causedBy := [Evt(m)], relatedTo := evidence)
  }

  /** Only notes of this layer were added: nothing a later return reads is touched. */
  ghost predicate AddsNotes(log: Log, log': Log) {
    log <= log' && forall k | |log| <= k < |log'| :: log'[k].system && log'[k].body.Other?
  }

  lemma NotesKeepDiscipline(log: Log, log': Log, dormantS: real, cap: nat)
    requires AddsNotes(log, log') && Disciplined(log, dormantS, cap)
    ensures Disciplined(log', dormantS, cap)
  {
    forall k: nat, q: nat | RevisitOf(log', k, q) ensures Timely(log', k, q, dormantS, cap) {
      StillTimely(log, log', k, q, dormantS, cap);
    }
  }

  function Union(facts: seq<Fact>): set<Ref> {
    set f, i | f in facts && 0 <= i < |f.evidence| :: f.evidence[i]
  }

  method Gather(selected: seq<Fact>) returns (ids: seq<Ref>)
    ensures forall x :: x in ids <==> x in Union(selected)
    ensures forall i, j | 0 <= i < j < |ids| :: ids[i] != ids[j]
  {
    ids := [];
    for n := 0 to |selected|
      invariant forall x :: x in ids <==> x in Union(selected[..n])
      invariant forall i, j | 0 <= i < j < |ids| :: ids[i] != ids[j]
    {
      var f := selected[n];
      for e := 0 to |f.evidence|
        invariant forall x :: x in ids <==> x in Union(selected[..n]) || x in f.evidence[..e]
        invariant forall i, j | 0 <= i < j < |ids| :: ids[i] != ids[j]
      {
        if f.evidence[e] !in ids {
          ids := ids + [f.evidence[e]];
        }
      }
      assert selected[..n + 1] == selected[..n] + [f];
      assert f.evidence[..|f.evidence|] == f.evidence;
    }
    assert selected[..|selected|] == selected;
  }

  method Alive(facts: seq<Fact>, alive: Fact -> bool) returns (selected: seq<Fact>)
    ensures forall f :: f in selected <==> f in facts && alive(f)
  {
    selected := [];
    for i := 0 to |facts|
      invariant forall f :: f in selected <==> f in facts[..i] && alive(f)
    {
      if alive(facts[i]) {
        selected := selected + [facts[i]];
      }
    }
    assert facts[..|facts|] == facts;
  }

  /** The notes after the absence, in the order they are written. */
  ghost predicate NotesOf(log: Log, log': Log, m: nat, r: Rails, facts: seq<Fact>, selected: seq<Fact>) {
    var n := if |facts| <= r.maxCandidates then |facts| else r.maxCandidates;
    && |log'| == |log| + n + 1
    && (forall i | 0 <= i < n :: NoteAt(log', |log| + i, CANDIDATE, m, facts[i].evidence))
    && log'[|log'| - 1].body == (if selected == [] then Other(NOOP) else Other(SELECTED))
    && log'[|log'| - 1].causedBy == [Evt(m)]
    && forall x :: x in log'[|log'| - 1].relatedTo <==> x in Union(selected)
  }

  predicate NoteAt(log: Log, k: nat, typ: string, m: nat, evidence: seq<Ref>) {
    k < |log| && log[k].body == Other(typ) && log[k].causedBy == [Evt(m)] && log[k].relatedTo == evidence
  }

  /** One of the selected facts rests on `x`. */
  ghost predicate Backs(selected: seq<Fact>, x: Ref) {
    exists f :: f in selected && x in f.evidence
  }

  lemma UnionIs(selected: seq<Fact>, x: Ref)
    ensures x in Union(selected) <==> Backs(selected, x)
  {
    if f :| f in selected && x in f.evidence {
      var i :| 0 <= i < |f.evidence| && f.evidence[i] == x;
      assert f.evidence[i] in Union(selected);
    }
  }

  /** Note by note: the first facts, up to the cap, each over its evidence, and then the decision over the evidence of
      the facts selected; all brought about by the message. */
  lemma NotesAre(log: Log, log': Log, m: nat, r: Rails, facts: seq<Fact>, selected: seq<Fact>, k: nat)
    requires log <= log' && NotesOf(log, log', m, r, facts, selected) && |log| <= k < |log'|
    ensures log'[k].causedBy == [Evt(m)]
    ensures k < |log'| - 1 ==>
              log'[k].body == Other("reentry.candidate") && log'[k].relatedTo == facts[k - |log|].evidence
    ensures k == |log'| - 1 ==>
              && log'[k].body == Other(if |selected| == 0 then "reentry.noop" else "reentry.selected")
              && forall x :: x in log'[k].relatedTo <==> Backs(selected, x)
    ensures |log'| - |log| == (if |facts| <= r.maxCandidates then |facts| else r.maxCandidates) + 1
  {
    if k < |log'| - 1 {
      assert NoteAt(log', |log| + (k - |log|), CANDIDATE, m, facts[k - |log|].evidence);
    } else {
      assert selected == [] <==> |selected| == 0;
      forall x ensures x in Union(selected) <==> Backs(selected, x) {
        UnionIs(selected, x);
      }
    }
  }

  lemma AddsNote(log: Log, log': Log, e: Event)
    requires AddsNotes(log, log') && e.system && e.body.Other?
    ensures AddsNotes(log, log' + [e])
  {
  }

  method Record(store: EventStore, note: Event, ghost log: Log) returns (bad: Option<Ref>)
    requires store.Valid() && AddsNotes(log, store.log) && note.system && note.body.Other?
    modifies store`log
    ensures store.Valid() && AddsNotes(log, store.log)
    ensures bad.None? ==> store.log == old(store.log) + [note.(at := store.clock)]
    ensures bad.Some? ==> store.log == old(store.log) && bad.value in Links(note) && Dangles(store.log, bad.value)
  {
    ghost var before := store.log;
    var a := store.Append(note);
    AddsNote(log, before, note.(at := store.clock));
    bad := if a.Stored? then None else Some(a.link);
  }

  method RecordCandidates(store: EventStore, facts: seq<Fact>, m: nat, cap: nat, ghost log: Log)
    returns (bad: Option<Ref>)
    requires store.Valid() && AddsNotes(log, store.log)
    modifies store`log
    ensures store.Valid() && AddsNotes(log, store.log) && old(store.log) <= store.log
    ensures bad.None? ==>
      && |store.log| == |old(store.log)| + (if |facts| <= cap then |facts| else cap)
      && forall i | 0 <= i < |store.log| - |old(store.log)| ::
           NoteAt(store.log, |old(store.log)| + i, CANDIDATE, m, facts[i].evidence)
    ensures bad.Some? ==> Dangles(store.log, bad.value)
  {
    var n := if |facts| <= cap then |facts| else cap;
    bad := None;
    for i := 0 to n
      invariant store.Valid() && AddsNotes(log, store.log) && old(store.log) <= store.log
      invariant bad.None? && |store.log| == |old(store.log)| + i
      invariant forall j | 0 <= j < i :: NoteAt(store.log, |old(store.log)| + j, CANDIDATE, m, facts[j].evidence)
    {
      bad := Record(store, Note(CANDIDATE, m, facts[i].evidence), log);
      if bad.Some? {
        return;
      }
    }
  }

  lemma NotesThenLast(log: Log, mid: Log, last: Event, m: nat, r: Rails, facts: seq<Fact>, selected: seq<Fact>)
    requires var n := if |facts| <= r.maxCandidates then |facts| else r.maxCandidates;
             |mid| == |log| + n && forall i | 0 <= i < n :: NoteAt(mid, |log| + i, CANDIDATE, m, facts[i].evidence)
    requires last.body == (if selected == [] then Other(NOOP) else Other(SELECTED))
    requires last.causedBy == [Evt(m)] && forall x :: x in last.relatedTo <==> x in Union(selected)
    ensures NotesOf(log, mid + [last], m, r, facts, selected)
  {
    var n := if |facts| <= r.maxCandidates then |facts| else r.maxCandidates;
    forall i | 0 <= i < n ensures NoteAt(mid + [last], |log| + i, CANDIDATE, m, facts[i].evidence) {
      assert (mid + [last])[|log| + i] == mid[|log| + i];
      assert NoteAt(mid, |log| + i, CANDIDATE, m, facts[i].evidence);
    }
  }

  method Decide(store: EventStore, facts: seq<Fact>, m: nat, r: Rails, alive: Fact -> bool, ghost log: Log)
    returns (bad: Option<Ref>, selected: seq<Fact>)
    requires store.Valid() && AddsNotes(log, store.log)
    modifies store`log
    ensures store.Valid() && AddsNotes(log, store.log)
    ensures bad.Some? ==> Dangles(store.log, bad.value)
    ensures bad.None? ==> NotesOf(old(store.log), store.log, m, r, facts, selected)
    ensures bad.None? ==> forall f :: f in selected <==> f in facts && alive(f)
  {
    selected := [];
    bad := RecordCandidates(store, facts, m, r.maxCandidates, log);
    if bad.Some? {
      return;
    }
    ghost var mid := store.log;
    selected := Alive(facts, alive);
    var ids := Gather(selected);
    var note := Note(if selected == [] then NOOP else SELECTED, m, ids);
    bad := Record(store, note, log);
    if bad.None? {
      NotesThenLast(old(store.log), mid, note.(at := store.clock), m, r, facts, selected);
    }
  }

  function WithAbsence(log: Log, prev: nat, m: nat, now: real): Log {
    log + [Note(ABSENCE, m, [Evt(prev)]).(at := now)]
  }

  /** The absence is one hidden event, brought about by the message and related to the one before it. */
  lemma AbsenceIsNoted(log: Log, prev: nat, m: nat, now: real)
    ensures var log' := WithAbsence(log, prev, m, now);
            && |log'| == |log| + 1 && log <= log' && log'[|log|].system && log'[|log|].at == now
            && NoteAt(log', |log|, "absence.detected", m, [Evt(prev)])
  {
  }

  /** What the facts and the decision of an absence leave in the log. */
  ghost predicate Told(seen: Log, log: Log, prev: nat, m: nat, r: Rails, alive: Fact -> bool, facts: seq<Fact>,
                       selected: seq<Fact>)
  {
    prev < m < |seen| && NotesOf(seen, log, m, r, facts, selected) && facts == CandidateSpec(seen, prev, m, r)
    && forall f :: f in selected <==> f in facts && alive(f)
  }

  /** After the absence is noted: the candidates and the decision. */
  method Tell(store: EventStore, prev: nat, m: nat, r: Rails, alive: Fact -> bool, ghost log: Log) returns (out: Return)
    requires store.Valid() && prev < m < |store.log| && AddsNotes(log, store.log)
    modifies store`log
    ensures store.Valid() && AddsNotes(log, store.log) && !out.NoAbsence?
    ensures out.Raised? ==> Dangles(store.log, out.link)
    ensures out.Noted? ==> Told(old(store.log), store.log, prev, m, r, alive, out.facts, out.selected)
  {
    var facts := Candidates(store.log, prev, m, r);
    var bad, selected := Decide(store, facts, m, r, alive, log);
    out := if bad.Some? then Raised(bad.value) else Noted(facts, selected);
  }

  /** Called once for the arriving message `m`. `alive` says which facts the message itself recalls. */
  method OnUserReturn(store: EventStore, m: nat, r: Rails, alive: Fact -> bool) returns (out: Return)
    requires store.Valid() && m < |store.log|
    modifies store`log
    ensures store.Valid() && AddsNotes(old(store.log), store.log)
    ensures var log, prev := old(store.log), PrevUser(old(store.log), m, r.userRead);
            && (out.NoAbsence? <==> prev.None? || log[m].at - log[prev.value].at < r.threshold)
            && (out.NoAbsence? ==> store.log == log)
            && (out.Raised? ==> Dangles(store.log, out.link))
            && (out.Noted? ==>
                  var seen := WithAbsence(log, prev.value, m, store.clock);
                  && NotesOf(seen, store.log, m, r, out.facts, out.selected)
                  && out.facts == CandidateSpec(seen, prev.value, m, r)
                  && forall f :: f in out.selected <==> f in out.facts && alive(f))
  {
    ghost var log := store.log;
    var prev := PreviousUserEvent(store.log, m, r.userRead);
    if prev.None? || store.log[m].at - store.log[prev.value].at < r.threshold {
      return NoAbsence;
    }
    var bad := Record(store, Note(ABSENCE, m, [Evt(prev.value)]), log);
    if bad.Some? {
      return Raised(bad.value);
    }
    out := Tell(store, prev.value, m, r, alive, log);
  }

  // ----------------------------------------------------- the absence note itself

  /** A note is neither a question nor a revisit, so it changes no list and no last touch. */
  lemma NoteIsInert(log: Log, e: Event, q: nat, cap: nat)
    requires e.system && e.body.Other? && q < |log|
    ensures Listed(log + [e], q, cap) <==> Listed(log, q, cap)
    ensures LastTouch(log + [e], q, cap) == LastTouch(log, q, cap)
  {
    PositionsAppend(log, e, IsQuestion);
    LastTouchAppend(log, e, q, cap);
  }

  lemma NoteIsNoQuestion(log: Log, e: Event, cap: nat)
    requires e.body.Other?
    ensures Oldest(log + [e], IsQuestion, cap) == Oldest(log, IsQuestion, cap)
  {
    PositionsAppend(log, e, IsQuestion);
  }

  lemma DeathsAreInert(log: Log, e: Event, p: nat, m: nat, q: nat, r: Rails)
    requires e.system && e.body.Other? && p < m < |log|
    ensures Dead(q) in AnchorsOf(DeathSpec(log + [e], p, m, r)) <==> Dead(q) in AnchorsOf(DeathSpec(log, p, m, r))
  {
    var seen, qs := log + [e], Oldest(log, IsQuestion, r.questionRead);
    NoteIsNoQuestion(log, e, r.questionRead);
    DeathAnchors(seen, qs, log[p].at, log[m].at, r, Dead(q));
    DeathAnchors(log, qs, log[p].at, log[m].at, r, Dead(q));
    if q in qs {
      NoteIsInert(log, e, q, r.questionRead);
    }
  }

  /** The deaths told to the returning user, whose facts are derived after the absence was noted, are exactly the
      reports of the message. */
  lemma FactsAreReports(log: Log, m: nat, p: nat, q: nat, now: real, r: Rails)
    requires m + 1 == |log| && PrevUser(log, m, r.userRead) == Some(p) && log[m].at - log[p].at >= r.threshold
    ensures Dead(q) in AnchorsOf(CandidateSpec(WithAbsence(log, p, m, now), p, m, r)) <==> Reports(log, m, q, r)
  {
    var seen := WithAbsence(log, p, m, now);
    assert log[..m + 1] == log;
    CandidateIsReport(log, m, p, q, r);
    DeathsAreInert(log, seen[|log|], p, m, q, r);
    AnchorsOfConcat(WindowSpec(seen, p, m, r), DeathSpec(seen, p, m, r));
    MeetingsAreTold(seen, p, m, r, q);
  }

  // ------------------------------------------------------ told twice, for real

  /** A question met again right after a message, and dead by the next one. */
  function MetAndDead(r: Rails): Log {
    [Draft(false, QuestionCreated("", [])), Draft(false, Observation("", "")), Draft(false, UserMessage),
     Revisiting(0, 1), Draft(false, UserMessage).(at := r.dormantS + r.threshold + 1.0)]
  }

  lemma MetAndDeadUsers(log: Log, r: Rails)
    requires log == MetAndDead(r) && r.userRead > 0
    ensures PrevUser(log, 4, r.userRead) == Some(2)
  {
    assert log[..0] == [];
    RowsSkip(log, 0, 2, IsUser);
    RowStep(log, 2, IsUser);
    RowsSkip(log, 3, 4, IsUser);
  }

  lemma MetAndDeadListed(log: Log, r: Rails)
    requires log == MetAndDead(r) && r.questionRead > 0
    ensures 0 in Oldest(log, IsQuestion, r.questionRead)
  {
    assert log[..0] == [] && log[..5] == log;
    RowStep(log, 0, IsQuestion);
    RowsSkip(log, 1, 5, IsQuestion);
    assert Oldest(log, IsQuestion, r.questionRead)[0] == 0;
  }

  lemma MetAndDeadTouch(log: Log, r: Rails)
    requires log == MetAndDead(r) && r.questionRead > 0
    ensures LastTouch(log, 0, r.questionRead) == LastTouch(log[..3], 0, r.questionRead) == 0.0
  {
    Untouched(log, 3, 0, r.questionRead);
    assert log[..4] == log[..3] + [log[3]] && log == log[..4] + [log[4]];
    LastTouchAppend(log[..3], log[3], 0, r.questionRead);
    LastTouchAppend(log[..4], log[4], 0, r.questionRead);
  }

  lemma MetAndDeadHistory(log: Log, writerS: real, r: Rails)
    requires log == MetAndDead(r) && r.questionRead > 0 && 0.0 <= writerS <= r.dormantS && r.threshold >= 0.0
    ensures History(log, 4, writerS, r)
  {
    MetAndDeadTouch(log, r);
    OneTimelyTouch(log, 3, 0, writerS, r.questionRead);
    MetAndDeadOrdered(log, r);
  }

  lemma MetAndDeadOrdered(log: Log, r: Rails)
    requires log == MetAndDead(r) && r.dormantS >= 0.0 && r.threshold >= 0.0
    ensures TimeOrdered(log)
  {
    StepwiseOrdered(log);
  }

  lemma MetAndDeadToldTwice(log: Log, seen: Log, now: real, r: Rails)
    requires log == MetAndDead(r) && seen == WithAbsence(log, 2, 4, now)
    requires r.questionRead > 0 && r.windowRead > 0 && r.dormantS >= 0.0 && r.threshold >= 0.0
    ensures {AtQuestion(Evt(0)), Dead(0)} <= AnchorsOf(CandidateSpec(seen, 2, 4, r))
  {
    MetAndDeadListed(log, r);
    MetAndDeadTouch(log, r);
    NoteIsNoQuestion(log, seen[5], r.questionRead);
    NoteIsInert(log, seen[5], 0, r.questionRead);
    assert RevisitOf(seen, 3, 0);
    ToldTwiceIffMetAndDied(seen, 2, 4, r, 0);
  }

  /** Two facts about one question in one absence do occur, whatever the read limits and thresholds, and under any
      disciplined writer. */
  lemma ToldTwiceOccurs(now: real, writerS: real, r: Rails)
    requires r.userRead > 0 && r.questionRead > 0 && r.windowRead > 0
    requires 0.0 <= writerS <= r.dormantS && r.threshold >= 0.0
    ensures var log := MetAndDead(r);
            && History(log, 4, writerS, r)
            && PrevUser(log, 4, r.userRead) == Some(2) && log[4].at - log[2].at >= r.threshold
            && {AtQuestion(Evt(0)), Dead(0)} <= AnchorsOf(CandidateSpec(WithAbsence(log, 2, 4, now), 2, 4, r))
  {
    var log := MetAndDead(r);
    MetAndDeadHistory(log, writerS, r);
    MetAndDeadUsers(log, r);
    MetAndDeadToldTwice(log, WithAbsence(log, 2, 4, now), now, r);
  }
}
