/** Private projects (private_projects.py): which questions have, structurally, given rise to a
    project, and the emission of one project per such question. */
module Genesis {
  import opened EventLog
  import opened Reachability

  const MIN_SPAN_S := 7.0 * 86400.0

  predicate IsProject(e: Event) {
    e.body.ProjectCreated?
  }

  predicate IsRevisit(e: Event) {
    e.body.QuestionRevisited?
  }

  predicate IsOwnThought(e: Event) {
    e.body.ThoughtCreated? && (e.body.origin.SelfThread? || e.body.origin.PrivateProject?)
  }

  /** `content.source`, or the event's type when there is none. */
  function SourceOf(e: Event): string {
    if e.source.Some? && e.source.value != "" then e.source.value else TypeName(e.body)
  }

  /** A read of the whole log that stops after `limit` rows. */
  function ReadUpTo(log: Log, limit: nat): Log {
    if limit <= |log| then log[..limit] else log
  }

  // -------------------------------------------------------------- criterion

  predicate IsQuestionAt(log: Log, q: nat) {
    q < |log| && log[q].body.QuestionCreated?
  }

  predicate RevisitOf(log: Log, k: nat, q: nat) {
    k < |log| && log[k].body.QuestionRevisited? && log[k].body.question == Evt(q)
  }

  predicate CausedByObservations(log: Log, k: nat) {
    k < |log| && forall i | 0 <= i < |log[k].causedBy| ::
      Resolves(log, log[k].causedBy[i]) && log[log[k].causedBy[i].pos].body.Observation?
  }

  ghost predicate MetTwice(log: Log, q: nat) {
    exists a: nat, b: nat :: a < b && RevisitOf(log, a, q) && RevisitOf(log, b, q)
  }

  predicate WeekApart(log: Log, q: nat, k: nat) {
    q < |log| && k < |log| && log[k].at - log[q].at >= MIN_SPAN_S
  }

  ghost predicate SpansAWeek(log: Log, q: nat) {
    exists k: nat :: RevisitOf(log, k, q) && WeekApart(log, q, k)
  }

  predicate FromConversation(e: Event) {
    InFamily(TypeName(e.body), "conversation")
  }

  /** An event of the question's evidence that is in the log. */
  ghost predicate EvidenceAt(log: Log, q: nat, e: nat)
    requires IsQuestionAt(log, q)
  {
    e < |log| && Evt(e) in log[q].body.evidence
  }

  ghost predicate TwoSources(log: Log, q: nat)
    requires IsQuestionAt(log, q)
  {
    exists a: nat, b: nat ::
      EvidenceAt(log, q, a) && EvidenceAt(log, q, b) && SourceOf(log[a]) != SourceOf(log[b])
  }

  ghost predicate NoConversation(log: Log, q: nat)
    requires IsQuestionAt(log, q)
  {
    forall e: nat | EvidenceAt(log, q, e) :: !FromConversation(log[e])
  }

  ghost predicate Target(log: Log, q: nat, y: Ref)
    requires IsQuestionAt(log, q)
  {
    y == Evt(q) || y in log[q].body.evidence
  }

  /** A thought of the resident's own grew, through recalled material, from the question. */
  ghost predicate GrewIntoThought(log: Log, q: nat)
    requires IsQuestionAt(log, q)
  {
    exists t: nat, y :: t < |log| && IsOwnThought(log[t]) && Target(log, q, y) && Reaches(log, Evt(t), y)
  }

  ghost predicate RevisitsObserved(log: Log, q: nat) {
    forall k: nat | RevisitOf(log, k, q) :: CausedByObservations(log, k)
  }

  ghost predicate Qualifies(log: Log, q: nat) {
    && IsQuestionAt(log, q)
    && MetTwice(log, q) && SpansAWeek(log, q)
    && TwoSources(log, q) && NoConversation(log, q)
    && GrewIntoThought(log, q)
    && RevisitsObserved(log, q)
  }

  // ------------------------------------------------------------- detection

  ghost predicate Ascending(s: seq<nat>) {
    forall i, j | 0 <= i < j < |s| :: s[i] < s[j]
  }

  lemma AscendingSnoc(s: seq<nat>, k: nat)
    requires Ascending(s) && forall p | p in s :: p < k
    ensures Ascending(s + [k])
  {
    forall i | 0 <= i < |s| ensures s[i] < k {
      assert s[i] in s;
    }
  }

  /** The revisits among the first `n` events, grouped by the question they name. */
  ghost predicate Grouped(log: Log, n: nat, byQ: map<Ref, seq<nat>>)
    requires n <= |log|
  {
    && (forall r | r in byQ :: Ascending(byQ[r]))
    && (forall r, k: nat {:trigger k in byQ[r]} | r in byQ ::
          k in byQ[r] <==> k < n && IsRevisit(log[k]) && log[k].body.question == r)
    && (forall k: nat | k < n && IsRevisit(log[k]) :: log[k].body.question in byQ)
  }

  lemma GroupedSnoc(log: Log, k: nat, byQ: map<Ref, seq<nat>>)
    requires k < |log| && Grouped(log, k, byQ)
    ensures if IsRevisit(log[k]) then
              var r := log[k].body.question;
              Grouped(log, k + 1, byQ[r := (if r in byQ then byQ[r] else []) + [k]])
            else Grouped(log, k + 1, byQ)
  {
    if IsRevisit(log[k]) {
      var r := log[k].body.question;
      AscendingSnoc(if r in byQ then byQ[r] else [], k);
    }
  }

  method RevisitsByQuestion(log: Log) returns (byQ: map<Ref, seq<nat>>)
    ensures Grouped(log, |log|, byQ)
  {
    byQ := map[];
    for k := 0 to |log|
      invariant Grouped(log, k, byQ)
    {
      GroupedSnoc(log, k, byQ);
      if IsRevisit(log[k]) {
        var r := log[k].body.question;
        byQ := byQ[r := (if r in byQ then byQ[r] else []) + [k]];
      }
    }
  }

  /** After the first `i` evidence ids: the sources seen, with an event for each. */
  ghost predicate Sampled(log: Log, q: nat, i: nat, sources: set<string>, from: map<string, nat>)
    requires IsQuestionAt(log, q) && i <= |log[q].body.evidence|
  {
    var evidence := log[q].body.evidence;
    && from.Keys == sources
    && (forall s | s in from :: EvidenceAt(log, q, from[s]) && SourceOf(log[from[s]]) == s)
    && (forall j | 0 <= j < i && Resolves(log, evidence[j]) :: SourceOf(log[evidence[j].pos]) in sources)
  }

  /** And whether none of them is a conversation event. */
  ghost predicate Untalked(log: Log, q: nat, i: nat)
    requires IsQuestionAt(log, q) && i <= |log[q].body.evidence|
  {
    forall j | 0 <= j < i && Resolves(log, log[q].body.evidence[j]) ::
      !FromConversation(log[log[q].body.evidence[j].pos])
  }

  lemma SampledAll(log: Log, q: nat, sources: set<string>, from: map<string, nat>)
    requires IsQuestionAt(log, q) && Sampled(log, q, |log[q].body.evidence|, sources, from)
    ensures |sources| >= 2 <==> TwoSources(log, q)
  {
    var evidence := log[q].body.evidence;
    forall e: nat | EvidenceAt(log, q, e) ensures SourceOf(log[e]) in sources {
      var j :| 0 <= j < |evidence| && evidence[j] == Evt(e);
    }
    TwoOrMore(sources);
    if a, b :| a in sources && b in sources && a != b {
      assert EvidenceAt(log, q, from[a]) && EvidenceAt(log, q, from[b]);
    }
  }

  lemma UntalkedAll(log: Log, q: nat)
    requires IsQuestionAt(log, q)
    ensures Untalked(log, q, |log[q].body.evidence|) <==> NoConversation(log, q)
  {
    var evidence := log[q].body.evidence;
    forall e: nat | EvidenceAt(log, q, e) && Untalked(log, q, |evidence|) ensures !FromConversation(log[e]) {
      var j :| 0 <= j < |evidence| && evidence[j] == Evt(e);
    }
    forall j | 0 <= j < |evidence| && Resolves(log, evidence[j]) && NoConversation(log, q)
      ensures !FromConversation(log[evidence[j].pos])
    {
      assert evidence[j] == Evt(evidence[j].pos) && EvidenceAt(log, q, evidence[j].pos);
    }
  }

  lemma SampleOne(log: Log, q: nat, i: nat, e: nat, sources: set<string>, from: map<string, nat>)
    requires IsQuestionAt(log, q) && i < |log[q].body.evidence| && Sampled(log, q, i, sources, from)
    requires e < |log| && log[q].body.evidence[i] == Evt(e)
    ensures Sampled(log, q, i + 1, sources + {SourceOf(log[e])}, from[SourceOf(log[e]) := e])
  {
    assert Evt(e) in log[q].body.evidence && EvidenceAt(log, q, e);
  }

  lemma SampleNone(log: Log, q: nat, i: nat, sources: set<string>, from: map<string, nat>)
    requires IsQuestionAt(log, q) && i < |log[q].body.evidence| && Sampled(log, q, i, sources, from)
    requires !Resolves(log, log[q].body.evidence[i])
    ensures Sampled(log, q, i + 1, sources, from)
  {
  }

  lemma UntalkedSnoc(log: Log, q: nat, i: nat)
    requires IsQuestionAt(log, q) && i < |log[q].body.evidence|
    ensures var r := log[q].body.evidence[i];
            Untalked(log, q, i + 1) <==> Untalked(log, q, i) && (Resolves(log, r) ==> !FromConversation(log[r.pos]))
  {
  }

  /** One evidence id. */
  method Sample(log: Log, q: nat, i: nat, sources: set<string>, ghost from: map<string, nat>, ok: bool)
    returns (sources': set<string>, ghost from': map<string, nat>, ok': bool)
    requires IsQuestionAt(log, q) && i < |log[q].body.evidence|
    requires Sampled(log, q, i, sources, from) && (ok <==> Untalked(log, q, i))
    ensures Sampled(log, q, i + 1, sources', from') && (ok' <==> Untalked(log, q, i + 1))
  {
    sources', from', ok' := sources, from, ok;
    UntalkedSnoc(log, q, i);
    var r := log[q].body.evidence[i];
    if Resolves(log, r) {
      SampleOne(log, q, i, r.pos, sources, from);
      ok' := ok && !FromConversation(log[r.pos]);
      sources' := sources + {SourceOf(log[r.pos])};
      from' := from[SourceOf(log[r.pos]) := r.pos];
    } else {
      SampleNone(log, q, i, sources, from);
    }
  }

  /** The structural test on the evidence of one question. */
  method EvidenceTest(log: Log, q: nat) returns (sources: set<string>, ok: bool)
    requires IsQuestionAt(log, q)
    ensures |sources| >= 2 <==> TwoSources(log, q)
    ensures ok <==> NoConversation(log, q)
  {
    sources, ok := {}, true;
    ghost var from: map<string, nat> := map[];
    for i := 0 to |log[q].body.evidence|
      invariant Sampled(log, q, i, sources, from) && (ok <==> Untalked(log, q, i))
    {
      sources, from, ok := Sample(log, q, i, sources, from, ok);
    }
    SampledAll(log, q, sources, from);
    UntalkedAll(log, q);
  }

  lemma TwoOrMore<T>(s: set<T>)
    ensures |s| >= 2 <==> exists a, b :: a in s && b in s && a != b
  {
    if |s| >= 2 {
      var a :| a in s;
      assert |s - {a}| >= 1;
      var b :| b in s - {a};
    }
    if a, b :| a in s && b in s && a != b {
      assert {a, b} <= s;
      assert |s| == |{a, b}| + |s - {a, b}|;
    }
  }

  /** The tests on the revisits of one question. */
  method RevisitTest(log: Log, q: nat, rvs: seq<nat>) returns (twice: bool, week: bool, observed: bool)
    requires q < |log| && Ascending(rvs)
    requires forall k: nat :: k in rvs <==> RevisitOf(log, k, q)
    ensures twice <==> MetTwice(log, q)
    ensures week <==> SpansAWeek(log, q)
    ensures observed <==> RevisitsObserved(log, q)
  {
    twice := |rvs| >= 2;
    week, observed := false, true;
    for i := 0 to |rvs|
      invariant week <==> exists j :: 0 <= j < i && WeekApart(log, q, rvs[j])
      invariant observed <==> forall j | 0 <= j < i :: CausedByObservations(log, rvs[j])
    {
      assert rvs[i] in rvs && RevisitOf(log, rvs[i], q);
      if WeekApart(log, q, rvs[i]) {
        week := true;
      }
      if !CausedByObservations(log, rvs[i]) {
        observed := false;
      }
    }
    if |rvs| >= 2 {
      assert rvs[0] in rvs && rvs[1] in rvs;
    }
    if MetTwice(log, q) {
      var a: nat, b: nat :| a < b && RevisitOf(log, a, q) && RevisitOf(log, b, q);
      assert a in rvs && b in rvs;
    }
    if SpansAWeek(log, q) {
      var k: nat :| RevisitOf(log, k, q) && WeekApart(log, q, k);
      assert k in rvs;
    }
    forall k: nat | RevisitOf(log, k, q) && observed ensures CausedByObservations(log, k) {
      assert k in rvs;
    }
  }

  /** The dictionary of the given thoughts: nothing in it is unreachable, nothing reachable is missing from all
      its entries. */
  ghost predicate Usable(log: Log, thoughts: seq<Ref>, memo: Memo) {
    && (forall t {:trigger t in thoughts} | t in thoughts :: Resolves(log, t) && IsOwnThought(log[t.pos]) && t in memo)
    && (forall k | 0 <= k < |log| && IsOwnThought(log[k]) :: Evt(k) in thoughts)
    && (forall x, y {:trigger Reaches(log, x, y)} | x in memo && y in memo[x] :: Reaches(log, x, y))
    && Complete(log, memo, thoughts)
  }

  function Targets(log: Log, q: nat): set<Ref>
    requires IsQuestionAt(log, q)
  {
    {Evt(q)} + set y | y in log[q].body.evidence
  }

  ghost predicate Meets(memo: Memo, thoughts: seq<Ref>, j: nat, targets: set<Ref>) {
    j < |thoughts| && thoughts[j] in memo && memo[thoughts[j]] * targets != {}
  }

  /** An entry that meets the material shows that a thought grew from it. */
  lemma MeetingIsGrowth(log: Log, q: nat, thoughts: seq<Ref>, memo: Memo, j: nat)
    requires IsQuestionAt(log, q) && Usable(log, thoughts, memo) && Meets(memo, thoughts, j, Targets(log, q))
    ensures GrewIntoThought(log, q)
  {
    var y :| y in memo[thoughts[j]] * Targets(log, q);
    assert thoughts[j] in thoughts;
    assert thoughts[j] == Evt(thoughts[j].pos);
    assert Target(log, q, y) && Reaches(log, thoughts[j], y);
  }

  /** And however tangled the recalls, growth shows in some entry. */
  lemma GrowthIsMet(log: Log, q: nat, thoughts: seq<Ref>, memo: Memo) returns (j: nat)
    requires IsQuestionAt(log, q) && Usable(log, thoughts, memo) && GrewIntoThought(log, q)
    ensures Meets(memo, thoughts, j, Targets(log, q))
  {
    var t: nat, y :| t < |log| && IsOwnThought(log[t]) && Target(log, q, y) && Reaches(log, Evt(t), y);
    assert Evt(t) in thoughts && InSomeEntry(memo, thoughts, y);
    var h :| h in thoughts && h in memo && y in memo[h];
    j :| 0 <= j < |thoughts| && thoughts[j] == h;
    assert y in memo[thoughts[j]] * Targets(log, q);
  }

  /** Does some own thought's recalled set meet the question's material? */
  method LinkTest(log: Log, q: nat, thoughts: seq<Ref>, memo: Memo) returns (linked: bool)
    requires IsQuestionAt(log, q) && Usable(log, thoughts, memo)
    ensures linked <==> GrewIntoThought(log, q)
  {
    var targets := Targets(log, q);
    linked := false;
    for i := 0 to |thoughts|
      invariant linked <==> exists j: nat :: j < i && Meets(memo, thoughts, j, targets)
    {
      assert thoughts[i] in thoughts;
      if memo[thoughts[i]] * targets != {} {
        assert Meets(memo, thoughts, i, targets);
        linked := true;
      }
    }
    if linked {
      ghost var j: nat :| j < |thoughts| && Meets(memo, thoughts, j, targets);
      MeetingIsGrowth(log, q, thoughts, memo, j);
    } else if GrewIntoThought(log, q) {
      ghost var j := GrowthIsMet(log, q, thoughts, memo);
    }
  }

  method OwnThoughts(log: Log) returns (thoughts: seq<Ref>)
    ensures forall t | t in thoughts :: Resolves(log, t) && IsOwnThought(log[t.pos])
    ensures forall k | 0 <= k < |log| && IsOwnThought(log[k]) :: Evt(k) in thoughts
  {
    thoughts := [];
    for k := 0 to |log|
      invariant forall t | t in thoughts :: Resolves(log, t) && IsOwnThought(log[t.pos])
      invariant forall j | 0 <= j < k && IsOwnThought(log[j]) :: Evt(j) in thoughts
    {
      if IsOwnThought(log[k]) {
        thoughts := thoughts + [Evt(k)];
      }
    }
  }

  /** All the tests on one question. */
  method QuestionTest(
    log: Log, q: nat, byQ: map<Ref, seq<nat>>, thoughts: seq<Ref>, memo: Memo) returns (genesis: bool)
    requires IsQuestionAt(log, q) && Grouped(log, |log|, byQ) && Usable(log, thoughts, memo)
    ensures genesis <==> Qualifies(log, q)
  {
    var rvs := if Evt(q) in byQ then byQ[Evt(q)] else [];
    forall k: nat ensures k in rvs <==> RevisitOf(log, k, q) {
      if Evt(q) in byQ { assert k in byQ[Evt(q)] <==> RevisitOf(log, k, q); }
    }
    var sources, evOk := EvidenceTest(log, q);
    var twice, week, observed := RevisitTest(log, q, rvs);
    var linked := LinkTest(log, q, thoughts, memo);
    genesis := twice && |sources| >= 2 && week && linked && evOk && observed;
  }

  /** The numbers below `n` that satisfy `f`, in order. */
  ghost predicate Picks(out: seq<nat>, n: nat, f: nat -> bool) {
    Ascending(out) && forall p: nat {:trigger p in out} :: p in out <==> p < n && f(p)
  }

  lemma PickOne(out: seq<nat>, n: nat, f: nat -> bool)
    requires Picks(out, n, f)
    ensures Picks(if f(n) then out + [n] else out, n + 1, f)
  {
    AscendingSnoc(out, n);
  }

  ghost function Qualifying(log: Log): nat -> bool {
    (q: nat) => Qualifies(log, q)
  }

  /** The qualifying questions among the first `n` events, in order. */
  ghost predicate Sifted(log: Log, n: nat, out: seq<nat>) {
    Picks(out, n, Qualifying(log))
  }

  method QualifiesNow(
    log: Log, q: nat, byQ: map<Ref, seq<nat>>, thoughts: seq<Ref>, memo: Memo) returns (genesis: bool)
    requires q < |log| && Grouped(log, |log|, byQ) && Usable(log, thoughts, memo)
    ensures genesis <==> Qualifies(log, q)
  {
    genesis := false;
    if log[q].body.QuestionCreated? {
      genesis := QuestionTest(log, q, byQ, thoughts, memo);
    }
  }

  /** The loop over the questions. */
  method Sift(log: Log, byQ: map<Ref, seq<nat>>, thoughts: seq<Ref>, memo: Memo) returns (out: seq<nat>)
    requires Grouped(log, |log|, byQ) && Usable(log, thoughts, memo)
    ensures Sifted(log, |log|, out)
  {
    out := [];
    for q := 0 to |log|
      invariant Sifted(log, q, out)
    {
      var genesis := QualifiesNow(log, q, byQ, thoughts, memo);
      PickOne(out, q, Qualifying(log));
      if genesis {
        out := out + [q];
      }
    }
  }

  /** The detector reports exactly the questions that qualify, in the order they were asked, on every log: a
      dictionary entry cut short by a cycle never costs a candidate. */
  method GenesisCandidates(all: Log, limit: nat) returns (out: seq<nat>)
    ensures Sifted(ReadUpTo(all, limit), |ReadUpTo(all, limit)|, out)
  {
    var log := ReadUpTo(all, limit);
    var byQ := RevisitsByQuestion(log);
    var thoughts := OwnThoughts(log);
    var memo := TransitiveSets(log, thoughts);
    out := Sift(log, byQ, thoughts, memo);
  }
}
