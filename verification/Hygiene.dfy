/** Recall-pool hygiene (memory.py): an incremental scan that keeps route stubs and transcriptions of
    earlier text out of the recall pool. Text is normalised by a function given as a parameter. */
module Hygiene {
  import opened EventLog

  const META_PREFIXES := ["[continuity]", "[revisit]", "[distant]", "[serendipity]",
                          "[self]", "[personal]", "[world]", "[dream]"]

  const MIN_COPY := 12

  type Norm = string -> string

  // -------------------------------------------------------- the causal rule

  predicate Contains(hay: string, needle: string) {
    exists k | 0 <= k <= |hay| :: needle <= hay[k..]
  }

  predicate IsStub(e: Event) {
    e.body.ThoughtCreated? && exists p | p in META_PREFIXES :: p <= e.text
  }

  predicate MayEcho(e: Event) {
    e.body.MemoryConsolidated? || e.body.ShareCandidate?
  }

  function NormOf(norm: Norm, e: Event): string {
    if e.text == "" then "" else norm(e.text)
  }

  /** `e` holds the text of an event before position `i` that it cites. */
  ghost predicate CopiesCited(norm: Norm, log: Log, i: nat)
    requires i < |log|
  {
    exists k: nat | k < i ::
      && Evt(k) in log[i].relatedTo + log[i].copies
      && |NormOf(norm, log[k])| >= MIN_COPY
      && Contains(NormOf(norm, log[i]), NormOf(norm, log[k]))
  }

  /** The same text already stands before position `i`. */
  ghost predicate RepeatsEarlier(norm: Norm, log: Log, i: nat)
    requires i < |log|
  {
    NormOf(norm, log[i]) != "" && exists k: nat | k < i :: NormOf(norm, log[k]) == NormOf(norm, log[i])
  }

  /** The verdict on event `i`, from the events before it alone. */
  ghost predicate Polluted(norm: Norm, log: Log, i: nat)
    requires i < |log|
  {
    || IsStub(log[i])
    || (MayEcho(log[i]) && log[i].text != "" && (CopiesCited(norm, log, i) || RepeatsEarlier(norm, log, i)))
  }

  lemma VerdictIsFinal(norm: Norm, log: Log, log': Log, i: nat)
    requires log <= log' && i < |log|
    ensures Polluted(norm, log, i) <==> Polluted(norm, log', i)
  {
    assert forall k: nat | k <= i :: log[k] == log'[k];
    assert CopiesCited(norm, log, i) <==> CopiesCited(norm, log', i);
    assert RepeatsEarlier(norm, log, i) <==> RepeatsEarlier(norm, log', i);
  }

  /** Of the notes that share a text, the pool keeps at most the earliest. */
  lemma KeptNotesAreNew(norm: Norm, log: Log, i: nat, j: nat)
    requires i < j < |log| && MayEcho(log[j]) && log[j].text != ""
    requires NormOf(norm, log[i]) == NormOf(norm, log[j]) != ""
    ensures Polluted(norm, log, j)
  {
    assert RepeatsEarlier(norm, log, j);
  }

  /** `hay` holds `needle` somewhere. */
  ghost predicate Inside(hay: string, needle: string) {
    exists before, after :: hay == before + needle + after
  }

  lemma ContainsIs(hay: string, needle: string)
    ensures Contains(hay, needle) <==> Inside(hay, needle)
  {
    if k :| 0 <= k <= |hay| && needle <= hay[k..] {
      assert hay == hay[..k] + needle + hay[k + |needle|..];
    }
    if before, after :| hay == before + needle + after {
      assert needle <= hay[|before|..];
    }
  }

  predicate BeginsAsRoute(text: string) {
    || "[continuity]" <= text || "[revisit]" <= text || "[distant]" <= text || "[serendipity]" <= text
    || "[self]" <= text || "[personal]" <= text || "[world]" <= text || "[dream]" <= text
  }

  /** An earlier text that `e` cites and holds, if it has twelve characters or more, or that `e` repeats. */
  ghost predicate Said(norm: Norm, log: Log, e: Event, k: nat) {
    && k < |log| && |log[k].text| > 0
    && var earlier, text := norm(log[k].text), norm(e.text);
       || ((Evt(k) in e.relatedTo || Evt(k) in e.copies) && |earlier| >= 12 && Inside(text, earlier))
       || (earlier == text && |text| > 0)
  }

  lemma SaidIs(norm: Norm, log: Log, i: nat)
    requires i < |log| && log[i].text != ""
    ensures CopiesCited(norm, log, i) || RepeatsEarlier(norm, log, i)
            <==> exists k: nat :: k < i && Said(norm, log, log[i], k)
  {
    forall k: nat | k < i ensures Contains(NormOf(norm, log[i]), NormOf(norm, log[k]))
                                  <==> Inside(NormOf(norm, log[i]), NormOf(norm, log[k])) {
      ContainsIs(NormOf(norm, log[i]), NormOf(norm, log[k]));
    }
    if k: nat :| k < i && Evt(k) in log[i].relatedTo + log[i].copies && |NormOf(norm, log[k])| >= MIN_COPY
                 && Contains(NormOf(norm, log[i]), NormOf(norm, log[k])) {
      assert Said(norm, log, log[i], k);
    }
    if NormOf(norm, log[i]) != "" {
      if k: nat :| k < i && NormOf(norm, log[k]) == NormOf(norm, log[i]) {
        assert Said(norm, log, log[i], k);
      }
    }
  }

  lemma StubIs(e: Event)
    ensures IsStub(e) <==> e.body.ThoughtCreated? && BeginsAsRoute(e.text)
  {
    var ps := META_PREFIXES;
    assert ps[0] in ps && ps[1] in ps && ps[2] in ps && ps[3] in ps && ps[4] in ps && ps[5] in ps && ps[6] in ps
           && ps[7] in ps;
  }

  /** What the pool leaves out: a thought that begins like a route's stub, and a note of the mind's that holds or
      repeats what was said before. */
  lemma PollutedIs(norm: Norm, log: Log, i: nat)
    requires i < |log|
    ensures Polluted(norm, log, i) <==>
              || (log[i].body.ThoughtCreated? && BeginsAsRoute(log[i].text))
              || ((log[i].body.MemoryConsolidated? || log[i].body.ShareCandidate?) && |log[i].text| > 0
                  && exists k: nat :: k < i && Said(norm, log, log[i], k))
  {
    StubIs(log[i]);
    if log[i].text != "" {
      SaidIs(norm, log, i);
    }
  }

  // ------------------------------------------------------------ the scanner

  datatype Found = Found(excluded: set<nat>, priorNorm: map<nat, string>, priorTexts: set<string>)

  ghost predicate Covers(norm: Norm, log: Log, f: Found) {
    && (forall i: nat :: i in f.excluded <==> i < |log| && Polluted(norm, log, i))
    && (forall i: nat :: i in f.priorNorm <==> i < |log| && NormOf(norm, log[i]) != "")
    && (forall i: nat | i in f.priorNorm :: f.priorNorm[i] == NormOf(norm, log[i]))
    && (forall t :: t in f.priorTexts <==> exists i: nat :: i in f.priorNorm && f.priorNorm[i] == t)
  }

  /** The verdicts fix the whole state, so how the log was cut into scans cannot matter. */
  lemma OneStatePerPrefix(norm: Norm, log: Log, f: Found, g: Found)
    requires Covers(norm, log, f) && Covers(norm, log, g)
    ensures f == g
  {
    assert f.excluded == g.excluded;
    assert f.priorNorm == g.priorNorm;
    assert f.priorTexts == g.priorTexts;
  }

  predicate Cites(f: Found, refs: seq<Ref>, nt: string) {
    exists j | 0 <= j < |refs| ::
      && refs[j].Evt? && refs[j].pos in f.priorNorm
      && |f.priorNorm[refs[j].pos]| >= MIN_COPY
      && Contains(nt, f.priorNorm[refs[j].pos])
  }

  predicate Echo(norm: Norm, f: Found, e: Event) {
    e.text != "" && (Cites(f, e.relatedTo + e.copies, norm(e.text)) || norm(e.text) in f.priorTexts)
  }

  lemma CitesIsCopies(norm: Norm, log: Log, e: Event, f: Found)
    requires Covers(norm, log, f) && e.text != ""
    ensures Cites(f, e.relatedTo + e.copies, norm(e.text)) <==> CopiesCited(norm, log + [e], |log|)
  {
    var log', refs, nt := log + [e], e.relatedTo + e.copies, norm(e.text);
    if Cites(f, refs, nt) {
      var j :| 0 <= j < |refs| && refs[j].Evt? && refs[j].pos in f.priorNorm
               && |f.priorNorm[refs[j].pos]| >= MIN_COPY && Contains(nt, f.priorNorm[refs[j].pos]);
      assert refs[j] == Evt(refs[j].pos) && log'[refs[j].pos] == log[refs[j].pos];
    }
    if CopiesCited(norm, log', |log|) {
      var k: nat :| k < |log| && Evt(k) in refs && |NormOf(norm, log'[k])| >= MIN_COPY
                    && Contains(nt, NormOf(norm, log'[k]));
      var j :| 0 <= j < |refs| && refs[j] == Evt(k);
      assert log'[k] == log[k] && k in f.priorNorm;
    }
  }

  lemma TextsAreRepeats(norm: Norm, log: Log, e: Event, f: Found)
    requires Covers(norm, log, f) && e.text != ""
    ensures norm(e.text) in f.priorTexts <==> RepeatsEarlier(norm, log + [e], |log|)
  {
    var log', nt := log + [e], norm(e.text);
    if nt in f.priorTexts {
      var i: nat :| i in f.priorNorm && f.priorNorm[i] == nt;
      assert log'[i] == log[i] && NormOf(norm, log'[i]) == nt;
    }
    if RepeatsEarlier(norm, log', |log|) {
      var k: nat :| k < |log| && NormOf(norm, log'[k]) == nt;
      assert log'[k] == log[k] && k in f.priorNorm && f.priorNorm[k] == nt;
    }
  }

  /** What the fields say about the next event is the verdict on it. */
  lemma EchoIsVerdict(norm: Norm, log: Log, e: Event, f: Found)
    requires Covers(norm, log, f)
    ensures Echo(norm, f, e) <==>
            e.text != "" && (CopiesCited(norm, log + [e], |log|) || RepeatsEarlier(norm, log + [e], |log|))
  {
    if e.text != "" {
      CitesIsCopies(norm, log, e, f);
      TextsAreRepeats(norm, log, e, f);
    }
  }

  function Judged(norm: Norm, f: Found, e: Event, i: nat): Found {
    var nt := NormOf(norm, e);
    Found(if IsStub(e) || (MayEcho(e) && Echo(norm, f, e)) then f.excluded + {i} else f.excluded,
          if nt != "" then f.priorNorm[i := nt] else f.priorNorm,
          if nt != "" then f.priorTexts + {nt} else f.priorTexts)
  }

  lemma JudgedTexts(norm: Norm, log: Log, e: Event, f: Found)
    requires Covers(norm, log, f)
    ensures var g := Judged(norm, f, e, |log|);
            forall t :: t in g.priorTexts <==> exists i: nat :: i in g.priorNorm && g.priorNorm[i] == t
  {
    var n, g := |log|, Judged(norm, f, e, |log|);
    assert n !in f.priorNorm;
    forall t ensures t in g.priorTexts <==> exists i: nat :: i in g.priorNorm && g.priorNorm[i] == t {
      if t in f.priorTexts {
        var i: nat :| i in f.priorNorm && f.priorNorm[i] == t;
        assert i in g.priorNorm && g.priorNorm[i] == t;
      } else if t in g.priorTexts {
        assert n in g.priorNorm && g.priorNorm[n] == t;
      }
      if i: nat :| i in g.priorNorm && g.priorNorm[i] == t {
        if i != n {
          assert i in f.priorNorm && f.priorNorm[i] == t;
        }
      }
    }
  }

  lemma JudgedExcludes(norm: Norm, log: Log, e: Event, f: Found, i: nat)
    requires Covers(norm, log, f)
    ensures i in Judged(norm, f, e, |log|).excluded <==> i <= |log| && Polluted(norm, log + [e], i)
  {
    var log' := log + [e];
    if i < |log| {
      VerdictIsFinal(norm, log, log', i);
    } else if i == |log| {
      EchoIsVerdict(norm, log, e, f);
      assert log'[i] == e && i !in f.excluded;
    }
  }

  lemma JudgedCovers(norm: Norm, log: Log, e: Event, f: Found)
    requires Covers(norm, log, f)
    ensures Covers(norm, log + [e], Judged(norm, f, e, |log|))
  {
    var log', n, g := log + [e], |log|, Judged(norm, f, e, |log|);
    forall i: nat ensures i in g.excluded <==> i < |log'| && Polluted(norm, log', i) {
      JudgedExcludes(norm, log, e, f, i);
    }
    forall i: nat
      ensures i in g.priorNorm <==> i < |log'| && NormOf(norm, log'[i]) != ""
      ensures i in g.priorNorm ==> g.priorNorm[i] == NormOf(norm, log'[i])
    {
      if i < n {
        assert log'[i] == log[i];
      }
    }
    JudgedTexts(norm, log, e, f);
  }

  class Scanner {
    const norm: Norm
    var seq_: nat                     // events already judged
    var excluded: set<nat>
    var priorNorm: map<nat, string>
    var priorTexts: set<string>

    constructor (norm: Norm)
      ensures this.norm == norm && seq_ == 0
      ensures forall log: Log :: Agrees(log)
    {
      this.norm := norm;
      seq_, excluded, priorNorm, priorTexts := 0, {}, map[], {};
      new;
      forall log: Log ensures Agrees(log) {
        assert log[..0] == [];
      }
    }

    /** The state is the causal verdict on the scanned prefix, however it was reached. */
    ghost predicate Agrees(log: Log)
      reads this
    {
      seq_ <= |log| && Covers(norm, log[..seq_], Found(excluded, priorNorm, priorTexts))
    }

    lemma AgreesAsLogGrows(log: Log, log': Log)
      requires Agrees(log) && log <= log'
      ensures Agrees(log')
    {
      assert log'[..seq_] == log[..seq_];
    }

    method IsEcho(e: Event) returns (b: bool)
      ensures b <==> Echo(norm, Found(excluded, priorNorm, priorTexts), e)
    {
      if e.text == "" {
        return false;
      }
      var nt := norm(e.text);
      var cited := e.relatedTo + e.copies;
      ghost var f := Found(excluded, priorNorm, priorTexts);
      for j := 0 to |cited|
        invariant !Cites(f, cited[..j], nt)
      {
        var snt := if cited[j].Evt? && cited[j].pos in priorNorm then priorNorm[cited[j].pos] else "";
        if |snt| >= MIN_COPY && Contains(nt, snt) {
          assert Cites(f, cited, nt);
          return true;
        }
        assert cited[..j + 1] == cited[..j] + [cited[j]];
      }
      assert cited[..|cited|] == cited;
      return nt in priorTexts;
    }

    method JudgeNext(e: Event)
      modifies this
      ensures seq_ == old(seq_) + 1
      ensures Found(excluded, priorNorm, priorTexts)
              == Judged(norm, old(Found(excluded, priorNorm, priorTexts)), e, old(seq_))
    {
      var nt := NormOf(norm, e);
      var echo := false;
      if MayEcho(e) {
        echo := IsEcho(e);
      }
      if IsStub(e) || echo {
        excluded := excluded + {seq_};
      }
      if nt != "" {
        priorNorm := priorNorm[seq_ := nt];
        priorTexts := priorTexts + {nt};
      }
      seq_ := seq_ + 1;
    }

    /** Judges the next `limit` unscanned events, oldest first. */
    method Scan(store: EventStore, limit: nat)
      requires Agrees(store.log)
      modifies this
      ensures Agrees(store.log)
      ensures seq_ == if old(seq_) + limit <= |store.log| then old(seq_) + limit else |store.log|
    {
      var log := store.log;
      var rows := SinceSeq(log, seq_, limit);
      ghost var start := seq_;
      for i := 0 to |rows|
        invariant seq_ == start + i <= |log|
        invariant Agrees(log)
      {
        ghost var prefix, found := log[..seq_], Found(excluded, priorNorm, priorTexts);
        JudgedCovers(norm, prefix, rows[i], found);
        JudgeNext(rows[i]);
        assert log[..seq_] == prefix + [rows[i]];
      }
    }
  }

  // ------------------------------------------- appends and scans interleaved

  datatype Op = Write(draft: Event) | Sweep

  method LiveOne(store: EventStore, scanner: Scanner, op: Op, limit: nat)
    requires store.Valid() && scanner.Agrees(store.log)
    modifies store, scanner
    ensures store.Valid() && scanner.Agrees(store.log) && old(store.log) <= store.log
    ensures old(scanner.seq_) <= scanner.seq_
    ensures op.Sweep? && |store.log| - old(scanner.seq_) <= limit ==> scanner.seq_ == |store.log|
  {
    match op {
      case Write(draft) =>
        ghost var before := store.log;
        var _ := store.Append(draft);
        scanner.AgreesAsLogGrows(before, store.log);
      case Sweep =>
        scanner.Scan(store, limit);
    }
  }

  /** Any interleaving of appends and scans leaves the scanner with the verdicts of the scanned
      prefix, and one last sweep within the read limit brings it up to date. */
  method Live(store: EventStore, scanner: Scanner, ops: seq<Op>, limit: nat)
    requires store.Valid() && scanner.Agrees(store.log)
    modifies store, scanner
    ensures store.Valid() && scanner.Agrees(store.log) && old(store.log) <= store.log
    ensures |store.log| - old(scanner.seq_) <= limit && ops != [] && ops[|ops| - 1].Sweep?
            ==> scanner.seq_ == |store.log| && CaughtUp(scanner, store.log)
  {
    for n := 0 to |ops|
      invariant store.Valid() && scanner.Agrees(store.log) && old(store.log) <= store.log
      invariant old(scanner.seq_) <= scanner.seq_
      invariant n > 0 && ops[n - 1].Sweep? && |store.log| - old(scanner.seq_) <= limit
                ==> scanner.seq_ == |store.log|
    {
      LiveOne(store, scanner, ops[n], limit);
    }
    if scanner.seq_ == |store.log| {
      assert store.log[..scanner.seq_] == store.log;
    }
  }

  /** The pool is cleaned of exactly the polluted events of the whole log. */
  ghost predicate CaughtUp(scanner: Scanner, log: Log)
    reads scanner
  {
    forall i: nat :: i in scanner.excluded <==> i < |log| && Polluted(scanner.norm, log, i)
  }

  // ------------------------------------------------------- the recent window

  /** The newest `fetch` events the pool keeps, oldest first. */
  function Kept(log: Log, excluded: set<nat>, fetch: nat): (s: seq<nat>)
    ensures forall i | 0 <= i < |s| :: s[i] < |log|
    ensures forall i, j | 0 <= i < j < |s| :: s[i] < s[j]
  {
    KeptBetween(log, excluded, if fetch <= |log| then |log| - fetch else 0, |log|)
  }

  function KeptBetween(log: Log, excluded: set<nat>, lo: nat, hi: nat): (s: seq<nat>)
    requires lo <= hi <= |log|
    ensures forall i | 0 <= i < |s| :: lo <= s[i] < hi
    ensures forall i, j | 0 <= i < j < |s| :: s[i] < s[j]
    decreases hi
  {
    if lo == hi then [] else
      var s := KeptBetween(log, excluded, lo, hi - 1);
      if !log[hi - 1].system && hi - 1 !in excluded then s + [hi - 1] else s
  }

  lemma {:induction false} KeptBetweenIs(log: Log, excluded: set<nat>, lo: nat, hi: nat, k: nat)
    requires lo <= hi <= |log|
    ensures k in KeptBetween(log, excluded, lo, hi) <==> lo <= k < hi && !log[k].system && k !in excluded
    decreases hi
  {
    if lo < hi {
      KeptBetweenIs(log, excluded, lo, hi - 1, k);
    }
  }

  /** What the window is taken from: what is neither hidden nor excluded among the newest events. */
  lemma KeptAre(log: Log, excluded: set<nat>, fetch: nat, k: nat)
    ensures k in Kept(log, excluded, fetch)
            <==> k < |log| && |log| - fetch <= k && !log[k].system && k !in excluded
  {
    KeptBetweenIs(log, excluded, if fetch <= |log| then |log| - fetch else 0, |log|, k);
  }

  /** The code takes the first `n` of them. */
  method RecentForRecall(log: Log, excluded: set<nat>, n: nat, fetch: nat) returns (window: seq<nat>)
    ensures var raw := Kept(log, excluded, fetch); window == if n <= |raw| then raw[..n] else raw
  {
    var lo := if fetch <= |log| then |log| - fetch else 0;
    var raw: seq<nat> := [];
    for k := lo to |log|
      invariant raw == KeptBetween(log, excluded, lo, k)
    {
      if !log[k].system && k !in excluded {
        raw := raw + [k];
      }
    }
    window := if n <= |raw| then raw[..n] else raw;
  }

  /** The first `n` kept events are the most recent ones only if the pool keeps no more than `n`. */
  lemma WindowIsRecentIff(log: Log, excluded: set<nat>, n: nat, fetch: nat)
    requires 0 < n <= |Kept(log, excluded, fetch)|
    ensures var raw := Kept(log, excluded, fetch); raw[..n] == raw[|raw| - n..] <==> |raw| == n
  {
    var raw := Kept(log, excluded, fetch);
    if n < |raw| {
      assert raw[..n][0] == raw[0] && raw[|raw| - n..][0] == raw[|raw| - n];
    }
  }
}
