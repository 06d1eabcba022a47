/** The mind's own threads as the sleep cycle creates them (sleep.py): the cap and the check for
    near-identical threads. Both read the newest thread rows only, up to a limit. */
module SelfThreads {
  import opened EventLog

  /** `poolS` is the consolidation window in seconds, `threadRead` the row limit of the two reads. */
  datatype Rules = Rules(selfMax: nat, poolS: Option<real>, threadRead: nat, norm: string -> string)

  predicate IsThread(e: Event) {
    e.body.ThreadCreated?
  }

  predicate IsSelfThread(e: Event) {
    e.body.ThreadCreated? && e.body.selfOrigin
  }

  // --------------------------------------------------------------- the reads

  function SelfIn(log: Log, rows: seq<nat>): nat {
    if rows == [] then 0 else
      (if rows[0] < |log| && IsSelfThread(log[rows[0]]) then 1 else 0) + SelfIn(log, rows[1..])
  }

  /** The own threads among the newest thread rows. */
  function OwnRead(log: Log, read: nat): nat {
    SelfIn(log, Newest(log, IsThread, read))
  }

  method CountSelfThreads(log: Log, cap: nat) returns (n: nat)
    ensures n == OwnRead(log, cap)
  {
    var rows := Newest(log, IsThread, cap);
    n := 0;
    for i := 0 to |rows|
      invariant n + SelfIn(log, rows[i..]) == SelfIn(log, rows)
    {
      assert rows[i..][1..] == rows[i + 1..];
      if rows[i] < |log| && IsSelfThread(log[rows[i]]) {
        n := n + 1;
      }
    }
  }

  predicate InWindow(at: real, now: real, window: Option<real>) {
    window.None? || !(at < now - window.value)
  }

  /** An own thread of the window built from the same memories, or with the same title. */
  predicate NearIdentical(e: Event, pair: set<Ref>, title: string, now: real, r: Rules) {
    && IsSelfThread(e) && InWindow(e.at, now, r.poolS)
    && ((pair != {} && e.body.derived == pair) || (r.norm(e.body.title) != "" && r.norm(e.body.title) == r.norm(title)))
  }

  ghost predicate HasTwin(log: Log, pair: set<Ref>, title: string, now: real, r: Rules) {
    exists k | k in Newest(log, IsThread, r.threadRead) :: k < |log| && NearIdentical(log[k], pair, title, now, r)
  }

  method AnyNearIdentical(log: Log, rows: seq<nat>, pair: set<Ref>, title: string, now: real, r: Rules)
    returns (b: bool)
    ensures b <==> exists k | k in rows :: k < |log| && NearIdentical(log[k], pair, title, now, r)
  {
    for i := 0 to |rows|
      invariant forall h | 0 <= h < i :: !(rows[h] < |log| && NearIdentical(log[rows[h]], pair, title, now, r))
    {
      if rows[i] < |log| && NearIdentical(log[rows[i]], pair, title, now, r) {
        assert rows[i] in rows;
        return true;
      }
    }
    return false;
  }

  method NearIdenticalExists(log: Log, pair: set<Ref>, title: string, now: real, r: Rules) returns (b: bool)
    ensures b <==> HasTwin(log, pair, title, now, r)
  {
    b := AnyNearIdentical(log, Newest(log, IsThread, r.threadRead), pair, title, now, r);
  }

  // -------------------------------------------------- what the reads reach

  lemma {:induction false} SelfInPrefix(log: Log, e: Event, rows: seq<nat>)
    requires forall i | 0 <= i < |rows| :: rows[i] < |log|
    ensures SelfIn(log + [e], rows) == SelfIn(log, rows)
  {
    if rows != [] {
      SelfInPrefix(log, e, rows[1..]);
    }
  }

  lemma OwnReadAppend(log: Log, e: Event, read: nat)
    ensures OwnRead(log + [e], read)
            == if IsThread(e) && read > 0 then (if IsSelfThread(e) then 1 else 0) + OwnRead(log, read - 1)
               else OwnRead(log, read)
  {
    NewestAppend(log, e, IsThread, read);
    if IsThread(e) && read > 0 {
      var rest := Newest(log, IsThread, read - 1);
      NewestWithin(log, IsThread, read - 1);
      SelfInPrefix(log, e, rest);
      assert ([|log|] + rest)[1..] == rest;
    } else {
      NewestWithin(log, IsThread, read);
      SelfInPrefix(log, e, Newest(log, IsThread, read));
    }
  }

  /** The count misses no own thread of a stretch that fits the read. */
  lemma {:induction false} StretchIsRead(log: Log, lo: nat, read: nat)
    requires CountFrom(log, lo, IsThread) <= read
    ensures CountFrom(log, lo, IsSelfThread) <= OwnRead(log, read)
    decreases |log|
  {
    if lo < |log| {
      var front, e := log[..|log| - 1], log[|log| - 1];
      assert log == front + [e];
      CountFromAppend(front, e, lo, IsThread);
      CountFromAppend(front, e, lo, IsSelfThread);
      OwnReadAppend(front, e, read);
      StretchIsRead(front, lo, if IsThread(e) then read - 1 else read);
    }
  }

  // ---------------------------------------------------------- kept for good

  /** The stretch of the log from `lo` to its end holds no more own threads than the cap, if the read and one
      row more cover it. */
  ghost predicate StretchCapped(log: Log, lo: nat, r: Rules) {
    CountFrom(log, lo, IsThread) <= r.threadRead + 1 ==> CountFrom(log, lo, IsSelfThread) <= r.selfMax
  }

  /** So does every stretch. */
  ghost predicate Capped(log: Log, r: Rules) {
    forall lo: nat, hi: nat {:trigger StretchCapped(log[..hi], lo, r)} | hi <= |log| :: StretchCapped(log[..hi], lo, r)
  }

  ghost predicate NoTwinBefore(log: Log, j: nat, r: Rules)
    requires j < |log|
  {
    IsSelfThread(log[j]) ==> !HasTwin(log[..j], log[j].body.derived, log[j].body.title, log[j].at, r)
  }

  ghost predicate Sound(log: Log, r: Rules) {
    Capped(log, r) && forall j: nat {:trigger NoTwinBefore(log, j, r)} | j < |log| :: NoTwinBefore(log, j, r)
  }

  /** A new own thread passes both checks. */
  ghost predicate Passes(log: Log, e: Event, r: Rules)
    requires IsSelfThread(e)
  {
    OwnRead(log, r.threadRead) < r.selfMax && !HasTwin(log, e.body.derived, e.body.title, e.at, r)
  }

  lemma StretchAppend(log: Log, e: Event, lo: nat, r: Rules)
    requires StretchCapped(log, lo, r)
    requires IsSelfThread(e) ==> OwnRead(log, r.threadRead) < r.selfMax
    ensures StretchCapped(log + [e], lo, r)
  {
    CountFromAppend(log, e, lo, IsThread);
    CountFromAppend(log, e, lo, IsSelfThread);
    if IsSelfThread(e) && lo <= |log| && CountFrom(log, lo, IsThread) <= r.threadRead {
      StretchIsRead(log, lo, r.threadRead);
    }
  }

  lemma CappedAppend(log: Log, e: Event, r: Rules)
    requires Capped(log, r)
    requires IsSelfThread(e) ==> OwnRead(log, r.threadRead) < r.selfMax
    ensures Capped(log + [e], r)
  {
    var log' := log + [e];
    forall lo: nat, hi: nat | hi <= |log'| ensures StretchCapped(log'[..hi], lo, r) {
      if hi <= |log| {
        assert log'[..hi] == log[..hi];
        assert StretchCapped(log[..hi], lo, r);
      } else {
        assert log[..|log|] == log && StretchCapped(log[..|log|], lo, r);
        assert log'[..hi] == log';
        StretchAppend(log, e, lo, r);
      }
    }
  }

  /** One more event keeps both promises, if an own thread passes both checks. */
  lemma SoundAppend(log: Log, e: Event, r: Rules)
    requires Sound(log, r)
    requires IsSelfThread(e) ==> Passes(log, e, r)
    ensures Sound(log + [e], r)
  {
    var log' := log + [e];
    CappedAppend(log, e, r);
    forall j: nat | j < |log'| ensures NoTwinBefore(log', j, r) {
      if j < |log| {
        assert log'[..j] == log[..j];
        assert NoTwinBefore(log, j, r);
      } else {
        assert log'[..j] == log;
      }
    }
  }

  /** No stretch that holds at most one thread row more than the read holds more own threads than the cap. */
  lemma CapHoldsInEveryStretch(log: Log, lo: nat, hi: nat, r: Rules)
    requires Sound(log, r) && lo <= hi <= |log| && CountFrom(log[..hi], lo, IsThread) <= r.threadRead + 1
    ensures CountFrom(log[..hi], lo, IsSelfThread) <= r.selfMax
  {
    assert StretchCapped(log[..hi], lo, r);
  }

  lemma {:induction false} CountIsPositions(log: Log, p: Event -> bool)
    ensures CountFrom(log, 0, p) == |Positions(log, p)|
  {
    if log != [] {
      var front := log[..|log| - 1];
      CountIsPositions(front, p);
      CountFromAppend(front, log[|log| - 1], 0, p);
      PositionsAppend(front, log[|log| - 1], p);
      assert log == front + [log[|log| - 1]];
    }
  }

  /** In particular the cap holds for the whole log while the thread rows fit the read, or exceed it by one. */
  lemma CapHoldsWhileReadIsWhole(log: Log, r: Rules)
    requires Sound(log, r) && |Positions(log, IsThread)| <= r.threadRead + 1
    ensures |Positions(log, IsSelfThread)| <= r.selfMax
  {
    assert log[..|log|] == log;
    CountIsPositions(log, IsThread);
    CountIsPositions(log, IsSelfThread);
    CapHoldsInEveryStretch(log, 0, |log|, r);
  }

  /** Two own threads that the check would find alike, the later one looking back. */
  predicate Alike(log: Log, i: nat, j: nat, r: Rules) {
    && i < j < |log| && IsSelfThread(log[j])
    && NearIdentical(log[i], log[j].body.derived, log[j].body.title, log[j].at, r)
  }

  /** Between two like threads of one window there lie at least as many thread rows as one read holds. */
  lemma LikeThreadsAreFarApart(log: Log, i: nat, j: nat, r: Rules)
    requires Sound(log, r) && Alike(log, i, j, r)
    ensures CountFrom(log[..j], i + 1, IsThread) >= r.threadRead
  {
    assert NoTwinBefore(log, j, r);
    assert log[..j][i] == log[i];
    NewestIff(log[..j], i, IsThread, r.threadRead);
  }

  /** So while the read is whole no two own threads of one window share their memories or their title. */
  lemma NoTwoAlike(log: Log, i: nat, j: nat, r: Rules)
    requires Sound(log, r) && i < j < |log| && |Positions(log[..j], IsThread)| <= r.threadRead && IsSelfThread(log[j])
    ensures !Alike(log, i, j, r)
  {
    if Alike(log, i, j, r) {
      LikeThreadsAreFarApart(log, i, j, r);
      CountLess(log[..j], i, IsThread);
      CountIsPositions(log[..j], IsThread);
    }
  }

  /** And that is exactly what the check demands of a new thread. */
  lemma PassesIff(log: Log, e: Event, r: Rules)
    requires IsSelfThread(e)
    ensures !HasTwin(log, e.body.derived, e.body.title, e.at, r)
            <==> forall i: nat | i < |log| && NearIdentical(log[i], e.body.derived, e.body.title, e.at, r) ::
                   CountFrom(log, i + 1, IsThread) >= r.threadRead
  {
    forall i: nat ensures i in Newest(log, IsThread, r.threadRead)
                          <==> i < |log| && IsThread(log[i]) && CountFrom(log, i + 1, IsThread) < r.threadRead
    {
      NewestIff(log, i, IsThread, r.threadRead);
    }
  }

  // ----------------------------------------------------------- copies come back

  function OwnThread(): Event {
    Draft(false, ThreadCreated(true, "t", {Evt(0)}))
  }

  function Filler(): Event {
    Draft(false, ThreadCreated(false, "", {}))
  }

  function Fillers(m: nat): (log: Log)
    ensures |log| == m
  {
    if m == 0 then [] else Fillers(m - 1) + [Filler()]
  }

  lemma FillersSnoc(log: Log, m: nat)
    requires m > 0
    ensures log + Fillers(m) == log + Fillers(m - 1) + [Filler()]
  {
  }

  /** `n` identical own threads, each followed by `m` threads of other origin. */
  function Copies(n: nat, m: nat): Log {
    if n == 0 then [] else Copies(n - 1, m) + ([OwnThread()] + Fillers(m))
  }

  lemma {:induction false} FillersCount(log: Log, m: nat, lo: nat)
    requires lo <= |log|
    ensures CountFrom(log + Fillers(m), lo, IsThread) == CountFrom(log, lo, IsThread) + m
    ensures CountFrom(log + Fillers(m), lo, IsSelfThread) == CountFrom(log, lo, IsSelfThread)
  {
    if m == 0 {
      assert log + Fillers(0) == log;
    } else {
      FillersCount(log, m - 1, lo);
      FillersSnoc(log, m);
      CountFromAppend(log + Fillers(m - 1), Filler(), lo, IsThread);
      CountFromAppend(log + Fillers(m - 1), Filler(), lo, IsSelfThread);
    }
  }

  lemma {:induction false} FillersKeepSound(log: Log, m: nat, r: Rules)
    requires Sound(log, r)
    ensures Sound(log + Fillers(m), r)
  {
    if m == 0 {
      assert log + Fillers(0) == log;
    } else {
      FillersKeepSound(log, m - 1, r);
      FillersSnoc(log, m);
      SoundAppend(log + Fillers(m - 1), Filler(), r);
    }
  }

  lemma {:induction false} SomeOwn(log: Log, rows: seq<nat>) returns (k: nat)
    requires SelfIn(log, rows) > 0
    ensures k in rows && k < |log| && IsSelfThread(log[k])
  {
    if rows[0] < |log| && IsSelfThread(log[rows[0]]) {
      k := rows[0];
    } else {
      k := SomeOwn(log, rows[1..]);
    }
  }

  lemma FillersAreNotOwn(log: Log, m: nat, k: nat)
    requires |log| <= k < |log| + m
    ensures !IsSelfThread((log + Fillers(m))[k])
  {
    FillersAt(m, k - |log|);
  }

  lemma {:induction false} FillersAt(m: nat, i: nat)
    requires i < m
    ensures Fillers(m)[i] == Filler()
  {
    if i < m - 1 {
      FillersAt(m - 1, i);
    }
  }

  /** Fillers enough for the read leave nothing of the mind's own in it. */
  lemma FillersHide(log: Log, m: nat, read: nat)
    requires read <= m
    ensures OwnRead(log + Fillers(m), read) == 0
  {
    var whole := log + Fillers(m);
    if OwnRead(whole, read) > 0 {
      var k := SomeOwn(whole, Newest(whole, IsThread, read));
      NewestIff(whole, k, IsThread, read);
      if k < |log| {
        FillersCount(log, m, k + 1);
      } else {
        FillersAreNotOwn(log, m, k);
      }
    }
  }

  lemma {:induction false} NoneOwn(log: Log, rows: seq<nat>, k: nat)
    requires SelfIn(log, rows) == 0 && k in rows && k < |log|
    ensures !IsSelfThread(log[k])
  {
    if rows[0] != k {
      assert k in rows[1..];
      NoneOwn(log, rows[1..], k);
    }
  }

  /** A read without own threads lets any new one pass. */
  lemma UnseenPasses(log: Log, e: Event, r: Rules)
    requires IsSelfThread(e) && OwnRead(log, r.threadRead) == 0 && r.selfMax > 0
    ensures Passes(log, e, r)
  {
    forall k | k in Newest(log, IsThread, r.threadRead) && k < |log|
      ensures !NearIdentical(log[k], e.body.derived, e.body.title, e.at, r)
    {
      NoneOwn(log, Newest(log, IsThread, r.threadRead), k);
    }
  }

  predicate Present(r: Rules) {
    r.selfMax > 0 && InWindow(0.0, 0.0, r.poolS)
  }

  lemma CopiesStep(n: nat, m: nat)
    ensures Copies(n + 1, m) == Copies(n, m) + [OwnThread()] + Fillers(m)
  {
  }

  lemma {:induction false} SpacedCopiesAreSound(n: nat, m: nat, r: Rules)
    requires Present(r) && (n > 1 ==> r.threadRead <= m)
    ensures Sound(Copies(n, m), r)
  {
    if n == 0 {
    } else {
      var before := Copies(n - 1, m);
      SpacedCopiesAreSound(n - 1, m, r);
      CopiesStep(n - 1, m);
      CopiesAreHidden(n - 1, m, r);
      UnseenPasses(before, OwnThread(), r);
      SoundAppend(before, OwnThread(), r);
      FillersKeepSound(before + [OwnThread()], m, r);
    }
  }

  lemma CopiesAreHidden(n: nat, m: nat, r: Rules)
    requires n > 0 ==> r.threadRead <= m
    ensures OwnRead(Copies(n, m), r.threadRead) == 0
  {
    if n == 0 {
      NothingToRead(IsThread, r.threadRead);
    } else {
      HiddenBy(Copies(n - 1, m) + [OwnThread()], Copies(n, m), m, r.threadRead);
    }
  }

  lemma HiddenBy(before: Log, log: Log, m: nat, read: nat)
    requires log == before + Fillers(m) && read <= m
    ensures OwnRead(log, read) == 0
  {
    FillersHide(before, m, read);
  }

  lemma {:induction false} CopiesBegin(n: nat, m: nat)
    requires n > 1
    ensures var log := [OwnThread()] + Fillers(m); log + [OwnThread()] <= Copies(n, m)
  {
    CopiesStep(n - 1, m);
    if n == 2 {
      CopiesStep(0, m);
      assert Copies(1, m) == [OwnThread()] + Fillers(m);
    } else {
      CopiesBegin(n - 1, m);
    }
  }

  lemma CloseCopyIsCaught(log: Log, m: nat, r: Rules)
    requires Present(r) && [OwnThread()] + Fillers(m) + [OwnThread()] <= log && Sound(log, r)
    ensures r.threadRead <= m
  {
    var front := [OwnThread()] + Fillers(m);
    assert front == log[..m + 1] && log[0] == OwnThread() && log[m + 1] == OwnThread();
    LikeThreadsAreFarApart(log, 0, m + 1, r);
    FillersCount([OwnThread()], m, 1);
  }

  /** Where the promises end. A log of `n` identical own threads, each followed by `m` thread rows of other
      origin, passes every check if and only if it holds one copy or the rows between fill the read: then any
      number of copies stands, whatever the cap. */
  lemma CopiesPassIff(n: nat, m: nat, r: Rules)
    requires Present(r)
    ensures Sound(Copies(n, m), r) <==> n <= 1 || r.threadRead <= m
  {
    if n <= 1 || r.threadRead <= m {
      SpacedCopiesAreSound(n, m, r);
    } else if Sound(Copies(n, m), r) {
      CopiesBegin(n, m);
      CloseCopyIsCaught(Copies(n, m), m, r);
    }
  }

  lemma OneMoreCopy(before: Log, m: nat)
    ensures CountFrom(before + [OwnThread()] + Fillers(m), 0, IsSelfThread) == CountFrom(before, 0, IsSelfThread) + 1
  {
    CountFromAppend(before, OwnThread(), 0, IsSelfThread);
    FillersCount(before + [OwnThread()], m, 0);
  }

  lemma {:induction false} CopiesAreOwn(n: nat, m: nat)
    ensures CountFrom(Copies(n, m), 0, IsSelfThread) == n
  {
    if n == 0 {
      NoneAfter([], 0, IsSelfThread);
    } else {
      CopiesAreOwn(n - 1, m);
      CopiesStep(n - 1, m);
      OneMoreCopy(Copies(n - 1, m), m);
    }
  }
}
