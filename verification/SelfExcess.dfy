/** How far the cap on the mind's own threads reaches (sleep.py, _count_self_threads): the count reads the newest
    thread rows, so two rows more than the read holds can carry one own thread too many. */
module SelfExcess {
  import opened EventLog
  import opened SelfThreads

  /** An untitled own thread from a memory of its own. */
  function Own(i: nat): Event {
    Draft(false, ThreadCreated(true, "", {Evt(i)}))
  }

  function Owns(n: nat): (log: Log)
    ensures |log| == n
  {
    if n == 0 then [] else Owns(n - 1) + [Own(n - 1)]
  }

  /** `c` own threads, `m` threads of other origin, and one more own thread. */
  function Overfull(c: nat, m: nat): Log {
    Owns(c) + Fillers(m) + [Own(c)]
  }

  // ------------------------------------------------------------ they pass

  lemma {:induction false} OwnsAt(n: nat, i: nat)
    requires i < n
    ensures Owns(n)[i] == Own(i)
  {
    if i < n - 1 {
      OwnsAt(n - 1, i);
    }
  }

  lemma BeforeLast(c: nat, m: nat, k: nat)
    requires k < c + m
    ensures (Owns(c) + Fillers(m))[k] == if k < c then Own(k) else Filler()
  {
    if k < c {
      OwnsAt(c, k);
    } else {
      FillersAt(m, k - c);
    }
  }

  lemma NoTwin(c: nat, m: nat, r: Rules)
    requires r.norm("") == ""
    ensures !HasTwin(Owns(c) + Fillers(m), Own(c).body.derived, Own(c).body.title, Own(c).at, r)
  {
    var log := Owns(c) + Fillers(m);
    forall k: nat | k < |log| ensures !NearIdentical(log[k], Own(c).body.derived, Own(c).body.title, Own(c).at, r) {
      BeforeLast(c, m, k);
    }
  }

  lemma {:induction false} OwnReadWithin(log: Log, read: nat)
    ensures OwnRead(log, read) <= read && OwnRead(log, read) <= CountFrom(log, 0, IsSelfThread)
    decreases |log|
  {
    if log != [] {
      var front, e := log[..|log| - 1], log[|log| - 1];
      assert log == front + [e];
      CountFromAppend(front, e, 0, IsSelfThread);
      OwnReadAppend(front, e, read);
      OwnReadWithin(front, if IsThread(e) && read > 0 then read - 1 else read);
    } else {
      NothingToRead(IsThread, read);
    }
  }

  lemma {:induction false} OwnsCount(n: nat)
    ensures CountFrom(Owns(n), 0, IsThread) == CountFrom(Owns(n), 0, IsSelfThread) == n
  {
    if n > 0 {
      OwnsCount(n - 1);
      CountFromAppend(Owns(n - 1), Own(n - 1), 0, IsThread);
      CountFromAppend(Owns(n - 1), Own(n - 1), 0, IsSelfThread);
    }
  }

  /** Threads of other origin push own ones out of the read. */
  lemma {:induction false} PushedOut(log: Log, m: nat, read: nat)
    requires m <= read
    ensures OwnRead(log + Fillers(m), read) == OwnRead(log, read - m)
  {
    if m == 0 {
      assert log + Fillers(0) == log;
    } else {
      PushedOut(log, m - 1, read - 1);
      FillersSnoc(log, m);
      OwnReadAppend(log + Fillers(m - 1), Filler(), read);
    }
  }

  lemma BelowCap(c: nat, m: nat, read: nat)
    requires c > 0 && c + m > read
    ensures OwnRead(Owns(c) + Fillers(m), read) < c
  {
    if m < read {
      PushedOut(Owns(c), m, read);
      OwnReadWithin(Owns(c), read - m);
    } else {
      FillersHide(Owns(c), m, read);
    }
  }

  lemma {:induction false} OwnsAreSound(n: nat, r: Rules)
    requires n <= r.selfMax && r.norm("") == ""
    ensures Sound(Owns(n), r)
  {
    if n > 0 {
      OwnsAreSound(n - 1, r);
      OwnReadWithin(Owns(n - 1), r.threadRead);
      OwnsCount(n - 1);
      NoTwin(n - 1, 0, r);
      assert Owns(n - 1) + Fillers(0) == Owns(n - 1);
      SoundAppend(Owns(n - 1), Own(n - 1), r);
    } else {
      NothingIsSound(r);
    }
  }

  lemma NothingIsSound(r: Rules)
    ensures Sound([], r)
  {
    forall lo: nat, hi: nat | hi <= 0 ensures StretchCapped([][..hi], lo, r) {
      NoneAfter([], lo, IsSelfThread);
    }
  }

  lemma OverfullIsSound(m: nat, r: Rules)
    requires r.norm("") == "" && r.selfMax > 0 && r.selfMax + m > r.threadRead
    ensures Sound(Overfull(r.selfMax, m), r)
  {
    var c := r.selfMax;
    OwnsAreSound(c, r);
    FillersKeepSound(Owns(c), m, r);
    BelowCap(c, m, r.threadRead);
    NoTwin(c, m, r);
    SoundAppend(Owns(c) + Fillers(m), Own(c), r);
  }

  lemma OverfullCount(c: nat, m: nat)
    ensures |Positions(Overfull(c, m), IsThread)| == c + m + 1 && |Positions(Overfull(c, m), IsSelfThread)| == c + 1
  {
    OwnsCount(c);
    FillersCount(Owns(c), m, 0);
    CountFromAppend(Owns(c) + Fillers(m), Own(c), 0, IsThread);
    CountFromAppend(Owns(c) + Fillers(m), Own(c), 0, IsSelfThread);
    CountIsPositions(Overfull(c, m), IsThread);
    CountIsPositions(Overfull(c, m), IsSelfThread);
  }

  // ---------------------------------------------------------- exactly how many

  /** A log as every run leaves it, with `rows` thread rows and more own threads than the cap. */
  ghost predicate Exceeds(log: Log, rows: nat, r: Rules) {
    Sound(log, r) && |Positions(log, IsThread)| == rows && |Positions(log, IsSelfThread)| > r.selfMax
  }

  lemma {:induction false} OwnAreThreads(log: Log)
    ensures CountFrom(log, 0, IsSelfThread) <= CountFrom(log, 0, IsThread)
  {
    if log != [] {
      OwnAreThreads(log[..|log| - 1]);
    }
  }

  /** A cap of zero lets no own thread pass, whatever the read. */
  lemma NoneUnderZero(log: Log, k: nat, r: Rules)
    requires Sound(log, r) && k < |log| && IsSelfThread(log[k])
    ensures r.selfMax > 0
  {
    var upTo := log[..k + 1];
    assert upTo == log[..k] + [log[k]];
    CountFromAppend(log[..k], log[k], k, IsThread);
    CountFromAppend(log[..k], log[k], k, IsSelfThread);
    NoneAfter(log[..k], k, IsThread);
    CapHoldsInEveryStretch(log, k, k + 1, r);
  }

  lemma ExceedsOnlyIf(log: Log, rows: nat, r: Rules)
    requires Exceeds(log, rows, r)
    ensures r.selfMax > 0 && rows > r.threadRead + 1 && rows > r.selfMax
  {
    var own := Positions(log, IsSelfThread);
    NoneUnderZero(log, own[0], r);
    OwnAreThreads(log);
    CountIsPositions(log, IsThread);
    CountIsPositions(log, IsSelfThread);
    if rows <= r.threadRead + 1 {
      CapHoldsWhileReadIsWhole(log, r);
    }
  }

  /** The cap can be exceeded on a log with that many thread rows if and only if they are at least two more than the
      read holds and more than the cap, and the cap allows a thread at all. */
  lemma CapIsExceededIff(rows: nat, r: Rules)
    requires r.norm("") == ""
    ensures (exists log: Log :: Exceeds(log, rows, r))
            <==> r.selfMax > 0 && rows > r.threadRead + 1 && rows > r.selfMax
  {
    if log: Log :| Exceeds(log, rows, r) {
      ExceedsOnlyIf(log, rows, r);
    }
    if r.selfMax > 0 && rows > r.threadRead + 1 && rows > r.selfMax {
      var m := rows - r.selfMax - 1;
      OverfullIsSound(m, r);
      OverfullCount(r.selfMax, m);
      assert Exceeds(Overfull(r.selfMax, m), rows, r);
    }
  }
}
