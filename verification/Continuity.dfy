/** Continuity across absence (continuity.py): what a returning user's message finds changed. */
module Continuity {
  import opened EventLog
  import opened Genesis
  import opened Questions

  /** Read limits of the layer, and its thresholds in seconds. */
  datatype Rails = Rails(threshold: real, dormantS: real, userRead: nat, questionRead: nat, windowRead: nat,
                         maxCandidates: nat)

  // ------------------------------------------------- the absence's left edge

  function UsersBefore(log: Log, m: nat): seq<nat>
    requires m <= |log|
  {
    Positions(log[..m], IsUser)
  }

  /** The last message before `m` among the oldest `cap` messages of the log. */
  function PrevUser(log: Log, m: nat, cap: nat): (r: Option<nat>)
    requires m <= |log|
    ensures r.Some? ==> r.value < m && IsUser(log[r.value])
  {
    var us := UsersBefore(log, m);
    if us == [] || cap == 0 then None
    else
      var k := us[if cap <= |us| then cap - 1 else |us| - 1];
      assert log[..m][k] == log[k];
      Some(k)
  }

  /** Rows before `m` come first in a read of the whole log. */
  lemma {:induction false} PositionsCut(log: Log, m: nat, p: Event -> bool)
    requires m <= |log|
    ensures Positions(log[..m], p) <= Positions(log, p)
    ensures forall i | |Positions(log[..m], p)| <= i < |Positions(log, p)| :: m <= Positions(log, p)[i]
    decreases |log|
  {
    if m == |log| {
      assert log[..m] == log;
    } else {
      var front := log[..|log| - 1];
      assert front[..m] == log[..m] && log == front + [log[|log| - 1]];
      PositionsCut(front, m, p);
      PositionsAppend(front, log[|log| - 1], p);
    }
  }

  /** Row `i` of the read: one of the messages before `m`, or the first at or after it. */
  lemma RowOfRead(log: Log, m: nat, cap: nat, i: nat)
    requires m <= |log| && i < |Oldest(log, IsUser, cap)|
    ensures var row, us := Oldest(log, IsUser, cap)[i], UsersBefore(log, m);
            if i < |us| then row == us[i] && row < m else m <= row
  {
    PositionsCut(log, m, IsUser);
    assert Oldest(log, IsUser, cap)[i] == Positions(log, IsUser)[i];
  }

  lemma ReadHoldsFirst(log: Log, m: nat, cap: nat)
    requires m <= |log|
    ensures var n, k := |Oldest(log, IsUser, cap)|, |UsersBefore(log, m)|;
            n <= cap && (if k <= cap then k <= n else n == cap)
  {
    PositionsCut(log, m, IsUser);
  }

  /** The loop of the source: it stops at the first row that is not before `m`. */
  method PreviousUserEvent(log: Log, m: nat, cap: nat) returns (prev: Option<nat>)
    requires m <= |log|
    ensures prev == PrevUser(log, m, cap)
  {
    var rows := Oldest(log, IsUser, cap);
    ghost var us := UsersBefore(log, m);
    ReadHoldsFirst(log, m, cap);
    prev := None;
    for i := 0 to |rows|
      invariant i <= |us| && prev == if i == 0 then None else Some(us[i - 1])
    {
      RowOfRead(log, m, cap, i);
      if rows[i] >= m {
        break;
      }
      prev := Some(rows[i]);
    }
  }

  /** The read is the true previous message exactly while the log holds no more than `cap` of them. */
  lemma ReadIsExactIff(log: Log, m: nat, cap: nat)
    requires m <= |log|
    ensures PrevUser(log, m, cap) == Last(log[..m], IsUser) <==> |UsersBefore(log, m)| <= cap
  {
    var us, last := UsersBefore(log, m), Last(log[..m], IsUser);
    if us != [] {
      assert log[..m][us[|us| - 1]] == log[us[|us| - 1]];
      assert last.Some? && us[|us| - 1] <= last.value;
      assert last.value in us;
    }
  }

  // ------------------------------------------------------ reported as dormant

  /** The absence is long enough, and the silence of a question ran out inside it. */
  predicate DiedBetween(prevAt: real, nowAt: real, touch: real, r: Rails) {
    && nowAt - prevAt >= r.threshold
    && !(prevAt - touch > r.dormantS)
    && nowAt - touch > r.dormantS
  }

  predicate Listed(log: Log, q: nat, cap: nat) {
    q < |log| && q in Oldest(log, IsQuestion, cap)
  }

  /** What the layer reports when message `m` arrives: nothing after it is in the log yet. */
  predicate Reports(log: Log, m: nat, q: nat, r: Rails)
    requires m < |log|
  {
    var seen, prev := log[..m + 1], PrevUser(log[..m + 1], m, r.userRead);
    && prev.Some? && Listed(seen, q, r.questionRead)
    && DiedBetween(seen[prev.value].at, seen[m].at, LastTouch(seen, q, r.questionRead), r)
  }

  lemma ListedInLonger(log: Log, log': Log, q: nat, cap: nat)
    requires log <= log' && Listed(log, q, cap)
    ensures Listed(log', q, cap)
  {
    assert log'[..|log|] == log;
    PositionsCut(log', |log|, IsQuestion);
    OldestIsHead(log, IsQuestion, cap);
    OldestIsHead(log', IsQuestion, cap);
    HeadKeeps(Positions(log, IsQuestion), Positions(log', IsQuestion), cap, q);
  }

  /** The history of message `m`: times in order, revisits by a disciplined writer. */
  ghost predicate History(log: Log, m: nat, writerS: real, r: Rails) {
    m < |log| && TimeOrdered(log) && Disciplined(log, writerS, r.questionRead) && writerS <= r.dormantS
  }

  /** A last touch found too old at `m` is the final one. */
  lemma FinalIfRunOut(log: Log, m: nat, q: nat, writerS: real, r: Rails)
    requires History(log, m, writerS, r) && q <= m
    ensures var seen, final := LastTouch(log[..m + 1], q, r.questionRead), LastTouch(log, q, r.questionRead);
            seen <= final && (log[m].at - seen > r.dormantS ==> seen == final)
  {
    LastTouchGrows(log, m + 1, q, r.questionRead);
    if log[m].at - LastTouch(log[..m + 1], q, r.questionRead) > r.dormantS {
      DeathIsPermanent(log, m + 1, q, log[m].at, writerS, r.questionRead);
    }
  }

  lemma RowStep(log: Log, n: nat, p: Event -> bool)
    requires n < |log|
    ensures Positions(log[..n + 1], p) == if p(log[n]) then Positions(log[..n], p) + [n] else Positions(log[..n], p)
  {
    assert log[..n + 1] == log[..n] + [log[n]];
    PositionsAppend(log[..n], log[n], p);
  }

  lemma RowsPrefix(log: Log, n: nat, m: nat, p: Event -> bool)
    requires n <= m <= |log|
    ensures Positions(log[..n], p) <= Positions(log[..m], p)
  {
    assert log[..m][..n] == log[..n];
    PositionsCut(log[..m], n, p);
  }

  lemma LaterUsers(log: Log, m1: nat, m2: nat)
    requires m1 < m2 <= |log| && IsUser(log[m1])
    ensures UsersBefore(log, m1) + [m1] <= UsersBefore(log, m2)
  {
    RowStep(log, m1, IsUser);
    RowsPrefix(log, m1 + 1, m2, IsUser);
  }

  /** The left edge at a later message: it has moved to `m1` or beyond, or the read is stale. */
  lemma LeftEdgeMoves(log: Log, m1: nat, m2: nat, cap: nat)
    requires m1 < m2 < |log| && IsUser(log[m1]) && cap > 0
    ensures |UsersBefore(log, m1)| >= cap ==> PrevUser(log, m2, cap) == PrevUser(log, m1, cap)
    ensures |UsersBefore(log, m1)| < cap ==> PrevUser(log, m2, cap).Some? && m1 <= PrevUser(log, m2, cap).value
  {
    LaterUsers(log, m1, m2);
    var u1, u2 := UsersBefore(log, m1), UsersBefore(log, m2);
    assert u2[|u1|] == m1;
    assert forall i | 0 <= i < |u1| :: u2[i] == u1[i];
  }

  lemma PrevIsLocal(log: Log, m: nat, cap: nat)
    requires m < |log|
    ensures PrevUser(log[..m + 1], m, cap) == PrevUser(log, m, cap)
  {
    assert log[..m + 1][..m] == log[..m];
  }

  lemma ReportsMeans(log: Log, m: nat, q: nat, r: Rails) returns (p: nat)
    requires m < |log| && PrevUser(log, m, r.userRead).Some? && Listed(log[..m + 1], q, r.questionRead)
    ensures PrevUser(log, m, r.userRead) == Some(p) && p < m
    ensures Reports(log, m, q, r)
            <==> DiedBetween(log[p].at, log[m].at, LastTouch(log[..m + 1], q, r.questionRead), r)
  {
    PrevIsLocal(log, m, r.userRead);
    p := PrevUser(log, m, r.userRead).value;
  }

  lemma HistoryPrefix(log: Log, m: nat, n: nat, writerS: real, r: Rails)
    requires History(log, m, writerS, r) && m < n <= |log|
    ensures History(log[..n], m, writerS, r)
  {
    DisciplinedPrefix(log, n, writerS, r.questionRead);
  }

  /** Between two returns a silence that had run out at the first has gone on. */
  lemma SameTouch(log: Log, m1: nat, m2: nat, q: nat, writerS: real, r: Rails)
    requires History(log, m1, writerS, r) && m1 < m2 < |log| && q <= m1
    ensures var touch := LastTouch(log[..m1 + 1], q, r.questionRead);
            log[m1].at - touch > r.dormantS ==> LastTouch(log[..m2 + 1], q, r.questionRead) == touch
  {
    assert log[..m2 + 1][..m1 + 1] == log[..m1 + 1];
    HistoryPrefix(log, m1, m2 + 1, writerS, r);
    FinalIfRunOut(log[..m2 + 1], m1, q, writerS, r);
  }

  lemma LeftEdgeTimes(log: Log, m1: nat, m2: nat, p1: nat, p2: nat, cap: nat)
    requires m1 < m2 < |log| && IsUser(log[m1]) && TimeOrdered(log)
    requires PrevUser(log, m1, cap) == Some(p1) && PrevUser(log, m2, cap) == Some(p2)
    ensures log[m1].at <= log[m2].at
    ensures |UsersBefore(log, m1)| >= cap ==> p1 == p2
    ensures |UsersBefore(log, m1)| < cap ==> log[m1].at <= log[p2].at
  {
    LeftEdgeMoves(log, m1, m2, cap);
  }

  lemma ReportsTells(log: Log, m: nat, q: nat, r: Rails) returns (p: nat)
    requires m < |log| && Reports(log, m, q, r)
    ensures PrevUser(log, m, r.userRead) == Some(p) && p < m && Listed(log[..m + 1], q, r.questionRead)
    ensures DiedBetween(log[p].at, log[m].at, LastTouch(log[..m + 1], q, r.questionRead), r)
  {
    PrevIsLocal(log, m, r.userRead);
    p := ReportsMeans(log, m, q, r);
  }

  /** Two absences and one instant of death: the second contains it too only if it begins no later. */
  lemma SameDeath(prev1: real, now1: real, prev2: real, now2: real, touch: real, full: bool, r: Rails)
    requires DiedBetween(prev1, now1, touch, r) && now1 <= now2
    requires if full then prev2 == prev1 else now1 <= prev2
    ensures DiedBetween(prev2, now2, touch, r) <==> full
  {
  }

  lemma StillListed(log: Log, m1: nat, m2: nat, q: nat, r: Rails)
    requires m1 < m2 < |log| && Listed(log[..m1 + 1], q, r.questionRead)
    ensures Listed(log[..m2 + 1], q, r.questionRead)
  {
    ListedInLonger(log[..m1 + 1], log[..m2 + 1], q, r.questionRead);
  }

  /** A question already reported is reported again at a later return exactly when the read of earlier
      messages was already full at the first report. Within the read it is reported once. */
  lemma ReportedAgainIffReadIsFull(log: Log, m1: nat, m2: nat, q: nat, writerS: real, r: Rails)
    requires History(log, m1, writerS, r) && m1 < m2 < |log| && IsUser(log[m1])
    requires Reports(log, m1, q, r)
    ensures Reports(log, m2, q, r) <==> |UsersBefore(log, m1)| >= r.userRead
  {
    var p1 := ReportsTells(log, m1, q, r);
    StillListed(log, m1, m2, q, r);
    LeftEdgeMoves(log, m1, m2, r.userRead);
    var p2 := ReportsMeans(log, m2, q, r);
    LeftEdgeTimes(log, m1, m2, p1, p2, r.userRead);
    var touch := LastTouch(log[..m1 + 1], q, r.questionRead);
    SameTouch(log, m1, m2, q, writerS, r);
    SameDeath(log[p1].at, log[m1].at, log[p2].at, log[m2].at, touch, |UsersBefore(log, m1)| >= r.userRead, r);
  }

  /** A dead question is reported by exactly one message: the one whose absence contains the instant at
      which the final last touch ran out, provided that absence is long enough. */
  lemma ReportIsTheDeathWindow(log: Log, m: nat, p: nat, q: nat, writerS: real, r: Rails)
    requires History(log, m, writerS, r)
    requires PrevUser(log, m, r.userRead) == Some(p) && Listed(log[..m + 1], q, r.questionRead)
    ensures var dies := LastTouch(log, q, r.questionRead) + r.dormantS;
            Reports(log, m, q, r) <==> log[m].at - log[p].at >= r.threshold && log[p].at <= dies < log[m].at
  {
    var _ := ReportsMeans(log, m, q, r);
    FinalIfRunOut(log, m, q, writerS, r);
  }

  // --------------------------------- a writer more patient than the reader

  function MidPoint(writerS: real, r: Rails): real {
    r.threshold + (r.dormantS + writerS) / 2.0
  }

  /** A question asked at the threshold, reported, touched again at once, and left to die again. */
  function DiesTwice(writerS: real, r: Rails): Log {
    var user, t1 := Draft(false, UserMessage), MidPoint(writerS, r);
    [user, Draft(false, QuestionCreated("", [])).(at := r.threshold), user.(at := t1),
     Draft(false, Observation("", "")).(at := t1), Revisiting(1, 3).(at := t1),
     user.(at := t1 + r.dormantS + r.threshold + 1.0)]
  }

  /** A read passes over the events that do not match. */
  lemma {:induction false} RowsSkip(log: Log, n: nat, m: nat, p: Event -> bool)
    requires n <= m <= |log| && forall k | n <= k < m :: !p(log[k])
    ensures Positions(log[..m], p) == Positions(log[..n], p)
    decreases m
  {
    if n < m {
      RowsSkip(log, n, m - 1, p);
      RowStep(log, m - 1, p);
    }
  }

  /** Messages at 0 and 2, and no other before 5. */
  lemma UsersUpToFive(log: Log)
    requires |log| == 6 && forall k | 0 <= k < 5 :: IsUser(log[k]) <==> k == 0 || k == 2
    ensures UsersBefore(log, 2) == [0] && UsersBefore(log, 5) == [0, 2]
  {
    assert log[..0] == [];
    assert UsersBefore(log, 2) == [0] by {
      RowStep(log, 0, IsUser);
      RowsSkip(log, 1, 2, IsUser);
    }
    assert UsersBefore(log, 3) == [0, 2] by {
      RowStep(log, 2, IsUser);
    }
    RowsSkip(log, 3, 5, IsUser);
  }

  lemma DiesTwiceUsers(writerS: real, r: Rails)
    ensures UsersBefore(DiesTwice(writerS, r), 2) == [0] && UsersBefore(DiesTwice(writerS, r), 5) == [0, 2]
  {
    UsersUpToFive(DiesTwice(writerS, r));
  }

  lemma DiesTwiceListed(writerS: real, r: Rails)
    requires r.questionRead >= 1
    ensures var log := DiesTwice(writerS, r);
            Listed(log[..3], 1, r.questionRead) && Listed(log[..6], 1, r.questionRead)
  {
    var log := DiesTwice(writerS, r);
    assert log[..0] == [];
    RowsSkip(log, 0, 1, IsQuestion);
    RowStep(log, 1, IsQuestion);
    RowsSkip(log, 2, 3, IsQuestion);
    assert Oldest(log[..3], IsQuestion, r.questionRead)[0] == 1;
    assert log[..6][..3] == log[..3];
    ListedInLonger(log[..3], log[..6], 1, r.questionRead);
  }

  lemma Untouched(log: Log, n: nat, q: nat, cap: nat)
    requires q < n <= |log| && cap > 0 && forall k | 0 <= k < n :: !IsRevisit(log[k])
    ensures LastTouch(log[..n], q, cap) == log[q].at && Read(log[..n], cap)
  {
    assert log[..0] == [];
    RowsSkip(log, 0, n, IsRevisit);
  }

  lemma DiesTwiceTouches(writerS: real, r: Rails)
    requires r.questionRead >= 1 && writerS > r.dormantS >= 0.0
    ensures var log := DiesTwice(writerS, r);
            && LastTouch(log[..3], 1, r.questionRead) == LastTouch(log[..4], 1, r.questionRead) == r.threshold
            && LastTouch(log[..6], 1, r.questionRead) == MidPoint(writerS, r)
  {
    var log, cap := DiesTwice(writerS, r), r.questionRead;
    Untouched(log, 3, 1, cap);
    Untouched(log, 4, 1, cap);
    assert log[..5] == log[..4] + [log[4]] && log[..6] == log[..5] + [log[5]];
    LastTouchAppend(log[..4], log[4], 1, cap);
    LastTouchAppend(log[..5], log[5], 1, cap);
  }

  lemma OneTimelyTouch(log: Log, k: nat, q: nat, writerS: real, cap: nat)
    requires q < k < |log| && log[k].body == QuestionRevisited(Evt(q))
    requires forall j | 0 <= j < |log| && j != k :: !IsRevisit(log[j])
    requires log[k].at - LastTouch(log[..k], q, cap) <= writerS
    ensures Disciplined(log, writerS, cap)
  {
    assert Timely(log, k, q, writerS, cap);
    forall j: nat, x: nat | RevisitOf(log, j, x) ensures j == k && x == q {
    }
  }

  lemma DiedAcross(log: Log, p: nat, m: nat, q: nat, touch: real, r: Rails)
    requires p < m < |log| && PrevUser(log, m, r.userRead) == Some(p) && Listed(log[..m + 1], q, r.questionRead)
    requires LastTouch(log[..m + 1], q, r.questionRead) == touch && DiedBetween(log[p].at, log[m].at, touch, r)
    ensures Reports(log, m, q, r)
  {
    var _ := ReportsMeans(log, m, q, r);
  }

  lemma {:induction false} StepwiseOrdered(log: Log)
    requires forall i | 0 < i < |log| :: log[i - 1].at <= log[i].at
    ensures TimeOrdered(log)
  {
    if log != [] {
      var last := |log| - 1;
      var front := log[..last];
      assert forall i | 0 <= i < last :: front[i] == log[i];
      StepwiseOrdered(front);
      forall i, j | 0 <= i <= j < |log| ensures log[i].at <= log[j].at {
        if i < j == last {
          assert front[i].at <= front[last - 1].at;
        } else if i < j {
          assert front[i].at <= front[j].at;
        }
      }
    }
  }

  lemma DiesTwiceOrdered(writerS: real, r: Rails)
    requires writerS > r.dormantS >= 0.0 && r.threshold >= 0.0
    ensures TimeOrdered(DiesTwice(writerS, r))
  {
    var log, t1 := DiesTwice(writerS, r), MidPoint(writerS, r);
    assert 0.0 <= r.threshold <= t1;
    StepwiseOrdered(log);
  }

  lemma DiesTwiceDisciplined(log: Log, writerS: real, r: Rails)
    requires writerS > r.dormantS >= 0.0 && log == DiesTwice(writerS, r)
    requires LastTouch(log[..4], 1, r.questionRead) == r.threshold
    ensures Disciplined(log, writerS, r.questionRead)
  {
    OneTimelyTouch(log, 4, 1, writerS, r.questionRead);
  }

  /** The times that matter: messages 0, 2 and 5. */
  lemma DiesTwiceTimes(writerS: real, r: Rails)
    requires writerS > r.dormantS >= 0.0 && r.threshold >= 0.0
    ensures var log, t1 := DiesTwice(writerS, r), MidPoint(writerS, r);
            && DiedBetween(log[0].at, log[2].at, r.threshold, r) && DiedBetween(log[2].at, log[5].at, t1, r)
  {
  }

  lemma LastOfFew(log: Log, m: nat, cap: nat)
    requires m <= |log| && 0 < |UsersBefore(log, m)| <= cap
    ensures PrevUser(log, m, cap) == Some(UsersBefore(log, m)[|UsersBefore(log, m)| - 1])
  {
  }

  /** The report by message 2, across the absence since message 0. */
  lemma FirstReport(log: Log, r: Rails)
    requires |log| == 6 && r.userRead >= 2 && UsersBefore(log, 2) == [0] && Listed(log[..3], 1, r.questionRead)
    requires DiedBetween(log[0].at, log[2].at, LastTouch(log[..3], 1, r.questionRead), r)
    ensures Reports(log, 2, 1, r)
  {
    LastOfFew(log, 2, r.userRead);
    DiedAcross(log, 0, 2, 1, LastTouch(log[..3], 1, r.questionRead), r);
  }

  /** The report by message 5, across the absence since message 2. */
  lemma SecondReport(log: Log, r: Rails)
    requires |log| == 6 && r.userRead >= 2 && UsersBefore(log, 5) == [0, 2] && Listed(log[..6], 1, r.questionRead)
    requires DiedBetween(log[2].at, log[5].at, LastTouch(log[..6], 1, r.questionRead), r)
    ensures Reports(log, 5, 1, r)
  {
    LastOfFew(log, 5, r.userRead);
    DiedAcross(log, 2, 5, 1, LastTouch(log[..6], 1, r.questionRead), r);
  }

  /** Why the writer's patience must not exceed the reader's: otherwise a question reported dead can be
      touched, die again and be reported a second time, with every read exact. */
  lemma LooserWriterIsReportedTwice(writerS: real, r: Rails)
    requires writerS > r.dormantS >= 0.0 && r.threshold >= 0.0 && r.userRead >= 2 && r.questionRead >= 1
    ensures var log := DiesTwice(writerS, r);
            && TimeOrdered(log) && Disciplined(log, writerS, r.questionRead)
            && |UsersBefore(log, 5)| <= r.userRead && Reports(log, 2, 1, r) && Reports(log, 5, 1, r)
  {
    var log := DiesTwice(writerS, r);
    DiesTwiceUsers(writerS, r);
    DiesTwiceListed(writerS, r);
    DiesTwiceTouches(writerS, r);
    DiesTwiceDisciplined(log, writerS, r);
    DiesTwiceTimes(writerS, r);
    FirstReport(log, r);
    SecondReport(log, r);
    DiesTwiceOrdered(writerS, r);
  }

  // ----------------------------------------------------- past a full read

  /** As many messages as the read holds, a question, and two messages after it has died. */
  function Wordy(r: Rails): Log {
    var user, late := Draft(false, UserMessage), r.dormantS + r.threshold + 1.0;
    seq(r.userRead, (k: nat) => user) + [Draft(false, QuestionCreated("", []))] + [user.(at := late)]
      + [user.(at := late)]
  }

  lemma {:induction false} AllRows(log: Log, n: nat, p: Event -> bool)
    requires n <= |log| && forall k | 0 <= k < n :: p(log[k])
    ensures |Positions(log[..n], p)| == n && (n > 0 ==> Positions(log[..n], p)[n - 1] == n - 1)
  {
    if n > 0 {
      AllRows(log, n - 1, p);
      RowStep(log, n - 1, p);
    }
  }

  lemma WordyUsers(log: Log, r: Rails)
    requires log == Wordy(r) && r.userRead > 0
    ensures |UsersBefore(log, r.userRead + 1)| == r.userRead
    ensures PrevUser(log, r.userRead + 1, r.userRead) == Some(r.userRead - 1)
  {
    AllRows(log, r.userRead, IsUser);
    RowStep(log, r.userRead, IsUser);
  }

  lemma WordyListed(log: Log, q: nat, r: Rails)
    requires log == Wordy(r) && q == r.userRead && r.questionRead > 0
    ensures Listed(log[..q + 2], q, r.questionRead)
  {
    assert log[..0] == [];
    RowsSkip(log, 0, q, IsQuestion);
    RowStep(log, q, IsQuestion);
    RowStep(log, q + 1, IsQuestion);
    assert Oldest(log[..q + 2], IsQuestion, r.questionRead)[0] == q;
  }

  lemma WordyHistory(log: Log, m: nat, writerS: real, r: Rails)
    requires log == Wordy(r) && m < |log| && r.dormantS >= 0.0 && r.threshold >= 0.0 && writerS <= r.dormantS
    ensures History(log, m, writerS, r)
  {
    StepwiseOrdered(log);
    NeverTouched(log, writerS, r.questionRead);
  }

  lemma NeverTouched(log: Log, writerS: real, cap: nat)
    requires forall k | 0 <= k < |log| :: !IsRevisit(log[k])
    ensures Disciplined(log, writerS, cap)
  {
    assert forall k: nat, q: nat :: RevisitOf(log, k, q) ==> IsRevisit(log[k]);
  }

  lemma WordyReports(log: Log, q: nat, r: Rails)
    requires log == Wordy(r) && q == r.userRead > 0 && r.questionRead > 0 && r.dormantS >= 0.0 && r.threshold >= 0.0
    ensures Reports(log, q + 1, q, r)
  {
    WordyUsers(log, r);
    WordyListed(log, q, r);
    Untouched(log, q + 2, q, r.questionRead);
    DiedAcross(log, q - 1, q + 1, q, 0.0, r);
  }

  /** The failing side occurs for every read of messages and every disciplined writer: a question dead for good is
      reported by two messages in a row. */
  lemma FullReadReportsTwice(writerS: real, r: Rails)
    requires r.userRead > 0 && r.questionRead > 0 && r.dormantS >= 0.0 && r.threshold >= 0.0 && writerS <= r.dormantS
    ensures var log, q := Wordy(r), r.userRead;
            History(log, q + 1, writerS, r) && Reports(log, q + 1, q, r) && Reports(log, q + 2, q, r)
  {
    var log, q := Wordy(r), r.userRead;
    WordyHistory(log, q + 1, writerS, r);
    WordyReports(log, q, r);
    WordyUsers(log, r);
    ReportedAgainIffReadIsFull(log, q + 1, q + 2, q, writerS, r);
  }
}
