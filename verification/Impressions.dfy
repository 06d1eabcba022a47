/** Impressions and their promotion (world.py, _find_reactivable_impression): the oldest impression that new
    material re-activates and that has not been promoted. The search reads the oldest impressions and the newest
    promotions only. */
module Impressions {
  import opened EventLog
  import opened Basics
  import opened WorldWindow

  predicate IsImpression(e: Event) {
    e.body.ImpressionFormed?
  }

  predicate IsPromotion(e: Event) {
    e.body.ImpressionPromoted?
  }

  // -------------------------------------------------------------- the search

  /** The impressions that the promotions `rows` name. */
  function Promoted(log: Log, rows: seq<nat>): set<Ref> {
    set i | 0 <= i < |rows| && rows[i] < |log| && log[rows[i]].body.ImpressionPromoted? :: log[rows[i]].body.impression
  }

  /** Stored material of the item's own topic or page, or of one it links to. */
  predicate Connected(e: Event, it: Item, links: seq<Item>) {
    e.body.ImpressionFormed?
    && (e.body.topic == it.topic || e.body.item == it.id
        || exists l | l in links :: e.body.topic == l.topic || e.body.item == l.id)
  }

  predicate Reactivable(log: Log, k: nat, promoted: set<Ref>, now: real, it: Item, links: seq<Item>) {
    k < |log| && Evt(k) !in promoted && log[k].at < now && Connected(log[k], it, links)
  }

  function FirstOf(log: Log, rows: seq<nat>, promoted: set<Ref>, now: real, it: Item,
                   links: seq<Item>): (k: Option<nat>)
    ensures k.Some? ==> k.value in rows && Reactivable(log, k.value, promoted, now, it, links)
    ensures k.None? ==> forall i | 0 <= i < |rows| :: !Reactivable(log, rows[i], promoted, now, it, links)
  {
    if rows == [] then None
    else if Reactivable(log, rows[0], promoted, now, it, links) then Some(rows[0])
    else
      var k := FirstOf(log, rows[1..], promoted, now, it, links);
      assert forall i | 0 < i < |rows| :: rows[i] == rows[1..][i - 1];
      k
  }

  function RecentlyPromoted(log: Log, r: Reads): set<Ref> {
    Promoted(log, Newest(log, IsPromotion, r.promotions))
  }

  /** The impression the search returns. */
  function Prior(log: Log, now: real, it: Item, links: seq<Item>, r: Reads): Option<nat> {
    FirstOf(log, Oldest(log, IsImpression, r.impressions), RecentlyPromoted(log, r), now, it, links)
  }

  method FindReactivable(log: Log, now: real, it: Item, links: seq<Item>, r: Reads) returns (k: Option<nat>)
    ensures k == Prior(log, now, it, links, r)
  {
    k := FirstAmong(log, Oldest(log, IsImpression, r.impressions), RecentlyPromoted(log, r), now, it, links);
  }

  method FirstAmong(log: Log, rows: seq<nat>, promoted: set<Ref>, now: real, it: Item, links: seq<Item>)
    returns (k: Option<nat>)
    ensures k == FirstOf(log, rows, promoted, now, it, links)
  {
    for i := 0 to |rows|
      invariant FirstOf(log, rows[i..], promoted, now, it, links) == FirstOf(log, rows, promoted, now, it, links)
    {
      assert rows[i..][1..] == rows[i + 1..];
      if Reactivable(log, rows[i], promoted, now, it, links) {
        return Some(rows[i]);
      }
    }
    return None;
  }

  /** An impression formed of material on topic `t` and page `i` that the item re-activates: it is about the same topic
      or page, or about one that the item's page links to. */
  predicate Recalls(it: Item, links: seq<Item>, t: string, i: string) {
    t == it.topic || i == it.id || exists n | 0 <= n < |links| :: t == links[n].topic || i == links[n].id
  }

  /** The search finds the oldest impression read that was formed earlier, is named by none of the promotions read, and
      is of such material. */
  lemma PriorIs(log: Log, now: real, it: Item, links: seq<Item>, r: Reads)
    ensures var k := Prior(log, now, it, links, r);
            && (k.Some? ==>
                  && k.value in Oldest(log, IsImpression, r.impressions)
                  && Renewable(log, now, it, links, r, k.value))
            && (forall j | j in Oldest(log, IsImpression, r.impressions) && Renewable(log, now, it, links, r, j) ::
                  k.Some? && k.value <= j)
  {
    var rows, named := Oldest(log, IsImpression, r.impressions), RecentlyPromoted(log, r);
    forall j ensures Reactivable(log, j, named, now, it, links) <==> Renewable(log, now, it, links, r, j) {
      PromotedIs(log, r, j);
    }
    FirstOfIsFirst(log, rows, named, now, it, links);
  }

  /** The impression at `k`, seen from new material. */
  ghost predicate Renewable(log: Log, now: real, it: Item, links: seq<Item>, r: Reads, k: nat) {
    && k < |log| && log[k].at < now && log[k].body.ImpressionFormed?
    && Recalls(it, links, log[k].body.topic, log[k].body.item)
    && !exists j :: j in Newest(log, IsPromotion, r.promotions) && PromotesAt(log, j, k)
  }

  predicate PromotesAt(log: Log, j: nat, k: nat) {
    j < |log| && log[j].body == ImpressionPromoted(Evt(k))
  }

  lemma PromotedIs(log: Log, r: Reads, k: nat)
    ensures Evt(k) in RecentlyPromoted(log, r)
            <==> exists j :: j in Newest(log, IsPromotion, r.promotions) && PromotesAt(log, j, k)
  {
    var rows := Newest(log, IsPromotion, r.promotions);
    if Evt(k) in RecentlyPromoted(log, r) {
      var i :| 0 <= i < |rows| && rows[i] < |log| && log[rows[i]].body == ImpressionPromoted(Evt(k));
      assert rows[i] in rows && PromotesAt(log, rows[i], k);
    }
    if j :| j in rows && PromotesAt(log, j, k) {
      var i :| 0 <= i < |rows| && rows[i] == j;
      assert log[rows[i]].body.ImpressionPromoted?;
    }
  }

  lemma {:induction false} FirstOfIsFirst(log: Log, rows: seq<nat>, promoted: set<Ref>, now: real, it: Item,
                                          links: seq<Item>)
    requires forall i, j | 0 <= i < j < |rows| :: rows[i] < rows[j]
    ensures var k := FirstOf(log, rows, promoted, now, it, links);
            forall j | j in rows && Reactivable(log, j, promoted, now, it, links) :: k.Some? && k.value <= j
  {
    if rows != [] {
      assert rows == [rows[0]] + rows[1..];
      FirstOfIsFirst(log, rows[1..], promoted, now, it, links);
    }
  }

  // ---------------------------------------------------------- promoted once

  /** Promotion `k` names an impression the search could return. */
  ghost predicate WellChosen(log: Log, k: nat, impressions: nat, promotions: nat) {
    k < |log| && IsPromotion(log[k]) ==>
      && log[k].body.impression.Evt? && log[k].body.impression.pos in Oldest(log[..k], IsImpression, impressions)
      && log[k].body.impression !in Promoted(log[..k], Newest(log[..k], IsPromotion, promotions))
  }

  ghost predicate AllWellChosen(log: Log, impressions: nat, promotions: nat) {
    forall k: nat {:trigger WellChosen(log, k, impressions, promotions)} :: WellChosen(log, k, impressions, promotions)
  }

  ghost predicate PromotedOnce(log: Log) {
    forall i, j | 0 <= i < j < |log| && IsPromotion(log[i]) && IsPromotion(log[j]) ::
      log[i].body.impression != log[j].body.impression
  }

  /** The impressions promoted in a log. */
  ghost function Names(log: Log): set<Ref> {
    set k | 0 <= k < |log| && IsPromotion(log[k]) :: log[k].body.impression
  }

  lemma NamesAppend(log: Log, e: Event)
    ensures Names(log + [e]) == if IsPromotion(e) then Names(log) + {e.body.impression} else Names(log)
  {
    var log' := log + [e];
    forall r | r in Names(log) ensures r in Names(log') {
      var k :| 0 <= k < |log| && IsPromotion(log[k]) && log[k].body.impression == r;
      assert log'[k] == log[k];
    }
    if IsPromotion(e) {
      assert log'[|log|] == e;
    }
  }

  lemma NewName(log: Log, e: Event)
    requires PromotedOnce(log + [e]) && IsPromotion(e)
    ensures e.body.impression !in Names(log)
  {
    forall k | 0 <= k < |log| && IsPromotion(log[k]) ensures log[k].body.impression != e.body.impression {
      assert (log + [e])[k] == log[k] && (log + [e])[|log|] == e;
    }
  }

  lemma OncePrefix(log: Log, n: nat)
    requires PromotedOnce(log) && n <= |log|
    ensures PromotedOnce(log[..n])
  {
  }

  lemma NamesCountStep(log: Log, e: Event)
    requires PromotedOnce(log + [e]) && |Names(log)| == CountFrom(log, 0, IsPromotion)
    ensures |Names(log + [e])| == CountFrom(log + [e], 0, IsPromotion)
  {
    NamesAppend(log, e);
    CountFromAppend(log, e, 0, IsPromotion);
    if IsPromotion(e) {
      NewName(log, e);
    }
  }

  /** With one promotion each there are as many promotions as promoted impressions. */
  lemma {:induction false} NamesCount(log: Log)
    requires PromotedOnce(log)
    ensures |Names(log)| == CountFrom(log, 0, IsPromotion)
  {
    if log == [] {
      NoneAfter(log, 0, IsPromotion);
    } else {
      var front := log[..|log| - 1];
      assert log == front + [log[|log| - 1]];
      OncePrefix(log, |log| - 1);
      NamesCount(front);
      NamesCountStep(front, log[|log| - 1]);
    }
  }

  function SetOf(rows: seq<nat>): set<Ref> {
    set i | 0 <= i < |rows| :: Evt(rows[i])
  }

  lemma {:induction false} SetOfSize(rows: seq<nat>)
    ensures |SetOf(rows)| <= |rows|
  {
    if rows != [] {
      var n := |rows| - 1;
      SetOfSize(rows[..n]);
      assert SetOf(rows) == SetOf(rows[..n]) + {Evt(rows[n])};
    }
  }

  lemma OldestGrows(log: Log, e: Event, p: Event -> bool, limit: nat, k: nat)
    requires k in Oldest(log, p, limit)
    ensures k in Oldest(log + [e], p, limit)
  {
    var s := Positions(log, p);
    PositionsAppend(log, e, p);
    OldestIsHead(log, p, limit);
    OldestIsHead(log + [e], p, limit);
    HeadKeeps(s, Positions(log + [e], p), limit, k);
  }

  lemma OldestIsShort(log: Log, p: Event -> bool, limit: nat)
    ensures |Oldest(log, p, limit)| <= limit
  {
  }

  lemma WellChosenPrefix(log: Log, n: nat, impressions: nat, promotions: nat)
    requires AllWellChosen(log, impressions, promotions) && n <= |log|
    ensures AllWellChosen(log[..n], impressions, promotions)
  {
    forall k: nat ensures WellChosen(log[..n], k, impressions, promotions) {
      if k < n {
        assert WellChosen(log, k, impressions, promotions);
        assert log[..n][..k] == log[..k];
      }
    }
  }

  lemma ReadGrows(log: Log, e: Event, limit: nat)
    ensures SetOf(Oldest(log, IsImpression, limit)) <= SetOf(Oldest(log + [e], IsImpression, limit))
  {
    var rows, rows' := Oldest(log, IsImpression, limit), Oldest(log + [e], IsImpression, limit);
    forall r | r in SetOf(rows) ensures r in SetOf(rows') {
      var i :| 0 <= i < |rows| && Evt(rows[i]) == r;
      OldestGrows(log, e, IsImpression, limit, rows[i]);
      var j :| 0 <= j < |rows'| && rows'[j] == rows[i];
    }
  }

  lemma ChosenIsRead(log: Log, q: nat, limit: nat)
    requires q in Oldest(log, IsImpression, limit)
    ensures Evt(q) in SetOf(Oldest(log, IsImpression, limit))
  {
    var i :| 0 <= i < |Oldest(log, IsImpression, limit)| && Oldest(log, IsImpression, limit)[i] == q;
  }

  lemma NamesAreReadStep(log: Log, e: Event, limit: nat)
    requires Names(log) <= SetOf(Oldest(log, IsImpression, limit))
    requires IsPromotion(e) ==> e.body.impression.Evt? && e.body.impression.pos in Oldest(log, IsImpression, limit)
    ensures Names(log + [e]) <= SetOf(Oldest(log + [e], IsImpression, limit))
  {
    NamesAppend(log, e);
    ReadGrows(log, e, limit);
    if IsPromotion(e) {
      ChosenIsRead(log, e.body.impression.pos, limit);
    }
  }

  /** Only impressions inside the read are ever promoted. */
  lemma {:induction false} NamesAreRead(log: Log, impressions: nat, promotions: nat)
    requires AllWellChosen(log, impressions, promotions)
    ensures Names(log) <= SetOf(Oldest(log, IsImpression, impressions))
  {
    if log != [] {
      var n := |log| - 1;
      WellChosenPrefix(log, n, impressions, promotions);
      NamesAreRead(log[..n], impressions, promotions);
      assert WellChosen(log, n, impressions, promotions);
      NamesAreReadStep(log[..n], log[n], impressions);
      assert log == log[..n] + [log[n]];
    }
  }

  /** A read that holds every promotion sees every promoted impression. */
  lemma NamesSeen(log: Log, promotions: nat, r: Ref)
    requires r in Names(log) && CountFrom(log, 0, IsPromotion) <= promotions
    ensures r in Promoted(log, Newest(log, IsPromotion, promotions))
  {
    var k: nat :| k < |log| && IsPromotion(log[k]) && log[k].body.impression == r;
    CountLess(log, k, IsPromotion);
    NewestIff(log, k, IsPromotion, promotions);
    var rows := Newest(log, IsPromotion, promotions);
    var i :| 0 <= i < |rows| && rows[i] == k;
  }

  lemma OnceStep(log: Log, e: Event, impressions: nat, promotions: nat)
    requires AllWellChosen(log, impressions, promotions) && PromotedOnce(log) && impressions <= promotions
    requires IsPromotion(e) ==> e.body.impression !in Promoted(log, Newest(log, IsPromotion, promotions))
    ensures PromotedOnce(log + [e])
  {
    FewPromotions(log, impressions, promotions);
    if IsPromotion(e) && e.body.impression in Names(log) {
      NamesSeen(log, promotions, e.body.impression);
    }
    OnceAppend(log, e);
  }

  /** While the read of promotions is at least as long as the read of impressions, no impression is ever promoted
      twice: only as many impressions as one read holds can be promoted at all, so the other read never fills. */
  lemma {:induction false} PromotedAtMostOnce(log: Log, impressions: nat, promotions: nat)
    requires AllWellChosen(log, impressions, promotions) && impressions <= promotions
    ensures PromotedOnce(log)
  {
    if log != [] {
      var n := |log| - 1;
      WellChosenPrefix(log, n, impressions, promotions);
      PromotedAtMostOnce(log[..n], impressions, promotions);
      assert WellChosen(log, n, impressions, promotions);
      OnceStep(log[..n], log[n], impressions, promotions);
      assert log == log[..n] + [log[n]];
    }
  }

  lemma OnceAppend(log: Log, e: Event)
    requires PromotedOnce(log) && (IsPromotion(e) ==> e.body.impression !in Names(log))
    ensures PromotedOnce(log + [e])
  {
  }

  lemma FewPromotions(log: Log, impressions: nat, promotions: nat)
    requires AllWellChosen(log, impressions, promotions) && PromotedOnce(log)
    ensures CountFrom(log, 0, IsPromotion) <= impressions
  {
    var rows := Oldest(log, IsImpression, impressions);
    NamesCount(log);
    NamesAreRead(log, impressions, promotions);
    SetOfSize(rows);
    OldestIsShort(log, IsImpression, impressions);
    SubsetSize(Names(log), SetOf(rows));
  }

  lemma WellChosenAppend(log: Log, e: Event, impressions: nat, promotions: nat)
    requires AllWellChosen(log, impressions, promotions)
    requires IsPromotion(e) ==>
               && e.body.impression.Evt? && e.body.impression.pos in Oldest(log, IsImpression, impressions)
               && e.body.impression !in Promoted(log, Newest(log, IsPromotion, promotions))
    ensures AllWellChosen(log + [e], impressions, promotions)
  {
    var log' := log + [e];
    forall k: nat ensures WellChosen(log', k, impressions, promotions) {
      if k < |log| {
        assert WellChosen(log, k, impressions, promotions);
        assert log'[..k] == log[..k];
      } else if k == |log| {
        assert log'[..k] == log;
      }
    }
  }

  // ------------------------------------------------------- a shorter memory

  function Formed(): Event {
    Draft(false, ImpressionFormed("t", "i"))
  }

  function Promotes(q: nat): Event {
    Draft(false, ImpressionPromoted(Evt(q)))
  }

  function Fresh(m: nat): (log: Log)
    ensures |log| == m
  {
    if m == 0 then [] else Fresh(m - 1) + [Formed()]
  }

  /** `m` impressions, of which the first `c` have been promoted, in order. */
  function Rounds(m: nat, c: nat): (log: Log)
    ensures |log| == m + c
  {
    if c == 0 then Fresh(m) else Rounds(m, c - 1) + [Promotes(c - 1)]
  }

  lemma {:induction false} FreshAt(m: nat, i: nat)
    requires i < m
    ensures Fresh(m)[i] == Formed()
  {
    if i < m - 1 {
      FreshAt(m - 1, i);
    }
  }

  lemma {:induction false} FreshRows(m: nat)
    ensures |Positions(Fresh(m), IsImpression)| == m && Names(Fresh(m)) == {}
  {
    if m > 0 {
      FreshRows(m - 1);
      FreshRowsStep(Fresh(m - 1), Fresh(m));
    }
  }

  lemma FreshRowsStep(log: Log, log': Log)
    requires log' == log + [Formed()]
    ensures |Positions(log', IsImpression)| == |Positions(log, IsImpression)| + 1 && Names(log') == Names(log)
  {
    PositionsAppend(log, Formed(), IsImpression);
    NamesAppend(log, Formed());
  }

  lemma RoundsRowsStep(log: Log, log': Log, c: nat)
    requires log' == log + [Promotes(c)]
    ensures Positions(log', IsImpression) == Positions(log, IsImpression) && Names(log') == Names(log) + {Evt(c)}
  {
    PositionsAppend(log, Promotes(c), IsImpression);
    NamesAppend(log, Promotes(c));
  }

  lemma {:induction false} RoundsRows(m: nat, c: nat)
    ensures |Positions(Rounds(m, c), IsImpression)| == m
    ensures forall r | r in Names(Rounds(m, c)) :: r.Evt? && r.pos < c
  {
    if c == 0 {
      FreshRows(m);
    } else {
      RoundsRows(m, c - 1);
      RoundsRowsStep(Rounds(m, c - 1), Rounds(m, c), c - 1);
    }
  }

  lemma {:induction false} RoundsBegin(m: nat, c: nat, i: nat)
    requires i < m
    ensures Rounds(m, c)[i] == Formed()
  {
    if c == 0 {
      FreshAt(m, i);
    } else {
      RoundsBegin(m, c - 1, i);
    }
  }

  lemma RoundsRead(m: nat, c: nat, q: nat, impressions: nat)
    requires q < m <= impressions
    ensures q in Oldest(Rounds(m, c), IsImpression, impressions)
  {
    var log := Rounds(m, c);
    RoundsRows(m, c);
    RoundsBegin(m, c, q);
    assert q in Positions(log, IsImpression);
    OldestIsHead(log, IsImpression, impressions);
  }

  lemma PromotedIsNamed(log: Log, rows: seq<nat>)
    ensures Promoted(log, rows) <= Names(log)
  {
    forall r | r in Promoted(log, rows) ensures r in Names(log) {
      var i :| 0 <= i < |rows| && rows[i] < |log| && log[rows[i]].body.ImpressionPromoted?
        && log[rows[i]].body.impression == r;
      assert IsPromotion(log[rows[i]]);
    }
  }

  lemma {:induction false} FreshIsWellChosen(m: nat, impressions: nat, promotions: nat)
    ensures AllWellChosen(Fresh(m), impressions, promotions)
  {
    if m > 0 {
      FreshIsWellChosen(m - 1, impressions, promotions);
      WellChosenAppend(Fresh(m - 1), Formed(), impressions, promotions);
    }
  }

  lemma NewNameIsWellChosen(log: Log, q: nat, impressions: nat, promotions: nat)
    requires AllWellChosen(log, impressions, promotions)
    requires q in Oldest(log, IsImpression, impressions) && Evt(q) !in Names(log)
    ensures AllWellChosen(log + [Promotes(q)], impressions, promotions)
  {
    PromotedIsNamed(log, Newest(log, IsPromotion, promotions));
    WellChosenAppend(log, Promotes(q), impressions, promotions);
  }

  lemma OneMoreRound(m: nat, c: nat, impressions: nat, promotions: nat)
    requires c < m <= impressions && AllWellChosen(Rounds(m, c), impressions, promotions)
    ensures AllWellChosen(Rounds(m, c) + [Promotes(c)], impressions, promotions)
  {
    RoundsRead(m, c, c, impressions);
    RoundsRows(m, c);
    NewNameIsWellChosen(Rounds(m, c), c, impressions, promotions);
  }

  lemma {:induction false} RoundsAreWellChosen(m: nat, c: nat, impressions: nat, promotions: nat)
    requires c <= m <= impressions
    ensures AllWellChosen(Rounds(m, c), impressions, promotions)
  {
    if c == 0 {
      FreshIsWellChosen(m, impressions, promotions);
    } else {
      RoundsAreWellChosen(m, c - 1, impressions, promotions);
      OneMoreRound(m, c - 1, impressions, promotions);
    }
  }

  lemma {:induction false} RoundsAfter(m: nat, c: nat, d: nat)
    requires d < c
    ensures Rounds(m, c)[m + d] == Promotes(d)
    ensures CountFrom(Rounds(m, c), m + d + 1, IsPromotion) == c - 1 - d
  {
    var before := Rounds(m, c - 1);
    CountFromAppend(before, Promotes(c - 1), m + d + 1, IsPromotion);
    if d == c - 1 {
      NoneAfter(before, m + d + 1, IsPromotion);
    } else {
      RoundsAfter(m, c - 1, d);
    }
  }

  /** After a full round the read of promotions has lost the first one. */
  lemma FirstIsForgotten(m: nat)
    requires m > 0
    ensures Evt(0) !in Promoted(Rounds(m, m), Newest(Rounds(m, m), IsPromotion, m - 1))
  {
    var log := Rounds(m, m);
    var rows := Newest(log, IsPromotion, m - 1);
    forall i | 0 <= i < |rows| && rows[i] < |log| && log[rows[i]].body.ImpressionPromoted?
      ensures log[rows[i]].body.impression != Evt(0)
    {
      assert rows[i] in rows;
      NewestIff(log, rows[i], IsPromotion, m - 1);
      if rows[i] < m {
        RoundsBegin(m, m, rows[i]);
        assert false;
      }
      RoundsAfter(m, m, rows[i] - m);
    }
  }

  lemma SecondPromotion(m: nat)
    requires m > 0
    ensures !PromotedOnce(Rounds(m, m) + [Promotes(0)])
  {
    RoundsAfter(m, m, 0);
    var log := Rounds(m, m) + [Promotes(0)];
    assert log[m] == Promotes(0) && log[m + m] == Promotes(0);
  }

  lemma ForgetfulLog(impressions: nat, promotions: nat) returns (log: Log)
    requires promotions < impressions
    ensures AllWellChosen(log, impressions, promotions) && !PromotedOnce(log)
  {
    var m := promotions + 1;
    var before := Rounds(m, m);
    log := before + [Promotes(0)];
    RoundsAreWellChosen(m, m, impressions, promotions);
    RoundsRead(m, m, 0, impressions);
    FirstIsForgotten(m);
    WellChosenAppend(before, Promotes(0), impressions, promotions);
    SecondPromotion(m);
  }

  /** And exactly then: a shorter read of promotions lets a first impression be promoted again. */
  lemma PromotedOnceIff(impressions: nat, promotions: nat)
    ensures (forall log: Log | AllWellChosen(log, impressions, promotions) :: PromotedOnce(log))
            <==> impressions <= promotions
  {
    if impressions <= promotions {
      forall log: Log | AllWellChosen(log, impressions, promotions) ensures PromotedOnce(log) {
        PromotedAtMostOnce(log, impressions, promotions);
      }
    } else {
      var log := ForgetfulLog(impressions, promotions);
    }
  }
}
