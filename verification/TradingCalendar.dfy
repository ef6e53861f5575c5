// The trading calendar: which days trade, why its searches end, and what they
// find.
module TradingCalendar {
  import opened Common
  import opened Dates

  const TW_FIXED: set<(int, int)> := {(1, 1), (2, 28), (5, 1), (10, 10)}
  const US_FIXED: set<(int, int)> := {(1, 1), (7, 4), (12, 25)}

  predicate FixedHoliday(d: Date, m: Market) {
    (d.month, d.day) in if m.TW? then TW_FIXED else US_FIXED
  }

  predicate Trading(custom: set<Date>, d: Date, m: Market) {
    Weekday(d) < 5 && d !in custom && !FixedHoliday(d, m)
  }

  /** Saturday and Sunday, counted from a Saturday on the calendar. */
  predicate Weekend(d: Date) {
    (Ordinal(d) - Ordinal(SATURDAY)) % 7 in {0, 1}
  }

  lemma WeekendRemainder(x: int)
    ensures (x + 5) % 7 < 5 <==> x % 7 !in {0, 1}
  {
    var q, r := x / 7, x % 7;
    assert x == 7 * q + r;
    if r < 2 {
      QuotientUnique(x + 5, 7, q, r + 5);
    } else {
      QuotientUnique(x + 5, 7, q + 1, r - 2);
    }
  }

  lemma WeekendMeans(d: Date)
    ensures Weekday(d) < 5 <==> !Weekend(d)
  {
    WeekdayMeans(d);
    WeekendRemainder(Ordinal(d) - Ordinal(SATURDAY));
  }

  /** Four fixed days a year in Taiwan, three in the US. */
  predicate FixedDay(d: Date, m: Market) {
    if m.TW? then
      || (d.month == 1 && d.day == 1) || (d.month == 2 && d.day == 28)
      || (d.month == 5 && d.day == 1) || (d.month == 10 && d.day == 10)
    else
      || (d.month == 1 && d.day == 1) || (d.month == 7 && d.day == 4) || (d.month == 12 && d.day == 25)
  }

  lemma FixedMeans(d: Date, m: Market)
    ensures FixedHoliday(d, m) <==> FixedDay(d, m)
  {
  }

  /** The days without trading are the weekends, the loaded holidays and the fixed ones. */
  lemma ClosedDays(custom: set<Date>, d: Date, m: Market)
    ensures !Trading(custom, d, m) <==> Weekend(d) || d in custom || FixedDay(d, m)
  {
    WeekendMeans(d);
    FixedMeans(d, m);
  }

  /** No two consecutive dates are both fixed holidays. */
  lemma FixedHolidaysApart(d: Date, m: Market)
    ensures !(FixedHoliday(d, m) && FixedHoliday(Succ(d), m))
  {
  }

  lemma {:induction false} Bounded(custom: set<Date>) returns (lo: int, hi: int)
    ensures forall c <- custom :: lo <= Ordinal(c) <= hi
    decreases |custom|
  {
    if custom == {} {
      lo, hi := 0, 0;
    } else {
      var c :| c in custom;
      lo, hi := Bounded(custom - {c});
      lo := if Ordinal(c) < lo then Ordinal(c) else lo;
      hi := if Ordinal(c) > hi then Ordinal(c) else hi;
    }
  }

  /** Of two consecutive weekdays clear of custom holidays one trades. */
  lemma OneOfTwoTrades(custom: set<Date>, d: Date, m: Market) returns (t: Date)
    requires Weekday(d) < 5 && Weekday(Succ(d)) < 5 && d !in custom && Succ(d) !in custom
    ensures Trading(custom, t, m) && (t == d || t == Succ(d))
  {
    FixedHolidaysApart(d, m);
    t := if FixedHoliday(d, m) then Succ(d) else d;
  }

  /** From any day, a Tuesday is less than a week away; so are it and the Wednesday weekdays. */
  lemma TuesdayAfter(d: Date, w: int) returns (k: nat)
    requires w == Weekday(d)
    ensures Weekday(Later(d, k)) == 1 && Weekday(Succ(Later(d, k))) == 2
  {
    k := if w <= 1 then 1 - w else 8 - w;
    assert (w + k) % 7 == 1;
    WeekdayLater(d, k);
    WeekdaySucc(Later(d, k));
  }

  lemma TuesdayBefore(d: Date, w: int) returns (k: nat)
    requires w == Weekday(d)
    ensures Weekday(Earlier(d, k)) == 1 && Weekday(Succ(Earlier(d, k))) == 2
  {
    k := if w >= 1 then w - 1 else 6;
    assert (w - k) % 7 == 1;
    WeekdayEarlier(d, k);
    WeekdaySucc(Earlier(d, k));
  }

  /** After every day, whatever finite set of holidays is loaded, a day trades. */
  lemma TradingDayAfter(custom: set<Date>, d: Date, m: Market) returns (t: Date)
    ensures Trading(custom, t, m) && Ordinal(t) > Ordinal(d)
  {
    var lo, hi := Bounded(custom);
    var n := if hi > Ordinal(d) then hi - Ordinal(d) + 1 else 1;
    var e := Later(d, n);
    LaterOrdinal(d, n);
    var k := TuesdayAfter(e, Weekday(e));
    LaterOrdinal(e, k);
    SuccOrdinal(Later(e, k));
    assert Later(e, k) !in custom && Succ(Later(e, k)) !in custom;
    t := OneOfTwoTrades(custom, Later(e, k), m);
  }

  lemma TradingDayBefore(custom: set<Date>, d: Date, m: Market) returns (t: Date)
    ensures Trading(custom, t, m) && Ordinal(t) < Ordinal(d)
  {
    var lo, hi := Bounded(custom);
    var n := if lo < Ordinal(d) then Ordinal(d) - lo + 2 else 2;
    var e := Earlier(d, n);
    EarlierOrdinal(d, n);
    var k := TuesdayBefore(e, Weekday(e));
    EarlierOrdinal(e, k);
    SuccOrdinal(Earlier(e, k));
    assert Earlier(e, k) !in custom && Succ(Earlier(e, k)) !in custom;
    t := OneOfTwoTrades(custom, Earlier(e, k), m);
  }

  // ---------------------------------------------------------------- next and previous

  /** `r` is the least trading day after `d`. */
  ghost predicate IsNext(custom: set<Date>, m: Market, d: Date, r: Date) {
    && Before(d, r) && Trading(custom, r, m)
    && forall e: Date :: Before(d, e) && Before(e, r) ==> !Trading(custom, e, m)
  }

  /** `r` is the greatest trading day before `d`. */
  ghost predicate IsPrev(custom: set<Date>, m: Market, d: Date, r: Date) {
    && Before(r, d) && Trading(custom, r, m)
    && forall e: Date :: Before(r, e) && Before(e, d) ==> !Trading(custom, e, m)
  }

  /** `prev` undoes `next` exactly on trading days. */
  lemma PrevUndoesNext(custom: set<Date>, m: Market, d: Date, r: Date, p: Date)
    requires IsNext(custom, m, d, r) && IsPrev(custom, m, r, p)
    ensures p == d <==> Trading(custom, d, m)
  {
    BeforeIffOrdinal(p, d);
    BeforeIffOrdinal(d, p);
  }

  /** `next` undoes `prev` exactly on trading days. */
  lemma NextUndoesPrev(custom: set<Date>, m: Market, d: Date, p: Date, r: Date)
    requires IsPrev(custom, m, d, p) && IsNext(custom, m, p, r)
    ensures r == d <==> Trading(custom, d, m)
  {
    BeforeIffOrdinal(r, d);
    BeforeIffOrdinal(d, r);
  }

  // ---------------------------------------------------------------- ranges

  function TradingDays(custom: set<Date>, m: Market, start: Date, end: Date): seq<Date>
    decreases Ordinal(end) - Ordinal(start) + 1
  {
    SuccOrdinal(start);
    BeforeIffOrdinal(end, start);
    if Before(end, start) then []
    else (if Trading(custom, start, m) then [start] else []) + TradingDays(custom, m, Succ(start), end)
  }

  lemma RangeStep(custom: set<Date>, m: Market, start: Date, end: Date)
    requires !Before(end, start)
    ensures TradingDays(custom, m, start, end)
         == (if Trading(custom, start, m) then [start] else []) + TradingDays(custom, m, Succ(start), end)
    ensures Ordinal(start) < Ordinal(Succ(start)) <= Ordinal(end) + 1
  {
    SuccOrdinal(start);
    BeforeIffOrdinal(end, start);
  }

  lemma {:induction false} TradingDaysExact(custom: set<Date>, m: Market, start: Date, end: Date)
    ensures var days := TradingDays(custom, m, start, end);
      && (forall d: Date :: d in days <==> !Before(d, start) && !Before(end, d) && Trading(custom, d, m))
      && (forall i, j :: 0 <= i < j < |days| ==> Before(days[i], days[j]))
    decreases Ordinal(end) - Ordinal(start) + 1
  {
    SuccOrdinal(start);
    BeforeIffOrdinal(end, start);
    var days := TradingDays(custom, m, start, end);
    if !Before(end, start) {
      var rest := TradingDays(custom, m, Succ(start), end);
      TradingDaysExact(custom, m, Succ(start), end);
      forall d: Date
        ensures d in days <==> !Before(d, start) && !Before(end, d) && Trading(custom, d, m)
      {
        BeforeIffOrdinal(d, start);
        BeforeIffOrdinal(start, d);
        BeforeIffOrdinal(d, Succ(start));
      }
      forall d | d in rest
        ensures Before(start, d)
      {
        BeforeIffOrdinal(d, Succ(start));
        BeforeIffOrdinal(start, d);
      }
    } else {
      forall d: Date
        ensures Before(d, start) || Before(end, d)
      {
        BeforeIffOrdinal(d, start);
        BeforeIffOrdinal(end, d);
      }
    }
  }

  /** Ranges that meet add up, day lists and hence counts. */
  lemma {:induction false} RangesAdd(custom: set<Date>, m: Market, start: Date, mid: Date, end: Date)
    requires !Before(mid, Pred(start)) && !Before(end, mid)
    ensures TradingDays(custom, m, start, end)
         == TradingDays(custom, m, start, mid) + TradingDays(custom, m, Succ(mid), end)
    decreases Ordinal(mid) - Ordinal(start) + 1
  {
    BeforeIffOrdinal(mid, Pred(start));
    BeforeIffOrdinal(mid, start);
    BeforeIffOrdinal(end, mid);
    BeforeIffOrdinal(end, start);
    PredOrdinal(start);
    SuccOrdinal(start);
    SuccOrdinal(mid);
    if Before(mid, start) {
      BeforeIffOrdinal(Succ(mid), start);
    } else {
      SuccPred(start);
      BeforeIffOrdinal(mid, Pred(Succ(start)));
      RangesAdd(custom, m, Succ(start), mid, end);
    }
  }

  // ---------------------------------------------------------------- the object

  class TradingCalendar {
    var customHolidays: map<Market, set<Date>>

    constructor ()
      ensures customHolidays == map[TW := {}, US := {}]
    {
      customHolidays := map[TW := {}, US := {}];
    }

    function Custom(m: Market): set<Date>
      reads this
    {
      if m in customHolidays then customHolidays[m] else {}
    }

    predicate IsTradingDay(d: Date, m: Market)
      reads this
    {
      Trading(Custom(m), d, m)
    }

    method NextTradingDay(d: Date, m: Market) returns (candidate: Date)
      ensures IsNext(Custom(m), m, d, candidate)
    {
      ghost var t := TradingDayAfter(Custom(m), d, m);
      SuccOrdinal(d);
      candidate := Succ(d);
      NothingBetween(d);
      while !IsTradingDay(candidate, m)
        invariant Ordinal(d) < Ordinal(candidate) <= Ordinal(t)
        invariant forall e: Date :: Before(d, e) && Before(e, candidate) ==> !Trading(Custom(m), e, m)
        decreases Ordinal(t) - Ordinal(candidate)
      {
        BeforeIffOrdinal(candidate, t);
        SuccOrdinal(candidate);
        NothingBetween(candidate);
        candidate := Succ(candidate);
      }
      BeforeIffOrdinal(d, candidate);
    }

    method PrevTradingDay(d: Date, m: Market) returns (candidate: Date)
      ensures IsPrev(Custom(m), m, d, candidate)
    {
      ghost var t := TradingDayBefore(Custom(m), d, m);
      PredOrdinal(d);
      candidate := Pred(d);
      SuccPred(d);
      NothingBetween(candidate);
      while !IsTradingDay(candidate, m)
        invariant Ordinal(t) <= Ordinal(candidate) < Ordinal(d)
        invariant forall e: Date :: Before(candidate, e) && Before(e, d) ==> !Trading(Custom(m), e, m)
        decreases Ordinal(candidate) - Ordinal(t)
      {
        BeforeIffOrdinal(candidate, t);
        PredOrdinal(candidate);
        SuccPred(candidate);
        NothingBetween(Pred(candidate));
        candidate := Pred(candidate);
      }
      BeforeIffOrdinal(candidate, d);
    }

    method TradingDaysBetween(start: Date, end: Date, m: Market) returns (days: seq<Date>)
      ensures forall d: Date :: d in days <==> !Before(d, start) && !Before(end, d) && IsTradingDay(d, m)
      ensures forall i, j :: 0 <= i < j < |days| ==> Before(days[i], days[j])
      ensures days == TradingDays(Custom(m), m, start, end)
    {
      days := WalkRange(start, end, m);
      TradingDaysExact(Custom(m), m, start, end);
    }

    method WalkRange(start: Date, end: Date, m: Market) returns (days: seq<Date>)
      ensures days == TradingDays(Custom(m), m, start, end)
    {
      days := [];
      var current := start;
      while !Before(end, current)
        invariant TradingDays(Custom(m), m, start, end) == days + TradingDays(Custom(m), m, current, end)
        decreases Ordinal(end) - Ordinal(current) + 1
      {
        ghost var rest := TradingDays(Custom(m), m, Succ(current), end);
        RangeStep(Custom(m), m, current, end);
        if IsTradingDay(current, m) {
          assert days + ([current] + rest) == (days + [current]) + rest;
          days := days + [current];
        } else {
          assert [] + rest == rest;
        }
        current := Succ(current);
      }
    }

    method TradingDaysCount(start: Date, end: Date, m: Market) returns (n: nat)
      ensures n == |TradingDays(Custom(m), m, start, end)|
    {
      var days := TradingDaysBetween(start, end, m);
      n := |days|;
    }

    method AddHolidays(m: Market, holidays: seq<Date>)
      modifies this
      ensures forall k: Market, d: Date ::
        IsTradingDay(d, k) <==> old(IsTradingDay(d, k)) && !(k == m && d in holidays)
    {
      var added := set d | d in holidays;
      customHolidays := customHolidays[m := Custom(m) + added];
    }
  }

  lemma NothingBetween(d: Date)
    ensures forall e: Date :: Before(d, e) && Before(e, Succ(d)) ==> false
    ensures forall e: Date :: Before(e, Succ(d)) ==> Before(e, d) || e == d
    ensures forall e: Date :: Before(d, e) ==> Before(Succ(d), e) || e == Succ(d)
  {
    SuccOrdinal(d);
    forall e: Date
      ensures Before(e, Succ(d)) ==> Before(e, d) || e == d
      ensures Before(d, e) ==> Before(Succ(d), e) || e == Succ(d)
      ensures !(Before(d, e) && Before(e, Succ(d)))
    {
      BeforeIffOrdinal(e, Succ(d));
      BeforeIffOrdinal(Succ(d), e);
      BeforeIffOrdinal(e, d);
      BeforeIffOrdinal(d, e);
    }
  }
}
