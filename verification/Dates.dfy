// The proleptic Gregorian calendar that the trading calendar walks through day
// by day: successor, predecessor, ordinals and their agreement with date order.
module Dates {

  datatype RawDate = RawDate(year: int, month: int, day: int)

  predicate IsLeap(year: int) {
    year % 4 == 0 && (year % 100 != 0 || year % 400 == 0)
  }

  function DaysInMonth(year: int, month: int): int {
    if month == 2 then (if IsLeap(year) then 29 else 28)
    else if month in {4, 6, 9, 11} then 30
    else 31
  }

  predicate ValidDate(d: RawDate) {
    1 <= d.month <= 12 && 1 <= d.day <= DaysInMonth(d.year, d.month)
  }

  type Date = d: RawDate | ValidDate(d) witness RawDate(1970, 1, 1)

  /** `d + timedelta(days=1)`. */
  function Succ(d: Date): Date {
    if d.day < DaysInMonth(d.year, d.month) then RawDate(d.year, d.month, d.day + 1)
    else if d.month < 12 then RawDate(d.year, d.month + 1, 1)
    else RawDate(d.year + 1, 1, 1)
  }

  /** `d - timedelta(days=1)`. */
  function Pred(d: Date): Date {
    if d.day > 1 then RawDate(d.year, d.month, d.day - 1)
    else if d.month > 1 then RawDate(d.year, d.month - 1, DaysInMonth(d.year, d.month - 1))
    else RawDate(d.year - 1, 12, 31)
  }

  /** Python compares dates field by field. */
  predicate Before(a: Date, b: Date) {
    a.year < b.year
    || (a.year == b.year && (a.month < b.month || (a.month == b.month && a.day < b.day)))
  }

  function DaysBeforeYear(year: int): int {
    var y := year - 1;
    y * 365 + y / 4 - y / 100 + y / 400
  }

  function DaysBeforeMonth(year: int, month: int): int
    requires month >= 1
    decreases month
  {
    if month == 1 then 0 else DaysBeforeMonth(year, month - 1) + DaysInMonth(year, month - 1)
  }

  /** `date.toordinal`. */
  function Ordinal(d: Date): int {
    DaysBeforeYear(d.year) + DaysBeforeMonth(d.year, d.month) + d.day
  }

  /** `date.weekday`: Monday is 0. */
  function Weekday(d: Date): int {
    (Ordinal(d) + 6) % 7
  }

  lemma MonthsOfYear(year: int)
    ensures DaysBeforeMonth(year, 12) == if IsLeap(year) then 335 else 334
  {
    var feb := DaysInMonth(year, 2);
    assert DaysBeforeMonth(year, 4) == 31 + feb + 31;
    assert DaysBeforeMonth(year, 7) == DaysBeforeMonth(year, 4) + 91;
    assert DaysBeforeMonth(year, 10) == DaysBeforeMonth(year, 7) + 92;
    assert DaysBeforeMonth(year, 12) == DaysBeforeMonth(year, 10) + 61;
  }

  lemma MultiplesApart(d: int, k: int)
    requires d > 0
    ensures k >= 1 ==> d * k >= d
    ensures k <= -1 ==> d * k <= -d
  {
    if k >= 1 {
      assert d * (k - 1) >= 0;
    } else if k <= -1 {
      assert d * (-k - 1) >= 0;
    }
  }

  lemma QuotientUnique(x: int, d: int, q: int, r: int)
    requires d > 0 && 0 <= r < d && x == d * q + r
    ensures x / d == q && x % d == r
  {
    assert x == d * (x / d) + x % d;
    assert d * (x / d - q) == r - x % d;
    MultiplesApart(d, x / d - q);
  }

  /** A quotient grows by one exactly at the multiples of the divisor. */
  lemma QuotientStep(y: int, d: int)
    requires d > 0
    ensures y / d - (y - 1) / d == if y % d == 0 then 1 else 0
  {
    var q, r := y / d, y % d;
    assert y == d * q + r;
    if r == 0 {
      assert d * (q - 1) == d * q - d;
      QuotientUnique(y - 1, d, q - 1, d - 1);
    } else {
      QuotientUnique(y - 1, d, q, r - 1);
    }
  }

  lemma CenturiesDivide(y: int)
    ensures y % 100 == 0 ==> y % 4 == 0
    ensures y % 400 == 0 ==> y % 100 == 0
  {
    if y % 100 == 0 {
      QuotientUnique(y, 4, 25 * (y / 100), 0);
    }
    if y % 400 == 0 {
      QuotientUnique(y, 100, 4 * (y / 400), 0);
    }
  }

  lemma LeapDays(year: int)
    ensures year / 4 - (year - 1) / 4 - (year / 100 - (year - 1) / 100) + (year / 400 - (year - 1) / 400)
         == if IsLeap(year) then 1 else 0
  {
    QuotientStep(year, 4);
    QuotientStep(year, 100);
    QuotientStep(year, 400);
    CenturiesDivide(year);
  }

  lemma YearLength(year: int)
    ensures DaysBeforeMonth(year, 12) == if IsLeap(year) then 335 else 334
    ensures DaysBeforeYear(year + 1) == DaysBeforeYear(year) + DaysBeforeMonth(year, 12) + 31
  {
    MonthsOfYear(year);
    LeapDays(year);
  }

  lemma SuccOrdinal(d: Date)
    ensures Ordinal(Succ(d)) == Ordinal(d) + 1
  {
    if d.day == DaysInMonth(d.year, d.month) && d.month == 12 {
      YearLength(d.year);
    }
  }

  lemma PredOrdinal(d: Date)
    ensures Ordinal(Pred(d)) == Ordinal(d) - 1
  {
    SuccPred(d);
    SuccOrdinal(Pred(d));
  }

  lemma SuccPred(d: Date)
    ensures Succ(Pred(d)) == d && Pred(Succ(d)) == d
  {
  }

  lemma {:induction false} MonthsGrow(year: int, m: int, m': int)
    requires 1 <= m < m'
    ensures DaysBeforeMonth(year, m) + DaysInMonth(year, m) <= DaysBeforeMonth(year, m')
    decreases m'
  {
    if m + 1 < m' {
      MonthsGrow(year, m, m' - 1);
    }
  }

  lemma {:induction false} YearsGrow(y: int, y': int)
    requires y < y'
    ensures DaysBeforeYear(y) + DaysBeforeMonth(y, 12) + 31 <= DaysBeforeYear(y')
    decreases y' - y
  {
    YearLength(y);
    if y + 1 < y' {
      YearsGrow(y + 1, y');
      YearLength(y + 1);
    }
  }

  lemma WithinYear(d: Date)
    ensures DaysBeforeYear(d.year) < Ordinal(d) <= DaysBeforeYear(d.year) + DaysBeforeMonth(d.year, 12) + 31
  {
    if d.month < 12 {
      MonthsGrow(d.year, d.month, 12);
    }
    if d.month > 1 {
      MonthsGrow(d.year, 1, d.month);
    }
  }

  lemma BeforeGrows(a: Date, b: Date)
    requires Before(a, b)
    ensures Ordinal(a) < Ordinal(b)
  {
    if a.year < b.year {
      WithinYear(a);
      WithinYear(b);
      YearsGrow(a.year, b.year);
    } else if a.month < b.month {
      MonthsGrow(a.year, a.month, b.month);
    }
  }

  /** Field order and ordinals agree, and an ordinal names one date. */
  lemma BeforeIffOrdinal(a: Date, b: Date)
    ensures Before(a, b) <==> Ordinal(a) < Ordinal(b)
    ensures Ordinal(a) == Ordinal(b) <==> a == b
  {
    if Before(a, b) {
      BeforeGrows(a, b);
    } else if a != b {
      BeforeGrows(b, a);
    }
  }

  function Later(d: Date, n: nat): Date {
    if n == 0 then d else Succ(Later(d, n - 1))
  }

  function Earlier(d: Date, n: nat): Date {
    if n == 0 then d else Pred(Earlier(d, n - 1))
  }

  lemma {:induction false} LaterOrdinal(d: Date, n: nat)
    ensures Ordinal(Later(d, n)) == Ordinal(d) + n
  {
    if n > 0 {
      LaterOrdinal(d, n - 1);
      SuccOrdinal(Later(d, n - 1));
    }
  }

  lemma {:induction false} EarlierOrdinal(d: Date, n: nat)
    ensures Ordinal(Earlier(d, n)) == Ordinal(d) - n
  {
    if n > 0 {
      EarlierOrdinal(d, n - 1);
      PredOrdinal(Earlier(d, n - 1));
    }
  }

  lemma DaysLater(o: int, n: nat)
    ensures (o + n + 6) % 7 == ((o + 6) % 7 + n) % 7
    ensures (o - n + 6) % 7 == ((o + 6) % 7 - n) % 7
  {
  }

  lemma WeekdayLater(d: Date, n: nat)
    ensures Weekday(Later(d, n)) == (Weekday(d) + n) % 7
  {
    LaterOrdinal(d, n);
    DaysLater(Ordinal(d), n);
  }

  lemma WeekdayEarlier(d: Date, n: nat)
    ensures Weekday(Earlier(d, n)) == (Weekday(d) - n) % 7
  {
    EarlierOrdinal(d, n);
    DaysLater(Ordinal(d), n);
  }

  lemma WeekdaySucc(d: Date)
    ensures Weekday(Succ(d)) == (Weekday(d) + 1) % 7
  {
    SuccOrdinal(d);
    DaysLater(Ordinal(d), 1);
  }

  const SATURDAY: Date := RawDate(2024, 1, 6)

  lemma YearsBefore()
    ensures DaysBeforeYear(2024) == 738885 && DaysBeforeYear(1970) == 719162 && DaysBeforeYear(1) == 0
  {
  }

  lemma JanuaryFirst(year: int)
    ensures Ordinal(RawDate(year, 1, 1)) == DaysBeforeYear(year) + 1
  {
    assert DaysBeforeMonth(year, 1) == 0;
  }

  /** The first day of the calendar has ordinal 1, and the epoch 719163. */
  lemma KnownOrdinals(first: Date, epoch: Date)
    requires first == RawDate(1, 1, 1) && epoch == RawDate(1970, 1, 1)
    ensures Ordinal(first) == 1 && Ordinal(epoch) == 719163
  {
    YearsBefore();
    JanuaryFirst(first.year);
    JanuaryFirst(epoch.year);
  }

  lemma SaturdayOrdinal()
    ensures Ordinal(SATURDAY) == 738891
  {
    YearsBefore();
    assert DaysBeforeMonth(2024, 1) == 0;
    assert Ordinal(SATURDAY) == DaysBeforeYear(2024) + DaysBeforeMonth(2024, 1) + 6;
  }

  lemma WeeksLater(x: int, k: int)
    ensures (x + 7 * k) % 7 == x % 7
  {
    QuotientUnique(x + 7 * k, 7, x / 7 + k, x % 7);
  }

  lemma SameWeekday(o: int)
    ensures (o + 6) % 7 == (o - 738891 + 5) % 7
  {
    WeeksLater(o - 738886, 105556);
  }

  /** Weekdays counted from a Saturday on the calendar: 6 January 2024. */
  lemma WeekdayMeans(d: Date)
    ensures Weekday(d) == (Ordinal(d) - Ordinal(SATURDAY) + 5) % 7
  {
    SaturdayOrdinal();
    SameWeekday(Ordinal(d));
  }
}
