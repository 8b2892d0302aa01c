/** Dates of the Gregorian calendar, years 1 to 9999, and moving them by days or months. */
module Calendar {
  import opened Text

  datatype YearMonthDay = YearMonthDay(year: int, month: int, day: int)

  predicate IsLeap(year: int) {
    year % 4 == 0 && (year % 100 != 0 || year % 400 == 0)
  }

  function DaysIn(year: int, month: int): (days: int)
    ensures 28 <= days <= 31
  {
    if month == 2 then (if IsLeap(year) then 29 else 28)
    else if month == 4 || month == 6 || month == 9 || month == 11 then 30
    else 31
  }

  predicate IsDate(d: YearMonthDay) {
    1 <= d.year <= 9999 && 1 <= d.month <= 12 && 1 <= d.day <= DaysIn(d.year, d.month)
  }

  type Date = d: YearMonthDay | IsDate(d) witness YearMonthDay(1, 1, 1)

  /** The order of dates: by year, then month, then day. */
  predicate Before(a: Date, b: Date) {
    || a.year < b.year
    || (a.year == b.year && (a.month < b.month || (a.month == b.month && a.day < b.day)))
  }

  // ---- Days -----------------------------------------------------------------------

  function NextDay(d: Date): Option<Date> {
    if d.day < DaysIn(d.year, d.month) then Some(YearMonthDay(d.year, d.month, d.day + 1))
    else if d.month < 12 then Some(YearMonthDay(d.year, d.month + 1, 1))
    else if d.year < 9999 then Some(YearMonthDay(d.year + 1, 1, 1))
    else None
  }

  function PreviousDay(d: Date): Option<Date> {
    if d.day > 1 then Some(YearMonthDay(d.year, d.month, d.day - 1))
    else if d.month > 1 then Some(YearMonthDay(d.year, d.month - 1, DaysIn(d.year, d.month - 1)))
    else if d.year > 1 then Some(YearMonthDay(d.year - 1, 12, 31))
    else None
  }

  /** The date `n` days on, or back where `n` is negative, unless it leaves the calendar. */
  function AddDays(d: Date, n: int): Option<Date>
    decreases if n < 0 then -n else n
  {
    if n == 0 then Some(d)
    else
      var step := if n > 0 then NextDay(d) else PreviousDay(d);
      if step.None? then None
      else AddDays(step.value, if n > 0 then n - 1 else n + 1)
  }

  // ---- Ordinals ----------------------------------------------------------------------

  function DaysBeforeYear(year: int): int {
    365 * (year - 1) + (year - 1) / 4 - (year - 1) / 100 + (year - 1) / 400
  }

  function DaysBeforeMonth(year: int, month: int): int {
    if month <= 1 then 0 else DaysBeforeMonth(year, month - 1) + DaysIn(year, month - 1)
  }

  /** The number of the day, counting 1 January of year 1 as day 1. */
  function Ordinal(d: Date): int {
    DaysBeforeYear(d.year) + DaysBeforeMonth(d.year, d.month) + d.day
  }

  const LAST_ORDINAL := 3652059

  lemma MonthsOfYear(year: int)
    ensures DaysBeforeMonth(year, 12) + 31 == if IsLeap(year) then 366 else 365
  {
    assert DaysBeforeMonth(year, 2) == 31;
    assert DaysBeforeMonth(year, 3) == 31 + DaysIn(year, 2);
    assert DaysBeforeMonth(year, 4) == DaysBeforeMonth(year, 3) + 31;
    assert DaysBeforeMonth(year, 6) == DaysBeforeMonth(year, 4) + 61;
    assert DaysBeforeMonth(year, 8) == DaysBeforeMonth(year, 6) + 61;
    assert DaysBeforeMonth(year, 10) == DaysBeforeMonth(year, 8) + 61;
    assert DaysBeforeMonth(year, 12) == DaysBeforeMonth(year, 10) + 61;
  }

  lemma YearLength(year: int)
    ensures DaysBeforeYear(year + 1) == DaysBeforeYear(year) + if IsLeap(year) then 366 else 365
  {
    LeapYearsAdded(year);
    assert DaysBeforeYear(year + 1) == 365 * year + year / 4 - year / 100 + year / 400;
  }

  lemma LeapYearsAdded(year: int)
    ensures year / 4 - year / 100 + year / 400
         == (year - 1) / 4 - (year - 1) / 100 + (year - 1) / 400 + if IsLeap(year) then 1 else 0
  {
    FloorStep(year, 4);
    FloorStep(year, 100);
    FloorStep(year, 400);
    Multiples(year);
  }

  lemma Multiples(year: int)
    ensures year % 400 == 0 ==> year % 100 == 0
    ensures year % 100 == 0 ==> year % 4 == 0
  {
  }

  lemma FloorStep(n: int, k: int)
    requires k == 4 || k == 100 || k == 400
    ensures n / k == (n - 1) / k + if n % k == 0 then 1 else 0
  {
  }

  lemma NextDayOrdinal(d: Date)
    ensures NextDay(d).Some? ==> Ordinal(NextDay(d).value) == Ordinal(d) + 1
  {
    MonthsOfYear(d.year);
    YearLength(d.year);
  }

  lemma PreviousDayOrdinal(d: Date)
    ensures PreviousDay(d).Some? ==> Ordinal(PreviousDay(d).value) == Ordinal(d) - 1
  {
    MonthsOfYear(d.year - 1);
    YearLength(d.year - 1);
  }

  lemma {:induction false} MonthStarts(year: int, month: int, day: int, later: int)
    requires 1 <= month < later && day <= DaysIn(year, month)
    ensures DaysBeforeMonth(year, month) + day <= DaysBeforeMonth(year, later)
    decreases later - month
  {
    if month + 1 < later {
      MonthStarts(year, month + 1, 0, later);
    }
  }

  lemma {:induction false} YearStarts(year: int, later: int)
    requires year < later
    ensures DaysBeforeYear(year) + (if IsLeap(year) then 366 else 365) <= DaysBeforeYear(later)
    decreases later - year
  {
    YearLength(year);
    if year + 1 < later {
      YearStarts(year + 1, later);
    }
  }

  lemma EarlierHasSmallerOrdinal(a: Date, b: Date)
    requires Before(a, b)
    ensures Ordinal(a) < Ordinal(b)
  {
    if a.year < b.year {
      YearStarts(a.year, b.year);
      MonthsOfYear(a.year);
      if a.month < 12 {
        MonthStarts(a.year, a.month, a.day, 12);
      }
      if 1 < b.month {
        MonthStarts(b.year, 1, 0, b.month);
      }
    } else if a.month < b.month {
      MonthStarts(a.year, a.month, a.day, b.month);
    }
  }

  /** Ordinals order dates as the calendar does, and tell them apart. */
  lemma OrdinalKeepsOrder(a: Date, b: Date)
    ensures Before(a, b) <==> Ordinal(a) < Ordinal(b)
    ensures a == b <==> Ordinal(a) == Ordinal(b)
  {
    if Before(a, b) {
      EarlierHasSmallerOrdinal(a, b);
    } else if Before(b, a) {
      EarlierHasSmallerOrdinal(b, a);
    }
  }

  lemma OrdinalInRange(d: Date)
    ensures 1 <= Ordinal(d) <= LAST_ORDINAL
    ensures Ordinal(d) == 1 <==> PreviousDay(d).None?
    ensures Ordinal(d) == LAST_ORDINAL <==> NextDay(d).None?
  {
    var first, last := Ends();
    FirstOrdinal(first);
    LastOrdinal(last);
    OrdinalWithin(first, d, last, 1, LAST_ORDINAL);
  }

  /** The first and the last date of the calendar. */
  lemma Ends() returns (first: Date, last: Date)
    ensures forall d: Date :: !Before(d, first) && (d == first <==> PreviousDay(d).None?)
    ensures forall d: Date :: !Before(last, d) && (d == last <==> NextDay(d).None?)
  {
    first, last := YearMonthDay(1, 1, 1), YearMonthDay(9999, 12, 31);
    forall d: Date
      ensures !Before(d, first) && (d == first <==> PreviousDay(d).None?)
      ensures !Before(last, d) && (d == last <==> NextDay(d).None?)
    {
      NoDateOutside(first, d, last);
      NoDayBeyond(first, d, last);
    }
  }

  lemma NoDayBeyond(first: Date, d: Date, last: Date)
    requires first.year == 1 && first.month == 1 && first.day == 1
    requires last.year == 9999 && last.month == 12 && last.day == 31
    ensures d == first <==> PreviousDay(d).None?
    ensures d == last <==> NextDay(d).None?
  {
  }

  lemma NoDateOutside(first: Date, d: Date, last: Date)
    requires first.year == 1 && first.month == 1 && first.day == 1
    requires last.year == 9999 && last.month == 12 && last.day == 31
    ensures !Before(d, first) && !Before(last, d)
  {
  }

  lemma OrdinalWithin(first: Date, d: Date, last: Date, low: int, high: int)
    requires Ordinal(first) == low && Ordinal(last) == high && !Before(d, first) && !Before(last, d)
    ensures low <= Ordinal(d) <= high
    ensures Ordinal(d) == low <==> d == first
    ensures Ordinal(d) == high <==> d == last
  {
    OrdinalKeepsOrder(d, first);
    OrdinalKeepsOrder(last, d);
  }

  lemma FirstOrdinal(d: Date)
    requires PreviousDay(d).None?
    ensures Ordinal(d) == 1
  {
  }

  lemma LastOrdinal(d: Date)
    requires NextDay(d).None?
    ensures Ordinal(d) == LAST_ORDINAL
  {
    assert d.year == 9999 && d.month == 12;
    YearsBefore(d.year);
    MonthsOfYear(d.year);
    assert DaysBeforeMonth(d.year, d.month) == DaysBeforeMonth(d.year, 12);
  }

  lemma YearsBefore(year: int)
    requires year == 9999
    ensures DaysBeforeYear(year) == LAST_ORDINAL - 365 && !IsLeap(year)
  {
  }

  /** A numbering that counts the days of the calendar from 1. */
  ghost predicate CountsDays(number: Date -> int) {
    forall d: Date ::
      && 1 <= number(d) <= LAST_ORDINAL
      && (if NextDay(d).Some? then number(NextDay(d).value) == number(d) + 1 else number(d) == LAST_ORDINAL)
      && (if PreviousDay(d).Some? then number(PreviousDay(d).value) == number(d) - 1 else number(d) == 1)
  }

  lemma {:induction false} AddDaysCounts(number: Date -> int, d: Date, n: int)
    requires CountsDays(number)
    ensures AddDays(d, n).Some? <==> 1 <= number(d) + n <= LAST_ORDINAL
    ensures AddDays(d, n).Some? ==> number(AddDays(d, n).value) == number(d) + n
    decreases if n < 0 then -n else n
  {
    assert 1 <= number(d) <= LAST_ORDINAL;
    if n > 0 && NextDay(d).Some? {
      AddDaysCounts(number, NextDay(d).value, n - 1);
    } else if n < 0 && PreviousDay(d).Some? {
      AddDaysCounts(number, PreviousDay(d).value, n + 1);
    }
  }

  /** Adding days adds to the ordinal, exactly while it stays within the calendar. */
  lemma AddDaysOrdinal(d: Date, n: int)
    ensures AddDays(d, n).Some? <==> 1 <= Ordinal(d) + n <= LAST_ORDINAL
    ensures AddDays(d, n).Some? ==> Ordinal(AddDays(d, n).value) == Ordinal(d) + n
  {
    var number := (x: Date) => Ordinal(x);
    forall x: Date
      ensures && 1 <= number(x) <= LAST_ORDINAL
              && (if NextDay(x).Some? then number(NextDay(x).value) == number(x) + 1 else number(x) == LAST_ORDINAL)
              && (if PreviousDay(x).Some? then number(PreviousDay(x).value) == number(x) - 1 else number(x) == 1)
    {
      OrdinalInRange(x);
      NextDayOrdinal(x);
      PreviousDayOrdinal(x);
    }
    AddDaysCounts(number, d, n);
  }

  // ---- Months ---------------------------------------------------------------------------

  function MonthIndex(d: Date): int {
    12 * d.year + d.month - 1
  }

  /** The date `n` months on, or back, on the same day of the month or else the month's last. */
  function AddMonths(d: Date, n: int): Option<Date> {
    var index := MonthIndex(d) + n;
    var year, month := index / 12, index % 12 + 1;
    if 1 <= year <= 9999 then
      var last := DaysIn(year, month);
      Some(YearMonthDay(year, month, if d.day <= last then d.day else last))
    else None
  }

  lemma AddMonthsIndex(d: Date, n: int)
    ensures AddMonths(d, n).Some? <==> 12 <= MonthIndex(d) + n < 120000
    ensures AddMonths(d, n).Some? ==> MonthIndex(AddMonths(d, n).value) == MonthIndex(d) + n
  {
  }

  lemma IndexKeepsOrder(a: Date, b: Date)
    ensures MonthIndex(a) < MonthIndex(b) ==> Before(a, b)
    ensures Before(a, b) ==> MonthIndex(a) <= MonthIndex(b)
  {
  }

  // ---- Window lengths --------------------------------------------------------------------

  datatype Delta = Months(months: int) | Days(days: int)

  predicate Positive(delta: Delta) {
    match delta
    case Months(n) => n >= 1
    case Days(n) => n >= 1
  }

  function Moved(d: Date, delta: Delta, backward: bool): Option<Date> {
    match delta
    case Months(n) => AddMonths(d, if backward then -n else n)
    case Days(n) => AddDays(d, if backward then -n else n)
  }

  /** `a` comes strictly before `b` in the direction of the fill. */
  predicate Ahead(a: Date, b: Date, backward: bool) {
    if backward then Before(b, a) else Before(a, b)
  }

  /** A positive length moves a date strictly on, month ends included. */
  lemma MovesOn(d: Date, delta: Delta, backward: bool)
    requires Positive(delta) && Moved(d, delta, backward).Some?
    ensures Ahead(d, Moved(d, delta, backward).value, backward)
  {
    var moved := Moved(d, delta, backward).value;
    match delta
    case Months(n) =>
      AddMonthsIndex(d, if backward then -n else n);
      IndexKeepsOrder(d, moved);
      IndexKeepsOrder(moved, d);
    case Days(n) =>
      AddDaysOrdinal(d, if backward then -n else n);
      OrdinalKeepsOrder(d, moved);
      OrdinalKeepsOrder(moved, d);
  }

  /** Where a length can be added to a date, it can be added to every earlier one. */
  lemma EarlierMoves(a: Date, b: Date, delta: Delta, backward: bool)
    requires Positive(delta) && Ahead(a, b, backward) && Moved(b, delta, backward).Some?
    ensures Moved(a, delta, backward).Some?
  {
    match delta
    case Months(n) =>
      AddMonthsIndex(a, if backward then -n else n);
      AddMonthsIndex(b, if backward then -n else n);
      IndexKeepsOrder(a, b);
      IndexKeepsOrder(b, a);
    case Days(n) =>
      AddDaysOrdinal(a, if backward then -n else n);
      AddDaysOrdinal(b, if backward then -n else n);
      OrdinalKeepsOrder(a, b);
      OrdinalKeepsOrder(b, a);
      OrdinalInRange(a);
  }
}
