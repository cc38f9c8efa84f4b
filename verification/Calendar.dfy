/**
 The proleptic Gregorian calendar. Day 0 is 0001-01-01, a Monday; `DateOf` walks the calendar
 one day at a time, and `Ordinal` counts the days of whole years and months and inverts it.
 */
module Calendar {

  datatype Date = Date(year: nat, month: nat, day: nat)

  predicate IsLeap(y: nat) {
    y % 4 == 0 && (y % 100 != 0 || y % 400 == 0)
  }

  function DaysInMonth(y: nat, m: nat): (n: nat)
    ensures 28 <= n <= 31
  {
    if m == 2 then (if IsLeap(y) then 29 else 28)
    else if m == 4 || m == 6 || m == 9 || m == 11 then 30
    else 31
  }

  predicate Valid(d: Date) {
    1 <= d.year && 1 <= d.month <= 12 && 1 <= d.day <= DaysInMonth(d.year, d.month)
  }

  function NextDay(d: Date): Date {
    if d.day < DaysInMonth(d.year, d.month) then d.(day := d.day + 1)
    else if d.month < 12 then Date(d.year, d.month + 1, 1)
    else Date(d.year + 1, 1, 1)
  }

  function DateOf(n: nat): (d: Date)
    ensures Valid(d)
  {
    if n == 0 then Date(1, 1, 1) else NextDay(DateOf(n - 1))
  }

  /** Sunday is 0, as cron counts; day 0 is a Monday. */
  function DayOfWeek(n: nat): (w: nat)
    ensures w < 7
  {
    if n == 0 then 1 else if DayOfWeek(n - 1) == 6 then 0 else DayOfWeek(n - 1) + 1
  }

  /** A minute of a day. */
  datatype Moment = Moment(day: nat, hour: nat, minute: nat)

  function NextMoment(m: Moment): Moment {
    if m.minute < 59 then m.(minute := m.minute + 1)
    else if m.hour < 23 then Moment(m.day, m.hour + 1, 0)
    else Moment(m.day + 1, 0, 0)
  }

  /** Minute 0 is midnight of day 0; the clock advances one minute at a time. */
  function MomentAt(t: nat): (m: Moment)
    ensures m.hour < 24 && m.minute < 60
  {
    if t == 0 then Moment(0, 0, 0) else NextMoment(MomentAt(t - 1))
  }

  function MinuteNumber(m: Moment): nat { m.day * 1440 + m.hour * 60 + m.minute }

  lemma {:induction false} MinuteNumberOfMoment(t: nat)
    ensures MinuteNumber(MomentAt(t)) == t
  {
    if t > 0 {
      MinuteNumberOfMoment(t - 1);
    }
  }

  lemma MomentOfMinuteNumber(m: Moment)
    requires m.hour < 24 && m.minute < 60
    ensures MomentAt(MinuteNumber(m)) == m
  {
    MinuteNumberOfMoment(MinuteNumber(m));
    SameMinuteNumber(m, MomentAt(MinuteNumber(m)));
  }

  lemma SameMinuteNumber(m: Moment, n: Moment)
    requires m.hour < 24 && m.minute < 60 && n.hour < 24 && n.minute < 60
    requires MinuteNumber(m) == MinuteNumber(n)
    ensures m == n
  {
    assert m.day < n.day ==> (m.day + 1) * 1440 <= n.day * 1440;
    assert n.day < m.day ==> (n.day + 1) * 1440 <= m.day * 1440;
  }

  function DaysInYear(y: nat): nat { if IsLeap(y) then 366 else 365 }

  function DaysBeforeYear(y: nat): nat
    requires y >= 1
  {
    if y == 1 then 0 else DaysBeforeYear(y - 1) + DaysInYear(y - 1)
  }

  function DaysBeforeMonth(y: nat, m: nat): nat
    requires 1 <= m <= 12
  {
    if m == 1 then 0 else DaysBeforeMonth(y, m - 1) + DaysInMonth(y, m - 1)
  }

  function Ordinal(d: Date): nat
    requires Valid(d)
  {
    DaysBeforeYear(d.year) + DaysBeforeMonth(d.year, d.month) + d.day - 1
  }

  lemma MonthLengths(y: nat)
    ensures DaysBeforeMonth(y, 2) == 31
    ensures DaysBeforeMonth(y, 3) == 31 + DaysInMonth(y, 2)
    ensures DaysBeforeMonth(y, 12) + 31 == DaysInYear(y)
  {
    assert DaysBeforeMonth(y, 2) == DaysBeforeMonth(y, 1) + 31;
    assert DaysBeforeMonth(y, 3) == DaysBeforeMonth(y, 2) + DaysInMonth(y, 2);
    assert DaysBeforeMonth(y, 5) == DaysBeforeMonth(y, 3) + 61;
    assert DaysBeforeMonth(y, 7) == DaysBeforeMonth(y, 5) + 61;
    assert DaysBeforeMonth(y, 9) == DaysBeforeMonth(y, 7) + 62;
    assert DaysBeforeMonth(y, 11) == DaysBeforeMonth(y, 9) + 61;
    assert DaysBeforeMonth(y, 12) == DaysBeforeMonth(y, 11) + 30;
  }

  lemma {:induction false} MonthsFit(y: nat, m: nat)
    requires 1 <= m <= 12
    ensures DaysBeforeMonth(y, m) + DaysInMonth(y, m) <= DaysInYear(y)
    decreases 12 - m
  {
    if m == 12 {
      MonthLengths(y);
    } else {
      MonthsFit(y, m + 1);
    }
  }

  lemma OrdinalNextDay(d: Date)
    requires Valid(d)
    ensures Valid(NextDay(d)) && Ordinal(NextDay(d)) == Ordinal(d) + 1
  {
    if d.day == DaysInMonth(d.year, d.month) {
      if d.month < 12 {
        assert DaysBeforeMonth(d.year, d.month + 1) == DaysBeforeMonth(d.year, d.month) + d.day;
      } else {
        MonthLengths(d.year);
        assert DaysBeforeYear(d.year + 1) == DaysBeforeYear(d.year) + DaysInYear(d.year);
        assert DaysBeforeMonth(d.year + 1, 1) == 0;
      }
    }
  }

  /** The ordinal counts the days the walk has taken. */
  lemma {:induction false} OrdinalOfDate(n: nat)
    ensures Ordinal(DateOf(n)) == n
  {
    if n > 0 {
      OrdinalOfDate(n - 1);
      OrdinalNextDay(DateOf(n - 1));
    }
  }

  function PreviousDay(d: Date): Date
    requires Valid(d) && d != Date(1, 1, 1)
  {
    if d.day > 1 then d.(day := d.day - 1)
    else if d.month > 1 then Date(d.year, d.month - 1, DaysInMonth(d.year, d.month - 1))
    else Date(d.year - 1, 12, 31)
  }

  lemma PreviousDayIsValid(d: Date)
    requires Valid(d) && d != Date(1, 1, 1)
    ensures Valid(PreviousDay(d))
  {
  }

  lemma NextOfPrevious(d: Date)
    requires Valid(d) && d != Date(1, 1, 1)
    ensures NextDay(PreviousDay(d)) == d
  {
  }

  /** Every valid date is reached by the walk, exactly on the day its ordinal names. */
  lemma {:induction false} DateOfOrdinal(d: Date)
    requires Valid(d)
    ensures DateOf(Ordinal(d)) == d
    decreases d.year, d.month, d.day
  {
    if d != Date(1, 1, 1) {
      var p := PreviousDay(d);
      PreviousDayIsValid(d);
      NextOfPrevious(d);
      DateOfOrdinal(p);
      OrdinalNextDay(p);
    }
  }

  /** Day `n` lies inside its own year. */
  lemma WithinYear(n: nat)
    ensures DaysBeforeYear(DateOf(n).year) <= n < DaysBeforeYear(DateOf(n).year + 1)
  {
    OrdinalOfDate(n);
    MonthsFit(DateOf(n).year, DateOf(n).month);
  }

  // ----- the closed forms

  lemma {:induction false} WeekdayCycle(n: nat)
    ensures DayOfWeek(n) == (n + 1) % 7
  {
    if n > 0 {
      WeekdayCycle(n - 1);
    }
  }

  /** How many of the years before `y` are multiples of `d`. */
  function MultiplesBefore(y: nat, d: nat): nat
    requires y >= 1 && d > 0
  {
    if y == 1 then 0 else MultiplesBefore(y - 1, d) + if (y - 1) % d == 0 then 1 else 0
  }

  lemma QuotientIs(n: int, d: int, q: int, r: int)
    requires d > 0 && n == q * d + r && 0 <= r < d
    ensures n / d == q && n % d == r
  {
    var e := n / d - q;
    assert e * d == (n / d) * d - q * d;
    assert e >= 1 ==> e * d >= d;
    assert e <= -1 ==> e * d <= -d;
  }

  lemma NextQuotient(n: int, d: int, q: int, r: int)
    requires d > 1 && n == q * d + r && 0 <= r < d
    ensures n / d == q
    ensures (n + 1) / d == q + if (n + 1) % d == 0 then 1 else 0
  {
    QuotientIs(n, d, q, r);
    if r + 1 < d {
      QuotientIs(n + 1, d, q, r + 1);
    } else {
      assert (q + 1) * d == q * d + d;
      QuotientIs(n + 1, d, q + 1, 0);
    }
  }

  /** The count of multiples is a quotient. */
  lemma {:induction false} MultiplesFormula(y: nat, d: nat)
    requires y >= 1 && d > 1
    ensures MultiplesBefore(y, d) == (y - 1) / d
  {
    if y == 1 {
      QuotientIs(0, d, 0, 0);
    } else {
      MultiplesFormula(y - 1, d);
      NextQuotient(y - 2, d, (y - 2) / d, (y - 2) % d);
    }
  }

  lemma CenturiesAreMultiples(y: nat)
    ensures y % 100 == 0 ==> y % 4 == 0
    ensures y % 400 == 0 ==> y % 100 == 0
  {
    if y % 100 == 0 {
      QuotientIs(y, 4, 25 * (y / 100), 0);
    }
    if y % 400 == 0 {
      QuotientIs(y, 100, 4 * (y / 400), 0);
    }
  }

  lemma {:induction false} LeapYearsCounted(y: nat)
    requires y >= 1
    ensures DaysBeforeYear(y) ==
            365 * (y - 1) + MultiplesBefore(y, 4) - MultiplesBefore(y, 100) + MultiplesBefore(y, 400)
  {
    if y > 1 {
      LeapYearsCounted(y - 1);
      CenturiesAreMultiples(y - 1);
    }
  }

  /** The count of days before a year is the closed Gregorian formula. */
  lemma YearFormula(y: nat)
    requires y >= 1
    ensures DaysBeforeYear(y) == 365 * (y - 1) + (y - 1) / 4 - (y - 1) / 100 + (y - 1) / 400
  {
    LeapYearsCounted(y);
    MultiplesFormula(y, 4);
    MultiplesFormula(y, 100);
    MultiplesFormula(y, 400);
  }

  lemma DaysBefore2024(y: nat)
    requires y == 2024
    ensures DaysBeforeYear(y) == 738_885
  {
    YearFormula(y);
  }

  /** An anchor in the present: 29 February 2024 was a Thursday. */
  lemma KnownDay(d: Date)
    requires d.year == 2024 && d.month == 2 && d.day == 29
    ensures Valid(d) && Ordinal(d) == 738_944 && DayOfWeek(Ordinal(d)) == 4
  {
    DaysBefore2024(d.year);
    MonthLengths(d.year);
    WeekdayCycle(Ordinal(d));
  }
}
