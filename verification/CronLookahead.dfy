/** Is four years of lookahead enough? Exactly when the search finds nothing. */
module CronLookahead {
  import Wrappers
  import opened Calendar
  import opened CronSearch
  import Cron
  import Printer = CronPrinter

  /** The longest a month ever gets. */
  function LongestMonth(m: int): int {
    if m == 2 then 29 else if m == 4 || m == 6 || m == 9 || m == 11 then 30 else 31
  }

  /** The schedule names no day that any month has, such as 31 April. */
  ghost predicate Impossible(s: Schedule) {
    !s.dayFieldsAreOr && forall m, d :: m in s.months && d in s.daysOfMonth ==> d > LongestMonth(m)
  }

  /** The only dates the schedule names are 29 February. */
  ghost predicate LeapDayOnly(s: Schedule) {
    !s.dayFieldsAreOr && s.months == {2} && 29 in s.daysOfMonth && forall d :: d in s.daysOfMonth ==> d >= 29
  }

  predicate IsLeapDay(day: nat) {
    DateOf(day).month == 2 && DateOf(day).day == 29
  }

  /** A century year that skips its leap day, such as 1900 or 2100. */
  predicate SkipsLeapDay(y: nat) {
    y % 100 == 0 && y % 400 != 0
  }

  // ----- a matching day in the next year

  lemma MonthStart(y: nat, m: nat)
    requires y >= 1 && 1 <= m <= 12
    ensures DaysBeforeYear(y) <= Ordinal(Date(y, m, 1))
    ensures Ordinal(Date(y, m, 1)) + DaysInMonth(y, m) <= DaysBeforeYear(y + 1)
  {
    MonthsFit(y, m);
  }

  lemma OrdinalInMonth(y: nat, m: nat, d: nat)
    requires y >= 1 && 1 <= m <= 12 && 1 <= d <= DaysInMonth(y, m)
    ensures Ordinal(Date(y, m, d)) == Ordinal(Date(y, m, 1)) + d - 1
    ensures DateOf(Ordinal(Date(y, m, 1)) + d - 1) == Date(y, m, d)
  {
    DateOfOrdinal(Date(y, m, d));
  }

  lemma LongestMonthHolds(y: nat, m: nat, d: nat)
    requires 1 <= d <= LongestMonth(m) && !(m == 2 && d == 29)
    ensures d <= DaysInMonth(y, m)
  {
  }

  lemma WeekdayShift(first: nat, w: nat) returns (shift: nat)
    requires w < 7
    ensures shift <= (if DayOfWeek(first) <= w then w - DayOfWeek(first) else w + 7 - DayOfWeek(first))
    ensures DayOfWeek(first + shift) == w
    decreases if DayOfWeek(first) <= w then w - DayOfWeek(first) else w + 7 - DayOfWeek(first)
  {
    if DayOfWeek(first) == w {
      shift := 0;
    } else {
      var rest := WeekdayShift(first + 1, w);
      shift := rest + 1;
    }
  }

  /** Every weekday falls within the first seven days of a month. */
  lemma WeekdayInMonth(y: nat, m: nat, w: nat) returns (day: nat)
    requires y >= 1 && 1 <= m <= 12 && w < 7
    ensures Ordinal(Date(y, m, 1)) <= day < Ordinal(Date(y, m, 1)) + 7
    ensures DateOf(day).year == y && DateOf(day).month == m && DayOfWeek(day) == w
  {
    var first := Ordinal(Date(y, m, 1));
    var shift := WeekdayShift(first, w);
    day := first + shift;
    OrdinalInMonth(y, m, 1 + shift);
  }

  lemma NextYearIsClose(start: nat)
    ensures start < DaysBeforeYear(DateOf(start).year + 1)
    ensures DaysBeforeYear(DateOf(start).year + 2) <= start + 732
  {
    WithinYear(start);
  }

  lemma WeekdayDecides(s: Schedule, day: nat)
    requires Cron.WellFormed(s) && (s.dayFieldsAreOr || s.daysOfMonth == Cron.Field.DayOfMonth.Full())
    requires DateOf(day).month in s.months && DayOfWeek(day) in s.daysOfWeek
    ensures DayMatches(s, day)
  {
    assert DateOf(day).day in Cron.Field.DayOfMonth.Full();
  }

  lemma SomeMonthAndWeekday(s: Schedule) returns (m: nat, w: nat)
    requires Cron.WellFormed(s)
    ensures m in s.months && w in s.daysOfWeek && 1 <= m <= 12 && w <= 6
  {
    var someMonth: int :| someMonth in s.months;
    var someWeekday: int :| someWeekday in s.daysOfWeek;
    assert someMonth in Cron.Field.Month.Full() && someWeekday in Cron.Field.DayOfWeek.Full();
    m, w := someMonth, someWeekday;
  }

  lemma MatchingWeekday(s: Schedule, start: nat) returns (day: nat)
    requires Cron.WellFormed(s) && (s.dayFieldsAreOr || s.daysOfMonth == Cron.Field.DayOfMonth.Full())
    ensures start < day <= start + 732 && DayMatches(s, day)
  {
    var m, w := SomeMonthAndWeekday(s);
    var y := DateOf(start).year + 1;
    day := WeekdayInMonth(y, m, w);
    MonthStart(y, m);
    NextYearIsClose(start);
    WeekdayDecides(s, day);
  }

  lemma MatchingDate(s: Schedule, start: nat, m: int, d: int) returns (day: nat)
    requires Cron.WellFormed(s) && s.daysOfWeek == Cron.Field.DayOfWeek.Full()
    requires m in s.months && d in s.daysOfMonth && d <= LongestMonth(m) && !(m == 2 && d == 29)
    ensures start < day <= start + 732 && DayMatches(s, day)
  {
    assert m in Cron.Field.Month.Full() && d in Cron.Field.DayOfMonth.Full();
    var y := DateOf(start).year + 1;
    LongestMonthHolds(y, m, d);
    OrdinalInMonth(y, m, d);
    day := Ordinal(Date(y, m, 1)) + d - 1;
    MonthStart(y, m);
    NextYearIsClose(start);
    assert DayOfWeek(day) in Cron.Field.DayOfWeek.Full();
  }

  /** Unless it is impossible or confined to leap days, a schedule matches some day of the next two years. */
  lemma SoonMatches(s: Schedule, start: nat) returns (day: nat)
    requires Cron.WellFormed(s) && !Impossible(s) && !LeapDayOnly(s)
    ensures start < day <= start + 732 && DayMatches(s, day)
  {
    if s.dayFieldsAreOr || s.daysOfMonth == Cron.Field.DayOfMonth.Full() {
      day := MatchingWeekday(s, start);
    } else {
      var m, d :| m in s.months && d in s.daysOfMonth && d <= LongestMonth(m);
      if !(m == 2 && d == 29) {
        day := MatchingDate(s, start, m, d);
      } else if early :| early in s.daysOfMonth && early < 29 {
        day := MatchingDate(s, start, 2, early);
      } else {
        var other :| other in s.months && other != 2;
        assert other in Cron.Field.Month.Full();
        day := MatchingDate(s, start, other, 29);
      }
    }
  }

  // ----- leap days

  lemma LeapDayAt(y: nat) returns (day: nat)
    requires y >= 1 && IsLeap(y)
    ensures day == DaysBeforeYear(y) + 59 && IsLeapDay(day)
  {
    MonthLengths(y);
    DateOfOrdinal(Date(y, 2, 29));
    day := Ordinal(Date(y, 2, 29));
  }

  lemma FourYears(y: nat)
    requires y >= 1
    ensures DaysBeforeYear(y + 1) <= DaysBeforeYear(y) + 366
    ensures y % 4 != 0 ==> DaysBeforeYear(y + 1) == DaysBeforeYear(y) + 365
  {
  }

  /** No century year from `y` to four years on skips its leap day. */
  ghost predicate NoSkippedLeapDay(y: nat) {
    forall c :: y <= c <= y + 4 ==> !SkipsLeapDay(c)
  }

  lemma CenturyLessFour(century: nat)
    requires century >= 100 && SkipsLeapDay(century)
    ensures IsLeap(century - 4)
  {
    var q := century / 100;
    RemainderOfFour(25 * q - 1, 0);
    assert century - 4 == 4 * (25 * q - 1);
    assert century - 4 == 100 * (q - 1) + 96;
  }

  lemma FourthYearIsLeap(y: nat)
    requires y % 4 == 0 && !SkipsLeapDay(y)
    ensures IsLeap(y)
  {
  }

  /** The next multiple of four after `y` is a leap year, at most 1461 days on. */
  lemma NextLeapYear(y: nat) returns (n: nat)
    requires y >= 1 && NoSkippedLeapDay(y)
    ensures n > y && IsLeap(n) && DaysBeforeYear(y + 1) <= DaysBeforeYear(n)
    ensures DaysBeforeYear(n) <= DaysBeforeYear(y) + (if y % 4 == 0 then 1461 else 1095)
  {
    n := y + 4 - y % 4;
    FourthYearIsLeap(n);
    YearsApart(y);
  }

  lemma YearsApart(y: nat)
    requires y >= 1
    ensures var n := y + 4 - y % 4;
            && DaysBeforeYear(y + 1) <= DaysBeforeYear(n)
            && DaysBeforeYear(n) <= DaysBeforeYear(y) + (if y % 4 == 0 then 1461 else 1095)
  {
    NextModFour(y);
    NextModFour(y + 1);
    NextModFour(y + 2);
    FourYears(y);
    FourYears(y + 1);
    FourYears(y + 2);
    FourYears(y + 3);
  }

  lemma NextModFour(y: nat)
    ensures (y + 1) % 4 == if y % 4 == 3 then 0 else y % 4 + 1
  {
  }

  lemma LeapDayAfter(y: nat, start: nat) returns (day: nat)
    requires y >= 1 && NoSkippedLeapDay(y) && DaysBeforeYear(y) <= start < DaysBeforeYear(y + 1)
    ensures start < day <= start + 1461 && IsLeapDay(day)
  {
    FourYears(y);
    if y % 4 == 0 && start < DaysBeforeYear(y) + 59 {
      FourthYearIsLeap(y);
      day := LeapDayAt(y);
    } else {
      var n := NextLeapYear(y);
      day := LeapDayAt(n);
    }
  }

  /** Leap days come at most 1461 days apart, unless a non-leap century year intervenes. */
  lemma LeapDayGap(start: nat) returns (day: nat)
    requires NoSkippedLeapDay(DateOf(start).year)
    ensures start < day <= start + 1461 && IsLeapDay(day)
  {
    WithinYear(start);
    day := LeapDayAfter(DateOf(start).year, start);
  }

  lemma LeapDayMatches(s: Schedule, day: nat)
    requires Cron.WellFormed(s) && LeapDayOnly(s)
    ensures DayMatches(s, day) <==> IsLeapDay(day)
  {
    assert DayOfWeek(day) in Cron.Field.DayOfWeek.Full();
    assert 28 !in s.daysOfMonth && 28 in Cron.Field.DayOfMonth.Full();
  }

  // ----- the verdict

  /** A matching day holds a matching minute. */
  lemma MinuteOfDay(s: Schedule, day: nat) returns (t: nat)
    requires Cron.WellFormed(s)
    ensures MomentAt(t).day == day && TimeMatches(s, t) && day * 1440 <= t < (day + 1) * 1440
  {
    var minute: int :| minute in s.minutes;
    var hour: int :| hour in s.hours;
    assert minute in Cron.Field.Minute.Full() && hour in Cron.Field.Hour.Full();
    t := MinuteNumber(Moment(day, hour, minute));
    MomentOfMinuteNumber(Moment(day, hour, minute));
  }

  lemma WindowCovers(after: nat, day: nat, t: nat)
    requires MomentAt(after).day < day <= MomentAt(after).day + 1463
    requires day * 1440 <= t < (day + 1) * 1440
    ensures after < t <= after + MAX_LOOKAHEAD_MINUTES
  {
    MinuteNumberOfMoment(after);
    var m := MomentAt(after);
    assert m.hour * 60 + m.minute < 1440;
    assert MAX_LOOKAHEAD_MINUTES == 1464 * 1440;
  }

  lemma MatchInWindow(s: Schedule, after: nat, t: int)
    requires after < t <= after + MAX_LOOKAHEAD_MINUTES && Matches(s, t)
    ensures Preview(s, after, 1) != []
  {
    MatchesInExact(s, after, after + MAX_LOOKAHEAD_MINUTES);
  }

  /** Any matching day within 1463 days of the start lies wholly inside the window. */
  lemma DayInWindow(s: Schedule, after: nat, day: nat)
    requires Cron.WellFormed(s) && DayMatches(s, day)
    requires MomentAt(after).day < day <= MomentAt(after).day + 1463
    ensures Preview(s, after, 1) != []
  {
    var t := MinuteOfDay(s, day);
    WindowCovers(after, day, t);
    MatchInWindow(s, after, t);
  }

  /** Impossible schedules are exactly those that match no minute of any year. */
  lemma ImpossibleNeverFires(s: Schedule)
    requires Cron.WellFormed(s)
    ensures Impossible(s) <==> forall t :: !Matches(s, t)
  {
    if Impossible(s) {
      forall t | t >= 0
        ensures !Matches(s, t)
      {
        var date := DateOf(MomentAt(t).day);
        assert date.day <= LongestMonth(date.month);
      }
    } else {
      var day;
      if LeapDayOnly(s) {
        day := LeapDayAt(4);
        LeapDayMatches(s, day);
      } else {
        day := SoonMatches(s, 0);
      }
      var t := MinuteOfDay(s, day);
      assert Matches(s, t);
    }
  }

  ghost predicate HasLeapDay(s: Schedule, after: nat) {
    exists t :: after < t <= after + MAX_LOOKAHEAD_MINUTES && TimeMatches(s, t) && IsLeapDay(MomentAt(t).day)
  }

  lemma EmptyWindow(s: Schedule, after: nat)
    requires Cron.WellFormed(s)
    ensures Preview(s, after, 1) == [] <==> Impossible(s) || (LeapDayOnly(s) && !HasLeapDay(s, after))
  {
    PreviewExact(s, after, 1);
    assert Preview(s, after, 1) != [] ==> Matches(s, Preview(s, after, 1)[0]);
    if Impossible(s) {
      ImpossibleNeverFires(s);
    } else if LeapDayOnly(s) {
      forall t | after < t <= after + MAX_LOOKAHEAD_MINUTES
        ensures Matches(s, t) <==> TimeMatches(s, t) && IsLeapDay(MomentAt(t).day)
      {
        LeapDayMatches(s, MomentAt(t).day);
      }
      if Preview(s, after, 1) != [] {
        var t := Preview(s, after, 1)[0];
        assert TimeMatches(s, t) && IsLeapDay(MomentAt(t).day);
      }
    } else {
      var day := SoonMatches(s, MomentAt(after).day);
      DayInWindow(s, after, day);
    }
  }

  /** A leap-day schedule is missed only by a window that reaches a non-leap century year. */
  lemma MissedLeapDay(s: Schedule, after: nat)
    requires Cron.WellFormed(s) && LeapDayOnly(s) && Preview(s, after, 1) == []
    ensures var y := DateOf(MomentAt(after).day).year; exists c :: y <= c <= y + 4 && SkipsLeapDay(c)
  {
    var start := MomentAt(after).day;
    var y := DateOf(start).year;
    if NoSkippedLeapDay(y) {
      var day := LeapDayGap(start);
      LeapDayMatches(s, day);
      DayInWindow(s, after, day);
    }
  }

  lemma {:induction false} YearsGrow(y: nat, z: nat)
    requires 1 <= y <= z
    ensures DaysBeforeYear(y) <= DaysBeforeYear(z)
    decreases z - y
  {
    if y < z {
      YearsGrow(y + 1, z);
    }
  }

  // ----- the starts that are missed

  function LeastFrom(xs: set<int>, low: int, high: int): (x: int)
    requires exists x :: x in xs && low <= x <= high
    ensures x in xs && low <= x <= high && forall y :: y in xs && low <= y ==> x <= y
    decreases high - low
  {
    if low in xs then low else LeastFrom(xs, low + 1, high)
  }

  function GreatestTo(xs: set<int>, low: int, high: int): (x: int)
    requires exists x :: x in xs && low <= x <= high
    ensures x in xs && low <= x <= high && forall y :: y in xs && y <= high ==> y <= x
    decreases high - low
  {
    if high in xs then high else GreatestTo(xs, low, high - 1)
  }

  lemma SomeValue(f: Cron.Field, xs: set<int>)
    requires {} < xs <= f.Full()
    ensures exists x :: x in xs && f.Low() <= x <= f.High()
    ensures forall x :: x in xs ==> f.Low() <= x <= f.High()
  {
    var x: int :| x in xs;
    assert x in f.Full();
  }

  /** The first and the last minute of a day in which the time fields match. */
  ghost function FirstMinute(s: Schedule): (m: int)
    requires Cron.WellFormed(s)
    ensures 0 <= m < 1440
  {
    SomeValue(Cron.Field.Hour, s.hours);
    SomeValue(Cron.Field.Minute, s.minutes);
    LeastFrom(s.hours, 0, 23) * 60 + LeastFrom(s.minutes, 0, 59)
  }

  ghost function LastMinute(s: Schedule): (m: int)
    requires Cron.WellFormed(s)
    ensures 0 <= m < 1440
  {
    SomeValue(Cron.Field.Hour, s.hours);
    SomeValue(Cron.Field.Minute, s.minutes);
    GreatestTo(s.hours, 0, 23) * 60 + GreatestTo(s.minutes, 0, 59)
  }

  lemma MinuteBounds(s: Schedule, t: nat)
    requires Cron.WellFormed(s) && TimeMatches(s, t)
    ensures MomentAt(t).day * 1440 + FirstMinute(s) <= t <= MomentAt(t).day * 1440 + LastMinute(s)
  {
    SomeValue(Cron.Field.Hour, s.hours);
    SomeValue(Cron.Field.Minute, s.minutes);
    MinuteNumberOfMoment(t);
  }

  lemma TimeAt(s: Schedule, day: nat, hour: int, minute: int)
    requires 0 <= hour < 24 && 0 <= minute < 60 && hour in s.hours && minute in s.minutes
    ensures var t := day * 1440 + hour * 60 + minute; MomentAt(t).day == day && TimeMatches(s, t)
  {
    var m := Moment(day, hour, minute);
    MomentOfMinuteNumber(m);
    assert MinuteNumber(m) == day * 1440 + hour * 60 + minute;
  }

  /** Both bounds are attained. */
  lemma BoundsMatch(s: Schedule, day: nat)
    requires Cron.WellFormed(s)
    ensures MomentAt(day * 1440 + FirstMinute(s)).day == day && TimeMatches(s, day * 1440 + FirstMinute(s))
    ensures MomentAt(day * 1440 + LastMinute(s)).day == day && TimeMatches(s, day * 1440 + LastMinute(s))
  {
    SomeValue(Cron.Field.Hour, s.hours);
    SomeValue(Cron.Field.Minute, s.minutes);
    TimeAt(s, day, LeastFrom(s.hours, 0, 23), LeastFrom(s.minutes, 0, 59));
    TimeAt(s, day, GreatestTo(s.hours, 0, 23), GreatestTo(s.minutes, 0, 59));
  }

  /** The first and the last minute of 29 February of a leap year in which the schedule fires. */
  ghost function FirstFiring(s: Schedule, y: nat): int
    requires Cron.WellFormed(s) && y >= 1
  {
    (DaysBeforeYear(y) + 59) * 1440 + FirstMinute(s)
  }

  ghost function LastFiring(s: Schedule, y: nat): int
    requires Cron.WellFormed(s) && y >= 1
  {
    (DaysBeforeYear(y) + 59) * 1440 + LastMinute(s)
  }

  /** From the last firing before a skipped leap day until the window first reaches the one after it. */
  ghost predicate MissedAround(s: Schedule, after: nat, century: nat)
    requires Cron.WellFormed(s)
  {
    century >= 100 && SkipsLeapDay(century) && Between(s, after, century - 4, century + 4)
  }

  ghost predicate Between(s: Schedule, after: nat, low: nat, high: nat)
    requires Cron.WellFormed(s) && 1 <= low && 1 <= high
  {
    LastFiring(s, low) <= after && after + MAX_LOOKAHEAD_MINUTES < FirstFiring(s, high)
  }

  /** The schedule fires at both ends of that day. */
  ghost predicate FiresIn(s: Schedule, y: nat) {
    Cron.WellFormed(s) && y >= 1 && Matches(s, FirstFiring(s, y)) && Matches(s, LastFiring(s, y))
  }

  lemma LeapYearFires(s: Schedule, y: nat)
    requires Cron.WellFormed(s) && LeapDayOnly(s) && y >= 1 && IsLeap(y)
    ensures FiresIn(s, y)
  {
    var day := LeapDayAt(y);
    LeapDayMatches(s, day);
    BoundsMatch(s, day);
  }

  lemma RemainderOfFour(a: nat, r: nat)
    requires r < 4
    ensures (4 * a + r) % 4 == r
  {
  }

  /** The leap years next to a skipped one lie four years away on either side. */
  lemma NotLeapNear(century: nat, y: nat)
    requires century >= 100 && SkipsLeapDay(century) && century - 4 < y < century + 4
    ensures !IsLeap(y)
  {
    var q := century / 100;
    assert century == 4 * (25 * q);
    if y < century {
      RemainderOfFour(25 * q - 1, y - (century - 4));
    } else {
      RemainderOfFour(25 * q, y - century);
    }
  }

  lemma CenturyAndFour(century: nat)
    requires century >= 100 && SkipsLeapDay(century)
    ensures IsLeap(century + 4)
  {
    var q := century / 100;
    RemainderOfFour(25 * q + 1, 0);
    assert century + 4 == 4 * (25 * q + 1);
    assert century + 4 == 100 * q + 4;
  }

  /** The leap years next to a skipped one. */
  lemma NeighboursFire(s: Schedule, century: nat)
    requires Cron.WellFormed(s) && LeapDayOnly(s) && century >= 100 && SkipsLeapDay(century)
    ensures FiresIn(s, century - 4) && FiresIn(s, century + 4)
  {
    CenturyLessFour(century);
    CenturyAndFour(century);
    LeapYearFires(s, century - 4);
    LeapYearFires(s, century + 4);
  }

  lemma LeapDayOrdinal(day: nat)
    requires IsLeapDay(day)
    ensures IsLeap(DateOf(day).year) && day == DaysBeforeYear(DateOf(day).year) + 59
  {
    OrdinalOfDate(day);
    MonthLengths(DateOf(day).year);
  }

  ghost predicate NoLeapYearBetween(low: nat, high: nat) {
    forall y :: low < y < high ==> !IsLeap(y)
  }

  lemma OutsideTheGap(low: nat, high: nat, y: nat)
    requires NoLeapYearBetween(low, high) && 1 <= low && 1 <= high && y >= 1 && IsLeap(y)
    ensures DaysBeforeYear(y) <= DaysBeforeYear(low) || DaysBeforeYear(high) <= DaysBeforeYear(y)
  {
    if y <= low {
      YearsGrow(y, low);
    } else {
      YearsGrow(high, y);
    }
  }

  /** Between two firings with no leap year in between there is no minute of a leap day to match. */
  lemma NoneBetween(s: Schedule, low: nat, high: nat, t: nat)
    requires Cron.WellFormed(s) && NoLeapYearBetween(low, high) && 1 <= low && 1 <= high
    requires LastFiring(s, low) < t < FirstFiring(s, high)
    ensures !(TimeMatches(s, t) && IsLeapDay(MomentAt(t).day))
  {
    if TimeMatches(s, t) && IsLeapDay(MomentAt(t).day) {
      LeapDayOrdinal(MomentAt(t).day);
      MinuteBounds(s, t);
      OutsideTheGap(low, high, DateOf(MomentAt(t).day).year);
    }
  }

  ghost predicate StartsIn(after: nat, y: nat) {
    y >= 1 && DaysBeforeYear(y) * 1440 <= after < DaysBeforeYear(y + 1) * 1440
  }

  lemma StartYear(after: nat)
    ensures StartsIn(after, DateOf(MomentAt(after).day).year)
  {
    MinuteNumberOfMoment(after);
    WithinYear(MomentAt(after).day);
  }

  /** A firing within the window would have been found. */
  lemma NotInWindow(s: Schedule, after: nat, t: int)
    requires Preview(s, after, 1) == [] && Matches(s, t)
    ensures t <= after || after + MAX_LOOKAHEAD_MINUTES < t
  {
    if after < t <= after + MAX_LOOKAHEAD_MINUTES {
      MatchInWindow(s, after, t);
    }
  }

  /** The window cannot hold a firing of an earlier or a later year than the start's. */
  lemma FiringsOutside(s: Schedule, after: nat, y: nat, low: nat, high: nat)
    requires FiresIn(s, low) && FiresIn(s, high) && Preview(s, after, 1) == []
    requires StartsIn(after, y) && low <= y < high
    ensures Between(s, after, low, high)
  {
    NotInWindow(s, after, LastFiring(s, low));
    NotInWindow(s, after, FirstFiring(s, high));
    YearsGrow(low, y);
    YearsGrow(y + 1, high);
  }

  lemma MissedBetween(s: Schedule, after: nat, low: nat, high: nat)
    requires Cron.WellFormed(s) && LeapDayOnly(s) && NoLeapYearBetween(low, high) && 1 <= low && 1 <= high
    requires Between(s, after, low, high)
    ensures Preview(s, after, 1) == []
  {
    forall t | after < t <= after + MAX_LOOKAHEAD_MINUTES
      ensures !(TimeMatches(s, t) && IsLeapDay(MomentAt(t).day))
    {
      NoneBetween(s, low, high, t);
    }
    EmptyWindow(s, after);
  }

  lemma MissedAroundIsMissed(s: Schedule, after: nat, century: nat)
    requires Cron.WellFormed(s) && LeapDayOnly(s) && MissedAround(s, after, century)
    ensures Preview(s, after, 1) == []
  {
    forall y | century - 4 < y < century + 4
      ensures !IsLeap(y)
    {
      NotLeapNear(century, y);
    }
    MissedBetween(s, after, century - 4, century + 4);
  }

  lemma MissedIsAround(s: Schedule, after: nat, y: nat, century: nat)
    requires Cron.WellFormed(s) && LeapDayOnly(s) && Preview(s, after, 1) == []
    requires century >= 100 && SkipsLeapDay(century)
    requires StartsIn(after, y) && y <= century <= y + 4
    ensures MissedAround(s, after, century)
  {
    assert Between(s, after, century - 4, century + 4) by {
      NeighboursFire(s, century);
      FiringsOutside(s, after, y, century - 4, century + 4);
    }
  }

  lemma AtLeastACentury(c: nat)
    requires SkipsLeapDay(c)
    ensures c >= 100
  {
  }

  /** The starts from which a leap-day schedule finds no next run, exactly. */
  lemma MissedStarts(s: Schedule, after: nat)
    requires Cron.WellFormed(s) && LeapDayOnly(s)
    ensures Preview(s, after, 1) == [] <==> exists century :: MissedAround(s, after, century)
  {
    if Preview(s, after, 1) == [] {
      MissedLeapDay(s, after);
      var y := DateOf(MomentAt(after).day).year;
      var c :| y <= c <= y + 4 && SkipsLeapDay(c);
      AtLeastACentury(c);
      StartYear(after);
      MissedIsAround(s, after, y, c);
    }
    if century :| MissedAround(s, after, century) {
      MissedAroundIsMissed(s, after, century);
    }
  }

  /**
   The search comes back empty exactly when the schedule can never fire, or names only 29 February and
   starts within one of the intervals around a skipped leap day.
   */
  lemma LookaheadSuffices(s: Schedule, after: nat)
    requires Cron.WellFormed(s)
    ensures Preview(s, after, 1) == [] <==>
              Impossible(s) || (LeapDayOnly(s) && exists century :: MissedAround(s, after, century))
  {
    EmptyWindow(s, after);
    if LeapDayOnly(s) {
      MissedStarts(s, after);
    }
  }

  lemma MarchAfterLeapDay(y: nat)
    requires y >= 1
    ensures Ordinal(Date(y, 3, 1)) == DaysBeforeYear(y) + 31 + DaysInMonth(y, 2)
  {
    MonthLengths(y);
  }

  lemma CenturySpan(century: nat)
    requires century >= 100 && SkipsLeapDay(century)
    ensures DaysBeforeYear(century + 1) >= DaysBeforeYear(century - 4) + 1825
  {
    var y := century - 4;
    assert DaysBeforeYear(y + 1) >= DaysBeforeYear(y) + 365;
    assert DaysBeforeYear(y + 2) >= DaysBeforeYear(y + 1) + 365;
    assert DaysBeforeYear(y + 3) >= DaysBeforeYear(y + 2) + 365;
    assert DaysBeforeYear(y + 4) >= DaysBeforeYear(y + 3) + 365;
  }

  lemma DayAfterIsBetween(s: Schedule, day: nat, low: nat, high: nat)
    requires Cron.WellFormed(s) && 1 <= low && 1 <= high
    requires day == DaysBeforeYear(low) + 60 && DaysBeforeYear(high) >= DaysBeforeYear(low) + 1825
    ensures Between(s, day * 1440, low, high)
  {
  }

  /**
   The intervals are real: from 1 March four years before any skipped leap day (1896, 2096, ...), every
   leap-day schedule can still fire and yet has no next run.
   */
  lemma LeapDayMissed(s: Schedule, century: nat)
    requires century >= 100 && SkipsLeapDay(century) && Cron.WellFormed(s) && LeapDayOnly(s)
    ensures !Impossible(s)
    ensures Preview(s, Ordinal(Date(century - 4, 3, 1)) * 1440, 1) == []
  {
    CenturyLessFour(century);
    MarchAfterLeapDay(century - 4);
    CenturySpan(century);
    YearsGrow(century + 1, century + 4);
    DayAfterIsBetween(s, Ordinal(Date(century - 4, 3, 1)), century - 4, century + 4);
    MissedAroundIsMissed(s, Ordinal(Date(century - 4, 3, 1)) * 1440, century);
    assert 2 in s.months && 29 in s.daysOfMonth;
  }

  function OneField(n: nat): seq<Printer.Piece> {
    [Printer.Piece(Printer.One(Printer.Number(n)), Wrappers.None)]
  }

  /** The tree of `M H 29 2 *`. */
  function LeapDayFields(minute: nat, hour: nat): seq<seq<Printer.Piece>> {
    [OneField(minute), OneField(hour), OneField(29), OneField(2), [Printer.Piece(Printer.Star, Wrappers.None)]]
  }

  /** Such a schedule is what `M H 29 2 *` parses to. */
  lemma LeapDaySchedule(minute: nat, hour: nat) returns (s: Schedule)
    requires minute < 60 && hour < 24
    ensures Cron.Parse(Printer.PrintExpression(LeapDayFields(minute, hour))) == Wrappers.Ok(s)
    ensures Cron.WellFormed(s) && LeapDayOnly(s)
  {
    var fields := LeapDayFields(minute, hour);
    forall i | 0 <= i < 5
      ensures Printer.Meaningful(fields[i], Cron.FIELDS[i])
    {
    }
    Printer.PrintedExpression(fields);
    s := Cron.Parse(Printer.PrintExpression(fields)).value;
    Cron.ParseSound(Printer.PrintExpression(fields));
    OnlyMeans(2, Cron.Field.Month);
    OnlyMeans(29, Cron.Field.DayOfMonth);
    LeapDayOnlyFrom(s, minute, hour);
  }

  lemma LeapDayOnlyFrom(s: Schedule, minute: nat, hour: nat)
    requires Printer.Denotes(s, LeapDayFields(minute, hour))
    ensures LeapDayOnly(s)
  {
    OnlyMeans(2, Cron.Field.Month);
    OnlyMeans(29, Cron.Field.DayOfMonth);
    assert forall v :: v in s.months <==> v == 2;
    assert forall v :: v in s.daysOfMonth <==> v == 29;
  }

  lemma OnlyMeans(n: nat, f: Cron.Field)
    requires f.Low() <= n <= f.High()
    ensures forall v :: Printer.InField(v, OneField(n), f) <==> v == n
  {
    var p := OneField(n)[0];
    assert Printer.Meaning(p, f) == Wrappers.Some(Cron.Progression(n, n, 1));
    assert Printer.Means(n, p, f);
  }
}
