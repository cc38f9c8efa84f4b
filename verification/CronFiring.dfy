/**
 When an expression fires, told by the calendar and the expression's own syntax: the rule for the two day
 fields, the presets, and white space.
 */
module CronFiring {
  import opened Wrappers
  import opened Calendar
  import opened Cron
  import opened CronPrinter
  import opened CronSearch
  import Text

  // ----- minutes by name

  /** The minute number of a date and time of day. */
  function At(d: Date, hour: nat, minute: nat): nat
    requires Valid(d)
  {
    Ordinal(d) * 1440 + hour * 60 + minute
  }

  /** Sunday is 0; the first day of year 1 was a Monday. */
  function Weekday(d: Date): nat
    requires Valid(d)
  {
    (Ordinal(d) + 1) % 7
  }

  /** Every minute has a date and a time of day. */
  lemma EveryMinuteNamed(t: nat) returns (d: Date, hour: nat, minute: nat)
    ensures Valid(d) && hour < 24 && minute < 60 && t == At(d, hour, minute)
  {
    var m := MomentAt(t);
    d, hour, minute := DateOf(m.day), m.hour, m.minute;
    MinuteNumberOfMoment(t);
    OrdinalOfDate(m.day);
  }

  lemma NamedDay(d: Date)
    requires Valid(d)
    ensures DateOf(Ordinal(d)) == d && Calendar.DayOfWeek(Ordinal(d)) == Weekday(d)
  {
    DateOfOrdinal(d);
    WeekdayCycle(Ordinal(d));
  }

  lemma MomentOf(day: nat, hour: nat, minute: nat, t: nat)
    requires hour < 24 && minute < 60 && t == day * 1440 + hour * 60 + minute
    ensures MomentAt(t) == Moment(day, hour, minute)
  {
    MomentOfMinuteNumber(Moment(day, hour, minute));
  }

  lemma NamedMinute(d: Date, hour: nat, minute: nat)
    requires Valid(d) && hour < 24 && minute < 60
    ensures MomentAt(At(d, hour, minute)) == Moment(Ordinal(d), hour, minute)
  {
    MomentOf(Ordinal(d), hour, minute, At(d, hour, minute));
  }

  // ----- when a tree fires

  /** A field that is anything but a lone star. */
  predicate Restricted(field: seq<Piece>) {
    field != [Piece(Star, None)]
  }

  /**
   The time of day and the month must be listed; of the day of the month and the weekday one suffices when
   both fields are restricted, else both are needed.
   */
  ghost predicate ListsTime(fields: seq<seq<Piece>>, minute: int, hour: int, day: int, month: int, weekday: int)
    requires |fields| == 5
  {
    && InField(minute, fields[0], Minute) && InField(hour, fields[1], Hour) && InField(month, fields[3], Month)
    && if Restricted(fields[2]) && Restricted(fields[4])
       then InField(day, fields[2], DayOfMonth) || InField(weekday, fields[4], DayOfWeek)
       else InField(day, fields[2], DayOfMonth) && InField(weekday, fields[4], DayOfWeek)
  }

  ghost predicate FiresAt(fields: seq<seq<Piece>>, d: Date, hour: nat, minute: nat)
    requires |fields| == 5 && Valid(d)
  {
    ListsTime(fields, minute, hour, d.day, d.month, Weekday(d))
  }

  ghost predicate Proper(fields: seq<seq<Piece>>) {
    |fields| == 5 && forall i :: 0 <= i < 5 ==> Meaningful(fields[i], FIELDS[i])
  }

  ghost predicate InSets(s: Schedule, minute: int, hour: int, day: int, month: int, weekday: int) {
    && minute in s.minutes && hour in s.hours && month in s.months
    && if s.dayFieldsAreOr then day in s.daysOfMonth || weekday in s.daysOfWeek
       else day in s.daysOfMonth && weekday in s.daysOfWeek
  }

  lemma MatchesAt(s: Schedule, t: nat, m: Moment, d: Date, weekday: nat)
    requires MomentAt(t) == m && DateOf(m.day) == d && Calendar.DayOfWeek(m.day) == weekday
    ensures Matches(s, t) <==> InSets(s, m.minute, m.hour, d.day, d.month, weekday)
  {
  }

  lemma MatchesNamed(s: Schedule, d: Date, hour: nat, minute: nat)
    requires Valid(d) && hour < 24 && minute < 60
    ensures Matches(s, At(d, hour, minute)) <==> InSets(s, minute, hour, d.day, d.month, Weekday(d))
  {
    NamedMinute(d, hour, minute);
    NamedDay(d);
    MatchesAt(s, At(d, hour, minute), Moment(Ordinal(d), hour, minute), d, Weekday(d));
  }

  lemma DenotedLists(s: Schedule, fields: seq<seq<Piece>>, minute: int, hour: int, day: int, month: int, weekday: int)
    requires |fields| == 5 && Denotes(s, fields)
    ensures InSets(s, minute, hour, day, month, weekday) <==> ListsTime(fields, minute, hour, day, month, weekday)
  {
  }

  /** A schedule with a tree's sets fires when the tree says. */
  lemma DenotedFires(s: Schedule, fields: seq<seq<Piece>>, d: Date, hour: nat, minute: nat)
    requires |fields| == 5 && Denotes(s, fields) && Valid(d) && hour < 24 && minute < 60
    ensures Matches(s, At(d, hour, minute)) <==> FiresAt(fields, d, hour, minute)
  {
    MatchesNamed(s, d, hour, minute);
    DenotedLists(s, fields, minute, hour, d.day, d.month, Weekday(d));
  }

  /** Every accepted expression fires at exactly the times its own text says. */
  lemma FiresAsWritten(fields: seq<seq<Piece>>, d: Date, hour: nat, minute: nat)
    requires Proper(fields) && Valid(d) && hour < 24 && minute < 60
    ensures var r := Parse(PrintExpression(fields));
            r.Ok? && (Matches(r.value, At(d, hour, minute)) <==> FiresAt(fields, d, hour, minute))
  {
    PrintedExpression(fields);
    DenotedFires(Parse(PrintExpression(fields)).value, fields, d, hour, minute);
  }

  // ----- the first of the month or a Monday

  function Only(n: nat): seq<Piece> { [Piece(One(Number(n)), None)] }

  function Any(): seq<Piece> { [Piece(Star, None)] }

  lemma OnlyIs(n: nat, f: Field, v: int)
    requires f.Low() <= n <= f.High()
    ensures Meaningful(Only(n), f) && (InField(v, Only(n), f) <==> v == n)
  {
    OneMeansItself(n, f);
    assert Means(n, Only(n)[0], f);
  }

  lemma AnyIs(f: Field, v: int)
    ensures Meaningful(Any(), f) && (InField(v, Any(), f) <==> f.Low() <= v <= f.High())
  {
    assert Means(v, Any()[0], f) <==> f.Low() <= v <= f.High();
  }

  lemma JoinOneMore(first: string, rest: seq<string>)
    requires rest != []
    ensures Text.Join([first] + rest, ' ') == first + " " + Text.Join(rest, ' ')
  {
    assert ([first] + rest)[1..] == rest;
  }

  lemma FiveTexts(a: string, b: string, c: string, d: string, e: string)
    ensures Text.Join([a, b, c, d, e], ' ') == a + " " + (b + " " + (c + " " + (d + " " + e)))
  {
    assert [a, b, c, d, e] == [a] + [b, c, d, e] && [b, c, d, e] == [b] + [c, d, e];
    assert [c, d, e] == [c] + [d, e] && [d, e] == [d] + [e];
    JoinOneMore(a, [b, c, d, e]);
    JoinOneMore(b, [c, d, e]);
    JoinOneMore(c, [d, e]);
    JoinOneMore(d, [e]);
  }

  lemma OnlyText(n: nat)
    requires n < 10
    ensures PrintField(Only(n)) == [Text.DigitChar(n)] && PrintField(Any()) == "*"
  {
    assert PrintPieces(Only(n)) == [Text.Digits(n)];
    assert PrintPieces(Any()) == ["*"];
  }

  lemma FiveFields(a: seq<Piece>, b: seq<Piece>, c: seq<Piece>, d: seq<Piece>, e: seq<Piece>)
    ensures PrintExpression([a, b, c, d, e]) ==
            PrintField(a) + " " + (PrintField(b) + " " + (PrintField(c) + " " + (PrintField(d) + " " + PrintField(e))))
  {
    assert PrintFields([a, b, c, d, e]) ==
           [PrintField(a), PrintField(b), PrintField(c), PrintField(d), PrintField(e)];
    FiveTexts(PrintField(a), PrintField(b), PrintField(c), PrintField(d), PrintField(e));
  }

  /** The tree of `0 0 1 * 1`. */
  function FirstOrMonday(): seq<seq<Piece>> {
    [Only(0), Only(0), Only(1), Any(), Only(1)]
  }

  lemma FirstOrMondayText()
    ensures PrintExpression(FirstOrMonday()) == "0 0 1 * 1"
  {
    OnlyText(0);
    OnlyText(1);
    FiveFields(Only(0), Only(0), Only(1), Any(), Only(1));
  }

  /** Field by field: what is listed, and whether either day field is a lone star. */
  lemma FieldsList(a: seq<Piece>, b: seq<Piece>, c: seq<Piece>, d: seq<Piece>, e: seq<Piece>,
                   minute: int, hour: int, day: int, month: int, weekday: int)
    ensures ListsTime([a, b, c, d, e], minute, hour, day, month, weekday) <==>
              && InField(minute, a, Minute) && InField(hour, b, Hour) && InField(month, d, Month)
              && if Restricted(c) && Restricted(e) then InField(day, c, DayOfMonth) || InField(weekday, e, DayOfWeek)
                 else InField(day, c, DayOfMonth) && InField(weekday, e, DayOfWeek)
  {
  }

  lemma FieldsProper(a: seq<Piece>, b: seq<Piece>, c: seq<Piece>, d: seq<Piece>, e: seq<Piece>)
    requires Meaningful(a, Minute) && Meaningful(b, Hour) && Meaningful(c, DayOfMonth)
    requires Meaningful(d, Month) && Meaningful(e, DayOfWeek)
    ensures Proper([a, b, c, d, e])
  {
    assert FIELDS == [Minute, Hour, DayOfMonth, Month, DayOfWeek];
  }

  lemma OnlyIsRestricted(n: nat)
    ensures Restricted(Only(n)) && !Restricted(Any())
  {
    assert Only(n)[0] != Piece(Star, None);
  }

  lemma OnlyProper(n: nat, f: Field)
    requires f.Low() <= n <= f.High()
    ensures Meaningful(Only(n), f) && Meaningful(Any(), f)
  {
    OnlyIs(n, f, n);
    AnyIs(f, n);
  }

  lemma FirstOrMondayProper()
    ensures Proper(FirstOrMonday())
  {
    OnlyProper(0, Minute);
    OnlyProper(0, Hour);
    OnlyProper(1, DayOfMonth);
    OnlyProper(1, Month);
    OnlyProper(1, DayOfWeek);
    FieldsProper(Only(0), Only(0), Only(1), Any(), Only(1));
  }

  lemma FirstOrMondayLists(minute: nat, hour: nat, day: nat, month: nat, weekday: nat)
    requires 1 <= month <= 12
    ensures ListsTime(FirstOrMonday(), minute, hour, day, month, weekday) <==>
              hour == 0 && minute == 0 && (day == 1 || weekday == 1)
  {
    FieldsList(Only(0), Only(0), Only(1), Any(), Only(1), minute, hour, day, month, weekday);
    OnlyIs(0, Minute, minute);
    OnlyIs(0, Hour, hour);
    OnlyIs(1, DayOfMonth, day);
    AnyIs(Month, month);
    OnlyIs(1, DayOfWeek, weekday);
    OnlyIsRestricted(1);
  }

  lemma FirstOrMondayMatches(s: Schedule, d: Date, hour: nat, minute: nat)
    requires Denotes(s, FirstOrMonday()) && Valid(d) && hour < 24 && minute < 60
    ensures Matches(s, At(d, hour, minute)) <==> hour == 0 && minute == 0 && (d.day == 1 || Weekday(d) == 1)
  {
    DenotedFires(s, FirstOrMonday(), d, hour, minute);
    FirstOrMondayLists(minute, hour, d.day, d.month, Weekday(d));
  }

  /** `0 0 1 * 1` fires at midnight on the first of every month and on every Monday. */
  lemma FirstOfMonthOrMonday() returns (s: Schedule)
    ensures Parse("0 0 1 * 1") == Ok(s) && Denotes(s, FirstOrMonday())
    ensures forall d, hour: nat, minute: nat :: Valid(d) && hour < 24 && minute < 60 ==>
              (Matches(s, At(d, hour, minute)) <==> hour == 0 && minute == 0 && (d.day == 1 || Weekday(d) == 1))
  {
    FirstOrMondayText();
    FirstOrMondayProper();
    PrintedExpression(FirstOrMonday());
    s := Parse(PrintExpression(FirstOrMonday())).value;
    forall d, hour: nat, minute: nat | Valid(d) && hour < 24 && minute < 60
      ensures Matches(s, At(d, hour, minute)) <==> hour == 0 && minute == 0 && (d.day == 1 || Weekday(d) == 1)
    {
      FirstOrMondayMatches(s, d, hour, minute);
    }
  }

  lemma NextMinuteIsFirst(s: Schedule, after: nat)
    requires Matches(s, after + 1)
    ensures Preview(s, after, 1) == [after + 1]
  {
    PreviewExact(s, after, 1);
  }

  lemma JuneFollowsMay(may: Date, june: Date)
    requires may == Date(2024, 5, 31) && june == Date(2024, 6, 1)
    ensures Valid(may) && Valid(june) && At(june, 0, 0) == At(may, 23, 59) + 1
  {
    OrdinalNextDay(may);
  }

  lemma JuneIsFirst(s: Schedule, after: nat, june: Date)
    requires Denotes(s, FirstOrMonday()) && Valid(june) && june.day == 1 && At(june, 0, 0) == after + 1
    ensures Preview(s, after, 1) == [At(june, 0, 0)]
  {
    FirstOrMondayMatches(s, june, 0, 0);
    NextMinuteIsFirst(s, after);
  }

  /** From 23:59 on Friday 31 May 2024 its first run is a minute later, on Saturday 1 June. */
  lemma FirstOfJune() returns (s: Schedule, may: Date, june: Date)
    ensures Parse("0 0 1 * 1") == Ok(s) && may == Date(2024, 5, 31) && june == Date(2024, 6, 1)
    ensures Valid(may) && Valid(june) && Preview(s, At(may, 23, 59), 1) == [At(june, 0, 0)]
  {
    s := FirstOfMonthOrMonday();
    may, june := Date(2024, 5, 31), Date(2024, 6, 1);
    JuneFollowsMay(may, june);
    JuneIsFirst(s, At(may, 23, 59), june);
  }

  lemma SaturdayIs(june: Date, before: nat)
    requires june == Date(2024, 6, 1) && before == DaysBeforeYear(2024)
    ensures Valid(june) && Ordinal(june) == before + 152
  {
    MonthLengths(2024);
    assert DaysBeforeMonth(2024, 4) == DaysBeforeMonth(2024, 3) + 31;
    assert DaysBeforeMonth(2024, 5) == DaysBeforeMonth(2024, 4) + 30;
    assert DaysBeforeMonth(2024, 6) == DaysBeforeMonth(2024, 5) + 31;
  }

  /** That Saturday is no Monday: the day of the month alone makes it fire. */
  lemma FirstOfJuneIsSaturday(june: Date)
    requires june == Date(2024, 6, 1)
    ensures Valid(june) && Weekday(june) == 6
  {
    SaturdayIs(june, DaysBeforeYear(2024));
    DaysBefore2024(2024);
  }

  // ----- presets

  /** The times of day a preset fires at, and the days. */
  predicate PresetTimes(preset: string, hour: nat, minute: nat) {
    minute == 0 && (preset == "@hourly" || hour == 0)
  }

  predicate PresetDays(preset: string, day: nat, month: nat, weekday: nat) {
    && (preset == "@weekly" ==> weekday == 0)
    && (OnFirst(preset) ==> day == 1)
    && (InJanuary(preset) ==> month == 1)
  }

  predicate OnFirst(preset: string) {
    preset == "@monthly" || InJanuary(preset)
  }

  predicate InJanuary(preset: string) {
    preset == "@yearly" || preset == "@annually"
  }

  const PRESET_NAMES: seq<string> :=
    ["@hourly", "@daily", "@midnight", "@weekly", "@monthly", "@yearly", "@annually"]

  /** The tree a preset stands for. */
  function PresetFields(preset: string): seq<seq<Piece>> {
    [Only(0), OnlyIf(preset != "@hourly", 0), OnlyIf(OnFirst(preset), 1), OnlyIf(InJanuary(preset), 1),
     OnlyIf(preset == "@weekly", 0)]
  }

  lemma PresetText(preset: string)
    requires preset in PRESET_NAMES
    ensures preset in PRESETS && PRESETS[preset] == PrintExpression(PresetFields(preset))
  {
    var f := PresetFields(preset);
    OnlyText(0);
    OnlyText(1);
    FiveFields(f[0], f[1], f[2], f[3], f[4]);
    assert f == [f[0], f[1], f[2], f[3], f[4]];
    PresetIs(preset, PrintField(f[1]), PrintField(f[2]), PrintField(f[3]), PrintField(f[4]));
  }

  lemma PresetIs(preset: string, hour: string, day: string, month: string, weekday: string)
    requires preset in PRESET_NAMES && hour == (if preset == "@hourly" then "*" else "0")
    requires day == (if OnFirst(preset) then "1" else "*")
    requires month == (if InJanuary(preset) then "1" else "*")
    requires weekday == (if preset == "@weekly" then "0" else "*")
    ensures preset in PRESETS && PRESETS[preset] == "0" + " " + (hour + " " + (day + " " + (month + " " + weekday)))
  {
  }

  /** A field that a preset fixes, or leaves open. */
  function OnlyIf(fixed: bool, n: nat): seq<Piece> {
    if fixed then Only(n) else Any()
  }

  lemma OnlyIfIs(fixed: bool, n: nat, f: Field, v: int)
    requires f.Low() <= n <= f.High() && f.Low() <= v <= f.High()
    ensures Meaningful(OnlyIf(fixed, n), f) && (InField(v, OnlyIf(fixed, n), f) <==> fixed ==> v == n)
  {
    OnlyIs(n, f, v);
    AnyIs(f, v);
  }

  lemma PresetLists(preset: string, minute: nat, hour: nat, day: nat, month: nat, weekday: nat)
    requires minute < 60 && hour < 24 && 1 <= day <= 31 && 1 <= month <= 12 && weekday < 7
    ensures Proper(PresetFields(preset))
    ensures ListsTime(PresetFields(preset), minute, hour, day, month, weekday) <==>
              PresetTimes(preset, hour, minute) && PresetDays(preset, day, month, weekday)
  {
    var monthly, yearly := OnFirst(preset), InJanuary(preset);
    OnlyIs(0, Minute, minute);
    OnlyIfIs(preset != "@hourly", 0, Hour, hour);
    OnlyIfIs(monthly, 1, DayOfMonth, day);
    OnlyIfIs(yearly, 1, Month, month);
    OnlyIfIs(preset == "@weekly", 0, DayOfWeek, weekday);
    OnlyIsRestricted(0);
    var b, c := OnlyIf(preset != "@hourly", 0), OnlyIf(monthly, 1);
    var d, e := OnlyIf(yearly, 1), OnlyIf(preset == "@weekly", 0);
    FieldsProper(Only(0), b, c, d, e);
    FieldsList(Only(0), b, c, d, e, minute, hour, day, month, weekday);
    OneDayField(preset);
  }

  /** No preset restricts both day fields. */
  lemma OneDayField(preset: string)
    ensures !(OnFirst(preset) && preset == "@weekly")
  {
  }

  /** A text and the expression it stands for, itself or the preset's, have the same schedule. */
  lemma StandsFor(text: string, fields: seq<seq<Piece>>)
    requires |fields| == 5 && forall i :: 0 <= i < 5 ==> fields[i] != []
    requires Text.Fold(Text.Strip(text)) in PRESETS
    requires PRESETS[Text.Fold(Text.Strip(text))] == PrintExpression(fields)
    ensures Parse(text) == Parse(PrintExpression(fields))
  {
    PrintedWords(fields);
    PresetsStartWithAt(Text.Fold(Text.Strip(text)));
  }

  /**
   A preset, in any case and with white space around it, is accepted and fires on the hour, or at midnight
   on every day, every Sunday, the first of every month, or the first of January.
   */
  lemma PresetMeaning(text: string, preset: string, d: Date, hour: nat, minute: nat)
    requires Text.Fold(Text.Strip(text)) == preset && preset in PRESET_NAMES
    requires Valid(d) && hour < 24 && minute < 60
    ensures var r := Parse(text);
            && r.Ok?
            && (Matches(r.value, At(d, hour, minute)) <==>
                 PresetTimes(preset, hour, minute) && PresetDays(preset, d.day, d.month, Weekday(d)))
  {
    var fields := PresetFields(preset);
    PresetText(preset);
    PresetLists(preset, minute, hour, d.day, d.month, Weekday(d));
    StandsFor(text, fields);
    FiresAsWritten(fields, d, hour, minute);
  }

  /** There are no other presets. */
  lemma NoOtherPresets(key: string)
    ensures key in PRESETS <==> key in PRESET_NAMES
  {
  }

  // ----- white space

  lemma NotAPresetText(text: string, parts: seq<string>)
    requires Text.Words(text) == parts && parts != [] && parts[0] != "" && parts[0][0] != '@'
    ensures Text.Strip(text) != "" && Text.Fold(Text.Strip(text)) !in PRESETS
    ensures Text.Words(Text.Strip(text)) == parts
  {
    var stripped := Text.Strip(text);
    Text.WordsOfStrip(text);
    Text.StripTrimmed(text);
    assert stripped != "";
    Text.FirstWordStarts(stripped);
    NotAPreset(stripped);
  }

  lemma ParsedFromWords(text: string, parts: seq<string>)
    requires Text.Strip(text) != "" && Text.Fold(Text.Strip(text)) !in PRESETS
    requires Text.Words(Text.Strip(text)) == parts && |parts| == 5
    ensures Parse(text) == ParseParts(Text.Strip(text), parts)
  {
  }

  lemma OnlyTextDiffers(raw: string, plain: string, parts: seq<string>)
    requires |parts| == 5
    ensures match ParseParts(plain, parts)
            case Err(e) => ParseParts(raw, parts) == Err(e)
            case Ok(s) => ParseParts(raw, parts) == Ok(s.(expression := raw))
  {
  }

  /** The fields may be laid out with any white space; only the stored text shows it. */
  lemma LayoutIrrelevant(fields: seq<seq<Piece>>, gaps: seq<string>, end: string)
    requires |fields| == 5 && forall i :: 0 <= i < 5 ==> fields[i] != []
    requires Text.Gaps(gaps, PrintFields(fields), end)
    ensures var text := Text.Laid(gaps, PrintFields(fields)) + end;
            match Parse(PrintExpression(fields))
            case Err(e) => Parse(text) == Err(e)
            case Ok(s) => Parse(text) == Ok(s.(expression := Text.Strip(text)))
  {
    var parts, plain := PrintFields(fields), PrintExpression(fields);
    var text := Text.Laid(gaps, parts) + end;
    Text.WordsLaid(gaps, parts, end);
    FieldText(fields[0]);
    NotAPresetText(text, parts);
    PrintedWords(fields);
    ParsedFromWords(text, parts);
    ParsedFromWords(plain, parts);
    OnlyTextDiffers(Text.Strip(text), plain, parts);
  }
}
