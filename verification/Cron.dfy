/**
 The five-field cron language: the parser, and a printer it inverts. Day-of-week 7 is turned into 0
 before a range is built, and a bare `/n` means `*` with step `n`, as in the program.
 */
module Cron {
  import opened Wrappers
  import opened Text

  predicate Between(low: int, v: int, high: int) { low <= v <= high }

  /** The integers from `low` up to `high`, both included. */
  function IntRange(low: int, high: int): set<int> {
    set v: int | low <= v <= high && Between(low, v, high)
  }

  datatype Field = Minute | Hour | DayOfMonth | Month | DayOfWeek {
    function Low(): nat {
      if DayOfMonth? || Month? then 1 else 0
    }

    function High(): nat {
      match this
      case Minute => 59
      case Hour => 23
      case DayOfMonth => 31
      case Month => 12
      case DayOfWeek => 6
    }

    /** Every value the field can take. */
    function Full(): set<int> {
      IntRange(Low(), High())
    }
  }

  const FIELDS: seq<Field> := [Minute, Hour, DayOfMonth, Month, DayOfWeek]

  const MONTH_NAMES: seq<string> :=
    ["jan", "feb", "mar", "apr", "may", "jun", "jul", "aug", "sep", "oct", "nov", "dec"]

  const DAY_NAMES: seq<string> := ["sun", "mon", "tue", "wed", "thu", "fri", "sat"]

  datatype CronError =
    | ExpressionRequired
    | WrongFieldCount(count: nat)
    | EmptyEntry(field: Field)
    | NonNumeric(field: Field)
    | StepTooSmall(field: Field)
    | OutOfRange(field: Field, number: int)
    | RunsBackwards(field: Field)
    | MatchesNothing(field: Field)

  /** What one comma piece denotes: start, start + step, ... up to end. */
  datatype Progression = Progression(start: int, end: int, step: int) {
    function Values(): set<int>
      requires step >= 1
    {
      set v | v in IntRange(start, end) && (v - start) % step == 0
    }

    predicate Within(f: Field) {
      f.Low() <= start <= end <= f.High() && step >= 1
    }
  }

  datatype Schedule = Schedule(
    expression: string,
    minutes: set<int>,
    hours: set<int>,
    daysOfMonth: set<int>,
    months: set<int>,
    daysOfWeek: set<int>,
    dayFieldsAreOr: bool)

  // ----- the parser

  function NameIndex(names: seq<string>, key: string): Option<nat> {
    if names == [] then None
    else if names[0] == key then Some(0)
    else
      match NameIndex(names[1..], key)
      case None => None
      case Some(i) => Some(i + 1)
  }

  function ToInt(text: string, f: Field): Result<int, CronError> {
    match ParseInt(Strip(text))
    case None => Err(NonNumeric(f))
    case Some(n) => Ok(n)
  }

  function NamedValue(key: string, f: Field): Option<int> {
    if f.Month? then
      match NameIndex(MONTH_NAMES, key)
      case None => None
      case Some(i) => Some(i + 1)
    else if f.DayOfWeek? then
      match NameIndex(DAY_NAMES, key)
      case None => None
      case Some(i) => Some(i)
    else None
  }

  function NumberValue(value: int, f: Field): Result<int, CronError> {
    if f.DayOfWeek? && value == 7 then Ok(0)
    else if f.Low() <= value <= f.High() then Ok(value)
    else Err(OutOfRange(f, value))
  }

  function ToValue(text: string, f: Field): Result<int, CronError> {
    match NamedValue(Fold(Strip(text)), f)
    case Some(v) => Ok(v)
    case None =>
      var value :- ToInt(text, f);
      NumberValue(value, f)
  }

  function LStripDashes(s: string): string {
    if s != "" && s[0] == '-' then LStripDashes(s[1..]) else s
  }

  function RangeOf(low: string, high: string, f: Field, step: int): Result<Progression, CronError> {
    var start :- ToValue(low, f);
    var end :- ToValue(high, f);
    if start > end then Err(RunsBackwards(f)) else Ok(Progression(start, end, step))
  }

  /** Start and end of a piece whose step has been cut off. */
  function BodyRange(body: string, f: Field, step: int): Result<Progression, CronError> {
    if body == "*" || body == "" then Ok(Progression(f.Low(), f.High(), step))
    else if '-' in LStripDashes(body) then
      match IndexOf(body, '-') {
        case None => Err(NonNumeric(f))
        case Some(i) => RangeOf(body[..i], body[i + 1..], f, step)
      }
    else
      var value :- ToValue(body, f);
      Ok(Progression(value, value, step))
  }

  function PieceRange(text: string, f: Field): Result<Progression, CronError> {
    var piece := Strip(text);
    if piece == "" then Err(EmptyEntry(f))
    else
      match IndexOf(piece, '/')
      case None => BodyRange(piece, f, 1)
      case Some(i) =>
        var step :- ToInt(piece[i + 1..], f);
        if step < 1 then Err(StepTooSmall(f)) else BodyRange(piece[..i], f, step)
  }

  lemma NameIndexBound(names: seq<string>, key: string)
    ensures NameIndex(names, key).Some? ==> NameIndex(names, key).value < |names|
  {
  }

  lemma NamedValueInRange(key: string, f: Field)
    ensures NamedValue(key, f).Some? ==> f.Low() <= NamedValue(key, f).value <= f.High()
  {
    NameIndexBound(MONTH_NAMES, key);
    NameIndexBound(DAY_NAMES, key);
  }

  lemma ToValueInRange(text: string, f: Field)
    ensures ToValue(text, f).Ok? ==> f.Low() <= ToValue(text, f).value <= f.High()
  {
    NamedValueInRange(Fold(Strip(text)), f);
  }

  lemma RangeSound(low: string, high: string, f: Field, step: int)
    requires step >= 1
    ensures RangeOf(low, high, f, step).Ok? ==> RangeOf(low, high, f, step).value.Within(f)
  {
    ToValueInRange(low, f);
    ToValueInRange(high, f);
  }

  lemma BodySound(body: string, f: Field, step: int)
    requires step >= 1
    ensures BodyRange(body, f, step).Ok? ==> BodyRange(body, f, step).value.Within(f)
  {
    ToValueInRange(body, f);
    match IndexOf(body, '-')
    case None =>
    case Some(i) => RangeSound(body[..i], body[i + 1..], f, step);
  }

  lemma PieceWithin(text: string, f: Field)
    ensures PieceRange(text, f).Ok? ==> PieceRange(text, f).value.Within(f)
  {
    var piece := Strip(text);
    BodySound(piece, f, 1);
    match IndexOf(piece, '/')
    case None =>
    case Some(i) =>
      match ToInt(piece[i + 1..], f)
      case Err(_) =>
      case Ok(step) =>
        if step >= 1 {
          BodySound(piece[..i], f, step);
        }
  }

  /** An accepted piece is a forward progression inside the field's bounds, and is not empty. */
  lemma PieceSound(text: string, f: Field)
    ensures PieceRange(text, f).Ok? ==>
              var p := PieceRange(text, f).value;
              p.Within(f) && p.start in p.Values() && p.Values() <= f.Full()
  {
    PieceWithin(text, f);
    if PieceRange(text, f).Ok? {
      ProgressionSound(PieceRange(text, f).value, f);
    }
  }

  lemma ProgressionSound(p: Progression, f: Field)
    requires p.Within(f)
    ensures p.start in p.Values() && p.Values() <= f.Full()
  {
  }

  function PieceValues(text: string, f: Field): Result<set<int>, CronError> {
    var p :- PieceRange(text, f);
    PieceSound(text, f);
    Ok(p.Values())
  }

  /** The union of the pieces, left to right; the first bad piece decides the error. */
  function UnionOfPieces(pieces: seq<string>, f: Field): Result<set<int>, CronError> {
    if pieces == [] then Ok({})
    else
      var before :- UnionOfPieces(pieces[..|pieces| - 1], f);
      var values :- PieceValues(pieces[|pieces| - 1], f);
      Ok(before + values)
  }

  function FieldValues(part: string, f: Field): Result<set<int>, CronError> {
    var values :- UnionOfPieces(Split(part, ','), f);
    if values == {} then Err(MatchesNothing(f)) else Ok(values)
  }

  lemma {:induction false} UnionError(pieces: seq<string>, n: nat, f: Field)
    requires n <= |pieces| && UnionOfPieces(pieces[..n], f).Err?
    ensures UnionOfPieces(pieces, f) == UnionOfPieces(pieces[..n], f)
    decreases |pieces| - n
  {
    if n < |pieces| {
      assert pieces[..n + 1][..n] == pieces[..n];
      UnionError(pieces, n + 1, f);
    } else {
      assert pieces[..n] == pieces;
    }
  }

  lemma UnionStep(pieces: seq<string>, i: nat, f: Field, values: set<int>)
    requires i < |pieces| && UnionOfPieces(pieces[..i], f) == Ok(values)
    ensures UnionOfPieces(pieces[..i + 1], f) ==
              match PieceValues(pieces[i], f) { case Err(e) => Err(e) case Ok(more) => Ok(values + more) }
  {
    assert pieces[..i + 1][..i] == pieces[..i];
  }

  /** The accumulating loop over the comma pieces of one field. */
  method ParseField(part: string, f: Field) returns (r: Result<set<int>, CronError>)
    ensures r == FieldValues(part, f)
  {
    var pieces := Split(part, ',');
    var values: set<int> := {};
    var i := 0;
    while i < |pieces|
      invariant 0 <= i <= |pieces|
      invariant UnionOfPieces(pieces[..i], f) == Ok(values)
    {
      UnionStep(pieces, i, f, values);
      var more := PieceValues(pieces[i], f);
      if more.Err? {
        UnionError(pieces, i + 1, f);
        r := Err(more.error);
        return;
      }
      values := values + more.value;
      i := i + 1;
    }
    assert pieces[..i] == pieces;
    r := if values == {} then Err(MatchesNothing(f)) else Ok(values);
  }

  const PRESETS: map<string, string> := map[
    "@hourly" := "0 * * * *",
    "@daily" := "0 0 * * *",
    "@midnight" := "0 0 * * *",
    "@weekly" := "0 0 * * 0",
    "@monthly" := "0 0 1 * *",
    "@yearly" := "0 0 1 1 *",
    "@annually" := "0 0 1 1 *"]

  lemma PresetsStartWithAt(key: string)
    requires key in PRESETS
    ensures key[0] == '@'
  {
  }

  function ParseParts(raw: string, parts: seq<string>): Result<Schedule, CronError>
    requires |parts| == 5
  {
    var minutes :- FieldValues(parts[0], Minute);
    var hours :- FieldValues(parts[1], Hour);
    var daysOfMonth :- FieldValues(parts[2], DayOfMonth);
    var months :- FieldValues(parts[3], Month);
    var daysOfWeek :- FieldValues(parts[4], DayOfWeek);
    Ok(Schedule(raw, minutes, hours, daysOfMonth, months, daysOfWeek, parts[2] != "*" && parts[4] != "*"))
  }

  function Parse(expression: string): Result<Schedule, CronError> {
    var stripped := Strip(expression);
    if stripped == "" then Err(ExpressionRequired)
    else
      var raw := if Fold(stripped) in PRESETS then PRESETS[Fold(stripped)] else stripped;
      var parts := Words(raw);
      if |parts| != 5 then Err(WrongFieldCount(|parts|)) else ParseParts(raw, parts)
  }

  // ----- what an accepted expression denotes

  ghost function PieceSet(pieces: seq<string>): set<string> {
    set p | p in pieces
  }

  /** The values any of the pieces denotes, whatever order or how often they are written. */
  ghost function Denoted(pieces: set<string>, f: Field): set<int> {
    set p, v | p in pieces && PieceValues(p, f).Ok? && v in PieceValues(p, f).value :: v
  }

  lemma {:induction false} UnionMeaning(pieces: seq<string>, f: Field)
    ensures UnionOfPieces(pieces, f).Ok? <==> forall p :: p in pieces ==> PieceRange(p, f).Ok?
    ensures UnionOfPieces(pieces, f).Ok? ==>
              UnionOfPieces(pieces, f).value == Denoted(PieceSet(pieces), f)
  {
    if pieces != [] {
      var front, last := pieces[..|pieces| - 1], pieces[|pieces| - 1];
      assert pieces == front + [last];
      UnionMeaning(front, f);
      assert PieceSet(pieces) == PieceSet(front) + {last};
    }
  }

  lemma DenotedBounds(pieces: seq<string>, f: Field)
    requires pieces != [] && forall p :: p in pieces ==> PieceRange(p, f).Ok?
    ensures {} < Denoted(PieceSet(pieces), f) <= f.Full()
  {
    forall p | p in pieces
      ensures PieceValues(p, f).Ok? && PieceValues(p, f).value <= f.Full()
    {
      PieceSound(p, f);
    }
    var p := pieces[0];
    PieceSound(p, f);
    assert PieceRange(p, f).value.start in PieceValues(p, f).value;
    assert PieceRange(p, f).value.start in Denoted(PieceSet(pieces), f);
  }

  /** A field is accepted exactly when each piece is, and then denotes their non-empty union. */
  lemma FieldMeaning(part: string, f: Field)
    ensures FieldValues(part, f).Ok? <==> forall p :: p in Split(part, ',') ==> PieceRange(p, f).Ok?
    ensures FieldValues(part, f).Ok? ==>
              FieldValues(part, f).value == Denoted(PieceSet(Split(part, ',')), f)
    ensures FieldValues(part, f).Ok? ==> {} < FieldValues(part, f).value <= f.Full()
  {
    var pieces := Split(part, ',');
    UnionMeaning(pieces, f);
    if UnionOfPieces(pieces, f).Ok? {
      DenotedBounds(pieces, f);
    }
  }

  /** Reordering or repeating comma pieces changes neither acceptance nor meaning. */
  lemma PieceOrderIrrelevant(part: string, other: string, f: Field)
    requires PieceSet(Split(part, ',')) == PieceSet(Split(other, ','))
    ensures FieldValues(part, f).Ok? <==> FieldValues(other, f).Ok?
    ensures FieldValues(part, f).Ok? ==> FieldValues(part, f) == FieldValues(other, f)
  {
    FieldMeaning(part, f);
    FieldMeaning(other, f);
    assert forall p :: p in Split(part, ',') <==> p in PieceSet(Split(part, ','));
    assert forall p :: p in Split(other, ',') <==> p in PieceSet(Split(other, ','));
  }

  lemma StarIsFull(f: Field)
    ensures FieldValues("*", f) == Ok(f.Full())
  {
    SplitWhole("*", ',');
    var p := Progression(f.Low(), f.High(), 1);
    assert Split("*", ',') == ["*"];
    assert PieceRange("*", f) == Ok(p);
    assert ["*"][..0] == [];
    assert p.Values() == f.Full();
    assert {} + p.Values() == p.Values();
    assert UnionOfPieces(["*"], f) == Ok(p.Values());
    assert f.Low() as int in f.Full();
  }

  /** What every accepted schedule satisfies: in-range, non-empty sets and the OR rule's guard. */
  ghost predicate WellFormed(s: Schedule) {
    && {} < s.minutes <= Minute.Full()
    && {} < s.hours <= Hour.Full()
    && {} < s.daysOfMonth <= DayOfMonth.Full()
    && {} < s.months <= Month.Full()
    && {} < s.daysOfWeek <= DayOfWeek.Full()
    && (!s.dayFieldsAreOr ==> s.daysOfMonth == DayOfMonth.Full() || s.daysOfWeek == DayOfWeek.Full())
  }

  /** With the OR flag off, at least one day field is unrestricted. */
  lemma ParseSound(expression: string)
    ensures Parse(expression).Ok? ==> WellFormed(Parse(expression).value)
  {
    if Parse(expression).Ok? {
      var stripped := Strip(expression);
      var raw := if Fold(stripped) in PRESETS then PRESETS[Fold(stripped)] else stripped;
      var parts := Words(raw);
      FieldMeaning(parts[0], Minute);
      FieldMeaning(parts[1], Hour);
      FieldMeaning(parts[2], DayOfMonth);
      FieldMeaning(parts[3], Month);
      FieldMeaning(parts[4], DayOfWeek);
      StarIsFull(DayOfMonth);
      StarIsFull(DayOfWeek);
    }
  }
}
