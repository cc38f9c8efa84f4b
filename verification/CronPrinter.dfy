/**
 A printer for cron expressions: numbers, names, ranges and steps, with their meaning stated on the
 syntax tree. The parser reads every printed expression back to exactly that meaning, and rejects
 exactly the trees that have none.
 */
module CronPrinter {
  import opened Wrappers
  import opened Sequences
  import opened Text
  import opened Cron

  predicate IsLetter(c: char) { 'a' <= c <= 'z' || 'A' <= c <= 'Z' }

  predicate IsLetters(s: string) { s != "" && forall c :: c in s ==> IsLetter(c) }

  /** A word of letters, in any case. */
  type Letters = s: string | IsLetters(s) witness "mon"

  datatype Value = Number(n: nat) | Name(word: Letters)

  datatype Base = Star | One(value: Value) | Span(first: Value, last: Value)

  /** One comma piece; `Every(n)` is the bare `/n`. */
  datatype Piece = Piece(base: Base, step: Option<nat>) | Every(n: nat)

  function PrintValue(v: Value): string {
    match v
    case Number(n) => Digits(n)
    case Name(word) => word
  }

  function PrintBase(b: Base): string {
    match b
    case Star => "*"
    case One(v) => PrintValue(v)
    case Span(first, last) => PrintValue(first) + "-" + PrintValue(last)
  }

  function PrintPiece(p: Piece): string {
    match p
    case Piece(base, None) => PrintBase(base)
    case Piece(base, Some(n)) => PrintBase(base) + "/" + Digits(n)
    case Every(n) => "/" + Digits(n)
  }

  function PrintPieces(ps: seq<Piece>): (texts: seq<string>)
    ensures |texts| == |ps| && forall i :: 0 <= i < |ps| ==> texts[i] == PrintPiece(ps[i])
  {
    seq(|ps|, i requires 0 <= i < |ps| => PrintPiece(ps[i]))
  }

  function PrintField(ps: seq<Piece>): string { Join(PrintPieces(ps), ',') }

  function PrintFields(fields: seq<seq<Piece>>): (texts: seq<string>)
    ensures |texts| == |fields| && forall i :: 0 <= i < |fields| ==> texts[i] == PrintField(fields[i])
  {
    seq(|fields|, i requires 0 <= i < |fields| => PrintField(fields[i]))
  }

  function PrintExpression(fields: seq<seq<Piece>>): string { Join(PrintFields(fields), ' ') }

  // ----- meaning on the tree

  /** A value a field admits: a number in its range, Sunday also as 7, or one of its names. */
  function Admitted(v: Value, f: Field): Option<int> {
    match v
    case Number(n) =>
      if f.DayOfWeek? && n == 7 then Some(0)
      else if f.Low() <= n <= f.High() then Some(n)
      else None
    case Name(word) => NamedValue(Fold(word), f)
  }

  function BaseMeaning(b: Base, step: nat, f: Field): (r: Option<Progression>)
    ensures r.Some? ==> r.value.step >= 1
  {
    if step < 1 then None
    else
      match b
      case Star => Some(Progression(f.Low(), f.High(), step))
      case One(v) =>
        (match Admitted(v, f)
         case None => None
         case Some(x) => Some(Progression(x, x, step)))
      case Span(first, last) =>
        match (Admitted(first, f), Admitted(last, f))
        case (Some(x), Some(y)) => if x <= y then Some(Progression(x, y, step)) else None
        case _ => None
  }

  function Meaning(p: Piece, f: Field): (r: Option<Progression>)
    ensures r.Some? ==> r.value.step >= 1
  {
    match p
    case Piece(base, None) => BaseMeaning(base, 1, f)
    case Piece(base, Some(n)) => BaseMeaning(base, n, f)
    case Every(n) => BaseMeaning(Star, n, f)
  }

  ghost predicate Meaningful(ps: seq<Piece>, f: Field) {
    ps != [] && forall i :: 0 <= i < |ps| ==> Meaning(ps[i], f).Some?
  }

  /** The value is reached from the piece's start in whole steps, without passing its end. */
  ghost predicate Means(v: int, p: Piece, f: Field) {
    Meaning(p, f).Some? &&
    var r := Meaning(p, f).value;
    r.start <= v <= r.end && (v - r.start) % r.step == 0
  }

  ghost predicate InField(v: int, ps: seq<Piece>, f: Field) {
    exists i :: 0 <= i < |ps| && Means(v, ps[i], f)
  }

  /** Why a value is refused: a number out of range, or a word that is no name of the field. */
  function ValueRefusal(v: Value, f: Field): CronError {
    match v
    case Number(n) => OutOfRange(f, n)
    case Name(_) => NonNumeric(f)
  }

  /** Why a piece without meaning is refused: its step first, then its values from left to right. */
  function Refusal(p: Piece, f: Field): CronError {
    match p
    case Piece(_, Some(0)) => StepTooSmall(f)
    case Piece(One(v), _) => ValueRefusal(v, f)
    case Piece(Span(first, last), _) =>
      if Admitted(first, f).None? then ValueRefusal(first, f)
      else if Admitted(last, f).None? then ValueRefusal(last, f)
      else RunsBackwards(f)
    case _ => StepTooSmall(f)
  }

  /** How a piece should be read: to its meaning, or refused for its reason. */
  function Read(p: Piece, f: Field): Result<Progression, CronError> {
    match Meaning(p, f)
    case None => Err(Refusal(p, f))
    case Some(r) => Ok(r)
  }

  // ----- the parser inverts the printer

  /** The characters of a printed value. */
  predicate IsPlain(c: char) { IsDigit(c) || IsLetter(c) }

  lemma ValueText(v: Value)
    ensures PrintValue(v) != "" && forall c :: c in PrintValue(v) ==> IsPlain(c)
    ensures Strip(PrintValue(v)) == PrintValue(v)
    ensures '-' !in PrintValue(v) && '/' !in PrintValue(v) && ',' !in PrintValue(v) && ' ' !in PrintValue(v)
  {
    var s := PrintValue(v);
    assert forall c :: c in s ==> IsPlain(c);
    assert s[0] in s && s[|s| - 1] in s;
    TrimmedStrip(s);
    assert !IsPlain('-') && !IsPlain('/') && !IsPlain(',') && !IsPlain(' ');
  }

  lemma NumeralText(n: nat)
    ensures Strip(Digits(n)) == Digits(n) && Fold(Digits(n)) == Digits(n) && IsDigit(Digits(n)[0])
  {
    var s := Digits(n);
    ValueText(Number(n));
    assert IsDigit(s[0]);
    forall i | 0 <= i < |s|
      ensures Fold(s)[i] == s[i]
    {
      assert IsDigit(s[i]);
    }
    assert Fold(s) == s;
  }

  lemma {:induction false} NumeralIsNoName(names: seq<string>, key: string)
    requires key != "" && IsDigit(key[0])
    requires forall i :: 0 <= i < |names| ==> names[i] != "" && !IsDigit(names[i][0])
    ensures NameIndex(names, key) == None
  {
    if names != [] {
      NumeralIsNoName(names[1..], key);
    }
  }

  lemma NamesAreWords()
    ensures forall i :: 0 <= i < |MONTH_NAMES| ==> MONTH_NAMES[i] != "" && !IsDigit(MONTH_NAMES[i][0])
    ensures forall i :: 0 <= i < |DAY_NAMES| ==> DAY_NAMES[i] != "" && !IsDigit(DAY_NAMES[i][0])
  {
  }

  lemma NumeralNotNamed(n: nat, f: Field)
    ensures NamedValue(Fold(Strip(Digits(n))), f) == None
  {
    NumeralText(n);
    NamesAreWords();
    NumeralIsNoName(MONTH_NAMES, Digits(n));
    NumeralIsNoName(DAY_NAMES, Digits(n));
  }

  lemma NumeralToInt(n: nat, f: Field)
    ensures ToInt(Digits(n), f) == Ok(n as int)
  {
    NumeralText(n);
    DigitsRoundTrip(n);
  }

  lemma WordIsNoNumber(word: Letters, f: Field)
    ensures Strip(word) == word && ToInt(word, f) == Err(NonNumeric(f))
  {
    ValueText(Name(word));
    assert word[0] in word && !IsDigit(word[0]);
  }

  lemma PrintedValue(v: Value, f: Field)
    ensures match Admitted(v, f)
            case None => ToValue(PrintValue(v), f) == Err(ValueRefusal(v, f))
            case Some(x) => ToValue(PrintValue(v), f) == Ok(x)
  {
    match v
    case Number(n) =>
      NumeralNotNamed(n, f);
      NumeralToInt(n, f);
    case Name(word) =>
      WordIsNoNumber(word, f);
  }

  lemma SpanBody(first: Value, last: Value)
    ensures var body, i := PrintBase(Span(first, last)), |PrintValue(first)|;
            && body != "*" && body != "" && '-' in LStripDashes(body)
            && IndexOf(body, '-') == Some(i)
            && body[..i] == PrintValue(first) && body[i + 1..] == PrintValue(last)
  {
    ValueText(first);
    ValueText(last);
    var body := PrintBase(Span(first, last));
    assert body[0] == PrintValue(first)[0];
    assert PrintValue(first)[0] in PrintValue(first);
    assert body[|PrintValue(first)|] == '-';
    assert LStripDashes(body) == body;
    IndexOfFirst(PrintValue(first), '-', PrintValue(last));
  }

  lemma OneBody(v: Value)
    ensures PrintValue(v) != "" && PrintValue(v) != "*"
    ensures LStripDashes(PrintValue(v)) == PrintValue(v) && '-' !in PrintValue(v)
  {
    ValueText(v);
    assert PrintValue(v)[0] in PrintValue(v);
    assert !IsPlain('*');
  }

  lemma PrintedBase(b: Base, f: Field, step: nat)
    requires step >= 1
    ensures BodyRange(PrintBase(b), f, step) == Read(Piece(b, Some(step)), f)
  {
    match b
    case Star =>
    case One(v) =>
      OneBody(v);
      PrintedValue(v, f);
    case Span(first, last) =>
      SpanBody(first, last);
      PrintedValue(first, f);
      PrintedValue(last, f);
  }

  lemma BaseText(b: Base)
    ensures PrintBase(b) != ""
    ensures forall c :: c in PrintBase(b) ==> IsPlain(c) || c == '-' || c == '*'
  {
    match b
    case Star =>
    case One(v) => ValueText(v);
    case Span(first, last) =>
      ValueText(first);
      ValueText(last);
  }

  predicate PieceChar(c: char) { IsPlain(c) || c == '-' || c == '*' || c == '/' }

  lemma PieceText(p: Piece)
    ensures PrintPiece(p) != "" && Strip(PrintPiece(p)) == PrintPiece(p)
    ensures forall c :: c in PrintPiece(p) ==> PieceChar(c)
  {
    match p {
      case Piece(base, _) => BaseText(base);
      case Every(_) =>
    }
    var s := PrintPiece(p);
    assert s[0] in s && s[|s| - 1] in s;
    TrimmedStrip(s);
  }

  lemma PlainText(b: Base, f: Field)
    ensures PieceRange(PrintPiece(Piece(b, None)), f) == BodyRange(PrintBase(b), f, 1)
  {
    PieceText(Piece(b, None));
    BaseText(b);
    assert '/' !in PrintPiece(Piece(b, None));
  }

  lemma SteppedText(body: string, n: nat, f: Field)
    requires forall c :: c in body ==> PieceChar(c) && c != '/'
    ensures PieceRange(body + "/" + Digits(n), f) == if n < 1 then Err(StepTooSmall(f)) else BodyRange(body, f, n)
  {
    var s := body + "/" + Digits(n);
    assert forall c :: c in s ==> PieceChar(c);
    assert s[0] in s && s[|s| - 1] in s;
    TrimmedStrip(s);
    IndexOfFirst(body, '/', Digits(n));
    assert s[..|body|] == body && s[|body| + 1..] == Digits(n);
    NumeralToInt(n, f);
  }

  lemma SlashTexts(digits: string)
    ensures "" + "/" + digits == "/" + digits && "*" + "/" + digits == "*/" + digits
  {
  }

  lemma BareText(n: nat, f: Field)
    ensures PieceRange(PrintPiece(Every(n)), f) == if n < 1 then Err(StepTooSmall(f)) else BodyRange("*", f, n)
  {
    SlashTexts(Digits(n));
    SteppedText("", n, f);
  }

  lemma NoStepIsOne(b: Base, f: Field)
    ensures Read(Piece(b, None), f) == Read(Piece(b, Some(1)), f)
  {
  }

  /** A printed piece is read back to its meaning, or refused for its reason when it has none. */
  lemma PrintedPiece(p: Piece, f: Field)
    ensures PieceRange(PrintPiece(p), f) == Read(p, f)
  {
    match p
    case Piece(base, None) =>
      PlainText(base, f);
      NoStepIsOne(base, f);
      PrintedBase(base, f, 1);
    case Piece(base, Some(n)) =>
      BaseText(base);
      SteppedText(PrintBase(base), n, f);
      if n >= 1 {
        PrintedBase(base, f, n);
      }
    case Every(n) =>
      BareText(n, f);
  }

  /** A blank entry between commas is refused, and with it the field. */
  lemma BlankEntry(part: string, f: Field, i: nat)
    requires i < |Split(part, ',')| && Strip(Split(part, ',')[i]) == ""
    ensures PieceRange(Split(part, ',')[i], f) == Err(EmptyEntry(f)) && FieldValues(part, f).Err?
    ensures i == 0 ==> FieldValues(part, f) == Err(EmptyEntry(f))
  {
    var pieces := Split(part, ',');
    FieldMeaning(part, f);
    assert pieces[i] in pieces;
    if i == 0 {
      assert pieces[..1][..0] == [] && pieces[..1][0] == pieces[0];
      UnionError(pieces, 1, f);
    }
  }

  // ----- names

  lemma {:induction false} NameIndexFinds(names: seq<string>, key: string, i: nat)
    requires i < |names| && names[i] == key && key !in names[..i]
    ensures NameIndex(names, key) == Some(i)
  {
    if i > 0 {
      assert names[0] in names[..i];
      assert names[1..][..i - 1] == names[..i][1..];
      NameIndexFinds(names[1..], key, i - 1);
    }
  }

  lemma NamesDiffer()
    ensures Distinct(MONTH_NAMES) && Distinct(DAY_NAMES)
  {
  }

  /** A month's name, in any case, means its number: "jan" and "JAN" alike are 1. */
  lemma MonthByName(word: Letters, i: nat)
    requires i < 12 && Fold(word) == MONTH_NAMES[i]
    ensures Admitted(Name(word), Month) == Admitted(Number(i + 1), Month) == Some(i + 1)
  {
    NamesDiffer();
    NameIndexFinds(MONTH_NAMES, Fold(word), i);
  }

  /** A weekday's name, in any case, means its number from Sunday 0. */
  lemma DayByName(word: Letters, i: nat)
    requires i < 7 && Fold(word) == DAY_NAMES[i]
    ensures Admitted(Name(word), DayOfWeek) == Admitted(Number(i), DayOfWeek) == Some(i)
  {
    NamesDiffer();
    NameIndexFinds(DAY_NAMES, Fold(word), i);
  }

  lemma {:induction false} NoNameFound(names: seq<string>, key: string)
    ensures NameIndex(names, key).Some? <==> key in names
  {
    if names != [] {
      NoNameFound(names[1..], key);
      assert names == [names[0]] + names[1..];
    }
  }

  /** Only months have month names and only weekdays weekday names; any other word is refused. */
  lemma OtherWords(word: Letters, f: Field)
    ensures Admitted(Name(word), f).Some? <==>
              (f == Month && Fold(word) in MONTH_NAMES) || (f == DayOfWeek && Fold(word) in DAY_NAMES)
  {
    NoNameFound(MONTH_NAMES, Fold(word));
    NoNameFound(DAY_NAMES, Fold(word));
  }

  /**
   A range of weekday names, in any case, is the range of their numbers, and is refused exactly when it
   runs backwards from Sunday 0: `mon-fri` is Monday to Friday, `sat-sun` is refused.
   */
  lemma NamedRange(first: Letters, last: Letters, i: nat, j: nat)
    requires i < 7 && j < 7 && Fold(first) == DAY_NAMES[i] && Fold(last) == DAY_NAMES[j]
    ensures var r := PieceRange(first + "-" + last, DayOfWeek);
            (r.Ok? <==> i <= j) && (r.Ok? ==> r.value == Progression(i, j, 1))
  {
    DayByName(first, i);
    DayByName(last, j);
    PrintedPiece(Piece(Span(Name(first), Name(last)), None), DayOfWeek);
  }

  lemma StarStep(n: nat, f: Field)
    ensures PieceRange("*/" + Digits(n), f) == if n < 1 then Err(StepTooSmall(f)) else BodyRange("*", f, n)
  {
    SlashTexts(Digits(n));
    SteppedText("*", n, f);
  }

  lemma SignedText(n: nat, sign: char)
    requires sign in "+-"
    ensures Strip([sign] + Digits(n)) == [sign] + Digits(n)
    ensures ParseInt([sign] + Digits(n)) == Some(if sign == '-' then -(n as int) else n as int)
  {
    var s := [sign] + Digits(n);
    assert s[1..] == Digits(n) && s[|s| - 1] == Digits(n)[|Digits(n)| - 1];
    assert IsDigit(Digits(n)[|Digits(n)| - 1]) && !IsDigit(sign);
    TrimmedStrip(s);
    DigitsRoundTrip(n);
  }

  /** A numeral may carry a sign: a plus changes nothing, and a minus makes a step too small. */
  lemma SignedNumerals(n: nat, f: Field)
    ensures ToInt("+" + Digits(n), f) == Ok(n as int)
    ensures ToInt("-" + Digits(n), f) == Ok(-(n as int))
  {
    SignedText(n, '+');
    SignedText(n, '-');
  }

  /** A bare `/n` is read exactly as a star with that step, refusals included. */
  lemma BareStep(n: nat, f: Field)
    ensures PieceRange("/" + Digits(n), f) == PieceRange("*/" + Digits(n), f)
    ensures PieceRange("/" + Digits(n), f) ==
            if n < 1 then Err(StepTooSmall(f)) else Ok(Progression(f.Low(), f.High(), n))
  {
    BareText(n, f);
    StarStep(n, f);
  }

  lemma PrintedFieldSplits(ps: seq<Piece>)
    requires ps != []
    ensures Split(PrintField(ps), ',') == PrintPieces(ps)
  {
    var texts := PrintPieces(ps);
    forall t | t in texts
      ensures ',' !in t
    {
      var i :| 0 <= i < |texts| && t == texts[i];
      PieceText(ps[i]);
    }
    SplitJoin(texts, ',');
  }

  lemma PrintedPieceValues(p: Piece, f: Field)
    ensures PieceRange(PrintPiece(p), f).Ok? <==> Meaning(p, f).Some?
    ensures PieceValues(PrintPiece(p), f).Ok? <==> Meaning(p, f).Some?
    ensures Meaning(p, f).Some? ==> PieceValues(PrintPiece(p), f).value == Meaning(p, f).value.Values()
  {
    PrintedPiece(p, f);
    PieceSound(PrintPiece(p), f);
  }

  lemma PrintedFieldAccepted(ps: seq<Piece>, f: Field)
    requires ps != []
    ensures FieldValues(PrintField(ps), f).Ok? <==> Meaningful(ps, f)
  {
    var texts := PrintPieces(ps);
    PrintedFieldSplits(ps);
    FieldMeaning(PrintField(ps), f);
    forall i | 0 <= i < |ps|
      ensures PieceRange(texts[i], f).Ok? <==> Meaning(ps[i], f).Some?
      ensures texts[i] in texts
    {
      PrintedPieceValues(ps[i], f);
    }
  }

  lemma ReachedByPrinted(v: int, p: Piece, f: Field)
    ensures Means(v, p, f) <==> PieceValues(PrintPiece(p), f).Ok? && v in PieceValues(PrintPiece(p), f).value
  {
    PrintedPieceValues(p, f);
    if Meaning(p, f).Some? {
      Reached(v, Meaning(p, f).value);
    }
  }

  lemma Reached(v: int, r: Progression)
    requires r.step >= 1
    ensures v in r.Values() <==> r.start <= v <= r.end && (v - r.start) % r.step == 0
  {
  }

  lemma DenotedByPrinted(v: int, ps: seq<Piece>, f: Field)
    ensures v in Denoted(PieceSet(PrintPieces(ps)), f) <==> InField(v, ps, f)
  {
    var texts := PrintPieces(ps);
    forall i | 0 <= i < |ps|
      ensures Means(v, ps[i], f) <==> PieceValues(texts[i], f).Ok? && v in PieceValues(texts[i], f).value
      ensures texts[i] in PieceSet(texts)
    {
      ReachedByPrinted(v, ps[i], f);
      assert texts[i] in texts;
    }
  }

  lemma {:induction false} UnionRefused(ps: seq<Piece>, f: Field, i: nat)
    requires i < |ps| && Meaning(ps[i], f).None? && forall j :: 0 <= j < i ==> Meaning(ps[j], f).Some?
    ensures UnionOfPieces(PrintPieces(ps)[..i], f).Ok?
    ensures UnionOfPieces(PrintPieces(ps)[..i + 1], f) == Err(Refusal(ps[i], f))
  {
    var texts := PrintPieces(ps);
    UnionMeaning(texts[..i], f);
    forall p | p in texts[..i]
      ensures PieceRange(p, f).Ok?
    {
      var j :| 0 <= j < i && texts[j] == p;
      PrintedPiece(ps[j], f);
    }
    PrintedPiece(ps[i], f);
    UnionStep(texts, i, f, UnionOfPieces(texts[..i], f).value);
  }

  /** A printed field is refused for the first of its pieces without a meaning. */
  lemma RefusedField(ps: seq<Piece>, f: Field, i: nat)
    requires i < |ps| && Meaning(ps[i], f).None? && forall j :: 0 <= j < i ==> Meaning(ps[j], f).Some?
    ensures FieldValues(PrintField(ps), f) == Err(Refusal(ps[i], f))
  {
    PrintedFieldSplits(ps);
    UnionRefused(ps, f, i);
    UnionStaysRefused(PrintPieces(ps), i, f, Refusal(ps[i], f));
    FieldOfSplit(PrintField(ps), PrintPieces(ps), f, Refusal(ps[i], f));
  }

  lemma UnionStaysRefused(texts: seq<string>, i: nat, f: Field, e: CronError)
    requires i < |texts| && UnionOfPieces(texts[..i + 1], f) == Err(e)
    ensures UnionOfPieces(texts, f) == Err(e)
  {
    UnionError(texts, i + 1, f);
  }

  lemma FieldOfSplit(part: string, texts: seq<string>, f: Field, e: CronError)
    requires Split(part, ',') == texts && UnionOfPieces(texts, f) == Err(e)
    ensures FieldValues(part, f) == Err(e)
  {
  }

  /** A printed field is accepted exactly when every piece means something, and denotes their union. */
  lemma PrintedField(ps: seq<Piece>, f: Field)
    requires ps != []
    ensures FieldValues(PrintField(ps), f).Ok? <==> Meaningful(ps, f)
    ensures Meaningful(ps, f) ==>
              forall v :: v in FieldValues(PrintField(ps), f).value <==> InField(v, ps, f)
  {
    PrintedFieldAccepted(ps, f);
    PrintedFieldSplits(ps);
    FieldMeaning(PrintField(ps), f);
    forall v
      ensures v in Denoted(PieceSet(PrintPieces(ps)), f) <==> InField(v, ps, f)
    {
      DenotedByPrinted(v, ps, f);
    }
  }

  function Ones(values: seq<nat>): (ps: seq<Piece>)
    ensures |ps| == |values| && forall i :: 0 <= i < |ps| ==> ps[i] == Piece(One(Number(values[i])), None)
  {
    seq(|values|, i requires 0 <= i < |values| => Piece(One(Number(values[i])), None))
  }

  lemma OneMeansItself(n: nat, f: Field)
    requires f.Low() <= n <= f.High()
    ensures Meaning(Piece(One(Number(n)), None), f).Some?
    ensures forall v :: Means(v, Piece(One(Number(n)), None), f) <==> v == n
  {
    assert Meaning(Piece(One(Number(n)), None), f) == Some(Progression(n, n, 1));
  }

  lemma OnesMean(values: seq<nat>, f: Field, v: nat)
    requires values != [] && forall i :: 0 <= i < |values| ==> f.Low() <= values[i] <= f.High()
    ensures Meaningful(Ones(values), f) && (InField(v, Ones(values), f) <==> v in values)
  {
    var ps := Ones(values);
    forall i | 0 <= i < |ps|
      ensures Meaning(ps[i], f).Some? && (Means(v, ps[i], f) <==> v == values[i])
    {
      OneMeansItself(values[i], f);
    }
  }

  /** Any non-empty set of in-range values, written as a comma list in any order, parses back to itself. */
  lemma CommaListRoundTrip(values: seq<nat>, f: Field)
    requires values != [] && forall i :: 0 <= i < |values| ==> f.Low() <= values[i] <= f.High()
    ensures FieldValues(PrintField(Ones(values)), f).Ok?
    ensures forall v: nat :: v in FieldValues(PrintField(Ones(values)), f).value <==> v in values
  {
    OnesMean(values, f, 0);
    PrintedField(Ones(values), f);
    forall v: nat
      ensures InField(v, Ones(values), f) <==> v in values
    {
      OnesMean(values, f, v);
    }
  }

  /** Sunday written 7 becomes 0 before the range is built: `0-7` is Sunday alone. */
  lemma SevenInRange(first: nat)
    requires first <= 6
    ensures Meaning(Piece(Span(Number(first), Number(7)), None), DayOfWeek) ==
            if first == 0 then Some(Progression(0, 0, 1)) else None
    ensures PieceRange(PrintPiece(Piece(Span(Number(first), Number(7)), None)), DayOfWeek).Ok? <==> first == 0
  {
    PrintedPiece(Piece(Span(Number(first), Number(7)), None), DayOfWeek);
  }

  lemma {:induction false} JoinText(parts: seq<string>, sep: char)
    requires parts != [] && forall i :: 0 <= i < |parts| ==> parts[i] != ""
    ensures Join(parts, sep) != "" && Join(parts, sep)[0] == parts[0][0]
    ensures Join(parts, sep)[|Join(parts, sep)| - 1] == parts[|parts| - 1][|parts[|parts| - 1]| - 1]
    ensures forall c :: c in Join(parts, sep) ==> c == sep || exists p :: p in parts && c in p
  {
    assert parts[0] in parts;
    if |parts| > 1 {
      var rest := parts[1..];
      JoinText(rest, sep);
      assert Join(parts, sep) == parts[0] + [sep] + Join(rest, sep);
    }
  }

  lemma FieldText(ps: seq<Piece>)
    requires ps != []
    ensures IsWord(PrintField(ps)) && PrintField(ps)[0] != '@'
    ensures PrintField(ps) == "*" <==> ps == [Piece(Star, None)]
  {
    var texts := PrintPieces(ps);
    forall i | 0 <= i < |texts|
      ensures texts[i] != "" && forall c :: c in texts[i] ==> PieceChar(c)
    {
      PieceText(ps[i]);
    }
    JoinText(texts, ',');
    assert texts[0][0] in texts[0];
    FieldIsStar(ps);
  }

  lemma StarText(p: Piece)
    ensures PrintPiece(p) == "*" <==> p == Piece(Star, None)
  {
    match p
    case Piece(Star, _) =>
    case Piece(One(v), _) =>
      OneBody(v);
      assert PrintPiece(p)[0] == PrintValue(v)[0] && PrintValue(v)[0] in PrintValue(v);
      ValueText(v);
    case Piece(Span(first, last), _) =>
      ValueText(first);
      assert |PrintPiece(p)| > 1;
    case Every(n) =>
      assert PrintPiece(p)[0] == '/';
  }

  lemma FieldIsStar(ps: seq<Piece>)
    requires ps != []
    ensures PrintField(ps) == "*" <==> ps == [Piece(Star, None)]
  {
    PieceText(ps[0]);
    StarText(ps[0]);
    assert |ps| > 1 ==> |PrintField(ps)| > 1;
  }

  /** The sets a tree denotes, field by field. */
  ghost predicate Denotes(s: Schedule, fields: seq<seq<Piece>>)
    requires |fields| == 5
  {
    && (forall v :: v in s.minutes <==> InField(v, fields[0], Minute))
    && (forall v :: v in s.hours <==> InField(v, fields[1], Hour))
    && (forall v :: v in s.daysOfMonth <==> InField(v, fields[2], DayOfMonth))
    && (forall v :: v in s.months <==> InField(v, fields[3], Month))
    && (forall v :: v in s.daysOfWeek <==> InField(v, fields[4], DayOfWeek))
    && (s.dayFieldsAreOr <==> fields[2] != [Piece(Star, None)] && fields[4] != [Piece(Star, None)])
  }

  lemma NotAPreset(raw: string)
    requires raw != "" && raw[0] != '@'
    ensures Fold(raw) !in PRESETS
  {
    assert Fold(raw)[0] == LowerChar(raw[0]) != '@';
    if Fold(raw) in PRESETS {
      PresetsStartWithAt(Fold(raw));
    }
  }

  lemma PrintedWords(fields: seq<seq<Piece>>)
    requires fields != [] && forall i :: 0 <= i < |fields| ==> fields[i] != []
    ensures var raw := PrintExpression(fields);
            && raw != "" && Strip(raw) == raw && Fold(raw) !in PRESETS && Words(raw) == PrintFields(fields)
  {
    var parts := PrintFields(fields);
    forall i | 0 <= i < |parts|
      ensures IsWord(parts[i]) && parts[i][0] != '@'
    {
      FieldText(fields[i]);
    }
    WordsJoin(parts);
    JoinText(parts, ' ');
    var raw := PrintExpression(fields);
    var last := parts[|parts| - 1];
    assert last[|last| - 1] in last && parts[0][0] in parts[0];
    TrimmedStrip(raw);
    NotAPreset(raw);
  }

  /** The whole language: a printed expression is accepted exactly when every field has a meaning. */
  lemma PrintedExpression(fields: seq<seq<Piece>>)
    requires |fields| == 5 && forall i :: 0 <= i < 5 ==> fields[i] != []
    ensures var r := Parse(PrintExpression(fields));
            && (r.Ok? <==> forall i :: 0 <= i < 5 ==> Meaningful(fields[i], FIELDS[i]))
            && (r.Ok? ==> Denotes(r.value, fields) && r.value.expression == PrintExpression(fields))
  {
    PrintedWords(fields);
    AllFive(fields);
    PrintedField(fields[0], Minute);
    PrintedField(fields[1], Hour);
    PrintedField(fields[2], DayOfMonth);
    PrintedField(fields[3], Month);
    PrintedField(fields[4], DayOfWeek);
    FieldText(fields[2]);
    FieldText(fields[4]);
  }

  /** An expression needs five fields, no fewer and no more, and a blank one is none. */
  lemma FieldCount(fields: seq<seq<Piece>>, blank: string)
    requires fields != [] && |fields| != 5 && forall i :: 0 <= i < |fields| ==> fields[i] != []
    requires Strip(blank) == ""
    ensures Parse(PrintExpression(fields)) == Err(WrongFieldCount(|fields|))
    ensures Parse(blank) == Err(ExpressionRequired)
  {
    PrintedWords(fields);
  }

  /** An expression is refused for the first of its fields that is, as that field is. */
  lemma RefusedExpression(fields: seq<seq<Piece>>, i: nat, j: nat)
    requires |fields| == 5 && forall k :: 0 <= k < 5 ==> fields[k] != []
    requires i < 5 && forall k :: 0 <= k < i ==> Meaningful(fields[k], FIELDS[k])
    requires j < |fields[i]| && Meaning(fields[i][j], FIELDS[i]).None?
    requires forall k :: 0 <= k < j ==> Meaning(fields[i][k], FIELDS[i]).Some?
    ensures Parse(PrintExpression(fields)) == Err(Refusal(fields[i][j], FIELDS[i]))
  {
    PrintedWords(fields);
    RefusedField(fields[i], FIELDS[i], j);
    forall k | 0 <= k < i
      ensures FieldValues(PrintField(fields[k]), FIELDS[k]).Ok?
    {
      PrintedFieldAccepted(fields[k], FIELDS[k]);
    }
    FirstRefused(PrintExpression(fields), PrintFields(fields), i, Refusal(fields[i][j], FIELDS[i]));
  }

  lemma FirstRefused(raw: string, parts: seq<string>, i: nat, e: CronError)
    requires |parts| == 5 && i < 5 && FieldValues(parts[i], FIELDS[i]) == Err(e)
    requires forall k :: 0 <= k < i ==> FieldValues(parts[k], FIELDS[k]).Ok?
    ensures ParseParts(raw, parts) == Err(e)
  {
    assert FIELDS[0] == Minute && FIELDS[1] == Hour && FIELDS[2] == DayOfMonth && FIELDS[3] == Month
           && FIELDS[4] == DayOfWeek;
  }

  lemma AllFive(fields: seq<seq<Piece>>)
    requires |fields| == 5
    ensures (forall i :: 0 <= i < 5 ==> Meaningful(fields[i], FIELDS[i])) <==>
              && Meaningful(fields[0], Minute) && Meaningful(fields[1], Hour) && Meaningful(fields[2], DayOfMonth)
              && Meaningful(fields[3], Month) && Meaningful(fields[4], DayOfWeek)
  {
    assert FIELDS[0] == Minute && FIELDS[1] == Hour && FIELDS[2] == DayOfMonth && FIELDS[3] == Month
           && FIELDS[4] == DayOfWeek;
  }
}
