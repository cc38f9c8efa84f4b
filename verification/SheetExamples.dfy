/**
 Exports in the concrete: a section called `summary`, titles that differ only by case, and a renaming that
 collides.
 */
module SheetExamples {
  import opened Sequences
  import opened Reporting
  import opened SheetNames
  import Text

  // ----- concrete exports

  predicate AllSheetChars(s: string) {
    forall i :: 0 <= i < |s| ==> SheetChar(s[i])
  }

  lemma {:induction false} NothingFiltered(s: string)
    requires AllSheetChars(s)
    ensures Filter(s, c => SheetChar(c)) == s
  {
    if s != "" {
      assert s == s[..|s| - 1] + [s[|s| - 1]];
      NothingFiltered(s[..|s| - 1]);
    }
  }

  /** A short title without the forbidden characters is its own sheet name. */
  lemma OwnName(title: string)
    requires title != "" && |title| <= MAX_SHEET_NAME && AllSheetChars(title)
    ensures SheetBase(title) == title
  {
    NothingFiltered(title);
  }

  lemma OwnNumberedName(title: string, i: nat)
    requires title != "" && |title| <= MAX_SHEET_NAME - 2 && AllSheetChars(title) && 1 <= i <= 9
    ensures SheetBase(title + "_" + Text.Digits(i)) == title + "_" + Text.Digits(i)
    ensures |Text.Digits(i)| == 1
  {
    var numbered := title + "_" + Text.Digits(i);
    assert Text.Digits(i)[0] in Text.Digits(i);
    OwnName(numbered);
  }

  lemma OneSection<T>(section: ReportSection<T>)
    ensures SheetTitles([section]) == BatchTitles(section.title, |section.rows|)
  {
    assert [section][..0] == [];
    assert SheetTitles([section][..0]) == [];
  }

  lemma PiecesOver(rows: nat)
    requires rows > EXCEL_MAX_ROWS_PER_SHEET
    ensures Pieces(rows) >= 2
  {
  }

  /** A suffixed title is cut at the end if at all, so it keeps its underscore. */
  lemma SuffixedBase(title: string, suffix: string)
    requires |title| < MAX_SHEET_NAME && suffix != "" && suffix[0] == '_'
    requires AllSheetChars(title) && AllSheetChars(suffix)
    ensures SheetBase(title + suffix) == Upto(title + suffix, MAX_SHEET_NAME)
    ensures '_' in SheetBase(title + suffix)
  {
    NothingFiltered(title + suffix);
    assert Upto(title + suffix, MAX_SHEET_NAME)[|title|] == '_';
  }

  lemma SuffixedLowerCase(title: string, suffix: string)
    requires LowerCase(title) && LowerCase(suffix)
    ensures LowerCase(Upto(title + suffix, MAX_SHEET_NAME))
  {
    FoldAppend(title, suffix);
    FoldUpto(title + suffix, MAX_SHEET_NAME);
  }

  lemma NumberedSummary(title: string, i: nat)
    requires LowerCase(title) && |title| < MAX_SHEET_NAME && AllSheetChars(title)
    ensures LowerCase(SheetBase(title + "_" + Text.Digits(i))) && '_' in SheetBase(title + "_" + Text.Digits(i))
  {
    var suffix := "_" + Text.Digits(i);
    Associative(title, "_", Text.Digits(i));
    SuffixIsFolded(i);
    DigitsAreSheetChars(i);
    SuffixedBase(title, suffix);
    SuffixedLowerCase(title, suffix);
  }

  lemma DigitsAreSheetChars(i: nat)
    ensures AllSheetChars(Text.Digits(i))
  {
    forall k | 0 <= k < |Text.Digits(i)|
      ensures SheetChar(Text.Digits(i)[k])
    {
      assert Text.Digits(i)[k] in Text.Digits(i);
    }
  }

  lemma SummaryTitles(title: string, rows: nat)
    requires title == Text.Fold(SUMMARY_TITLE)
    ensures AllLowerCase(Bases(BatchTitles(title, rows)))
    ensures title in Bases(BatchTitles(title, rows)) <==> rows <= EXCEL_MAX_ROWS_PER_SHEET
  {
    var titles := BatchTitles(title, rows);
    FoldTwice(SUMMARY_TITLE);
    NoUnderscore(title);
    if rows <= EXCEL_MAX_ROWS_PER_SHEET {
      OwnName(title);
      assert Bases(titles) == [title];
    } else {
      forall i | 0 <= i < |titles|
        ensures LowerCase(Bases(titles)[i]) && Bases(titles)[i] != title
      {
        NumberedSummary(title, i + 1);
      }
    }
  }

  /**
   A section called `summary` is refused beside the summary sheet exactly when it fits on one sheet: over
   the row cap its sheets are numbered.
   */
  lemma SummarySection<T>(title: string, rows: seq<T>)
    requires title == Text.Fold(SUMMARY_TITLE)
    ensures FoldDistinct(SheetsFor(AllBatches([ReportSection(title, rows)]))) <==> |rows| > 1_000_000
  {
    SheetTitlesAre([ReportSection(title, rows)]);
    OneSection(ReportSection(title, rows));
    SummaryTitles(title, |rows|);
    LowerCaseTitles(AllBatches([ReportSection(title, rows)]));
  }

  lemma NoUnderscore(title: string)
    requires title == Text.Fold(SUMMARY_TITLE)
    ensures '_' !in title
  {
  }

  // ----- two sections whose titles differ only by case

  /** Titles short enough to be numbered up to nine without being cut. */
  predicate Short(title: string) {
    title != "" && |title| <= MAX_SHEET_NAME - 2 && AllSheetChars(title)
  }

  lemma FoldedNumber(title: string, i: nat)
    requires Short(title) && 1 <= i <= 9
    ensures Text.Fold(SheetBase(title + "_" + Text.Digits(i))) == Text.Fold(title) + "_" + Text.Digits(i)
    ensures |Text.Fold(title) + "_" + Text.Digits(i)| == |title| + 2
  {
    OwnNumberedName(title, i);
    SuffixIsFolded(i);
    FoldAppend(title, "_" + Text.Digits(i));
    assert title + "_" + Text.Digits(i) == title + ("_" + Text.Digits(i));
    assert Text.Fold(title) + "_" + Text.Digits(i) == Text.Fold(title) + ("_" + Text.Digits(i));
  }

  lemma NumberedIsNoSummary(f: string, i: nat)
    ensures f + "_" + Text.Digits(i) != Text.Fold(SUMMARY_TITLE)
  {
    assert (f + "_" + Text.Digits(i))[|f|] == '_';
    assert '_' in f + "_" + Text.Digits(i);
    NoUnderscore(Text.Fold(SUMMARY_TITLE));
  }

  /** The numbered sheets of one section, all different up to case. */
  lemma NumberedPlain(title: string, count: nat)
    requires Short(title) && count <= 9
    ensures var folded := FoldAll(Bases(Numbered(title, count)));
            && Distinct(folded) && Text.Fold(SUMMARY_TITLE) !in folded
            && forall i :: 0 <= i < count ==>
                 folded[i] == Text.Fold(title) + "_" + Text.Digits(i + 1) && |folded[i]| == |title| + 2
  {
    var folded := FoldAll(Bases(Numbered(title, count)));
    forall i | 0 <= i < count
      ensures folded[i] == Text.Fold(title) + "_" + Text.Digits(i + 1) && |folded[i]| == |title| + 2
      ensures folded[i] != Text.Fold(SUMMARY_TITLE)
    {
      FoldedNumber(title, i + 1);
      NumberedIsNoSummary(Text.Fold(title), i + 1);
    }
    forall i, j | 0 <= i < j < count
      ensures folded[i] != folded[j]
    {
      if folded[i] == folded[j] {
        NumberedNamesDiffer(Text.Fold(title), i + 1, j + 1);
      }
    }
  }

  lemma DistinctWithOther<T>(x: T, xs: seq<T>)
    requires Distinct(xs) && x !in xs
    ensures Distinct([x] + xs) && Distinct(xs + [x])
  {
    DistinctPush(xs, x);
  }

  lemma BasesAppend(a: seq<string>, b: seq<string>)
    ensures FoldAll(Bases(a + b)) == FoldAll(Bases(a)) + FoldAll(Bases(b))
  {
  }

  /** One of two such titles numbered and the other not: no two agree up to case. */
  lemma OneOfTwoNumbered(plain: string, numbered: string, count: nat)
    requires Short(plain) && Short(numbered) && count <= 9
    requires Text.Fold(plain) == Text.Fold(numbered) && Text.Fold(plain) != Text.Fold(SUMMARY_TITLE)
    ensures Honest([plain] + Numbered(numbered, count)) && Honest(Numbered(numbered, count) + [plain])
  {
    var rest := Numbered(numbered, count);
    NumberedPlain(numbered, count);
    OwnName(plain);
    assert |Text.Fold(plain)| == |Text.Fold(numbered)| == |numbered|;
    assert FoldAll(Bases([plain])) == [Text.Fold(plain)];
    BasesAppend([plain], rest);
    BasesAppend(rest, [plain]);
    DistinctWithOther(Text.Fold(plain), FoldAll(Bases(rest)));
    PlainTitles([plain] + rest);
    PlainTitles(rest + [plain]);
  }

  lemma TwoSections<T>(a: ReportSection<T>, b: ReportSection<T>)
    ensures SheetTitles([a, b]) == BatchTitles(a.title, |a.rows|) + BatchTitles(b.title, |b.rows|)
  {
    OneSection(a);
    assert [a, b][..1] == [a];
  }

  lemma NotBoth<T>(batches: seq<Batch<T>>, i: nat, j: nat)
    requires i < |batches| && j < |batches|
    requires SheetBase(batches[i].name) != SheetBase(batches[j].name)
    requires Text.Fold(SheetBase(batches[i].name)) == Text.Fold(SheetBase(batches[j].name))
    ensures !FoldDistinct(SheetsFor(batches))
  {
    var bases := Bases(Titles(batches));
    assert bases[i] in ToSet(bases) && bases[j] in ToSet(bases);
    if FoldDistinct(SheetsFor(batches)) {
      TitlesCoherent(batches);
    }
  }

  lemma SameKindCollides(titles: seq<string>, a: string, b: string, over: bool, i: nat, j: nat)
    requires Short(a) && Short(b) && a != b && Text.Fold(a) == Text.Fold(b) && i < |titles| && j < |titles|
    requires titles[i] == (if over then a + "_" + Text.Digits(1) else a)
    requires titles[j] == (if over then b + "_" + Text.Digits(1) else b)
    ensures SheetBase(titles[i]) != SheetBase(titles[j])
            && Text.Fold(SheetBase(titles[i])) == Text.Fold(SheetBase(titles[j]))
  {
    if over {
      OwnNumberedName(a, 1);
      OwnNumberedName(b, 1);
      FoldedNumber(a, 1);
      FoldedNumber(b, 1);
      assert titles[i][..|a|] == a && titles[j][..|b|] == b;
      assert |Text.Fold(a)| == |Text.Fold(b)|;
    } else {
      OwnName(a);
      OwnName(b);
    }
  }

  lemma PiecesBounded(rows: nat, count: nat)
    requires rows <= count * EXCEL_MAX_ROWS_PER_SHEET
    ensures Pieces(rows) <= count
  {
  }

  /**
   Two sections whose titles differ only by case, of up to nine sheets each: the writer accepts their names
   exactly when one of them is over the row cap and the other is not.
   */
  lemma TitlesDifferByCase<T>(a: ReportSection<T>, b: ReportSection<T>)
    requires Short(a.title) && Short(b.title) && a.title != b.title
    requires Text.Fold(a.title) == Text.Fold(b.title) && Text.Fold(a.title) != Text.Fold(SUMMARY_TITLE)
    requires |a.rows| <= 9 * EXCEL_MAX_ROWS_PER_SHEET && |b.rows| <= 9 * EXCEL_MAX_ROWS_PER_SHEET
    ensures FoldDistinct(SheetsFor(AllBatches([a, b]))) <==>
              (|a.rows| > EXCEL_MAX_ROWS_PER_SHEET <==> |b.rows| <= EXCEL_MAX_ROWS_PER_SHEET)
  {
    var over, over' := |a.rows| > EXCEL_MAX_ROWS_PER_SHEET, |b.rows| > EXCEL_MAX_ROWS_PER_SHEET;
    var batches := AllBatches([a, b]);
    var titles, n := SheetTitles([a, b]), |BatchTitles(a.title, |a.rows|)|;
    SheetTitlesAre([a, b]);
    TwoSections(a, b);
    PiecesBounded(|a.rows|, 9);
    PiecesBounded(|b.rows|, 9);
    if over == over' {
      assert titles[0] == BatchTitles(a.title, |a.rows|)[0] && titles[n] == BatchTitles(b.title, |b.rows|)[0];
      SameKindCollides(titles, a.title, b.title, over, 0, n);
      NotBoth(batches, 0, n);
    } else {
      HonestNames(batches);
      if over {
        OneOfTwoNumbered(b.title, a.title, Pieces(|a.rows|));
      } else {
        OneOfTwoNumbered(a.title, b.title, Pieces(|b.rows|));
      }
    }
  }

  /** For instance `Orders` and `orders`, small: refused; with the second one over the cap: accepted. */
  lemma OrdersTwice<T>(few: seq<T>, many: seq<T>)
    requires |few| <= EXCEL_MAX_ROWS_PER_SHEET < |many| <= 9 * EXCEL_MAX_ROWS_PER_SHEET
    ensures !FoldDistinct(SheetsFor(AllBatches([ReportSection("Orders", few), ReportSection("orders", few)])))
    ensures FoldDistinct(SheetsFor(AllBatches([ReportSection("Orders", few), ReportSection("orders", many)])))
  {
    assert Text.Fold("Orders") == "orders" == Text.Fold("orders");
    assert "Orders"[0] != "orders"[0];
    assert |Text.Fold(SUMMARY_TITLE)| == 7 && |"orders"| == 6;
    TitlesDifferByCase(ReportSection("Orders", few), ReportSection("orders", few));
    TitlesDifferByCase(ReportSection("Orders", few), ReportSection("orders", many));
  }

  // ----- why the titles' own names do not decide

  lemma RenamedOnce(a: string)
    requires Short(a)
    ensures Renamed(a, 1) == a + "_" + Text.Digits(1) && |Renamed(a, 1)| == |a| + 2
  {
    OwnNumberedName(a, 1);
    assert |"_" + Text.Digits(1)| == 2;
    assert Upto(a, MAX_SHEET_NAME - 2) == a;
    assert a + ("_" + Text.Digits(1)) == a + "_" + Text.Digits(1);
  }

  lemma OwnNamesCoherent(a: string, c: string)
    requires Short(a) && Text.Fold(a) != Text.Fold(SUMMARY_TITLE) && Text.Fold(c) == Text.Fold(Renamed(a, 1))
    ensures CaseCoherent({a, c, SUMMARY_TITLE})
  {
    RenamedOnce(a);
    SuffixIsFolded(1);
    FoldAppend(a, "_" + Text.Digits(1));
    NumberedIsNoSummary(Text.Fold(a), 1);
    assert a + "_" + Text.Digits(1) == a + ("_" + Text.Digits(1));
    assert Text.Fold(a) + "_" + Text.Digits(1) == Text.Fold(a) + ("_" + Text.Digits(1));
    assert |Text.Fold(c)| == |Text.Fold(a)| + 2;
  }

  lemma NotFoldedIn(base: string, names: seq<string>)
    requires Text.Fold(base) != Text.Fold(SUMMARY_TITLE)
    requires forall i :: 0 <= i < |names| ==> Text.Fold(names[i]) != Text.Fold(base)
    ensures Text.Fold(base) !in Folded(InUse(names))
  {
    forall m | m in InUse(names)
      ensures Text.Fold(m) != Text.Fold(base)
    {
      if m in names {
        var i :| 0 <= i < |names| && names[i] == m;
      }
    }
  }

  lemma FirstName(titles: seq<string>)
    requires |titles| == 1 && Text.Fold(SheetBase(titles[0])) != Text.Fold(SUMMARY_TITLE)
    ensures CaseBlind(titles) == [SheetBase(titles[0])]
  {
    assert CaseBlind(titles[..0]) == [];
    NotFoldedIn(SheetBase(titles[0]), []);
    TakenIsTakenInSomeCase(SheetBase(titles[0]), InUse([]), 0);
  }

  lemma SecondName(titles: seq<string>)
    requires |titles| == 2 && SheetBase(titles[0]) == SheetBase(titles[1]) && Short(SheetBase(titles[0]))
    requires Text.Fold(SheetBase(titles[0])) != Text.Fold(SUMMARY_TITLE)
    ensures CaseBlind(titles) == [SheetBase(titles[0]), Renamed(SheetBase(titles[0]), 1)]
  {
    var base := SheetBase(titles[1]);
    FirstName(titles[..1]);
    RenamedFoldIs(base);
    NotFoldedIn(Renamed(base, 1), [base]);
    assert Candidate(base, 0) in InUse([base]) && Candidate(base, 1) == Renamed(base, 1);
    TakenIsTakenInSomeCase(base, InUse([base]), 1);
  }

  lemma RenamedFoldIs(a: string)
    requires Short(a)
    ensures Text.Fold(Renamed(a, 1)) != Text.Fold(a) && Text.Fold(Renamed(a, 1)) != Text.Fold(SUMMARY_TITLE)
  {
    RenamedOnce(a);
    SuffixIsFolded(1);
    FoldAppend(a, "_" + Text.Digits(1));
    NumberedIsNoSummary(Text.Fold(a), 1);
    Associative(a, "_", Text.Digits(1));
    Associative(Text.Fold(a), "_", Text.Digits(1));
  }

  /** A title whose own name is taken, and only in another case. */
  lemma TakenInAnotherCase(titles: seq<string>)
    requires titles != []
    requires var used, base := InUse(CaseBlind(titles[..|titles| - 1])), SheetBase(titles[|titles| - 1]);
             Text.Fold(base) in Folded(used) && base !in used
    ensures !Honest(titles)
  {
    assert Candidate(SheetBase(titles[|titles| - 1]), 0) == SheetBase(titles[|titles| - 1]);
  }

  lemma TakenElsewhere(a: string, c: string, names: seq<string>)
    requires Short(a) && names == [a, Renamed(a, 1)]
    requires Text.Fold(c) == Text.Fold(Renamed(a, 1)) && c != Renamed(a, 1)
    ensures Text.Fold(c) in Folded(InUse(names)) && c !in InUse(names)
  {
    RenamedFoldIs(a);
    assert names[1] in names;
    FoldedMember(InUse(names), Renamed(a, 1));
    assert c !in names && c != SUMMARY_TITLE;
  }

  lemma ThirdIsTaken(titles: seq<string>)
    requires |titles| == 3 && SheetBase(titles[0]) == SheetBase(titles[1]) && Short(SheetBase(titles[0]))
    requires Text.Fold(SheetBase(titles[0])) != Text.Fold(SUMMARY_TITLE)
    requires Text.Fold(SheetBase(titles[2])) == Text.Fold(Renamed(SheetBase(titles[0]), 1))
    requires SheetBase(titles[2]) != Renamed(SheetBase(titles[0]), 1)
    ensures !Honest(titles)
  {
    SecondName(titles[..2]);
    TakenElsewhere(SheetBase(titles[0]), SheetBase(titles[2]), CaseBlind(titles[..2]));
    TakenInAnotherCase(titles);
  }

  lemma OwnNamesOf(titles: seq<string>)
    requires |titles| == 3 && SheetBase(titles[0]) == SheetBase(titles[1])
    ensures ToSet(Bases(titles)) + {SUMMARY_TITLE} == {SheetBase(titles[0]), SheetBase(titles[2]), SUMMARY_TITLE}
  {
    var bases := Bases(titles);
    assert bases == [bases[0], bases[0], bases[2]];
  }

  /**
   Own names that agree up to case only where they are the same do not suffice: batches `a`, `a` and `A_1`
   are refused, because the second `a` becomes `a_1`.
   */
  lemma RenamedMeetsTitle<T>(batches: seq<Batch<T>>, titles: seq<string>)
    requires titles == Titles(batches)
    requires |titles| == 3 && SheetBase(titles[0]) == SheetBase(titles[1]) && Short(SheetBase(titles[0]))
    requires Text.Fold(SheetBase(titles[0])) != Text.Fold(SUMMARY_TITLE)
    requires Text.Fold(SheetBase(titles[2])) == Text.Fold(Renamed(SheetBase(titles[0]), 1))
    requires SheetBase(titles[2]) != Renamed(SheetBase(titles[0]), 1)
    ensures CaseCoherent(ToSet(Bases(titles)) + {SUMMARY_TITLE}) && !FoldDistinct(SheetsFor(batches))
  {
    OwnNamesOf(titles);
    OwnNamesCoherent(SheetBase(titles[0]), SheetBase(titles[2]));
    ThirdIsTaken(titles);
    HonestNames(batches);
  }
}
