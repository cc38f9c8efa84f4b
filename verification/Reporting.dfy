/** Splitting report sections into batches, and giving every batch its own worksheet. */
module Reporting {
  import opened Wrappers
  import opened Sequences
  import opened Numbering
  import Verdicts
  import Text

  const EXCEL_MAX_ROWS_PER_SHEET: nat := 1_000_000
  const SUMMARY_TITLE := "Summary"
  const MAX_SHEET_NAME: nat := 31

  // ----- batches

  datatype ReportError = BatchRowsTooSmall

  /** One slice of a section; rows are numbered from 1, and an empty section has the range 0 to 0. */
  datatype Batch<T> = Batch(name: string, number: nat, total: int, firstRow: nat, lastRow: nat, rows: seq<T>)

  /** The slices from `start` on, numbered from `number`. */
  function Slices<T>(name: string, rows: seq<T>, step: nat, total: int, start: nat, number: nat): seq<Batch<T>>
    requires step > 0
    decreases |rows| - start
  {
    if start >= |rows| then []
    else
      [Batch(name + "_" + Text.Digits(number), number, total, start + 1, Min(start + step, |rows|),
             rows[start..Min(start + step, |rows|)])] +
      Slices(name, rows, step, total, start + step, number + 1)
  }

  /** `-(-rows // step)`: for a positive step floor division is Euclidean division. */
  function CeilDiv(n: int, step: int): int
    requires step > 0
  {
    -((-n) / step)
  }

  function BatchFrame<T>(name: string, rows: seq<T>, batchRows: int): Result<seq<Batch<T>>, ReportError> {
    if batchRows < 1 then Err(BatchRowsTooSmall)
    else if |rows| <= batchRows then Ok([Batch(name, 1, 1, if rows == [] then 0 else 1, |rows|, rows)])
    else Ok(Slices(name, rows, batchRows, CeilDiv(|rows|, batchRows), 0, 1))
  }

  function RowsOf<T>(batches: seq<Batch<T>>): seq<T> {
    if batches == [] then [] else batches[0].rows + RowsOf(batches[1..])
  }

  /**
   Batches that follow each other without gap or overlap from row `start` (0-based) to the end, numbered
   from `number`, none empty and none longer than the step.
   */
  ghost predicate Tiles<T>(batches: seq<Batch<T>>, rows: seq<T>, step: nat, total: int, start: nat, number: nat) {
    if batches == [] then start >= |rows|
    else
      var b := batches[0];
      && b.number == number && b.total == total
      && b.firstRow == start + 1 <= b.lastRow <= |rows|
      && b.rows == rows[start..b.lastRow] && |b.rows| <= step
      && Tiles(batches[1..], rows, step, total, b.lastRow, number + 1)
  }

  lemma {:induction false} SlicesTile<T>(name: string, rows: seq<T>, step: nat, total: int, start: nat, number: nat)
    requires step > 0
    ensures Tiles(Slices(name, rows, step, total, start, number), rows, step, total, start, number)
    decreases |rows| - start
  {
    if start < |rows| {
      SlicesTile(name, rows, step, total, start + step, number + 1);
      var batches := Slices(name, rows, step, total, start, number);
      assert batches[1..] == Slices(name, rows, step, total, start + step, number + 1);
      if start + step >= |rows| {
        assert batches[1..] == [];
      }
    }
  }

  /** Tiling batches hold the rows, all of them, in order. */
  lemma {:induction false} TilesHoldRows<T>(batches: seq<Batch<T>>, rows: seq<T>, step: nat, total: int, start: nat,
                                            number: nat)
    requires Tiles(batches, rows, step, total, start, number) && start <= |rows|
    ensures RowsOf(batches) == rows[start..]
  {
    if batches != [] {
      var stop := batches[0].lastRow;
      TilesHoldRows(batches[1..], rows, step, total, stop, number + 1);
      assert rows[start..stop] + rows[stop..] == rows[start..];
    }
  }

  lemma OneMoreStep(k: int, step: int)
    ensures step + (k - 1) * step == k * step && step + k * step == (k + 1) * step && 0 * step == 0
  {
  }

  lemma {:induction false} SlicesCount<T>(name: string, rows: seq<T>, step: nat, total: int, start: nat, number: nat)
    requires step > 0 && start <= |rows|
    ensures var k := |Slices(name, rows, step, total, start, number)|;
            start < |rows| ==> k >= 1 && start + (k - 1) * step < |rows| <= start + k * step
    decreases |rows| - start
  {
    if start + step < |rows| {
      SlicesCount(name, rows, step, total, start + step, number + 1);
      OneMoreStep(|Slices(name, rows, step, total, start + step, number + 1)|, step);
    } else if start < |rows| {
      assert Slices(name, rows, step, total, start + step, number + 1) == [];
      OneMoreStep(0, step);
    }
  }

  lemma CeilIs(n: int, step: int, k: int)
    requires step > 0 && (k - 1) * step < n <= k * step
    ensures CeilDiv(n, step) == k
  {
    var q, rest := (-n) / step, (-n) % step;
    assert -n == q * step + rest;
    assert (-k) * step == -(k * step) && (k - 1) * step == k * step - step;
    Verdicts.MultiplesApart(q, -k, step);
    Verdicts.MultiplesApart(-k, q, step);
  }

  lemma {:induction false} TilesNumbers<T>(batches: seq<Batch<T>>, rows: seq<T>, step: nat, total: int, start: nat,
                                           number: nat)
    requires Tiles(batches, rows, step, total, start, number)
    ensures forall i :: 0 <= i < |batches| ==>
              batches[i].number == number + i && batches[i].total == total && 1 <= |batches[i].rows| <= step
  {
    if batches != [] {
      TilesNumbers(batches[1..], rows, step, total, batches[0].lastRow, number + 1);
      forall i | 0 < i < |batches|
        ensures batches[i] == batches[1..][i - 1]
      {
      }
    }
  }

  /**
   Batching drops and repeats no row: the batches are the section's rows cut up in order, numbered 1 to
   their count, none longer than the cap, and a section within the cap stays as it is.
   */
  lemma BatchesTile<T>(name: string, rows: seq<T>, batchRows: int)
    ensures BatchFrame(name, rows, batchRows).Err? <==> batchRows < 1
    ensures batchRows >= 1 ==>
              var batches := BatchFrame(name, rows, batchRows).value;
              && |batches| >= 1
              && RowsOf(batches) == rows
              && (forall i :: 0 <= i < |batches| ==>
                   batches[i].number == i + 1 && batches[i].total == |batches| && |batches[i].rows| <= batchRows)
              && (rows != [] ==> Tiles(batches, rows, batchRows, |batches|, 0, 1))
              && (|rows| <= batchRows <==> |batches| == 1)
              && (|rows| <= batchRows ==> batches[0].name == name)
              && (rows == [] ==> batches[0].firstRow == 0 && batches[0].lastRow == 0)
  {
    if batchRows >= 1 {
      var total := CeilDiv(|rows|, batchRows);
      if |rows| <= batchRows {
        assert rows + [] == rows;
      } else {
        SlicesTile(name, rows, batchRows, total, 0, 1);
        var batches := Slices(name, rows, batchRows, total, 0, 1);
        TilesHoldRows(batches, rows, batchRows, total, 0, 1);
        TilesNumbers(batches, rows, batchRows, total, 0, 1);
        SlicesCount(name, rows, batchRows, total, 0, 1);
        CeilIs(|rows|, batchRows, |batches|);
        assert 1 * batchRows == batchRows;
      }
    }
  }

  lemma {:induction false} SliceName<T>(name: string, rows: seq<T>, step: nat, total: int, start: nat, number: nat,
                                        i: nat)
    requires step > 0 && i < |Slices(name, rows, step, total, start, number)|
    ensures Slices(name, rows, step, total, start, number)[i].name == name + "_" + Text.Digits(number + i)
    decreases i
  {
    if i > 0 {
      SliceName(name, rows, step, total, start + step, number + 1, i - 1);
      assert number + 1 + (i - 1) == number + i;
    }
  }

  lemma NumberedNamesDiffer(name: string, i: nat, j: nat)
    requires name + "_" + Text.Digits(i) == name + "_" + Text.Digits(j)
    ensures i == j
  {
    var a, b := name + "_" + Text.Digits(i), name + "_" + Text.Digits(j);
    assert a[|name| + 1..] == Text.Digits(i) && b[|name| + 1..] == Text.Digits(j);
    Text.DigitsInjective(i, j);
  }

  /** The batches of one section have different names. */
  lemma BatchNamesDiffer<T>(name: string, rows: seq<T>, batchRows: int, i: nat, j: nat)
    requires batchRows >= 1 && i < j < |BatchFrame(name, rows, batchRows).value|
    ensures BatchFrame(name, rows, batchRows).value[i].name != BatchFrame(name, rows, batchRows).value[j].name
  {
    var batches := BatchFrame(name, rows, batchRows).value;
    assert |rows| > batchRows;
    assert batches == Slices(name, rows, batchRows, CeilDiv(|rows|, batchRows), 0, 1);
    SliceName(name, rows, batchRows, CeilDiv(|rows|, batchRows), 0, 1, i);
    SliceName(name, rows, batchRows, CeilDiv(|rows|, batchRows), 0, 1, j);
    assert batches[i].name == name + "_" + Text.Digits(1 + i) && batches[j].name == name + "_" + Text.Digits(1 + j);
    if batches[i].name == batches[j].name {
      NumberedNamesDiffer(name, 1 + i, 1 + j);
    }
  }

  // ----- sheet names

  /** `s[:n]`, a negative n counting from the end. */
  function Upto(s: string, n: int): (r: string)
    ensures r <= s
    ensures n >= 0 ==> |r| <= n
  {
    if n >= |s| then s
    else if n >= 0 then s[..n]
    else if |s| + n >= 0 then s[..|s| + n]
    else ""
  }

  /** How much of a text a bound keeps. */
  lemma UptoLength(s: string, n: int)
    ensures |Upto(s, n)| == if n >= 0 then Min(n, |s|) else if -n < |s| then |s| + n else 0
  {
  }

  predicate SheetChar(c: char) { c !in "[]:*?/\\" }

  function SheetBase(title: string): (base: string)
    ensures 1 <= |base| <= MAX_SHEET_NAME
  {
    var kept := Upto(Filter(title, c => SheetChar(c)), MAX_SHEET_NAME);
    if kept == "" then "Sheet" else kept
  }

  /** The i-th renaming: the base shortened to make room for its suffix. */
  function Renamed(base: string, i: nat): string {
    var suffix := "_" + Text.Digits(i);
    Upto(base, MAX_SHEET_NAME - |suffix|) + suffix
  }

  /** The text after the last underscore. */
  function AfterUnderscore(s: string): string {
    if s == "" || s[|s| - 1] == '_' then "" else AfterUnderscore(s[..|s| - 1]) + [s[|s| - 1]]
  }

  lemma {:induction false} AfterSuffix(p: string, digits: string)
    requires forall i :: 0 <= i < |digits| ==> digits[i] != '_'
    ensures AfterUnderscore(p + "_" + digits) == digits
  {
    var s := p + "_" + digits;
    if digits != "" {
      var n := |digits| - 1;
      AfterSuffix(p, digits[..n]);
      assert s[..|s| - 1] == p + "_" + digits[..n];
      assert digits[..n] + [digits[n]] == digits;
    }
  }

  /**
   Shortening never makes two renamings of one base coincide: the number after the last underscore tells
   them apart.
   */
  lemma RenamedDiffer(base: string, i: nat, j: nat)
    requires Renamed(base, i) == Renamed(base, j)
    ensures i == j
  {
    NumberIn(base, i);
    NumberIn(base, j);
    Text.DigitsInjective(i, j);
  }

  lemma NumberIn(base: string, i: nat)
    ensures AfterUnderscore(Renamed(base, i)) == Text.Digits(i)
  {
    var digits := Text.Digits(i);
    forall k | 0 <= k < |digits|
      ensures digits[k] != '_'
    {
      assert digits[k] in digits && Text.IsDigit(digits[k]);
    }
    var p := Upto(base, MAX_SHEET_NAME - |"_" + digits|);
    AfterSuffix(p, digits);
    assert p + ("_" + digits) == p + "_" + digits;
  }

  function Renamings(base: string): nat -> string {
    (k: nat) => Renamed(base, k + 1)
  }

  lemma RenamingsInjective(base: string)
    ensures Injective(Renamings(base))
  {
    forall i: nat, j: nat | Renamings(base)(i) == Renamings(base)(j)
      ensures i == j
    {
      RenamedDiffer(base, i + 1, j + 1);
    }
  }

  /** The base when it is free, else its first free renaming. */
  ghost function FreeSheetName(base: string, used: set<string>): (name: string)
    ensures name !in used
  {
    if base !in used then base
    else
      RenamingsInjective(base);
      Renamed(base, FirstFree(Renamings(base), used, 0) + 1)
  }

  /**
   The loop of `_unique_sheet_name`: it ends, although names are cut to length, after at most |used| + 2
   candidates, with a name that was not used.
   */
  method UniqueSheetName(title: string, used: set<string>) returns (name: string, used': set<string>, tried: nat)
    ensures name == FreeSheetName(SheetBase(title), used)
    ensures name !in used && used' == used + {name}
    ensures 1 <= tried <= |used| + 2
  {
    var base := SheetBase(title);
    ghost var names := Renamings(base);
    RenamingsInjective(base);
    var i := 1;
    name, tried := base, 1;
    while name in used
      invariant i >= 1 && tried == i
      invariant if i == 1 then name == base else base in used && name == names(i - 2) && TakenBelow(names, used, i - 2)
      invariant i - 2 <= |used|
      decreases |used| + 2 - i
    {
      ghost var k := i - 1;
      assert TakenBelow(names, used, k);
      TakenAreFew(names, used, k);
      name := Renamed(base, i);
      i := i + 1;
      tried := tried + 1;
    }
    if i > 1 {
      FirstFreeIs(names, used, 0, i - 2);
    }
    used' := used + {name};
  }

  const MAX_SUFFIX_DIGITS: nat := 30

  /** With fewer than 10^30 names in use the name fits in a worksheet's 31 characters. */
  lemma SheetNameFits(title: string, used: set<string>, digits: nat)
    requires 1 <= digits <= MAX_SUFFIX_DIGITS && |used| + 1 < Text.Pow10(digits)
    ensures 1 <= |FreeSheetName(SheetBase(title), used)| <= MAX_SHEET_NAME
  {
    var base := SheetBase(title);
    if base in used {
      RenamingsInjective(base);
      var i := FirstFree(Renamings(base), used, 0) + 1;
      Text.DigitsLength(i, digits);
    }
  }

  /** No name given out holds a character that a sheet name must not have. */
  lemma SheetNameAllowed(title: string, used: set<string>)
    ensures forall c :: c in FreeSheetName(SheetBase(title), used) ==>
              c != '[' && c != ']' && c != ':' && c != '*' && c != '?' && c != '/' && c != '\\'
  {
    var base := SheetBase(title);
    SheetBaseAllowed(title);
    if base in used {
      RenamingsInjective(base);
      RenamedAllowed(base, FirstFree(Renamings(base), used, 0) + 1);
    }
  }

  lemma SheetBaseAllowed(title: string)
    ensures forall c :: c in SheetBase(title) ==> SheetChar(c)
  {
    var all := Filter(title, c => SheetChar(c));
    var kept := Upto(all, MAX_SHEET_NAME);
    forall c | c in kept
      ensures SheetChar(c)
    {
      var i :| 0 <= i < |kept| && kept[i] == c;
      assert c == all[i] && c in all;
    }
    assert forall c :: c in "Sheet" ==> SheetChar(c);
  }

  /** A title that fits is its own sheet name; one with no allowed character is called a sheet. */
  lemma SheetBaseMeaning(title: string)
    ensures 1 <= |title| <= 31 && (forall c :: c in title ==> SheetChar(c)) ==> SheetBase(title) == title
    ensures (forall c :: c in title ==> !SheetChar(c)) ==> SheetBase(title) == "Sheet"
  {
    AllKept(title, c => SheetChar(c));
    if forall c :: c in title ==> !SheetChar(c) {
      NothingKept(title, c => SheetChar(c));
    }
  }

  lemma RenamedAllowed(base: string, i: nat)
    requires forall c :: c in base ==> SheetChar(c)
    ensures forall c :: c in Renamed(base, i) ==> SheetChar(c)
  {
    var suffix := "_" + Text.Digits(i);
    assert forall c :: c in Text.Digits(i) ==> Text.IsDigit(c);
    assert forall c :: c in Renamed(base, i) ==> c in base || c == '_' || c in Text.Digits(i);
  }

  // ----- the workbook

  datatype ReportSection<T> = ReportSection(title: string, rows: seq<T>)

  datatype Sheet<T> = Sheet(name: string, rows: seq<T>)

  function AllBatches<T>(sections: seq<ReportSection<T>>): seq<Batch<T>> {
    if sections == [] then []
    else
      var last := sections[|sections| - 1];
      AllBatches(sections[..|sections| - 1]) + BatchFrame(last.title, last.rows, EXCEL_MAX_ROWS_PER_SHEET).value
  }

  /** The sheet each batch gets: the names already given, the summary's included, are avoided. */
  ghost function SheetsFor<T>(batches: seq<Batch<T>>): (sheets: seq<Sheet<T>>)
    ensures |sheets| == |batches|
  {
    if batches == [] then []
    else
      var before := SheetsFor(batches[..|batches| - 1]);
      var last := batches[|batches| - 1];
      before + [Sheet(FreeSheetName(SheetBase(last.name), NamesUsed(before)), last.rows)]
  }

  ghost function NamesUsed<T>(sheets: seq<Sheet<T>>): (names: set<string>)
    ensures forall i :: 0 <= i < |sheets| ==> sheets[i].name in names
    ensures SUMMARY_TITLE in names && |names| <= |sheets| + 1
  {
    if sheets == [] then {SUMMARY_TITLE}
    else NamesUsed(sheets[..|sheets| - 1]) + {sheets[|sheets| - 1].name}
  }

  lemma SheetsPush<T>(batches: seq<Batch<T>>, b: Batch<T>)
    ensures var name := FreeSheetName(SheetBase(b.name), NamesUsed(SheetsFor(batches)));
            && SheetsFor(batches + [b]) == SheetsFor(batches) + [Sheet(name, b.rows)]
            && NamesUsed(SheetsFor(batches + [b])) == NamesUsed(SheetsFor(batches)) + {name}
  {
    var sheets := SheetsFor(batches + [b]);
    assert (batches + [b])[..|batches|] == batches;
    assert sheets[..|batches|] == SheetsFor(batches);
  }

  /** The workbook so far, and the names it uses. */
  ghost predicate Book<T>(sheets: seq<Sheet<T>>, used: set<string>, summary: seq<T>, batches: seq<Batch<T>>) {
    sheets == [Sheet(SUMMARY_TITLE, summary)] + SheetsFor(batches) && used == NamesUsed(SheetsFor(batches))
  }

  lemma BookPush<T>(sheets: seq<Sheet<T>>, used: set<string>, summary: seq<T>, batches: seq<Batch<T>>, b: Batch<T>)
    requires Book(sheets, used, summary, batches)
    ensures var name := FreeSheetName(SheetBase(b.name), used);
            Book(sheets + [Sheet(name, b.rows)], used + {name}, summary, batches + [b])
  {
    SheetsPush(batches, b);
    Associative([Sheet(SUMMARY_TITLE, summary)], SheetsFor(batches),
                [Sheet(FreeSheetName(SheetBase(b.name), used), b.rows)]);
  }

  lemma NextBatch<T>(before: seq<Batch<T>>, batches: seq<Batch<T>>, j: nat)
    requires j < |batches|
    ensures before + batches[..j] + [batches[j]] == before + batches[..j + 1]
  {
  }

  lemma BookNext<T>(sheets: seq<Sheet<T>>, used: set<string>, summary: seq<T>, before: seq<Batch<T>>,
                    batches: seq<Batch<T>>, j: nat)
    requires j < |batches| && Book(sheets, used, summary, before + batches[..j])
    ensures var name := FreeSheetName(SheetBase(batches[j].name), used);
            Book(sheets + [Sheet(name, batches[j].rows)], used + {name}, summary, before + batches[..j + 1])
  {
    BookPush(sheets, used, summary, before + batches[..j], batches[j]);
    NextBatch(before, batches, j);
  }

  /** One sheet for each batch of a section. */
  method AddBatches<T>(sheets: seq<Sheet<T>>, used: set<string>, ghost summary: seq<T>, ghost before: seq<Batch<T>>,
                       batches: seq<Batch<T>>)
    returns (sheets': seq<Sheet<T>>, used': set<string>)
    requires Book(sheets, used, summary, before)
    ensures Book(sheets', used', summary, before + batches)
  {
    sheets', used' := sheets, used;
    var j := 0;
    assert before + batches[..0] == before;
    while j < |batches|
      invariant 0 <= j <= |batches| && Book(sheets', used', summary, before + batches[..j])
    {
      var name, taken, _ := UniqueSheetName(batches[j].name, used');
      BookNext(sheets', used', summary, before, batches, j);
      sheets', used' := sheets' + [Sheet(name, batches[j].rows)], taken;
      j := j + 1;
    }
    assert batches[..j] == batches;
  }

  /** The loops of `_to_excel`: the summary sheet, then one sheet for each batch of each section. */
  method ToExcel<T>(summary: seq<T>, sections: seq<ReportSection<T>>) returns (sheets: seq<Sheet<T>>)
    ensures sheets == [Sheet(SUMMARY_TITLE, summary)] + SheetsFor(AllBatches(sections))
  {
    sheets := [Sheet(SUMMARY_TITLE, summary)];
    var used: set<string> := {SUMMARY_TITLE};
    var i := 0;
    while i < |sections|
      invariant 0 <= i <= |sections| && Book(sheets, used, summary, AllBatches(sections[..i]))
    {
      var batches := BatchFrame(sections[i].title, sections[i].rows, EXCEL_MAX_ROWS_PER_SHEET).value;
      sheets, used := AddBatches(sheets, used, summary, AllBatches(sections[..i]), batches);
      assert sections[..i + 1][..i] == sections[..i];
      i := i + 1;
    }
    assert sections[..i] == sections;
  }

  // ----- nothing is lost

  function AllRows<T>(sections: seq<ReportSection<T>>): seq<T> {
    if sections == [] then [] else AllRows(sections[..|sections| - 1]) + sections[|sections| - 1].rows
  }

  function SheetRows<T>(sheets: seq<Sheet<T>>): seq<T> {
    if sheets == [] then [] else SheetRows(sheets[..|sheets| - 1]) + sheets[|sheets| - 1].rows
  }

  lemma {:induction false} RowsOfAppend<T>(a: seq<Batch<T>>, b: seq<Batch<T>>)
    ensures RowsOf(a + b) == RowsOf(a) + RowsOf(b)
  {
    if a == [] {
      assert a + b == b;
    } else {
      assert (a + b)[1..] == a[1..] + b;
      RowsOfAppend(a[1..], b);
    }
  }

  lemma RowsOfFront<T>(batches: seq<Batch<T>>)
    requires batches != []
    ensures RowsOf(batches) == RowsOf(batches[..|batches| - 1]) + batches[|batches| - 1].rows
  {
    var front, last := batches[..|batches| - 1], batches[|batches| - 1];
    RowsOfAppend(front, [last]);
    assert batches == front + [last];
    assert RowsOf([last]) == last.rows + RowsOf([]);
  }

  lemma SheetRowsAppend<T>(sheets: seq<Sheet<T>>, last: Sheet<T>)
    ensures SheetRows(sheets + [last]) == SheetRows(sheets) + last.rows
  {
    assert (sheets + [last])[..|sheets|] == sheets;
  }

  lemma SheetsFront<T>(batches: seq<Batch<T>>)
    requires batches != []
    ensures var n := |batches| - 1;
            var name := FreeSheetName(SheetBase(batches[n].name), NamesUsed(SheetsFor(batches[..n])));
            SheetsFor(batches) == SheetsFor(batches[..n]) + [Sheet(name, batches[n].rows)]
  {
  }

  lemma {:induction false} SheetsHoldBatches<T>(batches: seq<Batch<T>>)
    ensures SheetRows(SheetsFor(batches)) == RowsOf(batches)
  {
    if batches != [] {
      var n := |batches| - 1;
      var before := SheetsFor(batches[..n]);
      SheetsHoldBatches(batches[..n]);
      RowsOfFront(batches);
      SheetsFront(batches);
      SheetRowsAppend(before, Sheet(FreeSheetName(SheetBase(batches[n].name), NamesUsed(before)), batches[n].rows));
    }
  }

  lemma {:induction false} SheetHoldsBatch<T>(batches: seq<Batch<T>>, i: nat)
    requires i < |batches|
    ensures SheetsFor(batches)[i].rows == batches[i].rows
    decreases |batches|
  {
    SheetsFront(batches);
    if i < |batches| - 1 {
      SheetHoldsBatch(batches[..|batches| - 1], i);
    }
  }

  lemma {:induction false} BatchesHoldSections<T>(sections: seq<ReportSection<T>>)
    ensures RowsOf(AllBatches(sections)) == AllRows(sections)
    ensures |AllBatches(sections)| >= |sections|
    ensures forall i :: 0 <= i < |AllBatches(sections)| ==> |AllBatches(sections)[i].rows| <= EXCEL_MAX_ROWS_PER_SHEET
  {
    if sections != [] {
      var last := sections[|sections| - 1];
      var front := AllBatches(sections[..|sections| - 1]);
      BatchesHoldSections(sections[..|sections| - 1]);
      BatchesTile(last.title, last.rows, EXCEL_MAX_ROWS_PER_SHEET);
      RowsOfAppend(front, BatchFrame(last.title, last.rows, EXCEL_MAX_ROWS_PER_SHEET).value);
    }
  }

  lemma {:induction false} SheetNamesDistinct<T>(batches: seq<Batch<T>>)
    ensures forall i :: 0 <= i < |batches| ==> SheetsFor(batches)[i].name != SUMMARY_TITLE
    ensures forall i, j :: 0 <= i < j < |batches| ==> SheetsFor(batches)[i].name != SheetsFor(batches)[j].name
  {
    if batches != [] {
      var before := SheetsFor(batches[..|batches| - 1]);
      SheetNamesDistinct(batches[..|batches| - 1]);
      assert forall i :: 0 <= i < |before| ==> before[i].name in NamesUsed(before);
    }
  }

  ghost predicate NamesFit<T>(sheets: seq<Sheet<T>>) {
    forall i :: 0 <= i < |sheets| ==> 1 <= |sheets[i].name| <= MAX_SHEET_NAME
  }

  lemma {:induction false} SheetNamesFit<T>(batches: seq<Batch<T>>, digits: nat)
    requires 1 <= digits <= MAX_SUFFIX_DIGITS && |batches| + 1 < Text.Pow10(digits)
    ensures NamesFit(SheetsFor(batches))
  {
    if batches != [] {
      var n := |batches| - 1;
      var before := SheetsFor(batches[..n]);
      SheetNamesFit(batches[..n], digits);
      SheetNameFits(batches[n].name, NamesUsed(before), digits);
    }
  }

  /**
   A workbook loses nothing: after the summary come sheets with distinct names that are not the
   summary's, at least one for each section, each within the row cap, and their rows one after another
   are the sections' rows. Below 10^30 sheets every name fits in 31 characters.
   */
  lemma WorkbookHoldsEverything<T>(sections: seq<ReportSection<T>>, digits: nat)
    requires 1 <= digits <= MAX_SUFFIX_DIGITS
    ensures var sheets := SheetsFor(AllBatches(sections));
            && SheetRows(sheets) == AllRows(sections)
            && |sheets| >= |sections|
            && (forall i :: 0 <= i < |sheets| ==>
                 |sheets[i].rows| <= EXCEL_MAX_ROWS_PER_SHEET && sheets[i].name != SUMMARY_TITLE)
            && (forall i, j :: 0 <= i < j < |sheets| ==> sheets[i].name != sheets[j].name)
            && (|sheets| + 1 < Text.Pow10(digits) ==> NamesFit(sheets))
  {
    var batches := AllBatches(sections);
    BatchesHoldSections(sections);
    SheetsHoldBatches(batches);
    forall i | 0 <= i < |batches|
      ensures SheetsFor(batches)[i].rows == batches[i].rows
    {
      SheetHoldsBatch(batches, i);
    }
    SheetNamesDistinct(batches);
    if |batches| + 1 < Text.Pow10(digits) {
      SheetNamesFit(batches, digits);
    }
  }
}
