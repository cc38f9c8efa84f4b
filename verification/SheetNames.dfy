/**
 The workbook writer refuses two sheet names that differ only by case. Which exports that concerns follows
 from the sections' titles and row counts alone.
 */
module SheetNames {
  import opened Sequences
  import opened Numbering
  import opened Reporting
  import Text

  function Folded(names: set<string>): set<string> {
    set n | n in names :: Text.Fold(n)
  }

  function Names<T>(sheets: seq<Sheet<T>>): (names: seq<string>)
    ensures |names| == |sheets| && forall i :: 0 <= i < |sheets| ==> names[i] == sheets[i].name
  {
    Map(sheets, (s: Sheet<T>) => s.name)
  }

  function FoldAll(names: seq<string>): (folded: seq<string>)
    ensures |folded| == |names| && forall i :: 0 <= i < |names| ==> folded[i] == Text.Fold(names[i])
  {
    Map(names, n => Text.Fold(n))
  }

  /** What the writer asks for: no two names agree up to case, the summary's included. */
  ghost predicate FoldDistinct<T>(sheets: seq<Sheet<T>>) {
    && (forall i :: 0 <= i < |sheets| ==> Text.Fold(sheets[i].name) != Text.Fold(SUMMARY_TITLE))
    && forall i, j :: 0 <= i < j < |sheets| ==> Text.Fold(sheets[i].name) != Text.Fold(sheets[j].name)
  }

  // ----- folding candidates

  lemma FoldAppend(s: string, t: string)
    ensures Text.Fold(s + t) == Text.Fold(s) + Text.Fold(t)
  {
  }

  lemma FoldUpto(s: string, n: int)
    ensures Text.Fold(Upto(s, n)) == Upto(Text.Fold(s), n)
  {
  }

  lemma SuffixIsFolded(i: nat)
    ensures Text.Fold("_" + Text.Digits(i)) == "_" + Text.Digits(i)
  {
    var digits := Text.Digits(i);
    forall k | 0 <= k < |digits|
      ensures Text.LowerChar(digits[k]) == digits[k]
    {
      assert digits[k] in digits && Text.IsDigit(digits[k]);
    }
  }

  /** Renaming and folding may be done in either order. */
  lemma RenamedFolds(base: string, i: nat)
    ensures Text.Fold(Renamed(base, i)) == Renamed(Text.Fold(base), i)
  {
    var suffix := "_" + Text.Digits(i);
    FoldAppend(Upto(base, MAX_SHEET_NAME - |suffix|), suffix);
    FoldUpto(base, MAX_SHEET_NAME - |suffix|);
    SuffixIsFolded(i);
  }

  lemma FoldedMember(names: set<string>, n: string)
    requires n in names
    ensures Text.Fold(n) in Folded(names)
  {
  }

  lemma NamesAppend<T>(sheets: seq<Sheet<T>>, last: Sheet<T>)
    ensures Names(sheets + [last]) == Names(sheets) + [last.name]
  {
  }

  lemma {:induction false} UsedAre<T>(sheets: seq<Sheet<T>>)
    ensures NamesUsed(sheets) == ToSet(Names(sheets)) + {SUMMARY_TITLE}
  {
    if sheets != [] {
      var front, last := sheets[..|sheets| - 1], sheets[|sheets| - 1];
      UsedAre(front);
      NamesAppend(front, last);
      assert sheets == front + [last];
    }
  }

  lemma FoldedUsed<T>(sheets: seq<Sheet<T>>)
    ensures Folded(NamesUsed(sheets)) == ToSet(FoldAll(Names(sheets))) + {Text.Fold(SUMMARY_TITLE)}
  {
    UsedAre(sheets);
    var names := Names(sheets);
    forall f | f in ToSet(FoldAll(names))
      ensures f in Folded(NamesUsed(sheets))
    {
      var i :| 0 <= i < |names| && FoldAll(names)[i] == f;
      assert names[i] in NamesUsed(sheets);
    }
    forall n | n in NamesUsed(sheets)
      ensures Text.Fold(n) in ToSet(FoldAll(names)) + {Text.Fold(SUMMARY_TITLE)}
    {
      if n in names {
        var i :| 0 <= i < |names| && names[i] == n;
        assert FoldAll(names)[i] == Text.Fold(n);
      }
    }
  }

  lemma FoldNames(names: seq<string>, last: string)
    ensures FoldAll(names + [last]) == FoldAll(names) + [Text.Fold(last)]
  {
  }

  lemma FoldDistinctIs<T>(sheets: seq<Sheet<T>>)
    ensures FoldDistinct(sheets) <==>
              Distinct(FoldAll(Names(sheets))) && Text.Fold(SUMMARY_TITLE) !in FoldAll(Names(sheets))
  {
    var folded := FoldAll(Names(sheets));
    assert forall i :: 0 <= i < |sheets| ==> folded[i] == Text.Fold(sheets[i].name);
    assert forall i :: 0 <= i < |sheets| ==> folded[i] in folded;
  }

  lemma DistinctPush<T>(xs: seq<T>, x: T)
    ensures Distinct(xs + [x]) <==> Distinct(xs) && x !in xs
  {
    var all := xs + [x];
    if Distinct(all) {
      assert forall i :: 0 <= i < |xs| ==> xs[i] == all[i] && all[|xs|] == x;
    }
  }

  lemma FoldDistinctFront<T>(before: seq<Sheet<T>>, last: Sheet<T>)
    ensures FoldDistinct(before + [last]) <==>
              FoldDistinct(before) && Text.Fold(last.name) !in Folded(NamesUsed(before))
    ensures FoldAll(Names(before + [last])) == FoldAll(Names(before)) + [Text.Fold(last.name)]
  {
    NamesAppend(before, last);
    FoldNames(Names(before), last.name);
    FoldDistinctIs(before);
    FoldDistinctIs(before + [last]);
    DistinctPush(FoldAll(Names(before)), Text.Fold(last.name));
    FoldedUsed(before);
  }

  // ----- the titles' own names

  function Bases(titles: seq<string>): (bases: seq<string>)
    ensures |bases| == |titles| && forall i :: 0 <= i < |titles| ==> bases[i] == SheetBase(titles[i])
  {
    Map(titles, t => SheetBase(t))
  }

  function Titles<T>(batches: seq<Batch<T>>): (titles: seq<string>)
    ensures |titles| == |batches| && forall i :: 0 <= i < |batches| ==> titles[i] == batches[i].name
  {
    Map(batches, (b: Batch<T>) => b.name)
  }

  /** Whatever agrees up to case is the same. */
  ghost predicate CaseCoherent(names: set<string>) {
    forall a, b :: a in names && b in names && Text.Fold(a) == Text.Fold(b) ==> a == b
  }

  lemma UsedAppend<T>(sheets: seq<Sheet<T>>, last: Sheet<T>)
    ensures NamesUsed(sheets + [last]) == NamesUsed(sheets) + {last.name}
  {
    assert (sheets + [last])[..|sheets|] == sheets;
  }

  /** The last title's name, and the names used with it. */
  lemma LastName<T>(batches: seq<Batch<T>>)
    requires batches != []
    ensures var n := |batches| - 1;
            var before := SheetsFor(batches[..n]);
            var name := FreeSheetName(SheetBase(batches[n].name), NamesUsed(before));
            && NamesUsed(SheetsFor(batches)) == NamesUsed(before) + {name}
            && Names(SheetsFor(batches)) == Names(before) + [name]
  {
    var before, last := SheetsFor(batches[..|batches| - 1]), batches[|batches| - 1];
    var sheet := Sheet(FreeSheetName(SheetBase(last.name), NamesUsed(before)), last.rows);
    assert SheetsFor(batches) == before + [sheet];
    UsedAppend(before, sheet);
    NamesAppend(before, sheet);
  }

  /** Every title's own name is used, be it for that title or for an earlier one. */
  lemma {:induction false} BaseIsUsed<T>(batches: seq<Batch<T>>, i: nat)
    requires i < |batches|
    ensures SheetBase(batches[i].name) in NamesUsed(SheetsFor(batches))
    decreases |batches|
  {
    LastName(batches);
    if i < |batches| - 1 {
      BaseIsUsed(batches[..|batches| - 1], i);
    }
  }

  lemma BasesAreUsed<T>(batches: seq<Batch<T>>)
    ensures ToSet(Bases(Titles(batches))) <= NamesUsed(SheetsFor(batches))
  {
    forall i | 0 <= i < |batches|
      ensures Bases(Titles(batches))[i] in NamesUsed(SheetsFor(batches))
    {
      BaseIsUsed(batches, i);
    }
  }

  lemma FoldDistinctIsCoherent<T>(sheets: seq<Sheet<T>>)
    requires FoldDistinct(sheets)
    ensures CaseCoherent(NamesUsed(sheets))
  {
    UsedAre(sheets);
    var names := Names(sheets);
    forall a, b | a in NamesUsed(sheets) && b in NamesUsed(sheets) && Text.Fold(a) == Text.Fold(b)
      ensures a == b
    {
      if a in names && b in names {
        var i :| 0 <= i < |names| && names[i] == a;
        var j :| 0 <= j < |names| && names[j] == b;
        assert sheets[i].name == a && sheets[j].name == b;
      }
    }
  }

  /**
   Necessary, whatever is renamed: titles whose own names agree up to case, the summary's included, have
   the same one.
   */
  lemma TitlesCoherent<T>(batches: seq<Batch<T>>)
    requires FoldDistinct(SheetsFor(batches))
    ensures CaseCoherent(ToSet(Bases(Titles(batches))) + {SUMMARY_TITLE})
  {
    BasesAreUsed(batches);
    FoldDistinctIsCoherent(SheetsFor(batches));
    UsedAre(SheetsFor(batches));
  }

  // ----- looking names up regardless of case

  /** The name tried after `i` others. */
  function Candidate(base: string, i: nat): string {
    if i == 0 then base else Renamed(base, i)
  }

  /** How many candidates are in use in some case. */
  ghost function TakenInSomeCase(base: string, used: set<string>): nat {
    if Text.Fold(base) !in Folded(used) then 0
    else
      RenamingsInjective(Text.Fold(base));
      1 + FirstFree(Renamings(Text.Fold(base)), Folded(used), 0)
  }

  /** The names the titles would get if names in use were looked up regardless of case. */
  ghost function CaseBlind(titles: seq<string>): (names: seq<string>)
    ensures |names| == |titles|
  {
    if titles == [] then []
    else
      var before := CaseBlind(titles[..|titles| - 1]);
      var base := SheetBase(titles[|titles| - 1]);
      before + [Candidate(base, TakenInSomeCase(base, InUse(before)))]
  }

  ghost function InUse(names: seq<string>): set<string> {
    ToSet(names) + {SUMMARY_TITLE}
  }

  /** What is taken in some case is taken in the very same case, for each title in turn. */
  ghost predicate Honest(titles: seq<string>) {
    titles == [] ||
    var front, base := titles[..|titles| - 1], SheetBase(titles[|titles| - 1]);
    Honest(front) && AllTaken(base, InUse(CaseBlind(front)))
  }

  ghost predicate AllTaken(base: string, used: set<string>) {
    forall j :: 0 <= j < TakenInSomeCase(base, used) ==> Candidate(base, j) in used
  }

  lemma CandidateFolds(base: string, i: nat)
    ensures Text.Fold(Candidate(base, i)) == Candidate(Text.Fold(base), i)
  {
    if i > 0 {
      RenamedFolds(base, i);
    }
  }

  /** The candidates before it are taken in some case, and it is not. */
  lemma FirstFreeInAnyCase(base: string, used: set<string>, k: nat)
    requires k == TakenInSomeCase(base, used)
    ensures Text.Fold(Candidate(base, k)) !in Folded(used)
    ensures forall j :: 0 <= j < k ==> Text.Fold(Candidate(base, j)) in Folded(used)
  {
    CandidateFolds(base, k);
    if k > 0 {
      RenamingsInjective(Text.Fold(base));
      var names := Renamings(Text.Fold(base));
      forall j | 0 <= j < k
        ensures Text.Fold(Candidate(base, j)) in Folded(used)
      {
        CandidateFolds(base, j);
        assert j > 0 ==> names(j - 1) == Candidate(Text.Fold(base), j);
      }
    }
  }

  /** Taken candidates and a free one after them settle the name. */
  lemma FreeNameIs(base: string, used: set<string>, k: nat)
    requires Candidate(base, k) !in used && forall j :: 0 <= j < k ==> Candidate(base, j) in used
    ensures FreeSheetName(base, used) == Candidate(base, k)
  {
    if k > 0 {
      assert Candidate(base, 0) in used;
      RenamingsInjective(base);
      forall j | 0 <= j < k - 1
        ensures Renamings(base)(j) in used
      {
        assert Candidate(base, j + 1) in used;
      }
      FirstFreeIs(Renamings(base), used, 0, k - 1);
    }
  }

  /** The name given, by its place among the candidates. */
  lemma PlaceOfName(base: string, used: set<string>) returns (k: nat)
    ensures FreeSheetName(base, used) == Candidate(base, k)
    ensures forall j :: 0 <= j < k ==> Candidate(base, j) in used
  {
    if base !in used {
      k := 0;
    } else {
      RenamingsInjective(base);
      k := FirstFree(Renamings(base), used, 0) + 1;
      forall j | 0 <= j < k
        ensures Candidate(base, j) in used
      {
        assert j > 0 ==> Renamings(base)(j - 1) == Candidate(base, j);
      }
    }
  }

  lemma TakenIsTakenInSomeCase(base: string, used: set<string>, k: nat)
    requires forall j :: 0 <= j < k ==> Candidate(base, j) in used
    requires Text.Fold(Candidate(base, k)) !in Folded(used)
    ensures TakenInSomeCase(base, used) == k
  {
    var n := TakenInSomeCase(base, used);
    FirstFreeInAnyCase(base, used, n);
    assert forall j: nat :: j < k ==> Text.Fold(Candidate(base, j)) in Folded(used);
  }

  /** The name given is free up to case exactly when what is taken in some case is taken in the same case. */
  lemma NameIsFreeUpToCase(base: string, used: set<string>)
    ensures Text.Fold(FreeSheetName(base, used)) !in Folded(used) <==> AllTaken(base, used)
    ensures AllTaken(base, used) ==> FreeSheetName(base, used) == Candidate(base, TakenInSomeCase(base, used))
  {
    var k := TakenInSomeCase(base, used);
    FirstFreeInAnyCase(base, used, k);
    if AllTaken(base, used) {
      if Candidate(base, k) in used {
        FoldedMember(used, Candidate(base, k));
      }
      FreeNameIs(base, used, k);
    }
    if Text.Fold(FreeSheetName(base, used)) !in Folded(used) {
      var n := PlaceOfName(base, used);
      TakenIsTakenInSomeCase(base, used, n);
    }
  }

  lemma TitlesFront<T>(batches: seq<Batch<T>>)
    requires batches != []
    ensures var n := |batches| - 1;
            Titles(batches)[..n] == Titles(batches[..n]) && Titles(batches)[n] == batches[n].name
  {
  }

  /** What the writer accepts, batch by batch; an honest list of titles gets the names of the case-blind lookup. */
  lemma {:induction false} HonestNames<T>(batches: seq<Batch<T>>)
    ensures FoldDistinct(SheetsFor(batches)) <==> Honest(Titles(batches))
    ensures Honest(Titles(batches)) ==> Names(SheetsFor(batches)) == CaseBlind(Titles(batches))
  {
    if batches != [] {
      var n := |batches| - 1;
      var before, base := SheetsFor(batches[..n]), SheetBase(batches[n].name);
      HonestNames(batches[..n]);
      TitlesFront(batches);
      LastName(batches);
      SheetsFront(batches);
      FoldDistinctFront(before, Sheet(FreeSheetName(base, NamesUsed(before)), batches[n].rows));
      UsedAre(before);
      NameIsFreeUpToCase(base, NamesUsed(before));
    }
  }

  // ----- from sections to titles

  /** The titles of a section's batches: its own, or numbered ones when it is over the row cap. */
  function BatchTitles(title: string, rows: nat): (titles: seq<string>) {
    if rows <= EXCEL_MAX_ROWS_PER_SHEET then [title]
    else Numbered(title, Pieces(rows))
  }

  function Numbered(title: string, count: nat): (titles: seq<string>)
    ensures |titles| == count && forall i :: 0 <= i < count ==> titles[i] == title + "_" + Text.Digits(i + 1)
  {
    seq(count, i requires 0 <= i < count => title + "_" + Text.Digits(i + 1))
  }

  /** How many sheets so many rows need. */
  function Pieces(rows: nat): (count: nat)
    ensures (count - 1) * EXCEL_MAX_ROWS_PER_SHEET < rows <= count * EXCEL_MAX_ROWS_PER_SHEET || rows == count == 0
  {
    if rows == 0 then 0
    else if rows <= EXCEL_MAX_ROWS_PER_SHEET then 1
    else 1 + Pieces(rows - EXCEL_MAX_ROWS_PER_SHEET)
  }

  function SheetTitles<T>(sections: seq<ReportSection<T>>): seq<string> {
    if sections == [] then []
    else
      var last := sections[|sections| - 1];
      SheetTitles(sections[..|sections| - 1]) + BatchTitles(last.title, |last.rows|)
  }

  lemma {:induction false} SlicesArePieces<T>(name: string, rows: seq<T>, total: int, start: nat, number: nat)
    requires start <= |rows|
    ensures |Slices(name, rows, EXCEL_MAX_ROWS_PER_SHEET, total, start, number)| == Pieces(|rows| - start)
    decreases |rows| - start
  {
    var step := EXCEL_MAX_ROWS_PER_SHEET;
    if start + step <= |rows| {
      SlicesArePieces(name, rows, total, start + step, number + 1);
    } else if start < |rows| {
      assert Slices(name, rows, step, total, start + step, number + 1) == [];
    }
  }

  lemma BatchTitlesAre<T>(title: string, rows: seq<T>)
    ensures Titles(BatchFrame(title, rows, EXCEL_MAX_ROWS_PER_SHEET).value) == BatchTitles(title, |rows|)
  {
    var step := EXCEL_MAX_ROWS_PER_SHEET;
    if |rows| > step {
      var batches := Slices(title, rows, step, CeilDiv(|rows|, step), 0, 1);
      SlicesArePieces(title, rows, CeilDiv(|rows|, step), 0, 1);
      forall i | 0 <= i < |batches|
        ensures batches[i].name == title + "_" + Text.Digits(i + 1)
      {
        SliceName(title, rows, step, CeilDiv(|rows|, step), 0, 1, i);
        assert 1 + i == i + 1;
      }
    }
  }

  lemma TitlesAppend<T>(a: seq<Batch<T>>, b: seq<Batch<T>>)
    ensures Titles(a + b) == Titles(a) + Titles(b)
  {
  }

  lemma {:induction false} SheetTitlesAre<T>(sections: seq<ReportSection<T>>)
    ensures Titles(AllBatches(sections)) == SheetTitles(sections)
  {
    if sections != [] {
      var last := sections[|sections| - 1];
      SheetTitlesAre(sections[..|sections| - 1]);
      BatchTitlesAre(last.title, last.rows);
      TitlesAppend(AllBatches(sections[..|sections| - 1]),
                   BatchFrame(last.title, last.rows, EXCEL_MAX_ROWS_PER_SHEET).value);
    }
  }

  /**
   The workbook writer accepts the sheet names of an export if and only if its titles are honest: for each
   in turn, whatever candidate is in use in some case is in use in that case. The titles follow from the
   sections' own and their row counts.
   */
  lemma SectionsFoldDistinct<T>(sections: seq<ReportSection<T>>)
    ensures FoldDistinct(SheetsFor(AllBatches(sections))) <==> Honest(SheetTitles(sections))
  {
    HonestNames(AllBatches(sections));
    SheetTitlesAre(sections);
  }

  // ----- conditions on the titles' own names

  lemma BasesFront(titles: seq<string>)
    requires titles != []
    ensures Bases(titles) == Bases(titles[..|titles| - 1]) + [SheetBase(titles[|titles| - 1])]
  {
  }

  /** Own names that are different up to case, the summary's included, are given out as they are. */
  lemma {:induction false} PlainTitles(titles: seq<string>)
    requires Distinct(FoldAll(Bases(titles))) && Text.Fold(SUMMARY_TITLE) !in FoldAll(Bases(titles))
    ensures Honest(titles) && CaseBlind(titles) == Bases(titles)
  {
    if titles != [] {
      var n := |titles| - 1;
      var front, base := titles[..n], SheetBase(titles[n]);
      BasesFront(titles);
      FoldNames(Bases(front), base);
      DistinctPush(FoldAll(Bases(front)), Text.Fold(base));
      PlainTitles(front);
      NotInUse(Bases(front), base);
    }
  }

  lemma NotInUse(names: seq<string>, base: string)
    requires Text.Fold(base) !in FoldAll(names) && Text.Fold(base) != Text.Fold(SUMMARY_TITLE)
    ensures Text.Fold(base) !in Folded(InUse(names))
  {
    forall m | m in InUse(names)
      ensures Text.Fold(m) != Text.Fold(base)
    {
      if m in names {
        var i :| 0 <= i < |names| && names[i] == m;
        assert FoldAll(names)[i] == Text.Fold(m);
      }
    }
  }

  /** A text without upper-case letters. */
  predicate LowerCase(s: string) { Text.Fold(s) == s }

  lemma SuffixedIsNoSummary(base: string, i: nat)
    ensures Renamed(base, i) != Text.Fold(SUMMARY_TITLE)
  {
    var p := Upto(base, MAX_SHEET_NAME - |"_" + Text.Digits(i)|);
    assert Renamed(base, i)[|p|] == '_';
    assert '_' in Renamed(base, i);
    assert forall c :: c in Text.Fold(SUMMARY_TITLE) ==> c != '_';
  }

  ghost predicate AllLowerCase(names: seq<string>) {
    forall i :: 0 <= i < |names| ==> LowerCase(names[i])
  }

  /** Among lower-case names only `summary` is taken in another case than its own. */
  lemma LowerCaseTaken(names: seq<string>, c: string)
    requires AllLowerCase(names) && LowerCase(c) && c != Text.Fold(SUMMARY_TITLE) && c in Folded(InUse(names))
    ensures c in InUse(names)
  {
    var m :| m in InUse(names) && Text.Fold(m) == c;
    if m in names {
      var i :| 0 <= i < |names| && names[i] == m;
    }
  }

  lemma LowerCaseBase(names: seq<string>, base: string)
    requires AllLowerCase(names) && LowerCase(base) && base != Text.Fold(SUMMARY_TITLE)
    ensures AllTaken(base, InUse(names)) && LowerCase(Candidate(base, TakenInSomeCase(base, InUse(names))))
  {
    var used := InUse(names);
    var k := TakenInSomeCase(base, used);
    FirstFreeInAnyCase(base, used, k);
    CandidateFolds(base, k);
    forall j | 0 <= j < k
      ensures Candidate(base, j) in used
    {
      CandidateFolds(base, j);
      SuffixedIsNoSummary(base, j);
      LowerCaseTaken(names, Candidate(base, j));
    }
  }

  lemma {:induction false} LowerCaseHonest(titles: seq<string>)
    requires AllLowerCase(Bases(titles)) && Text.Fold(SUMMARY_TITLE) !in Bases(titles)
    ensures Honest(titles) && AllLowerCase(CaseBlind(titles))
  {
    if titles != [] {
      var n := |titles| - 1;
      BasesFront(titles);
      assert Bases(titles)[n] == SheetBase(titles[n]);
      assert forall i :: 0 <= i < n ==> Bases(titles[..n])[i] == Bases(titles)[i];
      LowerCaseHonest(titles[..n]);
      LowerCaseBase(CaseBlind(titles[..n]), SheetBase(titles[n]));
    }
  }

  lemma FoldTwice(s: string)
    ensures Text.Fold(Text.Fold(s)) == Text.Fold(s)
  {
  }

  lemma FoldChanges(s: string)
    requires s != "" && 'A' <= s[0] <= 'Z'
    ensures Text.Fold(s) != s
  {
    assert Text.Fold(s)[0] == Text.LowerChar(s[0]) != s[0];
  }

  /** Batches without upper-case letters are accepted, repeated or not, exactly when none is called `summary`. */
  lemma LowerCaseTitles<T>(batches: seq<Batch<T>>)
    requires AllLowerCase(Bases(Titles(batches)))
    ensures FoldDistinct(SheetsFor(batches)) <==> Text.Fold(SUMMARY_TITLE) !in Bases(Titles(batches))
  {
    HonestNames(batches);
    if Text.Fold(SUMMARY_TITLE) !in Bases(Titles(batches)) {
      LowerCaseHonest(Titles(batches));
    }
    if FoldDistinct(SheetsFor(batches)) {
      TitlesCoherent(batches);
      FoldTwice(SUMMARY_TITLE);
      FoldChanges(SUMMARY_TITLE);
    }
  }
}
