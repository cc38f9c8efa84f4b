/** Reading the engine's diff back: the list of differing columns in each row, hit counts, keys, and the ranking. */
module MismatchAnalysis {
  import opened Sequences
  import opened ComparisonEngine
  import Text

  const MISMATCHED_COLUMNS := "MISMATCHED_COLUMNS"
  const SRC := "_source"
  const TGT := "_target"

  // ----- one row's list of names

  function NotBlank(parts: seq<string>): (kept: seq<string>)
    ensures forall p :: p in kept <==> p in parts && p != ""
  {
    Filter(parts, p => p != "")
  }

  function StripAll(parts: seq<string>): (stripped: seq<string>)
    ensures |stripped| == |parts| && forall i :: 0 <= i < |parts| ==> stripped[i] == Text.Strip(parts[i])
  {
    seq(|parts|, i requires 0 <= i < |parts| => Text.Strip(parts[i]))
  }

  /** The names in one row's comma-separated text. */
  function SplitColumns(text: string): seq<string> {
    NotBlank(StripAll(Text.Split(text, ',')))
  }

  /** A name that survives being written into a comma-separated list. */
  predicate Plain(name: string) {
    name != "" && ',' !in name && Text.Trimmed(name)
  }

  lemma {:induction false} SplitPartsHaveNoSeparator(s: string, sep: char)
    ensures forall p :: p in Text.Split(s, sep) ==> sep !in p
  {
    if s != "" {
      SplitPartsHaveNoSeparator(s[1..], sep);
      var rest := Text.Split(s[1..], sep);
      assert rest[0] in rest;
      forall p | p in Text.Split(s, sep)
        ensures sep !in p
      {
        assert p in rest || p == "" || p == [s[0]] + rest[0];
      }
    }
  }

  lemma {:induction false} StripKeepsCharacters(s: string)
    ensures forall c :: c in Text.LStrip(s) ==> c in s
  {
    if s != "" && Text.IsSpace(s[0]) {
      StripKeepsCharacters(s[1..]);
    }
  }

  /** Whatever the text, every name read from it is plain. */
  lemma SplitColumnsArePlain(text: string)
    ensures forall n :: n in SplitColumns(text) ==> Plain(n)
  {
    var parts := Text.Split(text, ',');
    SplitPartsHaveNoSeparator(text, ',');
    forall n | n in SplitColumns(text)
      ensures Plain(n)
    {
      var i :| 0 <= i < |parts| && n == Text.Strip(parts[i]);
      assert parts[i] in parts;
      Text.StripTrimmed(parts[i]);
      StripKeepsCharacters(parts[i]);
      Text.RStripShape(Text.LStrip(parts[i]));
    }
  }

  /** Reading the joined list gives the list back exactly when every name in it is plain. */
  lemma SplitColumnsRestores(names: seq<string>)
    ensures SplitColumns(Text.Join(names, ',')) == names <==> forall n :: n in names ==> Plain(n)
  {
    SplitColumnsArePlain(Text.Join(names, ','));
    if forall n :: n in names ==> Plain(n) {
      if names == [] {
        assert StripAll([""]) == [""];
        assert [""][..0] == [];
      } else {
        Text.SplitJoin(names, ',');
        forall i | 0 <= i < |names|
          ensures Text.Strip(names[i]) == names[i]
        {
          assert names[i] in names;
          Text.TrimmedStrip(names[i]);
        }
        assert StripAll(names) == names;
        AllKept(names, p => p != "");
      }
    }
  }

  // ----- counting over all rows

  function Exploded(texts: seq<string>): seq<string> {
    if texts == [] then [] else Exploded(texts[..|texts| - 1]) + Text.Split(texts[|texts| - 1], ',')
  }

  /** How many times each name occurs over all rows: split, exploded, stripped, blanks dropped. */
  function ColumnHits(texts: seq<string>): multiset<string> {
    multiset(NotBlank(StripAll(Exploded(texts))))
  }

  /** The rows that name a column, as the analyser filters them. */
  function RowsNaming(texts: seq<string>, column: string): seq<string> {
    Filter(texts, text => column in SplitColumns(text))
  }

  /** Counting over the exploded column adds up the rows' own lists. */
  lemma HitsOfLast(texts: seq<string>)
    requires texts != []
    ensures ColumnHits(texts) == ColumnHits(texts[..|texts| - 1]) + multiset(SplitColumns(texts[|texts| - 1]))
  {
    var front, last := Exploded(texts[..|texts| - 1]), Text.Split(texts[|texts| - 1], ',');
    assert StripAll(front + last) == StripAll(front) + StripAll(last);
    FilterAppend(StripAll(front), StripAll(last), p => p != "");
  }

  ghost predicate NamedOnce(texts: seq<string>, column: string) {
    forall text :: text in texts ==> multiset(SplitColumns(text))[column] <= 1
  }

  /** A column's hit count is at least the number of rows naming it, and equal exactly when no row names it twice. */
  lemma {:induction false} HitsAgainstRows(texts: seq<string>, column: string)
    ensures ColumnHits(texts)[column] >= |RowsNaming(texts, column)|
    ensures ColumnHits(texts)[column] == |RowsNaming(texts, column)| <==> NamedOnce(texts, column)
  {
    if texts != [] {
      HitsAgainstRows(texts[..|texts| - 1], column);
      LastRowHits(texts, column);
      LastRowOnce(texts, column);
    }
  }

  lemma LastRowHits(texts: seq<string>, column: string)
    requires texts != []
    ensures var front, here := texts[..|texts| - 1], multiset(SplitColumns(texts[|texts| - 1]))[column];
            && ColumnHits(texts)[column] == ColumnHits(front)[column] + here
            && |RowsNaming(texts, column)| == |RowsNaming(front, column)| + if here > 0 then 1 else 0
  {
    HitsOfLast(texts);
    var names := SplitColumns(texts[|texts| - 1]);
    assert column in names <==> multiset(names)[column] > 0;
  }

  lemma LastRowOnce(texts: seq<string>, column: string)
    requires texts != []
    ensures NamedOnce(texts, column) <==>
              NamedOnce(texts[..|texts| - 1], column) && multiset(SplitColumns(texts[|texts| - 1]))[column] <= 1
  {
    assert texts == texts[..|texts| - 1] + [texts[|texts| - 1]];
  }

  // ----- the engine's own rows

  function TextsOf(rows: seq<DiffRow>): (texts: seq<string>)
    ensures |texts| == |rows| && forall i :: 0 <= i < |rows| ==> texts[i] == rows[i].mismatchedColumns
  {
    seq(|rows|, i requires 0 <= i < |rows| => rows[i].mismatchedColumns)
  }

  /** Number of differing cells of the compared columns over all pairs. */
  ghost function DifferingCells(cfg: Config, kinds: KindPair, columns: seq<string>, pairs: seq<Pair>): nat {
    if pairs == [] then 0
    else
      DifferingCells(cfg, kinds, columns, pairs[..|pairs| - 1]) +
      |UnequalColumns(cfg, kinds, columns, pairs[|pairs| - 1])|
  }

  lemma PlainRow(cfg: Config, kinds: KindPair, columns: seq<string>, p: Pair)
    requires forall c :: c in columns ==> Plain(c)
    ensures SplitColumns(Diff(cfg, kinds, columns, p).mismatchedColumns) == UnequalColumns(cfg, kinds, columns, p)
  {
    SplitColumnsRestores(UnequalColumns(cfg, kinds, columns, p));
  }

  lemma {:induction false} OccursOnce(xs: seq<string>, x: string)
    requires Distinct(xs)
    ensures multiset(xs)[x] <= 1
  {
    if xs != [] {
      var front := xs[..|xs| - 1];
      OccursOnce(front, x);
      assert xs == front + [xs[|xs| - 1]];
    }
  }

  /** No row of the engine's diff names a column twice when the columns compared are distinct. */
  lemma DistinctColumnsNamedOnce(cfg: Config, kinds: KindPair, columns: seq<string>, pairs: seq<Pair>, column: string)
    requires Distinct(columns) && forall c :: c in columns ==> Plain(c)
    ensures NamedOnce(TextsOf(Diffs(cfg, kinds, columns, pairs)), column)
  {
    var texts := TextsOf(Diffs(cfg, kinds, columns, pairs));
    forall text | text in texts
      ensures multiset(SplitColumns(text))[column] <= 1
    {
      var i :| 0 <= i < |texts| && texts[i] == text;
      PlainRow(cfg, kinds, columns, pairs[i]);
      FilterKeepsDistinct(columns, c => !ColumnEqual(cfg, kinds, c, pairs[i]));
      OccursOnce(SplitColumns(text), column);
    }
  }

  lemma LastText(cfg: Config, kinds: KindPair, columns: seq<string>, pairs: seq<Pair>, n: nat)
    requires n + 1 == |pairs| && forall c :: c in columns ==> Plain(c)
    ensures var texts := TextsOf(Diffs(cfg, kinds, columns, pairs));
            && texts[..n] == TextsOf(Diffs(cfg, kinds, columns, pairs[..n]))
            && SplitColumns(texts[n]) == UnequalColumns(cfg, kinds, columns, pairs[n])
  {
    PlainRow(cfg, kinds, columns, pairs[n]);
  }

  lemma NamedIsUnequal(cfg: Config, kinds: KindPair, columns: seq<string>, p: Pair, column: string)
    requires column in columns
    ensures multiset(UnequalColumns(cfg, kinds, columns, p))[column] > 0 <==> !ColumnEqual(cfg, kinds, column, p)
  {
    var unequal := UnequalColumns(cfg, kinds, columns, p);
    assert column in unequal <==> column in multiset(unequal);
  }

  lemma {:induction false} RowsNamingAreDiffering(cfg: Config, kinds: KindPair, columns: seq<string>,
                                                  pairs: seq<Pair>, column: string)
    requires column in columns && forall c :: c in columns ==> Plain(c)
    ensures |RowsNaming(TextsOf(Diffs(cfg, kinds, columns, pairs)), column)| ==
            |Filter(pairs, p => !ColumnEqual(cfg, kinds, column, p))|
  {
    if pairs != [] {
      var n := |pairs| - 1;
      RowsNamingAreDiffering(cfg, kinds, columns, pairs[..n], column);
      LastText(cfg, kinds, columns, pairs, n);
      NamingStep(TextsOf(Diffs(cfg, kinds, columns, pairs)), TextsOf(Diffs(cfg, kinds, columns, pairs[..n])),
                 UnequalColumns(cfg, kinds, columns, pairs[n]), n, column);
      NamedIsUnequal(cfg, kinds, columns, pairs[n], column);
    }
  }

  /** With plain and distinct column names, a column's hit count is the number of pairs on which it differs. */
  lemma HitsAreDifferingRows(cfg: Config, kinds: KindPair, columns: seq<string>, pairs: seq<Pair>, column: string)
    requires Distinct(columns) && column in columns && forall c :: c in columns ==> Plain(c)
    ensures var texts := TextsOf(Diffs(cfg, kinds, columns, pairs));
            && ColumnHits(texts)[column] == |RowsNaming(texts, column)|
            && ColumnHits(texts)[column] == |Filter(pairs, p => !ColumnEqual(cfg, kinds, column, p))|
  {
    DistinctColumnsNamedOnce(cfg, kinds, columns, pairs, column);
    HitsAgainstRows(TextsOf(Diffs(cfg, kinds, columns, pairs)), column);
    RowsNamingAreDiffering(cfg, kinds, columns, pairs, column);
  }

  lemma NamingStep(texts: seq<string>, front: seq<string>, names: seq<string>, n: nat, column: string)
    requires |texts| == n + 1 && texts[..n] == front && SplitColumns(texts[n]) == names
    ensures |RowsNaming(texts, column)| == |RowsNaming(front, column)| + if multiset(names)[column] > 0 then 1 else 0
  {
    LastRowHits(texts, column);
  }

  /** Number of names in all the rows' lists. */
  ghost function NamesListed(texts: seq<string>): nat {
    if texts == [] then 0 else NamesListed(texts[..|texts| - 1]) + |SplitColumns(texts[|texts| - 1])|
  }

  lemma {:induction false} HitsAreNamesListed(texts: seq<string>)
    ensures |ColumnHits(texts)| == NamesListed(texts)
  {
    if texts != [] {
      HitsAreNamesListed(texts[..|texts| - 1]);
      HitsOfLast(texts);
    }
  }

  lemma {:induction false} NamesListedAreCells(cfg: Config, kinds: KindPair, columns: seq<string>, pairs: seq<Pair>,
                                               texts: seq<string>)
    requires forall c :: c in columns ==> Plain(c)
    requires texts == TextsOf(Diffs(cfg, kinds, columns, pairs))
    ensures NamesListed(texts) == DifferingCells(cfg, kinds, columns, pairs)
  {
    if pairs != [] {
      var n := |pairs| - 1;
      LastText(cfg, kinds, columns, pairs, n);
      NamesListedAreCells(cfg, kinds, columns, pairs[..n], texts[..n]);
    }
  }

  /** All hit counts together count the differing cells. */
  lemma HitsSumToCells(cfg: Config, kinds: KindPair, columns: seq<string>, pairs: seq<Pair>)
    requires forall c :: c in columns ==> Plain(c)
    ensures |ColumnHits(TextsOf(Diffs(cfg, kinds, columns, pairs)))| == DifferingCells(cfg, kinds, columns, pairs)
  {
    var texts := TextsOf(Diffs(cfg, kinds, columns, pairs));
    HitsAreNamesListed(texts);
    NamesListedAreCells(cfg, kinds, columns, pairs, texts);
  }

  /** One row whose list names a column twice counts as two hits, though one row is kept. */
  lemma NamedTwiceCountsTwice(name: string)
    requires Plain(name)
    ensures var texts := [Text.Join([name, name], ',')];
            ColumnHits(texts)[name] == 2 && |RowsNaming(texts, name)| == 1
  {
    var texts := [Text.Join([name, name], ',')];
    SplitColumnsRestores([name, name]);
    assert texts[..0] == [];
    LastRowHits(texts, name);
    assert multiset([name, name]) == multiset{name, name};
  }

  // ----- recovering the keys

  predicate EndsWith(s: string, suffix: string) {
    |suffix| <= |s| && s[|s| - |suffix|..] == suffix
  }

  function DiffColumns(columns: seq<string>): (names: seq<string>)
    ensures forall n :: n in names ==> EndsWith(n, SRC) || EndsWith(n, TGT)
  {
    if columns == [] then []
    else
      var last := columns[|columns| - 1];
      assert EndsWith(last + SRC, SRC) && EndsWith(last + TGT, TGT);
      DiffColumns(columns[..|columns| - 1]) + [last + SRC, last + TGT]
  }

  /** The columns of the engine's diff frame. */
  function MismatchFrameColumns(keys: seq<string>, columns: seq<string>): seq<string> {
    keys + DiffColumns(columns) + [MISMATCHED_COLUMNS]
  }

  predicate LooksLikeAKey(name: string) {
    name != MISMATCHED_COLUMNS && !EndsWith(name, SRC) && !EndsWith(name, TGT)
  }

  function InferBusinessKeys(frameColumns: seq<string>): seq<string> {
    if MISMATCHED_COLUMNS !in frameColumns then [] else Filter(frameColumns, c => LooksLikeAKey(c))
  }

  /** A frame of another shape has no keys to recover. */
  lemma NoDiffNoKeys(frameColumns: seq<string>)
    requires "MISMATCHED_COLUMNS" !in frameColumns
    ensures InferBusinessKeys(frameColumns) == []
  {
  }

  /** The keys come back exactly when no key looks like a diff column; otherwise those that do are lost. */
  lemma InferenceRecoversKeys(keys: seq<string>, columns: seq<string>)
    ensures InferBusinessKeys(MismatchFrameColumns(keys, columns)) == Filter(keys, k => LooksLikeAKey(k))
    ensures InferBusinessKeys(MismatchFrameColumns(keys, columns)) == keys <==>
              forall k :: k in keys ==> LooksLikeAKey(k)
  {
    var p := (c: string) => LooksLikeAKey(c);
    var all := MismatchFrameColumns(keys, columns);
    assert all[|all| - 1] == MISMATCHED_COLUMNS;
    FilterAppend(keys + DiffColumns(columns), [MISMATCHED_COLUMNS], p);
    FilterAppend(keys, DiffColumns(columns), p);
    NothingKept(DiffColumns(columns), p);
    NothingKept([MISMATCHED_COLUMNS], p);
    assert Filter(all, p) == Filter(keys, p);
    AllKept(keys, p);
  }
}
