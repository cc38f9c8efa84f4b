/**
 What a comparison's diff says to the analyser: how often each compared column is counted, and the
 columns that are counted more often than rows are kept for them.
 */
module ComparedTwice {
  import opened Wrappers
  import opened Sequences
  import opened Frames
  import opened ComparisonEngine
  import opened EngineReference
  import opened EngineTheorems
  import opened EngineExamples
  import opened MismatchAnalysis
  import Text

  // ----- how often a column is counted

  /** How many of the compare columns asked for are this column: once aligned, they carry its name. */
  function Requests(cfg: Config, source: Frame, target: Frame, column: string): nat {
    match AlignedConfig(cfg, Some(source), Some(target)).compareColumns
    case Some(names) => multiset(names)[column]
    case None => 1
  }

  lemma OccursExactlyOnce(xs: seq<string>, x: string)
    requires Distinct(xs) && x in xs
    ensures multiset(xs)[x] == 1
  {
    OccursOnce(xs, x);
    assert x in multiset(xs);
  }

  /** The column list a comparison works with holds a column as often as it was asked for. */
  lemma RequestsAreOccurrences(keys: seq<string>, cfg: Config, source: seq<string>, target: seq<string>, column: string)
    requires Distinct(source)
    requires var r := ResolveCompareColumns(keys, cfg, source, target); r.Ok? && column in r.value
    ensures multiset(ResolveCompareColumns(keys, cfg, source, target).value)[column] ==
            match cfg.compareColumns case Some(names) => multiset(names)[column] case None => 1
  {
    match cfg.compareColumns
    case Some(names) =>
      OccurrencesKept(names, c => c !in keys, column);
    case None =>
      OccurrencesKept(source, c => c in target && c !in keys, column);
      OccursExactlyOnce(source, column);
  }

  lemma NamedAsOftenAsListed(cfg: Config, kinds: KindPair, columns: seq<string>, p: Pair, column: string)
    ensures var here := multiset(UnequalColumns(cfg, kinds, columns, p))[column];
            here == 0 || here == multiset(columns)[column]
  {
    OccurrencesKept(columns, c => !ColumnEqual(cfg, kinds, c, p), column);
  }

  /** A row that names the column not at all or `m` times keeps the hits `m` times the rows. */
  lemma OneRowMore(m: nat, hits: nat, rows: nat, here: nat, hits': nat, rows': nat)
    requires hits == m * rows && (here == 0 || here == m)
    requires hits' == hits + here && rows' == rows + if here > 0 then 1 else 0
    ensures hits' == m * rows'
  {
    assert m * (rows + 1) == m * rows + m;
  }

  lemma LastRowMultiple(texts: seq<string>, front: seq<string>, column: string, m: nat)
    requires texts != [] && front == texts[..|texts| - 1]
             && ColumnHits(front)[column] == m * |RowsNaming(front, column)|
    requires var here := multiset(SplitColumns(texts[|texts| - 1]))[column]; here == 0 || here == m
    ensures ColumnHits(texts)[column] == m * |RowsNaming(texts, column)|
  {
    LastRowHits(texts, column);
    OneRowMore(m, ColumnHits(front)[column], |RowsNaming(front, column)|,
               multiset(SplitColumns(texts[|texts| - 1]))[column],
               ColumnHits(texts)[column], |RowsNaming(texts, column)|);
  }

  lemma {:induction false} HitsAreMultiples(cfg: Config, kinds: KindPair, columns: seq<string>, pairs: seq<Pair>,
                                            column: string)
    requires forall n :: n in columns ==> Plain(n)
    ensures var texts := TextsOf(Diffs(cfg, kinds, columns, pairs));
            ColumnHits(texts)[column] == multiset(columns)[column] * |RowsNaming(texts, column)|
  {
    if pairs != [] {
      var n := |pairs| - 1;
      HitsAreMultiples(cfg, kinds, columns, pairs[..n], column);
      LastText(cfg, kinds, columns, pairs, n);
      NamedAsOftenAsListed(cfg, kinds, columns, pairs[n], column);
      LastRowMultiple(TextsOf(Diffs(cfg, kinds, columns, pairs)), TextsOf(Diffs(cfg, kinds, columns, pairs[..n])),
                      column,
                      multiset(columns)[column]);
    }
  }

  /** Every name in the list of compared columns can be read back from a comma-separated text. */
  ghost predicate PlainColumns(r: ComparisonResult) {
    forall n :: n in r.columns ==> Plain(n)
  }

  lemma PreparedColumns(frame: Option<Frame>, side: Side, keys: seq<string>, cfg: Config)
    requires Prepare(frame, side, keys, cfg).Ok?
    ensures frame.Some? && Prepare(frame, side, keys, cfg).value.columns == frame.value.columns
  {
  }

  lemma ValidatedColumns(keys: seq<string>, cfg: Config, source: Option<Frame>, target: Option<Frame>)
    requires Validated(keys, cfg, source, target).Ok?
    ensures source.Some? && target.Some?
    ensures var i := Validated(keys, cfg, source, target).value;
            && i.keys == keys
            && ResolveCompareColumns(keys, cfg, source.value.columns, target.value.columns) == Ok(i.columns)
  {
    PreparedColumns(source, Source, keys, cfg);
    PreparedColumns(target, Target, keys, cfg);
  }

  /** What the engine resolved and merged to arrive at a result. */
  lemma ResultIsOutcome(keys: seq<string>, cfg: Config, source: Frame, target: Frame) returns (i: Inputs)
    requires Ready(cfg, Some(source), Some(target)) && Compared(keys, cfg, Some(source), Some(target)).Ok?
    ensures Compared(keys, cfg, Some(source), Some(target)).value ==
            Outcome(i.keys, i.cfg, i.columns, i.source, i.target)
    ensures var cfg', target' := AlignedConfig(cfg, Some(source), Some(target)),
                                 AlignedTarget(cfg, Some(source), Some(target));
            target'.Some? && ResolveCompareColumns(i.keys, cfg', source.columns, target'.value.columns) == Ok(i.columns)
  {
    i := Accepted(keys, cfg, Some(source), Some(target)).value;
    ValidatedColumns(AlignedKeys(keys, cfg, Some(source), Some(target)), AlignedConfig(cfg, Some(source), Some(target)),
                     Some(source), AlignedTarget(cfg, Some(source), Some(target)));
  }

  lemma HitsOfOutcome(i: Inputs, column: string)
    requires column in i.columns && forall n :: n in i.columns ==> Plain(n)
    ensures var texts := TextsOf(Outcome(i.keys, i.cfg, i.columns, i.source, i.target).mismatch);
            ColumnHits(texts)[column] == multiset(i.columns)[column] * |RowsNaming(texts, column)|
  {
    var m := OuterMerge(i.source, i.target);
    HitsAreMultiples(i.cfg, m.kinds, i.columns, Mismatching(i.cfg, m, i.columns), column);
  }

  lemma TimesIsOnce(m: nat, rows: nat)
    requires m > 0
    ensures m * rows == rows <==> m == 1 || rows == 0
  {
  }

  /**
   For every comparison the engine accepts: a compared column counts as many hits as it was asked for
   times the rows that name it, so the two counts are equal if and only if it was asked for once or no
   row differs in it.
   */
  lemma HitsAreRequestsTimesRows(keys: seq<string>, cfg: Config, source: Frame, target: Frame, column: string)
    requires Ready(cfg, Some(source), Some(target))
    requires var r := Compared(keys, cfg, Some(source), Some(target));
             r.Ok? && PlainColumns(r.value) && column in r.value.columns
    ensures var texts := TextsOf(Compared(keys, cfg, Some(source), Some(target)).value.mismatch);
            var hits, rows, asked := ColumnHits(texts)[column], |RowsNaming(texts, column)|,
                                      Requests(cfg, source, target, column);
            && hits == asked * rows
            && (hits == rows <==> asked == 1 || rows == 0)
  {
    var i := ResultIsOutcome(keys, cfg, source, target);
    HitsOfOutcome(i, column);
    RequestsAreOccurrences(i.keys, AlignedConfig(cfg, Some(source), Some(target)), source.columns,
                           AlignedTarget(cfg, Some(source), Some(target)).value.columns, column);
    assert column in multiset(i.columns);
    TimesIsOnce(multiset(i.columns)[column],
                |RowsNaming(TextsOf(Compared(keys, cfg, Some(source), Some(target)).value.mismatch), column)|);
  }

  // ----- two names for one column

  /** The second column is asked for under its own name and under another one. */
  ghost predicate AskedTwice(cfg: Config, p: Shape, again: string) {
    && p.key != p.value && Canon(cfg, p.key) != Canon(cfg, p.value)
    && cfg.compareColumns == Some([p.value, again]) && Canon(cfg, again) == Canon(cfg, p.value)
  }

  lemma AskedTwiceNames(cfg: Config, p: Shape, again: string)
    requires AskedTwice(cfg, p, again)
    ensures Names(cfg, p)
  {
    assert CanonAll(cfg, [p.value, again]) == [Canon(cfg, p.value), Canon(cfg, p.value)];
  }

  lemma NothingRemoved(v: string, keys: set<string>)
    requires v !in keys
    ensures Without([v, v], keys) == [v, v]
  {
    assert [v, v][..1] == [v] && [v][..0] == [];
  }

  lemma TwiceInOrder(cfg: Config, p: Shape, again: string, source: Frame, target: Frame)
    requires AskedTwice(cfg, p, again)
    ensures ComparedOrder(cfg, [p.key], source, target) == [Canon(cfg, p.value), Canon(cfg, p.value)]
  {
    TwoCanonicalNames(cfg, p.key, p.value);
    assert CanonAll(cfg, [p.value, again]) == [Canon(cfg, p.value), Canon(cfg, p.value)];
    NothingRemoved(Canon(cfg, p.value), CanonSet(cfg, [p.key]));
  }

  lemma OnlySuchColumn(cfg: Config, p: Shape, columns: seq<string>)
    requires p.key != p.value && Canon(cfg, p.key) != Canon(cfg, p.value)
    requires CanonAll(cfg, columns) == [Canon(cfg, p.value), Canon(cfg, p.value)]
    requires forall n :: n in columns ==> n in [p.key, p.value]
    ensures columns == [p.value, p.value]
  {
    assert columns[0] in columns && columns[1] in columns;
    assert CanonAll(cfg, columns)[0] == Canon(cfg, columns[0]) && CanonAll(cfg, columns)[1] == Canon(cfg, columns[1]);
  }

  /** The comparison's columns and its one diff row, which names the column. */
  lemma OneDiffRow(cfg: Config, p: Shape, again: string, c: Case)
    requires AskedTwice(cfg, p, again) && Names(cfg, p) && Suits(cfg, p, c) && !CellsMeet(cfg, p, c) && Plain(p.value)
    ensures var s, t := SourceFrame(p, c), TargetFrame(p, c);
            && Ready(cfg, Some(s), Some(t))
            && var r := Compared([p.key], cfg, Some(s), Some(t));
            && r.Ok? && r.value.columns == [p.value, p.value]
            && |r.value.mismatch| == 1 && p.value in SplitColumns(r.value.mismatch[0].mismatchedColumns)
  {
    var s, t := SourceFrame(p, c), TargetFrame(p, c);
    OneSharedKey(cfg, p, c);
    CaseAccepted(cfg, p, c);
    CompareRefinesReference([p.key], cfg, s, t);
    TwiceInOrder(cfg, p, again, s, t);
    var r := Compared([p.key], cfg, Some(s), Some(t)).value;
    OnlySuchColumn(cfg, p, r.columns);
    assert r.mismatch[0] in r.mismatch;
    DiffRowNames(cfg, p.value, r.mismatch[0], TableOf(cfg, [p.key], s), TableOf(cfg, [p.key], t));
  }

  lemma DiffRowNames(cfg: Config, name: string, d: DiffRow, s: Table, t: Table)
    requires DiffHolds(cfg, [name, name], d, s, t) && Plain(name)
    ensures name in SplitColumns(d.mismatchedColumns)
  {
    var names := Differing(cfg, [name, name], s, t, d.key);
    assert names[0] in names;
    SplitColumnsRestores(names);
  }

  /** One row, two hits. */
  ghost predicate CountedTwice(column: string, r: Result<ComparisonResult, EngineError>) {
    && r.Ok? && |r.value.mismatch| == 1
    && ColumnHits(TextsOf(r.value.mismatch))[column] == 2 && |RowsNaming(TextsOf(r.value.mismatch), column)| == 1
  }

  lemma OneRowNaming(texts: seq<string>, column: string)
    requires |texts| == 1 && column in SplitColumns(texts[0])
    ensures |RowsNaming(texts, column)| == 1
  {
    LastRowHits(texts, column);
    assert texts[..0] == [];
    assert column in multiset(SplitColumns(texts[0]));
  }

  lemma TwiceOne(texts: seq<string>, column: string, columns: seq<string>)
    requires |texts| == 1 && column in SplitColumns(texts[0]) && columns == [column, column]
    requires ColumnHits(texts)[column] == multiset(columns)[column] * |RowsNaming(texts, column)|
    ensures ColumnHits(texts)[column] == 2 && |RowsNaming(texts, column)| == 1
  {
    OneRowNaming(texts, column);
    assert multiset(columns)[column] == 2;
  }

  lemma TwoHits(r: ComparisonResult, i: Inputs, column: string)
    requires r == Outcome(i.keys, i.cfg, i.columns, i.source, i.target) && r.columns == [column, column]
             && Plain(column)
    requires |r.mismatch| == 1 && column in SplitColumns(r.mismatch[0].mismatchedColumns)
    ensures ColumnHits(TextsOf(r.mismatch))[column] == 2 && |RowsNaming(TextsOf(r.mismatch), column)| == 1
  {
    HitsOfOutcome(i, column);
    TwiceOne(TextsOf(r.mismatch), column, i.columns);
  }

  /** A column asked for under two names counts its one differing row twice. */
  lemma TwoNamesCountTwice(cfg: Config, p: Shape, again: string, c: Case)
    requires AskedTwice(cfg, p, again) && Suits(cfg, p, c) && !CellsMeet(cfg, p, c) && Plain(p.value)
    ensures var s, t := SourceFrame(p, c), TargetFrame(p, c);
            Ready(cfg, Some(s), Some(t)) && CountedTwice(p.value, Compared([p.key], cfg, Some(s), Some(t)))
  {
    var s, t := SourceFrame(p, c), TargetFrame(p, c);
    AskedTwiceNames(cfg, p, again);
    OneDiffRow(cfg, p, again, c);
    var i := ResultIsOutcome([p.key], cfg, s, t);
    TwoHits(Compared([p.key], cfg, Some(s), Some(t)).value, i, p.value);
  }

  /** Frames with columns "id" and "A", compared on ["A", "a"] with case ignored: one row, two hits for "A". */
  lemma AskedForAsAAndSmallA() returns (cfg: Config, source: Frame, target: Frame)
    ensures cfg.caseInsensitiveColumns && cfg.compareColumns == Some(["A", "a"])
    ensures source.columns == ["id", "A"] == target.columns
    ensures source.rows == [map["id" := Str("1"), "A" := Num(0.0)]]
    ensures target.rows == [map["id" := Str("1"), "A" := Num(1.0)]]
    ensures Ready(cfg, Some(source), Some(target))
            && CountedTwice("A", Compared(["id"], cfg, Some(source), Some(target)))
  {
    cfg := Config(Some(["A", "a"]), true, false, false, 0.0, false, true, 100_000);
    var p, c := Shape("id", "A", Int64, Int64), Case("1", Num(0.0), Num(1.0), [], []);
    assert |Text.Fold("id")| == 2 && |Text.Fold("A")| == 1;
    assert Text.Fold("A") == "a" == Text.Fold("a");
    assert |"id"| != |"A"|;
    OneRowEach(cfg, p, c);
    TwoNamesCountTwice(cfg, p, "a", c);
    source, target := SourceFrame(p, c), TargetFrame(p, c);
  }

  lemma OneRowEach(cfg: Config, p: Shape, c: Case)
    requires p.key != p.value && p.source == Int64 == p.target && c.left == [] == c.right
    requires c.x == Num(0.0) && c.y == Num(1.0)
    ensures Suits(cfg, p, c) && !CellsMeet(cfg, p, c)
    ensures SourceFrame(p, c).rows == [EntryRow(p.key, p.value, Entry(c.id, c.x))]
    ensures TargetFrame(p, c).rows == [EntryRow(p.key, p.value, Entry(c.id, c.y))]
  {
    assert c.Lefts() == [Entry(c.id, c.x)] && c.Rights() == [Entry(c.id, c.y)];
  }
}
