/** Ranking the explanations of a diff: which one a reader sees first. */
module MismatchRanking {
  import opened Sequences
  import opened Sorting
  import opened ComparisonEngine
  import opened MismatchAnalysis

  /** One explanation: of a column, or of where the differences are concentrated. */
  datatype Pattern = Pattern(concentration: bool, column: string, hits: nat)

  /** What the detectors say of a column, given the rows that name it. */
  type Detector = (string, seq<DiffRow>) -> bool

  // ----- the sort key: more rows first, then findings before the concentration, then by column

  predicate AtMost(p: Pattern, q: Pattern) {
    || p.hits > q.hits
    || (p.hits == q.hits && !p.concentration && q.concentration)
    || (p.hits == q.hits && p.concentration == q.concentration && TextAtMost(p.column, q.column))
  }

  lemma AtMostTransitive(p: Pattern, q: Pattern, r: Pattern)
    requires AtMost(p, q) && AtMost(q, r)
    ensures AtMost(p, r)
  {
    if TextAtMost(p.column, q.column) && TextAtMost(q.column, r.column) {
      TextOrderTransitive(p.column, q.column, r.column);
    }
  }

  /** The patterns in the order of the sort key. */
  function Ranked(ps: seq<Pattern>): seq<Pattern> {
    Sort(ps, AtMost)
  }

  lemma AtMostIsOrder()
    ensures TotalOrder(AtMost)
  {
    forall p, q
      ensures AtMost(p, q) || AtMost(q, p)
    {
      TextOrderTotal(p.column, q.column);
    }
    forall p, q, r | AtMost(p, q) && AtMost(q, r)
      ensures AtMost(p, r)
    {
      AtMostTransitive(p, q, r);
    }
  }

  /** Ranking reorders the explanations by the sort key and does nothing else. */
  lemma RankedIsSorted(ps: seq<Pattern>)
    ensures Sorted(Ranked(ps), AtMost) && multiset(Ranked(ps)) == multiset(ps)
  {
    AtMostIsOrder();
    SortSorts(ps, AtMost);
  }

  // ----- the analysis

  /** The hit counts as the analyser walks them: every named column once, most hits first. */
  ghost predicate MostHitFirst(order: seq<string>, hits: multiset<string>) {
    && Distinct(order)
    && (forall c :: c in order <==> c in hits)
    && forall i, j :: 0 <= i < j < |order| ==> hits[order[i]] >= hits[order[j]]
  }

  /** One column holds every difference, or the most-hit column is in at least half of the rows. */
  function Concentration(order: seq<string>, hits: multiset<string>, total: nat): seq<Pattern> {
    if order != [] && total > 0 && (|order| == 1 || 2 * hits[order[0]] >= total)
    then [Pattern(true, order[0], hits[order[0]])] else []
  }

  function NamingRows(rows: seq<DiffRow>, column: string): seq<DiffRow> {
    Filter(rows, (r: DiffRow) => column in SplitColumns(r.mismatchedColumns))
  }

  predicate Explained(rows: seq<DiffRow>, frameColumns: seq<string>, detects: Detector, column: string) {
    column + SRC in frameColumns && column + TGT in frameColumns && detects(column, NamingRows(rows, column))
  }

  function Findings(order: seq<string>, hits: multiset<string>, rows: seq<DiffRow>, frameColumns: seq<string>,
                    detects: Detector): seq<Pattern>
  {
    if order == [] then []
    else
      var n := |order| - 1;
      Findings(order[..n], hits, rows, frameColumns, detects) +
      if Explained(rows, frameColumns, detects, order[n]) then [Pattern(false, order[n], hits[order[n]])] else []
  }

  lemma FindingsStep(order: seq<string>, hits: multiset<string>, rows: seq<DiffRow>, frameColumns: seq<string>,
                     detects: Detector, i: nat)
    requires i < |order|
    ensures Findings(order[..i + 1], hits, rows, frameColumns, detects) ==
            Findings(order[..i], hits, rows, frameColumns, detects) +
            if Explained(rows, frameColumns, detects, order[i]) then [Pattern(false, order[i], hits[order[i]])] else []
  {
    assert order[..i + 1][..i] == order[..i];
  }

  /** The ranked explanations of a diff frame; `order` is how the hit counts happen to be listed. */
  method AnalyseMismatches(rows: seq<DiffRow>, frameColumns: seq<string>, detects: Detector, order: seq<string>)
    returns (patterns: seq<Pattern>)
    requires MostHitFirst(order, ColumnHits(TextsOf(rows)))
    ensures var hits := ColumnHits(TextsOf(rows));
            patterns == if rows == [] || MISMATCHED_COLUMNS !in frameColumns then []
                        else Ranked(Concentration(order, hits, |rows|) +
                                    Findings(order, hits, rows, frameColumns, detects))
  {
    if rows == [] || MISMATCHED_COLUMNS !in frameColumns {
      return [];
    }
    var hits := ColumnHits(TextsOf(rows));
    var found := FindPatterns(order, hits, rows, frameColumns, detects);
    patterns := Ranked(Concentration(order, hits, |rows|) + found);
  }

  /** The loop over the named columns. */
  method FindPatterns(order: seq<string>, hits: multiset<string>, rows: seq<DiffRow>, frameColumns: seq<string>,
                      detects: Detector)
    returns (found: seq<Pattern>)
    ensures found == Findings(order, hits, rows, frameColumns, detects)
  {
    found := [];
    var i := 0;
    while i < |order|
      invariant 0 <= i <= |order| && found == Findings(order[..i], hits, rows, frameColumns, detects)
    {
      var column := order[i];
      FindingsStep(order, hits, rows, frameColumns, detects, i);
      var explained := column + SRC in frameColumns && column + TGT in frameColumns
          && detects(column, NamingRows(rows, column));
      if explained {
        found := found + [Pattern(false, column, hits[column])];
      }
      i := i + 1;
    }
    assert order[..i] == order;
  }

  lemma {:induction false} FindingsAre(order: seq<string>, hits: multiset<string>, rows: seq<DiffRow>,
                                       frameColumns: seq<string>, detects: Detector)
    ensures forall p :: p in Findings(order, hits, rows, frameColumns, detects) <==>
              !p.concentration && p.column in order && p.hits == hits[p.column]
                && Explained(rows, frameColumns, detects, p.column)
  {
    if order != [] {
      var n := |order| - 1;
      assert order == order[..n] + [order[n]];
      FindingsAre(order[..n], hits, rows, frameColumns, detects);
    }
  }

  /** A column is explained and hit as often as any other explained column. */
  ghost predicate MostHitExplained(column: string, order: seq<string>, hits: multiset<string>, rows: seq<DiffRow>,
                                   frameColumns: seq<string>, detects: Detector)
  {
    && column in order && Explained(rows, frameColumns, detects, column)
    && forall c :: c in order && Explained(rows, frameColumns, detects, c) ==>
         hits[c] < hits[column] || (hits[c] == hits[column] && TextAtMost(column, c))
  }

  /** How the first explanation relates to the explained columns. */
  ghost predicate HeadlineHolds(ranked: seq<Pattern>, concentrated: bool, order: seq<string>, hits: multiset<string>,
                                rows: seq<DiffRow>, frameColumns: seq<string>, detects: Detector)
  {
    && (ranked == [] <==> !concentrated && forall c :: c in order ==> !Explained(rows, frameColumns, detects, c))
    && (ranked != [] && !ranked[0].concentration ==>
          && ranked[0].hits == hits[ranked[0].column]
          && MostHitExplained(ranked[0].column, order, hits, rows, frameColumns, detects))
    && (concentrated ==>
          && order != [] && ranked != [] && ranked[0].hits == hits[order[0]]
          && (ranked[0].concentration <==>
               forall c :: c in order && hits[c] == hits[order[0]] ==> !Explained(rows, frameColumns, detects, c)))
  }

  /**
   There is no explanation exactly when nothing is concentrated and no column is explained. Otherwise the
   first one shown is of the most-hit explained column, the first by name among equals; only where a
   concentration was found, and no column with as many hits as the most-hit one is explained, does it say
   where to look rather than what happened.
   */
  lemma HeadlineMeaning(order: seq<string>, hits: multiset<string>, rows: seq<DiffRow>, frameColumns: seq<string>,
                        detects: Detector, total: nat)
    requires MostHitFirst(order, hits)
    ensures var where, what := Concentration(order, hits, total), Findings(order, hits, rows, frameColumns, detects);
            HeadlineHolds(Ranked(where + what), where != [], order, hits, rows, frameColumns, detects)
  {
    var where, what := Concentration(order, hits, total), Findings(order, hits, rows, frameColumns, detects);
    var ranked := Ranked(where + what);
    RankedIsSorted(where + what);
    SameElements(ranked, where + what);
    FindingsAre(order, hits, rows, frameColumns, detects);
    HeadlineOf(ranked, where, what, order, hits, rows, frameColumns, detects);
  }

  ghost predicate FindingsHold(what: seq<Pattern>, order: seq<string>, hits: multiset<string>, rows: seq<DiffRow>,
                               frameColumns: seq<string>, detects: Detector)
  {
    forall p :: p in what <==>
      !p.concentration && p.column in order && p.hits == hits[p.column]
        && Explained(rows, frameColumns, detects, p.column)
  }

  lemma HeadlineOf(ranked: seq<Pattern>, where: seq<Pattern>, what: seq<Pattern>, order: seq<string>,
                   hits: multiset<string>, rows: seq<DiffRow>, frameColumns: seq<string>, detects: Detector)
    requires MostHitFirst(order, hits) && Sorted(ranked, AtMost)
    requires forall p :: p in ranked <==> p in where + what
    requires where == [] || (order != [] && where == [Pattern(true, order[0], hits[order[0]])])
    requires FindingsHold(what, order, hits, rows, frameColumns, detects)
    ensures HeadlineHolds(ranked, where != [], order, hits, rows, frameColumns, detects)
  {
    forall c | c in order && Explained(rows, frameColumns, detects, c)
      ensures Pattern(false, c, hits[c]) in ranked
      ensures ranked[0] == Pattern(false, c, hits[c]) || AtMost(ranked[0], Pattern(false, c, hits[c]))
    {
      assert Pattern(false, c, hits[c]) in what;
      FirstIsLeast(ranked, Pattern(false, c, hits[c]));
    }
    if ranked != [] {
      assert ranked[0] in ranked;
      TextOrderTotal(ranked[0].column, ranked[0].column);
    }
    if where != [] {
      assert where[0] in where + what;
      FirstIsLeast(ranked, where[0]);
      MostHits(order, hits, ranked[0].column);
    }
  }

  lemma MostHits(order: seq<string>, hits: multiset<string>, c: string)
    requires MostHitFirst(order, hits) && order != []
    ensures c in order ==> hits[c] <= hits[order[0]]
  {
    if c in order {
      var i :| 0 <= i < |order| && order[i] == c;
    }
  }

  lemma FirstIsLeast(ps: seq<Pattern>, p: Pattern)
    requires Sorted(ps, AtMost) && p in ps
    ensures ps[0] == p || AtMost(ps[0], p)
  {
    var i :| 0 <= i < |ps| && ps[i] == p;
  }

  // ----- when something counts as concentrated, and what is looked at

  /** A single column is named. */
  ghost predicate OneColumnOnly(hits: multiset<string>) {
    (exists c :: c in hits) && forall c, d :: c in hits && d in hits ==> c == d
  }

  /** Some column is named at least once for every two rows. */
  ghost predicate HalfNamed(hits: multiset<string>, total: nat) {
    exists c :: c in hits && 2 * hits[c] >= total
  }

  lemma AllTheSame(order: seq<string>, c: string)
    requires Distinct(order) && c in order && forall d :: d in order ==> d == c
    ensures |order| == 1
  {
    assert ToSet(order) == {c};
    DistinctCardinality(order);
  }

  lemma OneListed(order: seq<string>, hits: multiset<string>)
    requires |order| == 1 && forall c :: c in order <==> c in hits
    ensures OneColumnOnly(hits)
  {
    var c := order[0];
    assert c in order && c in hits;
    forall d | d in hits
      ensures d == c
    {
      assert d in order;
    }
  }

  lemma OnlyOneListed(order: seq<string>, hits: multiset<string>)
    requires Distinct(order) && OneColumnOnly(hits) && forall c :: c in order <==> c in hits
    ensures |order| == 1
  {
    var c :| c in hits;
    AllTheSame(order, c);
  }

  lemma OneColumnListed(order: seq<string>, hits: multiset<string>)
    requires MostHitFirst(order, hits)
    ensures |order| == 1 <==> OneColumnOnly(hits)
  {
    if |order| == 1 {
      OneListed(order, hits);
    } else if OneColumnOnly(hits) {
      OnlyOneListed(order, hits);
    }
  }

  lemma MostHitDecides(order: seq<string>, hits: multiset<string>, total: nat)
    requires MostHitFirst(order, hits)
    ensures order != [] && 2 * hits[order[0]] >= total <==> HalfNamed(hits, total)
  {
    if HalfNamed(hits, total) {
      var c :| c in hits && 2 * hits[c] >= total;
      assert c in order;
      MostHits(order, hits, c);
    }
    if order != [] {
      assert order[0] in hits;
    }
  }

  ghost predicate MostHit(column: string, hits: multiset<string>) {
    column in hits && forall c :: c in hits ==> hits[c] <= hits[column]
  }

  lemma ConcentrationOfFirst(order: seq<string>, hits: multiset<string>, total: nat, one: bool, half: bool)
    requires one == (|order| == 1) && half == (order != [] && 2 * hits[order[0]] >= total)
    ensures Concentration(order, hits, total) ==
            if total > 0 && (one || half) then [Pattern(true, order[0], hits[order[0]])] else []
  {
  }

  /** The concentration reported, if any, is of a most-hit column. */
  ghost predicate SaysWhere(where: seq<Pattern>, hits: multiset<string>) {
    |where| == 1 && where[0] == Pattern(true, where[0].column, hits[where[0].column]) && MostHit(where[0].column, hits)
  }

  lemma SaysWhereOf(column: string, hits: multiset<string>)
    requires MostHit(column, hits)
    ensures SaysWhere([Pattern(true, column, hits[column])], hits)
  {
  }

  /**
   A concentration is reported for a frame with rows exactly when a single column is named in it, or some
   column is named at least once for every two rows; it is of a most-hit column.
   */
  lemma ConcentrationMeaning(order: seq<string>, hits: multiset<string>, total: nat)
    requires MostHitFirst(order, hits)
    ensures if total > 0 && (OneColumnOnly(hits) || HalfNamed(hits, total))
            then SaysWhere(Concentration(order, hits, total), hits)
            else Concentration(order, hits, total) == []
  {
    var one, half := OneColumnOnly(hits), HalfNamed(hits, total);
    OneColumnListed(order, hits);
    MostHitDecides(order, hits, total);
    ConcentrationOfFirst(order, hits, total, one, half);
    if one || half {
      FirstIsMostHit(order, hits);
      SaysWhereOf(order[0], hits);
    }
  }

  lemma FirstIsMostHit(order: seq<string>, hits: multiset<string>)
    requires MostHitFirst(order, hits) && order != []
    ensures MostHit(order[0], hits)
  {
    assert order[0] in order;
    forall c | c in hits
      ensures hits[c] <= hits[order[0]]
    {
      MostHits(order, hits, c);
    }
  }

  lemma DiffColumnsHold(columns: seq<string>, c: string)
    requires c in columns
    ensures c + SRC in DiffColumns(columns) && c + TGT in DiffColumns(columns)
    ensures c + "_source" in DiffColumns(columns) && c + "_target" in DiffColumns(columns)
  {
    var last := columns[|columns| - 1];
    WholeIsFrontAndLast(columns);
    if c != last {
      DiffColumnsHold(columns[..|columns| - 1], c);
    }
  }

  lemma NamingPush(rows: seq<DiffRow>, r: DiffRow, c: string, named: bool)
    requires named == (c in SplitColumns(r.mismatchedColumns))
    ensures NamingRows(rows + [r], c) == NamingRows(rows, c) + if named then [r] else []
  {
    FilterPush(rows, r, (d: DiffRow) => c in SplitColumns(d.mismatchedColumns));
  }

  lemma DiffsPush(cfg: Config, kinds: KindPair, columns: seq<string>, pairs: seq<Pair>, p: Pair)
    ensures Diffs(cfg, kinds, columns, pairs + [p]) ==
            Diffs(cfg, kinds, columns, pairs) + [Diff(cfg, kinds, columns, p)]
  {
  }

  lemma NamedExactlyWhenUnequal(cfg: Config, kinds: KindPair, columns: seq<string>, p: Pair, c: string)
    requires c in columns && forall n :: n in columns ==> Plain(n)
    ensures c in SplitColumns(Diff(cfg, kinds, columns, p).mismatchedColumns) <==> !ColumnEqual(cfg, kinds, c, p)
  {
    PlainRow(cfg, kinds, columns, p);
  }

  /** The rows a detector is shown for a column: the diff of exactly the pairs that differ in it. */
  lemma {:induction false} NamingRowsAreDiffering(cfg: Config, kinds: KindPair, columns: seq<string>,
                                                  pairs: seq<Pair>, c: string, differs: Pair -> bool)
    requires c in columns && forall n :: n in columns ==> Plain(n)
    requires forall p :: differs(p) == !ColumnEqual(cfg, kinds, c, p)
    ensures NamingRows(Diffs(cfg, kinds, columns, pairs), c) == Diffs(cfg, kinds, columns, Filter(pairs, differs))
  {
    if pairs != [] {
      var front, last := pairs[..|pairs| - 1], pairs[|pairs| - 1];
      NamingRowsAreDiffering(cfg, kinds, columns, front, c, differs);
      WholeIsFrontAndLast(pairs);
      DiffsPush(cfg, kinds, columns, front, last);
      NamedExactlyWhenUnequal(cfg, kinds, columns, last, c);
      NamingPush(Diffs(cfg, kinds, columns, front), Diff(cfg, kinds, columns, last), c, differs(last));
      FilterPush(front, last, differs);
      DiffsPush(cfg, kinds, columns, Filter(front, differs), last);
      NothingAdded(Filter(front, differs));
      NothingAdded(NamingRows(Diffs(cfg, kinds, columns, front), c));
    }
  }

  /**
   On the engine's own frame a compared column is explained exactly when its detectors recognise the pairs
   that differ in it; a column without both its cells in the frame never is.
   */
  lemma ExplainedMeaning(keys: seq<string>, cfg: Config, kinds: KindPair, columns: seq<string>, pairs: seq<Pair>,
                         detects: Detector, c: string)
    requires forall n :: n in columns ==> Plain(n)
    ensures var frame := MismatchFrameColumns(keys, columns);
            c in columns ==>
              (Explained(Diffs(cfg, kinds, columns, pairs), frame, detects, c) <==>
               detects(c, Diffs(cfg, kinds, columns, Filter(pairs, p => !ColumnEqual(cfg, kinds, c, p)))))
    ensures forall frame: seq<string> :: c + SRC !in frame || c + TGT !in frame ==>
              !Explained(Diffs(cfg, kinds, columns, pairs), frame, detects, c)
  {
    if c in columns {
      DiffColumnsHold(columns, c);
      NamingRowsAreDiffering(cfg, kinds, columns, pairs, c, p => !ColumnEqual(cfg, kinds, c, p));
    }
  }
}
