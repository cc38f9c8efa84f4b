/**
 Laws a reader may count on: comparing a frame with itself, loosening the options, the tolerance,
 normalising twice.
 */
module EngineLaws {
  import opened Wrappers
  import opened Sequences
  import opened Frames
  import opened ComparisonEngine
  import opened EngineReference
  import opened EngineTheorems
  import opened EngineExamples
  import opened EngineLocality
  import Text

  // ----- a frame against itself

  ghost predicate HasNoNulls(columns: set<string>, t: Table) {
    forall k, c :: k in t.rows && c in columns ==> !Get(t.rows[k], c).Null?
  }

  lemma CellEqualsItself(cfg: Config, kind: Kind, c: Cell)
    ensures CellsEqual(cfg, kind, kind, c, c) <==> cfg.nullsEqual || !c.Null?
  {
  }

  lemma RowAgreesWithItself(cfg: Config, columns: set<string>, kinds: map<string, Kind>, r: Row)
    ensures RowsAgree(cfg, columns, KindPair(kinds, kinds), r, r) <==>
              cfg.nullsEqual || forall c :: c in columns ==> !Get(r, c).Null?
  {
    forall c | c in columns
      ensures CellsEqual(cfg, KindOf(kinds, c), KindOf(kinds, c), Get(r, c), Get(r, c)) <==>
                cfg.nullsEqual || !Get(r, c).Null?
    {
      CellEqualsItself(cfg, KindOf(kinds, c), Get(r, c));
    }
  }

  lemma SelfReconciled(cfg: Config, columns: set<string>, t: Table)
    ensures var f := Reconcile(cfg, columns, t, t);
            && f.missing == {} && f.extra == {}
            && f.matched + f.mismatched == t.rows.Keys
            && (f.mismatched == {} <==> cfg.nullsEqual || HasNoNulls(columns, t))
  {
    var f := Reconcile(cfg, columns, t, t);
    var kinds := KindsAfterMerge(t.kinds, false);
    assert t.rows.Keys - t.rows.Keys == {};
    forall k | k in t.rows
      ensures Agree(cfg, columns, t, t, k) <==> cfg.nullsEqual || forall c :: c in columns ==> !Get(t.rows[k], c).Null?
    {
      RowAgreesWithItself(cfg, columns, kinds, t.rows[k]);
    }
    if f.mismatched == {} && !cfg.nullsEqual {
      forall k, c | k in t.rows && c in columns
        ensures !Get(t.rows[k], c).Null?
      {
        assert k !in f.mismatched;
      }
    }
    if !cfg.nullsEqual && HasNoNulls(columns, t) {
      forall k | k in t.rows
        ensures k !in f.mismatched
      {
      }
    }
  }

  /**
   A frame compared with itself has no missing and no extra row, and it has no mismatch exactly when
   null equals null or no compared cell is null; without a mismatch it passes.
   */
  lemma SelfComparison(keys: seq<string>, cfg: Config, f: Frame)
    requires Unambiguous(cfg, f)
    ensures Ready(cfg, Some(f), Some(f))
    ensures var r, t := Compared(keys, cfg, Some(f), Some(f)), TableOf(cfg, keys, f);
            && (r.Ok? <==> Acceptable(keys, cfg, f, f))
            && (r.Ok? ==>
                 var u := r.value.summary;
                 && u.rowsMissingInTarget == 0 && u.rowsExtraInTarget == 0
                 && u.rowsMatched + u.rowsMismatched == |t.rows|
                 && (u.rowsMismatched == 0 <==> cfg.nullsEqual || HasNoNulls(ComparedColumns(cfg, keys, f, f), t))
                 && (u.rowsMismatched == 0 ==> u.passed))
  {
    CompareRefinesReference(keys, cfg, f, f);
    SelfReconciled(cfg, ComparedColumns(cfg, keys, f, f), TableOf(cfg, keys, f));
    var r := Compared(keys, cfg, Some(f), Some(f));
    if r.Ok? {
      SelfSummary(cfg, ComparedColumns(cfg, keys, f, f), TableOf(cfg, keys, f), r.value.summary);
    }
  }

  lemma SelfSummary(cfg: Config, columns: set<string>, t: Table, u: Summary)
    requires SummaryHolds(u, Reconcile(cfg, columns, t, t), t, t)
    ensures u.rowsMissingInTarget == 0 && u.rowsExtraInTarget == 0 && u.rowsMatched + u.rowsMismatched == |t.rows|
    ensures u.rowsMismatched == 0 <==> Reconcile(cfg, columns, t, t).mismatched == {}
    ensures u.rowsMismatched == 0 ==> u.passed
  {
    SelfReconciled(cfg, columns, t);
    SummaryAddsUp(cfg, columns, u, t, t);
    BuiltVerdict(u);
  }

  // ----- looser options

  /** Nulls may newly be equal and the tolerance may be larger. */
  ghost predicate Looser(cfg: Config, cfg': Config) {
    && (cfg.nullsEqual ==> cfg'.nullsEqual)
    && cfg.floatTolerance <= cfg'.floatTolerance
  }

  /** Otherwise the same configuration, but for the columns to compare and the chunk size. */
  predicate SamePreparation(cfg: Config, cfg': Config) {
    && cfg'.trimStrings == cfg.trimStrings && cfg'.ignoreCase == cfg.ignoreCase
    && cfg'.caseInsensitiveColumns == cfg.caseInsensitiveColumns && cfg'.dropDuplicateKeys == cfg.dropDuplicateKeys
  }

  lemma CellStaysEqual(cfg: Config, cfg': Config, a: Kind, b: Kind, x: Cell, y: Cell)
    requires Looser(cfg, cfg') && CellsEqual(cfg, a, b, x, y)
    ensures CellsEqual(cfg', a, b, x, y)
  {
  }

  lemma LooserReconciled(cfg: Config, cfg': Config, columns: set<string>, fewer: set<string>, s: Table, t: Table)
    requires Looser(cfg, cfg') && fewer <= columns
    ensures var f, g := Reconcile(cfg, columns, s, t), Reconcile(cfg', fewer, s, t);
            && f.matched <= g.matched && g.mismatched <= f.mismatched
            && g.missing == f.missing && g.extra == f.extra
            && f.matched + f.mismatched == g.matched + g.mismatched
  {
    var kinds := TableKinds(s, t);
    forall k | k in s.rows && k in t.rows && Agree(cfg, columns, s, t, k)
      ensures Agree(cfg', fewer, s, t, k)
    {
      forall c | c in fewer
        ensures CellsEqual(cfg', KindOf(kinds.source, c), KindOf(kinds.target, c), Get(s.rows[k], c), Get(t.rows[k], c))
      {
        CellStaysEqual(cfg, cfg', KindOf(kinds.source, c), KindOf(kinds.target, c), Get(s.rows[k], c),
                       Get(t.rows[k], c));
      }
    }
  }

  lemma SameNames(cfg: Config, cfg': Config, names: seq<string>)
    requires SamePreparation(cfg, cfg')
    ensures CanonAll(cfg', names) == CanonAll(cfg, names)
  {
  }

  lemma SameNormalRow(cfg: Config, cfg': Config, kinds: map<string, Kind>, r: Row)
    requires SamePreparation(cfg, cfg')
    ensures NormalRow(cfg', kinds, r) == NormalRow(cfg, kinds, r)
  {
  }

  lemma SameNormalRows(cfg: Config, cfg': Config, kinds: map<string, Kind>, rows: seq<Row>)
    requires SamePreparation(cfg, cfg')
    ensures NormalRows(cfg', kinds, rows) == NormalRows(cfg, kinds, rows)
  {
    forall i | 0 <= i < |rows|
      ensures NormalRow(cfg', kinds, rows[i]) == NormalRow(cfg, kinds, rows[i])
    {
      SameNormalRow(cfg, cfg', kinds, rows[i]);
    }
  }

  lemma SameTable(cfg: Config, cfg': Config, keys: seq<string>, f: Frame)
    requires SamePreparation(cfg, cfg') && Unambiguous(cfg, f)
    ensures Unambiguous(cfg', f) && TableOf(cfg', keys, f) == TableOf(cfg, keys, f)
  {
    SameNames(cfg, cfg', f.columns);
    SameNames(cfg, cfg', keys);
    var g := Renamed(f, CanonAll(cfg, f.columns));
    SameNormalRows(cfg, cfg', g.kinds, g.rows);
  }

  /** The summary of a looser comparison against that of a stricter one. */
  predicate MatchesMore(u: Summary, v: Summary) {
    && v.rowsSource == u.rowsSource && v.rowsTarget == u.rowsTarget && v.rowsCompared == u.rowsCompared
    && v.rowsMissingInTarget == u.rowsMissingInTarget && v.rowsExtraInTarget == u.rowsExtraInTarget
    && u.rowsMatched <= v.rowsMatched && v.rowsMismatched <= u.rowsMismatched && v.rowsFailed <= u.rowsFailed
    && (u.passed ==> v.passed)
  }

  /**
   Letting nulls be equal, raising the tolerance or comparing fewer columns never refuses frames that were
   accepted; every row that matched still matches, the one-sided rows stay, and PASS stays PASS.
   */
  lemma LooserMatchesMore(keys: seq<string>, cfg: Config, cfg': Config, source: Frame, target: Frame)
    requires Unambiguous(cfg, source) && Unambiguous(cfg, target)
    requires Looser(cfg, cfg') && SamePreparation(cfg, cfg')
    requires ComparedColumns(cfg', keys, source, target) <= ComparedColumns(cfg, keys, source, target)
    ensures Ready(cfg, Some(source), Some(target)) && Ready(cfg', Some(source), Some(target))
    ensures var r, w := Compared(keys, cfg, Some(source), Some(target)),
                        Compared(keys, cfg', Some(source), Some(target));
            r.Ok? ==>
              && w.Ok? && MatchesMore(r.value.summary, w.value.summary)
              && ToSet(KeysOf(r.value.exactMatch, r.value.keys)) <= ToSet(KeysOf(w.value.exactMatch, w.value.keys))
  {
    SameTable(cfg, cfg', keys, source);
    SameTable(cfg, cfg', keys, target);
    CompareRefinesReference(keys, cfg, source, target);
    CompareRefinesReference(keys, cfg', source, target);
    var r, w := Compared(keys, cfg, Some(source), Some(target)), Compared(keys, cfg', Some(source), Some(target));
    if r.Ok? {
      StillAcceptable(keys, cfg, cfg', source, target);
      var columns, fewer := ComparedColumns(cfg, keys, source, target), ComparedColumns(cfg', keys, source, target);
      LooserReconciled(cfg, cfg', columns, fewer, TableOf(cfg, keys, source), TableOf(cfg, keys, target));
      LooserSummary(cfg, cfg', columns, fewer, TableOf(cfg, keys, source), TableOf(cfg, keys, target),
                    r.value.summary, w.value.summary);
    }
  }

  lemma StillAcceptable(keys: seq<string>, cfg: Config, cfg': Config, source: Frame, target: Frame)
    requires Unambiguous(cfg, source) && Unambiguous(cfg, target) && SamePreparation(cfg, cfg')
    requires Acceptable(keys, cfg, source, target)
    requires ComparedColumns(cfg', keys, source, target) <= ComparedColumns(cfg, keys, source, target)
    ensures Unambiguous(cfg', source) && Unambiguous(cfg', target) && Acceptable(keys, cfg', source, target)
  {
    SameTable(cfg, cfg', keys, source);
    SameTable(cfg, cfg', keys, target);
    SameNames(cfg, cfg', keys);
    SameNames(cfg, cfg', source.columns);
    SameNames(cfg, cfg', target.columns);
  }

  lemma LooserSummary(cfg: Config, cfg': Config, columns: set<string>, fewer: set<string>, s: Table, t: Table,
                      u: Summary, v: Summary)
    requires Looser(cfg, cfg') && fewer <= columns
    requires SummaryHolds(u, Reconcile(cfg, columns, s, t), s, t) && SummaryHolds(v, Reconcile(cfg', fewer, s, t), s, t)
    ensures MatchesMore(u, v)
  {
    var f, g := Reconcile(cfg, columns, s, t), Reconcile(cfg', fewer, s, t);
    LooserReconciled(cfg, cfg', columns, fewer, s, t);
    SubsetSize(f.matched, g.matched);
    SubsetSize(g.mismatched, f.mismatched);
    SummaryAddsUp(cfg, columns, u, s, t);
    SummaryAddsUp(cfg', fewer, v, s, t);
    BuiltVerdict(u);
    BuiltVerdict(v);
  }

  // ----- the tolerance

  /** Whether a column is floating point by the time its cells are compared. */
  predicate BecomesFloat(kind: Kind, gainsNulls: bool) {
    kind.Float64? || (kind.Int64? && gainsNulls)
  }

  lemma NumbersWithinReach(cfg: Config, a: Kind, b: Kind, p: bool, q: bool, x: real, y: real)
    requires !a.TextKind? && !b.TextKind?
    ensures CellsEqual(cfg, AfterMerge(a, p), AfterMerge(b, q), Num(x), Num(y)) <==>
              Abs(x - y) <=
                if (BecomesFloat(a, p) || BecomesFloat(b, q)) && cfg.floatTolerance > 0.0 then cfg.floatTolerance
                else 0.0
  {
  }

  /**
   How far apart two numbers of one key may be and still be reported as a match: the tolerance and no
   further, provided it is positive and one of the two columns is floating point, either as declared or
   because rows of the other side left missing values in it; otherwise not at all.
   */
  lemma ToleranceBoundary(cfg: Config, p: Shape, c: Case)
    requires Names(cfg, p) && Suits(cfg, p, c) && c.x.Num? && c.y.Num?
    ensures var floating := BecomesFloat(p.source, c.right != []) || BecomesFloat(p.target, c.left != []);
            var reach := if floating && cfg.floatTolerance > 0.0 then cfg.floatTolerance else 0.0;
            MatchedRows(cfg, p, c) == (if Abs(c.x.value - c.y.value) <= reach then 1 else 0)
  {
    WithoutStrangers(cfg, p, c);
    NumbersWithinReach(cfg, p.source, p.target, c.right != [], c.left != [], c.x.value, c.y.value);
    MatchedRowsAre(cfg, p, c);
  }

  // ----- normalising

  lemma {:induction false} UpperStripsLeft(s: string)
    ensures Text.LStrip(Text.Upper(s)) == Text.Upper(Text.LStrip(s))
  {
    if s != "" && Text.IsSpace(s[0]) {
      assert Text.Upper(s)[1..] == Text.Upper(s[1..]);
      UpperStripsLeft(s[1..]);
    }
  }

  lemma {:induction false} UpperStripsRight(s: string)
    ensures Text.RStrip(Text.Upper(s)) == Text.Upper(Text.RStrip(s))
  {
    if s != "" && Text.IsSpace(s[|s| - 1]) {
      assert Text.Upper(s)[..|s| - 1] == Text.Upper(s[..|s| - 1]);
      UpperStripsRight(s[..|s| - 1]);
    }
  }

  /** Trimming and upper-casing may be done in either order. */
  lemma UpperStrips(s: string)
    ensures Text.Strip(Text.Upper(s)) == Text.Upper(Text.Strip(s))
  {
    UpperStripsLeft(s);
    UpperStripsRight(Text.LStrip(s));
  }

  lemma UpperTwice(s: string)
    ensures Text.Upper(Text.Upper(s)) == Text.Upper(s)
  {
  }

  /** Preparing an already prepared cell changes nothing. */
  lemma NormalisingTwice(cfg: Config, kind: Kind, c: Cell)
    ensures NormalCell(cfg, kind, NormalCell(cfg, kind, c)) == NormalCell(cfg, kind, c)
  {
    if c.Str? {
      var stripped := Text.Strip(c.text);
      Text.StripTrimmed(c.text);
      Text.TrimmedStrip(stripped);
      UpperStrips(stripped);
      UpperTwice(stripped);
      UpperTwice(c.text);
    }
  }

  lemma FoldDecidesUpper(s: string, t: string)
    ensures Text.Fold(s) == Text.Fold(t) <==> Text.Upper(s) == Text.Upper(t)
  {
    if |s| == |t| {
      forall i | 0 <= i < |s|
        ensures Text.Fold(s)[i] == Text.Fold(t)[i] <==> Text.Upper(s)[i] == Text.Upper(t)[i]
      {
      }
      if Text.Fold(s) == Text.Fold(t) {
        assert Text.Upper(s) == Text.Upper(t);
      }
      if Text.Upper(s) == Text.Upper(t) {
        assert Text.Fold(s) == Text.Fold(t);
      }
    }
  }

  /** With case ignored and no trimming, two texts become equal exactly when they differ by case only. */
  lemma IgnoringCase(cfg: Config, s: string, t: string)
    requires cfg.ignoreCase && !cfg.trimStrings
    ensures NormalText(cfg, s) == NormalText(cfg, t) <==> Text.Fold(s) == Text.Fold(t)
  {
    FoldDecidesUpper(s, t);
  }
}
