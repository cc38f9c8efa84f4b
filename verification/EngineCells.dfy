/**
 When two cells count as the same: stated on the cells as they are in the frames, for every kind and
 option, and carried to what a comparison reports.
 */
module EngineCells {
  import opened Wrappers
  import opened Frames
  import opened Verdicts
  import opened ComparisonEngine
  import opened EngineReference
  import opened EngineTheorems
  import opened EngineExamples
  import opened EngineLocality
  import opened EngineLaws
  import Text

  // ----- two cells

  /** Two texts a reader takes for the same: up to outer white space and up to case, as the options say. */
  predicate TextsMeet(cfg: Config, s: string, t: string) {
    var a, b := if cfg.trimStrings then Text.Strip(s) else s, if cfg.trimStrings then Text.Strip(t) else t;
    if cfg.ignoreCase then Text.Fold(a) == Text.Fold(b) else a == b
  }

  /** Two numbers no further apart than the tolerance allows in columns that are floating point or not. */
  predicate NumbersMeet(cfg: Config, floating: bool, a: real, b: real) {
    a == b || (floating && -cfg.floatTolerance <= a - b <= cfg.floatTolerance)
  }

  /** A null meets only a null, and that only if nulls are equal; a text never meets a number. */
  predicate Meets(cfg: Config, floating: bool, x: Cell, y: Cell) {
    match (x, y)
    case (Null, Null) => cfg.nullsEqual
    case (Str(s), Str(t)) => TextsMeet(cfg, s, t)
    case (Num(a), Num(b)) => NumbersMeet(cfg, floating, a, b)
    case _ => false
  }

  /** One of two columns is floating point, as declared or because missing values came into it. */
  predicate Floating(a: Kind, gainsNulls: bool, b: Kind, gainsNulls': bool) {
    a == Float64 || b == Float64 || (a == Int64 && gainsNulls) || (b == Int64 && gainsNulls')
  }

  lemma TextsMeetNormalised(cfg: Config, s: string, t: string)
    ensures TextsMeet(cfg, s, t) <==> NormalText(cfg, s) == NormalText(cfg, t)
  {
    FoldDecidesUpper(if cfg.trimStrings then Text.Strip(s) else s, if cfg.trimStrings then Text.Strip(t) else t);
  }

  lemma NumbersEqual(cfg: Config, a: Kind, p: bool, b: Kind, q: bool, x: real, y: real)
    requires !a.TextKind? && !b.TextKind?
    ensures CellsEqual(cfg, AfterMerge(a, p), AfterMerge(b, q), Num(x), Num(y)) <==>
              NumbersMeet(cfg, Floating(a, p, b, q), x, y)
  {
  }

  /** The verdict on two prepared cells, told by the cells as they were before preparation. */
  lemma PreparedCellsMeet(cfg: Config, a: Kind, p: bool, b: Kind, q: bool, x: Cell, y: Cell)
    requires Fits(a, x) && Fits(b, y)
    ensures CellsEqual(cfg, AfterMerge(a, p), AfterMerge(b, q), NormalCell(cfg, a, x), NormalCell(cfg, b, y)) <==>
              Meets(cfg, Floating(a, p, b, q), x, y)
  {
    match (x, y)
    case (Str(s), Str(t)) => TextsMeetNormalised(cfg, s, t);
    case (Num(s), Num(t)) => NumbersEqual(cfg, a, p, b, q, s, t);
    case _ =>
  }

  // ----- what a comparison reports for them

  /** Whether the second columns are floating point once the merge has brought in missing values. */
  predicate FloatingIn(p: Shape, c: Case) {
    Floating(p.source, c.right != [], p.target, c.left != [])
  }

  /**
   What `compare` reports for the key both sides have: a match if its two cells meet, else a mismatch. So
   a null against anything else is a mismatch under every option, two nulls match exactly when nulls are
   equal, two texts match exactly when they meet, and a text never matches a number.
   */
  lemma SharedKeyVerdict(cfg: Config, p: Shape, c: Case)
    requires Names(cfg, p) && Suits(cfg, p, c)
    ensures Fits(p.source, c.x) && Fits(p.target, c.y)
    ensures var s, t := SourceFrame(p, c), TargetFrame(p, c);
            && Ready(cfg, Some(s), Some(t))
            && var r := Compared([p.key], cfg, Some(s), Some(t));
            && r.Ok?
            && r.value.summary.rowsMatched == (if Meets(cfg, FloatingIn(p, c), c.x, c.y) then 1 else 0)
            && r.value.summary.rowsMismatched == (if Meets(cfg, FloatingIn(p, c), c.x, c.y) then 0 else 1)
  {
    WithoutStrangers(cfg, p, c);
    OneSharedKey(cfg, p, c);
    PreparedCellsMeet(cfg, p.source, c.right != [], p.target, c.left != [], c.x, c.y);
  }

  lemma AloneSuits(cfg: Config, p: Shape, c: Case)
    requires p.key != p.value && Fits(p.source, c.x) && Fits(p.target, c.y) && c.left == [] == c.right
    ensures Suits(cfg, p, c)
    ensures SourceFrame(p, c).rows == [EntryRow(p.key, p.value, Entry(c.id, c.x))]
    ensures TargetFrame(p, c).rows == [EntryRow(p.key, p.value, Entry(c.id, c.y))]
  {
    assert c.Lefts() == [Entry(c.id, c.x)] && c.Rights() == [Entry(c.id, c.y)];
  }

  lemma NoTextFold()
    ensures |Text.Fold("id")| == 2 && |Text.Fold("name")| == 4
  {
  }

  /** A null name against `Ann` is a mismatch although nulls are equal to each other. */
  lemma NullAgainstAnn() returns (cfg: Config, source: Frame, target: Frame)
    ensures cfg.nullsEqual && source.columns == ["id", "name"] == target.columns
    ensures source.rows == [map["id" := Str("1"), "name" := Null]]
    ensures target.rows == [map["id" := Str("1"), "name" := Str("Ann")]]
    ensures Ready(cfg, Some(source), Some(target))
    ensures var r := Compared(["id"], cfg, Some(source), Some(target));
            r.Ok? && r.value.summary.rowsMatched == 0 && r.value.summary.rowsMismatched == 1
  {
    cfg := Config(None, true, true, false, 0.0, false, true, 100_000);
    var p, c := Shape("id", "name", TextKind, TextKind), Case("1", Null, Str("Ann"), [], []);
    NoTextFold();
    assert |"id"| != |"name"|;
    AloneSuits(cfg, p, c);
    SharedKeyVerdict(cfg, p, c);
    source, target := SourceFrame(p, c), TargetFrame(p, c);
  }

  // ----- when two rows share a key

  /** Two one-row frames, the row on either side under an id of its own. */
  ghost predicate OneRowEach(p: Shape, a: Entry, b: Entry) {
    AllFit(p.source, [a]) && AllFit(p.target, [b])
  }

  lemma OneIdKey(cfg: Config, e: Entry)
    ensures IdKeys(cfg, [e]) == [IdKey(cfg, e)]
  {
  }

  lemma SameIdKey(cfg: Config, a: Entry, b: Entry)
    ensures IdKey(cfg, a) == IdKey(cfg, b) <==> TextsMeet(cfg, a.id, b.id)
  {
    TextsMeetNormalised(cfg, a.id, b.id);
    assert IdKey(cfg, a)[0] == Str(NormalText(cfg, a.id)) && IdKey(cfg, b)[0] == Str(NormalText(cfg, b.id));
  }

  lemma SetsOfOne(s: set<Key>, t: set<Key>, k: Key, l: Key)
    requires s == {k} && t == {l}
    ensures |s - t| == |t - s| == if k == l then 0 else 1
    ensures s + t == {k, l}
  {
    if k == l {
      assert s - t == {} && t - s == {};
    } else {
      assert s - t == {k} && t - s == {l};
    }
  }

  lemma OneRowTable(cfg: Config, key: string, value: string, kind: Kind, e: Entry)
    requires Canon(cfg, key) != Canon(cfg, value) && AllFit(kind, [e])
    ensures key != value && Unambiguous(cfg, TwoColumns(key, value, kind, [e]))
    ensures var t := TableOf(cfg, [key], TwoColumns(key, value, kind, [e]));
            t.rows.Keys == {IdKey(cfg, e)} && |t.rows| == 1
  {
    TwoColumnsUnambiguous(cfg, key, value, kind, [e]);
    TwoColumnsTable(cfg, key, value, kind, [e]);
    OneIdKey(cfg, e);
  }

  lemma OneRowTables(cfg: Config, p: Shape, a: Entry, b: Entry)
    requires Names(cfg, p) && OneRowEach(p, a, b)
    ensures var s, t := TwoColumns(p.key, p.value, p.source, [a]), TwoColumns(p.key, p.value, p.target, [b]);
            && Unambiguous(cfg, s) && Unambiguous(cfg, t) && Acceptable([p.key], cfg, s, t)
            && TableOf(cfg, [p.key], s).rows.Keys == {IdKey(cfg, a)}
            && TableOf(cfg, [p.key], t).rows.Keys == {IdKey(cfg, b)}
  {
    OneRowTable(cfg, p.key, p.value, p.source, a);
    OneRowTable(cfg, p.key, p.value, p.target, b);
    OnlyTheValueIsCompared(cfg, p, TwoColumns(p.key, p.value, p.source, [a]),
                           TwoColumns(p.key, p.value, p.target, [b]));
  }

  lemma MissingAndExtra(u: Summary, cfg: Config, columns: set<string>, s: Table, t: Table, k: Key, l: Key)
    requires SummaryHolds(u, Reconcile(cfg, columns, s, t), s, t)
    requires s.rows.Keys == {k} && t.rows.Keys == {l}
    ensures u.rowsMissingInTarget == u.rowsExtraInTarget == if k == l then 0 else 1
    ensures u.rowsMatched + u.rowsMismatched == if k == l then 1 else 0
  {
    SetsOfOne(s.rows.Keys, t.rows.Keys, k, l);
    SummaryAddsUp(cfg, columns, u, s, t);
    assert |s.rows| == |s.rows.Keys|;
  }

  /**
   Two rows are compared with each other exactly when their ids meet; otherwise the one is missing in the
   target and the other extra.
   */
  lemma IdsMeet(cfg: Config, p: Shape, a: Entry, b: Entry)
    requires Names(cfg, p) && OneRowEach(p, a, b)
    ensures var s, t := TwoColumns(p.key, p.value, p.source, [a]), TwoColumns(p.key, p.value, p.target, [b]);
            && Ready(cfg, Some(s), Some(t))
            && var r := Compared([p.key], cfg, Some(s), Some(t));
            && r.Ok?
            && r.value.summary.rowsMatched + r.value.summary.rowsMismatched ==
               (if TextsMeet(cfg, a.id, b.id) then 1 else 0)
            && r.value.summary.rowsMissingInTarget == (if TextsMeet(cfg, a.id, b.id) then 0 else 1)
            && r.value.summary.rowsExtraInTarget == (if TextsMeet(cfg, a.id, b.id) then 0 else 1)
  {
    var s, t := TwoColumns(p.key, p.value, p.source, [a]), TwoColumns(p.key, p.value, p.target, [b]);
    OneRowTables(cfg, p, a, b);
    CompareRefinesReference([p.key], cfg, s, t);
    SameIdKey(cfg, a, b);
    MissingAndExtra(Compared([p.key], cfg, Some(s), Some(t)).value.summary, cfg,
                    ComparedColumns(cfg, [p.key], s, t), TableOf(cfg, [p.key], s), TableOf(cfg, [p.key], t),
                    IdKey(cfg, a), IdKey(cfg, b));
  }

  // ----- the percentage

  /** `percent`, in units of 0.0001, is part of whole rounded to the nearest unit, ties to even. */
  predicate IsPercentage(percent: nat, part: nat, whole: nat) {
    var exact, shown := 2 * (1_000_000 * part), 2 * (percent * whole);
    && exact - whole <= shown <= exact + whole
    && (shown == exact - whole || shown == exact + whole ==> percent % 2 == 0)
  }

  lemma BuiltPercentage(u: Summary)
    requires Built(u)
    ensures if u.rowsCompared == 0 then u.successPercentage == 1_000_000
            else IsPercentage(u.successPercentage, u.rowsMatched, u.rowsCompared)
  {
    if u.rowsCompared > 0 {
      RoundIsNearest(u.rowsMatched * 1_000_000, u.rowsCompared);
    }
  }

  /** The reported percentage is the share of the compared keys that matched; 100.0 when there are none. */
  lemma SuccessIsShareMatched(keys: seq<string>, cfg: Config, source: Frame, target: Frame)
    requires Ready(cfg, Some(source), Some(target))
    ensures var r := Compared(keys, cfg, Some(source), Some(target));
            r.Ok? ==>
              var u := r.value.summary;
              if u.rowsCompared == 0 then u.successPercentage == 1_000_000
              else IsPercentage(u.successPercentage, u.rowsMatched, u.rowsCompared)
  {
    CompareRefinesAligned(keys, cfg, source, target);
    var r := Compared(keys, cfg, Some(source), Some(target));
    if r.Ok? {
      BuiltPercentage(r.value.summary);
    }
  }

  /** One percentage only is the nearest. */
  lemma PercentageIsUnique(p: nat, q: nat, part: nat, whole: nat)
    requires whole > 0 && IsPercentage(p, part, whole) && IsPercentage(q, part, whole)
    ensures p == q
  {
    MultiplesApart(p, q, whole);
    MultiplesApart(q, p, whole);
    if p < q {
      Neighbours(p, q, whole);
    } else if q < p {
      Neighbours(q, p, whole);
    }
  }

  lemma Neighbours(p: nat, q: nat, whole: nat)
    requires whole > 0 && p < q && q * whole - p * whole <= whole
    ensures q == p + 1 && q * whole == p * whole + whole
  {
    MultiplesApart(p + 1, q, whole);
    assert (p + 1) * whole == p * whole + whole;
  }
}
