/** How far one key's fate depends on the rows of other keys. */
module EngineLocality {
  import opened Wrappers
  import opened Frames
  import opened ComparisonEngine
  import opened EngineReference
  import opened EngineTheorems
  import opened EngineExamples
  import Text

  // ----- where it does not

  ghost predicate CellsFit(columns: set<string>, kinds: map<string, Kind>, r: Row) {
    forall c :: c in columns ==> Fits(KindOf(kinds, c), Get(r, c))
  }

  ghost predicate AllImmune(cfg: Config, columns: set<string>, s: Table, t: Table) {
    forall c :: c in columns ==> Immune(cfg, KindOf(s.kinds, c), KindOf(t.kinds, c))
  }

  lemma ImmuneCell(cfg: Config, a: map<string, Kind>, b: map<string, Kind>, c: string, p: bool, q: bool, x: Cell,
                   y: Cell)
    requires Immune(cfg, KindOf(a, c), KindOf(b, c)) && Fits(KindOf(a, c), x) && Fits(KindOf(b, c), y)
    ensures CellsEqual(cfg, KindOf(KindsAfterMerge(a, p), c), KindOf(KindsAfterMerge(b, q), c), x, y) ==
            CellsEqual(cfg, KindOf(a, c), KindOf(b, c), x, y)
  {
    MergeKeepsVerdicts(cfg, KindOf(a, c), KindOf(b, c));
    assert KindOf(KindsAfterMerge(a, p), c) == AfterMerge(KindOf(a, c), p);
    assert KindOf(KindsAfterMerge(b, q), c) == AfterMerge(KindOf(b, c), q);
  }

  lemma FateIsLocal(cfg: Config, columns: set<string>, s: Table, t: Table, k: Key)
    requires k in s.rows && k in t.rows && AllImmune(cfg, columns, s, t)
    requires CellsFit(columns, s.kinds, s.rows[k]) && CellsFit(columns, t.kinds, t.rows[k])
    ensures k in Reconcile(cfg, columns, s, t).matched <==>
            RowsAgree(cfg, columns, KindPair(s.kinds, t.kinds), s.rows[k], t.rows[k])
  {
    forall c | c in columns
      ensures CellsEqual(cfg, KindOf(TableKinds(s, t).source, c), KindOf(TableKinds(s, t).target, c),
                         Get(s.rows[k], c), Get(t.rows[k], c)) ==
              CellsEqual(cfg, KindOf(s.kinds, c), KindOf(t.kinds, c), Get(s.rows[k], c), Get(t.rows[k], c))
    {
      ImmuneCell(cfg, s.kinds, t.kinds, c, t.rows.Keys - s.rows.Keys != {}, s.rows.Keys - t.rows.Keys != {},
                 Get(s.rows[k], c), Get(t.rows[k], c));
    }
  }

  lemma NormalCellFits(cfg: Config, k: Kind, c: Cell)
    requires Fits(k, c)
    ensures Fits(k, NormalCell(cfg, k, c))
  {
  }

  lemma NormalRowFits(cfg: Config, f: Frame, i: nat, c: string)
    requires i < |f.rows| && c in f.kinds
    ensures Fits(f.kinds[c], Get(NormalRow(cfg, f.kinds, f.rows[i]), c))
  {
    assert f.rows[i] in f.rows;
    assert RowFits(f.kinds, f.rows[i]);
    NormalCellFits(cfg, f.kinds[c], f.rows[i][c]);
  }

  lemma TableRow(cfg: Config, keys: seq<string>, f: Frame, k: Key) returns (i: nat)
    requires Unambiguous(cfg, f) && k in TableOf(cfg, keys, f).rows
    ensures var g := Renamed(f, CanonAll(cfg, f.columns));
            i < |g.rows| && TableOf(cfg, keys, f).rows[k] == NormalRow(cfg, g.kinds, g.rows[i])
  {
    var rows, row := CanonRows(cfg, keys, f), TableOf(cfg, keys, f).rows[k];
    assert Lookup(rows, k) == Some(row);
    LookedUpIsThere(rows, k);
    i := PlaceOf(rows, Keyed(k, row));
  }

  lemma PlaceOf(rows: seq<Keyed<Row>>, r: Keyed<Row>) returns (i: nat)
    requires r in rows
    ensures i < |rows| && rows[i] == r
  {
    i :| 0 <= i < |rows| && rows[i] == r;
  }

  lemma CanonColumnHasKind(cfg: Config, f: Frame, c: string)
    requires Unambiguous(cfg, f) && c in CanonSet(cfg, f.columns)
    ensures c in Renamed(f, CanonAll(cfg, f.columns)).kinds
  {
    assert c in CanonAll(cfg, f.columns);
  }

  /** The rows of a frame's table fit the table's kinds. */
  lemma TableFits(cfg: Config, keys: seq<string>, f: Frame, columns: set<string>, k: Key)
    requires Unambiguous(cfg, f) && columns <= CanonSet(cfg, f.columns) && k in TableOf(cfg, keys, f).rows
    ensures CellsFit(columns, TableOf(cfg, keys, f).kinds, TableOf(cfg, keys, f).rows[k])
  {
    var i := TableRow(cfg, keys, f, k);
    forall c | c in columns
      ensures Fits(KindOf(TableOf(cfg, keys, f).kinds, c), Get(TableOf(cfg, keys, f).rows[k], c))
    {
      CanonColumnHasKind(cfg, f, c);
      NormalRowFits(cfg, Renamed(f, CanonAll(cfg, f.columns)), i, c);
    }
  }

  ghost function OwnMatches(cfg: Config, columns: set<string>, s: Table, t: Table): set<Key> {
    set k | k in s.rows && k in t.rows && RowsAgree(cfg, columns, KindPair(s.kinds, t.kinds), s.rows[k], t.rows[k])
  }

  lemma OwnMatchesAre(keys: seq<string>, cfg: Config, source: Frame, target: Frame, columns: set<string>, s: Table,
                      t: Table)
    requires Unambiguous(cfg, source) && Unambiguous(cfg, target)
    requires s == TableOf(cfg, keys, source) && t == TableOf(cfg, keys, target) && AllImmune(cfg, columns, s, t)
    requires columns <= CanonSet(cfg, source.columns) && columns <= CanonSet(cfg, target.columns)
    ensures Reconcile(cfg, columns, s, t).matched == OwnMatches(cfg, columns, s, t)
  {
    forall k | k in s.rows && k in t.rows
      ensures k in Reconcile(cfg, columns, s, t).matched <==>
              RowsAgree(cfg, columns, KindPair(s.kinds, t.kinds), s.rows[k], t.rows[k])
    {
      TableFits(cfg, keys, source, columns, k);
      TableFits(cfg, keys, target, columns, k);
      FateIsLocal(cfg, columns, s, t, k);
    }
  }

  /** When every compared pair of columns is immune, the matched rows are those whose own two rows agree as they are. */
  lemma LocalComparison(keys: seq<string>, cfg: Config, source: Frame, target: Frame)
    requires Unambiguous(cfg, source) && Unambiguous(cfg, target) && Acceptable(keys, cfg, source, target)
    requires AllImmune(cfg, ComparedColumns(cfg, keys, source, target), TableOf(cfg, keys, source),
                       TableOf(cfg, keys, target))
    ensures Ready(cfg, Some(source), Some(target))
    ensures var r := Compared(keys, cfg, Some(source), Some(target));
            var own := OwnMatches(cfg, ComparedColumns(cfg, keys, source, target), TableOf(cfg, keys, source),
                                  TableOf(cfg, keys, target));
            && r.Ok? && r.value.summary.rowsMatched == |own|
            && FrameHolds(cfg, r.value.keys, r.value.columns, r.value.exactMatch, own, TableOf(cfg, keys, source).rows)
  {
    CompareRefinesReference(keys, cfg, source, target);
    OwnMatchesAre(keys, cfg, source, target, ComparedColumns(cfg, keys, source, target), TableOf(cfg, keys, source),
                  TableOf(cfg, keys, target));
  }

  // ----- where it does

  /** How many rows `compare` reports as matched for such frames. */
  ghost function MatchedRows(cfg: Config, p: Shape, c: Case): nat
    requires Names(cfg, p) && Suits(cfg, p, c)
  {
    OneSharedKey(cfg, p, c);
    Compared([p.key], cfg, Some(SourceFrame(p, c)), Some(TargetFrame(p, c))).value.summary.rowsMatched
  }

  lemma MatchedRowsAre(cfg: Config, p: Shape, c: Case)
    requires Names(cfg, p) && Suits(cfg, p, c)
    ensures MatchedRows(cfg, p, c) == if CellsMeet(cfg, p, c) then 1 else 0
  {
    OneSharedKey(cfg, p, c);
  }

  lemma WithoutStrangers(cfg: Config, p: Shape, c: Case)
    requires Suits(cfg, p, c)
    ensures Suits(cfg, p, c.Alone()) && Fits(p.source, c.x) && Fits(p.target, c.y)
  {
    assert c.Lefts()[0] == Entry(c.id, c.x) && c.Rights()[0] == Entry(c.id, c.y);
  }

  /** No row of another key changes whether the shared key matches. */
  ghost predicate StrangersDoNotMatter(cfg: Config, p: Shape)
    requires Names(cfg, p)
  {
    forall c :: Suits(cfg, p, c) ==>
      (WithoutStrangers(cfg, p, c);
       MatchedRows(cfg, p, c) == MatchedRows(cfg, p, c.Alone()))
  }

  lemma ImmuneStrangers(cfg: Config, p: Shape, c: Case)
    requires Names(cfg, p) && Immune(cfg, p.source, p.target) && Suits(cfg, p, c)
    ensures Suits(cfg, p, c.Alone()) && MatchedRows(cfg, p, c) == MatchedRows(cfg, p, c.Alone())
  {
    WithoutStrangers(cfg, p, c);
    MatchedRowsAre(cfg, p, c);
    MatchedRowsAre(cfg, p, c.Alone());
    NormalCellFits(cfg, p.source, c.x);
    NormalCellFits(cfg, p.target, c.y);
    MergeKeepsVerdicts(cfg, p.source, p.target);
  }

  /** Two ids that preparation keeps apart. */
  ghost predicate TwoIds(cfg: Config, one: string, two: string) {
    NormalText(cfg, one) != NormalText(cfg, two)
  }

  lemma DigitIds(cfg: Config)
    ensures TwoIds(cfg, "1", "2")
  {
    assert Text.Trimmed("1") && Text.Trimmed("2");
    Text.TrimmedStrip("1");
    Text.TrimmedStrip("2");
    assert Text.Upper("1") == "1" && Text.Upper("2") == "2";
    assert "1"[0] != "2"[0];
  }

  lemma OneStrangerSuits(cfg: Config, p: Shape, one: string, two: string, c: Case)
    requires TwoIds(cfg, one, two) && Fits(p.source, c.x) && Fits(p.target, c.y) && c.id == one
    requires (c.left == [Entry(two, c.x)] && c.right == []) || (c.left == [] && c.right == [Entry(two, c.y)])
    ensures Suits(cfg, p, c) && Suits(cfg, p, c.Alone())
  {
    assert Suits(cfg, p, c);
    WithoutStrangers(cfg, p, c);
  }

  lemma StrangerBringsTolerance(cfg: Config, a: Kind, b: Kind)
    requires !Immune(cfg, a, b)
    ensures !a.TextKind? && !b.TextKind? && Fits(a, Num(0.0)) && Fits(b, Num(1.0))
    ensures !CellsEqual(cfg, AfterMerge(a, false), AfterMerge(b, false), Num(0.0), Num(1.0))
    ensures CellsEqual(cfg, AfterMerge(a, !b.Int64?), AfterMerge(b, b.Int64?), Num(0.0), Num(1.0))
  {
  }

  /**
   For any configuration under which the second column is compared, and any pair of its kinds that is not
   immune, two frames that report one mismatch and no match, and one further row on one side that turns
   the mismatch into a match: a source row when the target column is `int64`, else a target row.
   */
  lemma StrangerChangesAFate(cfg: Config, p: Shape, one: string, two: string) returns (c: Case)
    requires Names(cfg, p) && !Immune(cfg, p.source, p.target) && TwoIds(cfg, one, two)
    ensures |c.left| + |c.right| == 1 && Suits(cfg, p, c.Alone()) && Suits(cfg, p, c)
    ensures MatchedRows(cfg, p, c.Alone()) == 0 && MatchedRows(cfg, p, c) == 1
  {
    StrangerBringsTolerance(cfg, p.source, p.target);
    var x, y := Num(0.0), Num(1.0);
    if p.target.Int64? {
      c := Case(one, x, y, [Entry(two, x)], []);
    } else {
      c := Case(one, x, y, [], [Entry(two, y)]);
    }
    OneStrangerSuits(cfg, p, one, two, c);
    MatchedRowsAre(cfg, p, c.Alone());
    MatchedRowsAre(cfg, p, c);
  }

  /** A key's fate is its own rows' affair if and only if the two kinds are immune. */
  lemma LocalityIsImmunity(cfg: Config, p: Shape)
    requires Names(cfg, p)
    ensures StrangersDoNotMatter(cfg, p) <==> Immune(cfg, p.source, p.target)
  {
    if Immune(cfg, p.source, p.target) {
      forall c | Suits(cfg, p, c)
        ensures Suits(cfg, p, c.Alone()) && MatchedRows(cfg, p, c) == MatchedRows(cfg, p, c.Alone())
      {
        ImmuneStrangers(cfg, p, c);
      }
    } else {
      DigitIds(cfg);
      var c := StrangerChangesAFate(cfg, p, "1", "2");
    }
  }

  // ----- a concrete case

  lemma OneEntryMore(key: string, value: string, kind: Kind, e: Entry, more: Entry)
    requires key != value && AllFit(kind, [e] + []) && AllFit(kind, [e] + [more])
    ensures TwoColumns(key, value, kind, [e] + [more]).rows ==
            TwoColumns(key, value, kind, [e] + []).rows + [EntryRow(key, value, more)]
  {
    var longer, shorter := TwoColumns(key, value, kind, [e] + [more]), TwoColumns(key, value, kind, [e] + []);
    assert ([e] + [more])[1] == more && ([e] + [more])[0] == e && ([e] + [])[0] == e;
    assert |longer.rows| == 2 && longer.rows[0] == shorter.rows[0] && longer.rows[1] == EntryRow(key, value, more);
  }

  /** Whole numbers one apart, with a tolerance that reaches it: alone they differ, beside a stranger they match. */
  lemma ReachedByTolerance(cfg: Config, p: Shape, c: Case)
    requires cfg.floatTolerance >= 1.0 && p.source == Int64 == p.target && c.x == Num(0.0) && c.y == Num(1.0)
             && c.right == []
    ensures CellsMeet(cfg, p, c) <==> c.left != []
  {
  }

  lemma OneMoreRow(cfg: Config, p: Shape, one: string, two: string)
    returns (source: Frame, target: Frame, longer: Frame)
    requires Names(cfg, p) && p.source == Int64 == p.target && cfg.floatTolerance >= 1.0 && TwoIds(cfg, one, two)
    ensures source.columns == [p.key, p.value] == target.columns && longer.columns == source.columns
    ensures longer.kinds == source.kinds && longer.rows == source.rows + [map[p.key := Str(two), p.value := Num(0.0)]]
    ensures TurnsIntoMatch(p.key, cfg, source, target, longer)
  {
    var c := Case(one, Num(0.0), Num(1.0), [Entry(two, Num(0.0))], []);
    OneStrangerSuits(cfg, p, one, two, c);
    ReachedByTolerance(cfg, p, c);
    ReachedByTolerance(cfg, p, c.Alone());
    OneSharedKey(cfg, p, c);
    OneSharedKey(cfg, p, c.Alone());
    OneEntryMore(p.key, p.value, Int64, Entry(one, Num(0.0)), Entry(two, Num(0.0)));
    source, target, longer := SourceFrame(p, c.Alone()), TargetFrame(p, c), SourceFrame(p, c);
  }

  /** One mismatch and no match; with the longer source, one match and no mismatch. */
  ghost predicate TurnsIntoMatch(key: string, cfg: Config, source: Frame, target: Frame, longer: Frame) {
    && Ready(cfg, Some(source), Some(target)) && Ready(cfg, Some(longer), Some(target))
    && var r, w := Compared([key], cfg, Some(source), Some(target)), Compared([key], cfg, Some(longer), Some(target));
    && r.Ok? && r.value.summary.rowsMatched == 0 && r.value.summary.rowsMismatched == 1
    && w.Ok? && w.value.summary.rowsMatched == 1 && w.value.summary.rowsMismatched == 0
  }

  /**
   A concrete pair of frames with columns "id" and "amount": one more source row turns the one mismatch
   into a match.
   */
  lemma AmountsExample() returns (cfg: Config, source: Frame, target: Frame, longer: Frame)
    ensures source.columns == ["id", "amount"] == target.columns && longer.columns == source.columns
    ensures longer.kinds == source.kinds && longer.rows == source.rows + [map["id" := Str("2"), "amount" := Num(0.0)]]
    ensures TurnsIntoMatch("id", cfg, source, target, longer)
  {
    cfg := Config(None, true, false, false, 1.0, false, true, 100_000);
    assert |Text.Fold("id")| != |Text.Fold("amount")|;
    assert |"id"| != |"amount"|;
    DigitIds(cfg);
    source, target, longer := OneMoreRow(cfg, Shape("id", "amount", Int64, Int64), "1", "2");
  }
}
