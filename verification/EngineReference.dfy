/**
 A simple key-by-key account of a comparison. Both frames become tables from key to row, addressed by
 canonical column names, and each key gets one of four fates. The engine is later shown to refine it.
 */
module EngineReference {
  import opened Wrappers
  import opened Sequences
  import opened Frames
  import opened ComparisonEngine
  import Text

  /** How a column is identified: by its folded name, or by its name. */
  function Canon(cfg: Config, name: string): string {
    if cfg.caseInsensitiveColumns then Text.Fold(name) else name
  }

  function CanonAll(cfg: Config, names: seq<string>): (canonical: seq<string>)
    ensures |canonical| == |names| && forall i :: 0 <= i < |names| ==> canonical[i] == Canon(cfg, names[i])
  {
    seq(|names|, i requires 0 <= i < |names| => Canon(cfg, names[i]))
  }

  ghost function CanonSet(cfg: Config, names: seq<string>): set<string> {
    ToSet(CanonAll(cfg, names))
  }

  /** No two columns of the frame are identified with each other. */
  ghost predicate Unambiguous(cfg: Config, f: Frame) {
    Distinct(CanonAll(cfg, f.columns))
  }

  datatype Table = Table(kinds: map<string, Kind>, rows: map<Key, Row>)

  /** The frame's normalised rows under their keys, all names canonical. */
  function CanonRows(cfg: Config, keys: seq<string>, f: Frame): seq<Keyed<Row>>
    requires Unambiguous(cfg, f)
  {
    var g := Renamed(f, CanonAll(cfg, f.columns));
    KeyedRows(NormalRows(cfg, g.kinds, g.rows), CanonAll(cfg, keys))
  }

  ghost function Index(rows: seq<Keyed<Row>>): (table: map<Key, Row>)
    ensures table.Keys == KeySet(rows)
    ensures forall k :: k in table ==> Lookup(rows, k) == Some(table[k])
  {
    assert forall k :: k in KeySet(rows) ==> Lookup(rows, k).Some? by {
      forall k | k in KeySet(rows) ensures Lookup(rows, k).Some? {
        LookupFound(rows, k);
      }
    }
    map k | k in KeySet(rows) :: Lookup(rows, k).value
  }

  ghost function TableOf(cfg: Config, keys: seq<string>, f: Frame): Table
    requires Unambiguous(cfg, f)
  {
    Table(Renamed(f, CanonAll(cfg, f.columns)).kinds, Index(CanonRows(cfg, keys, f)))
  }

  /** The columns compared: those asked for, or those both frames have; never a key. */
  ghost function ComparedColumns(cfg: Config, keys: seq<string>, source: Frame, target: Frame): set<string> {
    match cfg.compareColumns
    case Some(names) => CanonSet(cfg, names) - CanonSet(cfg, keys)
    case None => CanonSet(cfg, source.columns) * CanonSet(cfg, target.columns) - CanonSet(cfg, keys)
  }

  function Within(names: seq<string>, allowed: set<string>): seq<string> {
    Filter(names, n => n in allowed)
  }

  function Without(names: seq<string>, excluded: set<string>): seq<string> {
    Filter(names, n => n !in excluded)
  }

  /** The same columns in the order they are reported: as asked for, or as the source has them. */
  ghost function ComparedOrder(cfg: Config, keys: seq<string>, source: Frame, target: Frame): seq<string> {
    match cfg.compareColumns
    case Some(names) => Without(CanonAll(cfg, names), CanonSet(cfg, keys))
    case None => Without(Within(CanonAll(cfg, source.columns), CanonSet(cfg, target.columns)), CanonSet(cfg, keys))
  }

  lemma OrderListsColumns(cfg: Config, keys: seq<string>, source: Frame, target: Frame)
    ensures ToSet(ComparedOrder(cfg, keys, source, target)) == ComparedColumns(cfg, keys, source, target)
  {
  }

  /** Each key's fate. */
  datatype Fates = Fates(matched: set<Key>, mismatched: set<Key>, missing: set<Key>, extra: set<Key>)

  ghost predicate RowsAgree(cfg: Config, columns: set<string>, kinds: KindPair, s: Row, t: Row) {
    forall c :: c in columns ==> CellsEqual(cfg, KindOf(kinds.source, c), KindOf(kinds.target, c), Get(s, c), Get(t, c))
  }

  /** The kinds once the merge has filled in missing values. */
  ghost function TableKinds(s: Table, t: Table): KindPair {
    KindPair(KindsAfterMerge(s.kinds, t.rows.Keys - s.rows.Keys != {}),
             KindsAfterMerge(t.kinds, s.rows.Keys - t.rows.Keys != {}))
  }

  ghost predicate Agree(cfg: Config, columns: set<string>, s: Table, t: Table, k: Key)
    requires k in s.rows && k in t.rows
  {
    RowsAgree(cfg, columns, TableKinds(s, t), s.rows[k], t.rows[k])
  }

  ghost function Reconcile(cfg: Config, columns: set<string>, s: Table, t: Table): Fates {
    Fates(
      (set k | k in s.rows && k in t.rows && Agree(cfg, columns, s, t, k)),
      (set k | k in s.rows && k in t.rows && !Agree(cfg, columns, s, t, k)),
      s.rows.Keys - t.rows.Keys,
      t.rows.Keys - s.rows.Keys)
  }

  ghost function Reference(keys: seq<string>, cfg: Config, source: Frame, target: Frame): Fates
    requires Unambiguous(cfg, source) && Unambiguous(cfg, target)
  {
    Reconcile(cfg, ComparedColumns(cfg, keys, source, target), TableOf(cfg, keys, source), TableOf(cfg, keys, target))
  }

  /** When a comparison is accepted rather than refused. */
  ghost predicate Acceptable(keys: seq<string>, cfg: Config, source: Frame, target: Frame)
    requires Unambiguous(cfg, source) && Unambiguous(cfg, target)
  {
    && CanonSet(cfg, keys) <= CanonSet(cfg, source.columns) * CanonSet(cfg, target.columns)
    && (cfg.dropDuplicateKeys ||
        (|TableOf(cfg, keys, source).rows| == |source.rows| && |TableOf(cfg, keys, target).rows| == |target.rows|))
    && (cfg.compareColumns.Some? ==>
          ComparedColumns(cfg, keys, source, target) <= CanonSet(cfg, source.columns) * CanonSet(cfg, target.columns))
  }

  // ----- partition and symmetry of the reference

  lemma FourParts<T>(a: set<T>, b: set<T>, c: set<T>, d: set<T>)
    requires a !! b !! c !! d
    ensures |a + b + c| == |a| + |b| + |c|
    ensures |a + b + d| == |a| + |b| + |d|
    ensures |a + b + c + d| == |a| + |b| + |c| + |d|
  {
  }

  /** The four fates are disjoint, cover every key, and account for each side's keys. */
  lemma FatesPartition(cfg: Config, columns: set<string>, s: Table, t: Table)
    ensures var f := Reconcile(cfg, columns, s, t);
            && f.matched !! f.mismatched !! f.missing !! f.extra
            && f.matched + f.mismatched + f.missing + f.extra == s.rows.Keys + t.rows.Keys
            && |f.matched| + |f.mismatched| + |f.missing| == |s.rows|
            && |f.matched| + |f.mismatched| + |f.extra| == |t.rows|
            && |f.matched| + |f.mismatched| + |f.missing| + |f.extra| == |s.rows.Keys + t.rows.Keys|
  {
    FatesCover(cfg, columns, s, t);
    var f := Reconcile(cfg, columns, s, t);
    FourParts(f.matched, f.mismatched, f.missing, f.extra);
    assert |s.rows.Keys| == |s.rows| && |t.rows.Keys| == |t.rows|;
  }

  lemma FatesCover(cfg: Config, columns: set<string>, s: Table, t: Table)
    ensures var f := Reconcile(cfg, columns, s, t);
            && f.matched !! f.mismatched !! f.missing !! f.extra
            && f.matched + f.mismatched + f.missing == s.rows.Keys
            && f.matched + f.mismatched + f.extra == t.rows.Keys
            && f.matched + f.mismatched + f.missing + f.extra == s.rows.Keys + t.rows.Keys
  {
  }

  lemma CellsEqualSymmetric(cfg: Config, a: Kind, b: Kind, x: Cell, y: Cell)
    ensures CellsEqual(cfg, a, b, x, y) == CellsEqual(cfg, b, a, y, x)
  {
  }

  lemma AgreeSymmetric(cfg: Config, columns: set<string>, s: Table, t: Table, k: Key)
    requires k in s.rows && k in t.rows
    ensures Agree(cfg, columns, s, t, k) == Agree(cfg, columns, t, s, k)
  {
    var kinds := TableKinds(s, t);
    forall c
      ensures CellsEqual(cfg, KindOf(kinds.source, c), KindOf(kinds.target, c), Get(s.rows[k], c), Get(t.rows[k], c)) ==
              CellsEqual(cfg, KindOf(kinds.target, c), KindOf(kinds.source, c), Get(t.rows[k], c), Get(s.rows[k], c))
    {
      CellsEqualSymmetric(cfg, KindOf(kinds.source, c), KindOf(kinds.target, c), Get(s.rows[k], c), Get(t.rows[k], c));
    }
  }

  /** Exchanging the tables keeps matched and mismatched keys and exchanges missing with extra. */
  lemma ReconcileSwaps(cfg: Config, columns: set<string>, s: Table, t: Table)
    ensures var f, g := Reconcile(cfg, columns, s, t), Reconcile(cfg, columns, t, s);
            g == Fates(f.matched, f.mismatched, f.extra, f.missing)
  {
    forall k | k in s.rows && k in t.rows
      ensures Agree(cfg, columns, s, t, k) == Agree(cfg, columns, t, s, k)
    {
      AgreeSymmetric(cfg, columns, s, t, k);
    }
    var f, g := Reconcile(cfg, columns, s, t), Reconcile(cfg, columns, t, s);
    assert g.matched == f.matched && g.mismatched == f.mismatched;
  }

  lemma ReferenceSwaps(keys: seq<string>, cfg: Config, source: Frame, target: Frame)
    requires Unambiguous(cfg, source) && Unambiguous(cfg, target)
    ensures var f := Reference(keys, cfg, source, target);
            Reference(keys, cfg, target, source) == Fates(f.matched, f.mismatched, f.extra, f.missing)
    ensures Acceptable(keys, cfg, source, target) <==> Acceptable(keys, cfg, target, source)
  {
    assert ComparedColumns(cfg, keys, source, target) == ComparedColumns(cfg, keys, target, source);
    ReconcileSwaps(cfg, ComparedColumns(cfg, keys, source, target), TableOf(cfg, keys, source),
                   TableOf(cfg, keys, target));
    assert CanonSet(cfg, source.columns) * CanonSet(cfg, target.columns) ==
           CanonSet(cfg, target.columns) * CanonSet(cfg, source.columns);
  }

  // ----- how far one key's fate depends on the others

  /** The kinds for which two columns change behaviour once the merge has filled in missing values. */
  predicate Immune(cfg: Config, a: Kind, b: Kind) {
    || cfg.floatTolerance < 1.0
    || a.TextKind? || b.TextKind? || a.Float64? || b.Float64?
    || (a.NullableInt? && b.NullableInt?)
  }

  /**
   Rows present on one side only turn whole-number columns into floating point, which brings the
   tolerance into play. This leaves every cell verdict unchanged exactly when the tolerance is below
   one or the column pair is not one of whole numbers with an `int64` side.
   */
  lemma MergeKeepsVerdicts(cfg: Config, a: Kind, b: Kind)
    ensures Immune(cfg, a, b) <==>
              forall x, y, p, q :: Fits(a, x) && Fits(b, y) ==>
                CellsEqual(cfg, AfterMerge(a, p), AfterMerge(b, q), x, y) == CellsEqual(cfg, a, b, x, y)
  {
    if Immune(cfg, a, b) {
      forall x, y, p, q | Fits(a, x) && Fits(b, y)
        ensures CellsEqual(cfg, AfterMerge(a, p), AfterMerge(b, q), x, y) == CellsEqual(cfg, a, b, x, y)
      {
        if x.Num? && y.Num? && cfg.floatTolerance < 1.0 {
          WholeNumbersApart(cfg, x.value, y.value);
        }
      }
    } else {
      var x, y := Num(0.0), Num(1.0);
      assert Fits(a, x) && Fits(b, y) && !CellsEqual(cfg, a, b, x, y);
      assert CellsEqual(cfg, AfterMerge(a, true), AfterMerge(b, true), x, y);
    }
  }

  lemma WholeNumbersApart(cfg: Config, x: real, y: real)
    requires cfg.floatTolerance < 1.0
    ensures x == x.Floor as real && y == y.Floor as real && x != y ==> Abs(x - y) > cfg.floatTolerance
  {
    if x == x.Floor as real && y == y.Floor as real && x != y {
      var m, n := x.Floor, y.Floor;
      assert m != n;
      assert x - y == (m - n) as real;
    }
  }
}
