/** What a comparison promises: refinement of the key-by-key account, partition, verdict and symmetry. */
module EngineTheorems {
  import opened Wrappers
  import opened Sequences
  import opened Frames
  import opened Verdicts
  import opened ComparisonEngine
  import opened EngineReference
  import opened EngineRefinement
  import opened EngineFates
  import opened EngineAlignment
  import Text

  // ----- acceptance

  ghost predicate InputsAre(i: Inputs, keys: seq<string>, cfg: Config, source: Frame, target: Frame) {
    var names := AlignedNames(cfg, source, target.columns);
    && Distinct(names)
    && i.keys == AlignedNames(cfg, source, keys)
    && SameFlags(cfg, i.cfg)
    && CanonAll(cfg, i.columns) == ComparedOrder(cfg, keys, source, target)
    && Known(cfg, source, target, i.keys) && Known(cfg, source, target, i.columns)
    && i.source == EngineSide(i.cfg, i.keys, source)
    && i.target == EngineSide(i.cfg, i.keys, Renamed(target, names))
  }

  predicate UniqueOrDropped(keys: seq<string>, cfg: Config, f: Frame) {
    cfg.dropDuplicateKeys || |EngineSide(cfg, keys, f).rows| == |f.rows|
  }

  predicate HasColumns(f: Frame, names: seq<string>) {
    forall n :: n in names ==> n in f.columns
  }

  /** The engine's checks, one after the other, on frames whose names are aligned. */
  lemma ValidatedIs(keys: seq<string>, cfg: Config, source: Frame, target: Frame)
    ensures var v := Validated(keys, cfg, Some(source), Some(target));
            var r := ResolveCompareColumns(keys, cfg, source.columns, target.columns);
            && (v.Ok? <==> HasColumns(source, keys) && UniqueOrDropped(keys, cfg, source) &&
                           HasColumns(target, keys) && UniqueOrDropped(keys, cfg, target) && r.Ok?)
            && (v.Ok? ==>
                  v.value == Inputs(keys, cfg, r.value, EngineSide(cfg, keys, source), EngineSide(cfg, keys, target)))
  {
    PrepareMeaning(source, Source, keys, cfg);
    PrepareMeaning(target, Target, keys, cfg);
  }

  lemma UniqueIs(keys: seq<string>, cfg: Config, cfg': Config, keys': seq<string>, f: Frame, names: seq<string>)
    requires SameFlags(cfg, cfg') && Unambiguous(cfg, f) && Respelled(cfg, f, names)
    requires CanonAll(cfg, keys') == CanonAll(cfg, keys) && forall k :: k in keys' ==> k in names
    ensures UniqueOrDropped(keys', cfg', Renamed(f, names)) <==>
              cfg.dropDuplicateKeys || |TableOf(cfg, keys, f).rows| == |f.rows|
  {
    SideRows(cfg, cfg', keys, keys', f, names);
  }

  /** What the checks establish, given what the column resolution establishes. */
  lemma ChecksAre(v: Result<Inputs, EngineError>, r: Result<seq<string>, EngineError>, keys: seq<string>, cfg: Config,
                  cfg': Config, source: Frame, target: Frame)
    requires Unambiguous(cfg, source) && Unambiguous(cfg, target) && SameFlags(cfg, cfg')
    requires Respelled(cfg, target, AlignedNames(cfg, source, target.columns))
    requires var keys', target' := AlignedNames(cfg, source, keys),
                                   Renamed(target, AlignedNames(cfg, source, target.columns));
             && (v.Ok? <==> HasColumns(source, keys') && UniqueOrDropped(keys', cfg', source) &&
                            HasColumns(target', keys') && UniqueOrDropped(keys', cfg', target') && r.Ok?)
             && (v.Ok? ==>
                   v.value == Inputs(keys', cfg', r.value, EngineSide(cfg', keys', source),
                                     EngineSide(cfg', keys', target')))
    requires Known(cfg, source, target, AlignedNames(cfg, source, keys)) ==>
             && (r.Ok? <==> ColumnsFound(cfg, keys, source, target))
             && (r.Ok? ==>
                   CanonAll(cfg, r.value) == ComparedOrder(cfg, keys, source, target) &&
                   Known(cfg, source, target, r.value))
    ensures v.Ok? <==> Acceptable(keys, cfg, source, target)
    ensures v.Ok? ==> InputsAre(v.value, keys, cfg, source, target)
  {
    var keys', names := AlignedNames(cfg, source, keys), AlignedNames(cfg, source, target.columns);
    AlignedKnown(cfg, source, target, keys);
    AlignedCanon(cfg, source, keys);
    if Known(cfg, source, target, keys') {
      RenamedToItself(source);
      DistinctFromCanon(cfg, source.columns);
      UniqueIs(keys, cfg, cfg', keys', source, source.columns);
      UniqueIs(keys, cfg, cfg', keys', target, names);
    }
  }

  /** The engine accepts a pair of frames exactly when the reference does. */
  lemma AcceptedIs(keys: seq<string>, cfg: Config, source: Frame, target: Frame)
    requires Unambiguous(cfg, source) && Unambiguous(cfg, target)
    ensures Ready(cfg, Some(source), Some(target))
    ensures var a := Accepted(keys, cfg, Some(source), Some(target));
            && (a.Ok? <==> Acceptable(keys, cfg, source, target))
            && (a.Ok? ==> InputsAre(a.value, keys, cfg, source, target))
  {
    var keys', cfg' := AlignedNames(cfg, source, keys), AlignedConfig(cfg, Some(source), Some(target));
    var target' := Renamed(target, AlignedNames(cfg, source, target.columns)) by {
      AlignedTargetIs(cfg, source, target);
    }
    AlignedTargetIs(cfg, source, target);
    AlignedFields(keys, cfg, source, target);
    ValidatedIs(keys', cfg', source, target');
    if Known(cfg, source, target, keys') {
      ColumnsResolved(keys, cfg, source, target);
    }
    ChecksAre(Validated(keys', cfg', Some(source), Some(target')),
              ResolveCompareColumns(keys', cfg', source.columns, target'.columns), keys, cfg, cfg', source, target);
  }

  lemma SidesAgree(i: Inputs, keys: seq<string>, cfg: Config, source: Frame, target: Frame)
    requires Unambiguous(cfg, source) && Unambiguous(cfg, target) && InputsAre(i, keys, cfg, source, target)
    ensures SideAgrees(cfg, i.columns, i.source, TableOf(cfg, keys, source))
    ensures SideAgrees(cfg, i.columns, i.target, TableOf(cfg, keys, target))
  {
    AlignedTargetIs(cfg, source, target);
    AlignedCanon(cfg, source, keys);
    RenamedToItself(source);
    DistinctFromCanon(cfg, source.columns);
    SideHolds(cfg, i.cfg, keys, i.keys, source, source.columns, i.columns);
    SideHolds(cfg, i.cfg, keys, i.keys, target, AlignedNames(cfg, source, target.columns), i.columns);
  }

  // ----- the output frames

  function DiffKeys(rows: seq<DiffRow>): (ks: seq<Key>)
    ensures |ks| == |rows| && forall i :: 0 <= i < |rows| ==> ks[i] == rows[i].key
  {
    Map(rows, (d: DiffRow) => d.key)
  }

  /** A frame with one row for each key of a fate, the row holding the table's cells. */
  ghost predicate FrameHolds(cfg: Config, keys: seq<string>, columns: seq<string>, rows: seq<Row>, fate: set<Key>,
                             table: map<Key, Row>)
  {
    && |rows| == |fate| && ToSet(KeysOf(rows, keys)) == fate
    && forall r :: r in rows ==> KeyOf(r, keys) in table && LinkedOn(cfg, columns, r, table[KeyOf(r, keys)])
  }

  predicate SameCell(cfg: Config, c: string, s: Row, t: Row, kinds: KindPair) {
    CellsEqual(cfg, KindOf(kinds.source, c), KindOf(kinds.target, c), Get(s, c), Get(t, c))
  }

  ghost function UnequalCells(cfg: Config, columns: seq<string>, s: Row, t: Row, kinds: KindPair): seq<string> {
    Filter(columns, c => !SameCell(cfg, Canon(cfg, c), s, t, kinds))
  }

  /** The columns on which the two tables' rows of one key differ, in the order compared. */
  ghost function Differing(cfg: Config, columns: seq<string>, s: Table, t: Table, k: Key): seq<string>
    requires k in s.rows && k in t.rows
  {
    UnequalCells(cfg, columns, s.rows[k], t.rows[k], TableKinds(s, t))
  }

  /** A diff row shows both tables' cells and names exactly the columns that differ, at least one. */
  ghost predicate DiffHolds(cfg: Config, columns: seq<string>, d: DiffRow, s: Table, t: Table) {
    && d.key in s.rows && d.key in t.rows
    && |d.cells| == |columns|
    && (forall j :: 0 <= j < |columns| ==>
         d.cells[j] == (Get(s.rows[d.key], Canon(cfg, columns[j])), Get(t.rows[d.key], Canon(cfg, columns[j]))))
    && d.mismatchedColumns == Text.Join(Differing(cfg, columns, s, t, d.key), ',')
    && Differing(cfg, columns, s, t, d.key) != []
  }

  ghost predicate DiffFrameHolds(cfg: Config, columns: seq<string>, rows: seq<DiffRow>, fate: set<Key>, s: Table,
                                 t: Table)
  {
    && |rows| == |fate| && ToSet(DiffKeys(rows)) == fate
    && forall d :: d in rows ==> DiffHolds(cfg, columns, d, s, t)
  }

  lemma ProjectKeeps(r: Row, keys: seq<string>, columns: seq<string>)
    ensures KeyOf(Project(r, keys + columns), keys) == KeyOf(r, keys)
    ensures forall i :: 0 <= i < |columns| ==> Get(Project(r, keys + columns), columns[i]) == Get(r, columns[i])
  {
    forall n | n in keys || n in columns
      ensures Get(Project(r, keys + columns), n) == Get(r, n)
    {
      assert n in keys + columns;
    }
    assert forall i :: 0 <= i < |keys| ==> keys[i] in keys;
    assert forall i :: 0 <= i < |columns| ==> columns[i] in columns;
  }

  lemma {:induction false} KeptIsThere<T>(rows: seq<Keyed<T>>)
    ensures forall r :: r in KeepFirst(rows) ==> r in rows
  {
    if rows != [] {
      var front := rows[..|rows| - 1];
      KeptIsThere(front);
      assert rows == front + [rows[|rows| - 1]];
    }
  }

  /** Every prepared row sits under its own key. */
  lemma KeyedByOwnCells(cfg: Config, keys: seq<string>, f: Frame, k: Key)
    ensures var found := Lookup(EngineSide(cfg, keys, f).rows, k);
            found.Some? ==> KeyOf(found.value, keys) == k
  {
    var rows := EngineRows(cfg, keys, f);
    KeptIsThere(rows);
    LookedUpIsThere(KeepFirst(rows), k);
  }

  lemma {:induction false} LookedUpIsThere<T>(rows: seq<Keyed<T>>, k: Key)
    ensures Lookup(rows, k).Some? ==> Keyed(k, Lookup(rows, k).value) in rows
  {
    if rows != [] {
      LookedUpIsThere(rows[1..], k);
    }
  }

  /** Projecting rows that agree with the table yields the frame of their keys. */
  lemma ProjectedFrame(cfg: Config, keys: seq<string>, columns: seq<string>, values: seq<Row>, rows: seq<Row>,
                       fate: set<Key>, table: map<Key, Row>)
    requires |rows| == |values| == |fate| && ToSet(KeysOf(values, keys)) == fate
    requires forall i :: 0 <= i < |rows| ==> rows[i] == Project(values[i], keys + columns)
    requires forall i :: 0 <= i < |values| ==>
               KeyOf(values[i], keys) in table && LinkedOn(cfg, columns, values[i], table[KeyOf(values[i], keys)])
    ensures FrameHolds(cfg, keys, columns, rows, fate, table)
  {
    forall i | 0 <= i < |rows|
      ensures KeyOf(rows[i], keys) == KeyOf(values[i], keys)
      ensures LinkedOn(cfg, columns, rows[i], table[KeyOf(values[i], keys)])
    {
      ProjectKeeps(values[i], keys, columns);
    }
    assert KeysOf(rows, keys) == KeysOf(values, keys);
  }

  function Sources(pairs: seq<Pair>): (rows: seq<Row>)
    ensures |rows| == |pairs| && forall i :: 0 <= i < |pairs| ==> rows[i] == pairs[i].source
  {
    seq(|pairs|, i requires 0 <= i < |pairs| => pairs[i].source)
  }

  function Values(rows: seq<Keyed<Row>>): (values: seq<Row>)
    ensures |values| == |rows| && forall i :: 0 <= i < |rows| ==> values[i] == rows[i].value
  {
    seq(|rows|, i requires 0 <= i < |rows| => rows[i].value)
  }

  lemma MatchedFrame(cfg: Config, keys: seq<string>, columns: seq<string>, pairs: seq<Pair>, side: Prepared,
                     fate: set<Key>, t: Table)
    requires SideAgrees(cfg, columns, side, t)
    requires ToSet(PairKeys(pairs)) == fate && |pairs| == |fate|
    requires forall p :: p in pairs ==> Lookup(side.rows, p.key) == Some(p.source)
    requires forall k :: Lookup(side.rows, k).Some? ==> KeyOf(Lookup(side.rows, k).value, keys) == k
    ensures FrameHolds(cfg, keys, columns, ProjectSources(pairs, keys + columns), fate, t.rows)
  {
    forall i | 0 <= i < |pairs|
      ensures KeyOf(pairs[i].source, keys) == pairs[i].key && pairs[i].key in t.rows
      ensures LinkedOn(cfg, columns, pairs[i].source, t.rows[pairs[i].key])
    {
      assert pairs[i] in pairs;
      LookupFound(side.rows, pairs[i].key);
      assert pairs[i].key in KeySet(side.rows);
    }
    assert KeysOf(Sources(pairs), keys) == PairKeys(pairs);
    ProjectedFrame(cfg, keys, columns, Sources(pairs), ProjectSources(pairs, keys + columns), fate, t.rows);
  }

  lemma OneSidedFrame(cfg: Config, keys: seq<string>, columns: seq<string>, only: seq<Keyed<Row>>, side: Prepared,
                      fate: set<Key>, t: Table)
    requires SideAgrees(cfg, columns, side, t)
    requires KeySet(only) == fate && |only| == |fate|
    requires forall r :: r in only ==> Lookup(side.rows, r.key) == Some(r.value)
    requires forall k :: Lookup(side.rows, k).Some? ==> KeyOf(Lookup(side.rows, k).value, keys) == k
    ensures FrameHolds(cfg, keys, columns, ProjectRows(only, keys + columns), fate, t.rows)
  {
    forall i | 0 <= i < |only|
      ensures KeyOf(only[i].value, keys) == only[i].key && only[i].key in t.rows
      ensures LinkedOn(cfg, columns, only[i].value, t.rows[only[i].key])
    {
      assert only[i] in only;
      LookupFound(side.rows, only[i].key);
      assert only[i].key in KeySet(side.rows);
    }
    assert KeysOf(Values(only), keys) == Keys(only);
    ProjectedFrame(cfg, keys, columns, Values(only), ProjectRows(only, keys + columns), fate, t.rows);
  }

  lemma SameVerdict(cfg: Config, cfg': Config, columns: seq<string>, p: Pair, s: Row, t: Row, kinds: KindPair,
                    kinds': KindPair, c: string)
    requires SameFlags(cfg, cfg') && Paired(cfg, columns, p, s, t, kinds, kinds') && c in columns
    ensures ColumnEqual(cfg', kinds, c, p) == SameCell(cfg, Canon(cfg, c), s, t, kinds')
  {
    var i :| 0 <= i < |columns| && columns[i] == c;
    var f := Canon(cfg, c);
    CellsEqualFlags(cfg, cfg', KindOf(kinds'.source, f), KindOf(kinds'.target, f), Get(s, f), Get(t, f));
  }

  lemma SameUnequalColumns(cfg: Config, cfg': Config, columns: seq<string>, p: Pair, s: Row, t: Row, kinds: KindPair,
                           kinds': KindPair)
    requires SameFlags(cfg, cfg') && Paired(cfg, columns, p, s, t, kinds, kinds')
    ensures UnequalColumns(cfg', kinds, columns, p) == UnequalCells(cfg, columns, s, t, kinds')
  {
    forall c | c in columns
      ensures ColumnEqual(cfg', kinds, c, p) == SameCell(cfg, Canon(cfg, c), s, t, kinds')
    {
      SameVerdict(cfg, cfg', columns, p, s, t, kinds, kinds', c);
    }
    SameFilter(columns, c => !ColumnEqual(cfg', kinds, c, p), c => !SameCell(cfg, Canon(cfg, c), s, t, kinds'));
  }

  /** A row that fails the equality mask has an unequal column: the two computations agree. */
  lemma FailedRowHasColumn(cfg: Config, kinds: KindPair, columns: seq<string>, p: Pair)
    ensures RowEqual(cfg, kinds, columns, p) <==> UnequalColumns(cfg, kinds, columns, p) == []
  {
    var unequal := UnequalColumns(cfg, kinds, columns, p);
    if !RowEqual(cfg, kinds, columns, p) {
      var j :| 0 <= j < |columns| && !ColumnEqual(cfg, kinds, columns[j], p);
      assert columns[j] in unequal;
    }
    assert unequal != [] ==> unequal[0] in unequal;
  }

  /** One mismatched pair of the merge becomes a diff row that agrees with the tables. */
  lemma DiffRowHolds(cfg: Config, cfg': Config, columns: seq<string>, src: Prepared, tgt: Prepared, s: Table,
                     t: Table, p: Pair)
    requires SameFlags(cfg, cfg') && SideAgrees(cfg, columns, src, s) && SideAgrees(cfg, columns, tgt, t)
    requires p in OuterMerge(src, tgt).both
    requires !RowEqual(cfg', OuterMerge(src, tgt).kinds, columns, p)
    ensures DiffHolds(cfg, columns, Diff(cfg', OuterMerge(src, tgt).kinds, columns, p), s, t)
  {
    var m := OuterMerge(src, tgt);
    PairIsPaired(cfg, columns, src, tgt, s, t, p);
    PairedDiff(cfg, cfg', columns, p, s, t, m.kinds);
  }

  lemma PairedDiff(cfg: Config, cfg': Config, columns: seq<string>, p: Pair, s: Table, t: Table, kinds: KindPair)
    requires SameFlags(cfg, cfg') && p.key in s.rows && p.key in t.rows
    requires Paired(cfg, columns, p, s.rows[p.key], t.rows[p.key], kinds, TableKinds(s, t))
    requires !RowEqual(cfg', kinds, columns, p)
    ensures DiffHolds(cfg, columns, Diff(cfg', kinds, columns, p), s, t)
  {
    SameUnequalColumns(cfg, cfg', columns, p, s.rows[p.key], t.rows[p.key], kinds, TableKinds(s, t));
    FailedRowHasColumn(cfg', kinds, columns, p);
  }

  /** Diffing the mismatched pairs of the merge yields the frame of their keys. */
  lemma DiffedFrame(cfg: Config, cfg': Config, columns: seq<string>, src: Prepared, tgt: Prepared, s: Table, t: Table,
                    pairs: seq<Pair>, fate: set<Key>, kinds: KindPair)
    requires ToSet(PairKeys(pairs)) == fate && |pairs| == |fate|
    requires forall p :: p in pairs ==> DiffHolds(cfg, columns, Diff(cfg', kinds, columns, p), s, t)
    ensures DiffFrameHolds(cfg, columns, if columns == [] then [] else Diffs(cfg', kinds, columns, pairs), fate, s, t)
  {
    var rows := Diffs(cfg', kinds, columns, pairs);
    forall i | 0 <= i < |rows|
      ensures DiffHolds(cfg, columns, rows[i], s, t)
    {
      assert pairs[i] in pairs;
    }
    assert pairs != [] ==> pairs[0] in pairs;
    assert DiffKeys(rows) == PairKeys(pairs);
  }

  // ----- the refinement theorem

  /** Percentage and status follow from the counts. */
  ghost predicate Built(u: Summary) {
    u == BuildSummary(u.rowsSource, u.rowsTarget, u.rowsMatched, u.rowsMismatched, u.rowsMissingInTarget,
                      u.rowsExtraInTarget)
  }

  ghost predicate SummaryHolds(u: Summary, f: Fates, s: Table, t: Table) {
    && Built(u)
    && u.rowsSource == |s.rows| && u.rowsTarget == |t.rows|
    && u.rowsMatched == |f.matched| && u.rowsMismatched == |f.mismatched|
    && u.rowsMissingInTarget == |f.missing| && u.rowsExtraInTarget == |f.extra|
    && u.rowsCompared == |s.rows.Keys + t.rows.Keys|
    && u.rowsFailed == |f.mismatched + f.missing + f.extra|
  }

  ghost predicate ResultHolds(r: ComparisonResult, cfg: Config, f: Fates, s: Table, t: Table) {
    && SummaryHolds(r.summary, f, s, t)
    && FrameHolds(cfg, r.keys, r.columns, r.exactMatch, f.matched, s.rows)
    && DiffFrameHolds(cfg, r.columns, r.mismatch, f.mismatched, s, t)
    && FrameHolds(cfg, r.keys, r.columns, r.missingInTarget, f.missing, s.rows)
    && FrameHolds(cfg, r.keys, r.columns, r.extraInTarget, f.extra, t.rows)
  }

  lemma SummaryFromCounts(cfg: Config, columns: set<string>, u: Summary, s: Table, t: Table)
    requires Built(u) && u.rowsSource == |s.rows| && u.rowsTarget == |t.rows|
    requires var f := Reconcile(cfg, columns, s, t);
             && u.rowsMatched == |f.matched| && u.rowsMismatched == |f.mismatched|
             && u.rowsMissingInTarget == |f.missing| && u.rowsExtraInTarget == |f.extra|
    ensures SummaryHolds(u, Reconcile(cfg, columns, s, t), s, t)
  {
    var f := Reconcile(cfg, columns, s, t);
    FatesPartition(cfg, columns, s, t);
    FourParts(f.mismatched, f.missing, f.extra, f.matched);
  }

  lemma SideSizes(cfg: Config, columns: seq<string>, p: Prepared, t: Table)
    requires SideAgrees(cfg, columns, p, t)
    ensures |p.rows| == |t.rows|
  {
    DistinctCardinality(Keys(p.rows));
    assert |t.rows| == |t.rows.Keys|;
  }

  lemma SummaryAgrees(cfg: Config, cfg': Config, columns: seq<string>, src: Prepared, tgt: Prepared, s: Table,
                      t: Table, keys: seq<string>)
    requires SameFlags(cfg, cfg') && SideAgrees(cfg, columns, src, s) && SideAgrees(cfg, columns, tgt, t)
    ensures SummaryHolds(Outcome(keys, cfg', columns, src, tgt).summary,
                         Reconcile(cfg, CanonSet(cfg, columns), s, t), s, t)
  {
    GroupsRefineFates(cfg, cfg', columns, src, tgt, s, t);
    SideSizes(cfg, columns, src, s);
    SideSizes(cfg, columns, tgt, t);
    SummaryFromCounts(cfg, CanonSet(cfg, columns), Outcome(keys, cfg', columns, src, tgt).summary, s, t);
  }

  lemma DiffAgrees(cfg: Config, cfg': Config, columns: seq<string>, src: Prepared, tgt: Prepared, s: Table, t: Table)
    requires SameFlags(cfg, cfg') && SideAgrees(cfg, columns, src, s) && SideAgrees(cfg, columns, tgt, t)
    ensures var m := OuterMerge(src, tgt);
            DiffFrameHolds(cfg, columns,
                           if columns == [] then [] else Diffs(cfg', m.kinds, columns, Mismatching(cfg', m, columns)),
                           Reconcile(cfg, CanonSet(cfg, columns), s, t).mismatched, s, t)
  {
    var m := OuterMerge(src, tgt);
    GroupsRefineFates(cfg, cfg', columns, src, tgt, s, t);
    forall p | p in Mismatching(cfg', m, columns)
      ensures DiffHolds(cfg, columns, Diff(cfg', m.kinds, columns, p), s, t)
    {
      DiffRowHolds(cfg, cfg', columns, src, tgt, s, t, p);
    }
    DiffedFrame(cfg, cfg', columns, src, tgt, s, t, Mismatching(cfg', m, columns),
                Reconcile(cfg, CanonSet(cfg, columns), s, t).mismatched, m.kinds);
  }

  ghost predicate OwnKeys(keys: seq<string>, side: Prepared) {
    forall k :: Lookup(side.rows, k).Some? ==> KeyOf(Lookup(side.rows, k).value, keys) == k
  }

  lemma FramesAgree(cfg: Config, cfg': Config, keys: seq<string>, columns: seq<string>, src: Prepared, tgt: Prepared,
                    s: Table, t: Table)
    requires SameFlags(cfg, cfg') && SideAgrees(cfg, columns, src, s) && SideAgrees(cfg, columns, tgt, t)
    requires OwnKeys(keys, src) && OwnKeys(keys, tgt)
    ensures var m, f := OuterMerge(src, tgt), Reconcile(cfg, CanonSet(cfg, columns), s, t);
            && FrameHolds(cfg, keys, columns, ProjectSources(Matching(cfg', m, columns), keys + columns), f.matched,
                          s.rows)
            && FrameHolds(cfg, keys, columns, ProjectRows(m.leftOnly, keys + columns), f.missing, s.rows)
            && FrameHolds(cfg, keys, columns, ProjectRows(m.rightOnly, keys + columns), f.extra, t.rows)
  {
    var m, f := OuterMerge(src, tgt), Reconcile(cfg, CanonSet(cfg, columns), s, t);
    GroupsRefineFates(cfg, cfg', columns, src, tgt, s, t);
    BothAre(src.rows, tgt.rows);
    LeftOnlyAre(src.rows, tgt.rows);
    RightOnlyAre(src.rows, tgt.rows);
    MatchedFrame(cfg, keys, columns, Matching(cfg', m, columns), src, f.matched, s);
    OneSidedFrame(cfg, keys, columns, m.leftOnly, src, f.missing, s);
    OneSidedFrame(cfg, keys, columns, m.rightOnly, tgt, f.extra, t);
  }

  /** The result's keys and columns are those asked for, in order, in the source's spelling. */
  ghost predicate NamesHold(r: ComparisonResult, keys: seq<string>, cfg: Config, source: Frame, target: Frame) {
    && CanonAll(cfg, r.keys) == CanonAll(cfg, keys)
    && CanonAll(cfg, r.columns) == ComparedOrder(cfg, keys, source, target)
    && (forall n :: n in r.keys ==> n in source.columns)
    && (forall n :: n in r.columns ==> n in source.columns)
  }

  /** A comparison's answer is the one the key-by-key account gives. */
  ghost predicate Refines(r: Result<ComparisonResult, EngineError>, keys: seq<string>, cfg: Config, source: Frame,
                          target: Frame)
    requires Unambiguous(cfg, source) && Unambiguous(cfg, target)
  {
    && (r.Ok? <==> Acceptable(keys, cfg, source, target))
    && (r.Ok? ==>
         && NamesHold(r.value, keys, cfg, source, target)
         && ResultHolds(r.value, cfg, Reference(keys, cfg, source, target), TableOf(cfg, keys, source),
                        TableOf(cfg, keys, target)))
  }

  lemma OutcomeHolds(i: Inputs, keys: seq<string>, cfg: Config, source: Frame, target: Frame)
    requires Unambiguous(cfg, source) && Unambiguous(cfg, target) && InputsAre(i, keys, cfg, source, target)
    ensures var r := Outcome(i.keys, i.cfg, i.columns, i.source, i.target);
            && NamesHold(r, keys, cfg, source, target)
            && ResultHolds(r, cfg, Reference(keys, cfg, source, target), TableOf(cfg, keys, source),
                           TableOf(cfg, keys, target))
  {
    var s, t := TableOf(cfg, keys, source), TableOf(cfg, keys, target);
    SidesAgree(i, keys, cfg, source, target);
    forall k
      ensures Lookup(i.source.rows, k).Some? ==> KeyOf(Lookup(i.source.rows, k).value, i.keys) == k
      ensures Lookup(i.target.rows, k).Some? ==> KeyOf(Lookup(i.target.rows, k).value, i.keys) == k
    {
      KeyedByOwnCells(i.cfg, i.keys, source, k);
      KeyedByOwnCells(i.cfg, i.keys, Renamed(target, AlignedNames(cfg, source, target.columns)), k);
    }
    AlignedCanon(cfg, source, keys);
    OrderListsColumns(cfg, keys, source, target);
    FramesAgree(cfg, i.cfg, i.keys, i.columns, i.source, i.target, s, t);
    DiffAgrees(cfg, i.cfg, i.columns, i.source, i.target, s, t);
    SummaryAgrees(cfg, i.cfg, i.columns, i.source, i.target, s, t, i.keys);
  }

  function OutcomeFor(v: Result<Inputs, EngineError>): Result<ComparisonResult, EngineError> {
    match v
    case Ok(i) => Ok(Outcome(i.keys, i.cfg, i.columns, i.source, i.target))
    case Err(e) => Err(e)
  }

  lemma OutcomeRefines(v: Result<Inputs, EngineError>, keys: seq<string>, cfg: Config, source: Frame, target: Frame)
    requires Unambiguous(cfg, source) && Unambiguous(cfg, target)
    requires v.Ok? <==> Acceptable(keys, cfg, source, target)
    requires v.Ok? ==> InputsAre(v.value, keys, cfg, source, target)
    ensures Refines(OutcomeFor(v), keys, cfg, source, target)
  {
    if v.Ok? {
      OutcomeHolds(v.value, keys, cfg, source, target);
    }
  }

  /**
   The engine refines the key-by-key account: it accepts exactly the acceptable inputs, reports the keys
   and columns asked for in order, its counts are the sizes of the four fates, and each output frame has
   one row for each key of its fate, holding the tables' cells.
   */
  lemma CompareRefinesReference(keys: seq<string>, cfg: Config, source: Frame, target: Frame)
    requires Unambiguous(cfg, source) && Unambiguous(cfg, target)
    ensures Ready(cfg, Some(source), Some(target))
    ensures Refines(Compared(keys, cfg, Some(source), Some(target)), keys, cfg, source, target)
  {
    AcceptedIs(keys, cfg, source, target);
    OutcomeRefines(Accepted(keys, cfg, Some(source), Some(target)), keys, cfg, source, target);
  }

  // ----- frames with columns that differ only by case

  /** Once names are aligned, they are matched as they are. */
  function Strict(cfg: Config, source: Frame, target: Frame): Config {
    AlignedConfig(cfg, Some(source), Some(target)).(caseInsensitiveColumns := false)
  }

  lemma StrictIsUnambiguous(cfg: Config, f: Frame)
    requires !cfg.caseInsensitiveColumns
    ensures Unambiguous(cfg, f) && forall names :: CanonAll(cfg, names) == names
  {
    forall names
      ensures CanonAll(cfg, names) == names
    {
    }
  }

  lemma SameResolution(keys: seq<string>, cfg: Config, cfg': Config, source: seq<string>, target: seq<string>)
    requires cfg'.compareColumns == cfg.compareColumns
    ensures ResolveCompareColumns(keys, cfg', source, target) == ResolveCompareColumns(keys, cfg, source, target)
  {
  }

  lemma StrictlyAccepted(keys: seq<string>, cfg: Config, strict: Config, source: Frame, target: Frame)
    requires strict == cfg.(caseInsensitiveColumns := false)
    ensures Unambiguous(strict, source) && Unambiguous(strict, target)
    ensures var v := Validated(keys, cfg, Some(source), Some(target));
            && (v.Ok? <==> Acceptable(keys, strict, source, target))
            && (v.Ok? ==> InputsAre(v.value, keys, strict, source, target))
  {
    StrictIsUnambiguous(strict, source);
    StrictIsUnambiguous(strict, target);
    RenamedToItself(target);
    ValidatedIs(keys, cfg, source, target);
    SameResolution(keys, cfg, strict, source.columns, target.columns);
    if Known(strict, source, target, keys) {
      ColumnsResolved(keys, strict, source, target);
    }
    ChecksAre(Validated(keys, cfg, Some(source), Some(target)),
              ResolveCompareColumns(keys, cfg, source.columns, target.columns),
              keys, strict, cfg, source, target);
  }

  lemma StrictlyRefines(keys: seq<string>, cfg: Config, strict: Config, source: Frame, target: Frame)
    requires strict == cfg.(caseInsensitiveColumns := false)
    ensures Unambiguous(strict, source) && Unambiguous(strict, target)
    ensures Refines(OutcomeFor(Validated(keys, cfg, Some(source), Some(target))), keys, strict, source, target)
  {
    StrictlyAccepted(keys, cfg, strict, source, target);
    OutcomeRefines(Validated(keys, cfg, Some(source), Some(target)), keys, strict, source, target);
  }

  lemma ComparedIs(keys: seq<string>, cfg: Config, source: Frame, target: Frame)
    requires Ready(cfg, Some(source), Some(target))
    ensures AlignedTarget(cfg, Some(source), Some(target)).Some?
    ensures Compared(keys, cfg, Some(source), Some(target)) ==
            OutcomeFor(Validated(AlignedKeys(keys, cfg, Some(source), Some(target)),
                                 AlignedConfig(cfg, Some(source), Some(target)),
                                 Some(source), AlignedTarget(cfg, Some(source), Some(target))))
  {
  }

  /** The names the engine works with once it has aligned them, and the two tables and fates under those names. */
  ghost predicate RefinesAligned(r: Result<ComparisonResult, EngineError>, keys: seq<string>, cfg: Config,
                                 source: Frame, target: Frame)
    requires Ready(cfg, Some(source), Some(target))
  {
    var keys', strict := AlignedKeys(keys, cfg, Some(source), Some(target)), Strict(cfg, source, target);
    var target' := AlignedTarget(cfg, Some(source), Some(target)).value;
    && Unambiguous(strict, source) && Unambiguous(strict, target')
    && Refines(r, keys', strict, source, target')
  }

  /**
   The same for every input whose target can be renamed at all, columns that differ only by case
   included: on the aligned names the engine refines the account that takes names as they are.
   */
  lemma CompareRefinesAligned(keys: seq<string>, cfg: Config, source: Frame, target: Frame)
    requires Ready(cfg, Some(source), Some(target))
    ensures RefinesAligned(Compared(keys, cfg, Some(source), Some(target)), keys, cfg, source, target)
  {
    ComparedIs(keys, cfg, source, target);
    StrictlyRefines(AlignedKeys(keys, cfg, Some(source), Some(target)), AlignedConfig(cfg, Some(source), Some(target)),
                    Strict(cfg, source, target), source, AlignedTarget(cfg, Some(source), Some(target)).value);
  }

  // ----- corollaries

  lemma SummaryAddsUp(cfg: Config, columns: set<string>, u: Summary, s: Table, t: Table)
    requires SummaryHolds(u, Reconcile(cfg, columns, s, t), s, t)
    ensures u.rowsSource == u.rowsMatched + u.rowsMismatched + u.rowsMissingInTarget
    ensures u.rowsTarget == u.rowsMatched + u.rowsMismatched + u.rowsExtraInTarget
    ensures u.rowsCompared == u.rowsMatched + u.rowsFailed
  {
    var f := Reconcile(cfg, columns, s, t);
    FatesPartition(cfg, columns, s, t);
    FourParts(f.mismatched, f.missing, f.extra, f.matched);
  }

  /** Every row of both sides is accounted for once. */
  lemma CountsAddUp(keys: seq<string>, cfg: Config, source: Frame, target: Frame)
    requires Ready(cfg, Some(source), Some(target))
    ensures var r := Compared(keys, cfg, Some(source), Some(target));
            r.Ok? ==>
              var u := r.value.summary;
              && u.rowsSource == u.rowsMatched + u.rowsMismatched + u.rowsMissingInTarget
              && u.rowsTarget == u.rowsMatched + u.rowsMismatched + u.rowsExtraInTarget
              && u.rowsCompared == u.rowsMatched + u.rowsFailed
              && (!cfg.dropDuplicateKeys ==> u.rowsSource == |source.rows| && u.rowsTarget == |target.rows|)
  {
    CompareRefinesAligned(keys, cfg, source, target);
    var r := Compared(keys, cfg, Some(source), Some(target));
    if r.Ok? {
      var keys', strict := AlignedKeys(keys, cfg, Some(source), Some(target)), Strict(cfg, source, target);
      var target' := AlignedTarget(cfg, Some(source), Some(target)).value;
      SummaryAddsUp(strict, ComparedColumns(strict, keys', source, target'), r.value.summary,
                    TableOf(strict, keys', source), TableOf(strict, keys', target'));
    }
  }

  lemma BuiltVerdict(u: Summary)
    requires Built(u)
    ensures u.passed <==> u.successPercentage == HUNDRED_PERCENT
    ensures u.passed <==> 2_000_000 * u.rowsFailed <= u.rowsCompared
  {
    if u.rowsCompared > 0 {
      PassBound(u.rowsMatched, u.rowsFailed);
    }
  }

  /** PASS means that at most one key in two million failed; an empty comparison passes. */
  lemma VerdictMeaning(keys: seq<string>, cfg: Config, source: Frame, target: Frame)
    requires Ready(cfg, Some(source), Some(target))
    ensures var r := Compared(keys, cfg, Some(source), Some(target));
            r.Ok? ==>
              && (r.value.IsPassed() <==> r.value.summary.passed)
              && (r.value.IsPassed() <==> 2_000_000 * r.value.summary.rowsFailed <= r.value.summary.rowsCompared)
  {
    CompareRefinesAligned(keys, cfg, source, target);
    var r := Compared(keys, cfg, Some(source), Some(target));
    if r.Ok? {
      BuiltVerdict(r.value.summary);
    }
  }

  ghost predicate Swapped(u: Summary, v: Summary) {
    && v.rowsSource == u.rowsTarget && v.rowsTarget == u.rowsSource
    && v.rowsCompared == u.rowsCompared
    && v.rowsMatched == u.rowsMatched && v.rowsMismatched == u.rowsMismatched
    && v.rowsMissingInTarget == u.rowsExtraInTarget && v.rowsExtraInTarget == u.rowsMissingInTarget
    && v.rowsFailed == u.rowsFailed
    && v.successPercentage == u.successPercentage && v.passed == u.passed
  }

  /** Exchanging source and target exchanges missing with extra and changes nothing else in the summary. */
  lemma CompareSwaps(keys: seq<string>, cfg: Config, source: Frame, target: Frame)
    requires Unambiguous(cfg, source) && Unambiguous(cfg, target)
    ensures Ready(cfg, Some(source), Some(target)) && Ready(cfg, Some(target), Some(source))
    ensures var r, w := Compared(keys, cfg, Some(source), Some(target)),
                        Compared(keys, cfg, Some(target), Some(source));
            && (r.Ok? <==> w.Ok?)
            && (r.Ok? ==> Swapped(r.value.summary, w.value.summary))
  {
    CompareRefinesReference(keys, cfg, source, target);
    CompareRefinesReference(keys, cfg, target, source);
    ReferenceSwaps(keys, cfg, source, target);
    if Acceptable(keys, cfg, source, target) {
      SummariesSwap(Compared(keys, cfg, Some(source), Some(target)).value.summary,
                    Compared(keys, cfg, Some(target), Some(source)).value.summary,
                    Reference(keys, cfg, source, target), Reference(keys, cfg, target, source),
                    TableOf(cfg, keys, source), TableOf(cfg, keys, target));
    }
  }

  lemma SummariesSwap(u: Summary, v: Summary, f: Fates, g: Fates, s: Table, t: Table)
    requires SummaryHolds(u, f, s, t) && SummaryHolds(v, g, t, s)
    requires g == Fates(f.matched, f.mismatched, f.extra, f.missing)
    ensures Swapped(u, v)
  {
  }
}
