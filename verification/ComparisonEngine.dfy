/**
 The key-based comparison of a source and a target frame: column alignment, preparation, the outer
 merge, the four-way split, the chunked cell diff and the summary.
 */
module ComparisonEngine {
  import opened Wrappers
  import opened Sequences
  import opened Frames
  import opened Verdicts
  import opened ColumnMatching
  import Text

  datatype Side = Source | Target

  datatype EngineError =
    | NoBusinessKeys
    | FrameMissing(side: Side)
    | KeysNotFound(side: Side, names: seq<string>)
    | ColumnsNotFound(inSource: seq<string>, inTarget: seq<string>)
    | DuplicateKeys(side: Side, count: nat)

  datatype Config = Config(
    compareColumns: Option<seq<string>>,
    nullsEqual: bool,
    trimStrings: bool,
    ignoreCase: bool,
    floatTolerance: real,
    dropDuplicateKeys: bool,
    caseInsensitiveColumns: bool,
    diffChunkSize: int)

  // ----- aligning column names

  /** A name in the source's spelling, when the source has it in any case. */
  function Spelled(canonical: map<string, string>, name: string): string {
    if Text.Fold(name) in canonical then canonical[Text.Fold(name)] else name
  }

  function SpelledAll(canonical: map<string, string>, names: seq<string>): (spelled: seq<string>)
    ensures |spelled| == |names| && forall i :: 0 <= i < |names| ==> spelled[i] == Spelled(canonical, names[i])
  {
    seq(|names|, i requires 0 <= i < |names| => Spelled(canonical, names[i]))
  }

  predicate Aligns(cfg: Config, source: Option<Frame>, target: Option<Frame>) {
    cfg.caseInsensitiveColumns && source.Some? && target.Some?
  }

  function AlignedKeys(keys: seq<string>, cfg: Config, source: Option<Frame>, target: Option<Frame>): seq<string> {
    if Aligns(cfg, source, target) then SpelledAll(LastSpelling(source.value.columns), keys) else keys
  }

  function AlignedConfig(cfg: Config, source: Option<Frame>, target: Option<Frame>): Config {
    if Aligns(cfg, source, target) && cfg.compareColumns.Some? then
      cfg.(compareColumns := Some(SpelledAll(LastSpelling(source.value.columns), cfg.compareColumns.value)))
    else cfg
  }

  lemma SpellingFolds(columns: seq<string>, name: string)
    ensures Text.Fold(Spelled(LastSpelling(columns), name)) == Text.Fold(name)
    ensures Text.Fold(name) in LastSpelling(columns) ==> Spelled(LastSpelling(columns), name) in columns
  {
    var i := LastSpellingMeaning(columns, Text.Fold(name));
  }

  lemma SpellingIsInjective(columns: seq<string>, renamed: seq<string>)
    requires CollisionFree(renamed)
    ensures Distinct(SpelledAll(LastSpelling(columns), renamed))
  {
    forall i, j | 0 <= i < j < |renamed|
      ensures Spelled(LastSpelling(columns), renamed[i]) != Spelled(LastSpelling(columns), renamed[j])
    {
      SpellingFolds(columns, renamed[i]);
      SpellingFolds(columns, renamed[j]);
    }
  }

  /** Position of a column in a frame. */
  function Position(columns: seq<string>, c: string): (i: nat)
    requires c in columns
    ensures i < |columns| && columns[i] == c
  {
    if columns[0] == c then 0 else 1 + Position(columns[1..], c)
  }

  /** `rename`: the same cells under new column names. */
  function RenameRow(r: Row, columns: seq<string>, names: seq<string>): Row
    requires |names| == |columns| && forall c :: c in columns ==> c in r
  {
    map n | n in names :: r[columns[Position(names, n)]]
  }

  function RenameKinds(kinds: map<string, Kind>, columns: seq<string>, names: seq<string>): map<string, Kind>
    requires |names| == |columns| && forall c :: c in columns ==> c in kinds
  {
    map n | n in names :: kinds[columns[Position(names, n)]]
  }

  function RenameRows(rows: seq<Row>, columns: seq<string>, names: seq<string>): (renamed: seq<Row>)
    requires |names| == |columns| && forall r, c :: r in rows && c in columns ==> c in r
    ensures |renamed| == |rows| && forall i :: 0 <= i < |rows| ==> renamed[i] == RenameRow(rows[i], columns, names)
  {
    seq(|rows|, i requires 0 <= i < |rows| => assert rows[i] in rows; RenameRow(rows[i], columns, names))
  }

  function Renamed(f: Frame, names: seq<string>): (g: Frame)
    requires |names| == |f.columns| && Distinct(names)
  {
    assert forall r, c :: r in f.rows && c in f.columns ==> c in r by {
      forall r, c | r in f.rows && c in f.columns ensures c in r {
        assert RowFits(f.kinds, r);
      }
    }
    var g := FrameData(names, RenameKinds(f.kinds, f.columns, names), RenameRows(f.rows, f.columns, names));
    RenamedIsValid(f, names);
    g
  }

  lemma RenamedIsValid(f: Frame, names: seq<string>)
    requires |names| == |f.columns| && Distinct(names)
    requires forall r, c :: r in f.rows && c in f.columns ==> c in r
    ensures ValidFrame(FrameData(names, RenameKinds(f.kinds, f.columns, names), RenameRows(f.rows, f.columns, names)))
  {
    var rows := RenameRows(f.rows, f.columns, names);
    forall r | r in rows
      ensures RowFits(RenameKinds(f.kinds, f.columns, names), r)
    {
      var i :| 0 <= i < |rows| && r == rows[i];
      assert f.rows[i] in f.rows;
      assert RowFits(f.kinds, f.rows[i]);
    }
  }

  function AlignedTarget(cfg: Config, source: Option<Frame>, target: Option<Frame>): Option<Frame>
    requires Ready(cfg, source, target)
  {
    if Aligns(cfg, source, target) then
      Some(Renamed(target.value, SpelledAll(LastSpelling(source.value.columns), target.value.columns)))
    else target
  }

  /** Renaming leaves the target's column names distinct: no two of them become one source column. */
  ghost predicate Ready(cfg: Config, source: Option<Frame>, target: Option<Frame>) {
    Aligns(cfg, source, target) ==> Distinct(SpelledAll(LastSpelling(source.value.columns), target.value.columns))
  }

  // ----- preparing one side

  function NormalText(cfg: Config, s: string): string {
    var trimmed := if cfg.trimStrings then Text.Strip(s) else s;
    if cfg.ignoreCase then Text.Upper(trimmed) else trimmed
  }

  function NormalCell(cfg: Config, k: Kind, c: Cell): Cell {
    if k.TextKind? && c.Str? then Str(NormalText(cfg, c.text)) else c
  }

  function NormalRow(cfg: Config, kinds: map<string, Kind>, r: Row): Row {
    map c | c in r :: if c in kinds then NormalCell(cfg, kinds[c], r[c]) else r[c]
  }

  function NormalRows(cfg: Config, kinds: map<string, Kind>, rows: seq<Row>): (normal: seq<Row>)
    ensures |normal| == |rows| && forall i :: 0 <= i < |rows| ==> normal[i] == NormalRow(cfg, kinds, rows[i])
  {
    seq(|rows|, i requires 0 <= i < |rows| => NormalRow(cfg, kinds, rows[i]))
  }

  function NotIn(names: seq<string>, columns: seq<string>): (missing: seq<string>)
    ensures missing == [] <==> forall n :: n in names ==> n in columns
  {
    var missing := Filter(names, n => n !in columns);
    assert forall n :: n in missing <==> n in names && n !in columns;
    assert missing != [] ==> missing[0] in missing;
    missing
  }

  /** One side ready for the merge: columns, kinds, and rows under distinct keys. */
  datatype Prepared = Prepared(columns: seq<string>, kinds: map<string, Kind>, rows: seq<Keyed<Row>>)

  /** How many rows repeat an earlier row's key, after normalisation. */
  function DuplicateCount(f: Frame, keys: seq<string>, cfg: Config): nat {
    CountTrue(Duplicated(KeyedRows(NormalRows(cfg, f.kinds, f.rows), keys)))
  }

  function Prepare(frame: Option<Frame>, side: Side, keys: seq<string>, cfg: Config): Result<Prepared, EngineError> {
    if frame.None? then Err(FrameMissing(side))
    else
      var f := frame.value;
      if NotIn(keys, f.columns) != [] then Err(KeysNotFound(side, NotIn(keys, f.columns)))
      else
        var rows := KeyedRows(NormalRows(cfg, f.kinds, f.rows), keys);
        var duplicates := DuplicateCount(f, keys, cfg);
        if duplicates == 0 then Ok(Prepared(f.columns, f.kinds, rows))
        else if cfg.dropDuplicateKeys then Ok(Prepared(f.columns, f.kinds, Select(rows, Not(Duplicated(rows)))))
        else Err(DuplicateKeys(side, duplicates))
  }

  function ResolveCompareColumns(keys: seq<string>, cfg: Config, source: seq<string>,
                                 target: seq<string>): Result<seq<string>, EngineError>
  {
    match cfg.compareColumns
    case Some(names) =>
      var columns := Filter(names, c => c !in keys);
      if NotIn(columns, source) != [] || NotIn(columns, target) != []
      then Err(ColumnsNotFound(NotIn(columns, source), NotIn(columns, target)))
      else Ok(columns)
    case None => Ok(Filter(source, c => c in target && c !in keys))
  }

  // ----- the outer merge

  datatype Pair = Pair(key: Key, source: Row, target: Row)

  /** The kinds of the two sides' columns. */
  datatype KindPair = KindPair(source: map<string, Kind>, target: map<string, Kind>)

  datatype Merged = Merged(
    both: seq<Pair>,
    leftOnly: seq<Keyed<Row>>,
    rightOnly: seq<Keyed<Row>>,
    kinds: KindPair)

  function Both(joined: seq<Joined<Row, Row>>): seq<Pair> {
    if joined == [] then []
    else
      var last := joined[|joined| - 1];
      Both(joined[..|joined| - 1]) + if last.right.Some? then [Pair(last.key, last.left, last.right.value)] else []
  }

  function LeftOnly(joined: seq<Joined<Row, Row>>): seq<Keyed<Row>> {
    if joined == [] then []
    else
      var last := joined[|joined| - 1];
      LeftOnly(joined[..|joined| - 1]) + if last.right.None? then [Keyed(last.key, last.left)] else []
  }

  function RightOnly(left: seq<Keyed<Row>>, right: seq<Keyed<Row>>): seq<Keyed<Row>> {
    var taken := Keys(left);
    Filter(right, (r: Keyed<Row>) => r.key !in taken)
  }

  /** A column that gains missing values in the merge: whole numbers become floating point. */
  function AfterMerge(k: Kind, gainsNulls: bool): Kind {
    if k.Int64? && gainsNulls then Float64 else k
  }

  function KindsAfterMerge(kinds: map<string, Kind>, gainsNulls: bool): map<string, Kind> {
    map c | c in kinds :: AfterMerge(kinds[c], gainsNulls)
  }

  function OuterMerge(source: Prepared, target: Prepared): Merged {
    var joined := LeftJoin(source.rows, target.rows);
    var leftOnly, rightOnly := LeftOnly(joined), RightOnly(source.rows, target.rows);
    Merged(Both(joined), leftOnly, rightOnly,
           KindPair(KindsAfterMerge(source.kinds, rightOnly != []), KindsAfterMerge(target.kinds, leftOnly != [])))
  }

  // ----- cell equality

  function Abs(x: real): real { if x < 0.0 then -x else x }

  /** Equality of aligned cells; the kinds are those of the merged columns. */
  predicate CellsEqual(cfg: Config, sKind: Kind, tKind: Kind, s: Cell, t: Cell) {
    if s.Null? || t.Null? then cfg.nullsEqual && s.Null? && t.Null?
    else if (sKind.Float64? || tKind.Float64?) && sKind.IsNumeric() && tKind.IsNumeric() && s.Num? && t.Num? then
      if cfg.floatTolerance > 0.0 then Abs(s.value - t.value) <= cfg.floatTolerance else s.value == t.value
    else s == t
  }

  function KindOf(kinds: map<string, Kind>, c: string): Kind {
    if c in kinds then kinds[c] else TextKind
  }

  predicate ColumnEqual(cfg: Config, kinds: KindPair, c: string, p: Pair) {
    CellsEqual(cfg, KindOf(kinds.source, c), KindOf(kinds.target, c), Get(p.source, c), Get(p.target, c))
  }

  predicate RowEqual(cfg: Config, kinds: KindPair, columns: seq<string>, p: Pair) {
    forall i :: 0 <= i < |columns| ==> ColumnEqual(cfg, kinds, columns[i], p)
  }

  /** The equality mask, narrowed column by column over all rows at once. */
  method EqualMask(cfg: Config, m: Merged, columns: seq<string>) returns (mask: seq<bool>)
    ensures |mask| == |m.both|
    ensures forall i :: 0 <= i < |mask| ==> mask[i] == RowEqual(cfg, m.kinds, columns, m.both[i])
  {
    mask := seq(|m.both|, i => true);
    var j := 0;
    while j < |columns|
      invariant 0 <= j <= |columns| && |mask| == |m.both|
      invariant forall i :: 0 <= i < |mask| ==> mask[i] == RowEqual(cfg, m.kinds, columns[..j], m.both[i])
    {
      var column := columns[j];
      var narrowed := seq(|mask|, i requires 0 <= i < |mask| =>
        mask[i] && ColumnEqual(cfg, m.kinds, column, m.both[i]));
      forall i | 0 <= i < |mask|
        ensures narrowed[i] == RowEqual(cfg, m.kinds, columns[..j + 1], m.both[i])
      {
        assert forall k :: 0 <= k < j ==> columns[..j + 1][k] == columns[..j][k];
        assert columns[..j + 1][j] == column;
      }
      mask := narrowed;
      j := j + 1;
    }
    assert columns[..j] == columns;
  }

  // ----- output frames

  /** A clean one-sided row: the keys and the compared columns. */
  function Project(r: Row, names: seq<string>): Row {
    map n | n in names :: Get(r, n)
  }

  function ProjectRows(rows: seq<Keyed<Row>>, names: seq<string>): (projected: seq<Row>)
    ensures |projected| == |rows| && forall i :: 0 <= i < |rows| ==> projected[i] == Project(rows[i].value, names)
  {
    seq(|rows|, i requires 0 <= i < |rows| => Project(rows[i].value, names))
  }

  function ProjectSources(pairs: seq<Pair>, names: seq<string>): (projected: seq<Row>)
    ensures |projected| == |pairs| && forall i :: 0 <= i < |pairs| ==> projected[i] == Project(pairs[i].source, names)
  {
    seq(|pairs|, i requires 0 <= i < |pairs| => Project(pairs[i].source, names))
  }

  /** One row of the wide diff: the key, each column's two cells, and the names that differ. */
  datatype DiffRow = DiffRow(key: Key, cells: seq<(Cell, Cell)>, mismatchedColumns: string)

  function UnequalColumns(cfg: Config, kinds: KindPair, columns: seq<string>, p: Pair): seq<string> {
    Filter(columns, c => !ColumnEqual(cfg, kinds, c, p))
  }

  function CellPairs(columns: seq<string>, p: Pair): (cells: seq<(Cell, Cell)>)
    ensures |cells| == |columns|
    ensures forall j :: 0 <= j < |columns| ==> cells[j] == (Get(p.source, columns[j]), Get(p.target, columns[j]))
  {
    seq(|columns|, j requires 0 <= j < |columns| => (Get(p.source, columns[j]), Get(p.target, columns[j])))
  }

  function Diff(cfg: Config, kinds: KindPair, columns: seq<string>, p: Pair): DiffRow {
    DiffRow(p.key, CellPairs(columns, p), Text.Join(UnequalColumns(cfg, kinds, columns, p), ','))
  }

  function Diffs(cfg: Config, kinds: KindPair, columns: seq<string>, pairs: seq<Pair>): (rows: seq<DiffRow>)
    ensures |rows| == |pairs|
    ensures forall i :: 0 <= i < |pairs| ==> rows[i] == Diff(cfg, kinds, columns, pairs[i])
  {
    seq(|pairs|, i requires 0 <= i < |pairs| => Diff(cfg, kinds, columns, pairs[i]))
  }

  /** The flag matrix of one chunk, filled column by column. */
  method DiffFlags(cfg: Config, kinds: KindPair, columns: seq<string>, block: seq<Pair>)
    returns (flags: array2<bool>)
    ensures fresh(flags) && flags.Length0 == |block| && flags.Length1 == |columns|
    ensures forall i, k :: 0 <= i < |block| && 0 <= k < |columns| ==>
              flags[i, k] == !ColumnEqual(cfg, kinds, columns[k], block[i])
  {
    flags := new bool[|block|, |columns|];
    var j := 0;
    while j < |columns|
      invariant 0 <= j <= |columns|
      invariant forall i, k :: 0 <= i < |block| && 0 <= k < j ==>
                  flags[i, k] == !ColumnEqual(cfg, kinds, columns[k], block[i])
    {
      var column := columns[j];
      forall i | 0 <= i < |block| {
        flags[i, j] := !ColumnEqual(cfg, kinds, column, block[i]);
      }
      j := j + 1;
    }
  }

  lemma FlaggedColumns(cfg: Config, kinds: KindPair, columns: seq<string>, p: Pair, row: seq<bool>)
    requires |row| == |columns|
    requires forall k :: 0 <= k < |columns| ==> row[k] == !ColumnEqual(cfg, kinds, columns[k], p)
    ensures Select(columns, row) == UnequalColumns(cfg, kinds, columns, p)
  {
    SelectIsFilter(columns, row, c => !ColumnEqual(cfg, kinds, c, p));
  }

  /** One row of the diff, its differing columns picked by the row's flags. */
  method ReadRow(cfg: Config, kinds: KindPair, columns: seq<string>, p: Pair, flags: array2<bool>, i: nat)
    returns (row: DiffRow)
    requires i < flags.Length0 && flags.Length1 == |columns|
    requires forall k :: 0 <= k < |columns| ==> flags[i, k] == !ColumnEqual(cfg, kinds, columns[k], p)
    ensures row == Diff(cfg, kinds, columns, p)
  {
    var picked := seq(flags.Length1, k requires 0 <= k < flags.Length1 reads flags => flags[i, k]);
    FlaggedColumns(cfg, kinds, columns, p, picked);
    row := DiffRow(p.key, CellPairs(columns, p), Text.Join(Select(columns, picked), ','));
  }

  /** One chunk of the diff: the flags read row by row. */
  method DiffBlock(cfg: Config, kinds: KindPair, columns: seq<string>, block: seq<Pair>)
    returns (rows: seq<DiffRow>)
    ensures rows == Diffs(cfg, kinds, columns, block)
  {
    var flags := DiffFlags(cfg, kinds, columns, block);
    rows := [];
    var i := 0;
    while i < |block|
      invariant 0 <= i <= |block|
      invariant forall b, k :: 0 <= b < |block| && 0 <= k < |columns| ==>
                  flags[b, k] == !ColumnEqual(cfg, kinds, columns[k], block[b])
      invariant rows == Diffs(cfg, kinds, columns, block[..i])
    {
      var row := ReadRow(cfg, kinds, columns, block[i], flags, i);
      rows := rows + [row];
      DiffsAppend(cfg, kinds, columns, block, i, i + 1);
      i := i + 1;
    }
    assert block[..i] == block;
  }

  lemma DiffsAppend(cfg: Config, kinds: KindPair, columns: seq<string>, pairs: seq<Pair>, start: nat, stop: nat)
    requires start <= stop <= |pairs|
    ensures Diffs(cfg, kinds, columns, pairs[..stop]) ==
            Diffs(cfg, kinds, columns, pairs[..start]) + Diffs(cfg, kinds, columns, pairs[start..stop])
  {
  }

  /** The diff frame, built chunk by chunk; any chunk size gives the unchunked frame. */
  method BuildMismatchFrame(cfg: Config, kinds: KindPair, columns: seq<string>, pairs: seq<Pair>)
    returns (frame: seq<DiffRow>)
    ensures frame == if columns == [] then [] else Diffs(cfg, kinds, columns, pairs)
  {
    if pairs == [] || columns == [] {
      return [];
    }
    var n := |pairs|;
    var step := if cfg.diffChunkSize < 1 then 1 else cfg.diffChunkSize;
    frame := [];
    var start := 0;
    while start < n
      invariant 0 <= start && frame == Diffs(cfg, kinds, columns, pairs[..Min(start, n)])
      decreases n - start
    {
      var block := pairs[start..Min(start + step, n)];
      var chunk := DiffBlock(cfg, kinds, columns, block);
      DiffsAppend(cfg, kinds, columns, pairs, start, Min(start + step, n));
      frame := frame + chunk;
      start := start + step;
    }
    assert pairs[..Min(start, n)] == pairs;
  }

  // ----- the summary and the whole comparison

  datatype Summary = Summary(
    rowsSource: nat,
    rowsTarget: nat,
    rowsCompared: nat,
    rowsMatched: nat,
    rowsMismatched: nat,
    rowsMissingInTarget: nat,
    rowsExtraInTarget: nat,
    rowsFailed: nat,
    successPercentage: nat,
    passed: bool)

  function BuildSummary(rowsSource: nat, rowsTarget: nat, matched: nat, mismatched: nat, missing: nat,
                        extra: nat): Summary
  {
    var compared := matched + mismatched + missing + extra;
    var success := if compared > 0 then Percentage(matched, compared) else HUNDRED_PERCENT;
    Summary(rowsSource, rowsTarget, compared, matched, mismatched, missing, extra,
            mismatched + missing + extra, success, success == HUNDRED_PERCENT)
  }

  datatype ComparisonResult = ComparisonResult(
    keys: seq<string>,
    columns: seq<string>,
    exactMatch: seq<Row>,
    mismatch: seq<DiffRow>,
    missingInTarget: seq<Row>,
    extraInTarget: seq<Row>,
    summary: Summary)
  {
    predicate IsPassed() { summary.successPercentage == HUNDRED_PERCENT }
  }

  function Matching(cfg: Config, m: Merged, columns: seq<string>): seq<Pair> {
    Filter(m.both, p => RowEqual(cfg, m.kinds, columns, p))
  }

  function Mismatching(cfg: Config, m: Merged, columns: seq<string>): seq<Pair> {
    Filter(m.both, p => !RowEqual(cfg, m.kinds, columns, p))
  }

  /** The frames and the summary of a merged comparison. */
  function Outcome(keys: seq<string>, cfg: Config, columns: seq<string>, source: Prepared,
                   target: Prepared): ComparisonResult
  {
    var m := OuterMerge(source, target);
    var matched, mismatched := Matching(cfg, m, columns), Mismatching(cfg, m, columns);
    ComparisonResult(
      keys, columns,
      ProjectSources(matched, keys + columns),
      if columns == [] then [] else Diffs(cfg, m.kinds, columns, mismatched),
      ProjectRows(m.leftOnly, keys + columns),
      ProjectRows(m.rightOnly, keys + columns),
      BuildSummary(|source.rows|, |target.rows|, |matched|, |mismatched|, |m.leftOnly|, |m.rightOnly|))
  }

  /** Everything the merge needs, once names are aligned. */
  datatype Inputs = Inputs(keys: seq<string>, cfg: Config, columns: seq<string>, source: Prepared, target: Prepared)

  function Validated(keys: seq<string>, cfg: Config, source: Option<Frame>,
                     target: Option<Frame>): Result<Inputs, EngineError>
  {
    var src :- Prepare(source, Source, keys, cfg);
    var tgt :- Prepare(target, Target, keys, cfg);
    var columns :- ResolveCompareColumns(keys, cfg, src.columns, tgt.columns);
    Ok(Inputs(keys, cfg, columns, src, tgt))
  }

  function Accepted(keys: seq<string>, cfg: Config, source: Option<Frame>,
                    target: Option<Frame>): Result<Inputs, EngineError>
    requires Ready(cfg, source, target)
  {
    Validated(AlignedKeys(keys, cfg, source, target), AlignedConfig(cfg, source, target),
              source, AlignedTarget(cfg, source, target))
  }

  /** What `compare` returns or raises, as a function of the engine's fields and the two frames. */
  function Compared(keys: seq<string>, cfg: Config, source: Option<Frame>,
                    target: Option<Frame>): Result<ComparisonResult, EngineError>
    requires Ready(cfg, source, target)
  {
    var i :- Accepted(keys, cfg, source, target);
    Ok(Outcome(i.keys, i.cfg, i.columns, i.source, i.target))
  }

  /** The vectorised split of the merged rows. */
  method CompareMerged(keys: seq<string>, cfg: Config, columns: seq<string>, source: Prepared, target: Prepared)
    returns (result: ComparisonResult)
    ensures result == Outcome(keys, cfg, columns, source, target)
  {
    var m := OuterMerge(source, target);
    var mask := EqualMask(cfg, m, columns);
    SelectIsFilter(m.both, mask, p => RowEqual(cfg, m.kinds, columns, p));
    SelectIsFilter(m.both, Not(mask), p => !RowEqual(cfg, m.kinds, columns, p));
    CountTrueIsSelected(m.both, Not(mask));
    var exact := ProjectSources(Select(m.both, mask), keys + columns);
    var mismatch := BuildMismatchFrame(cfg, m.kinds, columns, Select(m.both, Not(mask)));
    var missing := ProjectRows(m.leftOnly, keys + columns);
    var extra := ProjectRows(m.rightOnly, keys + columns);
    var summary := BuildSummary(|source.rows|, |target.rows|, |exact|, CountTrue(Not(mask)), |missing|, |extra|);
    result := ComparisonResult(keys, columns, exact, mismatch, missing, extra, summary);
  }

  class Engine {
    var businessKeys: seq<string>
    var config: Config

    constructor (businessKeys: seq<string>, config: Config)
      requires businessKeys != []
      ensures this.businessKeys == businessKeys && this.config == config
    {
      this.businessKeys := businessKeys;
      this.config := config;
    }

    /** Rewrites the engine's own keys and compare columns to the source's spelling. */
    method AlignColumnCase(source: Option<Frame>, target: Option<Frame>) returns (aligned: Option<Frame>)
      requires Ready(config, source, target)
      modifies this
      ensures aligned == AlignedTarget(old(config), source, target)
      ensures businessKeys == AlignedKeys(old(businessKeys), old(config), source, target)
      ensures config == AlignedConfig(old(config), source, target)
    {
      if !config.caseInsensitiveColumns || source.None? || target.None? {
        return target;
      }
      var canonical := LastSpelling(source.value.columns);
      aligned := Some(Renamed(target.value, SpelledAll(canonical, target.value.columns)));
      businessKeys := SpelledAll(canonical, businessKeys);
      if config.compareColumns.Some? {
        config := config.(compareColumns := Some(SpelledAll(canonical, config.compareColumns.value)));
      }
    }

    method Compare(source: Option<Frame>, target: Option<Frame>) returns (r: Result<ComparisonResult, EngineError>)
      requires Ready(config, source, target)
      modifies this
      ensures r == Compared(old(businessKeys), old(config), source, target)
      ensures businessKeys == AlignedKeys(old(businessKeys), old(config), source, target)
      ensures config == AlignedConfig(old(config), source, target)
    {
      var aligned := AlignColumnCase(source, target);
      var src := Prepare(source, Source, businessKeys, config);
      if src.Err? {
        return Err(src.error);
      }
      var tgt := Prepare(aligned, Target, businessKeys, config);
      if tgt.Err? {
        return Err(tgt.error);
      }
      var resolved := ResolveCompareColumns(businessKeys, config, src.value.columns, tgt.value.columns);
      if resolved.Err? {
        return Err(resolved.error);
      }
      var columns := resolved.value;
      var result := CompareMerged(businessKeys, config, columns, src.value, tgt.value);
      r := Ok(result);
    }
  }

  /** The engine refuses to be built without a business key. */
  method NewEngine(businessKeys: seq<string>, config: Config) returns (r: Result<Engine, EngineError>)
    ensures r.Err? <==> businessKeys == []
    ensures r.Ok? ==> fresh(r.value) && r.value.businessKeys == businessKeys && r.value.config == config
  {
    if businessKeys == [] {
      return Err(NoBusinessKeys);
    }
    var engine := new Engine(businessKeys, config);
    r := Ok(engine);
  }
}
