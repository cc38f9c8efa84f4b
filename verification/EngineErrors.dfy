/** Which error a refused comparison raises: the first of its checks that fails, with what it found. */
module EngineErrors {
  import opened Wrappers
  import opened Sequences
  import opened Frames
  import opened ComparisonEngine
  import opened DuplicateValidation

  /** The names that are no columns, in the order given. */
  function Missing(names: seq<string>, columns: seq<string>): seq<string> {
    Filter(names, n => n !in columns)
  }

  /** How many rows share their prepared key with an earlier one. */
  ghost function Superfluous(f: Frame, keys: seq<string>, cfg: Config): int {
    |f.rows| - |ToSet(KeysOf(NormalRows(cfg, f.kinds, f.rows), keys))|
  }

  /** What is wrong with one side, if anything: no frame, keys it lacks, or keys that repeat. */
  ghost function SideError(frame: Option<Frame>, side: Side, keys: seq<string>, cfg: Config): Option<EngineError> {
    if frame.None? then Some(FrameMissing(side))
    else if Missing(keys, frame.value.columns) != [] then
      Some(KeysNotFound(side, Missing(keys, frame.value.columns)))
    else if !cfg.dropDuplicateKeys && Superfluous(frame.value, keys, cfg) > 0 then
      Some(DuplicateKeys(side, Superfluous(frame.value, keys, cfg)))
    else None
  }

  /** What is wrong with the compare columns asked for: those, other than keys, that a side lacks. */
  function ColumnsError(asked: Option<seq<string>>, keys: seq<string>, source: Frame, target: Frame)
    : Option<EngineError>
  {
    if asked.None? then None
    else
      var columns := Filter(asked.value, c => c !in keys);
      if Missing(columns, source.columns) == [] && Missing(columns, target.columns) == [] then None
      else Some(ColumnsNotFound(Missing(columns, source.columns), Missing(columns, target.columns)))
  }

  lemma CountIsSuperfluous(f: Frame, keys: seq<string>, cfg: Config)
    ensures DuplicateCount(f, keys, cfg) == Superfluous(f, keys, cfg)
  {
    var rows := NormalRows(cfg, f.kinds, f.rows);
    MarkedRows(KeyedRows(rows, keys));
    assert Keys(KeyedRows(rows, keys)) == KeysOf(rows, keys);
  }

  lemma PrepareError(frame: Option<Frame>, side: Side, keys: seq<string>, cfg: Config)
    ensures match SideError(frame, side, keys, cfg)
            case None => Prepare(frame, side, keys, cfg).Ok?
            case Some(e) => Prepare(frame, side, keys, cfg) == Err(e)
  {
    if frame.Some? {
      CountIsSuperfluous(frame.value, keys, cfg);
      SameFilter(keys, k => k !in frame.value.columns, n => n !in frame.value.columns);
    }
  }

  lemma PreparedColumns(frame: Option<Frame>, side: Side, keys: seq<string>, cfg: Config)
    requires Prepare(frame, side, keys, cfg).Ok?
    ensures frame.Some? && Prepare(frame, side, keys, cfg).value.columns == frame.value.columns
  {
  }

  lemma ResolveError(keys: seq<string>, cfg: Config, source: Frame, target: Frame)
    ensures var r := ResolveCompareColumns(keys, cfg, source.columns, target.columns);
            match ColumnsError(cfg.compareColumns, keys, source, target)
            case None => r.Ok?
            case Some(e) => r == Err(e)
  {
  }

  /** The first thing wrong: with the source, with the target, with the columns. */
  ghost function FirstError(keys: seq<string>, cfg: Config, source: Option<Frame>, target: Option<Frame>)
    : Option<EngineError>
  {
    var ofSource, ofTarget := SideError(source, Source, keys, cfg), SideError(target, Target, keys, cfg);
    if ofSource.Some? then ofSource
    else if ofTarget.Some? then ofTarget
    else if source.Some? && target.Some? then ColumnsError(cfg.compareColumns, keys, source.value, target.value)
    else None
  }

  lemma ValidatedError(keys: seq<string>, cfg: Config, source: Option<Frame>, target: Option<Frame>)
    ensures match FirstError(keys, cfg, source, target)
            case None => Validated(keys, cfg, source, target).Ok?
            case Some(e) => Validated(keys, cfg, source, target) == Err(e)
  {
    PrepareError(source, Source, keys, cfg);
    PrepareError(target, Target, keys, cfg);
    if Prepare(source, Source, keys, cfg).Ok? && Prepare(target, Target, keys, cfg).Ok? {
      PreparedColumns(source, Source, keys, cfg);
      PreparedColumns(target, Target, keys, cfg);
      ResolveError(keys, cfg, source.value, target.value);
    }
  }

  /**
   A comparison raises exactly when something is wrong with its inputs as aligned, and then for the first
   thing: the source's frame, keys or repeated keys, then the target's, then the compare columns.
   */
  lemma ComparedError(keys: seq<string>, cfg: Config, source: Option<Frame>, target: Option<Frame>)
    requires Ready(cfg, source, target)
    ensures match FirstError(AlignedKeys(keys, cfg, source, target), AlignedConfig(cfg, source, target), source,
                             AlignedTarget(cfg, source, target))
            case None => Compared(keys, cfg, source, target).Ok?
            case Some(e) => Compared(keys, cfg, source, target) == Err(e)
  {
    ValidatedError(AlignedKeys(keys, cfg, source, target), AlignedConfig(cfg, source, target), source,
                   AlignedTarget(cfg, source, target));
  }
}
