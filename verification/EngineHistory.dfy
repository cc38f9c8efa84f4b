/** An engine may be reused: rewriting its own keys and columns never changes a later comparison. */
module EngineHistory {
  import opened Wrappers
  import opened Frames
  import opened ComparisonEngine
  import opened ColumnMatching
  import Text

  datatype Call = Call(source: Option<Frame>, target: Option<Frame>)

  /** The engine's fields after a sequence of calls, whether they succeeded or raised. */
  ghost function KeysAfter(keys: seq<string>, cfg: Config, calls: seq<Call>): seq<string>
    decreases |calls|
  {
    if calls == [] then keys
    else
      var c := calls[0];
      KeysAfter(AlignedKeys(keys, cfg, c.source, c.target), AlignedConfig(cfg, c.source, c.target), calls[1..])
  }

  ghost function ConfigAfter(keys: seq<string>, cfg: Config, calls: seq<Call>): Config
    decreases |calls|
  {
    if calls == [] then cfg
    else
      var c := calls[0];
      ConfigAfter(AlignedKeys(keys, cfg, c.source, c.target), AlignedConfig(cfg, c.source, c.target), calls[1..])
  }

  /** The same names up to case. */
  ghost predicate SameNames(a: seq<string>, b: seq<string>) {
    |a| == |b| && forall i :: 0 <= i < |a| ==> Text.Fold(a[i]) == Text.Fold(b[i])
  }

  /** Field values that differ at most in the case of column names, and only where case is ignored. */
  ghost predicate SameUpToCase(keys: seq<string>, cfg: Config, keys': seq<string>, cfg': Config) {
    && cfg'.(compareColumns := None) == cfg.(compareColumns := None)
    && (cfg'.compareColumns.Some? <==> cfg.compareColumns.Some?)
    && (if cfg.caseInsensitiveColumns
        then SameNames(keys, keys') &&
             (cfg.compareColumns.Some? ==> SameNames(cfg.compareColumns.value, cfg'.compareColumns.value))
        else keys == keys' && cfg == cfg')
  }

  lemma SpelledAllFolds(columns: seq<string>, names: seq<string>)
    ensures SameNames(names, SpelledAll(LastSpelling(columns), names))
  {
    forall i | 0 <= i < |names|
      ensures Text.Fold(names[i]) == Text.Fold(SpelledAll(LastSpelling(columns), names)[i])
    {
      SpellingFolds(columns, names[i]);
    }
  }

  lemma AligningKeepsNames(keys: seq<string>, cfg: Config, source: Option<Frame>, target: Option<Frame>)
    ensures SameUpToCase(keys, cfg, AlignedKeys(keys, cfg, source, target), AlignedConfig(cfg, source, target))
  {
    if Aligns(cfg, source, target) {
      SpelledAllFolds(source.value.columns, keys);
      if cfg.compareColumns.Some? {
        SpelledAllFolds(source.value.columns, cfg.compareColumns.value);
      }
    }
  }

  lemma {:induction false} CallsKeepNames(keys: seq<string>, cfg: Config, calls: seq<Call>)
    ensures SameUpToCase(keys, cfg, KeysAfter(keys, cfg, calls), ConfigAfter(keys, cfg, calls))
    decreases |calls|
  {
    if calls != [] {
      var c := calls[0];
      AligningKeepsNames(keys, cfg, c.source, c.target);
      CallsKeepNames(AlignedKeys(keys, cfg, c.source, c.target), AlignedConfig(cfg, c.source, c.target), calls[1..]);
    }
  }

  /** The same kind of failure; a message may spell a name differently. */
  predicate SameFailure(a: EngineError, b: EngineError) {
    match (a, b)
    case (KeysNotFound(s, _), KeysNotFound(t, _)) => s == t
    case (ColumnsNotFound(_, _), ColumnsNotFound(_, _)) => true
    case _ => a == b
  }

  predicate SameOutcome<T(==)>(a: Result<T, EngineError>, b: Result<T, EngineError>) {
    if a.Ok? || b.Ok? then a == b else SameFailure(a.error, b.error)
  }

  /** A list of names in which some name is in no column of the source, whatever its case. */
  ghost predicate SomeUnknown(names: seq<string>, columns: seq<string>) {
    exists i :: 0 <= i < |names| && Text.Fold(names[i]) !in LastSpelling(columns)
  }

  lemma SpelledSame(columns: seq<string>, a: seq<string>, b: seq<string>)
    requires SameNames(a, b)
    ensures SomeUnknown(a, columns) <==> SomeUnknown(b, columns)
    ensures !SomeUnknown(a, columns) ==> SpelledAll(LastSpelling(columns), a) == SpelledAll(LastSpelling(columns), b)
  {
    if SomeUnknown(a, columns) {
      var i :| 0 <= i < |a| && Text.Fold(a[i]) !in LastSpelling(columns);
      assert Text.Fold(b[i]) !in LastSpelling(columns);
    }
  }

  lemma UnknownIsMissing(columns: seq<string>, names: seq<string>)
    requires SomeUnknown(names, columns)
    ensures exists n :: n in SpelledAll(LastSpelling(columns), names) && n !in columns
  {
    var i :| 0 <= i < |names| && Text.Fold(names[i]) !in LastSpelling(columns);
    var j := LastSpellingMeaning(columns, Text.Fold(names[i]));
    assert SpelledAll(LastSpelling(columns), names)[i] == names[i];
    assert names[i] !in columns;
  }

  lemma UnknownColumnFails(keys: seq<string>, cfg: Config, source: seq<string>, target: seq<string>, n: string)
    requires cfg.compareColumns.Some? && n in cfg.compareColumns.value && n !in source
    requires forall k :: k in keys ==> k in source
    ensures ResolveCompareColumns(keys, cfg, source, target).Err?
    ensures ResolveCompareColumns(keys, cfg, source, target).error.ColumnsNotFound?
  {
    assert n in Filtered(keys, cfg.compareColumns.value);
  }

  ghost function Filtered(keys: seq<string>, names: seq<string>): seq<string> {
    Sequences.Filter(names, c => c !in keys)
  }

  lemma RowsIgnoreColumns(f: Frame, cfg: Config, cfg': Config)
    requires cfg'.(compareColumns := None) == cfg.(compareColumns := None)
    ensures NormalRows(cfg', f.kinds, f.rows) == NormalRows(cfg, f.kinds, f.rows)
  {
    forall i | 0 <= i < |f.rows|
      ensures NormalRow(cfg', f.kinds, f.rows[i]) == NormalRow(cfg, f.kinds, f.rows[i])
    {
      assert forall k, c :: NormalCell(cfg', k, c) == NormalCell(cfg, k, c);
    }
  }

  lemma PrepareIgnoresColumns(frame: Option<Frame>, side: Side, keys: seq<string>, cfg: Config, cfg': Config)
    requires cfg'.(compareColumns := None) == cfg.(compareColumns := None)
    ensures Prepare(frame, side, keys, cfg') == Prepare(frame, side, keys, cfg)
  {
    if frame.Some? {
      RowsIgnoreColumns(frame.value, cfg, cfg');
    }
  }

  lemma UnknownColumnOutcome(keys: seq<string>, cfg: Config, source: Frame, target: Option<Frame>, n: string)
    requires cfg.compareColumns.Some? && n in cfg.compareColumns.value && n !in source.columns
    ensures var r := Validated(keys, cfg, Some(source), target);
            var s, t := Prepare(Some(source), Source, keys, cfg), Prepare(target, Target, keys, cfg);
            && r.Err?
            && (if s.Err? then r.error == s.error else if t.Err? then r.error == t.error else r.error.ColumnsNotFound?)
  {
    var s, t := Prepare(Some(source), Source, keys, cfg), Prepare(target, Target, keys, cfg);
    if s.Ok? && t.Ok? {
      UnknownColumnFails(keys, cfg, source.columns, t.value.columns, n);
    }
  }

  lemma BothColumnsUnknown(keys: seq<string>, cfg: Config, cfg': Config, source: Frame, target: Option<Frame>,
                           n: string, n': string)
    requires cfg'.(compareColumns := None) == cfg.(compareColumns := None)
    requires cfg.compareColumns.Some? && n in cfg.compareColumns.value && n !in source.columns
    requires cfg'.compareColumns.Some? && n' in cfg'.compareColumns.value && n' !in source.columns
    ensures SameOutcome(Validated(keys, cfg, Some(source), target), Validated(keys, cfg', Some(source), target))
  {
    PrepareIgnoresColumns(Some(source), Source, keys, cfg, cfg');
    PrepareIgnoresColumns(target, Target, keys, cfg, cfg');
    UnknownColumnOutcome(keys, cfg, source, target, n);
    UnknownColumnOutcome(keys, cfg', source, target, n');
  }

  lemma UnknownColumns(keys: seq<string>, cfg: Config, cfg': Config, source: Frame, target: Option<Frame>,
                       names: seq<string>, names': seq<string>)
    requires cfg'.(compareColumns := None) == cfg.(compareColumns := None)
    requires SameNames(names, names') && SomeUnknown(names, source.columns)
    requires cfg.compareColumns == Some(SpelledAll(LastSpelling(source.columns), names))
    requires cfg'.compareColumns == Some(SpelledAll(LastSpelling(source.columns), names'))
    ensures SameOutcome(Validated(keys, cfg, Some(source), target), Validated(keys, cfg', Some(source), target))
  {
    SpelledSame(source.columns, names, names');
    UnknownIsMissing(source.columns, names);
    UnknownIsMissing(source.columns, names');
    var n :| n in cfg.compareColumns.value && n !in source.columns;
    var n' :| n' in cfg'.compareColumns.value && n' !in source.columns;
    BothColumnsUnknown(keys, cfg, cfg', source, target, n, n');
  }

  lemma UnknownKeyFails(keys: seq<string>, cfg: Config, source: Frame, target: Option<Frame>, k: string)
    requires k in keys && k !in source.columns
    ensures var r := Validated(keys, cfg, Some(source), target);
            r.Err? && r.error.KeysNotFound? && r.error.side == Source
  {
  }

  lemma UnknownKeys(keys: seq<string>, cfg: Config, source: Frame, target: Option<Frame>, names: seq<string>)
    requires SomeUnknown(names, source.columns) && keys == SpelledAll(LastSpelling(source.columns), names)
    ensures var r := Validated(keys, cfg, Some(source), target);
            r.Err? && r.error.KeysNotFound? && r.error.side == Source
  {
    UnknownIsMissing(source.columns, names);
    var k :| k in keys && k !in source.columns;
    UnknownKeyFails(keys, cfg, source, target, k);
  }

  /** The same names up to case lead to the same inputs, or to the same failure. */
  lemma SameUpToCaseSameInputs(keys: seq<string>, cfg: Config, keys': seq<string>, cfg': Config, source: Frame,
                               target: Frame)
    requires SameUpToCase(keys, cfg, keys', cfg') && Ready(cfg, Some(source), Some(target))
    ensures SameOutcome(Accepted(keys, cfg, Some(source), Some(target)),
                        Accepted(keys', cfg', Some(source), Some(target)))
  {
    if cfg.caseInsensitiveColumns {
      var s, t := Some(source), Some(target);
      var k, c, k', c' := AlignedKeys(keys, cfg, s, t), AlignedConfig(cfg, s, t), AlignedKeys(keys', cfg', s, t),
                          AlignedConfig(cfg', s, t);
      var aligned := AlignedTarget(cfg, s, t);
      SpelledSame(source.columns, keys, keys');
      if SomeUnknown(keys, source.columns) {
        UnknownKeys(k, c, source, aligned, keys);
        UnknownKeys(k', c', source, aligned, keys');
      } else if cfg.compareColumns.Some? {
        var names, names' := cfg.compareColumns.value, cfg'.compareColumns.value;
        SpelledSame(source.columns, names, names');
        if SomeUnknown(names, source.columns) {
          UnknownColumns(k, c, c', source, aligned, names, names');
        }
      }
    }
  }

  /**
   After any calls, however they ended, the next comparison of two frames gives what a freshly built
   engine gives, or fails in the same way.
   */
  lemma ReuseIsHistoryFree(keys: seq<string>, cfg: Config, calls: seq<Call>, source: Frame, target: Frame)
    requires Ready(cfg, Some(source), Some(target))
    ensures Ready(ConfigAfter(keys, cfg, calls), Some(source), Some(target))
    ensures SameOutcome(Compared(keys, cfg, Some(source), Some(target)),
                        Compared(KeysAfter(keys, cfg, calls), ConfigAfter(keys, cfg, calls), Some(source),
                                 Some(target)))
  {
    CallsKeepNames(keys, cfg, calls);
    SameUpToCaseSameInputs(keys, cfg, KeysAfter(keys, cfg, calls), ConfigAfter(keys, cfg, calls), source, target);
  }

  /** A missing frame always fails; a missing source always in the same way. */
  lemma MissingFrameFails(keys: seq<string>, cfg: Config, source: Option<Frame>, target: Option<Frame>)
    requires source.None? || target.None?
    ensures Compared(keys, cfg, source, target).Err?
    ensures source.None? ==> Compared(keys, cfg, source, target) == Err(FrameMissing(Source))
  {
  }

  predicate AllIn(names: seq<string>, columns: seq<string>) {
    forall i :: 0 <= i < |names| ==> names[i] in columns
  }

  lemma SameKnownNames(columns: seq<string>, a: seq<string>, b: seq<string>)
    requires CollisionFree(columns) && SameNames(a, b) && AllIn(a, columns) && AllIn(b, columns)
    ensures a == b
  {
    forall i | 0 <= i < |a|
      ensures a[i] == b[i]
    {
      var j :| 0 <= j < |columns| && columns[j] == a[i];
      var k :| 0 <= k < |columns| && columns[k] == b[i];
    }
  }

  /** What a comparison with a known source key and no target fails with. */
  function FailureWithoutTarget(keys: seq<string>, cfg: Config, source: Frame): EngineError {
    var duplicates := DuplicateCount(source, keys, cfg);
    if duplicates == 0 || cfg.dropDuplicateKeys then FrameMissing(Target) else DuplicateKeys(Source, duplicates)
  }

  lemma WithoutTarget(keys: seq<string>, cfg: Config, source: Frame)
    ensures var r := Compared(keys, cfg, Some(source), None);
            && r.Err?
            && (if AllIn(keys, source.columns) then r.error == FailureWithoutTarget(keys, cfg, source)
                else r.error.KeysNotFound? && r.error.side == Source)
  {
    assert AllIn(keys, source.columns) <==> NotIn(keys, source.columns) == [] by {
      assert forall i :: 0 <= i < |keys| ==> keys[i] in keys;
    }
  }

  lemma CountIgnoresColumns(f: Frame, keys: seq<string>, cfg: Config, cfg': Config)
    requires cfg'.(compareColumns := None) == cfg.(compareColumns := None)
    ensures DuplicateCount(f, keys, cfg') == DuplicateCount(f, keys, cfg)
  {
    RowsIgnoreColumns(f, cfg, cfg');
  }

  /** The keys as typed and as remembered count the same duplicates, where that can be told. */
  predicate SameDuplicates(keys: seq<string>, keys': seq<string>, cfg: Config, source: Frame) {
    cfg.dropDuplicateKeys || DuplicateCount(source, keys, cfg) == DuplicateCount(source, keys', cfg)
  }

  lemma FailuresAlike(r: Result<ComparisonResult, EngineError>, r': Result<ComparisonResult, EngineError>,
                      known: bool, known': bool, f: EngineError, f': EngineError)
    requires r.Err? && if known then r.error == f else r.error.KeysNotFound? && r.error.side == Source
    requires r'.Err? && if known' then r'.error == f' else r'.error.KeysNotFound? && r'.error.side == Source
    requires !f.KeysNotFound? && !f.ColumnsNotFound? && !f'.KeysNotFound?
    ensures SameOutcome(r, r') <==> (known <==> known') && (known ==> f == f')
  {
  }

  /**
   Without a target frame the reused engine fails as a fresh one would if and only if the keys as typed
   and the keys as remembered are both among the source's columns or both not, and, when both are and
   duplicates are not dropped, count the same number of duplicate rows.
   */
  lemma ReuseWithoutTarget(keys: seq<string>, cfg: Config, calls: seq<Call>, source: Frame)
    ensures var keys', cfg' := KeysAfter(keys, cfg, calls), ConfigAfter(keys, cfg, calls);
            var known, known' := AllIn(keys, source.columns), AllIn(keys', source.columns);
            SameOutcome(Compared(keys, cfg, Some(source), None), Compared(keys', cfg', Some(source), None)) <==>
              (known <==> known') && (known ==> SameDuplicates(keys, keys', cfg, source))
  {
    CallsKeepNames(keys, cfg, calls);
    WithoutTargetAlike(keys, cfg, KeysAfter(keys, cfg, calls), ConfigAfter(keys, cfg, calls), source);
  }

  lemma WithoutTargetAlike(keys: seq<string>, cfg: Config, keys': seq<string>, cfg': Config, source: Frame)
    requires SameUpToCase(keys, cfg, keys', cfg')
    ensures var known, known' := AllIn(keys, source.columns), AllIn(keys', source.columns);
            SameOutcome(Compared(keys, cfg, Some(source), None), Compared(keys', cfg', Some(source), None)) <==>
              (known <==> known') && (known ==> SameDuplicates(keys, keys', cfg, source))
  {
    var f, f' := FailureWithoutTarget(keys, cfg, source), FailureWithoutTarget(keys', cfg', source);
    WithoutTarget(keys, cfg, source);
    WithoutTarget(keys', cfg', source);
    FailuresMeet(keys, cfg, keys', cfg', source);
    FailuresAlike(Compared(keys, cfg, Some(source), None), Compared(keys', cfg', Some(source), None),
                  AllIn(keys, source.columns), AllIn(keys', source.columns), f, f');
  }

  lemma FailuresMeet(keys: seq<string>, cfg: Config, keys': seq<string>, cfg': Config, source: Frame)
    requires cfg'.(compareColumns := None) == cfg.(compareColumns := None)
    ensures FailureWithoutTarget(keys, cfg, source) == FailureWithoutTarget(keys', cfg', source) <==>
              SameDuplicates(keys, keys', cfg, source)
  {
    CountIgnoresColumns(source, keys', cfg, cfg');
  }

  /** With a source no two of whose columns differ only by case, known keys settle the duplicates too. */
  lemma KnownKeysCountAlike(keys: seq<string>, cfg: Config, calls: seq<Call>, source: Frame)
    requires CollisionFree(source.columns)
    requires AllIn(keys, source.columns) && AllIn(KeysAfter(keys, cfg, calls), source.columns)
    ensures KeysAfter(keys, cfg, calls) == keys && SameDuplicates(keys, KeysAfter(keys, cfg, calls), cfg, source)
  {
    CallsKeepNames(keys, cfg, calls);
    if cfg.caseInsensitiveColumns {
      SameKnownNames(source.columns, keys, KeysAfter(keys, cfg, calls));
    }
  }

  /** A source with a row twice: known keys are found duplicated before the target is looked at. */
  lemma TwiceTheRow(keys: seq<string>, cfg: Config, source: Frame)
    requires |source.rows| == 2 && source.rows[0] == source.rows[1] && !cfg.dropDuplicateKeys
    ensures Compared(keys, cfg, Some(source), None) ==
            if NotIn(keys, source.columns) == [] then Err(DuplicateKeys(Source, 1))
            else Err(KeysNotFound(Source, NotIn(keys, source.columns)))
  {
    var rows := KeyedRows(NormalRows(cfg, source.kinds, source.rows), keys);
    assert Keys(rows[..0]) == [] && Keys(rows[..1]) == [rows[0].key];
    assert Duplicated(rows) == [false, true];
    assert [false, true][..1] == [false] && [false][..0] == [];
  }

  lemma AfterOneCall(keys: seq<string>, cfg: Config, call: Call)
    ensures KeysAfter(keys, cfg, [call]) == AlignedKeys(keys, cfg, call.source, call.target)
    ensures ConfigAfter(keys, cfg, [call]) == AlignedConfig(cfg, call.source, call.target)
  {
    assert [call][1..] == [];
  }

  lemma KeyRespelled(key: string, column: string)
    requires Text.Fold(key) == Text.Fold(column)
    ensures SpelledAll(LastSpelling([column]), [key]) == [column]
  {
    assert [column][..0] == [];
  }

  lemma OneUnknownKey(key: string, columns: seq<string>)
    requires key !in columns
    ensures NotIn([key], columns) == [key]
  {
    assert [key][..0] == [];
  }

  /**
   Without a target frame the failure may differ in kind: the fresh engine looks for the key as it was
   typed and misses it, the reused one, as an earlier source spelled it, finds it duplicated.
   */
  lemma MissingTargetRemembers() returns (keys: seq<string>, cfg: Config, call: Call, source: Frame)
    ensures Compared(keys, cfg, Some(source), None) == Err(KeysNotFound(Source, ["ID"]))
    ensures Compared(KeysAfter(keys, cfg, [call]), ConfigAfter(keys, cfg, [call]), Some(source), None) ==
            Err(DuplicateKeys(Source, 1))
  {
    keys, cfg := ["ID"], Config(None, true, false, false, 0.0, false, true, 100);
    var row: Row := map["id" := Str("7")];
    source := FrameData(["id"], map["id" := TextKind], [row, row]);
    call := Call(Some(source), Some(source));
    assert Text.Fold("ID") == "id" == Text.Fold("id");
    RespelledKeyIsRemembered("ID", "id", cfg, source);
  }

  lemma RespelledKeyIsRemembered(key: string, column: string, cfg: Config, source: Frame)
    requires key != column && Text.Fold(key) == Text.Fold(column)
    requires cfg.caseInsensitiveColumns && cfg.compareColumns.None? && !cfg.dropDuplicateKeys
    requires source.columns == [column] && |source.rows| == 2 && source.rows[0] == source.rows[1]
    ensures Compared([key], cfg, Some(source), None) == Err(KeysNotFound(Source, [key]))
    ensures var calls := [Call(Some(source), Some(source))];
            Compared(KeysAfter([key], cfg, calls), ConfigAfter([key], cfg, calls), Some(source), None) ==
              Err(DuplicateKeys(Source, 1))
  {
    AfterOneCall([key], cfg, Call(Some(source), Some(source)));
    KeyRespelled(key, column);
    OneUnknownKey(key, [column]);
    TwiceTheRow([key], cfg, source);
    TwiceTheRow([column], cfg, source);
  }
}
