/** Full Data Validation: compare, record the run row, then save the row-level detail. */
module FullDataValidation {
  import opened Wrappers
  import opened Sequences
  import opened Frames
  import opened TestSuites
  import opened ComparisonEngine
  import opened RunStorage
  import opened RunCrashes
  import opened RunDetails
  import opened RunReadBack
  import opened EngineTheorems

  datatype Failure =
    | ExtractionFailed(message: string)
    | ComparisonFailed(error: EngineError)
    | SaveFailed

  function StatusOf(r: ComparisonResult): RunStatus {
    if r.IsPassed() then PASS else FAIL
  }

  function DetailsOf(r: ComparisonResult): seq<Section> {
    [Section("Mismatches", DiffRows(r.mismatch)),
     Section("Missing in Target", PlainRows(r.missingInTarget)),
     Section("Extra in Target", PlainRows(r.extraInTarget)),
     Section("Matched", PlainRows(r.exactMatch))]
  }

  lemma DetailTitlesDistinct(r: ComparisonResult)
    ensures DistinctTitles(DetailsOf(r))
  {
    var d := DetailsOf(r);
    assert d[0].title[1] == 'i' && d[0].title[3] == 'm';
    assert d[1].title[1] == 'i' && d[1].title[3] == 's';
    assert d[2].title[1] == 'x' && d[3].title[1] == 'a';
  }

  /** What the engine, freshly built for the request, makes of the two extracts. */
  function EngineOutcome(keys: seq<string>, cfg: Config, source: Result<Frame, string>,
                         target: Result<Frame, string>): Result<ComparisonResult, Failure>
    requires source.Ok? && target.Ok? ==> Ready(cfg, Some(source.value), Some(target.value))
  {
    if source.Err? then Err(ExtractionFailed(source.error))
    else if target.Err? then Err(ExtractionFailed(target.error))
    else if keys == [] then Err(ComparisonFailed(NoBusinessKeys))
    else
      match Compared(keys, cfg, Some(source.value), Some(target.value))
      case Ok(r) => Ok(r)
      case Err(e) => Err(ComparisonFailed(e))
  }

  const ERROR_ROW := RunRow(ERROR, false)

  /** The job an execution amounts to. `limit` is how many steps of the save succeed. */
  ghost function JobOf(outcome: Result<ComparisonResult, Failure>, id: string, errorId: string, limit: nat): Job {
    match outcome
    case Err(_) => FailedRun(errorId, ERROR_ROW)
    case Ok(r) =>
      if limit < |SaveOps(id, DetailsOf(r))|
      then RunWhoseSaveRaises(id, RunRow(StatusOf(r), false), DetailsOf(r), limit, errorId, ERROR_ROW)
      else Run(id, RunRow(StatusOf(r), false), DetailsOf(r))
  }

  class FullDataValidationService {
    const details: RunDetailStore

    constructor (details: RunDetailStore)
      ensures this.details == details
    {
      this.details := details;
    }

    /**
     One execution. The run row is written before the detail; anything that raises, the save included,
     leads to an error row and is raised again.
     */
    method Execute(keys: seq<string>, cfg: Config, source: Result<Frame, string>, target: Result<Frame, string>,
                   id: string, errorId: string, limit: nat)
      returns (r: Result<ComparisonResult, Failure>, ghost ops: seq<Op>)
      requires source.Ok? && target.Ok? ==> Ready(cfg, Some(source.value), Some(target.value))
      requires id != errorId && id !in details.storage.rows && errorId !in details.storage.rows
      modifies details.storage
      ensures var job := JobOf(EngineOutcome(keys, cfg, source, target), id, errorId, limit);
              && Completes(old(details.storage.Now()), job, ops)
              && (r == if job.RunWhoseSaveRaises? then Err(SaveFailed) else EngineOutcome(keys, cfg, source, target))
      ensures Took(details.storage, old(details.storage.Now()), old(details.storage.log), ops)
    {
      var outcome := RunEngine(keys, cfg, source, target);
      if outcome.Err? {
        ops := [AddRow(errorId, ERROR_ROW)];
        AfterAddRow(details.storage.Now(), errorId, ERROR_ROW);
        details.storage.Add(errorId, ERROR_ROW);
        return outcome, ops;
      }
      DetailTitlesDistinct(outcome.value);
      var raised;
      raised, ops := Record(id, RunRow(StatusOf(outcome.value), false), DetailsOf(outcome.value), errorId, limit);
      r := if raised then Err(SaveFailed) else outcome;
    }

    method RunEngine(keys: seq<string>, cfg: Config, source: Result<Frame, string>, target: Result<Frame, string>)
      returns (r: Result<ComparisonResult, Failure>)
      requires source.Ok? && target.Ok? ==> Ready(cfg, Some(source.value), Some(target.value))
      ensures r == EngineOutcome(keys, cfg, source, target)
    {
      if source.Err? {
        return Err(ExtractionFailed(source.error));
      }
      if target.Err? {
        return Err(ExtractionFailed(target.error));
      }
      var built := NewEngine(keys, cfg);
      if built.Err? {
        return Err(ComparisonFailed(NoBusinessKeys));
      }
      var compared := built.value.Compare(Some(source.value), Some(target.value));
      r := match compared { case Ok(result) => Ok(result) case Err(e) => Err(ComparisonFailed(e)) };
    }

    /** Row, detail, and the error row when the save raises. */
    method Record(id: string, row: RunRow, sections: seq<Section>, errorId: string, limit: nat)
      returns (raised: bool, ghost ops: seq<Op>)
      requires id != errorId && id !in details.storage.rows && errorId !in details.storage.rows
      modifies details.storage
      ensures raised <==> limit < |SaveOps(id, sections)|
      ensures ops == if raised then RaisingOps(id, row, sections, limit, errorId, ERROR_ROW)
              else RunOps(id, row, sections)
      ensures Took(details.storage, old(details.storage.Now()), old(details.storage.log), ops)
    {
      ghost var before, log, saving := details.storage.Now(), details.storage.log, SaveOps(id, sections);
      details.storage.Add(id, row);
      raised := details.Save(id, sections, limit);
      RecordedSoFar(before, log, id, row, saving, Min(limit, |saving|));
      ops := [AddRow(id, row)] + saving[..Min(limit, |saving|)];
      SaveKeepsRows(Apply(before, AddRow(id, row)), id, sections, Min(limit, |saving|));
      if raised {
        details.storage.Add(errorId, ERROR_ROW);
        ApplyPush(before, ops, AddRow(errorId, ERROR_ROW));
        assert log + ops + [AddRow(errorId, ERROR_ROW)] == log + (ops + [AddRow(errorId, ERROR_ROW)]);
        ops := ops + [AddRow(errorId, ERROR_ROW)];
      } else {
        assert saving[..|saving|] == saving;
      }
    }
  }

  lemma RecordedSoFar(s: State, log: seq<Op>, id: string, row: RunRow, saving: seq<Op>, n: nat)
    requires n <= |saving|
    ensures var ops := [AddRow(id, row)] + saving[..n];
            && log + ops == log + [AddRow(id, row)] + saving[..n]
            && ApplyAll(s, ops) == ApplyAll(Apply(s, AddRow(id, row)), saving[..n])
  {
    AfterAddRow(s, id, row);
    ApplyAppend(s, [AddRow(id, row)], saving[..n]);
  }

  lemma InterruptedDetail(s: State, id: string, row: RunRow, details: seq<Section>, limit: nat, errorId: string)
    requires id !in s.dirs && DistinctTitles(details) && limit < |SaveOps(id, details)|
    ensures LoadedAll(ApplyAll(s, RaisingOps(id, row, details, limit, errorId, ERROR_ROW)), id) == []
  {
    var started := RunOps(id, row, details)[..limit + 1];
    assert started == [AddRow(id, row)] + SaveOps(id, details)[..limit];
    RunIsAllOrNothing(s, id, row, details, limit + 1);
    ApplyPush(s, started, AddRow(errorId, ERROR_ROW));
  }

  lemma WholeDetail(s: State, id: string, row: RunRow, details: seq<Section>)
    requires id !in s.dirs && DistinctTitles(details)
    ensures LoadedAll(ApplyAll(s, RunOps(id, row, details)), id) == details
  {
    var ops := RunOps(id, row, details);
    RunIsAllOrNothing(s, id, row, details, |ops|);
    assert ops[..|ops|] == ops;
  }

  /**
   What an execution leaves for a reader: the recorded status is the engine's verdict, and the stored
   detail is the engine's four frames under their titles, or nothing when the save raised.
   */
  lemma StoredDetail(s: State, outcome: Result<ComparisonResult, Failure>, id: string, errorId: string, limit: nat,
                     ops: seq<Op>)
    requires outcome.Ok? && id !in s.dirs
    requires Completes(s, JobOf(outcome, id, errorId, limit), ops)
    ensures var after := ApplyAll(s, ops);
            && id in after.rows && after.rows[id].status == StatusOf(outcome.value)
            && LoadedAll(after, id) ==
               (if limit < |SaveOps(id, DetailsOf(outcome.value))| then [] else DetailsOf(outcome.value))
  {
    var details, row := DetailsOf(outcome.value), RunRow(StatusOf(outcome.value), false);
    DetailTitlesDistinct(outcome.value);
    ExecutionRows(s, JobOf(outcome, id, errorId, limit), ops);
    if limit < |SaveOps(id, details)| {
      InterruptedDetail(s, id, row, details, limit, errorId);
    } else {
      WholeDetail(s, id, row, details);
    }
  }

  /** Which frame of the result is found under which title, and none under any other. */
  ghost predicate FramesByTitle(s: State, id: string, r: ComparisonResult) {
    && LoadedOne(s, id, "Mismatches") == Some(DiffRows(r.mismatch))
    && LoadedOne(s, id, "Missing in Target") == Some(PlainRows(r.missingInTarget))
    && LoadedOne(s, id, "Extra in Target") == Some(PlainRows(r.extraInTarget))
    && LoadedOne(s, id, "Matched") == Some(PlainRows(r.exactMatch))
    && forall title :: title !in ["Mismatches", "Missing in Target", "Extra in Target", "Matched"] ==>
         LoadedOne(s, id, title) == None
  }

  lemma TitlesLoad(s: State, id: string, r: ComparisonResult)
    ensures FramesByTitle(ApplyAll(s, SaveOps(id, DetailsOf(r))), id, r)
  {
    var d, after := DetailsOf(r), ApplyAll(s, SaveOps(id, DetailsOf(r)));
    DetailTitlesDistinct(r);
    LoadOneSection(s, id, d, d[0].title);
    assert LoadedOne(after, id, d[1].title) == Some(d[1].frame) && LoadedOne(after, id, d[2].title) == Some(d[2].frame);
    assert LoadedOne(after, id, d[3].title) == Some(d[3].frame);
    forall title | title !in ["Mismatches", "Missing in Target", "Extra in Target", "Matched"]
      ensures LoadedOne(after, id, title) == None
    {
      assert title != d[0].title && title != d[1].title && title != d[2].title && title != d[3].title;
      LoadOneSection(s, id, d, title);
    }
  }

  /**
   What a completed execution leaves: PASS when at most one compared key in two million failed, else FAIL,
   and the comparison's frames under their titles.
   */
  lemma CompletedRun(s: State, keys: seq<string>, cfg: Config, source: Frame, target: Frame, id: string,
                     errorId: string, ops: seq<Op>)
    requires Ready(cfg, Some(source), Some(target)) && EngineOutcome(keys, cfg, Ok(source), Ok(target)).Ok?
    requires id !in s.dirs && id != errorId
    requires var outcome := EngineOutcome(keys, cfg, Ok(source), Ok(target));
             Completes(s, JobOf(outcome, id, errorId, |SaveOps(id, DetailsOf(outcome.value))|), ops)
    ensures var r, after := Compared(keys, cfg, Some(source), Some(target)), ApplyAll(s, ops);
            && r.Ok? && id in after.rows
            && after.rows[id].status ==
               (if 2_000_000 * r.value.summary.rowsFailed <= r.value.summary.rowsCompared then PASS else FAIL)
            && FramesByTitle(after, id, r.value)
  {
    var r := Compared(keys, cfg, Some(source), Some(target)).value;
    VerdictMeaning(keys, cfg, source, target);
    RunSaves(s, id, RunRow(StatusOf(r), false), DetailsOf(r));
    TitlesLoad(Apply(s, AddRow(id, RunRow(StatusOf(r), false))), id, r);
  }

  lemma RunSaves(s: State, id: string, row: RunRow, details: seq<Section>)
    ensures ApplyAll(s, RunOps(id, row, details)) == ApplyAll(Apply(s, AddRow(id, row)), SaveOps(id, details))
    ensures ApplyAll(s, RunOps(id, row, details)).rows == s.rows[id := row]
  {
    RecordedSoFar(s, [], id, row, SaveOps(id, details), |SaveOps(id, details)|);
    assert SaveOps(id, details)[..|SaveOps(id, details)|] == SaveOps(id, details);
    SaveKeepsRows(Apply(s, AddRow(id, row)), id, details, |SaveOps(id, details)|);
  }

  /** What goes wrong first: the source's extract, the target's, or the comparison itself. */
  lemma FirstFailure(keys: seq<string>, cfg: Config, source: Result<Frame, string>, target: Result<Frame, string>)
    requires source.Ok? && target.Ok? ==> Ready(cfg, Some(source.value), Some(target.value))
    ensures var r := EngineOutcome(keys, cfg, source, target);
            && (r.Ok? <==> source.Ok? && target.Ok? && keys != [] &&
                           Compared(keys, cfg, Some(source.value), Some(target.value)).Ok?)
            && (r.Ok? ==> Ok(r.value) == Compared(keys, cfg, Some(source.value), Some(target.value)))
            && (r.Err? ==>
                 (r.error.ExtractionFailed? <==> source.Err? || target.Err?)
                 && r.error != SaveFailed
                 && (source.Err? ==> r.error == ExtractionFailed(source.error))
                 && (source.Ok? && target.Err? ==> r.error == ExtractionFailed(target.error))
                 && (source.Ok? && target.Ok? ==>
                      r.error == ComparisonFailed(
                        if keys == [] then NoBusinessKeys
                        else Compared(keys, cfg, Some(source.value), Some(target.value)).error)))
  {
  }

  /** An execution that fails before it records anything leaves one ERROR row and no detail. */
  lemma FailedRunRecorded(s: State, outcome: Result<ComparisonResult, Failure>, id: string, errorId: string,
                          limit: nat, ops: seq<Op>)
    requires outcome.Err? && Completes(s, JobOf(outcome, id, errorId, limit), ops)
    ensures ApplyAll(s, ops) == s.(rows := s.rows[errorId := RunRow(ERROR, false)])
  {
    AfterAddRow(s, errorId, ERROR_ROW);
  }

  /** When the save raises, the run keeps its verdict, an ERROR row is added, and nothing of the run loads. */
  lemma RaisedSaveRecorded(s: State, r: ComparisonResult, id: string, errorId: string, limit: nat, ops: seq<Op>)
    requires id !in s.dirs && limit < |SaveOps(id, DetailsOf(r))|
    requires Completes(s, JobOf(Ok(r), id, errorId, limit), ops)
    ensures var after := ApplyAll(s, ops);
            && after.rows.Keys == s.rows.Keys + {id, errorId}
            && after.rows[id].status == (if r.IsPassed() then PASS else FAIL)
            && after.rows[errorId].status == ERROR && LoadedAll(after, id) == []
  {
    StoredDetail(s, Ok(r), id, errorId, limit, ops);
    ExecutionRows(s, JobOf(Ok(r), id, errorId, limit), ops);
  }
}
