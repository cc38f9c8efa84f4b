/** Saved test suites: the stored rows, and running suites one after another. */
module TestSuites {
  import opened Wrappers
  import opened Clock
  import opened Sequences
  import opened Sorting

  datatype RunStatus = PASS | FAIL | ERROR

  datatype Suite = Suite(
    id: string,
    name: string,
    scheduleCron: Option<string>,
    scheduleEnabled: bool,
    lastRunId: Option<string>,
    lastRunStatus: Option<RunStatus>,
    lastRunAt: Option<Instant>)

  type Rows = map<string, Suite>

  /** Each row is stored under its own id. */
  ghost predicate Consistent(rows: Rows) {
    forall id :: id in rows ==> rows[id].id == id
  }

  /** How one execution of a suite's module ends: with a run, or with an exception. */
  datatype Execution =
    | Completed(runId: string, status: RunStatus, at: Instant)
    | Raised(message: string, at: Instant)

  datatype Outcome =
    | Ran(suite: Suite, error: Option<string>)
    | NotFound(suiteId: string)
  {
    function Status(): RunStatus {
      match this
      case Ran(suite, _) => if suite.lastRunStatus.Some? then suite.lastRunStatus.value else ERROR
      case NotFound(_) => ERROR
    }
  }

  function WithResult(s: Suite, runId: Option<string>, status: RunStatus, when: Instant): Suite {
    s.(lastRunId := runId, lastRunStatus := Some(status), lastRunAt := Some(when))
  }

  /** The `last_run_*` columns one execution leaves behind. */
  function Executed(s: Suite, e: Execution): Suite {
    match e
    case Completed(runId, status, at) => WithResult(s, Some(runId), status, at)
    case Raised(_, at) => WithResult(s, None, ERROR, at)
  }

  function Listed(rows: Rows, listing: seq<string>): seq<Suite>
    requires forall i :: 0 <= i < |listing| ==> listing[i] in rows
  {
    seq(|listing|, i requires 0 <= i < |listing| => rows[listing[i]])
  }

  /** Every stored id once, in some order. */
  ghost predicate IsListing(rows: Rows, listing: seq<string>) {
    && (forall i :: 0 <= i < |listing| ==> listing[i] in rows)
    && (forall i, j :: 0 <= i < j < |listing| ==> listing[i] != listing[j])
    && (forall id :: id in rows ==> id in listing)
  }

  predicate NameAtMost(a: Suite, b: Suite) {
    TextAtMost(a.name, b.name)
  }

  /** Some stored suite comes first by name. */
  lemma FirstByName(rows: Rows, ids: set<string>) returns (first: string)
    requires ids <= rows.Keys && ids != {}
    ensures first in ids && forall id :: id in ids ==> NameAtMost(rows[first], rows[id])
    decreases ids
  {
    var some :| some in ids;
    first := some;
    TextOrderTotal(rows[some].name, rows[some].name);
    if ids != {some} {
      var rest := FirstByName(rows, ids - {some});
      TextOrderTotal(rows[some].name, rows[rest].name);
      if NameAtMost(rows[some], rows[rest]) {
        forall id | id in ids && id != some
          ensures NameAtMost(rows[some], rows[id])
        {
          TextOrderTransitive(rows[some].name, rows[rest].name, rows[id].name);
        }
      } else {
        first := rest;
      }
    }
  }

  /** A listing in progress: what is listed comes in name order, before whatever is left. */
  ghost predicate ListedSoFar(rows: Rows, listing: seq<string>, left: set<string>, suites: seq<Suite>) {
    && left <= rows.Keys
    && (forall i :: 0 <= i < |listing| ==> listing[i] in rows && listing[i] !in left)
    && (forall i, j :: 0 <= i < j < |listing| ==> listing[i] != listing[j])
    && (forall id :: id in rows ==> id in left || id in listing)
    && suites == Listed(rows, listing) && Sorted(suites, NameAtMost)
    && forall i, id :: 0 <= i < |suites| && id in left ==> NameAtMost(suites[i], rows[id])
  }

  lemma ListNext(rows: Rows, listing: seq<string>, left: set<string>, suites: seq<Suite>, id: string)
    requires ListedSoFar(rows, listing, left, suites) && id in left
    requires forall other :: other in left ==> NameAtMost(rows[id], rows[other])
    ensures ListedSoFar(rows, listing + [id], left - {id}, suites + [rows[id]])
  {
    assert Below(suites, rows[id], NameAtMost);
    SortedPush(suites, rows[id], NameAtMost);
    ListedPush(rows, listing, id);
  }

  lemma ListedPush(rows: Rows, listing: seq<string>, id: string)
    requires id in rows && forall i :: 0 <= i < |listing| ==> listing[i] in rows
    ensures Listed(rows, listing + [id]) == Listed(rows, listing) + [rows[id]]
  {
  }

  /** The table of test suites, keyed by id. */
  class SuiteRepository {
    var rows: Rows

    constructor ()
      ensures rows == map[]
    {
      rows := map[];
    }

    /** INSERT; the primary key refuses an id that is already stored. */
    method Add(suite: Suite) returns (added: bool)
      modifies this
      ensures added == (suite.id !in old(rows))
      ensures rows == if added then old(rows)[suite.id := suite] else old(rows)
    {
      added := suite.id !in rows;
      if added {
        rows := rows[suite.id := suite];
      }
    }

    /** UPDATE of every column, `last_run_at` included; no row, no effect. */
    method Update(suite: Suite)
      modifies this
      ensures rows == if suite.id in old(rows) then old(rows)[suite.id := suite] else old(rows)
    {
      if suite.id in rows {
        rows := rows[suite.id := suite];
      }
    }

    method Delete(id: string) returns (existed: bool)
      modifies this
      ensures existed == (id in old(rows))
      ensures rows == old(rows) - {id}
    {
      existed := id in rows;
      rows := rows - {id};
    }

    method GetById(id: string) returns (suite: Option<Suite>)
      ensures suite == if id in rows then Some(rows[id]) else None
    {
      suite := if id in rows then Some(rows[id]) else None;
    }

    method ListAll() returns (suites: seq<Suite>, ghost listing: seq<string>)
      ensures IsListing(rows, listing)
      ensures suites == Listed(rows, listing) && Sorted(suites, NameAtMost)
    {
      suites, listing := [], [];
      var left := rows.Keys;
      while left != {}
        invariant ListedSoFar(rows, listing, left, suites)
        decreases |left|
      {
        ghost var first := FirstByName(rows, left);
        var id :| id in left && forall other :: other in left ==> NameAtMost(rows[id], rows[other]);
        ListNext(rows, listing, left, suites, id);
        left := left - {id};
        suites := suites + [rows[id]];
        listing := listing + [id];
      }
    }

    method RecordRunResult(id: string, runId: Option<string>, status: RunStatus, when: Instant)
      modifies this
      ensures rows == if id in old(rows)
                      then old(rows)[id := WithResult(old(rows)[id], runId, status, when)]
                      else old(rows)
    {
      if id in rows {
        rows := rows[id := WithResult(rows[id], runId, status, when)];
      }
    }
  }

  // ----- running suites in order

  function RunOne(rows: Rows, id: string, e: Execution): (Rows, Outcome) {
    if id !in rows then (rows, NotFound(id))
    else
      var suite := Executed(rows[id], e);
      (rows[id := suite], Ran(suite, if e.Raised? then Some(e.message) else None))
  }

  /** The rows after running `ids` in order; `executions[i]` is how the i-th execution ends. */
  function RunAll(rows: Rows, ids: seq<string>, executions: seq<Execution>): (Rows, seq<Outcome>)
    requires |ids| <= |executions|
  {
    if ids == [] then (rows, [])
    else
      var (before, outcomes) := RunAll(rows, ids[..|ids| - 1], executions);
      var (after, outcome) := RunOne(before, ids[|ids| - 1], executions[|ids| - 1]);
      (after, outcomes + [outcome])
  }

  class TestSuiteService {
    const repository: SuiteRepository

    constructor (repository: SuiteRepository)
      ensures this.repository == repository
    {
      this.repository := repository;
    }

    /** One suite; an execution that raises is recorded as an ERROR rather than propagated. */
    method RunSuite(id: string, e: Execution) returns (outcome: Outcome)
      requires Consistent(repository.rows)
      modifies repository
      ensures (repository.rows, outcome) == RunOne(old(repository.rows), id, e)
      ensures Consistent(repository.rows)
    {
      var found := repository.GetById(id);
      match found
      case None =>
        outcome := NotFound(id);
      case Some(suite) =>
        match e {
          case Completed(runId, status, at) =>
            repository.RecordRunResult(suite.id, Some(runId), status, at);
          case Raised(_, at) =>
            repository.RecordRunResult(suite.id, None, ERROR, at);
        }
        outcome := Ran(Executed(suite, e), if e.Raised? then Some(e.message) else None);
    }

    method RunSuites(ids: seq<string>, executions: seq<Execution>) returns (outcomes: seq<Outcome>)
      requires Consistent(repository.rows) && |ids| <= |executions|
      modifies repository
      ensures (repository.rows, outcomes) == RunAll(old(repository.rows), ids, executions)
      ensures Consistent(repository.rows)
    {
      outcomes := [];
      var i := 0;
      while i < |ids|
        invariant 0 <= i <= |ids| && Consistent(repository.rows)
        invariant (repository.rows, outcomes) == RunAll(old(repository.rows), ids[..i], executions)
      {
        var outcome := RunSuite(ids[i], executions[i]);
        outcomes := outcomes + [outcome];
        assert ids[..i + 1][..i] == ids[..i];
        i := i + 1;
      }
      assert ids[..i] == ids;
    }
  }

  /**
   One outcome per id, in order, whatever the others did; a missing id is an ERROR outcome; rows not
   asked for are untouched and no row appears or disappears.
   */
  lemma {:induction false} RunsAreIsolated(rows: Rows, ids: seq<string>, executions: seq<Execution>)
    requires |ids| <= |executions|
    ensures var (after, outcomes) := RunAll(rows, ids, executions);
            && |outcomes| == |ids|
            && after.Keys == rows.Keys
            && (forall id :: id in rows && id !in ids ==> after[id] == rows[id])
            && (forall i :: 0 <= i < |ids| ==>
                 if ids[i] in rows
                 then outcomes[i].Ran? && outcomes[i].suite.lastRunAt == Some(executions[i].at)
                 else outcomes[i] == NotFound(ids[i]) && outcomes[i].Status() == ERROR)
  {
    if ids != [] {
      RunsAreIsolated(rows, ids[..|ids| - 1], executions);
    }
  }

  /** With distinct ids, each stored row ends as its own execution left it, and its outcome shows that row. */
  lemma {:induction false} EachRowGetsItsResult(rows: Rows, ids: seq<string>, executions: seq<Execution>)
    requires |ids| <= |executions| && Distinct(ids)
    ensures var (after, outcomes) := RunAll(rows, ids, executions);
            forall i :: 0 <= i < |ids| && ids[i] in rows ==>
                          ids[i] in after && after[ids[i]] == Executed(rows[ids[i]], executions[i])
                          && i < |outcomes|
                          && outcomes[i] == Ran(after[ids[i]],
                                                if executions[i].Raised? then Some(executions[i].message) else None)
  {
    if ids != [] {
      var front := ids[..|ids| - 1];
      EachRowGetsItsResult(rows, front, executions);
      RunsAreIsolated(rows, front, executions);
      assert ids[|ids| - 1] !in front;
    }
  }

  /** What an outcome tells of an execution: a raise is an ERROR without a run, with its message. */
  ghost predicate Tells(outcome: Outcome, e: Execution) {
    && outcome.Ran? && outcome.suite.lastRunAt == Some(e.at)
    && match e
       case Completed(runId, status, _) =>
         && outcome.suite.lastRunId == Some(runId) && outcome.suite.lastRunStatus == Some(status)
         && outcome.Status() == status && outcome.error == None
       case Raised(message, _) =>
         && outcome.suite.lastRunId == None && outcome.suite.lastRunStatus == Some(ERROR)
         && outcome.Status() == ERROR && outcome.error == Some(message)
  }

  /** An outcome counts as PASS only for a stored suite whose row says so. */
  lemma OnlyRecordedPass(outcome: Outcome)
    ensures outcome.Status() == PASS <==> outcome.Ran? && outcome.suite.lastRunStatus == Some(PASS)
  {
  }

  /** The columns no execution writes. */
  predicate SameDefinition(a: Suite, b: Suite) {
    a.id == b.id && a.name == b.name && a.scheduleCron == b.scheduleCron && a.scheduleEnabled == b.scheduleEnabled
  }

  /**
   Every outcome of a stored suite tells of its own execution, even when a suite runs more than once: the
   run's id, status and finish time, or an ERROR for a raise; nothing else of the row changes.
   */
  lemma {:induction false} OutcomesTell(rows: Rows, ids: seq<string>, executions: seq<Execution>)
    requires |ids| <= |executions|
    ensures var (after, outcomes) := RunAll(rows, ids, executions);
            && |outcomes| == |ids| && after.Keys == rows.Keys
            && (forall i :: 0 <= i < |ids| && ids[i] in rows ==>
                 Tells(outcomes[i], executions[i]) && SameDefinition(outcomes[i].suite, rows[ids[i]]))
            && (forall id :: id in rows ==> SameDefinition(after[id], rows[id]))
  {
    if ids != [] {
      OutcomesTell(rows, ids[..|ids| - 1], executions);
    }
  }

  /** With distinct ids the stored rows are the ones the outcomes show. */
  lemma RowsAreAsTold(rows: Rows, ids: seq<string>, executions: seq<Execution>)
    requires |ids| <= |executions| && Distinct(ids)
    ensures var (after, outcomes) := RunAll(rows, ids, executions);
            && |outcomes| == |ids| && after.Keys == rows.Keys
            && forall i :: 0 <= i < |ids| && ids[i] in rows ==>
                 && Tells(outcomes[i], executions[i]) && outcomes[i].suite == after[ids[i]]
                 && SameDefinition(after[ids[i]], rows[ids[i]])
  {
    OutcomesTell(rows, ids, executions);
    EachRowGetsItsResult(rows, ids, executions);
  }
}
