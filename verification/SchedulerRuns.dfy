/**
 Whole runs of one scheduler process beside any number of user actions. A tick computes its due list
 once and then runs the suites one by one, so user actions may fall between two runs of the same tick.
 The clock never goes back.
 */
module SchedulerRuns {
  import opened Wrappers
  import opened Clock
  import opened Sequences
  import opened TestSuites
  import opened Scheduler
  import opened CronSearch

  /** A suite executed by the tick of this UTC minute. */
  datatype Firing = Firing(suite: string, minute: nat)

  datatype State = State(
    rows: Rows,
    usedIds: set<string>,
    clock: Instant,
    tickAt: Instant,
    pending: seq<string>,
    log: seq<Firing>)

  /** `Update` is any rewrite of a stored row, `set_schedule` included. */
  datatype Step =
    | TickStart(now: Instant, listing: seq<string>)
    | TickRun(execution: Execution)
    | RunNow(id: string, execution: Execution)
    | Update(suite: Suite)
    | Save(id: string, name: string)
    | Delete(id: string)

  /**
   A copy of a suite that is written back remembers a run since the current minute began, if a tick has
   fired the suite in it.
   */
  ghost predicate Remembers(s: State, copy: Suite) {
    Firing(copy.id, s.clock.minute) in s.log ==> RanSince(copy, MinuteStart(s.clock))
  }

  /** What each step needs: one tick at a time, a forward clock, fresh ids, no forgetful copy written back. */
  ghost predicate Enabled(s: State, step: Step) {
    match step
    case TickStart(now, listing) => s.pending == [] && NotAfter(s.clock, now) && IsListing(s.rows, listing)
    case TickRun(e) => s.pending != [] && NotAfter(s.clock, e.at)
    case RunNow(_, e) => NotAfter(s.clock, e.at)
    case Update(suite) => suite.id in s.rows ==> Remembers(s, suite)
    case Save(id, _) => id !in s.usedIds
    case Delete(_) => true
  }

  function NewSuite(id: string, name: string): Suite {
    Suite(id, name, None, false, None, None, None)
  }

  ghost function Apply(s: State, step: Step, policy: Policy): State
    requires Enabled(s, step)
  {
    match step
    case TickStart(now, listing) =>
      s.(clock := now, tickAt := now, pending := DueIds(s.rows, listing, policy, now))
    case TickRun(e) =>
      var id := s.pending[0];
      var next := s.(pending := s.pending[1..]);
      if id in s.rows then
        next.(rows := RunOne(s.rows, id, e).0, clock := e.at, log := s.log + [Firing(id, s.tickAt.minute)])
      else next
    case RunNow(id, e) => s.(rows := RunOne(s.rows, id, e).0, clock := e.at)
    case Update(suite) => if suite.id in s.rows then s.(rows := s.rows[suite.id := suite]) else s
    case Save(id, name) => s.(rows := s.rows[id := NewSuite(id, name)], usedIds := s.usedIds + {id})
    case Delete(id) => s.(rows := s.rows - {id})
  }

  /** Every step of the run is enabled where it is taken. */
  ghost predicate IsRun(s: State, steps: seq<Step>, policy: Policy)
    decreases |steps|
  {
    steps == [] || (Enabled(s, steps[0]) && IsRun(Apply(s, steps[0], policy), steps[1..], policy))
  }

  ghost function Final(s: State, steps: seq<Step>, policy: Policy): State
    requires IsRun(s, steps, policy)
    decreases |steps|
  {
    if steps == [] then s else Final(Apply(s, steps[0], policy), steps[1..], policy)
  }

  ghost predicate Initial(s: State) {
    && Consistent(s.rows) && s.rows.Keys <= s.usedIds && s.pending == [] && s.log == []
    && NotAfter(s.tickAt, s.clock)
  }

  // ----- at most once per minute

  /** A policy that never picks a suite that has run since the start of the tick's minute. */
  ghost predicate SparesRecentRuns(policy: Policy) {
    forall s, now :: policy(s, now) ==> !RanSince(s, MinuteStart(now))
  }

  /** A firing in the current minute is covered by its suite's own last-run time for as long as the suite exists. */
  ghost predicate Covered(s: State, f: Firing) {
    && f.suite in s.usedIds
    && f.minute <= s.clock.minute
    && (f.suite in s.rows && f.minute == s.clock.minute ==> RanSince(s.rows[f.suite], Instant(f.minute, 0)))
  }

  ghost predicate Inv(s: State) {
    && Consistent(s.rows)
    && s.rows.Keys <= s.usedIds
    && Distinct(s.log)
    && (forall f :: f in s.log ==> Covered(s, f))
    && NotAfter(s.tickAt, s.clock)
    && Distinct(s.pending)
    && (forall id :: id in s.pending ==> id in s.usedIds && Firing(id, s.tickAt.minute) !in s.log)
  }

  lemma TickStartKeepsInv(s: State, now: Instant, listing: seq<string>, policy: Policy)
    requires Inv(s) && Enabled(s, TickStart(now, listing)) && SparesRecentRuns(policy)
    ensures Inv(Apply(s, TickStart(now, listing), policy))
  {
    DueIdsAreDue(s.rows, listing, policy, now);
    forall f | f in s.log
      ensures f.minute == now.minute ==> f.suite !in DueIds(s.rows, listing, policy, now)
    {
      assert Covered(s, f);
    }
  }

  lemma TickRunKeepsInv(s: State, e: Execution, policy: Policy)
    requires Inv(s) && Enabled(s, TickRun(e))
    ensures Inv(Apply(s, TickRun(e), policy))
  {
    var id := s.pending[0];
    var t := Apply(s, TickRun(e), policy);
    assert id in s.pending;
    forall f | f in t.log
      ensures Covered(t, f)
    {
      if f in s.log {
        assert Covered(s, f);
      }
    }
    forall p | p in t.pending
      ensures p in s.pending && p != id
    {
    }
  }

  lemma OtherStepKeepsInv(s: State, step: Step, policy: Policy)
    requires Inv(s) && Enabled(s, step) && !step.TickStart? && !step.TickRun?
    ensures Inv(Apply(s, step, policy))
  {
    var t := Apply(s, step, policy);
    assert t.log == s.log && t.pending == s.pending;
    forall f | f in s.log
      ensures Covered(t, f)
    {
      assert Covered(s, f);
    }
  }

  lemma {:induction false} RunKeepsInv(s: State, steps: seq<Step>, policy: Policy)
    requires Inv(s) && IsRun(s, steps, policy) && SparesRecentRuns(policy)
    ensures Inv(Final(s, steps, policy))
    decreases |steps|
  {
    if steps != [] {
      var step := steps[0];
      if step.TickStart? {
        TickStartKeepsInv(s, step.now, step.listing, policy);
      } else if step.TickRun? {
        TickRunKeepsInv(s, step.execution, policy);
      } else {
        OtherStepKeepsInv(s, step, policy);
      }
      RunKeepsInv(Apply(s, step, policy), steps[1..], policy);
    }
  }

  /** Setting a schedule writes back the row's current last-run time, and so may be done in any state of a run. */
  lemma SetScheduleIsFresh(s: State, id: string, cron: Option<string>, enabled: bool)
    requires Inv(s) && Scheduled(s.rows, id, cron, enabled).Ok?
    ensures Scheduled(s.rows, id, cron, enabled).value.lastRunAt == s.rows[id].lastRunAt
    ensures Scheduled(s.rows, id, cron, enabled).value.id == id
    ensures Enabled(s, Update(Scheduled(s.rows, id, cron, enabled).value))
  {
    var f := Firing(id, s.clock.minute);
    assert f in s.log ==> Covered(s, f);
  }

  /**
   Over every run, ticks execute each suite at most once per UTC minute, however often they come and
   whatever users save, delete, schedule or run by hand in between.
   */
  lemma AtMostOncePerMinute(s: State, steps: seq<Step>, offset: int)
    requires Initial(s) && IsRun(s, steps, CronPolicy(offset))
    ensures Distinct(Final(s, steps, CronPolicy(offset)).log)
  {
    RunKeepsInv(s, steps, CronPolicy(offset));
  }

  /** A suite due at one instant of a minute is due at every instant of it until its row changes. */
  lemma DueAllMinute(s: Suite, offset: int, now: Instant, again: Instant)
    requires again.minute == now.minute
    ensures IsDue(s, offset, now) <==> IsDue(s, offset, again)
  {
  }

  /**
   A run is remembered by when it finished: it holds the suite back in every minute up to that one, so a
   run that finishes in a later minute suppresses that later minute too, and no further one.
   */
  lemma DueAfterRun(s: Suite, e: Execution, offset: int, now: Instant)
    ensures IsDue(Executed(s, e), offset, now) <==>
              && ActiveSchedule(s).Some? && Matches(ActiveSchedule(s).value, LocalMinute(now.minute, offset))
              && e.at.minute < now.minute
  {
    assert ActiveSchedule(Executed(s, e)) == ActiveSchedule(s);
  }

  // ----- the tick method is one TickStart and its TickRuns

  ghost function TickSteps(executions: seq<Execution>): seq<Step> {
    seq(|executions|, i requires 0 <= i < |executions| => TickRun(executions[i]))
  }

  ghost predicate Forward(from: Instant, executions: seq<Execution>)
    decreases |executions|
  {
    executions == [] || (NotAfter(from, executions[0].at) && Forward(executions[0].at, executions[1..]))
  }

  lemma {:induction false} RunAllPrefix(rows: Rows, ids: seq<string>, executions: seq<Execution>, n: nat)
    requires |ids| <= n <= |executions|
    ensures RunAll(rows, ids, executions) == RunAll(rows, ids, executions[..n])
  {
    if ids != [] {
      RunAllPrefix(rows, ids[..|ids| - 1], executions, n);
    }
  }

  lemma {:induction false} RunOneMore(rows: Rows, id: string, ids: seq<string>, e: Execution,
                                      executions: seq<Execution>)
    requires |ids| == |executions|
    ensures RunAll(rows, [id] + ids, [e] + executions).0 == RunAll(RunOne(rows, id, e).0, ids, executions).0
    decreases |ids|
  {
    var all, es := [id] + ids, [e] + executions;
    if ids == [] {
      assert all[..0] == [];
    } else {
      var n := |ids| - 1;
      RunOneMore(rows, id, ids[..n], e, executions[..n]);
      assert all[..n + 1] == [id] + ids[..n];
      RunAllPrefix(rows, all[..n + 1], es, n + 1);
      assert es[..n + 1] == [e] + executions[..n];
      RunAllPrefix(RunOne(rows, id, e).0, ids[..n], executions, n);
    }
  }

  /** Draining the pending list step by step leaves exactly the rows `run_suites` leaves. */
  lemma {:induction false} TickRunsRefineRunAll(s: State, executions: seq<Execution>, policy: Policy)
    requires |executions| == |s.pending| && Forward(s.clock, executions)
    requires forall id :: id in s.pending ==> id in s.rows
    ensures IsRun(s, TickSteps(executions), policy)
    ensures var t := Final(s, TickSteps(executions), policy);
            t.rows == RunAll(s.rows, s.pending, executions).0 && t.pending == [] && |t.log| == |s.log| + |s.pending|
    decreases |executions|
  {
    if executions != [] {
      var steps := TickSteps(executions);
      var t := Apply(s, steps[0], policy);
      assert steps[1..] == TickSteps(executions[1..]);
      assert s.pending == [s.pending[0]] + s.pending[1..] && executions == [executions[0]] + executions[1..];
      TickRunsRefineRunAll(t, executions[1..], policy);
      RunOneMore(s.rows, s.pending[0], s.pending[1..], executions[0], executions[1..]);
    }
  }
}
