/**
 What a stored schedule and a tick mean to a person: when a suite is due, what disabling keeps, and when a
 notification goes out.
 */
module ScheduleMeaning {
  import opened Wrappers
  import opened Clock
  import opened Sequences
  import opened Sorting
  import opened TestSuites
  import opened Scheduler
  import opened CronSearch
  import opened CronPrinter
  import Calendar
  import Firing = CronFiring
  import Cron
  import Text

  // ----- when a suite is due

  /** The suite has run in this minute or after it. */
  predicate RanInOrAfter(s: Suite, minute: nat) {
    s.lastRunAt.Some? && s.lastRunAt.value.minute >= minute
  }

  lemma RanIs(s: Suite, now: Instant)
    ensures RanSince(s, MinuteStart(now)) <==> RanInOrAfter(s, now.minute)
  {
  }

  lemma DueByParts(s: Suite, schedule: Schedule, offset: int, now: Instant)
    requires ActiveSchedule(s) == Some(schedule)
    ensures IsDue(s, offset, now) <==>
              Matches(schedule, LocalMinute(now.minute, offset)) && !RanSince(s, MinuteStart(now))
  {
  }

  /** Enabled on a schedule: on an expression that parses to it. */
  ghost predicate RunsOn(s: Suite, schedule: Schedule) {
    s.scheduleEnabled && s.scheduleCron.Some? && s.scheduleCron.value != ""
    && Cron.Parse(s.scheduleCron.value) == Ok(schedule)
  }

  lemma RunsOnActive(s: Suite, schedule: Schedule)
    ensures RunsOn(s, schedule) <==> ActiveSchedule(s) == Some(schedule)
  {
  }

  /** A suite that runs on no schedule is never due. */
  lemma NotDueWithoutSchedule(s: Suite, offset: int, now: Instant)
    requires forall schedule :: !RunsOn(s, schedule)
    ensures !IsDue(s, offset, now)
  {
    if ActiveSchedule(s).Some? {
      RunsOnActive(s, ActiveSchedule(s).value);
    }
  }

  /**
   A suite that runs on a schedule is due exactly when the schedule matches the local minute and the suite has
   not run in this minute or later.
   */
  lemma DueMeaning(s: Suite, schedule: Schedule, offset: int, now: Instant, t: int)
    requires ActiveSchedule(s) == Some(schedule) && t == now.minute + offset
    ensures IsDue(s, offset, now) <==> Matches(schedule, t) && !RanInOrAfter(s, now.minute)
  {
    LocalIs(now.minute, offset, t);
    DueByParts(s, schedule, offset, now);
    RanIs(s, now);
  }

  lemma LocalIs(minute: nat, offset: int, t: int)
    requires t == minute + offset
    ensures LocalMinute(minute, offset) == t
  {
  }

  /** An enabled suite is due at exactly the local times its own expression names, once a minute. */
  lemma DueAsWritten(s: Suite, fields: seq<seq<Piece>>, offset: int, now: Instant, d: Calendar.Date, hour: nat,
                     minute: nat)
    requires s.scheduleEnabled && s.scheduleCron == Some(PrintExpression(fields)) && Firing.Proper(fields)
    requires Calendar.Valid(d) && hour < 24 && minute < 60 && now.minute + offset == Firing.At(d, hour, minute)
    ensures IsDue(s, offset, now) <==> Firing.FiresAt(fields, d, hour, minute) && !RanInOrAfter(s, now.minute)
  {
    var schedule := WrittenSchedule(s, fields, d, hour, minute);
    DueMeaning(s, schedule, offset, now, Firing.At(d, hour, minute));
  }

  lemma WrittenSchedule(s: Suite, fields: seq<seq<Piece>>, d: Calendar.Date, hour: nat, minute: nat)
    returns (schedule: Schedule)
    requires s.scheduleEnabled && s.scheduleCron == Some(PrintExpression(fields)) && Firing.Proper(fields)
    requires Calendar.Valid(d) && hour < 24 && minute < 60
    ensures ActiveSchedule(s) == Some(schedule)
    ensures Matches(schedule, Firing.At(d, hour, minute)) <==> Firing.FiresAt(fields, d, hour, minute)
  {
    Firing.FiresAsWritten(fields, d, hour, minute);
    PrintedWords(fields);
    schedule := Cron.Parse(PrintExpression(fields)).value;
    RunsOnActive(s, schedule);
  }

  // ----- what a tick runs, in which order

  lemma {:induction false} DueIdsAreFiltered(rows: Rows, listing: seq<string>, policy: Policy, now: Instant)
    requires forall i :: 0 <= i < |listing| ==> listing[i] in rows
    ensures DueIds(rows, listing, policy, now) == Filter(listing, id => id in rows && policy(rows[id], now))
  {
    if listing != [] {
      DueIdsAreFiltered(rows, listing[..|listing| - 1], policy, now);
    }
  }

  function ByName(rows: Rows): (string, string) -> bool {
    (a: string, b: string) => a in rows && b in rows && NameAtMost(rows[a], rows[b])
  }

  lemma SortedIds(rows: Rows, ids: seq<string>)
    requires forall i :: 0 <= i < |ids| ==> ids[i] in rows
    ensures Sorted(Listed(rows, ids), NameAtMost) <==> Sorted(ids, ByName(rows))
  {
    var suites := Listed(rows, ids);
    if Sorted(suites, NameAtMost) {
      forall i, j | 0 <= i < j < |ids|
        ensures ByName(rows)(ids[i], ids[j])
      {
        assert NameAtMost(suites[i], suites[j]);
      }
    }
    if Sorted(ids, ByName(rows)) {
      forall i, j | 0 <= i < j < |suites|
        ensures NameAtMost(suites[i], suites[j])
      {
        assert ByName(rows)(ids[i], ids[j]);
      }
    }
  }

  /** The due suites run in the order of their names. */
  lemma DueInNameOrder(rows: Rows, listing: seq<string>, policy: Policy, now: Instant)
    requires IsListing(rows, listing) && Sorted(Listed(rows, listing), NameAtMost)
    ensures Sorted(Listed(rows, DueIds(rows, listing, policy, now)), NameAtMost)
  {
    DueIdsAreFiltered(rows, listing, policy, now);
    SortedIds(rows, listing);
    FilterKeepsSorted(listing, id => id in rows && policy(rows[id], now), ByName(rows));
    SortedIds(rows, DueIds(rows, listing, policy, now));
  }

  // ----- enabling, disabling, clearing

  function Typed(cron: Option<string>): string {
    Text.Strip(if cron.Some? then cron.value else "")
  }

  /** Why setting a schedule is refused, if it is: the suite, a missing expression, or one that does not parse. */
  lemma RefusedSchedule(rows: Rows, id: string, cron: Option<string>, enabled: bool)
    ensures var r := Scheduled(rows, id, cron, enabled);
            && (r == Err(SuiteNotFound(id)) <==> id !in rows)
            && (r == Err(CronRequired) <==> id in rows && enabled && Typed(cron) == "")
            && (r.Err? && r.error.BadCron? <==> id in rows && Typed(cron) != "" && Cron.Parse(Typed(cron)).Err?)
            && (r.Err? ==> r.error.SuiteNotFound? ==> r.error.id == id)
  {
  }

  /** The stored expression is the one typed, without outer white space, and no other column changes. */
  lemma StoredSchedule(rows: Rows, id: string, cron: Option<string>, enabled: bool)
    requires Scheduled(rows, id, cron, enabled).Ok?
    ensures var s := Scheduled(rows, id, cron, enabled).value;
            && s.scheduleCron == (if Typed(cron) == "" then None else Some(Typed(cron)))
            && (s.scheduleEnabled <==> enabled)
            && s.id == rows[id].id && s.name == rows[id].name && s.lastRunId == rows[id].lastRunId
            && s.lastRunStatus == rows[id].lastRunStatus && s.lastRunAt == rows[id].lastRunAt
  {
  }

  /**
   Disabling keeps the expression, and the suite is not due at any time; enabling it again with what is
   stored gives back the enabled suite.
   */
  lemma DisablingKeepsTheExpression(rows: Rows, id: string, cron: Option<string>, offset: int, now: Instant)
    requires Scheduled(rows, id, cron, false).Ok?
    ensures var s := Scheduled(rows, id, cron, false).value;
            && !s.scheduleEnabled && !IsDue(s, offset, now)
            && (Typed(cron) != "" ==>
                 && s.scheduleCron == Some(Typed(cron))
                 && Scheduled(rows[id := s], id, s.scheduleCron, true) == Scheduled(rows, id, cron, true)
                 && Scheduled(rows, id, cron, true) == Ok(s.(scheduleEnabled := true)))
  {
    var text := if cron.Some? then cron.value else "";
    Text.StripTrimmed(text);
    Text.TrimmedStrip(Text.Strip(text));
    NotDueWithoutSchedule(Scheduled(rows, id, cron, false).value, offset, now);
  }

  // ----- when a notification goes out

  lemma {:induction false} FailuresAre(outcomes: seq<Outcome>)
    ensures Failures(outcomes) == Filter(outcomes, (o: Outcome) => o.Status() != PASS)
  {
    if outcomes != [] {
      FailuresAre(outcomes[..|outcomes| - 1]);
    }
  }

  /** An execution that did not end in PASS: it raised, or completed with another verdict. */
  predicate Failed(e: Execution) {
    e.Raised? || e.status != PASS
  }

  lemma OneFailed(rows: Rows, ids: seq<string>, executions: seq<Execution>)
    requires |ids| <= |executions| && forall i :: 0 <= i < |ids| ==> ids[i] in rows
    ensures var outcomes := RunAll(rows, ids, executions).1;
            Failures(outcomes) != [] <==> exists i :: 0 <= i < |ids| && Failed(executions[i])
  {
    var outcomes := RunAll(rows, ids, executions).1;
    OutcomesTell(rows, ids, executions);
    FailuresAre(outcomes);
    var failures := Failures(outcomes);
    if failures != [] {
      assert failures[0] in failures && failures[0] in outcomes;
      var i :| 0 <= i < |outcomes| && outcomes[i] == failures[0];
      assert Failed(executions[i]);
    }
    if i :| 0 <= i < |ids| && Failed(executions[i]) {
      assert outcomes[i] in outcomes && outcomes[i].Status() != PASS;
      assert outcomes[i] in failures;
    }
  }

  /**
   After a tick that ran stored suites: never when notifications are off, always when they are on for every
   tick that ran something, and otherwise exactly when an execution raised or did not pass.
   */
  lemma WhenNotified(rows: Rows, ids: seq<string>, executions: seq<Execution>, on: NotifyOn)
    requires |ids| <= |executions| && forall i :: 0 <= i < |ids| ==> ids[i] in rows
    ensures var outcomes := RunAll(rows, ids, executions).1;
            ShouldNotify(on, outcomes) <==>
              match on
              case Never => false
              case Always => ids != []
              case OnFailure => exists i :: 0 <= i < |ids| && Failed(executions[i])
  {
    OutcomesTell(rows, ids, executions);
    OneFailed(rows, ids, executions);
  }
}
