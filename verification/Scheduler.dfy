/** The scheduler service: setting schedules, finding what is due, and one tick. */
module Scheduler {
  import opened Wrappers
  import opened TestSuites
  import opened Clock
  import opened Sequences
  import opened Sorting
  import opened CronSearch
  import Text
  import Cron

  /** Local minute of a UTC minute, in a zone with a fixed whole-minute offset. */
  function LocalMinute(utc: nat, offset: int): int { utc + offset }

  /** The schedule an enabled suite runs on; a stored expression that no longer parses counts as none. */
  function ActiveSchedule(s: Suite): Option<Schedule> {
    if s.scheduleEnabled && s.scheduleCron.Some? && s.scheduleCron.value != "" then
      match Cron.Parse(s.scheduleCron.value)
      case Err(_) => None
      case Ok(schedule) => Some(schedule)
    else None
  }

  predicate RanSince(s: Suite, instant: Instant) {
    s.lastRunAt.Some? && NotAfter(instant, s.lastRunAt.value)
  }

  /** Enabled, matching this minute, and not yet run in it. */
  predicate IsDue(s: Suite, offset: int, now: Instant) {
    && ActiveSchedule(s).Some?
    && Matches(ActiveSchedule(s).value, LocalMinute(now.minute, offset))
    && !RanSince(s, MinuteStart(now))
  }

  /** Which suites a tick runs, as a function of the suite and the tick's instant. */
  type Policy = (Suite, Instant) -> bool

  function CronPolicy(offset: int): Policy {
    (s: Suite, now: Instant) => IsDue(s, offset, now)
  }

  function DueIds(rows: Rows, listing: seq<string>, policy: Policy, now: Instant): (due: seq<string>)
    requires forall i :: 0 <= i < |listing| ==> listing[i] in rows
    ensures forall i :: 0 <= i < |due| ==> due[i] in rows
  {
    if listing == [] then []
    else
      var last := listing[|listing| - 1];
      DueIds(rows, listing[..|listing| - 1], policy, now) + if policy(rows[last], now) then [last] else []
  }

  datatype ScheduleError = SuiteNotFound(id: string) | CronRequired | BadCron(error: Cron.CronError)

  /** The row `set_schedule` stores; an expression is stored stripped, and only if it parses. */
  function Scheduled(rows: Rows, id: string, cron: Option<string>, enabled: bool): Result<Suite, ScheduleError> {
    if id !in rows then Err(SuiteNotFound(id))
    else
      var expression := Text.Strip(if cron.Some? then cron.value else "");
      if enabled && expression == "" then Err(CronRequired)
      else if expression != "" && Cron.Parse(expression).Err? then Err(BadCron(Cron.Parse(expression).error))
      else Ok(rows[id].(scheduleCron := if expression == "" then None else Some(expression),
                        scheduleEnabled := enabled && expression != ""))
  }

  datatype NotifyOn = OnFailure | Always | Never

  /** What the replaceable notifier does: answer, or raise. */
  datatype Delivery = Answered(sent: bool) | DeliveryRaised

  function Failures(outcomes: seq<Outcome>): seq<Outcome> {
    if outcomes == [] then []
    else
      var last := outcomes[|outcomes| - 1];
      Failures(outcomes[..|outcomes| - 1]) + if last.Status() != PASS then [last] else []
  }

  predicate ShouldNotify(on: NotifyOn, outcomes: seq<Outcome>) {
    match on
    case Never => false
    case Always => outcomes != []
    case OnFailure => Failures(outcomes) != []
  }

  datatype TickResult = TickResult(checkedAt: Instant, due: seq<Suite>, outcomes: seq<Outcome>, notificationSent: bool)

  lemma {:induction false} DueIdsAreDue(rows: Rows, listing: seq<string>, policy: Policy, now: Instant)
    requires forall i :: 0 <= i < |listing| ==> listing[i] in rows
    ensures forall id :: id in DueIds(rows, listing, policy, now) <==> id in listing && policy(rows[id], now)
    ensures Distinct(listing) ==> Distinct(DueIds(rows, listing, policy, now))
  {
    if listing != [] {
      var front := listing[..|listing| - 1];
      DueIdsAreDue(rows, front, policy, now);
      assert listing == front + [listing[|listing| - 1]];
    }
  }

  lemma DueStep(rows: Rows, listing: seq<string>, i: nat, policy: Policy, now: Instant)
    requires i < |listing| && forall j :: 0 <= j < |listing| ==> listing[j] in rows
    ensures Listed(rows, DueIds(rows, listing[..i + 1], policy, now)) ==
            Listed(rows, DueIds(rows, listing[..i], policy, now)) +
            if policy(rows[listing[i]], now) then [rows[listing[i]]] else []
  {
    assert listing[..i + 1][..i] == listing[..i];
  }

  class SchedulerService {
    const repository: SuiteRepository
    const suites: TestSuiteService
    const offset: int
    const notifyOn: NotifyOn

    ghost predicate Valid()
      reads repository
    {
      suites.repository == repository && Consistent(repository.rows)
    }

    constructor (repository: SuiteRepository, suites: TestSuiteService, offset: int, notifyOn: NotifyOn)
      requires suites.repository == repository && Consistent(repository.rows)
      ensures Valid() && this.repository == repository && this.suites == suites
      ensures this.offset == offset && this.notifyOn == notifyOn
    {
      this.repository := repository;
      this.suites := suites;
      this.offset := offset;
      this.notifyOn := notifyOn;
    }

    method SetSchedule(id: string, cron: Option<string>, enabled: bool) returns (r: Result<Suite, ScheduleError>)
      requires Valid()
      modifies repository
      ensures Valid()
      ensures r == Scheduled(old(repository.rows), id, cron, enabled)
      ensures repository.rows == if r.Ok? then old(repository.rows)[id := r.value] else old(repository.rows)
    {
      var found := repository.GetById(id);
      if found.None? {
        return Err(SuiteNotFound(id));
      }
      var suite := found.value;
      var expression := Text.Strip(if cron.Some? then cron.value else "");
      if enabled && expression == "" {
        return Err(CronRequired);
      }
      if expression != "" {
        var parsed := Cron.Parse(expression);
        if parsed.Err? {
          return Err(BadCron(parsed.error));
        }
      }
      suite := suite.(scheduleCron := if expression == "" then None else Some(expression),
                      scheduleEnabled := enabled && expression != "");
      repository.Update(suite);
      r := Ok(suite);
    }

    /** The suites due now, in the order they are listed in, which is by name. */
    method DueSuites(now: Instant) returns (due: seq<Suite>, ghost listing: seq<string>)
      requires Valid()
      ensures IsListing(repository.rows, listing) && Sorted(Listed(repository.rows, listing), NameAtMost)
      ensures due == Listed(repository.rows, DueIds(repository.rows, listing, CronPolicy(offset), now))
    {
      var all;
      all, listing := repository.ListAll();
      var minuteStart := MinuteStart(now);
      var local := LocalMinute(now.minute, offset);
      due := [];
      var i := 0;
      while i < |all|
        invariant 0 <= i <= |all|
        invariant due == Listed(repository.rows, DueIds(repository.rows, listing[..i], CronPolicy(offset), now))
      {
        var suite := all[i];
        DueStep(repository.rows, listing, i, CronPolicy(offset), now);
        i := i + 1;
        var schedule := ActiveSchedule(suite);
        if schedule.Some? && Matches(schedule.value, local) && !RanSince(suite, minuteStart) {
          due := due + [suite];
        }
      }
      assert listing[..i] == listing;
    }

    /**
     One tick: everything due runs, in order, and one notification goes out for all of it. A notifier
     that raises changes nothing but the reported flag.
     */
    method Tick(now: Instant, executions: seq<Execution>, delivery: Delivery)
      returns (result: TickResult, ghost listing: seq<string>)
      requires Valid() && |executions| >= |repository.rows|
      modifies repository
      ensures Valid() && IsListing(old(repository.rows), listing)
      ensures Sorted(Listed(old(repository.rows), listing), NameAtMost)
      ensures |DueIds(old(repository.rows), listing, CronPolicy(offset), now)| <= |executions|
      ensures var ids := DueIds(old(repository.rows), listing, CronPolicy(offset), now);
              && result.checkedAt == now
              && result.due == Listed(old(repository.rows), ids)
              && (repository.rows, result.outcomes) == RunAll(old(repository.rows), ids, executions)
              && (result.notificationSent <==>
                   ids != [] && ShouldNotify(notifyOn, result.outcomes) && delivery == Answered(true))
    {
      var due;
      due, listing := DueSuites(now);
      ghost var dueIds := DueIds(repository.rows, listing, CronPolicy(offset), now);
      DueFewerThanRows(repository.rows, listing, CronPolicy(offset), now);
      result := TickResult(now, due, [], false);
      if due == [] {
        return;
      }
      var ids := seq(|due|, i requires 0 <= i < |due| => due[i].id);
      assert ids == dueIds;
      var outcomes := suites.RunSuites(ids, executions);
      result := result.(outcomes := outcomes);
      if ShouldNotify(notifyOn, outcomes) {
        match delivery
        case Answered(sent) => result := result.(notificationSent := sent);
        case DeliveryRaised => result := result.(notificationSent := false);
      }
    }
  }

  lemma {:induction false} DistinctFit(xs: seq<string>, keys: set<string>)
    requires Distinct(xs) && forall i :: 0 <= i < |xs| ==> xs[i] in keys
    ensures |xs| <= |keys|
  {
    if xs != [] {
      var last := xs[|xs| - 1];
      DistinctFit(xs[..|xs| - 1], keys - {last});
    }
  }

  lemma DueFewerThanRows(rows: Rows, listing: seq<string>, policy: Policy, now: Instant)
    requires IsListing(rows, listing)
    ensures |DueIds(rows, listing, policy, now)| <= |rows|
  {
    DueIdsAreDue(rows, listing, policy, now);
    DistinctFit(DueIds(rows, listing, policy, now), rows.Keys);
    assert |rows.Keys| == |rows|;
  }

  /** A suite enabled through `set_schedule` has a schedule that parses. */
  lemma EnabledSchedulesParse(rows: Rows, id: string, cron: Option<string>)
    ensures var r := Scheduled(rows, id, cron, true);
            r.Ok? ==> ActiveSchedule(r.value).Some? && Cron.WellFormed(ActiveSchedule(r.value).value)
  {
    var r := Scheduled(rows, id, cron, true);
    if r.Ok? {
      Cron.ParseSound(r.value.scheduleCron.value);
    }
  }
}
