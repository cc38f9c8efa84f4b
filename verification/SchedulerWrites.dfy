/** Writes to a suite's row between two ticks: exactly which ones make a suite fire twice in a minute. */
module SchedulerWrites {
  import opened Wrappers
  import opened Clock
  import opened Sequences
  import opened TestSuites
  import opened Scheduler
  import opened SchedulerRuns
  import opened CronSearch
  import opened Calendar
  import Cron
  import Printer = CronPrinter

  /** An `update` with whatever copy the caller holds, current or not. */
  ghost function WriteBack(s: State, copy: Suite): State {
    s.(rows := s.rows[copy.id := copy])
  }

  /** A write keeps the invariant if and only if the copy remembers the suite's run in the current minute. */
  lemma WriteBackKeepsInv(s: State, copy: Suite)
    requires Inv(s) && copy.id in s.rows
    ensures Inv(WriteBack(s, copy)) <==> Remembers(s, copy)
  {
    var t := WriteBack(s, copy);
    if Remembers(s, copy) {
      forall f | f in t.log
        ensures Covered(t, f)
      {
        assert Covered(s, f);
      }
    }
    var now := Firing(copy.id, s.clock.minute);
    assert Inv(t) && now in s.log ==> Covered(t, now);
  }

  function FiringsOf(ids: seq<string>, minute: nat): (firings: seq<Firing>)
    ensures |firings| == |ids| && forall i :: 0 <= i < |ids| ==> firings[i] == Firing(ids[i], minute)
  {
    seq(|ids|, i requires 0 <= i < |ids| => Firing(ids[i], minute))
  }

  lemma OneFiring(log: seq<Firing>, id: string, ids: seq<string>, minute: nat)
    ensures log + FiringsOf([id] + ids, minute) == (log + [Firing(id, minute)]) + FiringsOf(ids, minute)
  {
    assert FiringsOf([id] + ids, minute) == [Firing(id, minute)] + FiringsOf(ids, minute);
  }

  lemma DrainStep(s: State, e: Execution, policy: Policy)
    requires Enabled(s, TickRun(e)) && forall id :: id in s.pending ==> id in s.rows
    ensures var t := Apply(s, TickRun(e), policy);
            && t.clock == e.at && t.tickAt == s.tickAt
            && (forall id :: id in t.pending ==> id in t.rows)
            && |t.pending| == |s.pending| - 1
            && s.log + FiringsOf(s.pending, s.tickAt.minute) == t.log + FiringsOf(t.pending, t.tickAt.minute)
  {
    assert s.pending[0] in s.pending;
    assert s.pending == [s.pending[0]] + s.pending[1..];
    OneFiring(s.log, s.pending[0], s.pending[1..], s.tickAt.minute);
  }

  lemma StepsOf(executions: seq<Execution>)
    requires executions != []
    ensures TickSteps(executions)[0] == TickRun(executions[0])
            && TickSteps(executions)[1..] == TickSteps(executions[1..])
  {
  }

  /** Draining a tick's pending list logs one firing for each suite in it. */
  lemma {:induction false} DrainedLog(s: State, executions: seq<Execution>, policy: Policy)
    requires |executions| == |s.pending| && Forward(s.clock, executions)
    requires forall id :: id in s.pending ==> id in s.rows
    ensures IsRun(s, TickSteps(executions), policy)
    ensures Final(s, TickSteps(executions), policy).log == s.log + FiringsOf(s.pending, s.tickAt.minute)
    decreases |executions|
  {
    if executions == [] {
      assert FiringsOf(s.pending, s.tickAt.minute) == [];
    } else {
      StepsOf(executions);
      DrainStep(s, executions[0], policy);
      DrainedLog(Apply(s, TickRun(executions[0]), policy), executions[1..], policy);
    }
  }

  lemma StillDistinct(log: seq<Firing>, ids: seq<string>, minute: nat)
    requires Distinct(log) && Distinct(ids)
    ensures Distinct(log + FiringsOf(ids, minute)) <==> forall id :: id in ids ==> Firing(id, minute) !in log
  {
    var all := log + FiringsOf(ids, minute);
    if Distinct(all) {
      forall id | id in ids
        ensures Firing(id, minute) !in log
      {
        var i :| 0 <= i < |ids| && ids[i] == id;
        assert all[|log| + i] == Firing(id, minute);
        assert forall j :: 0 <= j < |log| ==> all[j] == log[j];
      }
    }
    if forall id :: id in ids ==> Firing(id, minute) !in log {
      forall i, j | 0 <= i < j < |all|
        ensures all[i] != all[j]
      {
        if i < |log| <= j {
          assert ids[j - |log|] in ids && all[i] in log;
        }
      }
    }
  }

  /** After a suite has fired in a minute and any copy of it was written back, who a tick of that minute picks. */
  lemma PickedAfterWrite(s: State, copy: Suite, again: Instant, listing: seq<string>, policy: Policy)
    requires Inv(s) && s.pending == [] && copy.id in s.rows && SparesRecentRuns(policy)
    requires NotAfter(s.clock, again) && IsListing(WriteBack(s, copy).rows, listing)
    ensures var t := Apply(WriteBack(s, copy), TickStart(again, listing), policy);
            && Distinct(t.pending)
            && (forall id :: id in t.pending ==> id in t.rows)
            && (copy.id in t.pending <==> policy(copy, again))
            && forall id :: id in t.pending && id != copy.id ==> Firing(id, again.minute) !in s.log
  {
    var w := WriteBack(s, copy);
    DueIdsAreDue(w.rows, listing, policy, again);
    forall id | id in DueIds(w.rows, listing, policy, again) && id != copy.id
      ensures Firing(id, again.minute) !in s.log
    {
      assert Firing(id, again.minute) in s.log ==> Covered(s, Firing(id, again.minute));
    }
  }

  /**
   Exactly when a write breaks the promise: a suite that has fired in a minute, and of which any copy is
   then written back, fires a second time in the next tick of that minute if and only if the copy is due
   there, that is enabled, matching, and without a run since the minute began.
   */
  lemma WriteBackFiresTwice(s: State, copy: Suite, again: Instant, listing: seq<string>, executions: seq<Execution>,
                            offset: int)
    requires Inv(s) && s.pending == [] && copy.id in s.rows && Firing(copy.id, again.minute) in s.log
    requires NotAfter(s.clock, again) && IsListing(WriteBack(s, copy).rows, listing)
    requires |executions| == |Apply(WriteBack(s, copy), TickStart(again, listing), CronPolicy(offset)).pending|
    requires Forward(again, executions)
    ensures var t := Apply(WriteBack(s, copy), TickStart(again, listing), CronPolicy(offset));
            && IsRun(t, TickSteps(executions), CronPolicy(offset))
            && (copy.id in t.pending <==> IsDue(copy, offset, again))
            && (Distinct(Final(t, TickSteps(executions), CronPolicy(offset)).log) <==> !IsDue(copy, offset, again))
  {
    var policy := CronPolicy(offset);
    var t := Apply(WriteBack(s, copy), TickStart(again, listing), policy);
    PickedAfterWrite(s, copy, again, listing, policy);
    DrainedLog(t, executions, policy);
    StillDistinct(s.log, t.pending, again.minute);
  }

  // ----- a write while the tick is still under way

  lemma StepCommutes(s: State, copy: Suite, e: Execution, policy: Policy)
    requires Enabled(s, TickRun(e)) && copy.id in s.rows && copy.id != s.pending[0]
    ensures Enabled(WriteBack(s, copy), TickRun(e))
    ensures Apply(WriteBack(s, copy), TickRun(e), policy) == WriteBack(Apply(s, TickRun(e), policy), copy)
    ensures copy.id in Apply(s, TickRun(e), policy).rows
  {
    var id := s.pending[0];
    if id in s.rows {
      var row := RunOne(s.rows, id, e).0[id];
      assert s.rows[copy.id := copy][id := row] == s.rows[id := row][copy.id := copy];
    }
  }

  /** Running the rest of a tick and writing back the row of a suite that is not part of it commute. */
  lemma {:induction false} RestCommutes(s: State, copy: Suite, rest: seq<Execution>, policy: Policy)
    requires copy.id in s.rows && copy.id !in s.pending && |rest| == |s.pending| && IsRun(s, TickSteps(rest), policy)
    ensures IsRun(WriteBack(s, copy), TickSteps(rest), policy)
    ensures var v := Final(s, TickSteps(rest), policy);
            && v.pending == [] && copy.id in v.rows && s.log <= v.log
            && Final(WriteBack(s, copy), TickSteps(rest), policy) == WriteBack(v, copy)
    decreases |rest|
  {
    if rest != [] {
      StepsOf(rest);
      assert s.pending[0] in s.pending;
      StepCommutes(s, copy, rest[0], policy);
      RestCommutes(Apply(s, TickRun(rest[0]), policy), copy, rest[1..], policy);
    }
  }

  /**
   The same while the tick in which the suite has fired still has other suites to run: once these have run,
   the next tick of the minute runs the suite again if and only if the copy is due there.
   */
  lemma WriteDuringTick(s: State, copy: Suite, rest: seq<Execution>, again: Instant, listing: seq<string>,
                        executions: seq<Execution>, offset: int)
    requires Inv(s) && copy.id in s.rows && Firing(copy.id, s.tickAt.minute) in s.log && again.minute == s.tickAt.minute
    requires |rest| == |s.pending| && IsRun(s, TickSteps(rest), CronPolicy(offset))
    requires var v := Final(s, TickSteps(rest), CronPolicy(offset));
             && NotAfter(v.clock, again) && v.pending == []
             && copy.id in v.rows && IsListing(WriteBack(v, copy).rows, listing)
             && |executions| == |Apply(WriteBack(v, copy), TickStart(again, listing), CronPolicy(offset)).pending|
    requires Forward(again, executions)
    ensures IsRun(WriteBack(s, copy), TickSteps(rest), CronPolicy(offset))
    ensures var u := Final(WriteBack(s, copy), TickSteps(rest), CronPolicy(offset));
            && Enabled(u, TickStart(again, listing))
            && var t := Apply(u, TickStart(again, listing), CronPolicy(offset));
            && IsRun(t, TickSteps(executions), CronPolicy(offset))
            && (copy.id in t.pending <==> IsDue(copy, offset, again))
            && (Distinct(Final(t, TickSteps(executions), CronPolicy(offset)).log) <==> !IsDue(copy, offset, again))
  {
    var policy := CronPolicy(offset);
    RestCommutes(s, copy, rest, policy);
    RunKeepsInv(s, TickSteps(rest), policy);
    WriteBackFiresTwice(Final(s, TickSteps(rest), policy), copy, again, listing, executions, offset);
  }

  lemma OnlyDue(s: Suite, policy: Policy, now: Instant)
    requires policy(s, now)
    ensures IsListing(map[s.id := s], [s.id]) && DueIds(map[s.id := s], [s.id], policy, now) == [s.id]
  {
    assert [s.id][..0] == [];
  }

  /** Writing back the row from before the run between two ticks of a minute makes any suite that is due fire twice. */
  lemma StaleUpdateFiresTwice(suite: Suite, first: Execution, second: Execution, policy: Policy, now: Instant,
                              again: Instant)
    returns (s0: State, s1: State, s2: State, s3: State)
    requires policy(suite, now) && policy(suite, again) && again.minute == now.minute
    requires NotAfter(now, first.at) && NotAfter(first.at, again) && NotAfter(again, second.at)
    ensures Initial(s0) && s0.rows == map[suite.id := suite]
    ensures Enabled(s0, TickStart(now, [suite.id])) && s1 == Apply(s0, TickStart(now, [suite.id]), policy)
    ensures Enabled(s1, TickRun(first)) && s2 == WriteBack(Apply(s1, TickRun(first), policy), suite)
    ensures s1.pending == [suite.id] && s2.rows == s0.rows && s2.log == [Firing(suite.id, now.minute)]
    ensures Enabled(s2, TickStart(again, [suite.id])) && s3 == Apply(s2, TickStart(again, [suite.id]), policy)
    ensures Enabled(s3, TickRun(second))
    ensures Apply(s3, TickRun(second), policy).log == [Firing(suite.id, now.minute), Firing(suite.id, now.minute)]
  {
    OnlyDue(suite, policy, now);
    OnlyDue(suite, policy, again);
    s0 := State(map[suite.id := suite], {suite.id}, now, now, [], []);
    s1 := Apply(s0, TickStart(now, [suite.id]), policy);
    s2 := WriteBack(Apply(s1, TickRun(first), policy), suite);
    assert s2.rows == map[suite.id := suite];
    s3 := Apply(s2, TickStart(again, [suite.id]), policy);
  }

  /** The tree of `* * * * *`. */
  function EveryMinuteFields(): seq<seq<Printer.Piece>> {
    var star := [Printer.Piece(Printer.Star, None)];
    [star, star, star, star, star]
  }

  lemma EveryMinuteText()
    ensures Printer.PrintExpression(EveryMinuteFields()) == "* * * * *"
  {
    var parts := Printer.PrintFields(EveryMinuteFields());
    assert parts == ["*", "*", "*", "*", "*"];
    assert parts[1..] == ["*", "*", "*", "*"] && parts[1..][1..] == ["*", "*", "*"];
    assert parts[1..][1..][1..] == ["*", "*"] && parts[1..][1..][1..][1..] == ["*"];
  }

  /** `* * * * *` parses, and matches every minute. */
  lemma EveryMinuteParses() returns (schedule: Schedule)
    ensures Cron.Parse("* * * * *") == Ok(schedule)
    ensures forall t :: t >= 0 ==> Matches(schedule, t)
  {
    var fields := EveryMinuteFields();
    forall i | 0 <= i < 5
      ensures Printer.Meaningful(fields[i], Cron.FIELDS[i])
    {
    }
    Printer.PrintedExpression(fields);
    EveryMinuteText();
    schedule := Cron.Parse(Printer.PrintExpression(fields)).value;
    forall t | t >= 0
      ensures Matches(schedule, t)
    {
      StarsMatch(schedule, t);
    }
  }

  lemma EveryMinuteIsDue(suite: Suite, text: string, schedule: Schedule, offset: int, now: Instant)
    requires suite.scheduleEnabled && suite.scheduleCron == Some(text) && suite.lastRunAt.None?
    requires text != "" && Cron.Parse(text) == Ok(schedule) && forall t :: t >= 0 ==> Matches(schedule, t)
    requires now.minute + offset >= 0
    ensures IsDue(suite, offset, now)
  {
  }

  lemma StarsMatch(schedule: Schedule, t: nat)
    requires Printer.Denotes(schedule, EveryMinuteFields())
    ensures Matches(schedule, t)
  {
    var fields, m := EveryMinuteFields(), MomentAt(t);
    var date := DateOf(m.day);
    StarAdmits(m.minute, Cron.Field.Minute);
    StarAdmits(m.hour, Cron.Field.Hour);
    StarAdmits(date.day, Cron.Field.DayOfMonth);
    StarAdmits(date.month, Cron.Field.Month);
    StarAdmits(DayOfWeek(m.day), Cron.Field.DayOfWeek);
  }

  lemma StarAdmits(v: nat, f: Cron.Field)
    requires f.Low() <= v <= f.High()
    ensures Printer.InField(v, [Printer.Piece(Printer.Star, None)], f)
  {
    var star := [Printer.Piece(Printer.Star, None)];
    assert Printer.Means(v, star[0], f);
  }

  /**
   A concrete case: a suite on `* * * * *`, ticked at 0 and at 30 seconds, fires twice when its old row is
   written back in between.
   */
  lemma EveryMinuteFiresTwice(minute: nat)
    returns (suite: Suite, second: Execution, s0: State, s1: State, s2: State, s3: State)
    ensures suite.scheduleCron == Some("* * * * *")
    ensures Initial(s0) && s0.rows == map[suite.id := suite]
    ensures s1.pending == [suite.id] && s2.rows == s0.rows && s2.log == [Firing(suite.id, minute)]
    ensures Enabled(s3, TickRun(second))
    ensures Apply(s3, TickRun(second), CronPolicy(0)).log == [Firing(suite.id, minute), Firing(suite.id, minute)]
  {
    suite := Suite("nightly", "Nightly", Some("* * * * *"), true, None, None, None);
    var first := Completed("first", PASS, Instant(minute, 10_000_000));
    second := Completed("second", PASS, Instant(minute, 40_000_000));
    var schedule := EveryMinuteParses();
    EveryMinuteIsDue(suite, "* * * * *", schedule, 0, Instant(minute, 0));
    EveryMinuteIsDue(suite, "* * * * *", schedule, 0, Instant(minute, 30_000_000));
    s0, s1, s2, s3 := StaleUpdateFiresTwice(suite, first, second, CronPolicy(0), Instant(minute, 0),
                                            Instant(minute, 30_000_000));
  }
}
