/**
 What a person sees on setting a schedule against what happens: from the next minute on, a steadily ticked
 suite fires in exactly the minutes `next_runs` lists; it may also fire once more in the minute of setting.
 */
module SchedulerPreview {
  import opened Wrappers
  import opened Clock
  import opened Sequences
  import opened TestSuites
  import opened CronSearch
  import opened Scheduler
  import opened SchedulerRuns
  import opened SchedulerWrites
  import Cron
  import Text

  /** The local minutes the suite's ticks fired in, in order. */
  ghost function FiredMinutes(log: seq<Firing>, id: string, offset: int): seq<int> {
    if log == [] then []
    else
      var last := log[|log| - 1];
      FiredMinutes(log[..|log| - 1], id, offset) + if last.suite == id then [LocalMinute(last.minute, offset)] else []
  }

  /** The step is one the scheduler takes, or a user action on some other suite. */
  ghost predicate LeavesAlone(step: Step, id: string) {
    match step
    case RunNow(other, _) => other != id
    case Update(suite) => suite.id != id
    case Delete(other) => other != id
    case _ => true
  }

  function NextMinute(step: Step, minute: nat): nat {
    if step.TickStart? then minute + 1 else minute
  }

  /** A scheduler step in the right minute, or a user action on another suite. */
  ghost predicate SteadyStep(s: State, step: Step, id: string, minute: nat) {
    && LeavesAlone(step, id)
    && (step.TickRun? ==> step.execution.at.minute == s.tickAt.minute)
    && (step.TickStart? ==> step.now.minute == minute + 1)
  }

  /** One tick in each minute from `minute + 1` on, every run finishing inside its tick's minute. */
  ghost predicate Steady(s: State, steps: seq<Step>, policy: Policy, id: string, minute: nat)
    requires IsRun(s, steps, policy)
    decreases |steps|
  {
    steps == [] ||
    (SteadyStep(s, steps[0], id, minute) &&
     Steady(Apply(s, steps[0], policy), steps[1..], policy, id, NextMinute(steps[0], minute)))
  }

  ghost function LastMinute(steps: seq<Step>, minute: nat): nat
    decreases |steps|
  {
    if steps == [] then minute else LastMinute(steps[1..], NextMinute(steps[0], minute))
  }

  // ----- for any policy that follows a set of minutes

  predicate EnabledOn(s: Suite, expression: string) {
    s.scheduleEnabled && s.scheduleCron == Some(expression)
  }

  /** On the rows enabled on `expression`, the policy is: a chosen minute, and not run in it yet. */
  ghost predicate Follows(policy: Policy, expression: string, chosen: nat -> bool) {
    forall s, now ::
      EnabledOn(s, expression) ==> (policy(s, now) <==> chosen(now.minute) && !RanSince(s, MinuteStart(now)))
  }

  function ChosenAt(chosen: nat -> bool, minute: nat, offset: int): seq<int> {
    if chosen(minute) then [LocalMinute(minute, offset)] else []
  }

  /** The chosen minutes after `low`, up to `high`. */
  function Chosen(chosen: nat -> bool, low: nat, high: nat, offset: int): seq<int>
    decreases high
  {
    if high <= low then [] else Chosen(chosen, low, high - 1, offset) + ChosenAt(chosen, high, offset)
  }

  /**
   The suite is still enabled on its expression, and its ticks fired in the minutes `listed` up to
   `minute`, save the last one while the suite is waiting to run in it.
   */
  ghost predicate OnTrack(s: State, offset: int, id: string, expression: string, listed: seq<int>, minute: nat) {
    && Consistent(s.rows) && s.rows.Keys <= s.usedIds && Distinct(s.pending)
    && id in s.rows && EnabledOn(s.rows[id], expression)
    && (s.rows[id].lastRunAt.Some? ==> s.rows[id].lastRunAt.value.minute <= minute)
    && (s.pending != [] ==> s.tickAt.minute == minute)
    && (if id in s.pending
        then listed == FiredMinutes(s.log, id, offset) + [LocalMinute(minute, offset)]
        else listed == FiredMinutes(s.log, id, offset))
  }

  lemma TickStartOnTrack(s: State, now: Instant, ids: seq<string>, policy: Policy, chosen: nat -> bool, offset: int,
                         id: string, expression: string, listed: seq<int>, minute: nat)
    requires OnTrack(s, offset, id, expression, listed, minute) && Enabled(s, TickStart(now, ids))
    requires now.minute == minute + 1 && Follows(policy, expression, chosen)
    ensures OnTrack(Apply(s, TickStart(now, ids), policy), offset, id, expression,
                    listed + ChosenAt(chosen, minute + 1, offset), minute + 1)
  {
    DueIdsAreDue(s.rows, ids, policy, now);
    assert id in ids;
    assert !RanSince(s.rows[id], MinuteStart(now));
  }

  lemma FiredAppend(log: seq<Firing>, f: Firing, id: string, offset: int)
    ensures FiredMinutes(log + [f], id, offset) ==
            FiredMinutes(log, id, offset) + if f.suite == id then [LocalMinute(f.minute, offset)] else []
  {
    assert (log + [f])[..|log|] == log;
  }

  lemma TickRunOnTrack(s: State, e: Execution, policy: Policy, offset: int, id: string, expression: string,
                       listed: seq<int>, minute: nat)
    requires OnTrack(s, offset, id, expression, listed, minute) && Enabled(s, TickRun(e))
    requires e.at.minute == s.tickAt.minute
    ensures OnTrack(Apply(s, TickRun(e), policy), offset, id, expression, listed, minute)
  {
    var t := Apply(s, TickRun(e), policy);
    var first := s.pending[0];
    assert s.pending == [first] + t.pending;
    if first in s.rows {
      FiredAppend(s.log, Firing(first, s.tickAt.minute), id, offset);
    }
  }

  lemma OtherStepOnTrack(s: State, step: Step, policy: Policy, offset: int, id: string, expression: string,
                         listed: seq<int>, minute: nat)
    requires OnTrack(s, offset, id, expression, listed, minute) && Enabled(s, step)
    requires LeavesAlone(step, id) && !step.TickStart? && !step.TickRun?
    ensures OnTrack(Apply(s, step, policy), offset, id, expression, listed, minute)
  {
    var t := Apply(s, step, policy);
    assert t.rows[id] == s.rows[id];
  }

  /** From any state on track, with `before` fired or about to fire, the chosen minutes follow one by one. */
  lemma {:induction false} StaysOnTrack(s: State, steps: seq<Step>, policy: Policy, chosen: nat -> bool, offset: int,
                                        id: string, expression: string, before: seq<int>, low: nat, minute: nat)
    requires Follows(policy, expression, chosen) && low <= minute
    requires OnTrack(s, offset, id, expression, before + Chosen(chosen, low, minute, offset), minute)
    requires IsRun(s, steps, policy) && Steady(s, steps, policy, id, minute)
    ensures var last := LastMinute(steps, minute);
            last >= minute && OnTrack(Final(s, steps, policy), offset, id, expression,
                                      before + Chosen(chosen, low, last, offset), last)
    decreases |steps|
  {
    if steps != [] {
      var step := steps[0];
      var listed := before + Chosen(chosen, low, minute, offset);
      if step.TickStart? {
        TickStartOnTrack(s, step.now, step.listing, policy, chosen, offset, id, expression, listed, minute);
        OneMinuteMore(before, chosen, low, minute, offset);
      } else if step.TickRun? {
        TickRunOnTrack(s, step.execution, policy, offset, id, expression, listed, minute);
      } else {
        OtherStepOnTrack(s, step, policy, offset, id, expression, listed, minute);
      }
      StaysOnTrack(Apply(s, step, policy), steps[1..], policy, chosen, offset, id, expression, before, low,
                   NextMinute(step, minute));
    }
  }

  lemma OneMinuteMore(before: seq<int>, chosen: nat -> bool, low: nat, minute: nat, offset: int)
    requires low <= minute
    ensures before + Chosen(chosen, low, minute, offset) + ChosenAt(chosen, minute + 1, offset) ==
            before + Chosen(chosen, low, minute + 1, offset)
  {
  }

  // ----- for the cron policy

  ghost function MatchingMinutes(schedule: Schedule, offset: int): nat -> bool {
    (m: nat) => Matches(schedule, LocalMinute(m, offset))
  }

  lemma CronPolicyFollows(expression: string, schedule: Schedule, offset: int)
    requires expression != "" && Cron.Parse(expression) == Ok(schedule)
    ensures Follows(CronPolicy(offset), expression, MatchingMinutes(schedule, offset))
  {
  }

  lemma {:induction false} ChosenAreMatches(schedule: Schedule, offset: int, low: nat, high: nat)
    ensures Chosen(MatchingMinutes(schedule, offset), low, high, offset) ==
            MatchesIn(schedule, LocalMinute(low, offset), LocalMinute(high, offset))
    decreases high
  {
    if low < high {
      ChosenAreMatches(schedule, offset, low, high - 1);
    }
  }

  /** The minutes a suite's ticks have fired in, and the one a pending tick is still to run it in. */
  ghost function Committed(s: State, id: string, offset: int): seq<int> {
    FiredMinutes(s.log, id, offset) + if id in s.pending then [LocalMinute(s.tickAt.minute, offset)] else []
  }

  /** Enabled on an expression that parses, in any state of a run, from `minute` on. */
  ghost predicate Armed(t: State, policy: Policy, offset: int, id: string, expression: string, schedule: Schedule,
                        minute: nat)
  {
    && OnTrack(t, offset, id, expression, Committed(t, id, offset), minute)
    && Follows(policy, expression, MatchingMinutes(schedule, offset))
  }

  /** No row remembers a run still to come, and a tick under way is of the current minute. */
  ghost predicate Current(s: State, id: string)
    requires id in s.rows
  {
    && (s.rows[id].lastRunAt.Some? ==> s.rows[id].lastRunAt.value.minute <= s.clock.minute)
    && (s.pending != [] ==> s.tickAt.minute == s.clock.minute)
  }

  /**
   Setting a schedule arms the suite from the minute of the clock on, whatever has run before and even
   while a tick is under way.
   */
  lemma SetScheduleArms(s: State, cron: string, setting: Suite, offset: int, id: string) returns (schedule: Schedule)
    requires Inv(s) && Scheduled(s.rows, id, Some(cron), true) == Ok(setting) && Current(s, id)
    ensures Cron.Parse(Text.Strip(cron)) == Ok(schedule) && Text.Strip(cron) != ""
    ensures Enabled(s, Update(setting))
    ensures var t := Apply(s, Update(setting), CronPolicy(offset));
            && Armed(t, CronPolicy(offset), offset, id, Text.Strip(cron), schedule, s.clock.minute)
            && Committed(t, id, offset) == Committed(s, id, offset)
  {
    schedule := StartsOnTrack(s, cron, setting, CronPolicy(offset), offset, id, s.clock.minute);
    CronPolicyFollows(Text.Strip(cron), schedule, offset);
  }

  lemma StartsOnTrack(s: State, cron: string, setting: Suite, policy: Policy, offset: int, id: string, minute: nat)
    returns (schedule: Schedule)
    requires Inv(s) && Scheduled(s.rows, id, Some(cron), true) == Ok(setting)
    requires s.rows[id].lastRunAt.Some? ==> s.rows[id].lastRunAt.value.minute <= minute
    requires s.pending != [] ==> s.tickAt.minute == minute
    ensures Text.Strip(cron) != "" && Cron.Parse(Text.Strip(cron)) == Ok(schedule)
    ensures Enabled(s, Update(setting))
    ensures OnTrack(Apply(s, Update(setting), policy), offset, id, Text.Strip(cron), Committed(s, id, offset), minute)
  {
    SetScheduleIsFresh(s, id, Some(cron), true);
    schedule := Cron.Parse(Text.Strip(cron)).value;
    assert FiredMinutes(s.log, id, offset) + [] == FiredMinutes(s.log, id, offset);
  }

  lemma ChosenArePreviewed(schedule: Schedule, offset: int, low: nat, high: nat, fired: seq<int>)
    requires low <= high && low + offset >= 0 && fired == Chosen(MatchingMinutes(schedule, offset), low, high, offset)
    ensures fired == MatchesIn(schedule, low + offset, high + offset)
    ensures high - low <= MAX_LOOKAHEAD_MINUTES ==> fired == Preview(schedule, low + offset, |fired|)
  {
    ChosenAreMatches(schedule, offset, low, high);
    if high - low <= MAX_LOOKAHEAD_MINUTES {
      StretchIsPreview(schedule, low + offset, high + offset);
    }
  }

  // ----- the rest of the minute of setting

  /** A scheduler step in that minute, or a user action on another suite. */
  ghost predicate StepWithin(s: State, step: Step, id: string, minute: nat) {
    && LeavesAlone(step, id)
    && (step.TickRun? ==> step.execution.at.minute == s.tickAt.minute)
    && (step.TickStart? ==> step.now.minute == minute)
  }

  /** Any number of ticks, all of them in that minute, every run finishing inside it. */
  ghost predicate Within(s: State, steps: seq<Step>, policy: Policy, id: string, minute: nat)
    requires IsRun(s, steps, policy)
    decreases |steps|
  {
    steps == [] ||
    (StepWithin(s, steps[0], id, minute) && Within(Apply(s, steps[0], policy), steps[1..], policy, id, minute))
  }

  /** One of the ticks finds the suite due. */
  ghost predicate ComesDue(s: State, steps: seq<Step>, policy: Policy, id: string)
    requires IsRun(s, steps, policy)
    decreases |steps|
  {
    steps != [] &&
    ((steps[0].TickStart? && id in s.rows && policy(s.rows[id], steps[0].now)) ||
     ComesDue(Apply(s, steps[0], policy), steps[1..], policy, id))
  }

  predicate Ticks(steps: seq<Step>) {
    steps != [] && (steps[0].TickStart? || Ticks(steps[1..]))
  }

  /** The suite has run in the minute, or a tick is about to run it. */
  ghost predicate Settled(s: State, id: string, minute: nat)
    requires id in s.rows
  {
    id in s.pending || RanSince(s.rows[id], Instant(minute, 0))
  }

  function OnceIf(due: bool, minute: nat, offset: int): seq<int> {
    if due then [LocalMinute(minute, offset)] else []
  }

  lemma TickAgainOnTrack(s: State, now: Instant, ids: seq<string>, policy: Policy, chosen: nat -> bool, offset: int,
                         id: string, expression: string, listed: seq<int>, minute: nat)
    requires OnTrack(s, offset, id, expression, listed, minute) && Enabled(s, TickStart(now, ids))
    requires now.minute == minute && Follows(policy, expression, chosen)
    ensures var t, due := Apply(s, TickStart(now, ids), policy), policy(s.rows[id], now);
            && OnTrack(t, offset, id, expression, listed + OnceIf(due, minute, offset), minute)
            && (due <==> chosen(minute) && !Settled(s, id, minute))
            && (Settled(t, id, minute) <==> due || Settled(s, id, minute))
  {
    DueIdsAreDue(s.rows, ids, policy, now);
    assert id in ids;
    assert MinuteStart(now) == Instant(minute, 0);
  }

  lemma RunKeepsSettled(s: State, e: Execution, policy: Policy, offset: int, id: string, expression: string,
                        listed: seq<int>, minute: nat)
    requires OnTrack(s, offset, id, expression, listed, minute) && Enabled(s, TickRun(e))
    requires e.at.minute == s.tickAt.minute
    ensures id in Apply(s, TickRun(e), policy).rows
    ensures Settled(Apply(s, TickRun(e), policy), id, minute) <==> Settled(s, id, minute)
  {
    var t := Apply(s, TickRun(e), policy);
    assert s.pending == [s.pending[0]] + t.pending;
  }

  lemma AppendOnce(listed: seq<int>, due: bool, later: bool, minute: nat, offset: int)
    requires !(due && later)
    ensures listed + OnceIf(due, minute, offset) + OnceIf(later, minute, offset) ==
            listed + OnceIf(due || later, minute, offset)
  {
  }

  /**
   In the rest of a minute the suite fires at most once more: when a tick comes, the minute is a chosen
   one, and the suite has neither run in it nor is about to.
   */
  lemma {:induction false} StaysWithin(s: State, steps: seq<Step>, policy: Policy, chosen: nat -> bool, offset: int,
                                       id: string, expression: string, listed: seq<int>, minute: nat)
    requires Follows(policy, expression, chosen) && OnTrack(s, offset, id, expression, listed, minute)
    requires IsRun(s, steps, policy) && Within(s, steps, policy, id, minute)
    ensures var due := ComesDue(s, steps, policy, id);
            && OnTrack(Final(s, steps, policy), offset, id, expression, listed + OnceIf(due, minute, offset), minute)
            && (due <==> Ticks(steps) && chosen(minute) && !Settled(s, id, minute))
    decreases |steps|
  {
    if steps == [] {
      assert listed + [] == listed;
    } else {
      var step := steps[0];
      var t := Apply(s, step, policy);
      if step.TickStart? {
        var due := policy(s.rows[id], step.now);
        TickAgainOnTrack(s, step.now, step.listing, policy, chosen, offset, id, expression, listed, minute);
        StaysWithin(t, steps[1..], policy, chosen, offset, id, expression, listed + OnceIf(due, minute, offset),
                    minute);
        AppendOnce(listed, due, ComesDue(t, steps[1..], policy, id), minute, offset);
      } else {
        if step.TickRun? {
          TickRunOnTrack(s, step.execution, policy, offset, id, expression, listed, minute);
          RunKeepsSettled(s, step.execution, policy, offset, id, expression, listed, minute);
        } else {
          OtherStepOnTrack(s, step, policy, offset, id, expression, listed, minute);
          assert t.rows[id] == s.rows[id] && t.pending == s.pending;
        }
        StaysWithin(t, steps[1..], policy, chosen, offset, id, expression, listed, minute);
      }
    }
  }

  // ----- what was seen and what happens

  /** After a setting: the rest of its minute, then one tick in every minute; the suite is run by ticks only. */
  ghost predicate Watched(t: State, rest: seq<Step>, later: seq<Step>, policy: Policy, id: string, minute: nat) {
    && IsRun(t, rest, policy) && Within(t, rest, policy, id, minute)
    && IsRun(Final(t, rest, policy), later, policy) && Steady(Final(t, rest, policy), later, policy, id, minute)
    && id !in Final(Final(t, rest, policy), later, policy).pending
  }

  lemma WatchedFires(t: State, rest: seq<Step>, later: seq<Step>, policy: Policy, offset: int, id: string,
                     expression: string, schedule: Schedule, minute: nat)
    returns (listed: seq<int>)
    requires Armed(t, policy, offset, id, expression, schedule, minute)
    requires Watched(t, rest, later, policy, id, minute)
    ensures listed == Chosen(MatchingMinutes(schedule, offset), minute, LastMinute(later, minute), offset)
    ensures LastMinute(later, minute) >= minute && id in t.rows
    ensures var due := ComesDue(t, rest, policy, id);
            && FiredMinutes(Final(Final(t, rest, policy), later, policy).log, id, offset) ==
               Committed(t, id, offset) + OnceIf(due, minute, offset) + listed
            && (due <==> Ticks(rest) && Matches(schedule, LocalMinute(minute, offset)) && !Settled(t, id, minute))
  {
    var chosen, before := MatchingMinutes(schedule, offset), Committed(t, id, offset);
    StaysWithin(t, rest, policy, chosen, offset, id, expression, before, minute);
    before := before + OnceIf(ComesDue(t, rest, policy, id), minute, offset);
    assert before + Chosen(chosen, minute, minute, offset) == before;
    StaysOnTrack(Final(t, rest, policy), later, policy, chosen, offset, id, expression, before, minute, minute);
    listed := Chosen(chosen, minute, LastMinute(later, minute), offset);
  }

  lemma AtMostExtra(before: seq<int>, due: bool, listed: seq<int>, minute: nat, offset: int)
    ensures before + OnceIf(due, minute, offset) + listed == before + listed <==> !due
  {
    assert due ==> |before + OnceIf(due, minute, offset) + listed| > |before + listed|;
    assert before + [] == before;
  }

  lemma DueWhenSet(setting: Suite, expression: string, schedule: Schedule, offset: int, clock: Instant)
    requires EnabledOn(setting, expression) && expression != "" && Cron.Parse(expression) == Ok(schedule)
    ensures IsDue(setting, offset, clock) <==>
              Matches(schedule, LocalMinute(clock.minute, offset)) && !RanSince(setting, Instant(clock.minute, 0))
  {
  }

  /** What is listed in a minute against what fires up to a later one, after what was committed before. */
  ghost predicate Compares(schedule: Schedule, minute: nat, last: nat, offset: int, before: seq<int>, due: bool,
                           listed: seq<int>, fired: seq<int>) {
    && listed == MatchesIn(schedule, minute + offset, last + offset)
    && (minute + offset >= 0 && minute <= last <= minute + MAX_LOOKAHEAD_MINUTES ==>
          listed == Preview(schedule, minute + offset, |listed|))
    && fired == before + OnceIf(due, minute, offset) + listed
    && (fired == before + listed <==> !due)
  }

  lemma ListedAgainstFired(schedule: Schedule, minute: nat, last: nat, offset: int, before: seq<int>, due: bool,
                           listed: seq<int>, fired: seq<int>)
    requires minute <= last && minute + offset >= 0
    requires listed == Chosen(MatchingMinutes(schedule, offset), minute, last, offset)
    requires fired == before + OnceIf(due, minute, offset) + listed
    ensures Compares(schedule, minute, last, offset, before, due, listed, fired)
  {
    ChosenArePreviewed(schedule, offset, minute, last, listed);
    AtMostExtra(before, due, listed, minute, offset);
  }

  ghost function FiredAfter(t: State, rest: seq<Step>, later: seq<Step>, offset: int, id: string): seq<int>
    requires Watched(t, rest, later, CronPolicy(offset), id, t.clock.minute)
  {
    FiredMinutes(Final(Final(t, rest, CronPolicy(offset)), later, CronPolicy(offset)).log, id, offset)
  }

  /**
   The minutes listed when a schedule is set, and those the suite fires in afterwards, ticked once in every
   minute to come and run by nothing else: these are the listed ones, in order, exactly if no tick of the
   minute of setting is still to come in which the suite is due. If there is one, the suite fires in that
   minute too, which is not listed. There is one exactly if a tick comes in that minute and the suite, as
   set, is due at that time and no tick is about to run it already.
   */
  lemma FiresAsPreviewed(s: State, cron: string, setting: Suite, rest: seq<Step>, later: seq<Step>, offset: int,
                         id: string)
    returns (schedule: Schedule, listed: seq<int>)
    requires Inv(s) && Scheduled(s.rows, id, Some(cron), true) == Ok(setting) && Current(s, id)
    requires Enabled(s, Update(setting)) && s.clock.minute + offset >= 0
    requires Watched(Apply(s, Update(setting), CronPolicy(offset)), rest, later, CronPolicy(offset), id, s.clock.minute)
    ensures Cron.Parse(Text.Strip(cron)) == Ok(schedule)
    ensures var t := Apply(s, Update(setting), CronPolicy(offset));
            var due := ComesDue(t, rest, CronPolicy(offset), id);
            && Compares(schedule, s.clock.minute, LastMinute(later, s.clock.minute), offset,
                        Committed(s, id, offset), due, listed, FiredAfter(t, rest, later, offset, id))
            && (due <==> Ticks(rest) && IsDue(setting, offset, s.clock) && id !in s.pending)
  {
    var minute, policy := s.clock.minute, CronPolicy(offset);
    schedule := SetScheduleArms(s, cron, setting, offset, id);
    var t := Apply(s, Update(setting), policy);
    assert t.rows[id] == setting && t.clock == s.clock;
    listed := WatchedFires(t, rest, later, policy, offset, id, Text.Strip(cron), schedule, minute);
    ListedAgainstFired(schedule, minute, LastMinute(later, minute), offset, Committed(s, id, offset),
                       ComesDue(t, rest, policy, id), listed, FiredAfter(t, rest, later, offset, id));
    DueWhenSet(setting, Text.Strip(cron), schedule, offset, s.clock);
  }

  lemma NotListed(schedule: Schedule, after: nat, k: nat)
    ensures forall t :: t in Preview(schedule, after, k) ==> t > after
  {
    PreviewExact(schedule, after, k);
  }

  lemma TwoSteps(t: State, first: Step, second: Step, policy: Policy, id: string, minute: nat)
    requires Enabled(t, first) && Enabled(Apply(t, first, policy), second)
    requires StepWithin(t, first, id, minute) && StepWithin(Apply(t, first, policy), second, id, minute)
    ensures IsRun(t, [first, second], policy) && Within(t, [first, second], policy, id, minute)
    ensures Final(t, [first, second], policy) == Apply(Apply(t, first, policy), second, policy)
  {
    var u := Apply(t, first, policy);
    assert [first, second][1..] == [second] && [second][1..] == [];
    assert IsRun(u, [second], policy) && Within(u, [second], policy, id, minute);
    assert Final(u, [second], policy) == Apply(u, second, policy);
  }

  /** The only suite there is, ticked and run within one minute. */
  lemma TickedAndRun(t: State, suite: Suite, tickAt: Instant, run: Execution, policy: Policy)
    requires t.rows == map[suite.id := suite] && t.pending == [] && t.log == [] && policy(suite, tickAt)
    requires NotAfter(t.clock, tickAt) && NotAfter(tickAt, run.at) && run.at.minute == tickAt.minute
    ensures var steps := [TickStart(tickAt, [suite.id]), TickRun(run)];
            && IsRun(t, steps, policy) && Within(t, steps, policy, suite.id, tickAt.minute)
            && Final(t, steps, policy).log == [Firing(suite.id, tickAt.minute)]
  {
    OnlyDue(suite, policy, tickAt);
    TwoSteps(t, TickStart(tickAt, [suite.id]), TickRun(run), policy, suite.id, tickAt.minute);
  }

  lemma OneFired(f: Firing, id: string, offset: int)
    requires f.suite == id
    ensures FiredMinutes([f], id, offset) == [LocalMinute(f.minute, offset)]
  {
    assert [f][..0] == [];
  }

  lemma StoredAsTyped(row: Suite, text: string, schedule: Schedule)
    requires Text.Trimmed(text) && text != "" && Cron.Parse(text) == Ok(schedule)
    ensures Scheduled(map[row.id := row], row.id, Some(text), true) ==
            Ok(row.(scheduleCron := Some(text), scheduleEnabled := true))
  {
    Text.TrimmedStrip(text);
  }

  /** The state just before a lone suite is set, at second 10 of a minute. */
  ghost function BeforeSetting(row: Suite, minute: nat): (s: State)
  {
    State(map[row.id := row], {row.id}, Instant(minute, 10_000_000), Instant(minute, 10_000_000), [], [])
  }

  lemma LateTick(row: Suite, setting: Suite, minute: nat, policy: Policy, steps: seq<Step>)
    requires setting.id == row.id && policy(setting, Instant(minute, 30_000_000))
    requires steps == [TickStart(Instant(minute, 30_000_000), [row.id]),
                       TickRun(Completed("first", PASS, Instant(minute, 40_000_000)))]
    ensures var s := BeforeSetting(row, minute);
            && Inv(s) && Enabled(s, Update(setting))
            && var t := Apply(s, Update(setting), policy);
            && IsRun(t, steps, policy) && Within(t, steps, policy, row.id, minute)
            && FiredMinutes(Final(t, steps, policy).log, row.id, 0) == [minute]
  {
    var t := Apply(BeforeSetting(row, minute), Update(setting), policy);
    assert t.rows == map[setting.id := setting];
    TickedAndRun(t, setting, Instant(minute, 30_000_000), Completed("first", PASS, Instant(minute, 40_000_000)),
                 policy);
    OneFired(Firing(row.id, minute), row.id, 0);
  }

  /**
   A suite set to `* * * * *` at second 10 of a minute and ticked at second 30 fires in that minute, which
   is not among the runs listed when it was set.
   */
  lemma LateTickFires(row: Suite, minute: nat) returns (setting: Suite, schedule: Schedule, steps: seq<Step>)
    requires row.lastRunAt.None?
    ensures var s := BeforeSetting(row, minute);
            && Inv(s) && Current(s, row.id) && s.clock == Instant(minute, 10_000_000)
            && Scheduled(s.rows, row.id, Some("* * * * *"), true) == Ok(setting) && Enabled(s, Update(setting))
            && var t := Apply(s, Update(setting), CronPolicy(0));
            && IsRun(t, steps, CronPolicy(0)) && Within(t, steps, CronPolicy(0), row.id, minute)
            && FiredMinutes(Final(t, steps, CronPolicy(0)).log, row.id, 0) == [minute]
    ensures Cron.Parse("* * * * *") == Ok(schedule) && minute !in Preview(schedule, minute, 3)
  {
    schedule := EveryMinuteParses();
    setting := row.(scheduleCron := Some("* * * * *"), scheduleEnabled := true);
    steps := [TickStart(Instant(minute, 30_000_000), [row.id]),
              TickRun(Completed("first", PASS, Instant(minute, 40_000_000)))];
    StoredAsTyped(row, "* * * * *", schedule);
    EveryMinuteIsDue(setting, "* * * * *", schedule, 0, Instant(minute, 30_000_000));
    LateTick(row, setting, minute, CronPolicy(0), steps);
    NotListed(schedule, minute, 3);
  }
}
