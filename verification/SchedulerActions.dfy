/** What user actions do to a scheduler's run: saving, deleting and running suites by hand beside the ticks. */
module SchedulerActions {
  import opened Wrappers
  import opened Clock
  import opened Sequences
  import opened TestSuites
  import opened Scheduler
  import opened SchedulerRuns

  /** The times ticks have fired a suite. */
  ghost function FiringsIn(log: seq<Firing>, id: string): seq<Firing> {
    Filter(log, (f: Firing) => f.suite == id)
  }

  lemma OthersFiring(log: seq<Firing>, f: Firing, id: string)
    requires f.suite != id
    ensures FiringsIn(log + [f], id) == FiringsIn(log, id)
  {
    FilterPush(log, f, (g: Firing) => g.suite == id);
    NothingAdded(FiringsIn(log, id));
  }

  // ----- deleting

  /** The suite is gone, and its id is not given out again. */
  ghost predicate Gone(s: State, id: string) {
    id !in s.rows && id in s.usedIds
  }

  lemma GoneStays(s: State, step: Step, policy: Policy, id: string)
    requires Gone(s, id) && Enabled(s, step)
    ensures Gone(Apply(s, step, policy), id)
    ensures FiringsIn(Apply(s, step, policy).log, id) == FiringsIn(s.log, id)
  {
    if step.TickRun? && s.pending[0] in s.rows {
      OthersFiring(s.log, Firing(s.pending[0], s.tickAt.minute), id);
    }
  }

  lemma {:induction false} GoneForGood(s: State, steps: seq<Step>, policy: Policy, id: string)
    requires Gone(s, id) && IsRun(s, steps, policy)
    ensures Gone(Final(s, steps, policy), id)
    ensures FiringsIn(Final(s, steps, policy).log, id) == FiringsIn(s.log, id)
    decreases |steps|
  {
    if steps != [] {
      GoneStays(s, steps[0], policy, id);
      GoneForGood(Apply(s, steps[0], policy), steps[1..], policy, id);
    }
  }

  /**
   A deleted suite is gone and never fires again, whatever follows, even when a tick that has picked it is
   still under way; the other suites stay.
   */
  lemma DeletedNeverFires(s: State, id: string, steps: seq<Step>, policy: Policy)
    requires Inv(s) && id in s.rows && IsRun(Apply(s, Delete(id), policy), steps, policy)
    ensures Apply(s, Delete(id), policy).rows == s.rows - {id}
    ensures var t := Final(Apply(s, Delete(id), policy), steps, policy);
            id !in t.rows && FiringsIn(t.log, id) == FiringsIn(s.log, id)
  {
    GoneForGood(Apply(s, Delete(id), policy), steps, policy, id);
  }

  // ----- saving

  /** A policy that picks enabled suites only. */
  ghost predicate PicksEnabled(policy: Policy) {
    forall s, now :: policy(s, now) ==> s.scheduleEnabled
  }

  lemma CronPicksEnabled(offset: int)
    ensures PicksEnabled(CronPolicy(offset))
  {
  }

  /** Not enabled, and no tick is about to run it. */
  ghost predicate Quiet(s: State, id: string) {
    id !in s.pending && id in s.rows && !s.rows[id].scheduleEnabled
  }

  /** The step neither rewrites the suite nor deletes it. */
  ghost predicate Spares(step: Step, id: string) {
    !(step.Update? && step.suite.id == id) && !(step.Delete? && step.id == id)
  }

  lemma QuietStays(s: State, step: Step, policy: Policy, id: string)
    requires PicksEnabled(policy) && Quiet(s, id) && id in s.usedIds && Enabled(s, step) && Spares(step, id)
    ensures Quiet(Apply(s, step, policy), id) && id in Apply(s, step, policy).usedIds
    ensures SameDefinition(Apply(s, step, policy).rows[id], s.rows[id])
    ensures FiringsIn(Apply(s, step, policy).log, id) == FiringsIn(s.log, id)
  {
    match step {
      case TickStart(now, listing) =>
        DueIdsAreDue(s.rows, listing, policy, now);
      case TickRun(_) =>
        assert s.pending[0] in s.pending;
        if s.pending[0] in s.rows {
          OthersFiring(s.log, Firing(s.pending[0], s.tickAt.minute), id);
        }
      case RunNow(other, e) =>
      case _ =>
    }
  }

  lemma {:induction false} QuietThroughout(s: State, steps: seq<Step>, policy: Policy, id: string)
    requires PicksEnabled(policy) && Quiet(s, id) && id in s.usedIds && IsRun(s, steps, policy)
    requires forall i :: 0 <= i < |steps| ==> Spares(steps[i], id)
    ensures Quiet(Final(s, steps, policy), id) && SameDefinition(Final(s, steps, policy).rows[id], s.rows[id])
    ensures FiringsIn(Final(s, steps, policy).log, id) == FiringsIn(s.log, id)
    decreases |steps|
  {
    if steps != [] {
      QuietStays(s, steps[0], policy, id);
      QuietThroughout(Apply(s, steps[0], policy), steps[1..], policy, id);
    }
  }

  /** A new suite is stored under its name, and no tick runs it until its row is rewritten. */
  lemma SavedStaysQuiet(s: State, id: string, name: string, steps: seq<Step>, offset: int)
    requires Inv(s) && Enabled(s, Save(id, name))
    requires IsRun(Apply(s, Save(id, name), CronPolicy(offset)), steps, CronPolicy(offset))
    requires forall i :: 0 <= i < |steps| ==> Spares(steps[i], id)
    ensures var t := Final(Apply(s, Save(id, name), CronPolicy(offset)), steps, CronPolicy(offset));
            && id in t.rows && t.rows[id].id == id && t.rows[id].name == name && !t.rows[id].scheduleEnabled
            && FiringsIn(t.log, id) == FiringsIn(s.log, id)
  {
    CronPicksEnabled(offset);
    QuietThroughout(Apply(s, Save(id, name), CronPolicy(offset)), steps, CronPolicy(offset), id);
  }

  // ----- running by hand

  /**
   A suite run by hand shows what the run was, no tick of that minute runs it again, and nothing else changes:
   no other row, no pending suite, no firing.
   */
  lemma RunByHand(s: State, id: string, e: Execution, offset: int, now: Instant, listing: seq<string>)
    requires id in s.rows && Enabled(s, RunNow(id, e)) && now.minute == e.at.minute
    requires Enabled(Apply(s, RunNow(id, e), CronPolicy(offset)), TickStart(now, listing))
    ensures var t := Apply(s, RunNow(id, e), CronPolicy(offset));
            && id in t.rows && t.rows == s.rows[id := t.rows[id]] && t.log == s.log && t.pending == s.pending
            && t.rows[id].lastRunAt == Some(e.at) && SameDefinition(t.rows[id], s.rows[id])
            && t.rows[id].lastRunStatus == Some(if e.Raised? then ERROR else e.status)
            && id !in Apply(t, TickStart(now, listing), CronPolicy(offset)).pending
  {
    var t := Apply(s, RunNow(id, e), CronPolicy(offset));
    DueIdsAreDue(t.rows, listing, CronPolicy(offset), now);
    DueAfterRun(s.rows[id], e, offset, now);
  }
}
