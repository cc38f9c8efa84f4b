/** Bulk archiving and deletion of runs. */
module RunManagement {
  import opened Sequences
  import opened RunCrashes
  import opened RunStorage
  import opened RunDetails

  datatype BulkResult = BulkResult(requested: nat, succeeded: nat, missing: seq<string>)

  // ----- deleting

  function Without(s: State, id: string): State {
    State(s.rows - {id}, s.dirs - {id})
  }

  function Deleted(s: State, ids: seq<string>): State {
    if ids == [] then s else Without(Deleted(s, ids[..|ids| - 1]), ids[|ids| - 1])
  }

  /** For each id in turn, whether its row was still there. */
  function Existed(s: State, ids: seq<string>): (existed: seq<bool>)
    ensures |existed| == |ids| && forall i :: 0 <= i < |ids| ==> existed[i] == (ids[i] in Deleted(s, ids[..i]).rows)
  {
    seq(|ids|, i requires 0 <= i < |ids| => ids[i] in Deleted(s, ids[..i]).rows)
  }

  function Tally(ids: seq<string>, existed: seq<bool>): BulkResult
    requires |existed| == |ids|
  {
    BulkResult(|ids|, CountTrue(existed), Select(ids, Not(existed)))
  }

  function Counted(r: BulkResult, id: string, existed: bool): BulkResult {
    if existed then r.(succeeded := r.succeeded + 1) else r.(missing := r.missing + [id])
  }

  function Flatten(pieces: seq<seq<Op>>): seq<Op> {
    if pieces == [] then [] else Flatten(pieces[..|pieces| - 1]) + pieces[|pieces| - 1]
  }

  /** One whole run deletion for each id, each in the state the ones before it left. */
  ghost predicate DeletesInTurn(s: State, ids: seq<string>, pieces: seq<seq<Op>>) {
    |pieces| == |ids| && forall i :: 0 <= i < |ids| ==> IsRunDelete(Deleted(s, ids[..i]), ids[i], pieces[i])
  }

  // ----- archiving

  function ArchivedAll(s: State, ids: seq<string>, archived: bool): State {
    if ids == [] then s else Apply(ArchivedAll(s, ids[..|ids| - 1], archived), SetArchived(ids[|ids| - 1], archived))
  }

  function Known(s: State, ids: seq<string>): (known: seq<bool>)
    ensures |known| == |ids| && forall i :: 0 <= i < |ids| ==> known[i] == (ids[i] in s.rows)
  {
    seq(|ids|, i requires 0 <= i < |ids| => ids[i] in s.rows)
  }

  class RunManagementService {
    const details: RunDetailStore

    constructor (details: RunDetailStore)
      ensures this.details == details
    {
      this.details := details;
    }

    method ArchiveRuns(ids: seq<string>, archived: bool) returns (result: BulkResult)
      modifies details.storage
      ensures details.storage.Now() == ArchivedAll(old(details.storage.Now()), ids, archived)
      ensures result == Tally(ids, Known(old(details.storage.Now()), ids))
    {
      var storage := details.storage;
      ghost var before := storage.Now();
      ghost var all := Known(before, ids);
      result := BulkResult(|ids|, 0, []);
      var i := 0;
      while i < |ids|
        invariant 0 <= i <= |ids|
        invariant storage.Now() == ArchivedAll(before, ids[..i], archived) && storage.rows.Keys == before.rows.Keys
        invariant result == Tally(ids[..i], all[..i]).(requested := |ids|)
      {
        var existed := storage.Archive(ids[i], archived);
        assert ids[..i + 1][..i] == ids[..i];
        TallyStep(ids, all, i, |ids|);
        result := Counted(result, ids[i], existed);
        i := i + 1;
      }
      assert ids[..i] == ids && all[..i] == all;
    }

    /** Detail first, then the row, run by run; the steps taken are whole deletions one after another. */
    method DeleteRuns(ids: seq<string>) returns (result: BulkResult, ghost pieces: seq<seq<Op>>)
      modifies details.storage
      ensures details.storage.Now() == Deleted(old(details.storage.Now()), ids)
      ensures result == Tally(ids, Existed(old(details.storage.Now()), ids))
      ensures DeletesInTurn(old(details.storage.Now()), ids, pieces)
      ensures details.storage.log == old(details.storage.log) + Flatten(pieces)
    {
      ghost var before, log := details.storage.Now(), details.storage.log;
      result, pieces := BulkResult(|ids|, 0, []), [];
      var i := 0;
      NothingDeleted(before, log, ids);
      while i < |ids|
        invariant 0 <= i <= |ids|
        invariant Progress(before, log, ids, i, details.storage.Now(), details.storage.log, result, pieces)
      {
        var existed, ops := DeleteOne(ids[i]);
        ProgressStep(before, log, ids, i, result, pieces, ops);
        result, pieces := Counted(result, ids[i], existed), pieces + [ops];
        i := i + 1;
      }
      AllDeleted(before, ids);
    }

    method DeleteOne(id: string) returns (existed: bool, ghost ops: seq<Op>)
      modifies details.storage
      ensures existed == (id in old(details.storage.rows))
      ensures details.storage.Now() == Without(old(details.storage.Now()), id)
      ensures IsRunDelete(old(details.storage.Now()), id, ops)
      ensures details.storage.log == old(details.storage.log) + ops
    {
      ghost var log := details.storage.log;
      var _, steps := details.Delete(id);
      existed := details.storage.DeleteRun(id);
      ops := steps + [DeleteRow(id)];
      assert ops[..|ops| - 1] == steps;
      assert log + steps + [DeleteRow(id)] == log + ops;
    }
  }

  lemma TallyStep(ids: seq<string>, existed: seq<bool>, i: nat, n: nat)
    requires |existed| == |ids| && i < |ids|
    ensures Tally(ids[..i + 1], existed[..i + 1]).(requested := n) ==
            Counted(Tally(ids[..i], existed[..i]).(requested := n), ids[i], existed[i])
  {
    assert existed[..i + 1][..i] == existed[..i] && ids[..i + 1][..i] == ids[..i];
    assert Not(existed[..i + 1])[..i] == Not(existed[..i]);
  }

  lemma InTurnStep(s: State, ids: seq<string>, i: nat, pieces: seq<seq<Op>>, ops: seq<Op>)
    requires i < |ids| && DeletesInTurn(s, ids[..i], pieces) && IsRunDelete(Deleted(s, ids[..i]), ids[i], ops)
    ensures DeletesInTurn(s, ids[..i + 1], pieces + [ops])
  {
    forall j | 0 <= j < i + 1
      ensures IsRunDelete(Deleted(s, ids[..i + 1][..j]), ids[..i + 1][j], (pieces + [ops])[j])
    {
      assert ids[..i + 1][..j] == ids[..j];
      if j < i {
        assert ids[..i][..j] == ids[..j];
      }
    }
  }

  lemma FlattenStep(log: seq<Op>, pieces: seq<seq<Op>>, ops: seq<Op>)
    ensures log + Flatten(pieces) + ops == log + Flatten(pieces + [ops])
  {
    assert (pieces + [ops])[..|pieces|] == pieces;
  }

  /** The first i ids are dealt with. */
  ghost predicate Progress(before: State, log: seq<Op>, ids: seq<string>, i: nat, now: State, logNow: seq<Op>,
                           result: BulkResult, pieces: seq<seq<Op>>)
    requires i <= |ids|
  {
    && now == Deleted(before, ids[..i])
    && logNow == log + Flatten(pieces)
    && DeletesInTurn(before, ids[..i], pieces)
    && result == Tally(ids[..i], Existed(before, ids)[..i]).(requested := |ids|)
  }

  lemma NothingDeleted(before: State, log: seq<Op>, ids: seq<string>)
    ensures Progress(before, log, ids, 0, before, log, BulkResult(|ids|, 0, []), [])
  {
  }

  lemma ProgressStep(before: State, log: seq<Op>, ids: seq<string>, i: nat, result: BulkResult, pieces: seq<seq<Op>>,
                     ops: seq<Op>)
    requires i < |ids|
    requires Progress(before, log, ids, i, Deleted(before, ids[..i]), log + Flatten(pieces), result, pieces)
    requires IsRunDelete(Deleted(before, ids[..i]), ids[i], ops)
    ensures Progress(before, log, ids, i + 1, Without(Deleted(before, ids[..i]), ids[i]), log + Flatten(pieces) + ops,
                     Counted(result, ids[i], ids[i] in Deleted(before, ids[..i]).rows), pieces + [ops])
  {
    assert ids[..i + 1][..i] == ids[..i];
    TallyStep(ids, Existed(before, ids), i, |ids|);
    InTurnStep(before, ids, i, pieces, ops);
    FlattenStep(log, pieces, ops);
  }

  lemma AllDeleted(before: State, ids: seq<string>)
    ensures ids[..|ids|] == ids && Existed(before, ids)[..|ids|] == Existed(before, ids)
  {
  }

  // ----- what a bulk deletion did

  lemma {:induction false} DeletedIs(s: State, ids: seq<string>)
    ensures Deleted(s, ids) == State(s.rows - ToSet(ids), s.dirs - ToSet(ids))
  {
    if ids == [] {
      assert ToSet(ids) == {};
      assert s.rows - {} == s.rows && s.dirs - {} == s.dirs;
    } else {
      var front, last := ids[..|ids| - 1], ids[|ids| - 1];
      DeletedIs(s, front);
      assert ids == front + [last];
      RemoveOneMore(s.rows, front, last);
      RemoveOneMore(s.dirs, front, last);
    }
  }

  lemma {:induction false} EveryRequestCounted(ids: seq<string>, existed: seq<bool>)
    requires |existed| == |ids|
    ensures CountTrue(existed) + |Select(ids, Not(existed))| == |ids|
  {
    if ids != [] {
      var n := |ids| - 1;
      EveryRequestCounted(ids[..n], existed[..n]);
      assert Not(existed)[..n] == Not(existed[..n]);
    }
  }

  lemma ExistedOnce(s: State, ids: seq<string>)
    ensures CountTrue(Existed(s, ids)) == |s.rows.Keys * ToSet(ids)|
  {
    forall i | 0 <= i < |ids|
      ensures Existed(s, ids)[i] == (ids[i] in s.rows.Keys && ids[i] !in ids[..i])
    {
      DeletedIs(s, ids[..i]);
    }
    MarkedOnce(s.rows.Keys, ids, Existed(s, ids));
  }

  /**
   Exactly the asked runs are gone, row and directory; each asked run that existed counts once however
   often it was asked for, every other request is reported missing, and no request is lost.
   */
  lemma DeletionTally(s: State, ids: seq<string>)
    ensures var r := Tally(ids, Existed(s, ids));
            && Deleted(s, ids) == State(s.rows - ToSet(ids), s.dirs - ToSet(ids))
            && r.succeeded == |s.rows.Keys * ToSet(ids)|
            && r.succeeded + |r.missing| == r.requested == |ids|
  {
    DeletedIs(s, ids);
    ExistedOnce(s, ids);
    EveryRequestCounted(ids, Existed(s, ids));
  }

  // ----- a bulk deletion that is cut off

  lemma {:induction false} AfterPieces(s: State, ids: seq<string>, pieces: seq<seq<Op>>)
    requires DeletesInTurn(s, ids, pieces)
    ensures ApplyAll(s, Flatten(pieces)) == Deleted(s, ids)
  {
    if ids != [] {
      var n := |ids| - 1;
      FrontInTurn(s, ids, pieces, n);
      AfterPieces(s, ids[..n], pieces[..n]);
      ApplyAppend(s, Flatten(pieces[..n]), pieces[n]);
      AfterRunDelete(Deleted(s, ids[..n]), ids[n], pieces[n]);
    }
  }

  lemma PrefixOfPrefix<T>(xs: seq<T>, n: nat, i: nat)
    requires i <= n <= |xs|
    ensures xs[..n][..i] == xs[..i]
  {
  }

  lemma FrontInTurn(s: State, ids: seq<string>, pieces: seq<seq<Op>>, n: nat)
    requires DeletesInTurn(s, ids, pieces) && n + 1 == |ids|
    ensures DeletesInTurn(s, ids[..n], pieces[..n]) && IsRunDelete(Deleted(s, ids[..n]), ids[n], pieces[n])
  {
    forall i | 0 <= i < n
      ensures IsRunDelete(Deleted(s, ids[..n][..i]), ids[..n][i], pieces[..n][i])
    {
      PrefixOfPrefix(ids, n, i);
    }
  }

  lemma OneMoreAttempt(h: seq<Attempt>, a: Attempt)
    requires IsHistory(h) && Completes(After(h), a.job, a.ops) && a.done <= |a.ops|
    ensures IsHistory(h + [a]) && After(h + [a]) == ApplyAll(After(h), a.ops[..a.done])
  {
    var h' := h + [a];
    assert h'[..|h|] == h;
    forall i | 0 <= i < |h'|
      ensures Completes(After(h'[..i]), h'[i].job, h'[i].ops)
    {
      assert i < |h| ==> h'[..i] == h[..i];
    }
  }

  lemma CutOffLast(whole: seq<Attempt>, s: State, ids: seq<string>, pieces: seq<seq<Op>>, n: nat, done: nat)
    returns (h: seq<Attempt>)
    requires DeletesInTurn(s, ids, pieces) && n + 1 == |ids| && done <= |pieces[n]|
    requires IsHistory(whole) && After(whole) == ApplyAll(s, Flatten(pieces[..n]))
    ensures IsHistory(h) && After(h) == ApplyAll(s, Flatten(pieces[..n]) + pieces[n][..done])
  {
    FrontInTurn(s, ids, pieces, n);
    AfterPieces(s, ids[..n], pieces[..n]);
    var last := Attempt(Delete(ids[n]), pieces[n], done);
    OneMoreAttempt(whole, last);
    h := whole + [last];
    ApplyAppend(s, Flatten(pieces[..n]), pieces[n][..done]);
  }

  /** Where a cut falls: within the earlier pieces or within the last. */
  lemma CutOffAt(pieces: seq<seq<Op>>, done: nat)
    requires pieces != [] && done <= |Flatten(pieces)|
    ensures var front, last := Flatten(pieces[..|pieces| - 1]), pieces[|pieces| - 1];
            && front[..|front|] == front && |Flatten(pieces)| == |front| + |last|
            && Flatten(pieces)[..done] == if done <= |front| then front[..done] else front + last[..done - |front|]
  {
    var front, last := Flatten(pieces[..|pieces| - 1]), pieces[|pieces| - 1];
    assert Flatten(pieces) == front + last;
    PrefixOfSum(front, last, done);
    PrefixOfSum(front, [], |front|);
    NothingAdded(front);
  }

  lemma NothingDone(s: State, pieces: seq<seq<Op>>, done: nat)
    requires pieces == [] && done <= |Flatten(pieces)|
    ensures ApplyAll(s, Flatten(pieces)[..done]) == s
  {
    assert Flatten(pieces)[..done] == [];
  }

  /** A history that leads to a state. */
  ghost predicate LeadsTo(h: seq<Attempt>, s: State) {
    IsHistory(h) && After(h) == s
  }

  lemma CutOffWithinLast(h: seq<Attempt>, s: State, ids: seq<string>, pieces: seq<seq<Op>>, done: nat)
    returns (h': seq<Attempt>)
    requires ids != [] && DeletesInTurn(s, ids, pieces)
    requires |Flatten(pieces[..|ids| - 1])| < done <= |Flatten(pieces)|
    requires LeadsTo(h, ApplyAll(s, Flatten(pieces[..|ids| - 1])))
    ensures LeadsTo(h', ApplyAll(s, Flatten(pieces)[..done]))
  {
    CutOffAt(pieces, done);
    h' := CutOffLast(h, s, ids, pieces, |ids| - 1, done - |Flatten(pieces[..|ids| - 1])|);
  }

  lemma {:induction false} CutOffFrom(h: seq<Attempt>, s: State, ids: seq<string>, pieces: seq<seq<Op>>, done: nat)
    returns (h': seq<Attempt>)
    requires LeadsTo(h, s) && DeletesInTurn(s, ids, pieces) && done <= |Flatten(pieces)|
    ensures LeadsTo(h', ApplyAll(s, Flatten(pieces)[..done]))
    decreases |ids|
  {
    if ids == [] {
      NothingDone(s, pieces, done);
      h' := h;
    } else {
      var n := |ids| - 1;
      var front := Flatten(pieces[..n]);
      FrontInTurn(s, ids, pieces, n);
      CutOffAt(pieces, done);
      if done <= |front| {
        h' := CutOffFrom(h, s, ids[..n], pieces[..n], done);
      } else {
        h' := CutOffFrom(h, s, ids[..n], pieces[..n], |front|);
        h' := CutOffWithinLast(h', s, ids, pieces, done);
      }
    }
  }

  /** Stopping a bulk deletion after any step is one of the histories the crash theorems speak of. */
  lemma CutOffBulkDelete(h: seq<Attempt>, ids: seq<string>, pieces: seq<seq<Op>>, done: nat) returns (h': seq<Attempt>)
    requires IsHistory(h) && DeletesInTurn(After(h), ids, pieces) && done <= |Flatten(pieces)|
    ensures IsHistory(h') && After(h') == ApplyAll(After(h), Flatten(pieces)[..done])
  {
    h' := CutOffFrom(h, After(h), ids, pieces, done);
  }

  // ----- what a bulk archiving did

  /** The flag of exactly the asked runs is set; nothing else changes, detail included. */
  lemma {:induction false} ArchivingMeaning(s: State, ids: seq<string>, archived: bool)
    ensures var after := ArchivedAll(s, ids, archived);
            && after.dirs == s.dirs && after.rows.Keys == s.rows.Keys
            && forall id :: id in s.rows ==>
                 after.rows[id] == if id in ids then s.rows[id].(archived := archived) else s.rows[id]
  {
    if ids != [] {
      ArchivingMeaning(s, ids[..|ids| - 1], archived);
      assert ids == ids[..|ids| - 1] + [ids[|ids| - 1]];
    }
  }

  /** Archiving runs that are not archived and restoring them brings back the state before. */
  lemma RestoringUndoesArchiving(s: State, ids: seq<string>)
    requires forall id :: id in ids && id in s.rows ==> !s.rows[id].archived
    ensures ArchivedAll(ArchivedAll(s, ids, true), ids, false) == s
  {
    ArchivingMeaning(s, ids, true);
    ArchivingMeaning(ArchivedAll(s, ids, true), ids, false);
    assert ArchivedAll(ArchivedAll(s, ids, true), ids, false).rows == s.rows;
  }

  /** What archiving reports: how many were asked for, how many are known, and the unknown ones in order. */
  lemma {:induction false} ArchivingTally(s: State, ids: seq<string>)
    ensures Tally(ids, Known(s, ids)) ==
            BulkResult(|ids|, |Filter(ids, id => id in s.rows)|, Filter(ids, id => id !in s.rows))
  {
    var known := Known(s, ids);
    CountTrueIsSelected(ids, known);
    SelectIsFilter(ids, known, id => id in s.rows);
    SelectIsFilter(ids, Not(known), id => id !in s.rows);
  }
}
