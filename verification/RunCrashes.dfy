/** Runs, archiving and deletes interrupted after any operation. */
module RunCrashes {
  import opened Wrappers
  import opened RunStorage
  import opened RunReadBack

  // ----- what a directory may hold

  ghost predicate Wanted(name: string, file: File, slugs: seq<string>, details: seq<Section>)
    requires |slugs| == |details|
  {
    || (name == MANIFEST && file == Manifest(EntriesFor(slugs, details)))
    || exists i :: 0 <= i < |details| && name == FileName(slugs[i]) && file == Parquet(details[i].frame)
  }

  /** Nothing but files of this run, each with its full content. */
  ghost predicate PartOf(dir: Directory, slugs: seq<string>, details: seq<Section>)
    requires |slugs| == |details|
  {
    forall name :: name in dir ==> Wanted(name, dir[name], slugs, details)
  }

  lemma PartAgrees(dir: Directory, slugs: seq<string>, details: seq<Section>)
    requires Named(slugs, details) && PartOf(dir, slugs, details)
    ensures Agrees(dir, slugs, details)
  {
    forall i | 0 <= i < |details|
      ensures FileOf(dir, slugs[i]).None? || FileOf(dir, slugs[i]) == Some(details[i].frame)
    {
      FileNamesDiffer(slugs[i], slugs[i]);
      if FileName(slugs[i]) in dir {
        var j :| 0 <= j < |details| && FileName(slugs[i]) == FileName(slugs[j])
            && dir[FileName(slugs[i])] == Parquet(details[j].frame);
        FileNamesDiffer(slugs[i], slugs[j]);
      }
    }
  }

  /**
   Whatever is left of a run loads as sections that were saved: nothing without the manifest, else those
   whose file is left.
   */
  lemma PartLoads(dir: Directory, slugs: seq<string>, details: seq<Section>)
    requires Named(slugs, details) && PartOf(dir, slugs, details)
    ensures Loaded(dir, ManifestOf(dir)) == if MANIFEST in dir then Kept(slugs, details, dir) else []
  {
    if MANIFEST in dir {
      forall i | 0 <= i < |details|
        ensures FileName(slugs[i]) != MANIFEST
      {
        FileNamesDiffer(slugs[i], slugs[i]);
      }
      assert Wanted(MANIFEST, dir[MANIFEST], slugs, details);
      PartAgrees(dir, slugs, details);
      LoadedIsKept(dir, slugs, details);
    }
  }

  // ----- the invariant, and the operations that keep it

  /** What each run was given to save. */
  type Saved = map<string, seq<Section>>

  ghost predicate PartOfRun(dir: Directory, details: seq<Section>) {
    DistinctTitles(details) && PartOf(dir, SlugsOf(details), details)
  }

  /** Every detail directory belongs to a run row and holds only that run's files. */
  ghost predicate Safe(s: State, saved: Saved) {
    forall id :: id in s.dirs ==> id in s.rows && id in saved && PartOfRun(s.dirs[id], saved[id])
  }

  ghost predicate WantedOf(name: string, file: File, details: seq<Section>) {
    Wanted(name, file, SlugsOf(details), details)
  }

  /** When an operation may come next. */
  ghost predicate Allowed(s: State, op: Op, saved: Saved) {
    match op
    case MakeDir(id) => id in s.rows && id in saved && DistinctTitles(saved[id])
    case WriteFile(id, name, file) => id in saved && WantedOf(name, file, saved[id])
    case DeleteRow(id) => id !in s.dirs
    case _ => true
  }

  lemma PartWith(dir: Directory, details: seq<Section>, name: string, file: File)
    requires PartOfRun(dir, details) && WantedOf(name, file, details)
    ensures PartOfRun(dir[name := file], details)
  {
  }

  lemma PartWithout(dir: Directory, details: seq<Section>, name: string)
    requires PartOfRun(dir, details)
    ensures PartOfRun(dir - {name}, details)
  {
  }

  lemma StepKeepsSafe(s: State, op: Op, saved: Saved)
    requires Safe(s, saved) && Allowed(s, op, saved)
    ensures Safe(Apply(s, op), saved)
  {
    match op
    case MakeDir(id) =>
      assert DistinctTitles(saved[id]) ==> PartOfRun(map[], saved[id]);
    case WriteFile(id, name, file) =>
      if id in s.dirs {
        PartWith(s.dirs[id], saved[id], name, file);
      }
    case Unlink(id, name) =>
      if id in s.dirs {
        PartWithout(s.dirs[id], saved[id], name);
      }
    case _ =>
  }

  ghost predicate AllAllowed(s: State, ops: seq<Op>, saved: Saved) {
    forall k :: 0 <= k < |ops| ==> Allowed(ApplyAll(s, ops[..k]), ops[k], saved)
  }

  lemma {:induction false} AllowedKeepsSafe(s: State, ops: seq<Op>, n: nat, saved: Saved)
    requires Safe(s, saved) && AllAllowed(s, ops, saved) && n <= |ops|
    ensures Safe(ApplyAll(s, ops[..n]), saved)
  {
    if n > 0 {
      AllowedKeepsSafe(s, ops, n - 1, saved);
      assert ops[..n] == ops[..n - 1] + [ops[n - 1]];
      ApplyPush(s, ops[..n - 1], ops[n - 1]);
      StepKeepsSafe(ApplyAll(s, ops[..n - 1]), ops[n - 1], saved);
    }
  }

  // ----- the jobs

  datatype Job =
    | Run(id: string, row: RunRow, details: seq<Section>)
    | RunWhoseSaveRaises(id: string, row: RunRow, details: seq<Section>, after: nat, errorId: string, errorRow: RunRow)
    | FailedRun(id: string, row: RunRow)
    | Archive(id: string, archived: bool)
    | Delete(id: string)

  ghost function RunOps(id: string, row: RunRow, details: seq<Section>): seq<Op> {
    [AddRow(id, row)] + SaveOps(id, details)
  }

  /** The row, the part of the save that happened, and the row that reports the failure. */
  ghost function RaisingOps(id: string, row: RunRow, details: seq<Section>, after: nat, errorId: string,
                            errorRow: RunRow): seq<Op>
    requires after <= |SaveOps(id, details)|
  {
    [AddRow(id, row)] + SaveOps(id, details)[..after] + [AddRow(errorId, errorRow)]
  }

  /** The operations of a job carried out to its end. */
  ghost predicate Completes(s: State, job: Job, ops: seq<Op>) {
    match job
    case Run(id, row, details) =>
      id !in s.rows && DistinctTitles(details) && ops == RunOps(id, row, details)
    case RunWhoseSaveRaises(id, row, details, after, errorId, errorRow) =>
      && id !in s.rows && errorId !in s.rows && id != errorId && DistinctTitles(details)
      && after < |SaveOps(id, details)| && ops == RaisingOps(id, row, details, after, errorId, errorRow)
    case FailedRun(id, row) => id !in s.rows && ops == [AddRow(id, row)]
    case Archive(id, archived) => ops == [SetArchived(id, archived)]
    case Delete(id) => IsRunDelete(s, id, ops)
  }

  ghost function SavedWith(saved: Saved, job: Job): Saved {
    match job
    case Run(id, _, details) => saved[id := details]
    case RunWhoseSaveRaises(id, _, details, _, _, _) => saved[id := details]
    case _ => saved
  }

  lemma SaveOpsWanted(id: string, details: seq<Section>, k: nat)
    requires 0 < k < |SaveOps(id, details)|
    ensures var op := SaveOps(id, details)[k];
            op.WriteFile? && op.id == id && WantedOf(op.name, op.file, details)
  {
    var slugs := SlugsOf(details);
    if k <= |details| {
      assert SaveOps(id, details)[k] == WriteFile(id, FileName(slugs[k - 1]), Parquet(details[k - 1].frame));
      assert Wanted(FileName(slugs[k - 1]), Parquet(details[k - 1].frame), slugs, details);
    } else {
      assert SaveOps(id, details)[k] == WriteFile(id, MANIFEST, Manifest(EntriesFor(slugs, details)));
    }
  }

  lemma AfterAddRow(s: State, id: string, row: RunRow)
    ensures ApplyAll(s, [AddRow(id, row)]) == Apply(s, AddRow(id, row))
  {
    assert [AddRow(id, row)][..0] == [];
  }

  lemma RunAllowed(s: State, id: string, row: RunRow, details: seq<Section>, saved: Saved)
    requires DistinctTitles(details) && id in saved && saved[id] == details
    ensures AllAllowed(s, RunOps(id, row, details), saved)
  {
    var ops := RunOps(id, row, details);
    forall k | 0 <= k < |ops|
      ensures Allowed(ApplyAll(s, ops[..k]), ops[k], saved)
    {
      if k == 1 {
        assert ops[..1] == [AddRow(id, row)];
        AfterAddRow(s, id, row);
      } else if k > 1 {
        SaveOpsWanted(id, details, k - 1);
      }
    }
  }

  lemma SamePrefix(id: string, row: RunRow, details: seq<Section>, after: nat, errorId: string, errorRow: RunRow,
                   k: nat)
    requires k <= after <= |SaveOps(id, details)|
    ensures var whole, ops := RunOps(id, row, details), RaisingOps(id, row, details, after, errorId, errorRow);
            k < |whole| && k < |ops| && ops[k] == whole[k] && ops[..k] == whole[..k]
  {
  }

  lemma RaisingAllowed(s: State, id: string, row: RunRow, details: seq<Section>, after: nat, errorId: string,
                       errorRow: RunRow, saved: Saved)
    requires DistinctTitles(details) && id in saved && saved[id] == details && after <= |SaveOps(id, details)|
    ensures AllAllowed(s, RaisingOps(id, row, details, after, errorId, errorRow), saved)
  {
    var whole, ops := RunOps(id, row, details), RaisingOps(id, row, details, after, errorId, errorRow);
    RunAllowed(s, id, row, details, saved);
    forall k | 0 <= k < |ops|
      ensures Allowed(ApplyAll(s, ops[..k]), ops[k], saved)
    {
      if k <= after {
        SamePrefix(id, row, details, after, errorId, errorRow, k);
        assert Allowed(ApplyAll(s, whole[..k]), whole[k], saved);
      }
    }
  }

  lemma DeleteAllowed(s: State, id: string, ops: seq<Op>, saved: Saved)
    requires IsRunDelete(s, id, ops)
    ensures AllAllowed(s, ops, saved)
  {
    AfterDetailDelete(s, id, ops[..|ops| - 1]);
    forall k | 0 <= k < |ops|
      ensures Allowed(ApplyAll(s, ops[..k]), ops[k], saved)
    {
      if k < |ops| - 1 {
        assert ops[k] == ops[..|ops| - 1][k];
      }
    }
  }

  lemma JobAllowed(s: State, job: Job, ops: seq<Op>, saved: Saved)
    requires Completes(s, job, ops)
    ensures AllAllowed(s, ops, SavedWith(saved, job))
  {
    match job
    case Run(id, row, details) => RunAllowed(s, id, row, details, SavedWith(saved, job));
    case RunWhoseSaveRaises(id, row, details, after, errorId, errorRow) =>
      RaisingAllowed(s, id, row, details, after, errorId, errorRow, SavedWith(saved, job));
    case FailedRun(_, _) =>
    case Archive(_, _) =>
    case Delete(id) => DeleteAllowed(s, id, ops, SavedWith(saved, job));
  }

  // ----- histories with crashes

  /** A job and how many of its operations were carried out before the process stopped. */
  datatype Attempt = Attempt(job: Job, ops: seq<Op>, done: nat)

  ghost function After(h: seq<Attempt>): State
    requires forall a :: a in h ==> a.done <= |a.ops|
  {
    if h == [] then State(map[], map[])
    else
      var last := h[|h| - 1];
      ApplyAll(After(h[..|h| - 1]), last.ops[..last.done])
  }

  ghost function SavedAfter(h: seq<Attempt>): Saved {
    if h == [] then map[] else SavedWith(SavedAfter(h[..|h| - 1]), h[|h| - 1].job)
  }

  ghost predicate IsHistory(h: seq<Attempt>) {
    && (forall a :: a in h ==> a.done <= |a.ops|)
    && forall i :: 0 <= i < |h| ==> Completes(After(h[..i]), h[i].job, h[i].ops)
  }

  lemma SavedForOthers(s: State, job: Job, ops: seq<Op>, saved: Saved)
    requires Safe(s, saved) && Completes(s, job, ops)
    ensures Safe(s, SavedWith(saved, job))
  {
  }

  /** The invariant holds after every history of jobs, each stopped after any of its operations. */
  lemma {:induction false} HistoriesAreSafe(h: seq<Attempt>)
    requires IsHistory(h)
    ensures Safe(After(h), SavedAfter(h))
  {
    if h != [] {
      var front, last := h[..|h| - 1], h[|h| - 1];
      forall i | 0 <= i < |front|
        ensures Completes(After(front[..i]), front[i].job, front[i].ops)
      {
        assert front[..i] == h[..i];
      }
      HistoriesAreSafe(front);
      SavedForOthers(After(front), last.job, last.ops, SavedAfter(front));
      JobAllowed(After(front), last.job, last.ops, SavedAfter(front));
      AllowedKeepsSafe(After(front), last.ops, last.done, SavedAfter(h));
    }
  }

  /**
   After any history with crashes each detail directory has a run row, and what loads for a run is part
   of what that run saved: titles and frames unchanged, in the order saved.
   */
  lemma CrashSafety(h: seq<Attempt>, id: string)
    requires IsHistory(h) && id in After(h).dirs
    ensures id in After(h).rows && id in SavedAfter(h)
    ensures var details := SavedAfter(h)[id];
            var dir := After(h).dirs[id];
            && LoadedAll(After(h), id) == (if MANIFEST in dir then Kept(SlugsOf(details), details, dir) else [])
            && forall x :: x in LoadedAll(After(h), id) ==> x in details
  {
    HistoriesAreSafe(h);
    var details := SavedAfter(h)[id];
    PartLoads(After(h).dirs[id], SlugsOf(details), details);
  }

  // ----- a run is loaded whole or not at all

  lemma NoManifestFor(s: State, id: string, slugs: seq<string>, details: seq<Section>, n: nat)
    requires id !in s.dirs && Named(slugs, details) && n <= |details|
    ensures LoadedAll(ApplyAll(s, [MakeDir(id)] + WritesFor(id, slugs, details)[..n]), id) == []
  {
    AfterWrites(s, id, slugs, details, n);
    DirAfterHolds(map[], slugs, details, n);
    var dir := DirAfter(map[], slugs, details, n);
    assert ManifestOf(dir) == [];
  }

  lemma NoManifestYet(s: State, id: string, details: seq<Section>, k: nat)
    requires id !in s.dirs && DistinctTitles(details) && k < |SaveOps(id, details)|
    ensures LoadedAll(ApplyAll(s, SaveOps(id, details)[..k]), id) == []
  {
    if k > 0 {
      assert SaveOps(id, details)[..k] == [MakeDir(id)] + WritesFor(id, SlugsOf(details), details)[..k - 1];
      NoManifestFor(s, id, SlugsOf(details), details, k - 1);
    }
  }

  /** Until the manifest, the last file, is written nothing of a new run loads; from then on all of it does. */
  lemma RunIsAllOrNothing(s: State, id: string, row: RunRow, details: seq<Section>, done: nat)
    requires id !in s.dirs && DistinctTitles(details) && done <= |RunOps(id, row, details)|
    ensures var ops := RunOps(id, row, details);
            LoadedAll(ApplyAll(s, ops[..done]), id) == if done < |ops| then [] else details
  {
    if done > 0 {
      RunPrefix(s, id, row, details, done - 1);
      if done < |RunOps(id, row, details)| {
        NoManifestYet(Apply(s, AddRow(id, row)), id, details, done - 1);
      } else {
        WholeSave(Apply(s, AddRow(id, row)), id, details);
      }
    }
  }

  lemma RunPrefix(s: State, id: string, row: RunRow, details: seq<Section>, k: nat)
    requires k <= |SaveOps(id, details)|
    ensures ApplyAll(s, RunOps(id, row, details)[..k + 1]) ==
            ApplyAll(Apply(s, AddRow(id, row)), SaveOps(id, details)[..k])
  {
    assert RunOps(id, row, details)[..k + 1] == [AddRow(id, row)] + SaveOps(id, details)[..k];
    AfterAddRow(s, id, row);
    ApplyAppend(s, [AddRow(id, row)], SaveOps(id, details)[..k]);
  }

  lemma WholeSave(s: State, id: string, details: seq<Section>)
    requires id !in s.dirs && DistinctTitles(details)
    ensures var ops := SaveOps(id, details);
            LoadedAll(ApplyAll(s, ops[..|ops|]), id) == details
  {
    assert SaveOps(id, details)[..|SaveOps(id, details)|] == SaveOps(id, details);
    if details != [] {
      SaveRoundTrip(s, id, details);
    }
  }

  // ----- repeating an interrupted delete

  predicate OnRun(op: Op, id: string) { op.id == id }

  lemma {:induction false} OthersUntouched(s: State, id: string, ops: seq<Op>)
    requires forall op :: op in ops ==> OnRun(op, id)
    ensures ApplyAll(s, ops).rows - {id} == s.rows - {id}
    ensures ApplyAll(s, ops).dirs - {id} == s.dirs - {id}
  {
    if ops != [] {
      var front, last := ops[..|ops| - 1], ops[|ops| - 1];
      assert ops == front + [last];
      OthersUntouched(s, id, front);
      OneUntouched(ApplyAll(s, front), id, last);
    }
  }

  lemma OneUntouched(s: State, id: string, op: Op)
    requires OnRun(op, id)
    ensures Apply(s, op).rows - {id} == s.rows - {id}
    ensures Apply(s, op).dirs - {id} == s.dirs - {id}
  {
  }

  lemma DeleteStaysOnRun(s: State, id: string, ops: seq<Op>)
    requires IsRunDelete(s, id, ops)
    ensures forall op :: op in ops ==> OnRun(op, id)
  {
    var front := ops[..|ops| - 1];
    assert ops == front + [ops[|ops| - 1]];
    if id in s.dirs {
      var names :| Lists(s.dirs[id], names) && front == Unlinks(id, names) + [RemoveDir(id)];
    }
  }

  /** A delete cut off anywhere and then repeated ends where an uninterrupted one would have. */
  lemma RepeatedDeleteCompletes(s: State, id: string, ops: seq<Op>, done: nat, again: seq<Op>)
    requires IsRunDelete(s, id, ops) && done <= |ops|
    requires IsRunDelete(ApplyAll(s, ops[..done]), id, again)
    ensures ApplyAll(ApplyAll(s, ops[..done]), again) == ApplyAll(s, ops) == State(s.rows - {id}, s.dirs - {id})
  {
    AfterRunDelete(s, id, ops);
    AfterRunDelete(ApplyAll(s, ops[..done]), id, again);
    DeleteStaysOnRun(s, id, ops);
    assert forall op :: op in ops[..done] ==> op in ops;
    OthersUntouched(s, id, ops[..done]);
  }

  /** The row outlives the directory: as long as the delete has not finished, the run is still listed. */
  lemma RowIsLast(s: State, id: string, ops: seq<Op>, done: nat)
    requires IsRunDelete(s, id, ops) && done < |ops| && id in s.rows
    ensures id in ApplyAll(s, ops[..done]).rows
  {
    var front := ops[..|ops| - 1];
    if id in s.dirs {
      var names :| Lists(s.dirs[id], names) && front == Unlinks(id, names) + [RemoveDir(id)];
      assert forall op :: op in front ==> op.Unlink? || op.RemoveDir?;
    }
    assert ops[..done] == front[..done];
    assert forall op :: op in front[..done] ==> op in front;
    RowsKept(s, front[..done]);
  }

  lemma {:induction false} RowsKept(s: State, ops: seq<Op>)
    requires forall op :: op in ops ==> !op.AddRow? && !op.DeleteRow? && !op.SetArchived?
    ensures ApplyAll(s, ops).rows == s.rows
  {
    if ops != [] {
      assert ops == ops[..|ops| - 1] + [ops[|ops| - 1]];
      RowsKept(s, ops[..|ops| - 1]);
    }
  }

  // ----- how many rows an execution adds

  lemma {:induction false} SaveKeepsRows(s: State, id: string, details: seq<Section>, k: nat)
    requires k <= |SaveOps(id, details)|
    ensures ApplyAll(s, SaveOps(id, details)[..k]).rows == s.rows
  {
    var ops := SaveOps(id, details)[..k];
    forall op | op in ops
      ensures !op.AddRow? && !op.DeleteRow? && !op.SetArchived?
    {
      var i :| 0 <= i < |ops| && ops[i] == op;
      if i > 0 {
        SaveOpsWanted(id, details, i);
      }
    }
    RowsKept(s, ops);
  }

  /** A run whose save raises leaves two rows, the finished one and an error; any other leaves one. */
  lemma ExecutionRows(s: State, job: Job, ops: seq<Op>)
    requires Completes(s, job, ops) && (job.Run? || job.RunWhoseSaveRaises? || job.FailedRun?)
    ensures ApplyAll(s, ops).rows ==
            if job.RunWhoseSaveRaises? then s.rows[job.id := job.row][job.errorId := job.errorRow]
            else s.rows[job.id := job.row]
    ensures |ApplyAll(s, ops).rows| == |s.rows| + if job.RunWhoseSaveRaises? then 2 else 1
  {
    AfterAddRow(s, job.id, job.row);
    var added := Apply(s, AddRow(job.id, job.row));
    OneMoreRow(s.rows, job.id, job.row);
    match job
    case Run(id, row, details) =>
      ApplyAppend(s, [AddRow(id, row)], SaveOps(id, details));
      assert SaveOps(id, details)[..|SaveOps(id, details)|] == SaveOps(id, details);
      SaveKeepsRows(added, id, details, |SaveOps(id, details)|);
    case RunWhoseSaveRaises(id, row, details, after, errorId, errorRow) =>
      ApplyAppend(s, [AddRow(id, row)], SaveOps(id, details)[..after]);
      SaveKeepsRows(added, id, details, after);
      ApplyPush(s, [AddRow(id, row)] + SaveOps(id, details)[..after], AddRow(errorId, errorRow));
      OneMoreRow(added.rows, errorId, errorRow);
    case FailedRun(id, row) =>
  }

  lemma OneMoreRow(rows: map<string, RunRow>, id: string, row: RunRow)
    requires id !in rows
    ensures |rows[id := row]| == |rows| + 1
  {
    assert rows[id := row].Keys == rows.Keys + {id};
    assert |rows[id := row]| == |rows[id := row].Keys| && |rows| == |rows.Keys|;
  }
}
