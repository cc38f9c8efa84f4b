/** The stores behind a run, and the detail store's methods as sequences of durable steps. */
module RunDetails {
  import opened Wrappers
  import opened Sequences
  import opened Slugs
  import opened RunStorage

  /** The run table and the detail directories. The log remembers every step taken, in order. */
  class Storage {
    var rows: map<string, RunRow>
    var dirs: map<string, Directory>
    ghost var log: seq<Op>

    ghost function Now(): State
      reads this
    {
      State(rows, dirs)
    }

    constructor ()
      ensures Now() == State(map[], map[]) && log == []
    {
      rows, dirs, log := map[], map[], [];
    }

    method Add(id: string, row: RunRow)
      requires id !in rows
      modifies this
      ensures Now() == Apply(old(Now()), AddRow(id, row)) && log == old(log) + [AddRow(id, row)]
    {
      rows := rows[id := row];
      log := log + [AddRow(id, row)];
    }

    method Archive(id: string, archived: bool) returns (existed: bool)
      modifies this
      ensures existed == (id in old(rows))
      ensures Now() == Apply(old(Now()), SetArchived(id, archived)) && log == old(log) + [SetArchived(id, archived)]
    {
      existed := id in rows;
      if existed {
        rows := rows[id := rows[id].(archived := archived)];
      }
      log := log + [SetArchived(id, archived)];
    }

    method DeleteRun(id: string) returns (existed: bool)
      modifies this
      ensures existed == (id in old(rows))
      ensures Now() == Apply(old(Now()), DeleteRow(id)) && log == old(log) + [DeleteRow(id)]
    {
      existed := id in rows;
      rows := rows - {id};
      log := log + [DeleteRow(id)];
    }

    method MkDir(id: string)
      modifies this
      ensures Now() == Apply(old(Now()), MakeDir(id)) && log == old(log) + [MakeDir(id)]
      ensures id in dirs
    {
      if id !in dirs {
        dirs := dirs[id := map[]];
      }
      log := log + [MakeDir(id)];
    }

    method Write(id: string, name: string, file: File)
      requires id in dirs
      modifies this
      ensures Now() == Apply(old(Now()), WriteFile(id, name, file)) && log == old(log) + [WriteFile(id, name, file)]
      ensures id in dirs
    {
      dirs := dirs[id := dirs[id][name := file]];
      log := log + [WriteFile(id, name, file)];
    }

    method Remove(id: string, name: string)
      requires id in dirs && name in dirs[id]
      modifies this
      ensures Now() == Apply(old(Now()), Unlink(id, name)) && log == old(log) + [Unlink(id, name)]
      ensures id in dirs && dirs[id] == old(dirs[id]) - {name}
    {
      dirs := dirs[id := dirs[id] - {name}];
      log := log + [Unlink(id, name)];
    }

    /** A directory can be removed only when it is empty. */
    method RmDir(id: string)
      requires id in dirs && dirs[id] == map[]
      modifies this
      ensures Now() == Apply(old(Now()), RemoveDir(id)) && log == old(log) + [RemoveDir(id)]
    {
      dirs := dirs - {id};
      log := log + [RemoveDir(id)];
    }
  }

  class RunDetailStore {
    const storage: Storage

    constructor (storage: Storage)
      ensures this.storage == storage
    {
      this.storage := storage;
    }

    /**
     Writes the sections and, last, the manifest. After `limit` steps the file system fails and the
     method raises.
     */
    method Save(id: string, details: seq<Section>, limit: nat) returns (raised: bool)
      modifies storage
      ensures raised <==> limit < |SaveOps(id, details)|
      ensures Took(storage, old(storage.Now()), old(storage.log),
                   SaveOps(id, details)[..Min(limit, |SaveOps(id, details)|)])
    {
      SlugsAreFree(details);
      raised := SaveSections(id, details, limit, SlugsOf(details));
    }

    method SaveSections(id: string, details: seq<Section>, limit: nat, ghost slugs: seq<string>) returns (raised: bool)
      requires FreeInTurn(slugs, details)
      modifies storage
      ensures raised <==> limit < |SaveOpsFor(id, slugs, details)|
      ensures Took(storage, old(storage.Now()), old(storage.log),
                   SaveOpsFor(id, slugs, details)[..Min(limit, |SaveOpsFor(id, slugs, details)|)])
    {
      ghost var before, log := storage.Now(), storage.log;
      if details == [] {
        return false;
      }
      if limit == 0 {
        return true;
      }
      storage.MkDir(id);
      var failed, manifest := WriteSections(id, details, limit - 1, slugs);
      SaveSoFar(before, log, id, slugs, details, Min(limit - 1, |details|));
      if failed || limit == |details| + 1 {
        return true;
      }
      storage.Write(id, MANIFEST, Manifest(manifest));
      ManifestStep(before, log, id, slugs, details);
      raised := false;
    }

    /** The section files, at most `limit` of them. */
    method WriteSections(id: string, details: seq<Section>, limit: nat, ghost slugs: seq<string>)
      returns (raised: bool, manifest: Entries)
      requires FreeInTurn(slugs, details) && id in storage.dirs
      modifies storage
      ensures raised <==> limit < |details|
      ensures !raised ==> manifest == EntriesFor(slugs, details) && id in storage.dirs
      ensures Took(storage, old(storage.Now()), old(storage.log),
                   WritesFor(id, slugs, details)[..Min(limit, |details|)])
    {
      ghost var before, log := storage.Now(), storage.log;
      manifest := [];
      var used: set<string> := {};
      var i := 0;
      NothingWritten(before, log, id, slugs, details);
      while i < |details|
        invariant 0 <= i <= |details| && i <= limit && id in storage.dirs
        invariant Written(storage.Now(), storage.log, before, log, id, slugs, details, i, used, manifest)
      {
        if limit == i {
          return true, manifest;
        }
        var slug, used', _ := UniqueSlug(details[i].title, used);
        OneMoreWritten(storage.Now(), storage.log, before, log, id, slugs, details, i, used, manifest);
        storage.Write(id, FileName(slug), Parquet(details[i].frame));
        used, manifest := used', manifest + [(slug, details[i].title)];
        i := i + 1;
      }
      AllWritten(slugs, details);
      raised := false;
    }

    method LoadAll(id: string) returns (sections: seq<Section>)
      ensures sections == LoadedAll(storage.Now(), id)
    {
      var dir := if id in storage.dirs then storage.dirs[id] else map[];
      var manifest := ManifestOf(dir);
      sections := [];
      var i := 0;
      while i < |manifest|
        invariant 0 <= i <= |manifest| && sections == Loaded(dir, manifest[..i])
      {
        assert manifest[..i + 1][..i] == manifest[..i];
        var (slug, title) := manifest[i];
        var file := FileOf(dir, slug);
        if file.Some? {
          sections := Put(sections, Section(title, file.value));
        }
        i := i + 1;
      }
      assert manifest[..i] == manifest;
    }

    method Load(id: string, title: string) returns (frame: Option<Content>)
      ensures frame == LoadedOne(storage.Now(), id, title)
    {
      var dir := if id in storage.dirs then storage.dirs[id] else map[];
      var slug := SlugFor(ManifestOf(dir), title);
      frame := match slug { case None => None case Some(s) => FileOf(dir, s) };
    }

    /** Unlinks every file, then removes the directory; false when there was none. */
    method Delete(id: string) returns (existed: bool, ghost ops: seq<Op>)
      modifies storage
      ensures existed == (id in old(storage.dirs))
      ensures IsDetailDelete(old(storage.Now()), id, ops)
      ensures Took(storage, old(storage.Now()), old(storage.log), ops)
      ensures storage.rows == old(storage.rows) && storage.dirs == old(storage.dirs) - {id}
    {
      ghost var before, log := storage.Now(), storage.log;
      existed := id in storage.dirs;
      if existed {
        ghost var names := UnlinkAll(id);
        storage.RmDir(id);
        ops := Unlinks(id, names) + [RemoveDir(id)];
        ApplyPush(before, Unlinks(id, names), RemoveDir(id));
      } else {
        ops := [];
      }
      AfterDetailDelete(before, id, ops);
    }

    method UnlinkAll(id: string) returns (ghost names: seq<string>)
      requires id in storage.dirs
      modifies storage
      ensures id in storage.dirs && storage.dirs[id] == map[]
      ensures Lists(old(storage.dirs)[id], names)
      ensures Took(storage, old(storage.Now()), old(storage.log), Unlinks(id, names))
    {
      ghost var before, log := storage.Now(), storage.log;
      var left := storage.dirs[id].Keys;
      names := [];
      while left != {}
        invariant id in before.dirs && id in storage.dirs && left == storage.dirs[id].Keys
        invariant Split(before.dirs[id].Keys, names, left)
        invariant Took(storage, before, log, Unlinks(id, names))
        decreases |left|
      {
        var name :| name in left;
        storage.Remove(id, name);
        UnlinkStep(before, log, id, names, name);
        SplitStep(before.dirs[id].Keys, names, left, name);
        left := left - {name};
        names := names + [name];
      }
      NothingSplit(before.dirs[id], names);
    }
  }

  /** Distinct names taken so far, and those left, together make up the whole. */
  ghost predicate Split(all: set<string>, names: seq<string>, left: set<string>) {
    && Distinct(names)
    && (forall n :: n in names ==> n !in left)
    && (forall n :: n in all <==> n in names || n in left)
  }

  lemma NothingSplit(dir: Directory, names: seq<string>)
    requires Split(dir.Keys, names, {})
    ensures Lists(dir, names)
  {
  }

  lemma SplitStep(all: set<string>, names: seq<string>, left: set<string>, name: string)
    requires Split(all, names, left) && name in left
    ensures Split(all, names + [name], left - {name})
  {
  }

  /** The storage has taken these steps since. */
  ghost predicate Took(storage: Storage, before: State, log: seq<Op>, ops: seq<Op>)
    reads storage
  {
    storage.log == log + ops && storage.Now() == ApplyAll(before, ops)
  }

  lemma UnlinkStep(s: State, log: seq<Op>, id: string, names: seq<string>, name: string)
    ensures log + Unlinks(id, names + [name]) == log + Unlinks(id, names) + [Unlink(id, name)]
    ensures ApplyAll(s, Unlinks(id, names + [name])) == Apply(ApplyAll(s, Unlinks(id, names)), Unlink(id, name))
  {
    ApplyPush(s, Unlinks(id, names), Unlink(id, name));
    assert Unlinks(id, names + [name]) == Unlinks(id, names) + [Unlink(id, name)];
  }

  lemma SaveSoFar(s: State, log: seq<Op>, id: string, slugs: seq<string>, details: seq<Section>, n: nat)
    requires |slugs| == |details| > 0 && n <= |details|
    ensures var ops, writes := SaveOpsFor(id, slugs, details), WritesFor(id, slugs, details)[..n];
            && log + ops[..n + 1] == log + [MakeDir(id)] + writes
            && ApplyAll(s, ops[..n + 1]) == ApplyAll(Apply(s, MakeDir(id)), writes)
  {
    var ops, writes := SaveOpsFor(id, slugs, details), WritesFor(id, slugs, details)[..n];
    assert ops[..n + 1] == [MakeDir(id)] + writes;
    assert ApplyAll(s, [MakeDir(id)]) == Apply(s, MakeDir(id)) by {
      assert [MakeDir(id)][..0] == [];
    }
    ApplyAppend(s, [MakeDir(id)], writes);
  }

  /** Writing the manifest is the last step. */
  lemma ManifestStep(s: State, log: seq<Op>, id: string, slugs: seq<string>, details: seq<Section>)
    requires |slugs| == |details| > 0
    ensures var ops, op := SaveOpsFor(id, slugs, details),
                           WriteFile(id, MANIFEST, Manifest(EntriesFor(slugs, details)));
            && log + ops[..|ops|] == log + ops[..|details| + 1] + [op]
            && ApplyAll(s, ops[..|ops|]) == Apply(ApplyAll(s, ops[..|details| + 1]), op)
  {
    StepTaken(s, log, SaveOpsFor(id, slugs, details), |details| + 1);
  }

  /** The first i sections are written. */
  ghost predicate Written(now: State, logNow: seq<Op>, before: State, log: seq<Op>, id: string, slugs: seq<string>,
                          details: seq<Section>, i: nat, used: set<string>, manifest: Entries)
    requires |slugs| == |details| && i <= |details|
  {
    && now == ApplyAll(before, WritesFor(id, slugs, details)[..i])
    && logNow == log + WritesFor(id, slugs, details)[..i]
    && used == ToSet(slugs[..i])
    && manifest == EntriesFor(slugs, details)[..i]
  }

  lemma NothingWritten(s: State, log: seq<Op>, id: string, slugs: seq<string>, details: seq<Section>)
    requires |slugs| == |details|
    ensures Written(s, log, s, log, id, slugs, details, 0, {}, [])
  {
  }

  lemma OneMoreWritten(now: State, logNow: seq<Op>, before: State, log: seq<Op>, id: string, slugs: seq<string>,
                       details: seq<Section>, i: nat, used: set<string>, manifest: Entries)
    requires |slugs| == |details| && i < |details|
             && Written(now, logNow, before, log, id, slugs, details, i, used, manifest)
    ensures var op := WriteFile(id, FileName(slugs[i]), Parquet(details[i].frame));
            Written(Apply(now, op), logNow + [op], before, log, id, slugs, details, i + 1, used + {slugs[i]},
                    manifest + [(slugs[i], details[i].title)])
  {
    StepTaken(before, log, WritesFor(id, slugs, details), i);
    SetGrows(slugs, i);
    EntriesGrow(slugs, details, i);
  }

  lemma AllWritten(slugs: seq<string>, details: seq<Section>)
    requires |slugs| == |details|
    ensures EntriesFor(slugs, details)[..|details|] == EntriesFor(slugs, details)
  {
  }

  lemma EntriesGrow(slugs: seq<string>, details: seq<Section>, i: nat)
    requires |slugs| == |details| && i < |details|
    ensures EntriesFor(slugs, details)[..i + 1] == EntriesFor(slugs, details)[..i] + [(slugs[i], details[i].title)]
  {
  }

  lemma SetGrows(slugs: seq<string>, i: nat)
    requires i < |slugs|
    ensures ToSet(slugs[..i + 1]) == ToSet(slugs[..i]) + {slugs[i]}
  {
    assert slugs[..i + 1] == slugs[..i] + [slugs[i]];
  }

  lemma StepTaken(s: State, log: seq<Op>, ops: seq<Op>, n: nat)
    requires n < |ops|
    ensures log + ops[..n + 1] == log + ops[..n] + [ops[n]]
    ensures ApplyAll(s, ops[..n + 1]) == Apply(ApplyAll(s, ops[..n]), ops[n])
  {
    assert ops[..n + 1] == ops[..n] + [ops[n]];
    ApplyPush(s, ops[..n], ops[n]);
  }

  lemma PrefixOfLonger<T>(a: seq<T>, b: seq<T>, c: seq<T>)
    requires a + b <= c
    ensures a <= c
  {
    assert forall i :: 0 <= i < |a| ==> a[i] == (a + b)[i];
  }

  lemma {:induction false} SlugsOfLonger(details: seq<Section>, n: nat)
    requires n <= |details|
    ensures SlugsOf(details[..n]) <= SlugsOf(details)
    decreases |details| - n
  {
    if n < |details| {
      UsedExtend(details, n);
      SlugsOfLonger(details, n + 1);
      PrefixOfLonger(SlugsOf(details[..n]), [NextSlug(details, n)], SlugsOf(details));
    } else {
      assert details[..n] == details;
    }
  }

  /** Each slug is the one the loop finds when it gets there. */
  ghost predicate FreeInTurn(slugs: seq<string>, details: seq<Section>) {
    |slugs| == |details| && forall n :: 0 <= n < |slugs| ==>
      slugs[n] == FreeSlug(Slugify(details[n].title), ToSet(slugs[..n]))
  }

  lemma NextInPrefix<T>(front: seq<T>, x: T, all: seq<T>)
    requires front + [x] <= all
    ensures all[|front|] == x && all[..|front|] == front
  {
    assert all[|front|] == (front + [x])[|front|];
    assert forall i :: 0 <= i < |front| ==> front[i] == (front + [x])[i];
  }

  lemma SlugIsFree(details: seq<Section>, n: nat)
    requires n < |details|
    ensures SlugsOf(details)[n] == FreeSlug(Slugify(details[n].title), ToSet(SlugsOf(details)[..n]))
  {
    UsedExtend(details, n);
    SlugsOfLonger(details, n + 1);
    NextInPrefix(SlugsOf(details[..n]), NextSlug(details, n), SlugsOf(details));
  }

  lemma SlugsAreFree(details: seq<Section>)
    ensures FreeInTurn(SlugsOf(details), details)
  {
    forall n | 0 <= n < |details|
      ensures SlugsOf(details)[n] == FreeSlug(Slugify(details[n].title), ToSet(SlugsOf(details)[..n]))
    {
      SlugIsFree(details, n);
    }
  }
}
