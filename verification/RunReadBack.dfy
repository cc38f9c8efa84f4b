/** Saving and loading back: whole runs, and runs of which some files are gone. */
module RunReadBack {
  import opened Wrappers
  import opened Sequences
  import opened RunStorage

  // ----- loading what the manifest names

  /** One distinct slug to each of the distinctly titled sections. */
  ghost predicate Named(slugs: seq<string>, details: seq<Section>) {
    |slugs| == |details| && Distinct(slugs) && DistinctTitles(details)
  }

  /** Wherever a section's file is present it holds that section's frame. */
  ghost predicate Agrees(dir: Directory, slugs: seq<string>, details: seq<Section>)
    requires |slugs| == |details|
  {
    forall i :: 0 <= i < |details| ==> FileOf(dir, slugs[i]).None? || FileOf(dir, slugs[i]) == Some(details[i].frame)
  }

  /** The sections whose file is present, in order. */
  function Kept(slugs: seq<string>, details: seq<Section>, dir: Directory): (kept: seq<Section>)
    requires |slugs| == |details|
    ensures forall s :: s in kept ==> s in details
  {
    if details == [] then []
    else
      var n := |details| - 1;
      assert details == details[..n] + [details[n]];
      Kept(slugs[..n], details[..n], dir) + if FileOf(dir, slugs[n]).Some? then [details[n]] else []
  }

  lemma {:induction false} PutFresh(sections: seq<Section>, s: Section)
    requires forall x :: x in sections ==> x.title != s.title
    ensures Put(sections, s) == sections + [s]
  {
    if sections != [] {
      assert sections == [sections[0]] + sections[1..];
      PutFresh(sections[1..], s);
    }
  }

  lemma LastTitleIsFresh(details: seq<Section>)
    requires details != [] && DistinctTitles(details)
    ensures forall x :: x in details[..|details| - 1] ==> x.title != details[|details| - 1].title
  {
  }

  lemma EntriesOfFront(slugs: seq<string>, details: seq<Section>)
    requires |slugs| == |details| > 0
    ensures var n := |details| - 1;
            EntriesFor(slugs, details) == EntriesFor(slugs[..n], details[..n]) + [(slugs[n], details[n].title)]
  {
  }

  /** What is loaded is what was saved and still has its file, titles, order and frames unchanged. */
  lemma {:induction false} LoadedIsKept(dir: Directory, slugs: seq<string>, details: seq<Section>)
    requires Named(slugs, details) && Agrees(dir, slugs, details)
    ensures Loaded(dir, EntriesFor(slugs, details)) == Kept(slugs, details, dir)
  {
    if details != [] {
      var n := |details| - 1;
      LoadedIsKept(dir, slugs[..n], details[..n]);
      EntriesOfFront(slugs, details);
      LastTitleIsFresh(details);
      PutFresh(Kept(slugs[..n], details[..n], dir), details[n]);
    }
  }

  lemma {:induction false} KeptWhole(slugs: seq<string>, details: seq<Section>, dir: Directory)
    requires |slugs| == |details| && forall i :: 0 <= i < |details| ==> FileOf(dir, slugs[i]).Some?
    ensures Kept(slugs, details, dir) == details
  {
    if details != [] {
      var n := |details| - 1;
      KeptWhole(slugs[..n], details[..n], dir);
      assert details == details[..n] + [details[n]];
    }
  }

  // ----- the directory while a save is under way

  /** The directory after the first n section files have been written into it. */
  function DirAfter(dir: Directory, slugs: seq<string>, details: seq<Section>, n: nat): Directory
    requires |slugs| == |details| && n <= |details|
  {
    if n == 0 then dir
    else DirAfter(dir, slugs, details, n - 1)[FileName(slugs[n - 1]) := Parquet(details[n - 1].frame)]
  }

  function DirOf(s: State, id: string): Directory {
    if id in s.dirs then s.dirs[id] else map[]
  }

  lemma AfterMakeDir(s: State, id: string)
    ensures ApplyAll(s, [MakeDir(id)]) == s.(dirs := s.dirs[id := DirOf(s, id)])
  {
    assert ApplyAll(s, [MakeDir(id)][..0]) == s;
    if id in s.dirs {
      assert s.dirs[id := s.dirs[id]] == s.dirs;
    }
  }

  lemma UpdatedTwice(dirs: map<string, Directory>, id: string, a: Directory, b: Directory)
    ensures dirs[id := a][id := b] == dirs[id := b]
  {
  }

  lemma OneMoreWrite(s: State, t: State, id: string, dir: Directory, name: string, file: File)
    requires t == State(s.rows, s.dirs[id := dir])
    ensures Apply(t, WriteFile(id, name, file)) == State(s.rows, s.dirs[id := dir[name := file]])
  {
    UpdatedTwice(s.dirs, id, dir, dir[name := file]);
  }

  lemma {:induction false} AfterWrites(s: State, id: string, slugs: seq<string>, details: seq<Section>, n: nat)
    requires |slugs| == |details| && n <= |details|
    ensures ApplyAll(s, [MakeDir(id)] + WritesFor(id, slugs, details)[..n]) ==
            s.(dirs := s.dirs[id := DirAfter(DirOf(s, id), slugs, details, n)])
  {
    var writes := WritesFor(id, slugs, details);
    if n == 0 {
      assert [MakeDir(id)] + writes[..0] == [MakeDir(id)];
      AfterMakeDir(s, id);
    } else {
      AfterWrites(s, id, slugs, details, n - 1);
      assert [MakeDir(id)] + writes[..n] == [MakeDir(id)] + writes[..n - 1] + [writes[n - 1]];
      ApplyPush(s, [MakeDir(id)] + writes[..n - 1], writes[n - 1]);
      OneMoreWrite(s, ApplyAll(s, [MakeDir(id)] + writes[..n - 1]), id, DirAfter(DirOf(s, id), slugs, details, n - 1),
                   FileName(slugs[n - 1]), Parquet(details[n - 1].frame));
    }
  }

  /** Section files never replace the manifest or one another. */
  lemma {:induction false} DirAfterHolds(dir: Directory, slugs: seq<string>, details: seq<Section>, n: nat)
    requires Named(slugs, details) && n <= |details|
    ensures forall i :: 0 <= i < n ==> FileOf(DirAfter(dir, slugs, details, n), slugs[i]) == Some(details[i].frame)
    ensures MANIFEST in DirAfter(dir, slugs, details, n) <==> MANIFEST in dir
  {
    if n > 0 {
      DirAfterHolds(dir, slugs, details, n - 1);
      FileNamesDiffer(slugs[n - 1], slugs[n - 1]);
      forall i | 0 <= i < n - 1
        ensures FileName(slugs[i]) != FileName(slugs[n - 1])
      {
        FileNamesDiffer(slugs[i], slugs[n - 1]);
      }
    }
  }

  /** A directory holding a whole saved run. */
  ghost predicate HoldsAll(dir: Directory, slugs: seq<string>, details: seq<Section>)
    requires |slugs| == |details|
  {
    && ManifestOf(dir) == EntriesFor(slugs, details)
    && forall i :: 0 <= i < |details| ==> FileOf(dir, slugs[i]) == Some(details[i].frame)
  }

  lemma ManifestAdded(dir: Directory, slugs: seq<string>, details: seq<Section>)
    requires |slugs| == |details|
    requires forall i :: 0 <= i < |details| ==> FileOf(dir, slugs[i]) == Some(details[i].frame)
    ensures HoldsAll(dir[MANIFEST := Manifest(EntriesFor(slugs, details))], slugs, details)
  {
    forall i | 0 <= i < |details|
      ensures FileName(slugs[i]) != MANIFEST
    {
      FileNamesDiffer(slugs[i], slugs[i]);
    }
  }

  /** A finished save has its manifest and every file it names, and leaves the other runs alone. */
  lemma AfterSave(s: State, id: string, slugs: seq<string>, details: seq<Section>)
    requires details != [] && Named(slugs, details)
    ensures var after := ApplyAll(s, SaveOpsFor(id, slugs, details));
            && id in after.dirs && HoldsAll(after.dirs[id], slugs, details)
            && after == s.(dirs := s.dirs[id := after.dirs[id]])
  {
    var n := |details|;
    var writes := WritesFor(id, slugs, details);
    AfterWrites(s, id, slugs, details, n);
    assert writes[..n] == writes;
    ApplyPush(s, [MakeDir(id)] + writes, WriteFile(id, MANIFEST, Manifest(EntriesFor(slugs, details))));
    OneMoreWrite(s, ApplyAll(s, [MakeDir(id)] + writes), id, DirAfter(DirOf(s, id), slugs, details, n),
                 MANIFEST, Manifest(EntriesFor(slugs, details)));
    DirAfterHolds(DirOf(s, id), slugs, details, n);
    ManifestAdded(DirAfter(DirOf(s, id), slugs, details, n), slugs, details);
  }

  /**
   Saving and loading back gives the same titles, order and frames, whatever slugs the titles collide on,
   and whatever the directory held before.
   */
  lemma SaveRoundTrip(s: State, id: string, details: seq<Section>)
    requires details != [] && DistinctTitles(details)
    ensures LoadedAll(ApplyAll(s, SaveOps(id, details)), id) == details
  {
    var after := ApplyAll(s, SaveOps(id, details));
    var slugs := SlugsOf(details);
    AfterSave(s, id, slugs, details);
    LoadedIsKept(after.dirs[id], slugs, details);
    KeptWhole(slugs, details, after.dirs[id]);
  }

  // ----- one section by its title

  lemma {:induction false} SlugForTitle(entries: Entries, i: nat)
    requires i < |entries| && forall j, k :: 0 <= j < k < |entries| ==> entries[j].1 != entries[k].1
    ensures SlugFor(entries, entries[i].1) == Some(entries[i].0)
  {
    if i > 0 {
      assert entries[0].1 != entries[i].1;
      SlugForTitle(entries[1..], i - 1);
    }
  }

  lemma {:induction false} SlugForNoTitle(entries: Entries, title: string)
    requires forall i :: 0 <= i < |entries| ==> entries[i].1 != title
    ensures SlugFor(entries, title) == None
  {
    if entries != [] {
      SlugForNoTitle(entries[1..], title);
    }
  }

  /** Loading one section of a saved run finds its frame, and a title that was not saved finds nothing. */
  lemma LoadOneSection(s: State, id: string, details: seq<Section>, title: string)
    requires details != [] && DistinctTitles(details)
    ensures var after := ApplyAll(s, SaveOps(id, details));
            && (forall i :: 0 <= i < |details| ==> LoadedOne(after, id, details[i].title) == Some(details[i].frame))
            && ((forall i :: 0 <= i < |details| ==> details[i].title != title) ==> LoadedOne(after, id, title) == None)
  {
    var slugs := SlugsOf(details);
    AfterSave(s, id, slugs, details);
    var entries := EntriesFor(slugs, details);
    forall i | 0 <= i < |details|
      ensures SlugFor(entries, details[i].title) == Some(slugs[i])
    {
      SlugForTitle(entries, i);
    }
    if forall i :: 0 <= i < |details| ==> details[i].title != title {
      SlugForNoTitle(entries, title);
    }
  }
}
