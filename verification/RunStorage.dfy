/** What a run leaves behind: its metadata row and its detail directory, changed one operation at a time. */
module RunStorage {
  import opened Wrappers
  import opened Sequences
  import opened Frames
  import opened TestSuites
  import opened ComparisonEngine
  import opened Slugs

  const MANIFEST := "_manifest.json"

  /** A stored frame: plain rows, or rows of the wide diff. */
  datatype Content = PlainRows(rows: seq<Row>) | DiffRows(diffs: seq<DiffRow>)

  /** One named result frame. */
  datatype Section = Section(title: string, frame: Content)

  /** Slugs with their titles, in the order saved. */
  type Entries = seq<(string, string)>

  datatype File = Parquet(frame: Content) | Manifest(entries: Entries)

  type Directory = map<string, File>

  datatype RunRow = RunRow(status: RunStatus, archived: bool)

  datatype State = State(rows: map<string, RunRow>, dirs: map<string, Directory>)

  /** One durable step. */
  datatype Op =
    | AddRow(id: string, row: RunRow)
    | SetArchived(id: string, archived: bool)
    | DeleteRow(id: string)
    | MakeDir(id: string)
    | WriteFile(id: string, name: string, file: File)
    | Unlink(id: string, name: string)
    | RemoveDir(id: string)

  function Apply(s: State, op: Op): State {
    match op
    case AddRow(id, row) => s.(rows := s.rows[id := row])
    case SetArchived(id, archived) =>
      if id in s.rows then s.(rows := s.rows[id := s.rows[id].(archived := archived)]) else s
    case DeleteRow(id) => s.(rows := s.rows - {id})
    case MakeDir(id) => if id in s.dirs then s else s.(dirs := s.dirs[id := map[]])
    case WriteFile(id, name, file) => if id in s.dirs then s.(dirs := s.dirs[id := s.dirs[id][name := file]]) else s
    case Unlink(id, name) => if id in s.dirs then s.(dirs := s.dirs[id := s.dirs[id] - {name}]) else s
    case RemoveDir(id) => if id in s.dirs && s.dirs[id] == map[] then s.(dirs := s.dirs - {id}) else s
  }

  function ApplyAll(s: State, ops: seq<Op>): State {
    if ops == [] then s else Apply(ApplyAll(s, ops[..|ops| - 1]), ops[|ops| - 1])
  }

  lemma ApplyPush(s: State, ops: seq<Op>, op: Op)
    ensures ApplyAll(s, ops + [op]) == Apply(ApplyAll(s, ops), op)
  {
    assert (ops + [op])[..|ops|] == ops;
  }

  lemma {:induction false} ApplyAppend(s: State, a: seq<Op>, b: seq<Op>)
    ensures ApplyAll(s, a + b) == ApplyAll(ApplyAll(s, a), b)
  {
    if b == [] {
      assert a + b == a;
    } else {
      ApplyAppend(s, a, b[..|b| - 1]);
      assert (a + b)[..|a + b| - 1] == a + b[..|b| - 1];
    }
  }

  // ----- the files of a saved run

  function FileName(slug: string): string { slug + ".parquet" }

  lemma FileNamesDiffer(a: string, b: string)
    ensures FileName(a) == FileName(b) ==> a == b
    ensures FileName(a) != MANIFEST
  {
    if FileName(a) == FileName(b) {
      assert a == FileName(a)[..|FileName(a)| - 8];
      assert b == FileName(b)[..|FileName(b)| - 8];
    }
    assert FileName(a)[|FileName(a)| - 1] == 't';
  }

  /** Titles are the keys of a mapping, hence distinct. */
  ghost predicate DistinctTitles(details: seq<Section>) {
    forall i, j :: 0 <= i < j < |details| ==> details[i].title != details[j].title
  }

  /** The slug each section gets, in order. */
  ghost function SlugsOf(details: seq<Section>): (slugs: seq<string>)
    ensures |slugs| == |details| && Distinct(slugs)
  {
    if details == [] then []
    else
      var before := SlugsOf(details[..|details| - 1]);
      before + [FreeSlug(Slugify(details[|details| - 1].title), ToSet(before))]
  }

  lemma SlugsOfPrefix(details: seq<Section>, n: nat)
    requires n < |details|
    ensures SlugsOf(details[..n + 1]) ==
            SlugsOf(details[..n]) + [FreeSlug(Slugify(details[n].title), ToSet(SlugsOf(details[..n])))]
  {
    assert details[..n + 1][..n] == details[..n];
  }

  /** The manifest and the writes for given slugs, one to a section. */
  function EntriesFor(slugs: seq<string>, details: seq<Section>): (entries: Entries)
    requires |slugs| == |details|
    ensures |entries| == |details|
    ensures forall i :: 0 <= i < |details| ==> entries[i] == (slugs[i], details[i].title)
  {
    seq(|details|, i requires 0 <= i < |details| => (slugs[i], details[i].title))
  }

  function WritesFor(id: string, slugs: seq<string>, details: seq<Section>): (ops: seq<Op>)
    requires |slugs| == |details|
    ensures |ops| == |details|
    ensures forall i :: 0 <= i < |details| ==> ops[i] == WriteFile(id, FileName(slugs[i]), Parquet(details[i].frame))
  {
    seq(|details|, i requires 0 <= i < |details| => WriteFile(id, FileName(slugs[i]), Parquet(details[i].frame)))
  }

  /** Everything `save` does, in order: the directory, the section files, and the manifest last. */
  function SaveOpsFor(id: string, slugs: seq<string>, details: seq<Section>): seq<Op>
    requires |slugs| == |details|
  {
    if details == [] then []
    else [MakeDir(id)] + WritesFor(id, slugs, details) + [WriteFile(id, MANIFEST, Manifest(EntriesFor(slugs, details)))]
  }

  ghost function SaveOps(id: string, details: seq<Section>): seq<Op> {
    SaveOpsFor(id, SlugsOf(details), details)
  }

  ghost function NextSlug(details: seq<Section>, n: nat): string
    requires n < |details|
  {
    FreeSlug(Slugify(details[n].title), ToSet(SlugsOf(details[..n])))
  }

  lemma UsedExtend(details: seq<Section>, n: nat)
    requires n < |details|
    ensures ToSet(SlugsOf(details[..n + 1])) == ToSet(SlugsOf(details[..n])) + {NextSlug(details, n)}
    ensures SlugsOf(details[..n + 1]) == SlugsOf(details[..n]) + [NextSlug(details, n)]
  {
    SlugsOfPrefix(details, n);
  }

  // ----- reading it back

  /** `sections[title] = frame` in an insertion-ordered mapping. */
  function Put(sections: seq<Section>, s: Section): seq<Section> {
    if sections == [] then [s]
    else if sections[0].title == s.title then [s] + sections[1..]
    else [sections[0]] + Put(sections[1..], s)
  }

  function ManifestOf(dir: Directory): Entries {
    if MANIFEST in dir && dir[MANIFEST].Manifest? then dir[MANIFEST].entries else []
  }

  function FileOf(dir: Directory, slug: string): Option<Content> {
    if FileName(slug) in dir && dir[FileName(slug)].Parquet? then Some(dir[FileName(slug)].frame) else None
  }

  function Loaded(dir: Directory, entries: Entries): seq<Section> {
    if entries == [] then []
    else
      var (slug, title) := entries[|entries| - 1];
      var before := Loaded(dir, entries[..|entries| - 1]);
      if FileOf(dir, slug).Some? then Put(before, Section(title, FileOf(dir, slug).value)) else before
  }

  function LoadedAll(s: State, id: string): seq<Section> {
    if id in s.dirs then Loaded(s.dirs[id], ManifestOf(s.dirs[id])) else []
  }

  function SlugFor(entries: Entries, title: string): Option<string> {
    if entries == [] then None
    else if entries[0].1 == title then Some(entries[0].0)
    else SlugFor(entries[1..], title)
  }

  function LoadedOne(s: State, id: string, title: string): Option<Content> {
    if id !in s.dirs then None
    else
      match SlugFor(ManifestOf(s.dirs[id]), title)
      case None => None
      case Some(slug) => FileOf(s.dirs[id], slug)
  }

  // ----- what deleting does

  /** The files of a directory in some order. */
  ghost predicate Lists(dir: Directory, names: seq<string>) {
    Distinct(names) && forall n :: n in names <==> n in dir
  }

  function Unlinks(id: string, names: seq<string>): (ops: seq<Op>)
    ensures |ops| == |names| && forall i :: 0 <= i < |names| ==> ops[i] == Unlink(id, names[i])
  {
    seq(|names|, i requires 0 <= i < |names| => Unlink(id, names[i]))
  }

  /** Every file, then the directory. */
  ghost predicate IsDetailDelete(s: State, id: string, ops: seq<Op>) {
    if id in s.dirs then exists names :: Lists(s.dirs[id], names) && ops == Unlinks(id, names) + [RemoveDir(id)]
    else ops == []
  }

  /** The detail first, the row after it. */
  ghost predicate IsRunDelete(s: State, id: string, ops: seq<Op>) {
    |ops| > 0 && ops[|ops| - 1] == DeleteRow(id) && IsDetailDelete(s, id, ops[..|ops| - 1])
  }

  lemma {:induction false} AfterUnlinks(s: State, id: string, names: seq<string>)
    requires id in s.dirs
    ensures ApplyAll(s, Unlinks(id, names)) == s.(dirs := s.dirs[id := s.dirs[id] - ToSet(names)])
  {
    if names == [] {
      assert s.dirs[id] - ToSet(names) == s.dirs[id];
      assert s.dirs[id := s.dirs[id]] == s.dirs;
    } else {
      var front, last := names[..|names| - 1], names[|names| - 1];
      AfterUnlinks(s, id, front);
      assert names == front + [last];
      assert Unlinks(id, names) == Unlinks(id, front) + [Unlink(id, last)];
      ApplyPush(s, Unlinks(id, front), Unlink(id, last));
      UnlinkFrom(s, id, s.dirs[id] - ToSet(front), last);
      RemoveOneMore(s.dirs[id], front, last);
    }
  }

  lemma UnlinkFrom(s: State, id: string, dir: Directory, name: string)
    requires id in s.dirs
    ensures Apply(s.(dirs := s.dirs[id := dir]), Unlink(id, name)) == s.(dirs := s.dirs[id := dir - {name}])
  {
    assert s.dirs[id := dir][id := dir - {name}] == s.dirs[id := dir - {name}];
  }

  lemma NothingLeft(dir: Directory, names: seq<string>)
    requires Lists(dir, names)
    ensures dir - ToSet(names) == map[]
  {
  }

  lemma RemoveEmptied(s: State, id: string)
    ensures Apply(s.(dirs := s.dirs[id := map[]]), RemoveDir(id)) == s.(dirs := s.dirs - {id})
  {
    assert s.dirs[id := map[]] - {id} == s.dirs - {id};
  }

  lemma AfterDetailDelete(s: State, id: string, ops: seq<Op>)
    requires IsDetailDelete(s, id, ops)
    ensures ApplyAll(s, ops) == s.(dirs := s.dirs - {id})
  {
    if id in s.dirs {
      var names :| Lists(s.dirs[id], names) && ops == Unlinks(id, names) + [RemoveDir(id)];
      AfterUnlinks(s, id, names);
      NothingLeft(s.dirs[id], names);
      ApplyPush(s, Unlinks(id, names), RemoveDir(id));
      RemoveEmptied(s, id);
    } else {
      assert s.dirs - {id} == s.dirs;
    }
  }

  /** A completed delete leaves neither directory nor row, and touches no other run. */
  lemma AfterRunDelete(s: State, id: string, ops: seq<Op>)
    requires IsRunDelete(s, id, ops)
    ensures ApplyAll(s, ops) == State(s.rows - {id}, s.dirs - {id})
  {
    AfterDetailDelete(s, id, ops[..|ops| - 1]);
  }

  // ----- what a single step leaves alone

  predicate RowStep(op: Op) { op.AddRow? || op.SetArchived? || op.DeleteRow? }

  /** A step on a row leaves every directory, a step on a directory every row, and either every other run. */
  lemma StepsAreApart(s: State, op: Op, other: string)
    requires other != op.id
    ensures if RowStep(op) then Apply(s, op).dirs == s.dirs else Apply(s, op).rows == s.rows
    ensures other in Apply(s, op).rows <==> other in s.rows
    ensures other in s.rows ==> Apply(s, op).rows[other] == s.rows[other]
    ensures other in Apply(s, op).dirs <==> other in s.dirs
    ensures other in s.dirs ==> Apply(s, op).dirs[other] == s.dirs[other]
  {
  }

  /** A file goes only by its own unlinking, and a directory only once it is empty. */
  lemma FilesGoByUnlinking(s: State, op: Op, id: string, name: string)
    requires id in s.dirs && name in s.dirs[id] && op != Unlink(id, name)
    ensures id in Apply(s, op).dirs && name in Apply(s, op).dirs[id]
    ensures !op.WriteFile? ==> Apply(s, op).dirs[id][name] == s.dirs[id][name]
  {
  }

  /** Without sections a save does nothing. */
  lemma NothingToSave(s: State, id: string)
    ensures SaveOps(id, []) == [] && ApplyAll(s, SaveOps(id, [])) == s
  {
  }

  /** Where a title is in a list of sections. */
  ghost predicate FirstAt(sections: seq<Section>, title: string, i: nat) {
    i < |sections| && sections[i].title == title && forall j :: 0 <= j < i ==> sections[j].title != title
  }

  /** Storing a section under a title that is there replaces its frame in place. */
  lemma {:induction false} PutReplaces(sections: seq<Section>, s: Section, i: nat)
    requires FirstAt(sections, s.title, i)
    ensures Put(sections, s) == sections[i := s]
  {
    if i > 0 {
      assert FirstAt(sections[1..], s.title, i - 1);
      PutReplaces(sections[1..], s, i - 1);
      assert sections[i := s] == [sections[0]] + sections[1..][i - 1 := s];
    } else {
      assert sections[0 := s] == [s] + sections[1..];
    }
  }
}
