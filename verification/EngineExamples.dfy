/** Two-column frames, and what comparing two of them reports: the ground for examples over all options. */
module EngineExamples {
  import opened Wrappers
  import opened Sequences
  import opened Frames
  import opened ComparisonEngine
  import opened EngineReference
  import opened EngineRefinement
  import opened EngineFates
  import opened EngineTheorems

  /** A row: its key and its one other cell. */
  datatype Entry = Entry(id: string, value: Cell)

  function EntryRow(key: string, value: string, e: Entry): Row {
    map[key := Str(e.id), value := e.value]
  }

  ghost predicate AllFit(kind: Kind, entries: seq<Entry>) {
    forall i :: 0 <= i < |entries| ==> Fits(kind, entries[i].value)
  }

  /** A key column of text and a column of the given kind. */
  function TwoColumns(key: string, value: string, kind: Kind, entries: seq<Entry>): (f: Frame)
    requires key != value && AllFit(kind, entries)
    ensures f.columns == [key, value] && f.kinds == map[key := TextKind, value := kind] && |f.rows| == |entries|
    ensures forall i :: 0 <= i < |entries| ==> f.rows[i] == EntryRow(key, value, entries[i])
  {
    var f := FrameData([key, value], map[key := TextKind, value := kind],
                       seq(|entries|, i requires 0 <= i < |entries| => EntryRow(key, value, entries[i])));
    TwoColumnsValid(key, value, kind, entries, f);
    f
  }

  lemma TwoColumnsValid(key: string, value: string, kind: Kind, entries: seq<Entry>, f: FrameData)
    requires key != value && AllFit(kind, entries)
    requires f.columns == [key, value] && f.kinds == map[key := TextKind, value := kind] && |f.rows| == |entries|
    requires forall i :: 0 <= i < |entries| ==> f.rows[i] == EntryRow(key, value, entries[i])
    ensures ValidFrame(f)
  {
    forall r | r in f.rows
      ensures RowFits(f.kinds, r)
    {
      var i :| 0 <= i < |f.rows| && f.rows[i] == r;
    }
  }

  /** The key under which a row is compared: its id as prepared. */
  function IdKey(cfg: Config, e: Entry): Key { [Str(NormalText(cfg, e.id))] }

  function IdKeys(cfg: Config, entries: seq<Entry>): (ks: seq<Key>)
    ensures |ks| == |entries| && forall i :: 0 <= i < |entries| ==> ks[i] == IdKey(cfg, entries[i])
  {
    seq(|entries|, i requires 0 <= i < |entries| => IdKey(cfg, entries[i]))
  }

  /** Ids that preparation keeps apart. */
  ghost predicate DistinctIds(cfg: Config, entries: seq<Entry>) {
    forall i, j :: 0 <= i < j < |entries| ==> NormalText(cfg, entries[i].id) != NormalText(cfg, entries[j].id)
  }

  lemma TwoColumnsUnambiguous(cfg: Config, key: string, value: string, kind: Kind, entries: seq<Entry>)
    requires Canon(cfg, key) != Canon(cfg, value) && AllFit(kind, entries)
    ensures key != value && Unambiguous(cfg, TwoColumns(key, value, kind, entries))
    ensures CanonAll(cfg, [key, value]) == [Canon(cfg, key), Canon(cfg, value)]
  {
    assert Distinct([Canon(cfg, key), Canon(cfg, value)]);
  }

  /** A cell of the reference's rows is the frame's own cell, normalised. */
  lemma CanonCell(cfg: Config, f: Frame, i: nat, j: nat)
    requires Unambiguous(cfg, f) && i < |f.rows| && j < |f.columns|
    ensures var g := Renamed(f, CanonAll(cfg, f.columns));
            Get(NormalRow(cfg, g.kinds, g.rows[i]), Canon(cfg, f.columns[j])) ==
            NormalCell(cfg, KindOf(f.kinds, f.columns[j]), Get(f.rows[i], f.columns[j]))
  {
    var names := CanonAll(cfg, f.columns);
    var g := Renamed(f, names);
    RenamedGet(f, names, i, j);
    RowKeysAreKinds(g, i, names[j]);
    NormalGet(cfg, g.kinds, g.rows[i], names[j]);
  }

  lemma CanonRowAt(cfg: Config, key: string, f: Frame, i: nat)
    requires Unambiguous(cfg, f) && i < |f.rows|
    ensures var rows, g := CanonRows(cfg, [key], f), Renamed(f, CanonAll(cfg, f.columns));
            var row := NormalRow(cfg, g.kinds, g.rows[i]);
            |rows| == |f.rows| && rows[i] == Keyed([Get(row, Canon(cfg, key))], row)
  {
    assert CanonAll(cfg, [key]) == [Canon(cfg, key)];
  }

  /** The cells of such a frame's rows after normalisation. */
  lemma EntryCells(cfg: Config, key: string, value: string, kind: Kind, e: Entry)
    requires key != value
    ensures NormalCell(cfg, TextKind, Get(EntryRow(key, value, e), key)) == Str(NormalText(cfg, e.id))
    ensures NormalCell(cfg, kind, Get(EntryRow(key, value, e), value)) == NormalCell(cfg, kind, e.value)
  {
  }

  /** The reference's rows of such a frame, one by one. */
  lemma TwoColumnsRow(cfg: Config, key: string, value: string, kind: Kind, entries: seq<Entry>, i: nat)
    requires key != value && AllFit(kind, entries) && i < |entries|
    requires Unambiguous(cfg, TwoColumns(key, value, kind, entries))
    ensures var rows := CanonRows(cfg, [key], TwoColumns(key, value, kind, entries));
            && |rows| == |entries| && rows[i].key == IdKey(cfg, entries[i])
            && Get(rows[i].value, Canon(cfg, value)) == NormalCell(cfg, kind, entries[i].value)
  {
    var f := TwoColumns(key, value, kind, entries);
    CanonCell(cfg, f, i, 0);
    CanonCell(cfg, f, i, 1);
    EntryCells(cfg, key, value, kind, entries[i]);
    CanonRowAt(cfg, key, f, i);
  }

  lemma TwoColumnsKinds(cfg: Config, key: string, value: string, kind: Kind, entries: seq<Entry>)
    requires key != value && AllFit(kind, entries) && Unambiguous(cfg, TwoColumns(key, value, kind, entries))
    ensures KindOf(TableOf(cfg, [key], TwoColumns(key, value, kind, entries)).kinds, Canon(cfg, value)) == kind
  {
    var f := TwoColumns(key, value, kind, entries);
    assert CanonAll(cfg, f.columns)[1] == Canon(cfg, value);
    RenamedKind(f, CanonAll(cfg, f.columns), 1);
  }

  lemma TwoColumnsTable(cfg: Config, key: string, value: string, kind: Kind, entries: seq<Entry>)
    requires Canon(cfg, key) != Canon(cfg, value) && AllFit(kind, entries) && DistinctIds(cfg, entries)
    requires key != value && Unambiguous(cfg, TwoColumns(key, value, kind, entries))
    ensures var t := TableOf(cfg, [key], TwoColumns(key, value, kind, entries));
            && t.rows.Keys == ToSet(IdKeys(cfg, entries)) && |t.rows| == |entries|
            && forall i :: 0 <= i < |entries| ==>
                 && IdKey(cfg, entries[i]) in t.rows
                 && Get(t.rows[IdKey(cfg, entries[i])], Canon(cfg, value)) == NormalCell(cfg, kind, entries[i].value)
  {
    var f := TwoColumns(key, value, kind, entries);
    var rows := CanonRows(cfg, [key], f);
    forall i | 0 <= i < |entries|
      ensures |rows| == |entries| && rows[i].key == IdKey(cfg, entries[i])
      ensures Get(rows[i].value, Canon(cfg, value)) == NormalCell(cfg, kind, entries[i].value)
    {
      TwoColumnsRow(cfg, key, value, kind, entries, i);
    }
    assert Keys(rows) == IdKeys(cfg, entries);
    forall i, j | 0 <= i < j < |entries|
      ensures IdKeys(cfg, entries)[i] != IdKeys(cfg, entries)[j]
    {
      assert IdKey(cfg, entries[i])[0] != IdKey(cfg, entries[j])[0];
    }
    DistinctCardinality(IdKeys(cfg, entries));
    var t := TableOf(cfg, [key], f);
    assert |t.rows| == |t.rows.Keys|;
    forall i | 0 <= i < |entries|
      ensures IdKey(cfg, entries[i]) in t.rows
      ensures Get(t.rows[IdKey(cfg, entries[i])], Canon(cfg, value)) == NormalCell(cfg, kind, entries[i].value)
    {
      LookupAt(rows, i);
      assert IdKeys(cfg, entries)[i] in ToSet(IdKeys(cfg, entries));
    }
  }

  // ----- comparing two of them

  /** The two column names, and the kinds of the second column on the two sides. */
  datatype Shape = Shape(key: string, value: string, source: Kind, target: Kind)

  /** One id on both sides with its two cells, and the further rows of either side. */
  datatype Case = Case(id: string, x: Cell, y: Cell, left: seq<Entry>, right: seq<Entry>) {
    function Lefts(): seq<Entry> { [Entry(id, x)] + left }

    function Rights(): seq<Entry> { [Entry(id, y)] + right }

    /** Without the further rows. */
    function Alone(): Case { Case(id, x, y, [], []) }
  }

  /** The two columns are told apart, and the second one is what is compared. */
  ghost predicate Names(cfg: Config, p: Shape) {
    && p.key != p.value && Canon(cfg, p.key) != Canon(cfg, p.value)
    && (cfg.compareColumns.Some? ==>
          CanonSet(cfg, cfg.compareColumns.value) - {Canon(cfg, p.key)} == {Canon(cfg, p.value)})
  }

  /** The two sides' further rows have ids of their own. */
  ghost predicate Strangers(cfg: Config, id: string, left: seq<Entry>, right: seq<Entry>) {
    && (forall i :: 0 <= i < |left| ==> NormalText(cfg, left[i].id) != NormalText(cfg, id))
    && (forall j :: 0 <= j < |right| ==> NormalText(cfg, right[j].id) != NormalText(cfg, id))
    && forall i, j :: 0 <= i < |left| && 0 <= j < |right| ==>
       NormalText(cfg, left[i].id) != NormalText(cfg, right[j].id)
  }

  ghost predicate Suits(cfg: Config, p: Shape, c: Case) {
    && AllFit(p.source, c.Lefts()) && AllFit(p.target, c.Rights())
    && DistinctIds(cfg, c.Lefts()) && DistinctIds(cfg, c.Rights())
    && Strangers(cfg, c.id, c.left, c.right)
  }

  function SourceFrame(p: Shape, c: Case): Frame
    requires p.key != p.value && AllFit(p.source, c.Lefts())
  {
    TwoColumns(p.key, p.value, p.source, c.Lefts())
  }

  function TargetFrame(p: Shape, c: Case): Frame
    requires p.key != p.value && AllFit(p.target, c.Rights())
  {
    TwoColumns(p.key, p.value, p.target, c.Rights())
  }

  lemma TwoCanonicalNames(cfg: Config, key: string, value: string)
    ensures CanonSet(cfg, [key, value]) == {Canon(cfg, key), Canon(cfg, value)}
    ensures CanonSet(cfg, [key]) == {Canon(cfg, key)}
  {
    assert CanonAll(cfg, [key, value]) == [Canon(cfg, key), Canon(cfg, value)];
    assert CanonAll(cfg, [key]) == [Canon(cfg, key)];
  }

  lemma OneOfTwo(k: string, v: string, both: set<string>)
    requires k != v && both == {k, v}
    ensures both * both - {k} == {v} && {k} <= both * both && {v} <= both * both
  {
  }

  lemma ValueIsCompared(cfg: Config, p: Shape, s: Frame, t: Frame, both: set<string>)
    requires Names(cfg, p) && CanonSet(cfg, s.columns) == both == CanonSet(cfg, t.columns)
    requires both == {Canon(cfg, p.key), Canon(cfg, p.value)} && CanonSet(cfg, [p.key]) == {Canon(cfg, p.key)}
    ensures ComparedColumns(cfg, [p.key], s, t) == {Canon(cfg, p.value)}
  {
    OneOfTwo(Canon(cfg, p.key), Canon(cfg, p.value), both);
  }

  lemma AcceptableWhen(cfg: Config, keys: seq<string>, s: Frame, t: Frame, k: set<string>, v: set<string>,
                       both: set<string>)
    requires Unambiguous(cfg, s) && Unambiguous(cfg, t)
    requires CanonSet(cfg, s.columns) == both == CanonSet(cfg, t.columns)
    requires CanonSet(cfg, keys) == k && ComparedColumns(cfg, keys, s, t) == v && k <= both * both && v <= both * both
    requires |TableOf(cfg, keys, s).rows| == |s.rows| && |TableOf(cfg, keys, t).rows| == |t.rows|
    ensures Acceptable(keys, cfg, s, t)
  {
  }

  lemma OnlyTheValueIsCompared(cfg: Config, p: Shape, s: Frame, t: Frame)
    requires Names(cfg, p) && s.columns == [p.key, p.value] == t.columns && Unambiguous(cfg, s) && Unambiguous(cfg, t)
    requires |TableOf(cfg, [p.key], s).rows| == |s.rows| && |TableOf(cfg, [p.key], t).rows| == |t.rows|
    ensures Acceptable([p.key], cfg, s, t) && ComparedColumns(cfg, [p.key], s, t) == {Canon(cfg, p.value)}
  {
    TwoCanonicalNames(cfg, p.key, p.value);
    var both := CanonSet(cfg, s.columns);
    ValueIsCompared(cfg, p, s, t, both);
    OneOfTwo(Canon(cfg, p.key), Canon(cfg, p.value), both);
    AcceptableWhen(cfg, [p.key], s, t, {Canon(cfg, p.key)}, {Canon(cfg, p.value)}, both);
  }

  lemma CaseAccepted(cfg: Config, p: Shape, c: Case)
    requires Names(cfg, p) && Suits(cfg, p, c)
    ensures var s, t := SourceFrame(p, c), TargetFrame(p, c);
            && Unambiguous(cfg, s) && Unambiguous(cfg, t)
            && Acceptable([p.key], cfg, s, t)
            && ComparedColumns(cfg, [p.key], s, t) == {Canon(cfg, p.value)}
  {
    TwoColumnsUnambiguous(cfg, p.key, p.value, p.source, c.Lefts());
    TwoColumnsUnambiguous(cfg, p.key, p.value, p.target, c.Rights());
    TwoColumnsTable(cfg, p.key, p.value, p.source, c.Lefts());
    TwoColumnsTable(cfg, p.key, p.value, p.target, c.Rights());
    OnlyTheValueIsCompared(cfg, p, SourceFrame(p, c), TargetFrame(p, c));
  }

  lemma KeyListed(cfg: Config, entries: seq<Entry>, e: Entry)
    ensures IdKey(cfg, e) in ToSet(IdKeys(cfg, entries)) <==>
              exists i :: 0 <= i < |entries| && NormalText(cfg, entries[i].id) == NormalText(cfg, e.id)
  {
    if IdKey(cfg, e) in IdKeys(cfg, entries) {
      var i :| 0 <= i < |entries| && IdKeys(cfg, entries)[i] == IdKey(cfg, e);
      assert IdKey(cfg, entries[i])[0] == IdKey(cfg, e)[0];
    }
    if i :| 0 <= i < |entries| && NormalText(cfg, entries[i].id) == NormalText(cfg, e.id) {
      assert IdKeys(cfg, entries)[i] == IdKey(cfg, e);
    }
  }

  lemma StrangerKey(cfg: Config, c: Case, i: nat)
    requires Strangers(cfg, c.id, c.left, c.right) && i < |c.left|
    ensures IdKey(cfg, c.left[i]) in ToSet(IdKeys(cfg, c.Lefts()))
    ensures IdKey(cfg, c.left[i]) !in ToSet(IdKeys(cfg, c.Rights()))
  {
    var ls, rs := c.Lefts(), c.Rights();
    assert ls[i + 1] == c.left[i];
    KeyListed(cfg, ls, c.left[i]);
    KeyListed(cfg, rs, c.left[i]);
    assert forall j :: 0 < j < |rs| ==> rs[j] == c.right[j - 1];
  }

  lemma OnlyTheFirst(ks: seq<Key>, others: set<Key>, k: Key)
    requires ks != [] && forall i :: 0 < i < |ks| ==> ks[i] !in others
    ensures k in ToSet(ks) && k in others ==> k == ks[0]
  {
  }

  lemma SharedKeyIs(cfg: Config, c: Case, k: Key)
    requires Strangers(cfg, c.id, c.left, c.right)
    ensures k in ToSet(IdKeys(cfg, c.Lefts())) && k in ToSet(IdKeys(cfg, c.Rights())) <==>
            k == IdKey(cfg, Entry(c.id, c.x))
  {
    var ls, rs := c.Lefts(), c.Rights();
    forall i | 0 < i < |ls|
      ensures IdKeys(cfg, ls)[i] !in ToSet(IdKeys(cfg, rs))
    {
      StrangerKey(cfg, c, i - 1);
    }
    OnlyTheFirst(IdKeys(cfg, ls), ToSet(IdKeys(cfg, rs)), k);
    assert ls[0].id == c.id && rs[0].id == c.id;
    KeyListed(cfg, ls, Entry(c.id, c.x));
    KeyListed(cfg, rs, Entry(c.id, c.x));
  }

  function Mirrored(c: Case): Case { Case(c.id, c.y, c.x, c.right, c.left) }

  lemma AloneInSet(cfg: Config, e: Entry, s: set<Key>, t: set<Key>)
    requires s == ToSet(IdKeys(cfg, [e] + [])) && IdKey(cfg, e) in t
    ensures s - t == {}
  {
    assert IdKeys(cfg, [e] + []) == [IdKey(cfg, e)];
  }

  /** A side has a key of its own exactly when it has a stranger. */
  lemma OwnKeys(cfg: Config, c: Case)
    requires Strangers(cfg, c.id, c.left, c.right)
    ensures ToSet(IdKeys(cfg, c.Lefts())) - ToSet(IdKeys(cfg, c.Rights())) != {} <==> c.left != []
  {
    var s, t := ToSet(IdKeys(cfg, c.Lefts())), ToSet(IdKeys(cfg, c.Rights()));
    SharedKeyIs(cfg, c, IdKey(cfg, Entry(c.id, c.x)));
    if c.left != [] {
      StrangerKey(cfg, c, 0);
      assert IdKey(cfg, c.left[0]) in s - t;
    } else {
      AloneInSet(cfg, Entry(c.id, c.x), s, t);
    }
  }

  lemma KeySets(cfg: Config, c: Case)
    requires Strangers(cfg, c.id, c.left, c.right)
    ensures var k := IdKey(cfg, Entry(c.id, c.x));
            var s, t := ToSet(IdKeys(cfg, c.Lefts())), ToSet(IdKeys(cfg, c.Rights()));
            && k in s && k in t && (forall j :: j in s && j in t ==> j == k)
            && (s - t != {} <==> c.left != []) && (t - s != {} <==> c.right != [])
  {
    forall k
      ensures k in ToSet(IdKeys(cfg, c.Lefts())) && k in ToSet(IdKeys(cfg, c.Rights())) <==>
              k == IdKey(cfg, Entry(c.id, c.x))
    {
      SharedKeyIs(cfg, c, k);
    }
    OwnKeys(cfg, c);
    OwnKeys(cfg, Mirrored(c));
  }

  /** The two prepared cells are equal in columns of the kinds the merge leaves. */
  predicate CellsMeet(cfg: Config, p: Shape, c: Case) {
    CellsEqual(cfg, AfterMerge(p.source, c.right != []), AfterMerge(p.target, c.left != []),
               NormalCell(cfg, p.source, c.x), NormalCell(cfg, p.target, c.y))
  }

  /**
   One key on both sides and strangers beside it: the key matches exactly when its two cells are equal
   in columns of the kinds the merge leaves, which depend on whether there are strangers.
   */
  lemma OneSharedKey(cfg: Config, p: Shape, c: Case)
    requires Names(cfg, p) && Suits(cfg, p, c)
    ensures var s, t := SourceFrame(p, c), TargetFrame(p, c);
            && Ready(cfg, Some(s), Some(t))
            && var r := Compared([p.key], cfg, Some(s), Some(t));
            && r.Ok?
            && r.value.summary.rowsMatched == (if CellsMeet(cfg, p, c) then 1 else 0)
            && r.value.summary.rowsMismatched == (if CellsMeet(cfg, p, c) then 0 else 1)
            && r.value.summary.rowsMissingInTarget == |c.left| && r.value.summary.rowsExtraInTarget == |c.right|
  {
    CaseAccepted(cfg, p, c);
    CompareRefinesReference([p.key], cfg, SourceFrame(p, c), TargetFrame(p, c));
    OneSharedFate(cfg, p, c);
  }

  lemma OneSharedFate(cfg: Config, p: Shape, c: Case)
    requires Names(cfg, p) && Suits(cfg, p, c)
    requires Unambiguous(cfg, SourceFrame(p, c)) && Unambiguous(cfg, TargetFrame(p, c))
    ensures var s, t := TableOf(cfg, [p.key], SourceFrame(p, c)), TableOf(cfg, [p.key], TargetFrame(p, c));
            FateCounts(Reconcile(cfg, {Canon(cfg, p.value)}, s, t), CellsMeet(cfg, p, c), c)
  {
    TwoColumnsTable(cfg, p.key, p.value, p.source, c.Lefts());
    TwoColumnsTable(cfg, p.key, p.value, p.target, c.Rights());
    TwoColumnsKinds(cfg, p.key, p.value, p.source, c.Lefts());
    TwoColumnsKinds(cfg, p.key, p.value, p.target, c.Rights());
    KeySets(cfg, c);
    assert c.Lefts()[0] == Entry(c.id, c.x) && c.Rights()[0] == Entry(c.id, c.y);
    CountsFromTables(cfg, p, c, TableOf(cfg, [p.key], SourceFrame(p, c)), TableOf(cfg, [p.key], TargetFrame(p, c)));
  }

  ghost predicate FateCounts(f: Fates, equal: bool, c: Case) {
    && |f.matched| == (if equal then 1 else 0) && |f.mismatched| == (if equal then 0 else 1)
    && |f.missing| == |c.left| && |f.extra| == |c.right|
  }

  /** The two tables share one key, under which they hold the two cells, and have their strangers besides. */
  ghost predicate ShareOne(cfg: Config, p: Shape, c: Case, s: Table, t: Table) {
    var k, v := IdKey(cfg, Entry(c.id, c.x)), Canon(cfg, p.value);
    && k in s.rows && k in t.rows && (forall j :: j in s.rows && j in t.rows ==> j == k)
    && Get(s.rows[k], v) == NormalCell(cfg, p.source, c.x) && Get(t.rows[k], v) == NormalCell(cfg, p.target, c.y)
    && KindOf(s.kinds, v) == p.source && KindOf(t.kinds, v) == p.target
    && (s.rows.Keys - t.rows.Keys != {} <==> c.left != []) && (t.rows.Keys - s.rows.Keys != {} <==> c.right != [])
  }

  lemma CountsFromTables(cfg: Config, p: Shape, c: Case, s: Table, t: Table)
    requires ShareOne(cfg, p, c, s, t) && |s.rows| == |c.left| + 1 && |t.rows| == |c.right| + 1
    ensures FateCounts(Reconcile(cfg, {Canon(cfg, p.value)}, s, t), CellsMeet(cfg, p, c), c)
  {
    OneSharedRow(cfg, p, c, s, t);
    FatesPartition(cfg, {Canon(cfg, p.value)}, s, t);
    var f := Reconcile(cfg, {Canon(cfg, p.value)}, s, t);
    SplitSizes(f.matched, f.mismatched, IdKey(cfg, Entry(c.id, c.x)), CellsMeet(cfg, p, c));
  }

  lemma SplitSizes(matched: set<Key>, mismatched: set<Key>, k: Key, equal: bool)
    requires matched == (if equal then {k} else {}) && mismatched == (if equal then {} else {k})
    ensures |matched| == (if equal then 1 else 0) && |mismatched| == (if equal then 0 else 1)
  {
  }

  lemma OneSharedRow(cfg: Config, p: Shape, c: Case, s: Table, t: Table)
    requires ShareOne(cfg, p, c, s, t)
    ensures var f, k := Reconcile(cfg, {Canon(cfg, p.value)}, s, t), IdKey(cfg, Entry(c.id, c.x));
            && f.matched == (if CellsMeet(cfg, p, c) then {k} else {})
            && f.mismatched == (if CellsMeet(cfg, p, c) then {} else {k})
  {
    var k, v := IdKey(cfg, Entry(c.id, c.x)), Canon(cfg, p.value);
    KindMerged(s.kinds, map[v := p.source], v, v, c.right != []);
    KindMerged(t.kinds, map[v := p.target], v, v, c.left != []);
    assert Agree(cfg, {v}, s, t, k) <==> CellsMeet(cfg, p, c);
  }
}
