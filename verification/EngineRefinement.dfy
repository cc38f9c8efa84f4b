/** The vectorised engine refines the key-by-key account. */
module EngineRefinement {
  import opened Wrappers
  import opened Sequences
  import opened Frames
  import opened ComparisonEngine
  import opened EngineReference

  // ----- rows of a renamed frame

  lemma PositionOf(columns: seq<string>, j: nat)
    requires j < |columns| && Distinct(columns)
    ensures Position(columns, columns[j]) == j
  {
  }

  lemma RenamedGet(f: Frame, names: seq<string>, i: nat, j: nat)
    requires |names| == |f.columns| && Distinct(names) && i < |f.rows| && j < |names|
    ensures Get(Renamed(f, names).rows[i], names[j]) == Get(f.rows[i], f.columns[j])
    ensures names[j] in Renamed(f, names).rows[i]
    ensures KindOf(Renamed(f, names).kinds, names[j]) == KindOf(f.kinds, f.columns[j])
  {
    PositionOf(names, j);
    assert f.rows[i] in f.rows;
    assert RowFits(f.kinds, f.rows[i]);
    assert f.columns[j] in f.columns;
  }

  lemma RenamedKind(f: Frame, names: seq<string>, j: nat)
    requires |names| == |f.columns| && Distinct(names) && j < |names|
    ensures KindOf(Renamed(f, names).kinds, names[j]) == KindOf(f.kinds, f.columns[j])
  {
    PositionOf(names, j);
    assert f.columns[j] in f.columns;
  }

  lemma RenameRowToItself(r: Row, columns: seq<string>)
    requires forall c :: c in columns <==> c in r
    ensures RenameRow(r, columns, columns) == r
  {
  }

  lemma RenameKindsToThemselves(kinds: map<string, Kind>, columns: seq<string>)
    requires forall c :: c in columns <==> c in kinds
    ensures RenameKinds(kinds, columns, columns) == kinds
  {
  }

  /** Renaming every column to itself changes nothing. */
  lemma RenamedToItself(f: Frame)
    ensures Renamed(f, f.columns) == f
  {
    var g := Renamed(f, f.columns);
    RenameKindsToThemselves(f.kinds, f.columns);
    forall i | 0 <= i < |f.rows|
      ensures g.rows[i] == f.rows[i]
    {
      assert f.rows[i] in f.rows;
      assert RowFits(f.kinds, f.rows[i]);
      RenameRowToItself(f.rows[i], f.columns);
    }
    assert g.rows == f.rows;
  }

  // ----- one side, engine against reference

  /** Two configurations that differ at most in which columns are compared and how names are matched. */
  ghost predicate SameFlags(cfg: Config, cfg': Config) {
    cfg'.(compareColumns := None, caseInsensitiveColumns := false) ==
      cfg.(compareColumns := None, caseInsensitiveColumns := false)
  }

  /** The frame's columns under other names that identify the same columns. */
  ghost predicate Respelled(cfg: Config, f: Frame, names: seq<string>) {
    |names| == |f.columns| && Distinct(names) && CanonAll(cfg, names) == CanonAll(cfg, f.columns)
  }

  /** A row holds, under each of its names, what the canonical row holds under the canonical name. */
  ghost predicate Linked(cfg: Config, names: seq<string>, a: Row, c: Row) {
    forall n :: n in names ==> Get(a, n) == Get(c, Canon(cfg, n))
  }

  lemma NormalGet(cfg: Config, kinds: map<string, Kind>, r: Row, n: string)
    requires n in r ==> n in kinds
    ensures Get(NormalRow(cfg, kinds, r), n) == NormalCell(cfg, KindOf(kinds, n), Get(r, n))
  {
  }

  lemma NormalCellFlags(cfg: Config, cfg': Config, k: Kind, c: Cell)
    requires SameFlags(cfg, cfg')
    ensures NormalCell(cfg', k, c) == NormalCell(cfg, k, c)
  {
  }

  lemma RowKeysAreKinds(f: Frame, i: nat, n: string)
    requires i < |f.rows|
    ensures n in f.rows[i] <==> n in f.kinds
  {
    assert f.rows[i] in f.rows;
    assert RowFits(f.kinds, f.rows[i]);
  }

  lemma CellLinked(cfg: Config, cfg': Config, f: Frame, names: seq<string>, i: nat, j: nat)
    requires SameFlags(cfg, cfg') && Unambiguous(cfg, f) && Respelled(cfg, f, names)
    requires i < |f.rows| && j < |names|
    ensures var a, g := Renamed(f, names), Renamed(f, CanonAll(cfg, f.columns));
            Get(NormalRow(cfg', a.kinds, a.rows[i]), names[j]) ==
              Get(NormalRow(cfg, g.kinds, g.rows[i]), Canon(cfg, names[j]))
  {
    var canonical := CanonAll(cfg, f.columns);
    var a, g := Renamed(f, names), Renamed(f, canonical);
    assert Canon(cfg, names[j]) == CanonAll(cfg, names)[j] == canonical[j];
    RenamedGet(f, names, i, j);
    RenamedGet(f, canonical, i, j);
    RowKeysAreKinds(a, i, names[j]);
    RowKeysAreKinds(g, i, canonical[j]);
    NormalGet(cfg', a.kinds, a.rows[i], names[j]);
    NormalGet(cfg, g.kinds, g.rows[i], canonical[j]);
    NormalCellFlags(cfg, cfg', KindOf(a.kinds, names[j]), Get(a.rows[i], names[j]));
  }

  lemma RowLinked(cfg: Config, cfg': Config, f: Frame, names: seq<string>, i: nat)
    requires SameFlags(cfg, cfg') && Unambiguous(cfg, f) && Respelled(cfg, f, names) && i < |f.rows|
    ensures var a, g := Renamed(f, names), Renamed(f, CanonAll(cfg, f.columns));
            Linked(cfg, names, NormalRow(cfg', a.kinds, a.rows[i]), NormalRow(cfg, g.kinds, g.rows[i]))
  {
    forall n | n in names
      ensures var a, g := Renamed(f, names), Renamed(f, CanonAll(cfg, f.columns));
              Get(NormalRow(cfg', a.kinds, a.rows[i]), n) == Get(NormalRow(cfg, g.kinds, g.rows[i]), Canon(cfg, n))
    {
      var j :| 0 <= j < |names| && names[j] == n;
      CellLinked(cfg, cfg', f, names, i, j);
    }
  }

  lemma KeyLinked(cfg: Config, names: seq<string>, a: Row, c: Row, keys: seq<string>, keys': seq<string>)
    requires Linked(cfg, names, a, c) && CanonAll(cfg, keys') == CanonAll(cfg, keys)
    requires forall k :: k in keys' ==> k in names
    ensures KeyOf(a, keys') == KeyOf(c, CanonAll(cfg, keys))
  {
    assert |keys'| == |CanonAll(cfg, keys')| == |keys|;
    forall i | 0 <= i < |keys|
      ensures Get(a, keys'[i]) == Get(c, CanonAll(cfg, keys)[i])
    {
      assert keys'[i] in keys';
      assert CanonAll(cfg, keys')[i] == Canon(cfg, keys'[i]);
    }
  }

  function EngineRows(cfg: Config, keys: seq<string>, f: Frame): seq<Keyed<Row>> {
    KeyedRows(NormalRows(cfg, f.kinds, f.rows), keys)
  }

  ghost predicate RowsLinked(cfg: Config, names: seq<string>, e: seq<Keyed<Row>>, c: seq<Keyed<Row>>) {
    && |e| == |c|
    && (forall i :: 0 <= i < |e| ==> e[i].key == c[i].key)
    && (forall i :: 0 <= i < |e| ==> Linked(cfg, names, e[i].value, c[i].value))
  }

  /** The engine's rows of one side are the reference's rows, under the aligned names. */
  lemma SideLinked(cfg: Config, cfg': Config, keys: seq<string>, keys': seq<string>, f: Frame, names: seq<string>)
    requires SameFlags(cfg, cfg') && Unambiguous(cfg, f) && Respelled(cfg, f, names)
    requires CanonAll(cfg, keys') == CanonAll(cfg, keys) && forall k :: k in keys' ==> k in names
    ensures RowsLinked(cfg, names, EngineRows(cfg', keys', Renamed(f, names)), CanonRows(cfg, keys, f))
  {
    forall i | 0 <= i < |f.rows|
      ensures var a, g := Renamed(f, names), Renamed(f, CanonAll(cfg, f.columns));
              var x, y := NormalRow(cfg', a.kinds, a.rows[i]), NormalRow(cfg, g.kinds, g.rows[i]);
              Linked(cfg, names, x, y) && KeyOf(x, keys') == KeyOf(y, CanonAll(cfg, keys))
    {
      var a, g := Renamed(f, names), Renamed(f, CanonAll(cfg, f.columns));
      RowLinked(cfg, cfg', f, names, i);
      KeyLinked(cfg, names, NormalRow(cfg', a.kinds, a.rows[i]), NormalRow(cfg, g.kinds, g.rows[i]), keys, keys');
    }
  }

  lemma {:induction false} LookupLinked(cfg: Config, names: seq<string>, e: seq<Keyed<Row>>, c: seq<Keyed<Row>>, k: Key)
    requires RowsLinked(cfg, names, e, c)
    ensures Lookup(e, k).Some? <==> Lookup(c, k).Some?
    ensures Lookup(e, k).Some? ==> Linked(cfg, names, Lookup(e, k).value, Lookup(c, k).value)
  {
    if e != [] {
      assert RowsLinked(cfg, names, e[1..], c[1..]) by {
        forall i | 0 <= i < |e| - 1
          ensures e[1..][i] == e[i + 1] && c[1..][i] == c[i + 1]
        {
        }
      }
      LookupLinked(cfg, names, e[1..], c[1..], k);
    }
  }

  // ----- preparing a side

  /** Preparation keeps the first row of each key, and refuses only unknown keys and unwanted duplicates. */
  lemma PrepareMeaning(f: Frame, side: Side, keys: seq<string>, cfg: Config)
    ensures var rows := EngineRows(cfg, keys, f);
            var r := Prepare(Some(f), side, keys, cfg);
            && (r.Ok? <==> (forall k :: k in keys ==> k in f.columns) &&
                           (cfg.dropDuplicateKeys || |KeepFirst(rows)| == |rows|))
            && (r.Ok? ==> r.value == Prepared(f.columns, f.kinds, KeepFirst(rows)))
  {
    var rows := EngineRows(cfg, keys, f);
    KeepFirstIsSelect(rows);
    if CountTrue(Duplicated(rows)) == 0 {
      NothingMarked(rows, Duplicated(rows));
    }
  }

  // ----- the outer merge

  ghost predicate KeyDetermines(pairs: seq<Pair>) {
    forall i, j :: 0 <= i < j < |pairs| ==> pairs[i].key != pairs[j].key
  }

  ghost predicate DistinctJoined(joined: seq<Joined<Row, Row>>) {
    forall i, j :: 0 <= i < j < |joined| ==> joined[i].key != joined[j].key
  }

  ghost predicate PairFrom(p: Pair, j: Joined<Row, Row>) {
    j.right.Some? && p == Pair(j.key, j.left, j.right.value)
  }

  ghost predicate KeyedFrom(r: Keyed<Row>, j: Joined<Row, Row>) {
    j.right.None? && r == Keyed(j.key, j.left)
  }

  lemma {:induction false} BothMeaning(joined: seq<Joined<Row, Row>>)
    requires DistinctJoined(joined)
    ensures forall p :: p in Both(joined) ==> exists i :: 0 <= i < |joined| && PairFrom(p, joined[i])
    ensures forall i :: 0 <= i < |joined| && joined[i].right.Some? ==>
              Pair(joined[i].key, joined[i].left, joined[i].right.value) in Both(joined)
    ensures KeyDetermines(Both(joined))
  {
    if joined != [] {
      var front := joined[..|joined| - 1];
      BothMeaning(front);
      var pairs := Both(front);
      forall i | 0 <= i < |pairs|
        ensures pairs[i].key != joined[|joined| - 1].key
      {
        assert pairs[i] in pairs;
        var j :| 0 <= j < |front| && PairFrom(pairs[i], front[j]);
        assert front[j] == joined[j];
      }
    }
  }

  lemma {:induction false} LeftOnlyMeaning(joined: seq<Joined<Row, Row>>)
    requires DistinctJoined(joined)
    ensures forall r :: r in LeftOnly(joined) ==> exists i :: 0 <= i < |joined| && KeyedFrom(r, joined[i])
    ensures forall i :: 0 <= i < |joined| && joined[i].right.None? ==>
              Keyed(joined[i].key, joined[i].left) in LeftOnly(joined)
    ensures Distinct(Keys(LeftOnly(joined)))
  {
    if joined != [] {
      var front := joined[..|joined| - 1];
      LeftOnlyMeaning(front);
      var rows := LeftOnly(front);
      forall i | 0 <= i < |rows|
        ensures rows[i].key != joined[|joined| - 1].key
      {
        assert rows[i] in rows;
        var j :| 0 <= j < |front| && KeyedFrom(rows[i], front[j]);
        assert front[j] == joined[j];
      }
    }
  }

  ghost predicate DistinctRows(rows: seq<Keyed<Row>>) { Distinct(Keys(rows)) }

  lemma JoinedAre(source: seq<Keyed<Row>>, target: seq<Keyed<Row>>)
    requires DistinctRows(source) && DistinctRows(target)
    ensures var joined := LeftJoin(source, target);
            && |joined| == |source|
            && (forall i :: 0 <= i < |source| ==>
                 joined[i] == Joined(source[i].key, source[i].value, Lookup(target, source[i].key)))
            && DistinctJoined(joined)
  {
    LeftJoinUnique(source, target);
    forall i, j | 0 <= i < j < |source|
      ensures source[i].key != source[j].key
    {
      assert Keys(source)[i] != Keys(source)[j];
    }
  }

  lemma KeyAt(rows: seq<Keyed<Row>>, k: Key) returns (i: nat)
    requires k in Keys(rows)
    ensures i < |rows| && rows[i].key == k
  {
    i :| 0 <= i < |rows| && Keys(rows)[i] == k;
  }

  /** The inner part of the merge: one pair per shared key, each side's own row in it. */
  lemma BothAre(source: seq<Keyed<Row>>, target: seq<Keyed<Row>>)
    requires DistinctRows(source) && DistinctRows(target)
    ensures var both := Both(LeftJoin(source, target));
            && KeyDetermines(both)
            && (forall p :: p in both ==>
                 Lookup(source, p.key) == Some(p.source) && Lookup(target, p.key) == Some(p.target))
            && (forall k :: k in Keys(source) && k in Keys(target) ==> exists p :: p in both && p.key == k)
  {
    var joined := LeftJoin(source, target);
    JoinedAre(source, target);
    BothMeaning(joined);
    forall p | p in Both(joined)
      ensures Lookup(source, p.key) == Some(p.source) && Lookup(target, p.key) == Some(p.target)
    {
      var i :| 0 <= i < |joined| && PairFrom(p, joined[i]);
      LookupAt(source, i);
    }
    forall k | k in Keys(source) && k in Keys(target)
      ensures exists p :: p in Both(joined) && p.key == k
    {
      var i := KeyAt(source, k);
      LookupFound(target, k);
      assert Pair(joined[i].key, joined[i].left, joined[i].right.value) in Both(joined);
    }
  }

  /** The left-only part: exactly the source rows whose key the target lacks. */
  lemma LeftOnlyAre(source: seq<Keyed<Row>>, target: seq<Keyed<Row>>)
    requires DistinctRows(source) && DistinctRows(target)
    ensures var rows := LeftOnly(LeftJoin(source, target));
            && DistinctRows(rows)
            && (forall r :: r in rows ==> Lookup(source, r.key) == Some(r.value) && Lookup(target, r.key).None?)
            && (forall k :: k in Keys(source) && k !in Keys(target) ==> exists r :: r in rows && r.key == k)
  {
    var joined := LeftJoin(source, target);
    JoinedAre(source, target);
    LeftOnlyMeaning(joined);
    forall r | r in LeftOnly(joined)
      ensures Lookup(source, r.key) == Some(r.value) && Lookup(target, r.key).None?
    {
      var i :| 0 <= i < |joined| && KeyedFrom(r, joined[i]);
      LookupAt(source, i);
    }
    forall k | k in Keys(source) && k !in Keys(target)
      ensures exists r :: r in LeftOnly(joined) && r.key == k
    {
      var i := KeyAt(source, k);
      LookupFound(target, k);
      assert Keyed(joined[i].key, joined[i].left) in LeftOnly(joined);
    }
  }

  lemma {:induction false} FilterKeepsDistinctKeys(rows: seq<Keyed<Row>>, p: Keyed<Row> -> bool)
    requires DistinctRows(rows)
    ensures DistinctRows(Filter(rows, p))
  {
    if rows != [] {
      var front, last := rows[..|rows| - 1], rows[|rows| - 1];
      assert rows == front + [last];
      assert Keys(front) == Keys(rows)[..|front|];
      FilterKeepsDistinctKeys(front, p);
      var kept := Filter(front, p);
      forall i | 0 <= i < |kept|
        ensures kept[i].key != last.key
      {
        assert kept[i] in kept;
        var j :| 0 <= j < |front| && front[j] == kept[i];
        assert Keys(rows)[j] != Keys(rows)[|front|];
      }
    }
  }

  /** The right-only part: exactly the target rows whose key the source lacks. */
  lemma RightOnlyAre(source: seq<Keyed<Row>>, target: seq<Keyed<Row>>)
    requires DistinctRows(source) && DistinctRows(target)
    ensures var rows := RightOnly(source, target);
            && DistinctRows(rows)
            && (forall r :: r in rows ==> Lookup(target, r.key) == Some(r.value) && Lookup(source, r.key).None?)
            && (forall k :: k in Keys(target) && k !in Keys(source) ==> exists r :: r in rows && r.key == k)
  {
    var taken := Keys(source);
    var rows := RightOnly(source, target);
    FilterKeepsDistinctKeys(target, (r: Keyed<Row>) => r.key !in taken);
    forall r | r in rows
      ensures Lookup(target, r.key) == Some(r.value) && Lookup(source, r.key).None?
    {
      var i :| 0 <= i < |target| && target[i] == r;
      LookupAt(target, i);
      LookupFound(source, r.key);
    }
    forall k | k in Keys(target) && k !in Keys(source)
      ensures exists r :: r in rows && r.key == k
    {
      var i := KeyAt(target, k);
      assert target[i] in rows;
    }
  }
}
