/** The groups of rows the merge yields are the fates of the key-by-key account. */
module EngineFates {
  import opened Wrappers
  import opened Sequences
  import opened Frames
  import opened ComparisonEngine
  import opened EngineReference
  import opened EngineRefinement

  // ----- from agreeing sides to agreeing fates

  /** A prepared side and a reference table hold the same rows, cell for cell in the compared columns. */
  ghost predicate SideAgrees(cfg: Config, columns: seq<string>, p: Prepared, t: Table) {
    && DistinctRows(p.rows)
    && KeySet(p.rows) == t.rows.Keys
    && (forall k :: k in t.rows ==>
         Lookup(p.rows, k).Some? && LinkedOn(cfg, columns, Lookup(p.rows, k).value, t.rows[k]))
    && (forall i :: 0 <= i < |columns| ==> KindOf(p.kinds, columns[i]) == KindOf(t.kinds, Canon(cfg, columns[i])))
  }

  ghost predicate LinkedOn(cfg: Config, columns: seq<string>, a: Row, c: Row) {
    forall i :: 0 <= i < |columns| ==> Get(a, columns[i]) == Get(c, Canon(cfg, columns[i]))
  }

  ghost function PairKeys(pairs: seq<Pair>): (ks: seq<Key>)
    ensures |ks| == |pairs| && forall i :: 0 <= i < |pairs| ==> ks[i] == pairs[i].key
  {
    Map(pairs, (p: Pair) => p.key)
  }

  lemma KindMerged(kinds: map<string, Kind>, kinds': map<string, Kind>, c: string, c': string, gains: bool)
    requires KindOf(kinds, c) == KindOf(kinds', c')
    ensures KindOf(KindsAfterMerge(kinds, gains), c) == KindOf(KindsAfterMerge(kinds', gains), c')
  {
  }

  lemma CellsEqualFlags(cfg: Config, cfg': Config, a: Kind, b: Kind, x: Cell, y: Cell)
    requires SameFlags(cfg, cfg')
    ensures CellsEqual(cfg', a, b, x, y) == CellsEqual(cfg, a, b, x, y)
  {
  }

  ghost predicate Paired(cfg: Config, columns: seq<string>, p: Pair, s: Row, t: Row, kinds: KindPair,
                         kinds': KindPair)
  {
    && LinkedOn(cfg, columns, p.source, s) && LinkedOn(cfg, columns, p.target, t)
    && forall i :: 0 <= i < |columns| ==>
         KindOf(kinds.source, columns[i]) == KindOf(kinds'.source, Canon(cfg, columns[i])) &&
         KindOf(kinds.target, columns[i]) == KindOf(kinds'.target, Canon(cfg, columns[i]))
  }

  /** Column by column over the list, or name by name over the set: the same verdict. */
  lemma RowVerdict(cfg: Config, cfg': Config, columns: seq<string>, p: Pair, s: Row, t: Row, kinds: KindPair,
                   kinds': KindPair)
    requires SameFlags(cfg, cfg') && Paired(cfg, columns, p, s, t, kinds, kinds')
    ensures RowEqual(cfg', kinds, columns, p) <==>
            RowsAgree(cfg, CanonSet(cfg, columns), kinds', s, t)
  {
    forall i | 0 <= i < |columns|
      ensures ColumnEqual(cfg', kinds, columns[i], p) ==
              var f := Canon(cfg, columns[i]);
              CellsEqual(cfg, KindOf(kinds'.source, f), KindOf(kinds'.target, f), Get(s, f), Get(t, f))
      ensures Canon(cfg, columns[i]) in CanonSet(cfg, columns)
    {
      var f := Canon(cfg, columns[i]);
      CellsEqualFlags(cfg, cfg', KindOf(kinds'.source, f), KindOf(kinds'.target, f), Get(s, f), Get(t, f));
      assert CanonAll(cfg, columns)[i] == f;
    }
    forall f | f in CanonSet(cfg, columns)
      ensures exists i :: 0 <= i < |columns| && Canon(cfg, columns[i]) == f
    {
      var i :| 0 <= i < |columns| && CanonAll(cfg, columns)[i] == f;
      assert Canon(cfg, columns[i]) == f;
    }
    if RowEqual(cfg', kinds, columns, p) {
      forall f | f in CanonSet(cfg, columns)
        ensures CellsEqual(cfg, KindOf(kinds'.source, f), KindOf(kinds'.target, f), Get(s, f), Get(t, f))
      {
        var i :| 0 <= i < |columns| && Canon(cfg, columns[i]) == f;
      }
    }
  }

  lemma SidesOnly(src: Prepared, tgt: Prepared, s: Table, t: Table)
    requires DistinctRows(src.rows) && DistinctRows(tgt.rows)
    requires KeySet(src.rows) == s.rows.Keys && KeySet(tgt.rows) == t.rows.Keys
    ensures var m := OuterMerge(src, tgt);
            && KeySet(m.leftOnly) == s.rows.Keys - t.rows.Keys && |m.leftOnly| == |s.rows.Keys - t.rows.Keys|
            && KeySet(m.rightOnly) == t.rows.Keys - s.rows.Keys && |m.rightOnly| == |t.rows.Keys - s.rows.Keys|
  {
    var m := OuterMerge(src, tgt);
    LeftOnlyAre(src.rows, tgt.rows);
    RightOnlyAre(src.rows, tgt.rows);
    OnlyKeys(m.leftOnly, src.rows, tgt.rows);
    OnlyKeys(m.rightOnly, tgt.rows, src.rows);
    DistinctCardinality(Keys(m.leftOnly));
    DistinctCardinality(Keys(m.rightOnly));
  }

  lemma OnlyKeys(only: seq<Keyed<Row>>, mine: seq<Keyed<Row>>, other: seq<Keyed<Row>>)
    requires forall r :: r in only ==> Lookup(mine, r.key) == Some(r.value) && Lookup(other, r.key).None?
    requires forall k :: k in Keys(mine) && k !in Keys(other) ==> exists r :: r in only && r.key == k
    ensures KeySet(only) == KeySet(mine) - KeySet(other)
  {
    forall k
      ensures k in Keys(only) <==> k in Keys(mine) && k !in Keys(other)
    {
      LookupFound(mine, k);
      LookupFound(other, k);
      if k in Keys(only) {
        var i := KeyAt(only, k);
        assert only[i] in only;
      }
      if k in Keys(mine) && k !in Keys(other) {
        var r :| r in only && r.key == k;
        var i :| 0 <= i < |only| && only[i] == r;
        assert Keys(only)[i] == k;
      }
    }
  }

  /** The merged columns have the kinds the reference gives them. */
  lemma MergedKinds(cfg: Config, columns: seq<string>, src: Prepared, tgt: Prepared, s: Table, t: Table)
    requires SideAgrees(cfg, columns, src, s) && SideAgrees(cfg, columns, tgt, t)
    ensures var m := OuterMerge(src, tgt);
            forall i :: 0 <= i < |columns| ==>
              KindOf(m.kinds.source, columns[i]) == KindOf(TableKinds(s, t).source, Canon(cfg, columns[i])) &&
              KindOf(m.kinds.target, columns[i]) == KindOf(TableKinds(s, t).target, Canon(cfg, columns[i]))
  {
    var m := OuterMerge(src, tgt);
    SidesOnly(src, tgt, s, t);
    EmptyKeys(m.leftOnly);
    EmptyKeys(m.rightOnly);
    forall i | 0 <= i < |columns|
      ensures KindOf(m.kinds.source, columns[i]) == KindOf(TableKinds(s, t).source, Canon(cfg, columns[i]))
      ensures KindOf(m.kinds.target, columns[i]) == KindOf(TableKinds(s, t).target, Canon(cfg, columns[i]))
    {
      KindMerged(src.kinds, s.kinds, columns[i], Canon(cfg, columns[i]), m.rightOnly != []);
      KindMerged(tgt.kinds, t.kinds, columns[i], Canon(cfg, columns[i]), m.leftOnly != []);
    }
  }

  /** A merged pair holds the two tables' rows of its key. */
  lemma PairIsPaired(cfg: Config, columns: seq<string>, src: Prepared, tgt: Prepared, s: Table, t: Table, p: Pair)
    requires SideAgrees(cfg, columns, src, s) && SideAgrees(cfg, columns, tgt, t)
    requires p in OuterMerge(src, tgt).both
    ensures p.key in s.rows && p.key in t.rows
    ensures var m := OuterMerge(src, tgt);
            Paired(cfg, columns, p, s.rows[p.key], t.rows[p.key], m.kinds, TableKinds(s, t))
  {
    BothAre(src.rows, tgt.rows);
    LookupFound(src.rows, p.key);
    LookupFound(tgt.rows, p.key);
    MergedKinds(cfg, columns, src, tgt, s, t);
  }

  lemma PairVerdict(cfg: Config, cfg': Config, columns: seq<string>, src: Prepared, tgt: Prepared, s: Table, t: Table,
                    p: Pair)
    requires SameFlags(cfg, cfg') && SideAgrees(cfg, columns, src, s) && SideAgrees(cfg, columns, tgt, t)
    requires p in OuterMerge(src, tgt).both
    ensures p.key in s.rows && p.key in t.rows
    ensures var m := OuterMerge(src, tgt);
            RowEqual(cfg', m.kinds, columns, p) <==> Agree(cfg, CanonSet(cfg, columns), s, t, p.key)
  {
    var m := OuterMerge(src, tgt);
    PairIsPaired(cfg, columns, src, tgt, s, t, p);
    RowVerdict(cfg, cfg', columns, p, s.rows[p.key], t.rows[p.key], m.kinds, TableKinds(s, t));
  }

  lemma EmptyKeys(rows: seq<Keyed<Row>>)
    ensures KeySet(rows) == {} <==> rows == []
  {
    if rows != [] {
      assert Keys(rows)[0] in KeySet(rows);
    }
  }

  lemma FilteredPairKeys(pairs: seq<Pair>, p: Pair -> bool)
    requires KeyDetermines(pairs)
    ensures Distinct(PairKeys(Filter(pairs, p)))
  {
    assert Distinct(pairs);
    FilterKeepsDistinct(pairs, p);
    var kept := Filter(pairs, p);
    forall i, j | 0 <= i < j < |kept|
      ensures kept[i].key != kept[j].key
    {
      assert kept[i] in kept && kept[j] in kept;
      var a :| 0 <= a < |pairs| && pairs[a] == kept[i];
      var b :| 0 <= b < |pairs| && pairs[b] == kept[j];
      assert a != b;
    }
  }

  lemma KeyOfSomePair(pairs: seq<Pair>, k: Key)
    ensures k in PairKeys(pairs) <==> exists p :: p in pairs && p.key == k
  {
    if k in PairKeys(pairs) {
      var i :| 0 <= i < |pairs| && PairKeys(pairs)[i] == k;
      assert pairs[i] in pairs;
    }
    if p :| p in pairs && p.key == k {
      var i :| 0 <= i < |pairs| && pairs[i] == p;
      assert PairKeys(pairs)[i] == k;
    }
  }

  /** The keys of a filtered inner merge are the shared keys the filter stands for. */
  lemma PairKeySet(src: Prepared, tgt: Prepared, p: Pair -> bool, chosen: set<Key>)
    requires DistinctRows(src.rows) && DistinctRows(tgt.rows)
    requires forall q :: q in OuterMerge(src, tgt).both ==> (p(q) <==> q.key in chosen)
    requires forall k :: k in chosen ==> k in Keys(src.rows) && k in Keys(tgt.rows)
    ensures ToSet(PairKeys(Filter(OuterMerge(src, tgt).both, p))) == chosen
    ensures |Filter(OuterMerge(src, tgt).both, p)| == |chosen|
  {
    var both := OuterMerge(src, tgt).both;
    var kept := Filter(both, p);
    BothAre(src.rows, tgt.rows);
    FilteredPairKeys(both, p);
    forall k
      ensures k in PairKeys(kept) <==> k in chosen
    {
      KeyOfSomePair(kept, k);
      if k in chosen {
        var q :| q in both && q.key == k;
        assert q in kept;
      }
    }
    DistinctCardinality(PairKeys(kept));
  }

  /** The engine's four groups of rows have exactly the keys of the reference's four fates. */
  ghost predicate GroupsAre(cfg': Config, columns: seq<string>, m: Merged, f: Fates) {
    && ToSet(PairKeys(Matching(cfg', m, columns))) == f.matched && |Matching(cfg', m, columns)| == |f.matched|
    && ToSet(PairKeys(Mismatching(cfg', m, columns))) == f.mismatched
       && |Mismatching(cfg', m, columns)| == |f.mismatched|
    && KeySet(m.leftOnly) == f.missing && |m.leftOnly| == |f.missing|
    && KeySet(m.rightOnly) == f.extra && |m.rightOnly| == |f.extra|
  }

  lemma GroupsRefineFates(cfg: Config, cfg': Config, columns: seq<string>, src: Prepared, tgt: Prepared, s: Table,
                          t: Table)
    requires SameFlags(cfg, cfg') && SideAgrees(cfg, columns, src, s) && SideAgrees(cfg, columns, tgt, t)
    ensures GroupsAre(cfg', columns, OuterMerge(src, tgt), Reconcile(cfg, CanonSet(cfg, columns), s, t))
  {
    var m := OuterMerge(src, tgt);
    var f := Reconcile(cfg, CanonSet(cfg, columns), s, t);
    forall p | p in m.both
      ensures p.key in s.rows && p.key in t.rows
      ensures RowEqual(cfg', m.kinds, columns, p) <==> Agree(cfg, CanonSet(cfg, columns), s, t, p.key)
    {
      PairVerdict(cfg, cfg', columns, src, tgt, s, t, p);
    }
    assert forall k :: k in KeySet(src.rows) <==> k in Keys(src.rows);
    assert forall k :: k in KeySet(tgt.rows) <==> k in Keys(tgt.rows);
    PairKeySet(src, tgt, p => RowEqual(cfg', m.kinds, columns, p), f.matched);
    PairKeySet(src, tgt, p => !RowEqual(cfg', m.kinds, columns, p), f.mismatched);
    SidesOnly(src, tgt, s, t);
  }
}
