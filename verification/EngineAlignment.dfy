/** Aligned column names, compared columns and prepared sides, each against the key-by-key account. */
module EngineAlignment {
  import opened Wrappers
  import opened Sequences
  import opened Frames
  import opened ComparisonEngine
  import opened ColumnMatching
  import opened EngineReference
  import opened EngineRefinement
  import opened EngineFates
  import Text

  // ----- alignment identifies columns by their canonical names

  function AlignedNames(cfg: Config, source: Frame, names: seq<string>): seq<string> {
    if cfg.caseInsensitiveColumns then SpelledAll(LastSpelling(source.columns), names) else names
  }

  lemma AlignedCanon(cfg: Config, source: Frame, names: seq<string>)
    ensures CanonAll(cfg, AlignedNames(cfg, source, names)) == CanonAll(cfg, names)
  {
    forall i | 0 <= i < |names|
      ensures Canon(cfg, AlignedNames(cfg, source, names)[i]) == Canon(cfg, names[i])
    {
      SpellingFolds(source.columns, names[i]);
    }
  }

  /** The target's column names as the shared `align_to_source` rewrites them. */
  function AlignedToSource(source: seq<string>, target: seq<string>): seq<string> {
    SpelledAll(FirstSpelling(source), target)
  }

  /**
   The shared helper and the engine rename every target alike exactly when no two source columns differ
   only by case.
   */
  lemma AlignmentsAgree(source: Frame)
    ensures CollisionFree(source.columns) <==>
              forall target :: AlignedToSource(source.columns, target) ==
                SpelledAll(LastSpelling(source.columns), target)
  {
    var columns := source.columns;
    SpellingsAgree(columns);
    if !CollisionFree(columns) {
      var i, j :| 0 <= i < j < |columns| && Text.Fold(columns[i]) == Text.Fold(columns[j]);
      var first := FirstSpellingMeaning(columns, Text.Fold(columns[i]));
      var last := LastSpellingMeaning(columns, Text.Fold(columns[i]));
      assert first <= i < j <= last;
      var target := [columns[i]];
      assert AlignedToSource(columns, target)[0] == columns[first];
      assert SpelledAll(LastSpelling(columns), target)[0] == columns[last];
    }
  }

  lemma DistinctFromCanon(cfg: Config, names: seq<string>)
    requires Distinct(CanonAll(cfg, names))
    ensures Distinct(names)
  {
    forall i, j | 0 <= i < j < |names|
      ensures names[i] != names[j]
    {
      assert CanonAll(cfg, names)[i] != CanonAll(cfg, names)[j];
    }
  }

  lemma UnambiguousIsReady(cfg: Config, source: Frame, target: Frame)
    requires Unambiguous(cfg, target)
    ensures Ready(cfg, Some(source), Some(target))
  {
    if cfg.caseInsensitiveColumns {
      forall i, j | 0 <= i < j < |target.columns|
        ensures Text.Fold(target.columns[i]) != Text.Fold(target.columns[j])
      {
        assert CanonAll(cfg, target.columns)[i] != CanonAll(cfg, target.columns)[j];
      }
      SpellingIsInjective(source.columns, target.columns);
    }
  }

  lemma AlignedTargetIs(cfg: Config, source: Frame, target: Frame)
    requires Unambiguous(cfg, target)
    ensures Ready(cfg, Some(source), Some(target))
    ensures Respelled(cfg, target, AlignedNames(cfg, source, target.columns))
    ensures AlignedTarget(cfg, Some(source), Some(target)) ==
            Some(Renamed(target, AlignedNames(cfg, source, target.columns)))
  {
    UnambiguousIsReady(cfg, source, target);
    AlignedCanon(cfg, source, target.columns);
    DistinctFromCanon(cfg, AlignedNames(cfg, source, target.columns));
    RenamedToItself(target);
  }

  lemma CanonMember(cfg: Config, names: seq<string>, n: string)
    requires n in names
    ensures Canon(cfg, n) in CanonSet(cfg, names)
  {
    var i :| 0 <= i < |names| && names[i] == n;
    assert CanonAll(cfg, names)[i] == Canon(cfg, n);
  }

  lemma CanonWitness(cfg: Config, names: seq<string>, f: string) returns (i: nat)
    requires f in CanonSet(cfg, names)
    ensures i < |names| && Canon(cfg, names[i]) == f
  {
    i :| 0 <= i < |names| && CanonAll(cfg, names)[i] == f;
  }

  /** An aligned name is a source column exactly when some column is identified with it. */
  lemma AlignedInSource(cfg: Config, source: Frame, n: string)
    ensures AlignedNames(cfg, source, [n])[0] in source.columns <==> Canon(cfg, n) in CanonSet(cfg, source.columns)
  {
    var n' := AlignedNames(cfg, source, [n])[0];
    SpellingFolds(source.columns, n);
    if n' in source.columns {
      CanonMember(cfg, source.columns, n');
    }
    if Canon(cfg, n) in CanonSet(cfg, source.columns) {
      var i := CanonWitness(cfg, source.columns, Canon(cfg, n));
      var j := LastSpellingMeaning(source.columns, Text.Fold(n));
    }
  }

  /** A source column is among the aligned target names exactly when the target has a column identified with it. */
  lemma AlignedInTarget(cfg: Config, source: Frame, target: Frame, c: string)
    requires Unambiguous(cfg, source) && c in source.columns
    ensures c in AlignedNames(cfg, source, target.columns) <==> Canon(cfg, c) in CanonSet(cfg, target.columns)
  {
    var names := AlignedNames(cfg, source, target.columns);
    AlignedCanon(cfg, source, target.columns);
    if c in names {
      CanonMember(cfg, names, c);
    }
    if Canon(cfg, c) in CanonSet(cfg, target.columns) {
      var i := CanonWitness(cfg, target.columns, Canon(cfg, c));
      if cfg.caseInsensitiveColumns {
        var j := LastSpellingMeaning(source.columns, Text.Fold(c));
        var k :| 0 <= k < |source.columns| && source.columns[k] == c;
        assert CanonAll(cfg, source.columns)[j] == CanonAll(cfg, source.columns)[k];
        assert names[i] == c;
      }
    }
  }

  lemma SameColumn(cfg: Config, source: Frame, a: string, b: string)
    requires Unambiguous(cfg, source) && a in source.columns && b in source.columns
    requires Canon(cfg, a) == Canon(cfg, b)
    ensures a == b
  {
    var i :| 0 <= i < |source.columns| && source.columns[i] == a;
    var j :| 0 <= j < |source.columns| && source.columns[j] == b;
    assert CanonAll(cfg, source.columns)[i] == CanonAll(cfg, source.columns)[j];
  }

  ghost predicate Known(cfg: Config, source: Frame, target: Frame, names: seq<string>) {
    forall n :: n in names ==> n in source.columns && n in AlignedNames(cfg, source, target.columns)
  }

  /** Aligned names are columns of both aligned frames exactly when both frames identify them. */
  lemma AlignedKnown(cfg: Config, source: Frame, target: Frame, names: seq<string>)
    requires Unambiguous(cfg, source)
    ensures Known(cfg, source, target, AlignedNames(cfg, source, names)) <==>
            CanonSet(cfg, names) <= CanonSet(cfg, source.columns) * CanonSet(cfg, target.columns)
  {
    var aligned := AlignedNames(cfg, source, names);
    forall i | 0 <= i < |names|
      ensures Canon(cfg, names[i]) in CanonSet(cfg, names)
      ensures aligned[i] in source.columns <==> Canon(cfg, names[i]) in CanonSet(cfg, source.columns)
      ensures aligned[i] in source.columns ==>
                (aligned[i] in AlignedNames(cfg, source, target.columns) <==>
                 Canon(cfg, names[i]) in CanonSet(cfg, target.columns))
    {
      CanonMember(cfg, names, names[i]);
      assert AlignedNames(cfg, source, [names[i]])[0] == aligned[i];
      AlignedInSource(cfg, source, names[i]);
      if aligned[i] in source.columns {
        AlignedInTarget(cfg, source, target, aligned[i]);
        SpellingFolds(source.columns, names[i]);
      }
    }
    if CanonSet(cfg, names) <= CanonSet(cfg, source.columns) * CanonSet(cfg, target.columns) {
      forall n | n in aligned
        ensures n in source.columns && n in AlignedNames(cfg, source, target.columns)
      {
        var i :| 0 <= i < |aligned| && aligned[i] == n;
      }
    }
    if Known(cfg, source, target, aligned) {
      forall f | f in CanonSet(cfg, names)
        ensures f in CanonSet(cfg, source.columns) && f in CanonSet(cfg, target.columns)
      {
        var i := CanonWitness(cfg, names, f);
        assert aligned[i] in aligned;
      }
    }
  }

  // ----- the compared columns

  /** A column is compared unless it is a key; identified by canonical name, that is the same test. */
  lemma NotAKey(cfg: Config, source: Frame, keys: seq<string>, c: string)
    requires Unambiguous(cfg, source) && c in source.columns
    requires forall k :: k in keys ==> k in source.columns
    ensures c in keys <==> Canon(cfg, c) in CanonSet(cfg, keys)
  {
    if c in keys {
      CanonMember(cfg, keys, c);
    }
    if Canon(cfg, c) in CanonSet(cfg, keys) {
      var i := CanonWitness(cfg, keys, Canon(cfg, c));
      assert keys[i] in keys;
      SameColumn(cfg, source, c, keys[i]);
    }
  }

  lemma AlignedTwice(cfg: Config, source: Frame, names: seq<string>, some: seq<string>)
    requires forall n :: n in some ==> n in AlignedNames(cfg, source, names)
    ensures AlignedNames(cfg, source, some) == some
  {
    forall i | 0 <= i < |some|
      ensures AlignedNames(cfg, source, some)[i] == some[i]
    {
      assert some[i] in some;
      var j :| 0 <= j < |names| && AlignedNames(cfg, source, names)[j] == some[i];
      SpellingFolds(source.columns, names[j]);
    }
  }

  lemma AlignedNotAKey(cfg: Config, source: Frame, keys: seq<string>, c: string)
    requires Unambiguous(cfg, source) && AlignedNames(cfg, source, [c]) == [c]
    requires forall k :: k in keys ==> k in source.columns
    ensures c in keys <==> Canon(cfg, c) in CanonSet(cfg, keys)
  {
    AlignedInSource(cfg, source, c);
    if c in source.columns {
      NotAKey(cfg, source, keys, c);
    } else if Canon(cfg, c) in CanonSet(cfg, keys) {
      var i := CanonWitness(cfg, keys, Canon(cfg, c));
      assert keys[i] in keys;
      CanonMember(cfg, source.columns, keys[i]);
    }
  }

  lemma CanonPush(cfg: Config, xs: seq<string>, x: string)
    ensures CanonAll(cfg, xs + [x]) == CanonAll(cfg, xs) + [Canon(cfg, x)]
  {
  }

  /** Choosing among names is choosing among canonical names when the choice depends on those alone. */
  lemma {:induction false} CanonFiltered(cfg: Config, xs: seq<string>, p: string -> bool, q: string -> bool)
    requires forall x :: x in xs ==> (p(x) <==> q(Canon(cfg, x)))
    ensures CanonAll(cfg, Filter(xs, p)) == Filter(CanonAll(cfg, xs), q)
  {
    if xs != [] {
      var front, last := xs[..|xs| - 1], xs[|xs| - 1];
      WholeIsFrontAndLast(xs);
      CanonFiltered(cfg, front, p, q);
      CanonPush(cfg, front, last);
      CanonPush(cfg, Filter(front, p), last);
      FilterPush(front, last, p);
      FilterPush(CanonAll(cfg, front), Canon(cfg, last), q);
      NothingAdded(Filter(front, p));
      NothingAdded(Filter(CanonAll(cfg, front), q));
    }
  }

  /** The columns asked for, keys left out, are the reference's columns in the reference's order. */
  lemma AskedColumns(cfg: Config, source: Frame, keys: seq<string>, asked: seq<string>)
    requires Unambiguous(cfg, source)
    requires forall k :: k in keys ==> k in source.columns
    ensures CanonAll(cfg, Filter(AlignedNames(cfg, source, asked), c => c !in keys)) ==
            Without(CanonAll(cfg, asked), CanonSet(cfg, keys))
  {
    var aligned := AlignedNames(cfg, source, asked);
    AlignedCanon(cfg, source, asked);
    forall c | c in aligned
      ensures c in keys <==> Canon(cfg, c) in CanonSet(cfg, keys)
    {
      AlignedTwice(cfg, source, asked, [c]);
      AlignedNotAKey(cfg, source, keys, c);
    }
    var excluded := CanonSet(cfg, keys);
    CanonFiltered(cfg, aligned, c => c !in keys, n => n !in excluded);
  }

  /** The columns both frames have, keys left out, are the reference's columns in the source's order. */
  lemma SharedColumns(cfg: Config, source: Frame, target: Frame, keys: seq<string>)
    requires Unambiguous(cfg, source) && Unambiguous(cfg, target)
    requires forall k :: k in keys ==> k in source.columns
    ensures var names := AlignedNames(cfg, source, target.columns);
            CanonAll(cfg, Filter(source.columns, c => c in names && c !in keys)) ==
            Without(Within(CanonAll(cfg, source.columns), CanonSet(cfg, target.columns)), CanonSet(cfg, keys))
  {
    var names := AlignedNames(cfg, source, target.columns);
    forall c | c in source.columns
      ensures c in names <==> Canon(cfg, c) in CanonSet(cfg, target.columns)
      ensures c in keys <==> Canon(cfg, c) in CanonSet(cfg, keys)
    {
      AlignedInTarget(cfg, source, target, c);
      NotAKey(cfg, source, keys, c);
    }
    var allowed, excluded := CanonSet(cfg, target.columns), CanonSet(cfg, keys);
    CanonFiltered(cfg, source.columns, c => c in names && c !in keys, n => n in allowed && n !in excluded);
    FilterBoth(CanonAll(cfg, source.columns), n => n in allowed, n => n !in excluded,
               n => n in allowed && n !in excluded);
  }

  ghost predicate ColumnsFound(cfg: Config, keys: seq<string>, source: Frame, target: Frame) {
    cfg.compareColumns.Some? ==>
      ComparedColumns(cfg, keys, source, target) <= CanonSet(cfg, source.columns) * CanonSet(cfg, target.columns)
  }

  lemma AlignedFields(keys: seq<string>, cfg: Config, source: Frame, target: Frame)
    ensures AlignedKeys(keys, cfg, Some(source), Some(target)) == AlignedNames(cfg, source, keys)
    ensures SameFlags(cfg, AlignedConfig(cfg, Some(source), Some(target)))
    ensures cfg.compareColumns.None? ==> AlignedConfig(cfg, Some(source), Some(target)).compareColumns.None?
    ensures cfg.compareColumns.Some? ==>
              AlignedConfig(cfg, Some(source), Some(target)).compareColumns ==
              Some(AlignedNames(cfg, source, cfg.compareColumns.value))
  {
  }

  /** Column resolution succeeds exactly when both frames have the columns, and finds the reference's, in order. */
  lemma ColumnsResolved(keys: seq<string>, cfg: Config, source: Frame, target: Frame)
    requires Unambiguous(cfg, source) && Unambiguous(cfg, target)
    requires Known(cfg, source, target, AlignedNames(cfg, source, keys))
    ensures var r := ResolveCompareColumns(AlignedNames(cfg, source, keys),
                                           AlignedConfig(cfg, Some(source), Some(target)),
                                           source.columns, AlignedNames(cfg, source, target.columns));
            && (r.Ok? <==> ColumnsFound(cfg, keys, source, target))
            && (r.Ok? ==> CanonAll(cfg, r.value) == ComparedOrder(cfg, keys, source, target) &&
                          Known(cfg, source, target, r.value))
  {
    var keys' := AlignedNames(cfg, source, keys);
    AlignedFields(keys, cfg, source, target);
    AlignedCanon(cfg, source, keys);
    OrderListsColumns(cfg, keys, source, target);
    match cfg.compareColumns
    case Some(asked) =>
      var columns := Filter(AlignedNames(cfg, source, asked), c => c !in keys');
      AskedColumns(cfg, source, keys', asked);
      AlignedTwice(cfg, source, asked, columns);
      AlignedKnown(cfg, source, target, columns);
    case None =>
      SharedColumns(cfg, source, target, keys');
  }

  // ----- one prepared side against its table

  function EngineSide(cfg: Config, keys: seq<string>, f: Frame): Prepared {
    Prepared(f.columns, f.kinds, KeepFirst(EngineRows(cfg, keys, f)))
  }

  lemma SideRows(cfg: Config, cfg': Config, keys: seq<string>, keys': seq<string>, f: Frame, names: seq<string>)
    requires SameFlags(cfg, cfg') && Unambiguous(cfg, f) && Respelled(cfg, f, names)
    requires CanonAll(cfg, keys') == CanonAll(cfg, keys) && forall k :: k in keys' ==> k in names
    ensures var p, t := EngineSide(cfg', keys', Renamed(f, names)), TableOf(cfg, keys, f);
            && DistinctRows(p.rows) && KeySet(p.rows) == t.rows.Keys && |p.rows| == |t.rows|
            && (forall k :: k in t.rows ==>
                 Lookup(p.rows, k).Some? && Linked(cfg, names, Lookup(p.rows, k).value, t.rows[k]))
  {
    var rows, canonical := EngineRows(cfg', keys', Renamed(f, names)), CanonRows(cfg, keys, f);
    SideLinked(cfg, cfg', keys, keys', f, names);
    KeepFirstKeys(rows);
    assert Keys(rows) == Keys(canonical);
    DistinctCardinality(Keys(KeepFirst(rows)));
    assert KeySet(KeepFirst(rows)) == KeySet(canonical);
    var t := TableOf(cfg, keys, f);
    assert |t.rows| == |t.rows.Keys|;
    forall k | k in t.rows
      ensures Lookup(KeepFirst(rows), k).Some? && Linked(cfg, names, Lookup(KeepFirst(rows), k).value, t.rows[k])
    {
      KeepFirstLookup(rows, k);
      LookupLinked(cfg, names, rows, canonical, k);
    }
  }

  lemma SideKinds(cfg: Config, f: Frame, names: seq<string>, columns: seq<string>)
    requires Unambiguous(cfg, f) && Respelled(cfg, f, names) && forall c :: c in columns ==> c in names
    ensures forall i :: 0 <= i < |columns| ==>
              KindOf(Renamed(f, names).kinds, columns[i]) ==
              KindOf(Renamed(f, CanonAll(cfg, f.columns)).kinds, Canon(cfg, columns[i]))
  {
    forall i | 0 <= i < |columns|
      ensures KindOf(Renamed(f, names).kinds, columns[i]) ==
              KindOf(Renamed(f, CanonAll(cfg, f.columns)).kinds, Canon(cfg, columns[i]))
    {
      assert columns[i] in names;
      var j :| 0 <= j < |names| && names[j] == columns[i];
      RenamedKind(f, names, j);
      RenamedKind(f, CanonAll(cfg, f.columns), j);
      assert CanonAll(cfg, names)[j] == CanonAll(cfg, f.columns)[j];
    }
  }

  lemma RowsLinkedOn(cfg: Config, names: seq<string>, columns: seq<string>, p: Prepared, t: Table)
    requires forall c :: c in columns ==> c in names
    requires forall k :: k in t.rows ==>
               Lookup(p.rows, k).Some? && Linked(cfg, names, Lookup(p.rows, k).value, t.rows[k])
    ensures forall k :: k in t.rows ==> LinkedOn(cfg, columns, Lookup(p.rows, k).value, t.rows[k])
  {
    forall k | k in t.rows
      ensures LinkedOn(cfg, columns, Lookup(p.rows, k).value, t.rows[k])
    {
      assert forall i :: 0 <= i < |columns| ==> columns[i] in names;
    }
  }

  lemma SideHolds(cfg: Config, cfg': Config, keys: seq<string>, keys': seq<string>, f: Frame, names: seq<string>,
                  columns: seq<string>)
    requires SameFlags(cfg, cfg') && Unambiguous(cfg, f) && Respelled(cfg, f, names)
    requires CanonAll(cfg, keys') == CanonAll(cfg, keys) && forall k :: k in keys' ==> k in names
    requires forall c :: c in columns ==> c in names
    ensures SideAgrees(cfg, columns, EngineSide(cfg', keys', Renamed(f, names)), TableOf(cfg, keys, f))
  {
    var p, t := EngineSide(cfg', keys', Renamed(f, names)), TableOf(cfg, keys, f);
    SideRows(cfg, cfg', keys, keys', f, names);
    RowsLinkedOn(cfg, names, columns, p, t);
    SideKinds(cfg, f, names, columns);
  }
}
