/** Matching column names regardless of case: the shared helper's map and the engine's own. */
module ColumnMatching {
  import opened Sequences
  import opened Text

  /** The shared helper's map: on a collision the first spelling wins. */
  function FirstSpelling(columns: seq<string>): map<string, string> {
    if columns == [] then map[]
    else
      var last := columns[|columns| - 1];
      var before := FirstSpelling(columns[..|columns| - 1]);
      if Fold(last) in before then before else before[Fold(last) := last]
  }

  /** The engine's map: on a collision the last spelling wins. */
  function LastSpelling(columns: seq<string>): map<string, string> {
    if columns == [] then map[]
    else
      var last := columns[|columns| - 1];
      LastSpelling(columns[..|columns| - 1])[Fold(last) := last]
  }

  ghost predicate CollisionFree(columns: seq<string>) {
    forall i, j :: 0 <= i < j < |columns| ==> Fold(columns[i]) != Fold(columns[j])
  }

  /** The loop of `canonical_map`. */
  method CanonicalMap(columns: seq<string>) returns (mapping: map<string, string>)
    ensures mapping == FirstSpelling(columns)
  {
    mapping := map[];
    var i := 0;
    while i < |columns|
      invariant 0 <= i <= |columns| && mapping == FirstSpelling(columns[..i])
    {
      assert columns[..i + 1][..i] == columns[..i];
      if Fold(columns[i]) !in mapping {
        mapping := mapping[Fold(columns[i]) := columns[i]];
      }
      i := i + 1;
    }
    assert columns[..i] == columns;
  }

  ghost predicate IsFirst(columns: seq<string>, i: int, k: string) {
    0 <= i < |columns| && Fold(columns[i]) == k && forall j :: 0 <= j < i ==> Fold(columns[j]) != k
  }

  ghost predicate IsLast(columns: seq<string>, i: int, k: string) {
    0 <= i < |columns| && Fold(columns[i]) == k && forall j :: i < j < |columns| ==> Fold(columns[j]) != k
  }

  /** The left-most column with this folded name, or none when no column has it. */
  lemma {:induction false} FirstSpellingMeaning(columns: seq<string>, k: string) returns (i: int)
    ensures k in FirstSpelling(columns) ==> IsFirst(columns, i, k) && FirstSpelling(columns)[k] == columns[i]
    ensures k !in FirstSpelling(columns) ==> forall j :: 0 <= j < |columns| ==> Fold(columns[j]) != k
  {
    if columns == [] {
      i := 0;
    } else {
      var front := columns[..|columns| - 1];
      i := FirstSpellingMeaning(front, k);
      if k !in FirstSpelling(front) {
        i := |columns| - 1;
        forall j | 0 <= j < |columns| - 1
          ensures Fold(columns[j]) != k
        {
          assert columns[j] == front[j];
        }
      }
    }
  }

  /** The right-most column with this folded name, or none when no column has it. */
  lemma {:induction false} LastSpellingMeaning(columns: seq<string>, k: string) returns (i: int)
    ensures k in LastSpelling(columns) ==> IsLast(columns, i, k) && LastSpelling(columns)[k] == columns[i]
    ensures k !in LastSpelling(columns) ==> forall j :: 0 <= j < |columns| ==> Fold(columns[j]) != k
  {
    if columns == [] {
      i := 0;
    } else {
      var front := columns[..|columns| - 1];
      i := LastSpellingMeaning(front, k);
      if Fold(columns[|columns| - 1]) == k {
        i := |columns| - 1;
      } else {
        forall j | 0 <= j < |columns| - 1
          ensures columns[j] == front[j]
        {
        }
      }
    }
  }

  lemma SpellingsAgreeAt(columns: seq<string>, k: string)
    requires Distinct(columns) && CollisionFree(columns)
    ensures k in FirstSpelling(columns) <==> k in LastSpelling(columns)
    ensures k in FirstSpelling(columns) ==> FirstSpelling(columns)[k] == LastSpelling(columns)[k]
  {
    var i := FirstSpellingMeaning(columns, k);
    var j := LastSpellingMeaning(columns, k);
  }

  /** The two maps agree exactly on frames without two columns that differ only by case. */
  lemma SpellingsAgree(columns: seq<string>)
    requires Distinct(columns)
    ensures FirstSpelling(columns) == LastSpelling(columns) <==> CollisionFree(columns)
  {
    if CollisionFree(columns) {
      forall k
        ensures k in FirstSpelling(columns) <==> k in LastSpelling(columns)
        ensures k in FirstSpelling(columns) ==> FirstSpelling(columns)[k] == LastSpelling(columns)[k]
      {
        SpellingsAgreeAt(columns, k);
      }
    } else {
      var i, j :| 0 <= i < j < |columns| && Fold(columns[i]) == Fold(columns[j]);
      var a := FirstSpellingMeaning(columns, Fold(columns[i]));
      var b := LastSpellingMeaning(columns, Fold(columns[i]));
      assert a <= i < j <= b;
    }
  }

  function Resolved(names: seq<string>, mapping: map<string, string>): seq<string> {
    if names == [] then []
    else
      var last := names[|names| - 1];
      Resolved(names[..|names| - 1], mapping) + if Fold(last) in mapping then [mapping[Fold(last)]] else []
  }

  function Unresolved(names: seq<string>, mapping: map<string, string>): seq<string> {
    if names == [] then []
    else
      var last := names[|names| - 1];
      Unresolved(names[..|names| - 1], mapping) + if Fold(last) in mapping then [] else [last]
  }

  /** Actual spellings for the names that match, and the names as typed for those that do not. */
  method ResolveAll(names: seq<string>, columns: seq<string>) returns (resolved: seq<string>, missing: seq<string>)
    ensures resolved == Resolved(names, FirstSpelling(columns))
    ensures missing == Unresolved(names, FirstSpelling(columns))
  {
    var mapping := CanonicalMap(columns);
    resolved, missing := [], [];
    var i := 0;
    while i < |names|
      invariant 0 <= i <= |names|
      invariant resolved == Resolved(names[..i], mapping) && missing == Unresolved(names[..i], mapping)
    {
      assert names[..i + 1][..i] == names[..i];
      if Fold(names[i]) in mapping {
        resolved := resolved + [mapping[Fold(names[i])]];
      } else {
        missing := missing + [names[i]];
      }
      i := i + 1;
    }
    assert names[..i] == names;
  }

  /** With nothing missing, each name has become the first column that equals it up to case. */
  lemma {:induction false} ResolvedMeaning(names: seq<string>, columns: seq<string>)
    requires Unresolved(names, FirstSpelling(columns)) == []
    ensures var resolved := Resolved(names, FirstSpelling(columns));
            |resolved| == |names| &&
            forall i :: 0 <= i < |names| ==> resolved[i] in columns && Fold(resolved[i]) == Fold(names[i])
  {
    if names != [] {
      var i := FirstSpellingMeaning(columns, Fold(names[|names| - 1]));
      ResolvedMeaning(names[..|names| - 1], columns);
    }
  }

  ghost predicate HasName(columns: seq<string>, name: string) {
    exists j :: 0 <= j < |columns| && Fold(columns[j]) == Fold(name)
  }

  /** The left-most column that equals the name up to case. */
  ghost predicate IsColumnFor(columns: seq<string>, name: string, c: string) {
    exists j :: IsFirst(columns, j, Fold(name)) && columns[j] == c
  }

  ghost predicate AllNamed(columns: seq<string>, names: seq<string>) {
    forall n :: n in names ==> HasName(columns, n)
  }

  ghost predicate AreColumnsFor(columns: seq<string>, names: seq<string>, cs: seq<string>) {
    |cs| == |names| && forall i :: 0 <= i < |names| ==> IsColumnFor(columns, names[i], cs[i])
  }

  lemma NamedIsMapped(columns: seq<string>, name: string)
    ensures Fold(name) in FirstSpelling(columns) <==> HasName(columns, name)
    ensures HasName(columns, name) ==> IsColumnFor(columns, name, FirstSpelling(columns)[Fold(name)])
  {
    var i := FirstSpellingMeaning(columns, Fold(name));
  }

  /** The names that are missing are those no column equals up to case, as typed and in order. */
  lemma {:induction false} UnresolvedAre(names: seq<string>, columns: seq<string>)
    ensures Unresolved(names, FirstSpelling(columns)) == Filter(names, n => !HasName(columns, n))
    ensures Unresolved(names, FirstSpelling(columns)) == [] <==> AllNamed(columns, names)
  {
    if names != [] {
      UnresolvedAre(names[..|names| - 1], columns);
      NamedIsMapped(columns, names[|names| - 1]);
      WholeIsFrontAndLast(names);
    }
  }

  /** With none missing, every name has become the left-most column that equals it up to case. */
  lemma {:induction false} ResolvedAre(names: seq<string>, columns: seq<string>)
    requires AllNamed(columns, names)
    ensures AreColumnsFor(columns, names, Resolved(names, FirstSpelling(columns)))
  {
    if names != [] {
      WholeIsFrontAndLast(names);
      ResolvedAre(names[..|names| - 1], columns);
      NamedIsMapped(columns, names[|names| - 1]);
    }
  }

  /** There is only one such list. */
  lemma ColumnsForAreUnique(columns: seq<string>, names: seq<string>, cs: seq<string>, ds: seq<string>)
    requires AreColumnsFor(columns, names, cs) && AreColumnsFor(columns, names, ds)
    ensures cs == ds
  {
    forall i | 0 <= i < |names|
      ensures cs[i] == ds[i]
    {
      var j :| IsFirst(columns, j, Fold(names[i])) && columns[j] == cs[i];
      var k :| IsFirst(columns, k, Fold(names[i])) && columns[k] == ds[i];
      assert j == k;
    }
  }
}
