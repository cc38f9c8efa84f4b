/** Orphan detection: child rows whose key is absent from the parent, found with a de-duplicated left join. */
module ReferentialIntegrity {
  import opened Wrappers
  import opened Sequences
  import opened Frames
  import opened Verdicts
  import opened ColumnMatching
  import Text

  datatype IntegrityError =
    | NoChildColumns
    | Mispaired(child: nat, parent: nat)
    | ChildColumnsNotFound(names: seq<string>)
    | ParentColumnsNotFound(names: seq<string>)

  datatype Outcome = Outcome(
    childRows: nat,
    checkedRows: nat,
    nullKeyRows: nat,
    orphanRows: nat,
    orphanPercent: nat,
    distinctOrphanKeys: nat,
    orphans: seq<Row>)

  // ----- the chain of frame operations

  predicate NoNulls(k: Key) {
    Null !in k
  }

  /** `dropna(subset=keys)`. */
  function WithKey(rows: seq<Row>, keys: seq<string>): seq<Row> {
    Filter(rows, (r: Row) => NoNulls(KeyOf(r, keys)))
  }

  function Bare(ks: seq<Key>): (keyed: seq<Keyed<()>>)
    ensures |keyed| == |ks| && forall i :: 0 <= i < |ks| ==> keyed[i] == Keyed(ks[i], ())
  {
    seq(|ks|, i requires 0 <= i < |ks| => Keyed(ks[i], ()))
  }

  /** The parent's keys, each once, null ones dropped, under the child's names. */
  function ParentSide(parent: seq<Row>, parentKeys: seq<string>): seq<Keyed<()>> {
    Bare(Filter(FirstOccurrences(KeysOf(parent, parentKeys)), k => NoNulls(k)))
  }

  /** The joined rows that found no partner. */
  function LeftOnlyRows(merged: seq<Joined<Row, ()>>): seq<Row> {
    if merged == [] then []
    else
      var last := merged[|merged| - 1];
      LeftOnlyRows(merged[..|merged| - 1]) + if last.right.None? then [last.left] else []
  }

  /** `head(n)`: the first n rows, or for a negative n all but the last -n. */
  function Head(rows: seq<Row>, n: int): (sample: seq<Row>)
    ensures sample <= rows
    ensures |sample| == if n >= 0 then (if n < |rows| then n else |rows|) else if -n < |rows| then |rows| + n else 0
  {
    if n >= |rows| then rows
    else if n >= 0 then rows[..n]
    else if -n < |rows| then rows[..|rows| + n]
    else []
  }

  function Orphans(child: seq<Row>, parent: seq<Row>, childKeys: seq<string>, parentKeys: seq<string>): seq<Row> {
    LeftOnlyRows(LeftJoin(KeyedRows(WithKey(child, childKeys), childKeys), ParentSide(parent, parentKeys)))
  }

  function OutcomeOf(child: seq<Row>, parent: seq<Row>, childKeys: seq<string>, parentKeys: seq<string>,
                     sampleLimit: int): Outcome
  {
    var checked := WithKey(child, childKeys);
    if checked == [] then Outcome(|child|, 0, |child|, 0, 0, 0, [])
    else
      var orphans := Orphans(child, parent, childKeys, parentKeys);
      Outcome(|child|, |checked|, |child| - |checked|, |orphans|, Percentage(|orphans|, |checked|),
              |FirstOccurrences(KeysOf(orphans, childKeys))|, Head(orphans, sampleLimit))
  }

  function Found(child: Frame, parent: Frame, childColumns: seq<string>, parentColumns: seq<string>,
                 sampleLimit: int): Result<Outcome, IntegrityError>
  {
    var childMap, parentMap := FirstSpelling(child.columns), FirstSpelling(parent.columns);
    if childColumns == [] then Err(NoChildColumns)
    else if |childColumns| != |parentColumns| then Err(Mispaired(|childColumns|, |parentColumns|))
    else if Unresolved(childColumns, childMap) != [] then Err(ChildColumnsNotFound(Unresolved(childColumns, childMap)))
    else if Unresolved(parentColumns, parentMap) != [] then
      Err(ParentColumnsNotFound(Unresolved(parentColumns, parentMap)))
    else Ok(OutcomeOf(child.rows, parent.rows, Resolved(childColumns, childMap), Resolved(parentColumns, parentMap),
                      sampleLimit))
  }

  /** The checks of `execute`, then `_find_orphans`. */
  method FindOrphans(child: Frame, parent: Frame, childColumns: seq<string>, parentColumns: seq<string>,
                     sampleLimit: int)
    returns (r: Result<Outcome, IntegrityError>)
    ensures r == Found(child, parent, childColumns, parentColumns, sampleLimit)
  {
    if childColumns == [] {
      return Err(NoChildColumns);
    }
    if |childColumns| != |parentColumns| {
      return Err(Mispaired(|childColumns|, |parentColumns|));
    }
    var childKeys, missingChild := ResolveAll(childColumns, child.columns);
    if missingChild != [] {
      return Err(ChildColumnsNotFound(missingChild));
    }
    var parentKeys, missingParent := ResolveAll(parentColumns, parent.columns);
    if missingParent != [] {
      return Err(ParentColumnsNotFound(missingParent));
    }
    r := Ok(OutcomeOf(child.rows, parent.rows, childKeys, parentKeys, sampleLimit));
  }

  /** The run passes when the rounded percentage is within the tolerance. */
  predicate Passes(o: Outcome, tolerancePercent: real) {
    o.orphanPercent as real / 10_000.0 <= tolerancePercent
  }

  // ----- what an orphan is

  /** A row with a fully non-null key that no parent row has. */
  predicate IsOrphan(r: Row, parent: seq<Row>, childKeys: seq<string>, parentKeys: seq<string>) {
    NoNulls(KeyOf(r, childKeys)) && KeyOf(r, childKeys) !in KeysOf(parent, parentKeys)
  }

  lemma ParentSideKeys(parent: seq<Row>, parentKeys: seq<string>)
    ensures Distinct(Keys(ParentSide(parent, parentKeys)))
    ensures forall k :: k in Keys(ParentSide(parent, parentKeys)) <==> k in KeysOf(parent, parentKeys) && NoNulls(k)
  {
    var ks := FirstOccurrences(KeysOf(parent, parentKeys));
    FirstOccurrencesDistinct(KeysOf(parent, parentKeys));
    FilterKeepsDistinct(ks, k => NoNulls(k));
    assert Keys(ParentSide(parent, parentKeys)) == Filter(ks, k => NoNulls(k));
  }

  /** De-duplicating the parent keeps the join from multiplying rows: one joined row per checked row, in order. */
  lemma JoinKeepsRows(child: seq<Row>, parent: seq<Row>, childKeys: seq<string>, parentKeys: seq<string>)
    ensures var checked := WithKey(child, childKeys);
            var merged := LeftJoin(KeyedRows(checked, childKeys), ParentSide(parent, parentKeys));
            && |merged| == |checked|
            && forall i :: 0 <= i < |checked| ==>
                 && merged[i].left == checked[i]
                 && (merged[i].right.None? <==> IsOrphan(checked[i], parent, childKeys, parentKeys))
  {
    var checked, side := WithKey(child, childKeys), ParentSide(parent, parentKeys);
    ParentSideKeys(parent, parentKeys);
    LeftJoinUnique(KeyedRows(checked, childKeys), side);
    forall i | 0 <= i < |checked|
      ensures Lookup(side, KeyOf(checked[i], childKeys)).None? <==> IsOrphan(checked[i], parent, childKeys, parentKeys)
    {
      LookupFound(side, KeyOf(checked[i], childKeys));
      assert checked[i] in checked;
    }
  }

  lemma {:induction false} LeftOnlyRowsAre(merged: seq<Joined<Row, ()>>, checked: seq<Row>, orphan: Row -> bool)
    requires |merged| == |checked|
    requires forall i :: 0 <= i < |checked| ==>
               merged[i].left == checked[i] && (merged[i].right.None? <==> orphan(checked[i]))
    ensures LeftOnlyRows(merged) == Filter(checked, orphan)
  {
    if merged != [] {
      LeftOnlyRowsAre(merged[..|merged| - 1], checked[..|checked| - 1], orphan);
    }
  }

  /** The orphans are exactly the child rows with a non-null key absent from the parent, in the child's order. */
  lemma OrphansAreAbsent(child: seq<Row>, parent: seq<Row>, childKeys: seq<string>, parentKeys: seq<string>)
    ensures Orphans(child, parent, childKeys, parentKeys) ==
            Filter(child, (r: Row) => IsOrphan(r, parent, childKeys, parentKeys))
  {
    var checked := WithKey(child, childKeys);
    var orphan := (r: Row) => IsOrphan(r, parent, childKeys, parentKeys);
    JoinKeepsRows(child, parent, childKeys, parentKeys);
    LeftOnlyRowsAre(LeftJoin(KeyedRows(checked, childKeys), ParentSide(parent, parentKeys)), checked, orphan);
    FilterTwice(child, (r: Row) => NoNulls(KeyOf(r, childKeys)), orphan);
  }

  lemma DistinctKeysCounted(rows: seq<Row>, keys: seq<string>)
    ensures |FirstOccurrences(KeysOf(rows, keys))| == |ToSet(KeysOf(rows, keys))|
  {
    FirstOccurrencesDistinct(KeysOf(rows, keys));
    DistinctCardinality(FirstOccurrences(KeysOf(rows, keys)));
    assert ToSet(FirstOccurrences(KeysOf(rows, keys))) == ToSet(KeysOf(rows, keys));
  }

  /**
   The counts of the outcome, told by membership alone. The sample limit appears only in the sample,
   which is a prefix of the orphans.
   */
  lemma OutcomeMeaning(child: seq<Row>, parent: seq<Row>, childKeys: seq<string>, parentKeys: seq<string>,
                       sampleLimit: int)
    ensures var o := OutcomeOf(child, parent, childKeys, parentKeys, sampleLimit);
            var orphans := Filter(child, (r: Row) => IsOrphan(r, parent, childKeys, parentKeys));
            && o.childRows == |child|
            && o.nullKeyRows == |Filter(child, (r: Row) => !NoNulls(KeyOf(r, childKeys)))|
            && o.nullKeyRows + o.checkedRows == o.childRows
            && o.orphanRows == |orphans| <= o.checkedRows
            && o.distinctOrphanKeys == |ToSet(KeysOf(orphans, childKeys))|
            && o.orphans == Head(orphans, sampleLimit)
            && o.orphanPercent == if o.checkedRows == 0 then 0 else Percentage(o.orphanRows, o.checkedRows)
  {
    var checked := WithKey(child, childKeys);
    var orphans := Filter(child, (r: Row) => IsOrphan(r, parent, childKeys, parentKeys));
    FilterSplits(child, (r: Row) => NoNulls(KeyOf(r, childKeys)), (r: Row) => !NoNulls(KeyOf(r, childKeys)));
    OrphansAreAbsent(child, parent, childKeys, parentKeys);
    DistinctKeysCounted(orphans, childKeys);
    FilterTwice(child, (r: Row) => NoNulls(KeyOf(r, childKeys)),
                (r: Row) => IsOrphan(r, parent, childKeys, parentKeys));
    assert |orphans| <= |checked|;
    if checked == [] {
      assert ToSet(KeysOf(orphans, childKeys)) == {};
    }
  }

  // ----- the tolerance verdict

  /** `n / d` rounds to at most m: below the midpoint above m, or on it when m is even. */
  lemma RoundsToAtMost(n: nat, d: nat, m: nat)
    requires d > 0
    ensures RoundHalfEven(n, d) <= m <==> 2 * n < 2 * (m * d) + d || (2 * n == 2 * (m * d) + d && m % 2 == 0)
  {
    var r := RoundHalfEven(n, d);
    RoundIsNearest(n, d);
    MultiplesApart(m, r, d);
    MultiplesApart(r, m, d);
    assert (m + 1) * d == m * d + d;
    MultiplesApart(m + 1, r, d);
    SameMultiple(r, m + 1, d);
  }

  function Floor(x: real): int { x.Floor }

  /**
   The verdict in exact arithmetic: with m the tolerance in whole units of 0.0001 percent, PASS up to
   half a unit above m, the half itself included when m is even; a negative tolerance never passes.
   */
  lemma ToleranceVerdict(child: seq<Row>, parent: seq<Row>, childKeys: seq<string>, parentKeys: seq<string>,
                         sampleLimit: int, tolerancePercent: real)
    ensures var o := OutcomeOf(child, parent, childKeys, parentKeys, sampleLimit);
            var m := Floor(tolerancePercent * 10_000.0);
            Passes(o, tolerancePercent) <==>
              m >= 0 && (o.checkedRows == 0 ||
                         2_000_000 * o.orphanRows < 2 * (m * o.checkedRows) + o.checkedRows ||
                         (2_000_000 * o.orphanRows == 2 * (m * o.checkedRows) + o.checkedRows && m % 2 == 0))
  {
    var o := OutcomeOf(child, parent, childKeys, parentKeys, sampleLimit);
    var m := Floor(tolerancePercent * 10_000.0);
    assert Passes(o, tolerancePercent) <==> o.orphanPercent <= m;
    if m >= 0 && o.checkedRows > 0 {
      RoundsToAtMost(o.orphanRows * 1_000_000, o.checkedRows, m);
    }
  }

  /** At tolerance zero the run passes with at most one orphan in two million checked rows. */
  lemma ZeroTolerance(child: seq<Row>, parent: seq<Row>, childKeys: seq<string>, parentKeys: seq<string>,
                      sampleLimit: int)
    ensures var o := OutcomeOf(child, parent, childKeys, parentKeys, sampleLimit);
            Passes(o, 0.0) <==> 2_000_000 * o.orphanRows <= o.checkedRows
  {
    OutcomeMeaning(child, parent, childKeys, parentKeys, sampleLimit);
    var o := OutcomeOf(child, parent, childKeys, parentKeys, sampleLimit);
    if o.checkedRows > 0 {
      ZeroBound(o.orphanRows, o.checkedRows);
    }
  }

  // ----- the whole check, on frames and names as typed

  /** Every cell of the row in these columns holds something. */
  ghost predicate Complete(r: Row, columns: seq<string>) {
    forall i :: 0 <= i < |columns| ==> Get(r, columns[i]) != Null
  }

  /** The two rows agree, column by column, in their own columns. */
  ghost predicate SameCells(r: Row, columns: seq<string>, q: Row, others: seq<string>) {
    |columns| == |others| && forall i :: 0 <= i < |columns| ==> Get(r, columns[i]) == Get(q, others[i])
  }

  /** A row whose key is complete and that no parent row agrees with. */
  ghost predicate HasNoParent(r: Row, columns: seq<string>, parent: seq<Row>, others: seq<string>) {
    Complete(r, columns) && forall q :: q in parent ==> !SameCells(r, columns, q, others)
  }

  lemma OrphanHasNoParent(r: Row, parent: seq<Row>, childKeys: seq<string>, parentKeys: seq<string>)
    requires |childKeys| == |parentKeys|
    ensures NoNulls(KeyOf(r, childKeys)) <==> Complete(r, childKeys)
    ensures IsOrphan(r, parent, childKeys, parentKeys) <==> HasNoParent(r, childKeys, parent, parentKeys)
  {
    var k := KeyOf(r, childKeys);
    assert forall i :: 0 <= i < |childKeys| ==> k[i] == Get(r, childKeys[i]);
    forall q | q in parent
      ensures KeyOf(q, parentKeys) == k <==> SameCells(r, childKeys, q, parentKeys)
    {
      KeysMeetCells(r, childKeys, q, parentKeys);
    }
    KeyAmong(parent, parentKeys, k);
  }

  lemma KeysMeetCells(r: Row, columns: seq<string>, q: Row, others: seq<string>)
    requires |columns| == |others|
    ensures KeyOf(q, others) == KeyOf(r, columns) <==> SameCells(r, columns, q, others)
  {
    if KeyOf(q, others) == KeyOf(r, columns) {
      forall i | 0 <= i < |columns|
        ensures Get(r, columns[i]) == Get(q, others[i])
      {
        assert KeyOf(q, others)[i] == KeyOf(r, columns)[i];
      }
    }
  }

  lemma KeyAmong(rows: seq<Row>, keys: seq<string>, k: Key)
    ensures k in KeysOf(rows, keys) <==> exists q :: q in rows && KeyOf(q, keys) == k
  {
    if k in KeysOf(rows, keys) {
      var i :| 0 <= i < |rows| && KeysOf(rows, keys)[i] == k;
      assert rows[i] in rows;
    }
    if q :| q in rows && KeyOf(q, keys) == k {
      var i :| 0 <= i < |rows| && rows[i] == q;
      assert KeysOf(rows, keys)[i] == k;
    }
  }

  /** What a check of a child against a parent finds, in columns given on either side. */
  ghost predicate Finds(o: Outcome, child: seq<Row>, parent: seq<Row>, childKeys: seq<string>, parentKeys: seq<string>,
                        sampleLimit: int)
  {
    var orphans := Filter(child, r => HasNoParent(r, childKeys, parent, parentKeys));
    && o.childRows == |child|
    && o.checkedRows == |Filter(child, r => Complete(r, childKeys))|
    && o.nullKeyRows == |child| - o.checkedRows
    && o.orphanRows == |orphans| <= o.checkedRows
    && o.distinctOrphanKeys == |set r | r in orphans :: KeyOf(r, childKeys)|
    && o.orphans <= orphans
    && |o.orphans| == (if sampleLimit >= 0 then Min(sampleLimit, |orphans|)
                       else if -sampleLimit < |orphans| then |orphans| + sampleLimit else 0)
    && (o.checkedRows == 0 ==> o.orphanPercent == 0)
  }

  lemma DistinctKeysAre(rows: seq<Row>, keys: seq<string>)
    ensures ToSet(KeysOf(rows, keys)) == set r | r in rows :: KeyOf(r, keys)
  {
    forall k
      ensures k in KeysOf(rows, keys) <==> exists q :: q in rows && KeyOf(q, keys) == k
    {
      KeyAmong(rows, keys, k);
    }
  }

  lemma OutcomeFinds(child: seq<Row>, parent: seq<Row>, childKeys: seq<string>, parentKeys: seq<string>,
                     sampleLimit: int)
    requires |childKeys| == |parentKeys|
    ensures Finds(OutcomeOf(child, parent, childKeys, parentKeys, sampleLimit), child, parent, childKeys, parentKeys,
                  sampleLimit)
  {
    var orphans := Filter(child, (r: Row) => IsOrphan(r, parent, childKeys, parentKeys));
    OutcomeMeaning(child, parent, childKeys, parentKeys, sampleLimit);
    forall r
      ensures NoNulls(KeyOf(r, childKeys)) <==> Complete(r, childKeys)
      ensures IsOrphan(r, parent, childKeys, parentKeys) <==> HasNoParent(r, childKeys, parent, parentKeys)
    {
      OrphanHasNoParent(r, parent, childKeys, parentKeys);
    }
    SameFilter(child, (r: Row) => IsOrphan(r, parent, childKeys, parentKeys),
               r => HasNoParent(r, childKeys, parent, parentKeys));
    SameFilter(child, (r: Row) => NoNulls(KeyOf(r, childKeys)), r => Complete(r, childKeys));
    DistinctKeysAre(orphans, childKeys);
    CheckedAre(child, parent, childKeys, parentKeys, sampleLimit);
  }

  lemma CheckedAre(child: seq<Row>, parent: seq<Row>, childKeys: seq<string>, parentKeys: seq<string>,
                   sampleLimit: int)
    ensures OutcomeOf(child, parent, childKeys, parentKeys, sampleLimit).checkedRows ==
            |Filter(child, (r: Row) => NoNulls(KeyOf(r, childKeys)))|
  {
  }

  /** The error names what is wrong first: no columns, an uneven pairing, the child's names, the parent's. */
  ghost predicate RefusedFor(e: IntegrityError, child: Frame, parent: Frame, childColumns: seq<string>,
                             parentColumns: seq<string>)
  {
    if childColumns == [] then e == NoChildColumns
    else if |childColumns| != |parentColumns| then e == Mispaired(|childColumns|, |parentColumns|)
    else if !AllNamed(child.columns, childColumns) then
      e == ChildColumnsNotFound(Filter(childColumns, n => !HasName(child.columns, n)))
    else e == ParentColumnsNotFound(Filter(parentColumns, n => !HasName(parent.columns, n)))
  }

  /**
   The check on frames and names as typed: accepted exactly when names are given, pair up, and each is a
   column of its own frame up to case; then the orphans are the child rows with a complete key that no
   parent row has, read from the left-most columns the names stand for.
   */
  lemma FoundMeaning(child: Frame, parent: Frame, childColumns: seq<string>, parentColumns: seq<string>,
                     sampleLimit: int)
    returns (childKeys: seq<string>, parentKeys: seq<string>)
    ensures var r := Found(child, parent, childColumns, parentColumns, sampleLimit);
            && (r.Ok? <==> childColumns != [] && |childColumns| == |parentColumns|
                           && AllNamed(child.columns, childColumns) && AllNamed(parent.columns, parentColumns))
            && (r.Ok? ==>
                 && AreColumnsFor(child.columns, childColumns, childKeys)
                 && AreColumnsFor(parent.columns, parentColumns, parentKeys)
                 && Finds(r.value, child.rows, parent.rows, childKeys, parentKeys, sampleLimit))
            && (r.Err? ==> RefusedFor(r.error, child, parent, childColumns, parentColumns))
  {
    childKeys := Resolved(childColumns, FirstSpelling(child.columns));
    parentKeys := Resolved(parentColumns, FirstSpelling(parent.columns));
    UnresolvedAre(childColumns, child.columns);
    UnresolvedAre(parentColumns, parent.columns);
    if Found(child, parent, childColumns, parentColumns, sampleLimit).Ok? {
      ResolvedAre(childColumns, child.columns);
      ResolvedAre(parentColumns, parent.columns);
      OutcomeFinds(child.rows, parent.rows, childKeys, parentKeys, sampleLimit);
    }
  }

  /** The verdict on what was found, in exact arithmetic, for every tolerance and at tolerance zero. */
  lemma FoundVerdict(child: Frame, parent: Frame, childColumns: seq<string>, parentColumns: seq<string>,
                     sampleLimit: int, tolerancePercent: real)
    requires Found(child, parent, childColumns, parentColumns, sampleLimit).Ok?
    ensures var o := Found(child, parent, childColumns, parentColumns, sampleLimit).value;
            var m := (tolerancePercent * 10_000.0).Floor;
            && (Passes(o, tolerancePercent) <==>
                 m >= 0 && (o.checkedRows == 0 ||
                            2_000_000 * o.orphanRows < 2 * (m * o.checkedRows) + o.checkedRows ||
                            (2_000_000 * o.orphanRows == 2 * (m * o.checkedRows) + o.checkedRows && m % 2 == 0)))
            && (Passes(o, 0.0) <==> 2_000_000 * o.orphanRows <= o.checkedRows)
  {
    var childKeys := Resolved(childColumns, FirstSpelling(child.columns));
    var parentKeys := Resolved(parentColumns, FirstSpelling(parent.columns));
    ToleranceVerdict(child.rows, parent.rows, childKeys, parentKeys, sampleLimit, tolerancePercent);
    ZeroTolerance(child.rows, parent.rows, childKeys, parentKeys, sampleLimit);
  }

  lemma TwoOfThreeHaveParents(child: seq<Row>, parent: seq<Row>)
    requires child == [map["k" := Num(1.0)], map["k" := Num(2.0)], map["k" := Num(3.0)]]
    requires parent == [map["p" := Num(1.0)], map["p" := Num(2.0)]]
    ensures !HasNoParent(child[0], ["k"], parent, ["p"]) && !HasNoParent(child[1], ["k"], parent, ["p"])
    ensures HasNoParent(child[2], ["k"], parent, ["p"])
    ensures forall r :: r in child ==> Complete(r, ["k"])
  {
    assert SameCells(child[0], ["k"], parent[0], ["p"]) && SameCells(child[1], ["k"], parent[1], ["p"]);
    forall q | q in parent
      ensures !SameCells(child[2], ["k"], q, ["p"])
    {
      assert q == parent[0] || q == parent[1];
      assert Get(child[2], ["k"][0]) == Num(3.0) != Get(q, ["p"][0]);
    }
  }

  lemma ThirdFiltered(rows: seq<Row>, p: Row -> bool)
    requires |rows| == 3 && p(rows[2]) && !p(rows[0]) && !p(rows[1])
    ensures Filter(rows, p) == [rows[2]]
  {
    assert rows[..2][..1] == rows[..1] && rows[..1][..0] == [];
    assert Filter(rows[..1], p) == [] && Filter(rows[..2], p) == [];
  }

  lemma OneOrphanFound(o: Outcome, child: seq<Row>, parent: seq<Row>, sampleLimit: int)
    requires Finds(o, child, parent, ["k"], ["p"], sampleLimit)
    requires child == [map["k" := Num(1.0)], map["k" := Num(2.0)], map["k" := Num(3.0)]]
    requires parent == [map["p" := Num(1.0)], map["p" := Num(2.0)]]
    ensures o.childRows == 3 && o.checkedRows == 3 && o.orphanRows == 1
  {
    TwoOfThreeHaveParents(child, parent);
    ThirdFiltered(child, r => HasNoParent(r, ["k"], parent, ["p"]));
    AllKept(child, r => Complete(r, ["k"]));
  }

  lemma SoleColumn(column: string, cs: seq<string>)
    requires AreColumnsFor([column], [column], cs)
    ensures cs == [column]
  {
    assert IsColumnFor([column], [column][0], cs[0]);
  }

  lemma OwnName(column: string)
    ensures AllNamed([column], [column])
  {
    assert HasName([column], column) by {
      assert Text.Fold([column][0]) == Text.Fold(column);
    }
  }

  lemma OneColumnEach(child: Frame, parent: Frame, c: string, p: string, sampleLimit: int)
    requires child.columns == [c] && parent.columns == [p]
    ensures var r := Found(child, parent, [c], [p], sampleLimit);
            r.Ok? && Finds(r.value, child.rows, parent.rows, [c], [p], sampleLimit)
  {
    var childKeys, parentKeys := FoundMeaning(child, parent, [c], [p], sampleLimit);
    OwnName(c);
    OwnName(p);
    SoleColumn(c, childKeys);
    SoleColumn(p, parentKeys);
  }

  lemma WholeNumbers(column: string, rows: seq<Row>) returns (f: Frame)
    requires forall r :: r in rows ==> r.Keys == {column} && Fits(Int64, r[column])
    ensures f.columns == [column] && f.rows == rows
  {
    assert ValidFrame(FrameData([column], map[column := Int64], rows));
    f := FrameData([column], map[column := Int64], rows);
  }

  /** Child keys 1, 2, 3 against parent keys 1, 2: one orphan of three checked rows, which fails at tolerance 0. */
  lemma OneOrphanOfThree(sampleLimit: int) returns (child: Frame, parent: Frame)
    ensures child.rows == [map["k" := Num(1.0)], map["k" := Num(2.0)], map["k" := Num(3.0)]]
    ensures parent.rows == [map["p" := Num(1.0)], map["p" := Num(2.0)]]
    ensures var r := Found(child, parent, ["k"], ["p"], sampleLimit);
            r.Ok? && r.value.orphanRows == 1 && r.value.checkedRows == 3 && !Passes(r.value, 0.0)
  {
    child := WholeNumbers("k", [map["k" := Num(1.0)], map["k" := Num(2.0)], map["k" := Num(3.0)]]);
    parent := WholeNumbers("p", [map["p" := Num(1.0)], map["p" := Num(2.0)]]);
    OneColumnEach(child, parent, "k", "p", sampleLimit);
    OneOrphanFound(Found(child, parent, ["k"], ["p"], sampleLimit).value, child.rows, parent.rows, sampleLimit);
    FoundVerdict(child, parent, ["k"], ["p"], sampleLimit, 0.0);
  }
}
