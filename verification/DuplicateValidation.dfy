/** Duplicate Validation: grouping by key, and its agreement with the engine's own duplicate guard. */
module DuplicateValidation {
  import opened Wrappers
  import opened Sequences
  import opened Sorting
  import opened Frames
  import opened ColumnMatching
  import opened ComparisonEngine

  datatype DuplicateError = NoKeyColumns | KeyColumnsNotFound(names: seq<string>) | NegativeLimit

  /** A repeated row and how often its key occurs. */
  datatype Sampled = Sampled(row: Row, occurrences: nat)

  datatype Analysis = Analysis(totalRows: nat, dupKeyCount: nat, dupRowCount: nat, sample: seq<Sampled>)

  /** `GROUP BY ... HAVING COUNT(*) > 1`; null keys form a group of their own. */
  function RepeatedKeys(ks: seq<Key>): (repeated: seq<Key>)
    ensures forall k :: k in repeated <==> multiset(ks)[k] > 1
  {
    assert forall k :: k in ks <==> multiset(ks)[k] > 0;
    Filter(FirstOccurrences(ks), k => multiset(ks)[k] > 1)
  }

  function Sum(ks: seq<Key>, f: Key -> nat): nat {
    if ks == [] then 0 else Sum(ks[..|ks| - 1], f) + f(ks[|ks| - 1])
  }

  function Occurrences(ks: seq<Key>): Key -> nat {
    k => multiset(ks)[k]
  }

  /** The self-join of the sample: SQL's `=` never matches a null, so null keys drop out of it. */
  function JoinedRows(rows: seq<Row>, keys: seq<string>): seq<Row> {
    var repeated := RepeatedKeys(KeysOf(rows, keys));
    Filter(rows, (r: Row) => KeyOf(r, keys) in repeated && Null !in KeyOf(r, keys))
  }

  // ----- the sample's order and length

  function Rank(c: Cell): nat {
    match c
    case Num(_) => 0
    case Str(_) => 1
    case Null => 2
  }

  predicate CellAtMost(a: Cell, b: Cell) {
    if a.Num? && b.Num? then a.value <= b.value
    else if a.Str? && b.Str? then TextAtMost(a.text, b.text)
    else Rank(a) <= Rank(b)
  }

  predicate KeyAtMost(a: Key, b: Key) {
    a == [] || (b != [] && if a[0] == b[0] then KeyAtMost(a[1..], b[1..]) else CellAtMost(a[0], b[0]))
  }

  /** `ORDER BY` the key columns. */
  function ByKey(keys: seq<string>): (Row, Row) -> bool {
    (r: Row, w: Row) => KeyAtMost(KeyOf(r, keys), KeyOf(w, keys))
  }

  function Shown(rows: seq<Row>, keys: seq<string>, limit: nat): seq<Row> {
    Least(JoinedRows(rows, keys), limit, ByKey(keys))
  }

  /** The joined rows in key order, no more than the limit of them, each with its key's count. */
  function Sample(rows: seq<Row>, keys: seq<string>, limit: nat): seq<Sampled> {
    var ks := KeysOf(rows, keys);
    Map(Shown(rows, keys, limit), (r: Row) => Sampled(r, multiset(ks)[KeyOf(r, keys)]))
  }

  function AnalysisOf(rows: seq<Row>, keys: seq<string>, limit: nat): Analysis {
    var ks := KeysOf(rows, keys);
    Analysis(|rows|, |RepeatedKeys(ks)|, Sum(RepeatedKeys(ks), Occurrences(ks)), Sample(rows, keys, limit))
  }

  /** The sample is queried only when a key is repeated, and the database refuses a negative limit. */
  function Sampling(rows: seq<Row>, keys: seq<string>, limit: int): Result<Analysis, DuplicateError> {
    if RepeatedKeys(KeysOf(rows, keys)) == [] then Ok(AnalysisOf(rows, keys, 0))
    else if limit < 0 then Err(NegativeLimit)
    else Ok(AnalysisOf(rows, keys, limit))
  }

  function Analyzed(f: Frame, keyColumns: seq<string>, limit: int): Result<Analysis, DuplicateError> {
    var spelling := FirstSpelling(f.columns);
    if keyColumns == [] then Err(NoKeyColumns)
    else if Unresolved(keyColumns, spelling) != [] then Err(KeyColumnsNotFound(Unresolved(keyColumns, spelling)))
    else Sampling(f.rows, Resolved(keyColumns, spelling), limit)
  }

  method Analyze(f: Frame, keyColumns: seq<string>, limit: int) returns (r: Result<Analysis, DuplicateError>)
    ensures r == Analyzed(f, keyColumns, limit)
  {
    if keyColumns == [] {
      return Err(NoKeyColumns);
    }
    var keys, missing := ResolveAll(keyColumns, f.columns);
    if missing != [] {
      return Err(KeyColumnsNotFound(missing));
    }
    r := Sampling(f.rows, keys, limit);
  }

  predicate Fails(a: Analysis) { a.dupRowCount > 0 }

  // ----- counting occurrences

  lemma {:induction false} SumBump(ds: seq<Key>, f: Key -> nat, g: Key -> nat, x: Key)
    requires Distinct(ds)
    requires forall k :: k in ds ==> g(k) == f(k) + if k == x then 1 else 0
    ensures Sum(ds, g) == Sum(ds, f) + if x in ds then 1 else 0
  {
    if ds != [] {
      var front, last := ds[..|ds| - 1], ds[|ds| - 1];
      assert ds == front + [last];
      SumBump(front, f, g, x);
    }
  }

  lemma {:induction false} SumZero(ds: seq<Key>, f: Key -> nat)
    requires forall k :: k in ds ==> f(k) == 0
    ensures Sum(ds, f) == 0
  {
    if ds != [] {
      assert ds == ds[..|ds| - 1] + [ds[|ds| - 1]];
      SumZero(ds[..|ds| - 1], f);
    }
  }

  /** Over any list of distinct keys that covers the rows, the occurrences add up to the rows. */
  lemma {:induction false} OccurrencesAddUp(ks: seq<Key>, ds: seq<Key>)
    requires Distinct(ds) && forall k :: k in ks ==> k in ds
    ensures Sum(ds, Occurrences(ks)) == |ks|
  {
    if ks == [] {
      SumZero(ds, Occurrences(ks));
    } else {
      var front, last := ks[..|ks| - 1], ks[|ks| - 1];
      assert ks == front + [last];
      OccurrencesAddUp(front, ds);
      SumBump(ds, Occurrences(front), Occurrences(ks), last);
    }
  }

  /** Leaving out the keys that occur once loses, in rows and in keys, the same amount. */
  lemma {:induction false} SinglesCancel(ds: seq<Key>, f: Key -> nat)
    requires forall k :: k in ds ==> f(k) >= 1
    ensures Sum(ds, f) - |ds| == Sum(Filter(ds, k => f(k) > 1), f) - |Filter(ds, k => f(k) > 1)|
  {
    if ds != [] {
      var front, last := ds[..|ds| - 1], ds[|ds| - 1];
      assert ds == front + [last];
      SinglesCancel(front, f);
      FilterPush(front, last, k => f(k) > 1);
      var kept := Filter(front, k => f(k) > 1);
      assert (kept + [last])[..|kept|] == kept && kept + [] == kept;
    }
  }

  /** Repeated rows less repeated keys is rows less distinct keys: how many rows are superfluous. */
  lemma SuperfluousRows(ks: seq<Key>)
    ensures Sum(RepeatedKeys(ks), Occurrences(ks)) - |RepeatedKeys(ks)| == |ks| - |ToSet(ks)|
  {
    var ds := FirstOccurrences(ks);
    FirstOccurrencesDistinct(ks);
    DistinctCardinality(ds);
    assert ToSet(ds) == ToSet(ks);
    OccurrencesAddUp(ks, ds);
    forall k | k in ds
      ensures Occurrences(ks)(k) >= 1
    {
      assert k in multiset(ks);
    }
    SinglesCancel(ds, Occurrences(ks));
    SameFilter(ds, k => Occurrences(ks)(k) > 1, k => multiset(ks)[k] > 1);
  }

  // ----- agreement with the engine's guard

  /** Marked rows are those beyond the first of each key. */
  lemma MarkedRows(rows: seq<Keyed<Row>>)
    ensures CountTrue(Duplicated(rows)) == |rows| - |ToSet(Keys(rows))|
    ensures |KeepFirst(rows)| == |ToSet(Keys(rows))|
  {
    KeepFirstIsSelect(rows);
    KeepFirstKeys(rows);
    DistinctCardinality(Keys(KeepFirst(rows)));
    assert ToSet(Keys(KeepFirst(rows))) == ToSet(Keys(rows));
  }

  predicate Verbatim(cfg: Config) { !cfg.trimStrings && !cfg.ignoreCase }

  lemma NothingNormalised(cfg: Config, kinds: map<string, Kind>, rows: seq<Row>)
    requires Verbatim(cfg)
    ensures NormalRows(cfg, kinds, rows) == rows
  {
    forall i | 0 <= i < |rows|
      ensures NormalRow(cfg, kinds, rows[i]) == rows[i]
    {
    }
  }

  /** Without normalisation the engine counts exactly the module's repeated rows less its repeated keys. */
  lemma CountsAgree(f: Frame, keys: seq<string>, cfg: Config)
    requires Verbatim(cfg)
    ensures var a := AnalysisOf(f.rows, keys, 0);
            DuplicateCount(f, keys, cfg) == a.dupRowCount - a.dupKeyCount
  {
    NothingNormalised(cfg, f.kinds, f.rows);
    var rows := KeyedRows(f.rows, keys);
    assert Keys(rows) == KeysOf(f.rows, keys);
    MarkedRows(rows);
    SuperfluousRows(KeysOf(f.rows, keys));
  }

  lemma {:induction false} RepeatedTwice(repeated: seq<Key>, f: Key -> nat)
    requires forall k :: k in repeated ==> f(k) > 1
    ensures Sum(repeated, f) >= 2 * |repeated|
  {
    if repeated != [] {
      assert repeated == repeated[..|repeated| - 1] + [repeated[|repeated| - 1]];
      RepeatedTwice(repeated[..|repeated| - 1], f);
    }
  }

  lemma NoneRepeated(ks: seq<Key>)
    ensures RepeatedKeys(ks) == [] <==> Sum(RepeatedKeys(ks), Occurrences(ks)) == 0
  {
    RepeatedTwice(RepeatedKeys(ks), Occurrences(ks));
  }

  /** The guard alone: an error exactly for unwanted duplicates, else one row for each key. */
  lemma GuardMeaning(f: Frame, side: Side, keys: seq<string>, cfg: Config)
    requires forall k :: k in keys ==> k in f.columns
    ensures var prepared, n := Prepare(Some(f), side, keys, cfg), DuplicateCount(f, keys, cfg);
            && (prepared.Err? <==> n > 0 && !cfg.dropDuplicateKeys)
            && (prepared.Err? ==> prepared.error == DuplicateKeys(side, n))
            && (prepared.Ok? ==> |prepared.value.rows| == |f.rows| - n)
  {
    KeepFirstIsSelect(KeyedRows(NormalRows(cfg, f.kinds, f.rows), keys));
  }

  lemma FailsMeaning(rows: seq<Row>, keys: seq<string>, limit: nat)
    ensures var a := AnalysisOf(rows, keys, limit);
            && (Fails(a) <==> a.dupRowCount - a.dupKeyCount > 0)
            && a.dupRowCount - a.dupKeyCount == |rows| - |ToSet(KeysOf(rows, keys))|
  {
    var ks := KeysOf(rows, keys);
    SuperfluousRows(ks);
    RepeatedTwice(RepeatedKeys(ks), Occurrences(ks));
  }

  lemma SamplingMeaning(rows: seq<Row>, keys: seq<string>, limit: nat)
    ensures var r := Sampling(rows, keys, limit);
            r.Ok? && (Fails(r.value) <==> |rows| > |ToSet(KeysOf(rows, keys))|)
  {
    FailsMeaning(rows, keys, 0);
    FailsMeaning(rows, keys, limit);
  }

  lemma DuplicatesAre(f: Frame, keys: seq<string>, cfg: Config)
    requires Verbatim(cfg)
    ensures DuplicateCount(f, keys, cfg) == |f.rows| - |ToSet(KeysOf(f.rows, keys))|
  {
    CountsAgree(f, keys, cfg);
    FailsMeaning(f.rows, keys, 0);
  }

  /**
   The engine refuses a frame for duplicates exactly when the module fails it, on the columns the module
   resolves the asked names to; with dropping on, it keeps one row per distinct key instead.
   */
  lemma GuardAgrees(f: Frame, asked: seq<string>, limit: nat, side: Side, cfg: Config)
    requires Verbatim(cfg) && asked != [] && Unresolved(asked, FirstSpelling(f.columns)) == []
    ensures var keys := Resolved(asked, FirstSpelling(f.columns));
            var prepared := Prepare(Some(f), side, keys, cfg);
            && Analyzed(f, asked, limit).Ok?
            && (prepared.Err? <==> Fails(Analyzed(f, asked, limit).value) && !cfg.dropDuplicateKeys)
            && (prepared.Err? ==> prepared.error == DuplicateKeys(side, DuplicateCount(f, keys, cfg)))
            && (prepared.Ok? ==> |prepared.value.rows| == |ToSet(KeysOf(f.rows, keys))|)
  {
    var keys := Resolved(asked, FirstSpelling(f.columns));
    ResolvedMeaning(asked, f.columns);
    SamplingMeaning(f.rows, keys, limit);
    DuplicatesAre(f, keys, cfg);
    GuardMeaning(f, side, keys, cfg);
  }

  /** A negative limit turns a failing run into an error, and a passing one into nothing else. */
  lemma NegativeLimitMeaning(f: Frame, asked: seq<string>, limit: int)
    requires limit < 0 && asked != [] && Unresolved(asked, FirstSpelling(f.columns)) == []
    ensures Analyzed(f, asked, limit).Err? <==> Fails(Analyzed(f, asked, 0).value)
    ensures Analyzed(f, asked, limit).Ok? ==> Analyzed(f, asked, limit) == Analyzed(f, asked, 0)
  {
    FailsMeaning(f.rows, Resolved(asked, FirstSpelling(f.columns)), 0);
    NoneRepeated(KeysOf(f.rows, Resolved(asked, FirstSpelling(f.columns))));
  }

  // ----- normalisation only merges keys

  function NormalKey(cfg: Config, kinds: map<string, Kind>, keys: seq<string>, k: Key): (n: Key)
    requires |k| == |keys|
    ensures |n| == |k| && forall i :: 0 <= i < |k| ==>
            n[i] == if keys[i] in kinds then NormalCell(cfg, kinds[keys[i]], k[i]) else k[i]
  {
    seq(|k|, i requires 0 <= i < |k| => if keys[i] in kinds then NormalCell(cfg, kinds[keys[i]], k[i]) else k[i])
  }

  lemma NormalisedKey(cfg: Config, kinds: map<string, Kind>, keys: seq<string>, r: Row)
    ensures KeyOf(NormalRow(cfg, kinds, r), keys) == NormalKey(cfg, kinds, keys, KeyOf(r, keys))
  {
  }

  /** Trimming and upper-casing can only make keys coincide: the engine never finds fewer duplicates than the module. */
  lemma NormalisationFindsNoFewer(f: Frame, keys: seq<string>, cfg: Config)
    ensures var a := AnalysisOf(f.rows, keys, 0);
            DuplicateCount(f, keys, cfg) >= a.dupRowCount - a.dupKeyCount
  {
    var raw := KeysOf(f.rows, keys);
    var rows := KeyedRows(NormalRows(cfg, f.kinds, f.rows), keys);
    var normalise := (k: Key) => if |k| == |keys| then NormalKey(cfg, f.kinds, keys, k) else k;
    forall i | 0 <= i < |raw|
      ensures Keys(rows)[i] == normalise(raw[i])
    {
      NormalisedKey(cfg, f.kinds, keys, f.rows[i]);
    }
    forall n | n in ToSet(Keys(rows))
      ensures exists k :: k in ToSet(raw) && normalise(k) == n
    {
      var i :| 0 <= i < |raw| && Keys(rows)[i] == n;
      assert raw[i] in ToSet(raw);
    }
    ImageNoLarger(ToSet(raw), normalise, ToSet(Keys(rows)));
    MarkedRows(rows);
    SuperfluousRows(raw);
  }

  // ----- the sample

  lemma {:induction false} KeyOrderTotal(a: Key, b: Key)
    ensures KeyAtMost(a, b) || KeyAtMost(b, a)
  {
    if a != [] && b != [] {
      if a[0] == b[0] {
        KeyOrderTotal(a[1..], b[1..]);
      } else if a[0].Str? && b[0].Str? {
        TextOrderTotal(a[0].text, b[0].text);
      }
    }
  }

  lemma CellOrderTransitive(a: Cell, b: Cell, c: Cell)
    requires CellAtMost(a, b) && CellAtMost(b, c)
    ensures CellAtMost(a, c)
    ensures a == c ==> a == b
  {
    if a.Str? && b.Str? && c.Str? {
      TextOrderTransitive(a.text, b.text, c.text);
      if a == c {
        TextOrderAntisymmetric(a.text, b.text);
      }
    }
  }

  lemma {:induction false} KeyOrderTransitive(a: Key, b: Key, c: Key)
    requires KeyAtMost(a, b) && KeyAtMost(b, c)
    ensures KeyAtMost(a, c)
  {
    if a != [] {
      if a[0] == b[0] && b[0] == c[0] {
        KeyOrderTransitive(a[1..], b[1..], c[1..]);
      } else if a[0] != b[0] && b[0] != c[0] {
        CellOrderTransitive(a[0], b[0], c[0]);
      }
    }
  }

  lemma ByKeyIsOrder(keys: seq<string>)
    ensures TotalOrder(ByKey(keys))
  {
    forall r: Row, w: Row
      ensures ByKey(keys)(r, w) || ByKey(keys)(w, r)
    {
      KeyOrderTotal(KeyOf(r, keys), KeyOf(w, keys));
    }
    forall r: Row, w: Row, x: Row | ByKey(keys)(r, w) && ByKey(keys)(w, x)
      ensures ByKey(keys)(r, x)
    {
      KeyOrderTransitive(KeyOf(r, keys), KeyOf(w, keys), KeyOf(x, keys));
    }
  }

  /** A row with a key that occurs more than once and has no null in it. */
  predicate Repeated(r: Row, rows: seq<Row>, keys: seq<string>) {
    r in rows && Null !in KeyOf(r, keys) && multiset(KeysOf(rows, keys))[KeyOf(r, keys)] > 1
  }

  /**
   The sample is in key order, holds repeated rows with their counts, and stops at the limit: a repeated
   row it leaves out for that reason comes no earlier than any row it shows.
   */
  lemma SampleMeaning(rows: seq<Row>, keys: seq<string>, limit: nat)
    ensures var sample, shown := Sample(rows, keys, limit), Shown(rows, keys, limit);
            && |sample| == |shown| == Min(limit, |JoinedRows(rows, keys)|)
            && (forall i :: 0 <= i < |sample| ==>
                 sample[i].row == shown[i]
                   && sample[i].occurrences == multiset(KeysOf(rows, keys))[KeyOf(shown[i], keys)])
            && Sorted(shown, ByKey(keys))
            && (forall r :: r in shown ==> Repeated(r, rows, keys))
            && (forall r :: Repeated(r, rows, keys) ==>
                 r in shown || (|shown| == limit && Below(shown, r, ByKey(keys))))
  {
    ByKeyIsOrder(keys);
    LeastMeaning(JoinedRows(rows, keys), limit, ByKey(keys));
    forall r
      ensures r in JoinedRows(rows, keys) <==> Repeated(r, rows, keys)
    {
      JoinedAreRepeated(rows, keys, r);
    }
  }

  lemma JoinedAreRepeated(rows: seq<Row>, keys: seq<string>, r: Row)
    ensures r in JoinedRows(rows, keys) <==> Repeated(r, rows, keys)
  {
  }

  /**
   The sample can be empty although the run fails: exactly when the limit is 0 or every repeated key has a
   null in it.
   */
  lemma EmptySample(rows: seq<Row>, keys: seq<string>, limit: nat)
    ensures Sample(rows, keys, limit) == [] <==>
              limit == 0 || forall k :: k in RepeatedKeys(KeysOf(rows, keys)) ==> Null in k
  {
    var ks, joined := KeysOf(rows, keys), JoinedRows(rows, keys);
    forall k | k in RepeatedKeys(ks) && Null !in k
      ensures joined != []
    {
      RepeatedIsThere(rows, keys, k);
    }
    assert joined != [] ==> joined[0] in joined;
  }

  lemma RepeatedIsThere(rows: seq<Row>, keys: seq<string>, k: Key)
    requires k in RepeatedKeys(KeysOf(rows, keys)) && Null !in k
    ensures JoinedRows(rows, keys) != []
  {
    var ks := KeysOf(rows, keys);
    assert k in multiset(ks);
    var i :| 0 <= i < |ks| && ks[i] == k;
    assert rows[i] in JoinedRows(rows, keys);
  }

  lemma OwnColumn(column: string)
    ensures Unresolved([column], FirstSpelling([column])) == []
            && Resolved([column], FirstSpelling([column])) == [column]
  {
    var spelling := FirstSpelling([column]);
    assert spelling == map[Text.Fold(column) := column];
    assert [column][1..] == [] && [column][..0] == [];
  }

  lemma NullKeys(rows: seq<Row>, column: string)
    requires |rows| == 2 && rows[0] == rows[1] && Get(rows[0], column) == Null
    ensures |ToSet(KeysOf(rows, [column]))| == 1 && forall k :: k in KeysOf(rows, [column]) ==> Null in k
  {
    var ks := KeysOf(rows, [column]);
    assert ks == [ks[0], ks[0]] && ks[0][0] == Null;
    assert ToSet(ks) == {ks[0]};
  }

  /** A check fails with nothing to show for it: a key column with two nulls, whatever the limit. */
  lemma FailsWithEmptySample(column: string, limit: nat) returns (f: Frame)
    ensures f.columns == [column] && f.rows == [map[column := Null], map[column := Null]]
    ensures var r := Analyzed(f, [column], limit); r.Ok? && Fails(r.value) && r.value.sample == []
  {
    f := FrameData([column], map[column := TextKind], [map[column := Null], map[column := Null]]);
    OwnColumn(column);
    NullKeys(f.rows, column);
    SamplingMeaning(f.rows, [column], limit);
    NoneShown(f.rows, [column], limit);
  }

  lemma NoneShown(rows: seq<Row>, keys: seq<string>, limit: nat)
    requires forall k :: k in KeysOf(rows, keys) ==> Null in k
    ensures var r := Sampling(rows, keys, limit); r.Ok? && r.value.sample == []
  {
    var ks := KeysOf(rows, keys);
    assert forall k :: k in RepeatedKeys(ks) ==> k in multiset(ks);
    EmptySample(rows, keys, limit);
    EmptySample(rows, keys, 0);
  }

  // ----- the order of the sample

  /** A smaller number, an earlier text, or a kind that comes first. */
  ghost predicate CellBefore(a: Cell, b: Cell) {
    match (a, b)
    case (Num(x), Num(y)) => x < y
    case (Str(x), Str(y)) => TextBefore(x, y)
    case (Num(_), _) => true
    case (Str(_), Null) => true
    case _ => false
  }

  lemma CellOrderMeaning(a: Cell, b: Cell)
    requires a != b
    ensures CellAtMost(a, b) <==> CellBefore(a, b)
  {
    if a.Str? && b.Str? {
      TextOrderMeaning(a.text, b.text);
    }
  }

  /** The first column in which two keys differ decides. */
  ghost predicate KeyBefore(a: Key, b: Key) {
    exists i :: 0 <= i < |a| && i < |b| && a[..i] == b[..i] && a[i] != b[i] && CellBefore(a[i], b[i])
  }

  lemma SameFirstCell(c: Cell, a: Key, b: Key)
    ensures KeyBefore([c] + a, [c] + b) <==> KeyBefore(a, b)
  {
    var x, y := [c] + a, [c] + b;
    assert x[1..] == a && y[1..] == b;
    if i :| 0 <= i < |a| && i < |b| && a[..i] == b[..i] && a[i] != b[i] && CellBefore(a[i], b[i]) {
      assert x[..i + 1] == [c] + a[..i] && y[..i + 1] == [c] + b[..i];
      assert x[i + 1] == a[i] && y[i + 1] == b[i];
    }
    if i :| 0 <= i < |x| && i < |y| && x[..i] == y[..i] && x[i] != y[i] && CellBefore(x[i], y[i]) {
      assert i > 0;
      assert a[..i - 1] == x[..i][1..] && b[..i - 1] == y[..i][1..];
      assert a[i - 1] == x[i] && b[i - 1] == y[i];
    }
  }

  lemma DifferInFirstCell(a: Key, b: Key)
    requires a != [] && b != [] && a[0] != b[0]
    ensures KeyBefore(a, b) <==> CellBefore(a[0], b[0])
  {
    assert a[..0] == b[..0];
    assert forall i :: 0 < i <= |a| && i <= |b| ==> a[..i][0] != b[..i][0];
  }

  /** The order of keys is ascending, column by column. */
  lemma {:induction false} KeyOrderMeaning(a: Key, b: Key)
    requires |a| == |b|
    ensures KeyAtMost(a, b) <==> a == b || KeyBefore(a, b)
  {
    if a != [] {
      assert a == [a[0]] + a[1..] && b == [b[0]] + b[1..];
      if a[0] == b[0] {
        KeyOrderMeaning(a[1..], b[1..]);
        SameFirstCell(a[0], a[1..], b[1..]);
      } else {
        CellOrderMeaning(a[0], b[0]);
        DifferInFirstCell(a, b);
      }
    }
  }

  // ----- the whole check, on a frame and names as typed

  function TimesThere(r: Row, rows: seq<Row>, keys: seq<string>): nat {
    multiset(KeysOf(rows, keys))[KeyOf(r, keys)]
  }

  /** What the check counts, told by the rows themselves. */
  ghost predicate Counts(a: Analysis, rows: seq<Row>, keys: seq<string>) {
    && a.totalRows == |rows|
    && a.dupKeyCount == |set r | r in rows && TimesThere(r, rows, keys) > 1 :: KeyOf(r, keys)|
    && a.dupRowCount == |Filter(rows, r => TimesThere(r, rows, keys) > 1)|
  }

  function SampledRows(sample: seq<Sampled>): (rows: seq<Row>)
    ensures |rows| == |sample| && forall i :: 0 <= i < |sample| ==> rows[i] == sample[i].row
  {
    seq(|sample|, i requires 0 <= i < |sample| => sample[i].row)
  }

  /** Which rows the check shows: repeated ones, in key order, each with its count, no more than the limit. */
  ghost predicate Shows(sample: seq<Sampled>, rows: seq<Row>, keys: seq<string>, limit: nat) {
    var repeated := Filter(rows, r => TimesThere(r, rows, keys) > 1 && Null !in KeyOf(r, keys));
    && |sample| == Min(limit, |repeated|)
    && multiset(SampledRows(sample)) <= multiset(repeated)
    && (forall s :: s in sample ==> s.occurrences == TimesThere(s.row, rows, keys))
    && forall i, j :: 0 <= i < j < |sample| ==>
         var a, b := KeyOf(sample[i].row, keys), KeyOf(sample[j].row, keys);
         a == b || KeyBefore(a, b)
  }

  lemma {:induction false} FilterOfKeys(rows: seq<Row>, keys: seq<string>, p: Key -> bool)
    ensures |Filter(KeysOf(rows, keys), p)| == |Filter(rows, (r: Row) => p(KeyOf(r, keys)))|
  {
    if rows != [] {
      var front, last := rows[..|rows| - 1], rows[|rows| - 1];
      FilterOfKeys(front, keys, p);
      WholeIsFrontAndLast(rows);
      assert KeysOf(rows, keys) == KeysOf(front, keys) + [KeyOf(last, keys)];
      FilterPush(KeysOf(front, keys), KeyOf(last, keys), p);
      FilterPush(front, last, (r: Row) => p(KeyOf(r, keys)));
    }
  }

  lemma {:induction false} SameSum(ds: seq<Key>, f: Key -> nat, g: Key -> nat)
    requires forall k :: k in ds ==> f(k) == g(k)
    ensures Sum(ds, f) == Sum(ds, g)
  {
    if ds != [] {
      WholeIsFrontAndLast(ds);
      SameSum(ds[..|ds| - 1], f, g);
    }
  }

  /** The counts of the repeated keys add up to the rows that have one of them. */
  lemma RepeatedRowsCounted(ks: seq<Key>)
    ensures Sum(RepeatedKeys(ks), Occurrences(ks)) == |Filter(ks, k => multiset(ks)[k] > 1)|
  {
    var repeated, p := RepeatedKeys(ks), (k: Key) => multiset(ks)[k] > 1;
    var kept := Filter(ks, p);
    FirstOccurrencesDistinct(ks);
    FilterKeepsDistinct(FirstOccurrences(ks), p);
    OccurrencesAddUp(kept, repeated);
    forall k | k in repeated
      ensures Occurrences(ks)(k) == Occurrences(kept)(k)
    {
      OccurrencesKept(ks, p, k);
    }
    SameSum(repeated, Occurrences(ks), Occurrences(kept));
  }

  lemma RepeatedKeysCounted(rows: seq<Row>, keys: seq<string>)
    ensures |RepeatedKeys(KeysOf(rows, keys))| ==
            |set r | r in rows && TimesThere(r, rows, keys) > 1 :: KeyOf(r, keys)|
  {
    var ks := KeysOf(rows, keys);
    var them := set r | r in rows && TimesThere(r, rows, keys) > 1 :: KeyOf(r, keys);
    FirstOccurrencesDistinct(ks);
    FilterKeepsDistinct(FirstOccurrences(ks), k => multiset(ks)[k] > 1);
    DistinctCardinality(RepeatedKeys(ks));
    forall k
      ensures k in RepeatedKeys(ks) <==> k in them
    {
      if k in RepeatedKeys(ks) {
        assert k in multiset(ks);
        var i :| 0 <= i < |ks| && ks[i] == k;
        assert rows[i] in rows && KeyOf(rows[i], keys) == k;
      }
    }
    assert ToSet(RepeatedKeys(ks)) == them;
  }

  lemma RepeatedRowsAre(rows: seq<Row>, keys: seq<string>, ks: seq<Key>)
    requires ks == KeysOf(rows, keys)
    ensures |Filter(ks, k => multiset(ks)[k] > 1)| == |Filter(rows, r => TimesThere(r, rows, keys) > 1)|
  {
    var p := (k: Key) => multiset(ks)[k] > 1;
    FilterOfKeys(rows, keys, p);
    SameFilter(rows, (r: Row) => p(KeyOf(r, keys)), r => TimesThere(r, rows, keys) > 1);
    SameFilter(ks, p, k => multiset(ks)[k] > 1);
  }

  lemma CountsAre(rows: seq<Row>, keys: seq<string>, limit: nat)
    ensures Counts(AnalysisOf(rows, keys, limit), rows, keys)
  {
    RepeatedKeysCounted(rows, keys);
    RepeatedRowsCounted(KeysOf(rows, keys));
    RepeatedRowsAre(rows, keys, KeysOf(rows, keys));
  }

  lemma SampleShows(rows: seq<Row>, keys: seq<string>, limit: nat)
    ensures Shows(Sample(rows, keys, limit), rows, keys, limit)
  {
    var sample, shown := Sample(rows, keys, limit), Shown(rows, keys, limit);
    SampleMeaning(rows, keys, limit);
    JoinedAre(rows, keys);
    LeastOccurrences(JoinedRows(rows, keys), limit, ByKey(keys));
    assert SampledRows(sample) == shown;
    forall i, j | 0 <= i < j < |sample|
      ensures var a, b := KeyOf(sample[i].row, keys), KeyOf(sample[j].row, keys); a == b || KeyBefore(a, b)
    {
      KeyOrderMeaning(KeyOf(shown[i], keys), KeyOf(shown[j], keys));
      assert ByKey(keys)(shown[i], shown[j]);
    }
    forall s | s in sample
      ensures s.occurrences == TimesThere(s.row, rows, keys)
    {
      var i :| 0 <= i < |sample| && sample[i] == s;
    }
  }

  lemma JoinedAre(rows: seq<Row>, keys: seq<string>)
    ensures JoinedRows(rows, keys) == Filter(rows, r => TimesThere(r, rows, keys) > 1 && Null !in KeyOf(r, keys))
  {
    var ks := KeysOf(rows, keys);
    SameFilter(rows, (r: Row) => KeyOf(r, keys) in RepeatedKeys(ks) && Null !in KeyOf(r, keys),
               r => TimesThere(r, rows, keys) > 1 && Null !in KeyOf(r, keys));
  }

  /** Some key occurs more than once. */
  ghost predicate HasRepeats(rows: seq<Row>, keys: seq<string>) {
    exists r :: r in rows && TimesThere(r, rows, keys) > 1
  }

  lemma RepeatsAre(rows: seq<Row>, keys: seq<string>)
    ensures RepeatedKeys(KeysOf(rows, keys)) != [] <==> HasRepeats(rows, keys)
  {
    var ks := KeysOf(rows, keys);
    if RepeatedKeys(ks) != [] {
      var k := RepeatedKeys(ks)[0];
      assert k in RepeatedKeys(ks) && k in multiset(ks);
      var i :| 0 <= i < |ks| && ks[i] == k;
      assert rows[i] in rows && KeyOf(rows[i], keys) == k;
    }
    if r :| r in rows && TimesThere(r, rows, keys) > 1 {
      assert KeyOf(r, keys) in RepeatedKeys(ks);
    }
  }

  /**
   The check on a frame and key names as typed: refused without names, for names that match no column up to
   case, and for a negative limit once something repeats; else it counts the rows, the repeated keys and
   the rows that have them, fails if there are any, and shows as many as the limit allows.
   */
  lemma AnalyzedMeaning(f: Frame, asked: seq<string>, limit: int) returns (keys: seq<string>)
    ensures var r := Analyzed(f, asked, limit);
            if asked == [] then r == Err(NoKeyColumns)
            else if !AllNamed(f.columns, asked) then
              r == Err(KeyColumnsNotFound(Filter(asked, n => !HasName(f.columns, n))))
            else
              && AreColumnsFor(f.columns, asked, keys)
              && if limit < 0 && HasRepeats(f.rows, keys) then r == Err(NegativeLimit)
                 else
                   && r.Ok? && Counts(r.value, f.rows, keys) && (Fails(r.value) <==> HasRepeats(f.rows, keys))
                   && Shows(r.value.sample, f.rows, keys, if limit < 0 then 0 else limit)
  {
    keys := Resolved(asked, FirstSpelling(f.columns));
    UnresolvedAre(asked, f.columns);
    if asked != [] && AllNamed(f.columns, asked) {
      ResolvedAre(asked, f.columns);
      RepeatsAre(f.rows, keys);
      SamplingIs(f.rows, keys, limit);
    }
  }

  lemma SamplingIs(rows: seq<Row>, keys: seq<string>, limit: int)
    ensures var r := Sampling(rows, keys, limit);
            if limit < 0 && HasRepeats(rows, keys) then r == Err(NegativeLimit)
            else
              && r.Ok? && Counts(r.value, rows, keys) && (Fails(r.value) <==> HasRepeats(rows, keys))
              && Shows(r.value.sample, rows, keys, if limit < 0 then 0 else limit)
  {
    RepeatsAre(rows, keys);
    NoneRepeated(KeysOf(rows, keys));
    CountsAre(rows, keys, 0);
    SampleShows(rows, keys, 0);
    if limit >= 0 {
      CountsAre(rows, keys, limit);
      SampleShows(rows, keys, limit);
      if !HasRepeats(rows, keys) {
        NothingRepeated(rows, keys, limit);
      }
    }
  }

  lemma NothingRepeated(rows: seq<Row>, keys: seq<string>, limit: nat)
    requires !HasRepeats(rows, keys)
    ensures Sample(rows, keys, limit) == Sample(rows, keys, 0) == []
  {
    JoinedAre(rows, keys);
    NothingKept(rows, r => TimesThere(r, rows, keys) > 1 && Null !in KeyOf(r, keys));
  }
}
