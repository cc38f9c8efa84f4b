/** Tables of cells, and the meaning given to a data-frame library's join and duplicate operations. */
module Frames {
  import opened Wrappers
  import opened Sequences

  datatype Cell = Null | Num(value: real) | Str(text: string)

  /** Column types. `Int64` cannot hold a missing value; `NullableInt` can. */
  datatype Kind = Int64 | NullableInt | Float64 | TextKind {
    predicate IsNumeric() { !TextKind? }
  }

  predicate Fits(k: Kind, c: Cell) {
    match k
    case Int64 => c.Num? && c.value == c.value.Floor as real
    case NullableInt => c.Null? || (c.Num? && c.value == c.value.Floor as real)
    case Float64 => c.Null? || c.Num?
    case TextKind => c.Null? || c.Str?
  }

  type Row = map<string, Cell>

  datatype FrameData = FrameData(columns: seq<string>, kinds: map<string, Kind>, rows: seq<Row>)

  ghost predicate RowFits(kinds: map<string, Kind>, r: Row) {
    r.Keys == kinds.Keys && forall c :: c in r ==> Fits(kinds[c], r[c])
  }

  ghost predicate ValidFrame(f: FrameData) {
    && Distinct(f.columns)
    && (forall c :: c in f.columns <==> c in f.kinds)
    && (forall r :: r in f.rows ==> RowFits(f.kinds, r))
  }

  type Frame = f: FrameData | ValidFrame(f) ghost witness FrameData([], map[], [])

  function Get(r: Row, c: string): Cell {
    if c in r then r[c] else Null
  }

  // ----- rows under a key

  type Key = seq<Cell>

  function KeyOf(r: Row, keys: seq<string>): (k: Key)
    ensures |k| == |keys| && forall i :: 0 <= i < |keys| ==> k[i] == Get(r, keys[i])
  {
    seq(|keys|, i requires 0 <= i < |keys| => Get(r, keys[i]))
  }

  datatype Keyed<+T> = Keyed(key: Key, value: T)

  /** The rows' keys, and the rows under their keys. */
  function KeysOf(rows: seq<Row>, keys: seq<string>): (ks: seq<Key>)
    ensures |ks| == |rows| && forall i :: 0 <= i < |rows| ==> ks[i] == KeyOf(rows[i], keys)
  {
    seq(|rows|, i requires 0 <= i < |rows| => KeyOf(rows[i], keys))
  }

  function KeyedRows(rows: seq<Row>, keys: seq<string>): (keyed: seq<Keyed<Row>>)
    ensures |keyed| == |rows| && forall i :: 0 <= i < |rows| ==> keyed[i] == Keyed(KeyOf(rows[i], keys), rows[i])
  {
    seq(|rows|, i requires 0 <= i < |rows| => Keyed(KeyOf(rows[i], keys), rows[i]))
  }

  function Keys<T>(rows: seq<Keyed<T>>): (ks: seq<Key>)
    ensures |ks| == |rows| && forall i :: 0 <= i < |rows| ==> ks[i] == rows[i].key
  {
    seq(|rows|, i requires 0 <= i < |rows| => rows[i].key)
  }

  ghost function KeySet<T>(rows: seq<Keyed<T>>): set<Key> { ToSet(Keys(rows)) }

  /** `duplicated(keep="first")`: marks every row whose key an earlier row has. */
  function Duplicated<T>(rows: seq<Keyed<T>>): (mask: seq<bool>)
    ensures |mask| == |rows| && forall i :: 0 <= i < |rows| ==> mask[i] == (rows[i].key in Keys(rows[..i]))
  {
    seq(|rows|, i requires 0 <= i < |rows| => rows[i].key in Keys(rows[..i]))
  }

  /** The rows that are not marked. */
  function KeepFirst<T>(rows: seq<Keyed<T>>): seq<Keyed<T>> {
    if rows == [] then []
    else
      var front, last := rows[..|rows| - 1], rows[|rows| - 1];
      KeepFirst(front) + if last.key in Keys(front) then [] else [last]
  }

  lemma DuplicatedFront<T>(rows: seq<Keyed<T>>, n: nat)
    requires n <= |rows|
    ensures Duplicated(rows)[..n] == Duplicated(rows[..n]) && Not(Duplicated(rows))[..n] == Not(Duplicated(rows[..n]))
  {
    forall i | 0 <= i < n
      ensures rows[..n][..i] == rows[..i]
    {
    }
    assert Duplicated(rows)[..n] == Duplicated(rows[..n]);
  }

  lemma {:induction false} KeepFirstIsSelect<T>(rows: seq<Keyed<T>>)
    ensures Select(rows, Not(Duplicated(rows))) == KeepFirst(rows)
    ensures CountTrue(Duplicated(rows)) + |KeepFirst(rows)| == |rows|
  {
    if rows != [] {
      var n := |rows| - 1;
      KeepFirstIsSelect(rows[..n]);
      DuplicatedFront(rows, n);
    }
  }

  /** The value of the first row with this key. */
  function Lookup<T>(rows: seq<Keyed<T>>, k: Key): Option<T> {
    if rows == [] then None
    else if rows[0].key == k then Some(rows[0].value)
    else Lookup(rows[1..], k)
  }

  lemma {:induction false} LookupFound<T>(rows: seq<Keyed<T>>, k: Key)
    ensures Lookup(rows, k).Some? <==> k in Keys(rows)
  {
    if rows != [] {
      assert Keys(rows) == [rows[0].key] + Keys(rows[1..]);
      LookupFound(rows[1..], k);
    }
  }

  lemma {:induction false} LookupAppend<T>(rows: seq<Keyed<T>>, last: Keyed<T>, k: Key)
    ensures Lookup(rows + [last], k) ==
              if Lookup(rows, k).Some? then Lookup(rows, k) else if last.key == k then Some(last.value) else None
  {
    if rows != [] {
      assert (rows + [last])[1..] == rows[1..] + [last];
      LookupAppend(rows[1..], last, k);
    }
  }

  lemma KeysAppend<T>(rows: seq<Keyed<T>>, last: Keyed<T>)
    ensures Keys(rows + [last]) == Keys(rows) + [last.key]
  {
  }

  /** Dropping duplicates leaves distinct keys and loses none. */
  lemma {:induction false} KeepFirstKeys<T>(rows: seq<Keyed<T>>)
    ensures Distinct(Keys(KeepFirst(rows)))
    ensures forall k :: k in Keys(KeepFirst(rows)) <==> k in Keys(rows)
  {
    if rows != [] {
      var front, last := rows[..|rows| - 1], rows[|rows| - 1];
      KeepFirstKeys(front);
      KeysAppend(front, last);
      assert rows == front + [last];
      KeysAppend(KeepFirst(front), last);
      assert KeepFirst(front) + [] == KeepFirst(front);
    }
  }

  /** Each key keeps its first row. */
  lemma {:induction false} KeepFirstLookup<T>(rows: seq<Keyed<T>>, k: Key)
    ensures Lookup(KeepFirst(rows), k) == Lookup(rows, k)
  {
    if rows != [] {
      var front, last := rows[..|rows| - 1], rows[|rows| - 1];
      KeepFirstLookup(front, k);
      assert rows == front + [last];
      LookupAppend(front, last, k);
      LookupAppend(KeepFirst(front), last, k);
      LookupFound(front, k);
      assert KeepFirst(front) + [] == KeepFirst(front);
    }
  }

  lemma {:induction false} LookupAt<T>(rows: seq<Keyed<T>>, i: nat)
    requires i < |rows| && Distinct(Keys(rows))
    ensures Lookup(rows, rows[i].key) == Some(rows[i].value)
  {
    if i > 0 {
      assert Keys(rows)[0] != Keys(rows)[i];
      assert Keys(rows[1..]) == Keys(rows)[1..];
      LookupAt(rows[1..], i - 1);
    }
  }

  // ----- the left join

  datatype Joined<+A, +B> = Joined(key: Key, left: A, right: Option<B>)

  function Partners<B>(right: seq<Keyed<B>>, k: Key): seq<B> {
    if right == [] then []
    else (if right[0].key == k then [right[0].value] else []) + Partners(right[1..], k)
  }

  function JoinOne<A, B>(l: Keyed<A>, partners: seq<B>): seq<Joined<A, B>> {
    if partners == [] then [Joined(l.key, l.value, None)]
    else seq(|partners|, i requires 0 <= i < |partners| => Joined(l.key, l.value, Some(partners[i])))
  }

  /** Every left row once per equal right key, or once alone; null keys equal each other. */
  function LeftJoin<A, B>(left: seq<Keyed<A>>, right: seq<Keyed<B>>): seq<Joined<A, B>> {
    if left == [] then []
    else
      var last := left[|left| - 1];
      LeftJoin(left[..|left| - 1], right) + JoinOne(last, Partners(right, last.key))
  }

  lemma {:induction false} UniquePartner<B>(right: seq<Keyed<B>>, k: Key)
    requires Distinct(Keys(right))
    ensures Partners(right, k) == match Lookup(right, k) { case None => [] case Some(b) => [b] }
  {
    if right != [] {
      assert Keys(right) == [right[0].key] + Keys(right[1..]);
      UniquePartner(right[1..], k);
      LookupFound(right[1..], k);
    }
  }

  /** Each left row with the right row of its key, if there is one. */
  function Attached<A, B>(left: seq<Keyed<A>>, right: seq<Keyed<B>>): (joined: seq<Joined<A, B>>)
    ensures |joined| == |left|
    ensures forall i :: 0 <= i < |left| ==> joined[i] == Joined(left[i].key, left[i].value, Lookup(right, left[i].key))
  {
    if left == [] then []
    else
      var last := left[|left| - 1];
      Attached(left[..|left| - 1], right) + [Joined(last.key, last.value, Lookup(right, last.key))]
  }

  /** With distinct right keys nothing fans out: one joined row per left row, in order. */
  lemma {:induction false} LeftJoinUnique<A, B>(left: seq<Keyed<A>>, right: seq<Keyed<B>>)
    requires Distinct(Keys(right))
    ensures LeftJoin(left, right) == Attached(left, right)
  {
    if left != [] {
      LeftJoinUnique(left[..|left| - 1], right);
      OnePartner(left[|left| - 1], right);
    }
  }

  lemma OnePartner<A, B>(l: Keyed<A>, right: seq<Keyed<B>>)
    requires Distinct(Keys(right))
    ensures JoinOne(l, Partners(right, l.key)) == [Joined(l.key, l.value, Lookup(right, l.key))]
  {
    UniquePartner(right, l.key);
  }
}
