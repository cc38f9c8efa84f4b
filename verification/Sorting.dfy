/** Insertion sort over an arbitrary order, and the orders the program sorts by. */
module Sorting {
  import opened Sequences

  ghost predicate TotalOrder<T(!new)>(le: (T, T) -> bool) {
    && (forall a, b :: le(a, b) || le(b, a))
    && (forall a, b, c :: le(a, b) && le(b, c) ==> le(a, c))
  }

  ghost predicate Sorted<T>(xs: seq<T>, le: (T, T) -> bool) {
    forall i, j :: 0 <= i < j < |xs| ==> le(xs[i], xs[j])
  }

  function Insert<T>(xs: seq<T>, x: T, le: (T, T) -> bool): (r: seq<T>)
    ensures multiset(r) == multiset(xs) + multiset{x}
  {
    if xs == [] then [x]
    else if le(xs[|xs| - 1], x) then xs + [x]
    else
      assert xs == xs[..|xs| - 1] + [xs[|xs| - 1]];
      Insert(xs[..|xs| - 1], x, le) + [xs[|xs| - 1]]
  }

  /** The elements in order; those that tie keep theirs. */
  function Sort<T>(xs: seq<T>, le: (T, T) -> bool): (r: seq<T>)
    ensures multiset(r) == multiset(xs) && |r| == |xs|
  {
    if xs == [] then []
    else
      assert xs == xs[..|xs| - 1] + [xs[|xs| - 1]];
      var r := Insert(Sort(xs[..|xs| - 1], le), xs[|xs| - 1], le);
      assert |r| == |multiset(r)|;
      r
  }

  lemma SameElements<T>(xs: seq<T>, ys: seq<T>)
    requires multiset(xs) == multiset(ys)
    ensures forall x :: x in xs <==> x in ys
  {
    forall x
      ensures x in xs <==> x in ys
    {
      assert x in xs <==> x in multiset(xs);
      assert x in ys <==> x in multiset(ys);
    }
  }

  ghost predicate Below<T>(xs: seq<T>, x: T, le: (T, T) -> bool) {
    forall y :: y in xs ==> le(y, x)
  }

  lemma LastIsGreatest<T(!new)>(xs: seq<T>, x: T, le: (T, T) -> bool)
    requires TotalOrder(le) && xs != [] && Sorted(xs, le) && le(xs[|xs| - 1], x)
    ensures Sorted(xs + [x], le)
  {
    forall i | 0 <= i < |xs|
      ensures le(xs[i], x)
    {
      assert i < |xs| - 1 ==> le(xs[i], xs[|xs| - 1]);
    }
  }

  lemma SortedPush<T>(xs: seq<T>, x: T, le: (T, T) -> bool)
    requires Sorted(xs, le) && Below(xs, x, le)
    ensures Sorted(xs + [x], le)
  {
    assert forall i :: 0 <= i < |xs| ==> xs[i] in xs;
  }

  lemma SortedFront<T>(xs: seq<T>, le: (T, T) -> bool)
    requires xs != [] && Sorted(xs, le)
    ensures Sorted(xs[..|xs| - 1], le)
    ensures Below(xs[..|xs| - 1], xs[|xs| - 1], le)
  {
    var front := xs[..|xs| - 1];
    assert forall i :: 0 <= i < |front| ==> front[i] == xs[i];
  }

  lemma {:induction false} InsertSorts<T(!new)>(xs: seq<T>, x: T, le: (T, T) -> bool)
    requires TotalOrder(le) && Sorted(xs, le)
    ensures Sorted(Insert(xs, x, le), le)
  {
    if xs != [] {
      var front, last := xs[..|xs| - 1], xs[|xs| - 1];
      if le(last, x) {
        LastIsGreatest(xs, x, le);
      } else {
        SortedFront(xs, le);
        InsertSorts(front, x, le);
        SameElements(Insert(front, x, le), front + [x]);
        assert Below(Insert(front, x, le), last, le);
        SortedPush(Insert(front, x, le), last, le);
      }
    }
  }

  lemma {:induction false} SortSorts<T(!new)>(xs: seq<T>, le: (T, T) -> bool)
    requires TotalOrder(le)
    ensures Sorted(Sort(xs, le), le)
  {
    if xs != [] {
      SortSorts(xs[..|xs| - 1], le);
      InsertSorts(Sort(xs[..|xs| - 1], le), xs[|xs| - 1], le);
    }
  }

  /** The first so many elements in order. */
  function Least<T>(xs: seq<T>, n: nat, le: (T, T) -> bool): seq<T> {
    var listed := Sort(xs, le);
    if n < |listed| then listed[..n] else listed
  }

  /** They are in order, and whatever is left out comes no earlier than any of them. */
  lemma LeastMeaning<T(!new)>(xs: seq<T>, n: nat, le: (T, T) -> bool)
    requires TotalOrder(le)
    ensures var least := Least(xs, n, le);
            && Sorted(least, le) && |least| == (if n < |xs| then n else |xs|)
            && (forall x :: x in least ==> x in xs)
            && (forall x :: x in xs ==> x in least || (|least| == n && Below(least, x, le)))
  {
    var listed, least := Sort(xs, le), Least(xs, n, le);
    SortSorts(xs, le);
    SameElements(listed, xs);
    assert forall i :: 0 <= i < |least| ==> least[i] == listed[i] && listed[i] in listed;
    forall x | x in xs
      ensures x in least || (|least| == n && Below(least, x, le))
    {
      var j :| 0 <= j < |listed| && listed[j] == x;
      assert j < |least| ==> least[j] == x;
    }
  }

  // ----- texts

  predicate TextAtMost(a: string, b: string) {
    a == "" || (b != "" && (a[0] < b[0] || (a[0] == b[0] && TextAtMost(a[1..], b[1..]))))
  }

  lemma {:induction false} TextOrderTotal(a: string, b: string)
    ensures TextAtMost(a, b) || TextAtMost(b, a)
  {
    if a != "" && b != "" {
      TextOrderTotal(a[1..], b[1..]);
    }
  }

  lemma {:induction false} TextOrderTransitive(a: string, b: string, c: string)
    requires TextAtMost(a, b) && TextAtMost(b, c)
    ensures TextAtMost(a, c)
  {
    if a != "" && a[0] == b[0] && b[0] == c[0] {
      TextOrderTransitive(a[1..], b[1..], c[1..]);
    }
  }

  lemma {:induction false} TextOrderAntisymmetric(a: string, b: string)
    requires TextAtMost(a, b) && TextAtMost(b, a)
    ensures a == b
  {
    if a != "" {
      TextOrderAntisymmetric(a[1..], b[1..]);
      assert a == [a[0]] + a[1..] && b == [b[0]] + b[1..];
    }
  }

  /** A proper beginning of the other text, or smaller at the first character where they differ. */
  ghost predicate TextBefore(a: string, b: string) {
    a < b || exists i :: 0 <= i < |a| && i < |b| && a[..i] == b[..i] && a[i] < b[i]
  }

  lemma SameStart(c: char, a: string, b: string)
    ensures TextBefore([c] + a, [c] + b) <==> TextBefore(a, b)
  {
    var x, y := [c] + a, [c] + b;
    assert x[1..] == a && y[1..] == b;
    assert a < b <==> x < y;
    if i :| 0 <= i < |a| && i < |b| && a[..i] == b[..i] && a[i] < b[i] {
      assert x[..i + 1] == [c] + a[..i] && y[..i + 1] == [c] + b[..i];
      assert x[i + 1] < y[i + 1];
    }
    if i :| 0 <= i < |x| && i < |y| && x[..i] == y[..i] && x[i] < y[i] {
      assert i > 0;
      assert a[..i - 1] == x[..i][1..] && b[..i - 1] == y[..i][1..];
      assert a[i - 1] < b[i - 1];
    }
  }

  /** The order of texts is the usual one, character by character. */
  lemma {:induction false} TextOrderMeaning(a: string, b: string)
    ensures TextAtMost(a, b) <==> a == b || TextBefore(a, b)
  {
    if a != "" && b != "" {
      assert a == [a[0]] + a[1..] && b == [b[0]] + b[1..];
      if a[0] == b[0] {
        TextOrderMeaning(a[1..], b[1..]);
        SameStart(a[0], a[1..], b[1..]);
      } else {
        DifferAtOnce(a, b);
      }
    }
  }

  lemma DifferAtOnce(a: string, b: string)
    requires a != "" && b != "" && a[0] != b[0]
    ensures TextBefore(a, b) <==> a[0] < b[0]
  {
    assert a[..0] == b[..0];
    assert forall i :: 0 < i <= |a| && i <= |b| ==> a[..i][0] != b[..i][0];
  }

  lemma {:induction false} FilterKeepsSorted<T(!new)>(xs: seq<T>, p: T -> bool, le: (T, T) -> bool)
    requires Sorted(xs, le)
    ensures Sorted(Filter(xs, p), le)
  {
    if xs != [] {
      var front, last := xs[..|xs| - 1], xs[|xs| - 1];
      WholeIsFrontAndLast(xs);
      SortedFront(xs, le);
      FilterKeepsSorted(front, p, le);
      if p(last) {
        SortedPush(Filter(front, p), last, le);
      }
    }
  }

  lemma LeastOccurrences<T(!new)>(xs: seq<T>, n: nat, le: (T, T) -> bool)
    ensures multiset(Least(xs, n, le)) <= multiset(xs)
    ensures n >= |xs| ==> multiset(Least(xs, n, le)) == multiset(xs)
  {
    var listed := Sort(xs, le);
    if n < |listed| {
      PrefixOccurrences(listed, n);
    }
  }
}
