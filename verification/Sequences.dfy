/** Sequence helpers: filtering, masks, counting and first occurrences. */
module Sequences {

  function Min(a: int, b: int): int { if a < b then a else b }

  ghost predicate Distinct<T>(xs: seq<T>) {
    forall i, j :: 0 <= i < j < |xs| ==> xs[i] != xs[j]
  }

  function Map<T, U>(xs: seq<T>, f: T -> U): (ys: seq<U>)
    ensures |ys| == |xs| && forall i :: 0 <= i < |xs| ==> ys[i] == f(xs[i])
  {
    seq(|xs|, i requires 0 <= i < |xs| => f(xs[i]))
  }

  function Filter<T(!new)>(xs: seq<T>, p: T -> bool): (ys: seq<T>)
    ensures |ys| <= |xs|
    ensures forall x :: x in ys <==> x in xs && p(x)
  {
    if xs == [] then []
    else
      var last := xs[|xs| - 1];
      assert xs == xs[..|xs| - 1] + [last];
      Filter(xs[..|xs| - 1], p) + if p(last) then [last] else []
  }

  /** The elements whose mask entry is set: boolean indexing. */
  function Select<T>(xs: seq<T>, mask: seq<bool>): seq<T>
    requires |mask| == |xs|
  {
    if xs == [] then []
    else
      var n := |xs| - 1;
      Select(xs[..n], mask[..n]) + if mask[n] then [xs[n]] else []
  }

  lemma {:induction false} SelectIsFilter<T(!new)>(xs: seq<T>, mask: seq<bool>, p: T -> bool)
    requires |mask| == |xs| && forall i :: 0 <= i < |xs| ==> mask[i] == p(xs[i])
    ensures Select(xs, mask) == Filter(xs, p)
  {
    if xs != [] {
      SelectIsFilter(xs[..|xs| - 1], mask[..|xs| - 1], p);
    }
  }

  function Not(mask: seq<bool>): (flipped: seq<bool>)
    ensures |flipped| == |mask| && forall i :: 0 <= i < |mask| ==> flipped[i] == !mask[i]
  {
    seq(|mask|, i requires 0 <= i < |mask| => !mask[i])
  }

  function CountTrue(mask: seq<bool>): nat {
    if mask == [] then 0 else CountTrue(mask[..|mask| - 1]) + if mask[|mask| - 1] then 1 else 0
  }

  lemma {:induction false} CountTrueIsSelected<T>(xs: seq<T>, mask: seq<bool>)
    requires |mask| == |xs|
    ensures CountTrue(mask) == |Select(xs, mask)|
  {
    if xs != [] {
      CountTrueIsSelected(xs[..|xs| - 1], mask[..|xs| - 1]);
    }
  }

  lemma {:induction false} NothingMarked<T>(xs: seq<T>, mask: seq<bool>)
    requires |mask| == |xs| && CountTrue(mask) == 0
    ensures Select(xs, Not(mask)) == xs
  {
    if xs != [] {
      var n := |xs| - 1;
      NothingMarked(xs[..n], mask[..n]);
      assert Not(mask)[..n] == Not(mask[..n]);
    }
  }

  /** A predicate and its negation split a sequence. */
  lemma {:induction false} FilterSplits<T(!new)>(xs: seq<T>, p: T -> bool, q: T -> bool)
    requires forall x :: x in xs ==> q(x) == !p(x)
    ensures |Filter(xs, p)| + |Filter(xs, q)| == |xs|
  {
    if xs != [] {
      assert xs == xs[..|xs| - 1] + [xs[|xs| - 1]];
      FilterSplits(xs[..|xs| - 1], p, q);
    }
  }

  lemma {:induction false} NothingKept<T(!new)>(xs: seq<T>, p: T -> bool)
    requires forall x :: x in xs ==> !p(x)
    ensures Filter(xs, p) == []
  {
    if xs != [] {
      assert xs[|xs| - 1] in xs;
      NothingKept(xs[..|xs| - 1], p);
    }
  }

  lemma {:induction false} AllKept<T(!new)>(xs: seq<T>, p: T -> bool)
    ensures Filter(xs, p) == xs <==> forall x :: x in xs ==> p(x)
  {
    var kept := Filter(xs, p);
    if xs != [] {
      var front, last := xs[..|xs| - 1], xs[|xs| - 1];
      AllKept(front, p);
      assert xs == front + [last];
      if kept == xs {
        assert last in kept;
        assert Filter(front, p) == kept[..|kept| - 1];
      }
    }
  }

  lemma {:induction false} SameFilter<T(!new)>(xs: seq<T>, p: T -> bool, q: T -> bool)
    requires forall x :: x in xs ==> p(x) == q(x)
    ensures Filter(xs, p) == Filter(xs, q)
  {
    if xs != [] {
      assert xs[|xs| - 1] in xs;
      SameFilter(xs[..|xs| - 1], p, q);
    }
  }

  lemma FilterPush<T(!new)>(xs: seq<T>, x: T, p: T -> bool)
    ensures Filter(xs + [x], p) == Filter(xs, p) + if p(x) then [x] else []
  {
    assert (xs + [x])[..|xs|] == xs;
  }

  lemma NothingAdded<T>(xs: seq<T>)
    ensures xs + [] == xs
  {
  }

  lemma Regrouped<T>(xs: seq<T>, ys: seq<T>, n: nat)
    requires n + 1 == |ys|
    ensures xs + ys == (xs + ys[..n]) + [ys[n]] && ys == ys[..n] + [ys[n]]
  {
  }

  lemma {:induction false} FilterAppend<T(!new)>(xs: seq<T>, ys: seq<T>, p: T -> bool)
    ensures Filter(xs + ys, p) == Filter(xs, p) + Filter(ys, p)
  {
    if ys == [] {
      NothingAdded(xs);
      NothingAdded(Filter(xs, p));
    } else {
      var n := |ys| - 1;
      FilterAppend(xs, ys[..n], p);
      Regrouped(xs, ys, n);
      FilterPush(xs + ys[..n], ys[n], p);
      FilterPush(ys[..n], ys[n], p);
      Associative(Filter(xs, p), Filter(ys[..n], p), if p(ys[n]) then [ys[n]] else []);
    }
  }

  lemma Associative<T>(a: seq<T>, b: seq<T>, c: seq<T>)
    ensures (a + b) + c == a + (b + c)
  {
  }

  /** Filtering twice is filtering by the stronger predicate. */
  lemma {:induction false} FilterTwice<T(!new)>(xs: seq<T>, p: T -> bool, q: T -> bool)
    requires forall x :: q(x) ==> p(x)
    ensures Filter(Filter(xs, p), q) == Filter(xs, q)
  {
    if xs != [] {
      var front, last := xs[..|xs| - 1], xs[|xs| - 1];
      FilterTwice(front, p, q);
      assert xs == front + [last];
      FilterPush(front, last, p);
      FilterPush(front, last, q);
      if p(last) {
        FilterPush(Filter(front, p), last, q);
      } else {
        assert !q(last);
        assert Filter(xs, p) == Filter(front, p) && Filter(xs, q) == Filter(front, q);
      }
    }
  }

  /** Filtering by one predicate and then another is filtering by both. */
  lemma {:induction false} FilterBoth<T(!new)>(xs: seq<T>, p: T -> bool, q: T -> bool, both: T -> bool)
    requires forall x :: both(x) == (p(x) && q(x))
    ensures Filter(Filter(xs, p), q) == Filter(xs, both)
  {
    if xs != [] {
      var front, last := xs[..|xs| - 1], xs[|xs| - 1];
      FilterBoth(front, p, q, both);
      WholeIsFrontAndLast(xs);
      FilterPush(front, last, p);
      FilterPush(front, last, both);
      FilterPush(Filter(front, p), last, q);
      NothingAdded(Filter(front, p));
      NothingAdded(Filter(front, both));
    }
  }

  lemma {:induction false} FilterKeepsDistinct<T(!new)>(xs: seq<T>, p: T -> bool)
    requires Distinct(xs)
    ensures Distinct(Filter(xs, p))
  {
    if xs != [] {
      FilterKeepsDistinct(xs[..|xs| - 1], p);
    }
  }

  ghost function ToSet<T>(xs: seq<T>): set<T> {
    set x | x in xs
  }

  lemma SubsetSize<T>(a: set<T>, b: set<T>)
    requires a <= b
    ensures |a| <= |b|
  {
    assert b == a + (b - a);
  }

  /** A sequence without repetitions is as long as its set of elements is large. */
  lemma {:induction false} DistinctCardinality<T>(xs: seq<T>)
    requires Distinct(xs)
    ensures |ToSet(xs)| == |xs|
  {
    if xs == [] {
      assert ToSet(xs) == {};
    } else {
      var front, last := xs[..|xs| - 1], xs[|xs| - 1];
      DistinctCardinality(front);
      assert xs == front + [last];
      assert last !in front;
      assert ToSet(xs) == ToSet(front) + {last};
    }
  }

  /** A function cannot tell more elements apart than there are. */
  lemma {:induction false} ImageNoLarger<T, U>(s: set<T>, g: T -> U, image: set<U>)
    requires forall y :: y in image ==> exists x :: x in s && g(x) == y
    ensures |image| <= |s|
  {
    if image != {} {
      var y :| y in image;
      var x :| x in s && g(x) == y;
      ImageNoLarger(s - {x}, g, image - {y});
    }
  }

  /** The first occurrence of each element, in order: `drop_duplicates`. */
  function FirstOccurrences<T(==,!new)>(xs: seq<T>): (ys: seq<T>)
    ensures forall x :: x in ys <==> x in xs
  {
    if xs == [] then []
    else
      var front, last := xs[..|xs| - 1], xs[|xs| - 1];
      assert xs == front + [last];
      if last in front then FirstOccurrences(front) else FirstOccurrences(front) + [last]
  }

  lemma {:induction false} FirstOccurrencesDistinct<T(!new)>(xs: seq<T>)
    ensures Distinct(FirstOccurrences(xs)) && |FirstOccurrences(xs)| <= |xs|
  {
    if xs != [] {
      FirstOccurrencesDistinct(xs[..|xs| - 1]);
    }
  }

  lemma PrefixOfSum<T>(a: seq<T>, b: seq<T>, n: nat)
    requires n <= |a| + |b|
    ensures (a + b)[..n] == if n <= |a| then a[..n] else a + b[..n - |a|]
  {
  }

  lemma RemoveOneMore<K, V>(m: map<K, V>, ks: seq<K>, k: K)
    ensures m - ToSet(ks) - {k} == m - ToSet(ks + [k])
  {
    assert ToSet(ks + [k]) == ToSet(ks) + {k};
  }

  /** Marks each stored element the first time it comes up. */
  ghost predicate MarksFirst<T>(stored: set<T>, xs: seq<T>, marked: seq<bool>) {
    |marked| == |xs| && forall i :: 0 <= i < |xs| ==> marked[i] == (xs[i] in stored && xs[i] !in xs[..i])
  }

  lemma MarksFirstFront<T>(stored: set<T>, xs: seq<T>, marked: seq<bool>, n: nat)
    requires MarksFirst(stored, xs, marked) && n + 1 == |xs|
    ensures MarksFirst(stored, xs[..n], marked[..n]) && marked[n] == (xs[n] in stored && xs[n] !in xs[..n])
  {
    forall i | 0 <= i < n
      ensures xs[..n][..i] == xs[..i]
    {
    }
  }

  /** It marks as many as are stored and come up. */
  lemma {:induction false} MarkedOnce<T>(stored: set<T>, xs: seq<T>, marked: seq<bool>)
    requires MarksFirst(stored, xs, marked)
    ensures CountTrue(marked) == |stored * ToSet(xs)|
  {
    if xs == [] {
      assert stored * ToSet(xs) == {};
    } else {
      var front, last := xs[..|xs| - 1], xs[|xs| - 1];
      MarksFirstFront(stored, xs, marked, |xs| - 1);
      MarkedOnce(stored, front, marked[..|xs| - 1]);
      LastHit(stored, front, last);
      WholeIsFrontAndLast(xs);
    }
  }

  lemma WholeIsFrontAndLast<T>(xs: seq<T>)
    requires xs != []
    ensures xs[..|xs| - 1] + [xs[|xs| - 1]] == xs
  {
  }

  lemma LastHit<T>(stored: set<T>, xs: seq<T>, x: T)
    ensures |stored * ToSet(xs + [x])| == |stored * ToSet(xs)| + if x in stored && x !in xs then 1 else 0
  {
    if x in stored && x !in xs {
      assert stored * ToSet(xs + [x]) == stored * ToSet(xs) + {x};
    } else {
      assert stored * ToSet(xs + [x]) == stored * ToSet(xs);
    }
  }

  /** Filtering keeps every occurrence of an element or none. */
  lemma {:induction false} OccurrencesKept<T(!new)>(xs: seq<T>, p: T -> bool, x: T)
    ensures multiset(Filter(xs, p))[x] == if p(x) then multiset(xs)[x] else 0
  {
    if xs != [] {
      OccurrencesKept(xs[..|xs| - 1], p, x);
      WholeIsFrontAndLast(xs);
    }
  }

  lemma PrefixOccurrences<T>(xs: seq<T>, n: nat)
    requires n <= |xs|
    ensures multiset(xs[..n]) <= multiset(xs)
  {
    assert xs == xs[..n] + xs[n..];
  }
}
