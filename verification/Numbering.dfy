/** Looking through numbered candidate names for the first one not yet used. */
module Numbering {

  /** The candidates are pairwise different. */
  ghost predicate Injective(names: nat -> string) {
    forall i, j :: names(i) == names(j) ==> i == j
  }

  ghost predicate TakenBelow(names: nat -> string, used: set<string>, i: nat) {
    forall j :: 0 <= j < i ==> names(j) in used
  }

  /** Taken candidates are different elements of the used set, so there are no more of them than that. */
  lemma {:induction false} TakenAreFew(names: nat -> string, used: set<string>, i: nat)
    requires Injective(names) && TakenBelow(names, used, i)
    ensures i <= |used|
  {
    if i > 0 {
      TakenAreFew(names, used - {names(i - 1)}, i - 1);
    }
  }

  /** The first free candidate, looking from i on. */
  ghost function FirstFree(names: nat -> string, used: set<string>, i: nat): (n: nat)
    requires Injective(names) && TakenBelow(names, used, i)
    ensures i <= n <= |used| && names(n) !in used && TakenBelow(names, used, n)
    decreases |used| + 1 - i
  {
    TakenAreFew(names, used, i);
    if names(i) !in used then i
    else
      TakenAreFew(names, used, i + 1);
      FirstFree(names, used, i + 1)
  }

  /** However far one has looked, the first free candidate is the same. */
  lemma {:induction false} FirstFreeIs(names: nat -> string, used: set<string>, i: nat, n: nat)
    requires Injective(names) && TakenBelow(names, used, i) && i <= n && TakenBelow(names, used, n) && names(n) !in used
    ensures FirstFree(names, used, i) == n
    decreases n - i
  {
    if i < n {
      FirstFreeIs(names, used, i + 1, n);
    }
  }
}
