/** File names for section titles: slugs, and the numbering that keeps them apart. */
module Slugs {
  import opened Numbering
  import Text

  predicate SlugChar(c: char) {
    'A' <= c <= 'Z' || 'a' <= c <= 'z' || '0' <= c <= '9' || c == '_' || c == '-'
  }

  /** Every run of other characters becomes one underscore; `inRun` says one was just written. */
  function Collapse(s: string, inRun: bool): (r: string)
    ensures forall c :: c in r ==> SlugChar(c)
  {
    if s == "" then ""
    else if SlugChar(s[0]) then [s[0]] + Collapse(s[1..], false)
    else (if inRun then "" else "_") + Collapse(s[1..], true)
  }

  function LStripUnderscores(s: string): (r: string)
    ensures forall c :: c in r ==> c in s
  {
    if s != "" && s[0] == '_' then LStripUnderscores(s[1..]) else s
  }

  function RStripUnderscores(s: string): (r: string)
    ensures r <= s
  {
    if s != "" && s[|s| - 1] == '_' then RStripUnderscores(s[..|s| - 1]) else s
  }

  /** A slug is never empty and holds only characters that cannot leave its directory. */
  function Slugify(title: string): (slug: string)
    ensures slug != "" && forall c :: c in slug ==> SlugChar(c)
  {
    var slug := RStripUnderscores(LStripUnderscores(Collapse(Text.Strip(title), false)));
    if slug == "" then "section" else slug
  }

  // ----- what a slug keeps of its title

  predicate AllSlugChars(s: string) { forall c :: c in s ==> SlugChar(c) }

  predicate NoSlugChars(s: string) { forall c :: c in s ==> !SlugChar(c) }

  /** Letters, digits, dashes and inner underscores, with nothing to strip at either end. */
  predicate PlainSlug(s: string) { s != "" && AllSlugChars(s) && s[0] != '_' && s[|s| - 1] != '_' }

  lemma {:induction false} CollapseRun(s: string, rest: string, inRun: bool)
    requires s != "" && AllSlugChars(s)
    ensures Collapse(s + rest, inRun) == s + Collapse(rest, false)
  {
    assert (s + rest)[1..] == s[1..] + rest && s[0] in s && s == [s[0]] + s[1..];
    if |s| == 1 {
      assert s[1..] + rest == rest;
    } else {
      CollapseRun(s[1..], rest, false);
      assert [s[0]] + (s[1..] + Collapse(rest, false)) == s + Collapse(rest, false);
    }
  }

  lemma {:induction false} CollapseGap(gap: string, rest: string, inRun: bool)
    requires NoSlugChars(gap) && gap != ""
    ensures Collapse(gap + rest, inRun) == (if inRun then "" else "_") + Collapse(rest, true)
  {
    assert (gap + rest)[1..] == gap[1..] + rest && gap[0] in gap;
    if |gap| == 1 {
      assert gap[1..] + rest == rest;
    } else {
      CollapseGap(gap[1..], rest, true);
      assert "" + Collapse(rest, true) == Collapse(rest, true);
    }
  }

  lemma PlainStays(s: string)
    requires PlainSlug(s)
    ensures Text.Strip(s) == s && RStripUnderscores(LStripUnderscores(s)) == s
  {
    assert s[0] in s && s[|s| - 1] in s;
    Text.TrimmedStrip(s);
    NotStripped(s);
  }

  /** A title of letters, digits, dashes and inner underscores stays as it is. */
  lemma SlugOfPlain(title: string)
    requires title != "" && title[0] != '_' && title[|title| - 1] != '_'
    requires forall c :: c in title ==>
               'A' <= c <= 'Z' || 'a' <= c <= 'z' || Text.IsDigit(c) || c == '_' || c == '-'
    ensures Slugify(title) == title
  {
    PlainStays(title);
    CollapseRun(title, "", false);
    assert title + "" == title;
  }

  lemma CollapseTwo(a: string, gap: string, b: string)
    requires a != "" && b != "" && AllSlugChars(a) && AllSlugChars(b) && NoSlugChars(gap) && gap != ""
    ensures Collapse(a + (gap + b), false) == a + ("_" + b)
  {
    CollapseRun(a, gap + b, false);
    CollapseGap(gap, b, false);
    CollapseRun(b, "", true);
    NothingMore(b);
  }

  lemma NothingMore(s: string)
    ensures s + "" == s
  {
  }

  lemma Ends(a: string, middle: string, b: string)
    requires a != "" && b != ""
    ensures a + middle + b == a + (middle + b)
    ensures var s := a + middle + b; s != "" && s[0] == a[0] && s[|s| - 1] == b[|b| - 1]
  {
  }

  /** Between two such parts, any run of other characters becomes one underscore. */
  lemma SlugOfTwoParts(a: string, gap: string, b: string)
    requires PlainSlug(a) && PlainSlug(b) && NoSlugChars(gap) && gap != ""
    ensures Slugify(a + gap + b) == a + "_" + b
  {
    Ends(a, gap, b);
    Ends(a, "_", b);
    assert a[0] in a && b[|b| - 1] in b;
    Text.TrimmedStrip(a + gap + b);
    CollapseTwo(a, gap, b);
    NotStripped(a + "_" + b);
  }

  lemma NotStrippedLeft(s: string)
    requires s != "" && s[0] != '_'
    ensures LStripUnderscores(s) == s
  {
  }

  lemma NotStrippedRight(s: string)
    requires s != "" && s[|s| - 1] != '_'
    ensures RStripUnderscores(s) == s
  {
  }

  lemma NotStripped(s: string)
    requires s != "" && s[0] != '_' && s[|s| - 1] != '_'
    ensures RStripUnderscores(LStripUnderscores(s)) == s
  {
    NotStrippedLeft(s);
    NotStrippedRight(s);
  }

  lemma {:induction false} OnlyUnderscores(s: string, inRun: bool)
    requires forall c :: c in s ==> c == '_' || !SlugChar(c)
    ensures forall c :: c in Collapse(s, inRun) ==> c == '_'
  {
    if s != "" {
      assert s[0] in s;
      OnlyUnderscores(s[1..], !SlugChar(s[0]));
    }
  }

  lemma {:induction false} StripsAll(s: string)
    requires forall c :: c in s ==> c == '_'
    ensures LStripUnderscores(s) == ""
  {
    if s != "" {
      assert s[0] in s && forall c :: c in s[1..] ==> c in s;
      StripsAll(s[1..]);
    }
  }

  /** A title with nothing to keep is called a section. */
  lemma SlugOfNothing(title: string)
    requires forall c :: c in title ==> c == '_' || !SlugChar(c)
    ensures Slugify(title) == "section"
  {
    var before, end := Text.StripTakesSpace(title);
    var stripped := Text.Strip(title);
    assert forall c :: c in stripped ==> c in title;
    OnlyUnderscores(stripped, false);
    StripsAll(Collapse(stripped, false));
  }

  lemma {:induction false} RStripEnds(s: string)
    ensures RStripUnderscores(s) == "" || RStripUnderscores(s)[|RStripUnderscores(s)| - 1] != '_'
  {
    if s != "" && s[|s| - 1] == '_' {
      RStripEnds(s[..|s| - 1]);
    }
  }

  lemma {:induction false} LStripStarts(s: string)
    ensures LStripUnderscores(s) == "" || LStripUnderscores(s)[0] != '_'
  {
    if s != "" && s[0] == '_' {
      LStripStarts(s[1..]);
    }
  }

  /** A slug is made of letters, digits, dashes and underscores, with no underscore at either end. */
  lemma SlugShape(title: string)
    ensures var slug := Slugify(title);
            && slug != "" && slug[0] != '_' && slug[|slug| - 1] != '_'
            && forall c :: c in slug ==>
                 'A' <= c <= 'Z' || 'a' <= c <= 'z' || Text.IsDigit(c) || c == '_' || c == '-'
  {
    var collapsed := Collapse(Text.Strip(title), false);
    LStripStarts(collapsed);
    RStripEnds(LStripUnderscores(collapsed));
  }

  /** The base itself, then base_1, base_2, and so on. */
  function Candidate(base: string, i: nat): string {
    if i == 0 then base else base + "_" + Text.Digits(i)
  }

  lemma CandidatesDiffer(base: string, i: nat, j: nat)
    requires Candidate(base, i) == Candidate(base, j)
    ensures i == j
  {
    if i > 0 && j > 0 {
      assert Candidate(base, i)[|base| + 1..] == Text.Digits(i);
      assert Candidate(base, j)[|base| + 1..] == Text.Digits(j);
      Text.DigitsInjective(i, j);
    }
  }

  function Candidates(base: string): nat -> string {
    (i: nat) => Candidate(base, i)
  }

  lemma CandidatesInjective(base: string)
    ensures Injective(Candidates(base))
  {
    forall i, j | Candidates(base)(i) == Candidates(base)(j)
      ensures i == j
    {
      CandidatesDiffer(base, i, j);
    }
  }

  /** The first candidate not yet used. */
  ghost function FreeSlug(base: string, used: set<string>): (slug: string)
    ensures slug !in used
  {
    CandidatesInjective(base);
    Candidate(base, FirstFree(Candidates(base), used, 0))
  }

  /** When the base is taken the next name is numbered 1, then 2, and so on past all that are taken. */
  lemma NumberedSlug(base: string, used: set<string>, n: nat)
    requires (forall i :: 0 < i < n ==> base + "_" + Text.Digits(i) in used) && (n > 0 ==> base in used)
    requires (if n == 0 then base else base + "_" + Text.Digits(n)) !in used
    ensures FreeSlug(base, used) == if n == 0 then base else base + "_" + Text.Digits(n)
  {
    var names := Candidates(base);
    CandidatesInjective(base);
    forall i | 0 <= i < n
      ensures names(i) in used
    {
    }
    FirstFreeIs(names, used, 0, n);
  }

  /** The loop of `_unique_slug`: at most |used| + 1 candidates are looked at, and no slug is given twice. */
  method UniqueSlug(title: string, used: set<string>) returns (slug: string, used': set<string>, tried: nat)
    ensures slug == FreeSlug(Slugify(title), used)
    ensures slug !in used && used' == used + {slug}
    ensures 1 <= tried <= |used| + 1
  {
    var base := Slugify(title);
    ghost var names := Candidates(base);
    CandidatesInjective(base);
    var i := 1;
    slug, tried := base, 1;
    while slug in used
      invariant i >= 1 && slug == names(i - 1) && tried == i
      invariant TakenBelow(names, used, i - 1)
      invariant i - 1 <= |used|
      decreases |used| + 1 - i
    {
      TakenAreFew(names, used, i);
      slug := base + "_" + Text.Digits(i);
      i := i + 1;
      tried := tried + 1;
    }
    FirstFreeIs(names, used, 0, i - 1);
    used' := used + {slug};
  }
}
