/** Strings as the program uses them: stripping, splitting, joining and decimal numerals. */
module Text {

  import opened Wrappers

  /** ASCII white space, as Python's `strip` and `split` see it. */
  predicate IsSpace(c: char) {
    var n := c as int;
    9 <= n <= 13 || 28 <= n <= 32
  }

  /** Tab, the line and page breaks, the four information separators, and the space. */
  lemma SpaceCharacters(c: char)
    ensures IsSpace(c) <==> c in "\t\n\U{0B}\U{0C}\r\U{1C}\U{1D}\U{1E}\U{1F} "
  {
    assert '\t' as int == 9 && '\n' as int == 10 && '\r' as int == 13 && ' ' as int == 32;
    assert '\U{0B}' as int == 11 && '\U{0C}' as int == 12 && '\U{1C}' as int == 28 && '\U{1D}' as int == 29;
    assert '\U{1E}' as int == 30 && '\U{1F}' as int == 31;
    OneOfTen("\t\n\U{0B}\U{0C}\r\U{1C}\U{1D}\U{1E}\U{1F} ", c);
  }

  lemma OneOfTen(s: string, c: char)
    requires |s| == 10
    ensures c in s <==> c == s[0] || c == s[1] || c == s[2] || c == s[3] || c == s[4] || c == s[5] || c == s[6]
                        || c == s[7] || c == s[8] || c == s[9]
  {
  }

  function LStrip(s: string): string {
    if s != "" && IsSpace(s[0]) then LStrip(s[1..]) else s
  }

  function RStrip(s: string): string {
    if s != "" && IsSpace(s[|s| - 1]) then RStrip(s[..|s| - 1]) else s
  }

  function Strip(s: string): string {
    RStrip(LStrip(s))
  }

  /** No white space at either end. */
  predicate Trimmed(s: string) {
    s == "" || (!IsSpace(s[0]) && !IsSpace(s[|s| - 1]))
  }

  function LowerChar(c: char): char {
    if 'A' <= c <= 'Z' then ((c as int) + 32) as char else c
  }

  function UpperChar(c: char): char {
    if 'a' <= c <= 'z' then ((c as int) - 32) as char else c
  }

  /** ASCII case folding. */
  function Fold(s: string): string {
    seq(|s|, i requires 0 <= i < |s| => LowerChar(s[i]))
  }

  function Upper(s: string): string {
    seq(|s|, i requires 0 <= i < |s| => UpperChar(s[i]))
  }

  /** Index of the first occurrence of a character, or None. */
  function IndexOf(s: string, c: char): (r: Option<nat>)
    ensures r.None? ==> c !in s
    ensures r.Some? ==> r.value < |s| && s[r.value] == c && forall i :: 0 <= i < r.value ==> s[i] != c
  {
    if s == "" then None
    else if s[0] == c then Some(0)
    else
      match IndexOf(s[1..], c)
      case None => None
      case Some(i) => Some(i + 1)
  }

  lemma IndexOfFirst(p: string, c: char, rest: string)
    requires c !in p
    ensures IndexOf(p + [c] + rest, c) == Some(|p|)
  {
    var s := p + [c] + rest;
    assert s[|p|] == c;
    assert forall i :: 0 <= i < |p| ==> s[i] == p[i];
  }

  // ----- splitting and joining

  /** `s.split(sep)`: always at least one part. */
  function Split(s: string, sep: char): (parts: seq<string>)
    ensures |parts| >= 1
  {
    if s == "" then [""]
    else
      var rest := Split(s[1..], sep);
      if s[0] == sep then [""] + rest else [[s[0]] + rest[0]] + rest[1..]
  }

  function Join(parts: seq<string>, sep: char): string {
    if parts == [] then ""
    else if |parts| == 1 then parts[0]
    else parts[0] + [sep] + Join(parts[1..], sep)
  }

  lemma {:induction false} SplitPrefix(p: string, sep: char, rest: string)
    requires sep !in p
    ensures Split(p + [sep] + rest, sep) == [p] + Split(rest, sep)
  {
    var s := p + [sep] + rest;
    if p == "" {
      assert s[1..] == rest;
    } else {
      SplitPrefix(p[1..], sep, rest);
      assert s[1..] == p[1..] + [sep] + rest;
      assert [p[0]] + p[1..] == p;
    }
  }

  lemma {:induction false} SplitWhole(p: string, sep: char)
    requires sep !in p
    ensures Split(p, sep) == [p]
  {
    if p != "" {
      SplitWhole(p[1..], sep);
      assert [p[0]] + p[1..] == p;
    }
  }

  /** Splitting undoes joining when no part contains the separator. */
  lemma {:induction false} SplitJoin(parts: seq<string>, sep: char)
    requires parts != []
    requires forall p :: p in parts ==> sep !in p
    ensures Split(Join(parts, sep), sep) == parts
  {
    if |parts| == 1 {
      SplitWhole(parts[0], sep);
    } else {
      SplitJoin(parts[1..], sep);
      SplitPrefix(parts[0], sep, Join(parts[1..], sep));
    }
  }

  // ----- words

  /** `s.split()`: the maximal runs of non-space characters. */
  function Words(s: string): seq<string> {
    WordsFrom(s, "")
  }

  function WordsFrom(s: string, word: string): seq<string> {
    if s == "" then (if word == "" then [] else [word])
    else if IsSpace(s[0]) then (if word == "" then [] else [word]) + WordsFrom(s[1..], "")
    else WordsFrom(s[1..], word + [s[0]])
  }

  predicate IsWord(s: string) {
    s != "" && forall c :: c in s ==> !IsSpace(c)
  }

  lemma {:induction false} WordsFromRun(w: string, word: string, rest: string)
    requires forall c :: c in w ==> !IsSpace(c)
    ensures WordsFrom(w + rest, word) == WordsFrom(rest, word + w)
  {
    if w == "" {
      assert w + rest == rest && word + w == word;
    } else {
      var s := w + rest;
      assert s[1..] == w[1..] + rest;
      WordsFromRun(w[1..], word + [w[0]], rest);
      assert word + [w[0]] + w[1..] == word + w;
    }
  }

  lemma {:induction false} WordsJoin(parts: seq<string>)
    requires parts != []
    requires forall p :: p in parts ==> IsWord(p)
    ensures Words(Join(parts, ' ')) == parts
  {
    var p := parts[0];
    assert IsWord(p);
    if |parts| == 1 {
      WordsFromRun(p, "", "");
      assert p + "" == p && "" + p == p;
    } else {
      var rest := Join(parts[1..], ' ');
      WordsJoin(parts[1..]);
      WordsFromRun(p, "", " " + rest);
      assert p + " " + rest == p + (" " + rest) && "" + p == p;
      assert (" " + rest)[1..] == rest;
    }
  }

  /** Words one after another, each after a gap of its own. */
  function Laid(gaps: seq<string>, parts: seq<string>): string
    requires |gaps| == |parts|
  {
    if parts == [] then "" else gaps[0] + parts[0] + Laid(gaps[1..], parts[1..])
  }

  predicate Blank(s: string) { forall c :: c in s ==> IsSpace(c) }

  /** White space between the words, and any or none around them. */
  ghost predicate Gaps(gaps: seq<string>, parts: seq<string>, end: string) {
    && |gaps| == |parts| && Blank(end)
    && (forall i :: 0 <= i < |gaps| ==> Blank(gaps[i]))
    && (forall i :: 0 < i < |gaps| ==> gaps[i] != "")
    && forall i :: 0 <= i < |parts| ==> IsWord(parts[i])
  }

  lemma {:induction false} WordsFromGap(gap: string, rest: string)
    requires Blank(gap)
    ensures WordsFrom(gap + rest, "") == WordsFrom(rest, "")
  {
    if gap == "" {
      assert gap + rest == rest;
    } else {
      assert (gap + rest)[1..] == gap[1..] + rest;
      WordsFromGap(gap[1..], rest);
    }
  }

  lemma WordEnds(word: string, gap: string, rest: string)
    requires word != "" && Blank(gap) && (gap != "" || rest == "")
    ensures WordsFrom(gap + rest, word) == [word] + WordsFrom(rest, "")
  {
    if gap == "" {
      assert gap + rest == "";
    } else {
      assert (gap + rest)[1..] == gap[1..] + rest && gap[0] in gap;
      WordsFromGap(gap[1..], rest);
    }
  }

  lemma Regrouped(gap: string, word: string, more: string, end: string)
    ensures (gap + word + more) + end == gap + (word + (more + end))
  {
  }

  lemma WordsFromFirst(word: string, rest: string)
    requires IsWord(word)
    ensures WordsFrom(word + rest, "") == WordsFrom(rest, word)
  {
    WordsFromRun(word, "", rest);
    assert "" + word == word;
  }

  /** Splitting into words does not depend on the white space around and between them. */
  lemma {:induction false} WordsLaid(gaps: seq<string>, parts: seq<string>, end: string)
    requires Gaps(gaps, parts, end)
    ensures Words(Laid(gaps, parts) + end) == parts
  {
    if parts == [] {
      assert "" + end == end + "";
      WordsFromGap(end, "");
    } else {
      var rest := Laid(gaps[1..], parts[1..]) + end;
      Regrouped(gaps[0], parts[0], Laid(gaps[1..], parts[1..]), end);
      WordsFromGap(gaps[0], parts[0] + rest);
      WordsFromFirst(parts[0], rest);
      WordsLaid(gaps[1..], parts[1..], end);
      AfterAWord(gaps[1..], parts[1..], end, parts[0]);
    }
  }

  lemma AfterAWord(gaps: seq<string>, parts: seq<string>, end: string, word: string)
    requires |gaps| == |parts| && Blank(end) && word != "" && (parts != [] ==> Blank(gaps[0]) && gaps[0] != "")
    ensures WordsFrom(Laid(gaps, parts) + end, word) == [word] + WordsFrom(Laid(gaps, parts) + end, "")
  {
    if parts == [] {
      assert Laid(gaps, parts) + end == end + "";
      WordEnds(word, end, "");
      WordsFromGap(end, "");
    } else {
      var rest := parts[0] + (Laid(gaps[1..], parts[1..]) + end);
      Regrouped(gaps[0], parts[0], Laid(gaps[1..], parts[1..]), end);
      WordEnds(word, gaps[0], rest);
      WordsFromGap(gaps[0], rest);
    }
  }

  lemma {:induction false} WordsFromEnd(s: string, end: char, word: string)
    requires IsSpace(end)
    ensures WordsFrom(s + [end], word) == WordsFrom(s, word)
  {
    if s == "" {
      assert (s + [end])[1..] == "";
    } else {
      assert (s + [end])[1..] == s[1..] + [end];
      WordsFromEnd(s[1..], end, if IsSpace(s[0]) then "" else word + [s[0]]);
    }
  }

  lemma {:induction false} WordsOfRStrip(s: string)
    ensures Words(RStrip(s)) == Words(s)
  {
    if s != "" && IsSpace(s[|s| - 1]) {
      var front := s[..|s| - 1];
      WordsOfRStrip(front);
      WordsFromEnd(front, s[|s| - 1], "");
      assert s == front + [s[|s| - 1]];
    }
  }

  lemma {:induction false} WordsOfLStrip(s: string)
    ensures Words(LStrip(s)) == Words(s)
  {
    if s != "" && IsSpace(s[0]) {
      WordsOfLStrip(s[1..]);
    }
  }

  lemma WordsOfStrip(s: string)
    ensures Words(Strip(s)) == Words(s)
  {
    WordsOfLStrip(s);
    WordsOfRStrip(LStrip(s));
  }

  lemma {:induction false} WordsFromStart(s: string, word: string)
    requires word != ""
    ensures WordsFrom(s, word) != [] && word <= WordsFrom(s, word)[0]
  {
    if s != "" && !IsSpace(s[0]) {
      WordsFromStart(s[1..], word + [s[0]]);
      var first := WordsFrom(s[1..], word + [s[0]])[0];
      assert word + [s[0]] <= first;
      assert forall i :: 0 <= i < |word| ==> word[i] == (word + [s[0]])[i];
    }
  }

  /** A text that does not start with white space starts with its first word. */
  lemma FirstWordStarts(s: string)
    requires s != "" && !IsSpace(s[0])
    ensures Words(s) != [] && Words(s)[0] != "" && Words(s)[0][0] == s[0]
  {
    WordsFromStart(s[1..], [s[0]]);
    assert "" + [s[0]] == [s[0]];
  }

  /** What stripping leaves is the text between white space, which is all it takes away. */
  lemma StripTakesSpace(s: string) returns (before: string, end: string)
    ensures s == before + Strip(s) + end && Blank(before) && Blank(end) && Trimmed(Strip(s))
  {
    before := LStripTakesSpace(s);
    end := RStripTakesSpace(LStrip(s));
    StripTrimmed(s);
    assert before + (Strip(s) + end) == before + Strip(s) + end;
  }

  lemma {:induction false} LStripTakesSpace(s: string) returns (before: string)
    ensures s == before + LStrip(s) && Blank(before)
  {
    before := "";
    if s != "" && IsSpace(s[0]) {
      var more := LStripTakesSpace(s[1..]);
      before := [s[0]] + more;
      assert s == [s[0]] + (more + LStrip(s[1..]));
    }
  }

  lemma {:induction false} RStripTakesSpace(s: string) returns (end: string)
    ensures s == RStrip(s) + end && Blank(end)
  {
    end := "";
    if s != "" && IsSpace(s[|s| - 1]) {
      var more := RStripTakesSpace(s[..|s| - 1]);
      end := more + [s[|s| - 1]];
      assert s == RStrip(s[..|s| - 1]) + more + [s[|s| - 1]];
    }
  }

  lemma TrimmedStrip(s: string)
    requires Trimmed(s)
    ensures Strip(s) == s
  {
  }

  lemma {:induction false} LStripShape(s: string)
    ensures LStrip(s) == "" || !IsSpace(LStrip(s)[0])
  {
    if s != "" && IsSpace(s[0]) {
      LStripShape(s[1..]);
    }
  }

  lemma {:induction false} RStripShape(s: string)
    ensures RStrip(s) <= s
    ensures RStrip(s) == "" || !IsSpace(RStrip(s)[|RStrip(s)| - 1])
  {
    if s != "" && IsSpace(s[|s| - 1]) {
      RStripShape(s[..|s| - 1]);
    }
  }

  lemma StripTrimmed(s: string)
    ensures Trimmed(Strip(s))
  {
    LStripShape(s);
    RStripShape(LStrip(s));
  }

  // ----- decimal numerals

  predicate IsDigit(c: char) { '0' <= c <= '9' }

  function DigitChar(d: nat): char
    requires d < 10
  {
    (d + '0' as int) as char
  }

  /** Decimal numeral without leading zeros. */
  function Digits(n: nat): (s: string)
    ensures s != "" && forall c :: c in s ==> IsDigit(c)
  {
    if n < 10 then [DigitChar(n)] else Digits(n / 10) + [DigitChar(n % 10)]
  }

  predicate AllDigits(s: string) {
    s != "" && forall c :: c in s ==> IsDigit(c)
  }

  function DigitsValue(s: string): (n: int)
    requires forall c :: c in s ==> IsDigit(c)
    ensures n >= 0
  {
    if s == "" then 0
    else
      assert IsDigit(s[|s| - 1]);
      DigitsValue(s[..|s| - 1]) * 10 + (s[|s| - 1] as int - '0' as int)
  }

  /** `int(s)` for an optional sign followed by ASCII digits. */
  function ParseInt(s: string): Option<int> {
    if AllDigits(s) then Some(DigitsValue(s))
    else if s != "" && s[0] == '+' && AllDigits(s[1..]) then Some(DigitsValue(s[1..]))
    else if s != "" && s[0] == '-' && AllDigits(s[1..]) then Some(-DigitsValue(s[1..]))
    else None
  }

  lemma {:induction false} DigitsRoundTrip(n: nat)
    ensures ParseInt(Digits(n)) == Some(n as int)
    ensures DigitsValue(Digits(n)) == n
  {
    if n < 10 {
      assert DigitsValue([DigitChar(n)][..0]) == 0;
    } else {
      DigitsRoundTrip(n / 10);
      var s := Digits(n);
      assert s[..|s| - 1] == Digits(n / 10);
    }
  }

  lemma DigitsInjective(m: nat, n: nat)
    requires Digits(m) == Digits(n)
    ensures m == n
  {
    DigitsRoundTrip(m);
    DigitsRoundTrip(n);
  }

  function Pow10(k: nat): (p: nat)
    ensures p >= 1
  {
    if k == 0 then 1 else 10 * Pow10(k - 1)
  }

  lemma {:induction false} DigitsLength(n: nat, k: nat)
    requires k >= 1 && n < Pow10(k)
    ensures |Digits(n)| <= k
    decreases k
  {
    if n >= 10 {
      assert k > 1 by {
        assert Pow10(1) == 10 * Pow10(0);
      }
      DigitsLength(n / 10, k - 1);
    }
  }
}
