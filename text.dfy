/**
  The Python `str` operations the scrapers rely on, stated over `seq<char>`.

  Character classes follow Python 3: whitespace is `str.isspace()` (which `\s`,
  `str.split()` and `str.strip()` all use), line boundaries are those of
  `str.splitlines()`. Case mapping and the `\w` word class are exact for ASCII and
  Latin-1 and treat characters above U+00FF as caseless non-word characters; `\d`
  is the ASCII digits.
 */
module Text {
  import opened Wrappers

  // ---------------------------------------------------------------------------
  // Character classes
  // ---------------------------------------------------------------------------

  /** `c.isspace()` */
  predicate IsSpace(c: char) {
    ('\t' <= c <= '\r') || ('\U{1C}' <= c <= ' ') || c == '\U{85}' || c == '\U{A0}'
    || c == '\U{1680}' || ('\U{2000}' <= c <= '\U{200A}') || c == '\U{2028}'
    || c == '\U{2029}' || c == '\U{202F}' || c == '\U{205F}' || c == '\U{3000}'
  }

  /** A character at which `str.splitlines()` ends a line. */
  predicate IsLineBoundary(c: char) {
    ('\n' <= c <= '\r') || ('\U{1C}' <= c <= '\U{1E}') || c == '\U{85}'
    || c == '\U{2028}' || c == '\U{2029}'
  }

  /** `\d` */
  predicate IsDigit(c: char) {
    '0' <= c <= '9'
  }

  predicate IsAsciiUpper(c: char) {
    'A' <= c <= 'Z'
  }

  /** `\w`: letters, digits and the underscore. */
  predicate IsWordChar(c: char) {
    ('a' <= c <= 'z') || ('A' <= c <= 'Z') || IsDigit(c) || c == '_'
    || c == '\U{AA}' || c == '\U{B2}' || c == '\U{B3}' || c == '\U{B5}' || c == '\U{B9}'
    || c == '\U{BA}' || ('\U{BC}' <= c <= '\U{BE}') || ('\U{C0}' <= c <= '\U{D6}')
    || ('\U{D8}' <= c <= '\U{F6}') || ('\U{F8}' <= c <= '\U{FF}')
  }

  /** `c.lower()` */
  function Lower(c: char): char {
    if 'A' <= c <= 'Z' || ('\U{C0}' <= c <= '\U{DE}' && c != '\U{D7}') then
      (c as int + 32) as char
    else
      c
  }

  /** `c.upper()` (and its title case, which `capitalize` uses). */
  function Upper(c: char): char {
    if 'a' <= c <= 'z' || ('\U{E0}' <= c <= '\U{FE}' && c != '\U{F7}') then
      (c as int - 32) as char
    else if c == '\U{FF}' then
      '\U{178}'
    else if c == '\U{B5}' then
      '\U{39C}'
    else
      c
  }

  lemma LineBoundaryIsSpace(c: char)
    ensures IsLineBoundary(c) ==> IsSpace(c)
  {
  }

  /** Lower-casing neither makes nor unmakes a word character. */
  lemma LowerKeepsWordChar(c: char)
    ensures IsWordChar(Lower(c)) == IsWordChar(c)
  {
  }

  /** Lower-casing twice is lower-casing once. */
  lemma LowerIdempotent(c: char)
    ensures Lower(Lower(c)) == Lower(c)
  {
  }

  /** The character at `p` is a word character; positions outside `s` are not. */
  predicate WordAt(s: string, p: int) {
    0 <= p < |s| && IsWordChar(s[p])
  }

  /** `\b` at position `p`: a word character on exactly one side of it. */
  predicate IsBoundary(s: string, p: int) {
    WordAt(s, p - 1) != WordAt(s, p)
  }

  /** Python truthiness of a `str | None`: present and nonempty. */
  predicate IsTruthy(o: Option<string>) {
    o.Some? && o.value != []
  }

  // ---------------------------------------------------------------------------
  // Case mapping of strings
  // ---------------------------------------------------------------------------

  /** `s.lower()` */
  function LowerStr(s: string): (r: string)
    ensures |r| == |s|
  {
    seq(|s|, i requires 0 <= i < |s| => Lower(s[i]))
  }

  /** `s.capitalize()`: first character upper-case, the rest lower-case. */
  function Capitalize(s: string): (r: string)
    ensures |r| == |s|
  {
    if s == [] then [] else [Upper(s[0])] + LowerStr(s[1..])
  }

  /** Characters `a` and `b` are equal under `re.IGNORECASE`. */
  predicate EqualsIgnoringCase(a: char, b: char) {
    Lower(a) == Lower(b)
  }

  /** `lit` (given in lower case) occurs at `i` in `s`, ignoring case. */
  predicate LiteralAtIgnoringCase(s: string, i: nat, lit: string) {
    i + |lit| <= |s| && forall k :: 0 <= k < |lit| ==> Lower(s[i + k]) == lit[k]
  }

  // ---------------------------------------------------------------------------
  // Stripping
  // ---------------------------------------------------------------------------

  predicate AllSpace(s: string) {
    forall k :: 0 <= k < |s| ==> IsSpace(s[k])
  }

  predicate NoSpace(s: string) {
    forall k :: 0 <= k < |s| ==> !IsSpace(s[k])
  }

  /** The number of whitespace characters `lstrip` removes. */
  function LeadingSpaces(s: string): (n: nat)
    ensures n <= |s| && AllSpace(s[..n])
    ensures n < |s| ==> !IsSpace(s[n])
  {
    if s != [] && IsSpace(s[0]) then
      var m := LeadingSpaces(s[1..]);
      SpacePrefixStep(s, m + 1);
      m + 1
    else 0
  }

  /** `s.lstrip()` */
  function TrimLeft(s: string): (r: string)
    ensures |r| <= |s| && r == s[|s| - |r|..]
    ensures AllSpace(s[..|s| - |r|])
    ensures r != [] ==> !IsSpace(r[0])
  {
    s[LeadingSpaces(s)..]
  }

  /** `s.rstrip()` */
  function TrimRight(s: string): (r: string)
    ensures |r| <= |s| && r == s[..|r|]
    ensures AllSpace(s[|r|..])
    ensures r != [] ==> !IsSpace(r[|r| - 1])
  {
    if s != [] && IsSpace(s[|s| - 1]) then
      var r := TrimRight(s[..|s| - 1]);
      SpaceSuffixStep(s, |r|);
      r
    else s
  }

  /** One more leading space extends a whitespace prefix. */
  lemma SpacePrefixStep(s: string, n: nat)
    requires 1 <= n <= |s| && IsSpace(s[0]) && AllSpace(s[1..][..n - 1])
    ensures AllSpace(s[..n])
  {
    forall k | 1 <= k < n
      ensures IsSpace(s[..n][k])
    {
      assert s[..n][k] == s[1..][..n - 1][k - 1];
    }
    assert s[..n][0] == s[0];
  }

  /** One more trailing space extends a whitespace suffix. */
  lemma SpaceSuffixStep(s: string, n: nat)
    requires n < |s| && IsSpace(s[|s| - 1]) && AllSpace(s[..|s| - 1][n..])
    ensures s[..|s| - 1][..n] == s[..n]
    ensures AllSpace(s[n..])
  {
    forall k | 0 <= k < |s| - 1 - n
      ensures IsSpace(s[n..][k])
    {
      assert s[n..][k] == s[..|s| - 1][n..][k];
    }
    assert s[n..][|s| - 1 - n] == s[|s| - 1];
  }

  /** `s.strip()` */
  function Strip(s: string): (r: string)
  {
    TrimRight(TrimLeft(s))
  }

  /** A stripped string has neither leading nor trailing whitespace. */
  predicate IsStripped(s: string) {
    s == [] || (!IsSpace(s[0]) && !IsSpace(s[|s| - 1]))
  }

  /** What `strip` removes is whitespace at both ends, and nothing else. */
  lemma StripSpec(s: string)
    ensures IsStripped(Strip(s))
    ensures exists i, j :: 0 <= i <= j <= |s| && Strip(s) == s[i..j]
                           && AllSpace(s[..i]) && AllSpace(s[j..])
  {
    var l := TrimLeft(s);
    var r := TrimRight(l);
    var i := |s| - |l|;
    assert r == s[i..i + |r|];
    assert s[i + |r|..] == l[|r|..];
  }

  lemma StripOfStripped(s: string)
    requires IsStripped(s)
    ensures Strip(s) == s
  {
  }

  /** `lstrip` keeps every character from the first non-space one on. */
  lemma {:induction false} TrimLeftKeeps(s: string, k: nat)
    requires k < |s| && !IsSpace(s[k])
    ensures |s| - |TrimLeft(s)| <= k
  {
    if IsSpace(s[0]) {
      TrimLeftKeeps(s[1..], k - 1);
    }
  }

  /** `rstrip` keeps every character up to the last non-space one. */
  lemma {:induction false} TrimRightKeeps(s: string, k: nat)
    requires k < |s| && !IsSpace(s[k])
    ensures k < |TrimRight(s)|
  {
    if IsSpace(s[|s| - 1]) {
      TrimRightKeeps(s[..|s| - 1], k);
    }
  }

  /** Stripping never removes a non-space character. */
  lemma StripKeepsNonSpace(s: string, k: nat)
    requires k < |s| && !IsSpace(s[k])
    ensures Strip(s) != []
  {
    var l := TrimLeft(s);
    TrimLeftKeeps(s, k);
    var off := |s| - |l|;
    assert l[k - off] == s[k];
    TrimRightKeeps(l, k - off);
  }

  /** A string strips to empty exactly when it is all whitespace. */
  lemma StripEmptyIffAllSpace(s: string)
    ensures Strip(s) == [] <==> AllSpace(s)
  {
    if Strip(s) == [] && !AllSpace(s) {
      var k :| 0 <= k < |s| && !IsSpace(s[k]);
      StripKeepsNonSpace(s, k);
    }
  }

  /** A concatenation is all whitespace exactly when both parts are. */
  lemma AllSpaceConcat(a: string, b: string)
    ensures AllSpace(a + b) <==> AllSpace(a) && AllSpace(b)
  {
    assert forall k :: 0 <= k < |a| ==> (a + b)[k] == a[k];
    assert forall k :: 0 <= k < |b| ==> (a + b)[|a| + k] == b[k];
  }

  /** `lstrip` removes exactly a whitespace prefix in front of a non-space character. */
  lemma {:induction false} TrimLeftPadded(a: string, b: string)
    requires AllSpace(a) && b != [] && !IsSpace(b[0])
    ensures TrimLeft(a + b) == b
  {
    if a != [] {
      assert (a + b)[1..] == a[1..] + b;
      TrimLeftPadded(a[1..], b);
    } else {
      assert a + b == b;
    }
  }

  /** `rstrip` removes exactly a whitespace suffix behind a non-space character. */
  lemma {:induction false} TrimRightPadded(b: string, c: string)
    requires AllSpace(c) && b != [] && !IsSpace(b[|b| - 1])
    ensures TrimRight(b + c) == b
  {
    if c != [] {
      assert (b + c)[..|b + c| - 1] == b + c[..|c| - 1];
      TrimRightPadded(b, c[..|c| - 1]);
    } else {
      assert b + c == b;
    }
  }

  /** Stripping a stripped text padded with whitespace on both sides gives the text back. */
  lemma StripPadded(a: string, b: string, c: string)
    requires AllSpace(a) && IsStripped(b) && AllSpace(c)
    ensures Strip(a + b + c) == b
  {
    if b == [] {
      AllSpaceConcat(a, c);
      assert a + b + c == a + c;
      StripEmptyIffAllSpace(a + c);
    } else {
      assert a + b + c == a + (b + c);
      TrimLeftPadded(a, b + c);
      TrimRightPadded(b, c);
    }
  }

  // ---------------------------------------------------------------------------
  // Searching
  // ---------------------------------------------------------------------------

  predicate OccursAt(s: string, sub: string, i: nat) {
    i + |sub| <= |s| && s[i..i + |sub|] == sub
  }

  /** `s.find(sub, i)`, as an index that is `None` where Python gives -1. */
  function FindFrom(s: string, sub: string, i: nat): (r: Option<nat>)
    requires i <= |s|
    decreases |s| - i
    ensures r.Some? ==> i <= r.value && OccursAt(s, sub, r.value)
    ensures r.Some? ==> forall k :: i <= k < r.value ==> !OccursAt(s, sub, k)
    ensures r.None? ==> forall k :: i <= k ==> !OccursAt(s, sub, k)
  {
    if OccursAt(s, sub, i) then Some(i)
    else if i == |s| then None
    else FindFrom(s, sub, i + 1)
  }

  /** `s.find(sub)` */
  function Find(s: string, sub: string): Option<nat> {
    FindFrom(s, sub, 0)
  }

  /** `sub in s` */
  predicate Contains(s: string, sub: string) {
    Find(s, sub).Some?
  }

  lemma ContainsAt(s: string, sub: string, i: nat)
    requires OccursAt(s, sub, i)
    ensures Contains(s, sub)
  {
  }

  lemma ContainsWitness(s: string, sub: string)
    requires Contains(s, sub)
    ensures OccursAt(s, sub, Find(s, sub).value)
  {
  }

  /** A substring of a string is found inside any string that contains it. */
  lemma ContainsInside(a: string, s: string, b: string, sub: string)
    requires Contains(s, sub)
    ensures Contains(a + s + b, sub)
  {
    var i := Find(s, sub).value;
    var t := a + s + b;
    assert t[|a| + i..|a| + i + |sub|] == s[i..i + |sub|];
    ContainsAt(t, sub, |a| + i);
  }

  /** Whatever contains `sub` contains every prefix of `sub`. */
  lemma ContainsPrefix(s: string, sub: string, pre: string)
    requires Contains(s, sub) && |pre| <= |sub| && sub[..|pre|] == pre
    ensures Contains(s, pre)
  {
    var i := Find(s, sub).value;
    assert s[i..i + |pre|] == sub[..|pre|];
    ContainsAt(s, pre, i);
  }

  /** Where `strip` cuts: the kept part is `s[i..j]`, with whitespace only outside it. */
  lemma StripBounds(s: string) returns (i: nat, j: nat)
    ensures i <= j <= |s| && Strip(s) == s[i..j]
    ensures forall k :: 0 <= k < i ==> IsSpace(s[k])
    ensures forall k :: j <= k < |s| ==> IsSpace(s[k])
  {
    var l := TrimLeft(s);
    var r := TrimRight(l);
    i := |s| - |l|;
    j := i + |r|;
    assert r == s[i..j];
    assert s[j..] == l[|r|..];
    forall k | 0 <= k < i
      ensures IsSpace(s[k])
    {
      assert s[..i][k] == s[k];
    }
    forall k | j <= k < |s|
      ensures IsSpace(s[k])
    {
      assert s[j..][k - j] == s[k];
    }
  }

  /** Stripping keeps every occurrence of a text that neither starts nor ends with whitespace. */
  lemma StripKeepsInner(s: string, sub: string)
    requires Contains(s, sub) && sub != [] && !IsSpace(sub[0]) && !IsSpace(sub[|sub| - 1])
    ensures Contains(Strip(s), sub)
  {
    var i, j := StripBounds(s);
    InnerKept(s, sub, i, j);
  }

  /** An occurrence with non-space ends lies inside a window outside which all is whitespace. */
  lemma InnerKept(s: string, sub: string, i: nat, j: nat)
    requires Contains(s, sub) && sub != [] && !IsSpace(sub[0]) && !IsSpace(sub[|sub| - 1])
    requires i <= j <= |s|
    requires forall k :: 0 <= k < i ==> IsSpace(s[k])
    requires forall k :: j <= k < |s| ==> IsSpace(s[k])
    ensures Contains(s[i..j], sub)
  {
    ContainsWitness(s, sub);
    var k := Find(s, sub).value;
    var last := k + |sub| - 1;
    OccurrenceEnds(s, sub, k, last);
    NonSpaceInside(s, i, j, k);
    NonSpaceInside(s, i, j, last);
    InnerOccurrence(s, sub, i, j, k);
    var t := s[i..j];
    ContainsAt(t, sub, k - i);
  }

  lemma OccurrenceEnds(s: string, sub: string, k: nat, last: nat)
    requires OccursAt(s, sub, k) && sub != [] && last == k + |sub| - 1
    requires !IsSpace(sub[0]) && !IsSpace(sub[|sub| - 1])
    ensures last < |s| && !IsSpace(s[k]) && !IsSpace(s[last])
  {
    assert s[k..k + |sub|][0] == s[k];
    assert s[k..k + |sub|][|sub| - 1] == s[k + |sub| - 1];
  }

  lemma NonSpaceInside(s: string, i: nat, j: nat, m: nat)
    requires i <= j <= |s| && m < |s| && !IsSpace(s[m])
    requires forall k :: 0 <= k < i ==> IsSpace(s[k])
    requires forall k :: j <= k < |s| ==> IsSpace(s[k])
    ensures i <= m < j
  {
  }

  lemma InnerOccurrence(s: string, sub: string, i: nat, j: nat, k: nat)
    requires i <= k && k + |sub| <= j <= |s| && OccursAt(s, sub, k)
    ensures OccursAt(s[i..j], sub, k - i)
  {
    var t := s[i..j];
    var u := t[k - i..k - i + |sub|];
    forall m | 0 <= m < |sub|
      ensures u[m] == sub[m]
    {
      assert u[m] == t[k - i + m] == s[k + m];
      assert s[k + m] == s[k..k + |sub|][m];
    }
    assert u == sub;
  }

  /** No element occurs twice. */
  predicate Distinct<T(==)>(s: seq<T>) {
    forall i, j :: 0 <= i < j < |s| ==> s[i] != s[j]
  }

  /** The halves of a duplicate-free concatenation are duplicate-free and disjoint. */
  lemma DistinctParts<T>(a: seq<T>, b: seq<T>)
    requires Distinct(a + b)
    ensures Distinct(a) && Distinct(b)
    ensures forall x :: x in b ==> x !in a
  {
    var ab := a + b;
    forall i, j | 0 <= i < j < |a|
      ensures a[i] != a[j]
    {
      assert a[i] == ab[i] && a[j] == ab[j];
    }
    forall i, j | 0 <= i < j < |b|
      ensures b[i] != b[j]
    {
      assert b[i] == ab[|a| + i] && b[j] == ab[|a| + j];
    }
    forall x | x in b
      ensures x !in a
    {
      var j :| 0 <= j < |b| && b[j] == x;
      assert ab[|a| + j] == x;
      forall i | 0 <= i < |a|
        ensures a[i] != x
      {
        assert ab[i] == a[i];
      }
    }
  }

  // ---------------------------------------------------------------------------
  // Joining and splitting
  // ---------------------------------------------------------------------------

  /** `sep.join(parts)` */
  function JoinWith(parts: seq<string>, sep: string): string {
    if |parts| == 0 then []
    else if |parts| == 1 then parts[0]
    else parts[0] + sep + JoinWith(parts[1..], sep)
  }

  lemma {:induction false} JoinWithAppend(parts: seq<string>, x: string, sep: string)
    ensures JoinWith(parts + [x], sep)
            == if parts == [] then x else JoinWith(parts, sep) + sep + x
  {
    if |parts| > 1 {
      assert (parts + [x])[1..] == parts[1..] + [x];
      JoinWithAppend(parts[1..], x, sep);
    } else if |parts| == 1 {
      assert (parts + [x])[1..] == [x];
    }
  }

  /** Joining two non-empty lists puts one separator between their joins. */
  lemma {:induction false} JoinWithConcat(a: seq<string>, b: seq<string>, sep: string)
    requires a != [] && b != []
    ensures JoinWith(a + b, sep) == JoinWith(a, sep) + sep + JoinWith(b, sep)
  {
    if |a| == 1 {
      assert (a + b)[1..] == b;
    } else {
      assert (a + b)[1..] == a[1..] + b;
      JoinWithConcat(a[1..], b, sep);
    }
  }

  /** Index of the first line boundary at or after `i`, or `|s|`. */
  function LineEnd(s: string, i: nat): (j: nat)
    requires i <= |s|
    decreases |s| - i
    ensures i <= j <= |s|
    ensures forall k :: i <= k < j ==> !IsLineBoundary(s[k])
    ensures j < |s| ==> IsLineBoundary(s[j])
  {
    if i == |s| || IsLineBoundary(s[i]) then i else LineEnd(s, i + 1)
  }

  /** `s.splitlines()`: "\r\n" ends one line, a final boundary adds no empty line. */
  function SplitLines(s: string): (lines: seq<string>)
    decreases |s|
    ensures forall l, k :: l in lines && 0 <= k < |l| ==> !IsLineBoundary(l[k])
  {
    if s == [] then []
    else
      var j := LineEnd(s, 0);
      if j == |s| then [s]
      else
        var next := if s[j] == '\r' && j + 1 < |s| && s[j + 1] == '\n' then j + 2 else j + 1;
        [s[..j]] + SplitLines(s[next..])
  }

  /** Index of the first `c` at or after `i`, or `|s|`. */
  function CharEnd(s: string, c: char, i: nat): (j: nat)
    requires i <= |s|
    decreases |s| - i
    ensures i <= j <= |s|
    ensures forall k :: i <= k < j ==> s[k] != c
    ensures j < |s| ==> s[j] == c
  {
    if i == |s| || s[i] == c then i else CharEnd(s, c, i + 1)
  }

  /** `s.split(c)` for a one-character separator: always at least one piece. */
  function SplitOn(s: string, c: char): (pieces: seq<string>)
    decreases |s|
    ensures |pieces| >= 1
  {
    var j := CharEnd(s, c, 0);
    if j == |s| then [s] else [s[..j]] + SplitOn(s[j + 1..], c)
  }

  /** Index of the first whitespace character at or after `i`, or `|s|`. */
  function SpaceEnd(s: string, i: nat): (j: nat)
    requires i <= |s|
    decreases |s| - i
    ensures i <= j <= |s|
    ensures forall k :: i <= k < j ==> !IsSpace(s[k])
    ensures j < |s| ==> IsSpace(s[j])
  {
    if i == |s| || IsSpace(s[i]) then i else SpaceEnd(s, i + 1)
  }

  /** `s.split()`: the maximal runs of non-whitespace. */
  function SplitWhitespace(s: string): (words: seq<string>)
    decreases |s|
    ensures forall w :: w in words ==> w != [] && NoSpace(w)
  {
    var t := TrimLeft(s);
    if t == [] then []
    else
      var j := SpaceEnd(t, 0);
      assert j > 0 && NoSpace(t[..j]);
      [t[..j]] + SplitWhitespace(t[j..])
  }

  /** `re.sub(r'\s+', ' ', s)`: every maximal whitespace run becomes one space. */
  function CollapseSpaceRuns(s: string): (r: string)
    decreases |s|
  {
    if s == [] then []
    else if IsSpace(s[0]) then " " + CollapseSpaceRuns(TrimLeft(s))
    else [s[0]] + CollapseSpaceRuns(s[1..])
  }

  /** Number of occurrences of `c` in `s`. */
  function CountChar(s: string, c: char): nat {
    if s == [] then 0 else (if s[0] == c then 1 else 0) + CountChar(s[1..], c)
  }

  lemma {:induction false} CountCharAppend(a: string, b: string, c: char)
    ensures CountChar(a + b, c) == CountChar(a, c) + CountChar(b, c)
  {
    if a != [] {
      assert (a + b)[1..] == a[1..] + b;
      CountCharAppend(a[1..], b, c);
    } else {
      assert a + b == b;
    }
  }

  /** A line without boundary characters. */
  predicate IsOneLine(l: string) {
    forall k :: 0 <= k < |l| ==> !IsLineBoundary(l[k])
  }

  /** A single line followed by a newline and more text splits off as the first line. */
  lemma SplitLinesCons(a: string, t: string)
    requires IsOneLine(a) && t != []
    ensures SplitLines(a + "\n" + t) == [a] + SplitLines(t)
  {
    var s := a + "\n" + t;
    var j := LineEnd(s, 0);
    assert s[|a|] == '\n';
    assert forall k :: 0 <= k < |a| ==> s[k] == a[k];
    assert j == |a|;
    assert s[j + 1..] == t;
    assert s[..j] == a;
  }

  /**
    `splitlines` undoes a newline-join of single lines, provided the last one is not
    empty (a trailing empty line would vanish).
   */
  lemma {:induction false} SplitLinesOfJoin(lines: seq<string>)
    requires forall i :: 0 <= i < |lines| ==> IsOneLine(lines[i])
    requires lines != [] ==> lines[|lines| - 1] != ""
    ensures SplitLines(JoinWith(lines, "\n")) == lines
  {
    if |lines| == 1 {
      assert LineEnd(lines[0], 0) == |lines[0]|;
    } else if |lines| > 1 {
      var rest := lines[1..];
      var tail := JoinWith(rest, "\n");
      assert JoinWith(lines, "\n") == lines[0] + "\n" + tail;
      SplitLinesOfJoin(rest);
      assert tail != [];
      SplitLinesCons(lines[0], tail);
      assert [lines[0]] + rest == lines;
    }
  }
}
