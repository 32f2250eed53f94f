/**
  Week-number detection of the PDF scraper: `extract_week_number` (body text),
  `extract_week_number_from_url` (file name) and the file-name gate `is_relevant_pdf`.

  Each regular expression is a hand-written matcher that returns the end of the
  match starting at a position; a search tries positions left to right, as
  `re.search` does. Where the regex engine would backtrack into `\s*`, `\.?` or
  `[\s\-\.]*`, giving characters back cannot help (the character given back is a
  space, dot or dash, never a digit), so the matchers take those runs greedily;
  the backtracking of `\d{1,2}\b` from two digits to one is kept.
 */
module WeekNumbers {
  import opened Wrappers
  import opened Text

  // ---------------------------------------------------------------------------
  // Building blocks of the patterns
  // ---------------------------------------------------------------------------

  /** End of the run of whitespace starting at `j` (`\s*`). */
  function SpacesEnd(s: string, j: nat): (e: nat)
    requires j <= |s|
    decreases |s| - j
    ensures j <= e <= |s|
    ensures forall k :: j <= k < e ==> IsSpace(s[k])
    ensures e < |s| ==> !IsSpace(s[e])
  {
    if j < |s| && IsSpace(s[j]) then SpacesEnd(s, j + 1) else j
  }

  /** `\d{1,2}` at `j`, greedy: the end of the digits. */
  function Digits12(s: string, j: nat): (r: Option<nat>)
    requires j <= |s|
    ensures r.Some? ==> j < r.value <= |s| && r.value <= j + 2
    ensures r.Some? ==> forall k :: j <= k < r.value ==> IsDigit(s[k])
  {
    if j < |s| && IsDigit(s[j]) then
      if j + 1 < |s| && IsDigit(s[j + 1]) then Some(j + 2) else Some(j + 1)
    else None
  }

  /** `\b` at position `p`. */
  predicate WordBoundary(s: string, p: nat)
    requires p <= |s|
  {
    (p > 0 && IsWordChar(s[p - 1])) != (p < |s| && IsWordChar(s[p]))
  }

  /** `\d{1,2}\b` at `j`: two digits if a boundary follows them, else one digit. */
  function Digits12Bounded(s: string, j: nat): (r: Option<nat>)
    requires j <= |s|
    ensures r.Some? ==> j < r.value <= |s| && r.value <= j + 2
    ensures r.Some? ==> forall k :: j <= k < r.value ==> IsDigit(s[k])
  {
    if j + 2 <= |s| && IsDigit(s[j]) && IsDigit(s[j + 1]) && WordBoundary(s, j + 2) then Some(j + 2)
    else if j + 1 <= |s| && IsDigit(s[j]) && WordBoundary(s, j + 1) then Some(j + 1)
    else None
  }

  // ---------------------------------------------------------------------------
  // extract_week_number
  // ---------------------------------------------------------------------------

  /** The word a week number is introduced by: "vecka", "week", or the letters v and w. */
  datatype Marker = VeckaWord | WeekWord | VToken | WToken

  /** A pattern of `extract_week_number` (`Body`) or of `extract_week_number_from_url` (`FileName`). */
  datatype WeekRegex = Body(m: Marker) | FileName(m: Marker)

  /** The patterns of `extract_week_number`, in the order they are tried. */
  const BodyPatterns: seq<WeekRegex> := [Body(VeckaWord), Body(WeekWord), Body(VToken), Body(WToken)]

  /** `\bv\.?\s*\d{1,2}\b` (letter 'v') or `\bw\.?\s*\d{1,2}\b` (letter 'w'). */
  function TokenAt(s: string, i: nat, letter: char): (r: Option<nat>)
    requires i <= |s|
    ensures r.Some? ==> i < r.value <= |s|
  {
    if i < |s| && WordBoundary(s, i) && Lower(s[i]) == letter then
      var d := if i + 1 < |s| && s[i + 1] == '.' then i + 2 else i + 1;
      Digits12Bounded(s, SpacesEnd(s, d))
    else None
  }

  /** End of the match of the body pattern for `p` that starts at `i`, ignoring case. */
  function BodyMatchAt(p: Marker, s: string, i: nat): (r: Option<nat>)
    requires i <= |s|
    ensures r.Some? ==> i < r.value <= |s|
  {
    match p
    case VeckaWord =>
      if LiteralAtIgnoringCase(s, i, "vecka") then Digits12(s, SpacesEnd(s, i + 5)) else None
    case WeekWord =>
      if LiteralAtIgnoringCase(s, i, "week") then Digits12(s, SpacesEnd(s, i + 4)) else None
    case VToken => TokenAt(s, i, 'v')
    case WToken => TokenAt(s, i, 'w')
  }

  /** `[\-_\.]`: the separators a file-name week marker may follow. */
  predicate IsSeparator(c: char) {
    c == '-' || c == '_' || c == '.'
  }

  /** `[\s\-\.]`: what may stand between a file-name marker and its digits. */
  predicate IsFiller(c: char) {
    IsSpace(c) || c == '-' || c == '.'
  }

  /** End of the run of filler characters starting at `j` (`[\s\-\.]*`). */
  function FillerEnd(s: string, j: nat): (e: nat)
    requires j <= |s|
    decreases |s| - j
    ensures j <= e <= |s|
    ensures forall k :: j <= k < e ==> IsFiller(s[k])
    ensures e < |s| ==> !IsFiller(s[e])
  {
    if j < |s| && IsFiller(s[j]) then FillerEnd(s, j + 1) else j
  }

  /**
    End of the match of `(?:^|[\-_\.])kw[\s\-\.]*\d{1,2}` that starts at `i`, ignoring
    case, where `kw` is the keyword of `p`: the `^` branch is tried first, then a separator.
   */
  function FileNameMatchAt(p: Marker, s: string, i: nat): (r: Option<nat>)
    requires i <= |s|
    ensures r.Some? ==> i < r.value <= |s|
  {
    KeywordMatchAt(Keyword(p), s, i)
  }

  /** `FileNameMatchAt` for the keyword `kw`. */
  function KeywordMatchAt(kw: string, s: string, i: nat): (r: Option<nat>)
    requires i <= |s|
    ensures r.Some? ==> i < r.value <= |s|
  {
    if i == 0 && LiteralAtIgnoringCase(s, 0, kw) && Digits12(s, FillerEnd(s, |kw|)).Some? then
      Digits12(s, FillerEnd(s, |kw|))
    else if i < |s| && IsSeparator(s[i]) && LiteralAtIgnoringCase(s, i + 1, kw) then
      Digits12(s, FillerEnd(s, i + 1 + |kw|))
    else None
  }

  function MatchAt(r: WeekRegex, s: string, i: nat): (e: Option<nat>)
    requires i <= |s|
    ensures e.Some? ==> i < e.value <= |s|
  {
    match r
    case Body(p) => BodyMatchAt(p, s, i)
    case FileName(p) => FileNameMatchAt(p, s, i)
  }

  /** The match results of `p` at every position of `s`, the end included. */
  function Matches(p: WeekRegex, s: string): (t: seq<Option<nat>>)
    ensures |t| == |s| + 1
    ensures forall k :: 0 <= k <= |s| ==> t[k] == MatchAt(p, s, k)
  {
    MatchesBelow(p, s, |s| + 1)
  }

  /** The match results of `p` at the positions below `n`. */
  function MatchesBelow(p: WeekRegex, s: string, n: nat): (t: seq<Option<nat>>)
    requires n <= |s| + 1
    ensures |t| == n
    ensures forall k :: 0 <= k < n ==> t[k] == MatchAt(p, s, k)
  {
    if n == 0 then [] else MatchesBelow(p, s, n - 1) + [MatchAt(p, s, n - 1)]
  }

  /** The first position at or after `i` where `t` records a match, with that match's end. */
  function FirstFrom(t: seq<Option<nat>>, i: nat): (r: Option<(nat, nat)>)
    requires i < |t|
    decreases |t| - i
    ensures r.Some? ==> i <= r.value.0 < |t| && t[r.value.0] == Some(r.value.1)
    ensures r.Some? ==> forall k :: i <= k < r.value.0 ==> t[k].None?
    ensures r.None? ==> forall k :: i <= k < |t| ==> t[k].None?
  {
    if t[i].Some? then Some((i, t[i].value))
    else if i == |t| - 1 then None
    else FirstFrom(t, i + 1)
  }

  /** `re.search`: the leftmost match of `p` starting at or after `i`, as (start, end). */
  function SearchFrom(p: WeekRegex, s: string, i: nat): (r: Option<(nat, nat)>)
    requires i <= |s|
    ensures r.Some? ==> i <= r.value.0 < r.value.1 <= |s| && MatchAt(p, s, r.value.0) == Some(r.value.1)
    ensures r.Some? ==> forall k :: i <= k < r.value.0 ==> MatchAt(p, s, k).None?
    ensures r.None? ==> forall k :: i <= k <= |s| ==> MatchAt(p, s, k).None?
  {
    FirstFrom(Matches(p, s), i)
  }

  lemma {:induction false} FirstFromSkips(t: seq<Option<nat>>, i: nat, j: nat, e: nat)
    requires i <= j < |t| && t[j] == Some(e)
    requires forall k :: i <= k < j ==> t[k].None?
    ensures FirstFrom(t, i) == Some((j, e))
    decreases j - i
  {
    if i < j {
      FirstFromSkips(t, i + 1, j, e);
    }
  }

  /** The search skips positions where the pattern does not match. */
  lemma SearchFromSkips(p: WeekRegex, s: string, i: nat, j: nat, e: nat)
    requires i <= j <= |s| && MatchAt(p, s, j) == Some(e)
    requires forall k :: i <= k < j ==> MatchAt(p, s, k).None?
    ensures SearchFrom(p, s, i) == Some((j, e))
  {
    FirstFromSkips(Matches(p, s), i, j, e);
  }

  /** `re.search(r, s)` finds nothing. */
  predicate MatchesNowhere(r: WeekRegex, s: string) {
    forall k :: 0 <= k <= |s| ==> MatchAt(r, s, k).None?
  }

  /** The matched text of the first pattern in `ps` that matches anywhere in `s`. */
  function FirstPatternMatch(s: string, ps: seq<WeekRegex>): Option<string> {
    if ps == [] then None
    else match SearchFrom(ps[0], s, 0)
      case Some(m) => Some(s[m.0..m.1])
      case None => FirstPatternMatch(s, ps[1..])
  }

  /** `re.sub(r'\s+', ' ', m.strip()).capitalize()` */
  function NormalizeWeek(m: string): string {
    Capitalize(CollapseSpaceRuns(Strip(m)))
  }

  /** `extract_week_number(text)` */
  function ExtractWeekNumber(text: string): Option<string> {
    match FirstPatternMatch(text, BodyPatterns)
    case Some(m) => Some(NormalizeWeek(m))
    case None => None
  }

  // ---------------------------------------------------------------------------
  // Normalised week labels
  // ---------------------------------------------------------------------------

  /** The letters a pattern matches, in lower case. */
  function Keyword(p: Marker): string {
    match p
    case VeckaWord => "vecka"
    case WeekWord => "week"
    case VToken => "v"
    case WToken => "w"
  }

  /** The keyword as `capitalize` leaves it. */
  function Head(p: Marker): string {
    match p
    case VeckaWord => "Vecka"
    case WeekWord => "Week"
    case VToken => "V"
    case WToken => "W"
  }

  predicate IsToken(p: Marker) {
    p == VToken || p == WToken
  }

  predicate IsDigits12(d: string) {
    (|d| == 1 || |d| == 2) && forall k :: 0 <= k < |d| ==> IsDigit(d[k])
  }

  function DotText(dot: bool): string {
    if dot then "." else ""
  }

  function SpaceText(space: bool): string {
    if space then " " else ""
  }

  /** A normalised week label: head, optional dot (tokens only), optional space, one or two digits. */
  function Label(p: Marker, dot: bool, space: bool, d: string): string {
    Head(p) + DotText(dot) + SpaceText(space) + d
  }

  predicate IsLabelParts(p: Marker, dot: bool, d: string) {
    IsDigits12(d) && (dot ==> IsToken(p))
  }

  // ---------------------------------------------------------------------------
  // The properties of extract_week_number
  // ---------------------------------------------------------------------------

  /**
    Patterns are tried in the fixed order vecka, week, v, w: the result comes from
    the leftmost match of the first pattern that matches at all, wherever the other
    patterns match; it is None exactly when no pattern matches anywhere.
   */
  lemma ExtractWeekNumberPriority(text: string)
    ensures ExtractWeekNumber(text).None? <==> NoneMatchBefore(text, BodyPatterns, |BodyPatterns|)
    ensures ExtractWeekNumber(text).Some? ==>
            exists j, a, b :: 0 <= j < |BodyPatterns|
              && NoneMatchBefore(text, BodyPatterns, j)
              && SearchFrom(BodyPatterns[j], text, 0) == Some((a, b))
              && ExtractWeekNumber(text) == Some(NormalizeWeek(text[a..b]))
  {
    FirstPatternMatchNone(text, BodyPatterns);
    if ExtractWeekNumber(text).Some? {
      var j, a, b := FirstPatternMatchFirst(text, BodyPatterns);
      assert ExtractWeekNumber(text) == Some(NormalizeWeek(text[a..b]));
    }
  }

  /** None of the first `j` patterns of `ps` matches anywhere in `s`. */
  predicate NoneMatchBefore(s: string, ps: seq<WeekRegex>, j: nat)
    requires j <= |ps|
  {
    forall i :: 0 <= i < j ==> MatchesNowhere(ps[i], s)
  }

  lemma NoneMatchBeforeCons(s: string, ps: seq<WeekRegex>, j: nat)
    requires 1 <= j <= |ps|
    ensures NoneMatchBefore(s, ps, j) <==> MatchesNowhere(ps[0], s) && NoneMatchBefore(s, ps[1..], j - 1)
  {
    assert forall i :: 0 <= i < j - 1 ==> ps[1..][i] == ps[i + 1];
  }

  /** `FirstPatternMatch` finds nothing exactly when no pattern matches anywhere. */
  lemma {:induction false} FirstPatternMatchNone(text: string, ps: seq<WeekRegex>)
    ensures FirstPatternMatch(text, ps).None? <==> NoneMatchBefore(text, ps, |ps|)
  {
    if ps != [] {
      FirstPatternMatchNone(text, ps[1..]);
      NoneMatchBeforeCons(text, ps, |ps|);
      var r := SearchFrom(ps[0], text, 0);
      if r.Some? {
        assert MatchAt(ps[0], text, r.value.0).Some?;
      }
    }
  }

  /** A result of `FirstPatternMatch` is the leftmost match of the first pattern that matches at all. */
  lemma {:induction false} FirstPatternMatchFirst(text: string, ps: seq<WeekRegex>) returns (j: nat, a: nat, b: nat)
    requires FirstPatternMatch(text, ps).Some?
    ensures j < |ps| && NoneMatchBefore(text, ps, j)
    ensures SearchFrom(ps[j], text, 0) == Some((a, b))
    ensures FirstPatternMatch(text, ps) == Some(text[a..b])
  {
    var r := SearchFrom(ps[0], text, 0);
    if r.Some? {
      j, a, b := 0, r.value.0, r.value.1;
    } else {
      var j', a', b' := FirstPatternMatchFirst(text, ps[1..]);
      j, a, b := j' + 1, a', b';
      NoneMatchBeforeCons(text, ps, j);
      assert ps[j] == ps[1..][j'];
    }
  }

  /** `c` lower-cases to the ASCII letter `t` only if it is `t` or its capital. */
  lemma LowerToAsciiLetter(c: char, t: char)
    requires 'a' <= t <= 'z' && Lower(c) == t
    ensures c == t || c as int == t as int - 32
  {
  }

  lemma HeadIsCapitalizedKeyword(p: Marker)
    ensures |Head(p)| == |Keyword(p)| > 0
    ensures 'a' <= Keyword(p)[0] <= 'z'
    ensures Head(p)[0] == Upper(Keyword(p)[0]) && Lower(Head(p)[0]) == Keyword(p)[0]
    ensures forall k :: 1 <= k < |Head(p)| ==> Head(p)[k] == Keyword(p)[k] && 'a' <= Head(p)[k] <= 'z'
  {
  }

  /** `Capitalize` compared character by character. */
  lemma CapitalizeIs(y: string, l: string)
    requires |y| == |l| && |y| > 0
    requires Upper(y[0]) == l[0]
    requires forall k :: 1 <= k < |y| ==> Lower(y[k]) == l[k]
    ensures Capitalize(y) == l
  {
    var c := Capitalize(y);
    forall k | 0 <= k < |l|
      ensures c[k] == l[k]
    {
      if k > 0 {
        assert c[k] == LowerStr(y[1..])[k - 1];
      }
    }
  }

  /** Collapsing leaves a prefix without whitespace alone. */
  lemma {:induction false} CollapseAfterNoSpace(x: string, y: string)
    requires NoSpace(x)
    ensures CollapseSpaceRuns(x + y) == x + CollapseSpaceRuns(y)
  {
    if x != [] {
      assert (x + y)[0] == x[0];
      assert (x + y)[1..] == x[1..] + y;
      CollapseAfterNoSpace(x[1..], y);
      assert [x[0]] + (x[1..] + CollapseSpaceRuns(y)) == x + CollapseSpaceRuns(y);
    } else {
      assert x + y == y;
    }
  }

  lemma {:induction false} TrimLeftAllSpace(ws: string, d: string)
    requires AllSpace(ws) && (d == [] || !IsSpace(d[0]))
    ensures TrimLeft(ws + d) == d
  {
    if ws != [] {
      assert (ws + d)[1..] == ws[1..] + d;
      TrimLeftAllSpace(ws[1..], d);
    } else {
      assert ws + d == d;
    }
  }

  /** A whitespace run before text without whitespace collapses to at most one space. */
  lemma CollapseTail(ws: string, d: string)
    requires AllSpace(ws) && d != [] && NoSpace(d)
    ensures CollapseSpaceRuns(ws + d) == SpaceText(ws != []) + d
  {
    CollapseAfterNoSpace(d, []);
    assert d + [] == d;
    if ws != [] {
      assert (ws + d)[0] == ws[0];
      TrimLeftAllSpace(ws, d);
    } else {
      assert ws + d == d;
    }
  }

  /** Stripping and collapsing a head, a whitespace run and digits leaves head, at most one space, digits. */
  lemma CollapseMatch(x: string, ws: string, d: string)
    requires x != [] && NoSpace(x) && AllSpace(ws) && d != [] && NoSpace(d)
    ensures NormalizeWeek(x + ws + d) == Capitalize(x + SpaceText(ws != []) + d)
  {
    Associate(x, ws, d);
    var m := x + (ws + d);
    EndsNotSpace(x, ws + d);
    StripOfStripped(m);
    CollapseAfterNoSpace(x, ws + d);
    CollapseTail(ws, d);
    Associate(x, SpaceText(ws != []), d);
  }

  lemma EndsNotSpace(x: string, y: string)
    requires x != [] && !IsSpace(x[0]) && y != [] && !IsSpace(y[|y| - 1])
    ensures IsStripped(x + y)
  {
    assert (x + y)[0] == x[0];
    assert (x + y)[|x + y| - 1] == y[|y| - 1];
  }

  /** The head as it appears in the text: the keyword's letters in any case, then the dot. */
  predicate HeadMatches(x: string, p: Marker, dot: bool) {
    var n := |Keyword(p)|;
    |x| == n + |DotText(dot)|
    && (forall k :: 0 <= k < n ==> Lower(x[k]) == Keyword(p)[k])
    && (dot ==> x[n] == '.')
  }

  lemma HeadHasNoSpace(x: string, p: Marker, dot: bool)
    requires HeadMatches(x, p, dot)
    ensures x != [] && NoSpace(x)
  {
    HeadIsCapitalizedKeyword(p);
    forall k | 0 <= k < |x|
      ensures !IsSpace(x[k])
    {
      if k < |Keyword(p)| {
        LowerToAsciiLetter(x[k], Keyword(p)[k]);
      }
    }
  }

  /** Capitalising a matched head gives the pattern's head in label case. */
  lemma CapitalizeHead(x: string, p: Marker, dot: bool)
    requires HeadMatches(x, p, dot)
    ensures Capitalize(x) == Head(p) + DotText(dot)
  {
    HeadIsCapitalizedKeyword(p);
    var h := Head(p) + DotText(dot);
    LowerToAsciiLetter(x[0], Keyword(p)[0]);
    forall k | 1 <= k < |x|
      ensures Lower(x[k]) == h[k]
    {
      if k < |Keyword(p)| {
        assert h[k] == Head(p)[k];
      }
    }
    CapitalizeIs(x, h);
  }

  /** Capitalising changes only the first character; the rest is lower-cased. */
  lemma CapitalizeAppend(x: string, r: string)
    requires x != []
    ensures Capitalize(x + r) == Capitalize(x) + LowerStr(r)
  {
    assert (x + r)[1..] == x[1..] + r;
    assert LowerStr(x[1..] + r) == LowerStr(x[1..]) + LowerStr(r);
  }

  /** Spaces and digits are their own lower case. */
  lemma LowerSpaceDigits(sp: string, d: string)
    requires sp == "" || sp == " "
    requires forall k :: 0 <= k < |d| ==> IsDigit(d[k])
    ensures LowerStr(sp + d) == sp + d
  {
  }

  /**
    Normalising a matched head, whitespace run and digits gives the week label:
    the run becomes one space (or nothing) and the case becomes "Vecka", "Week", "V", "W".
   */
  lemma NormalizeToLabel(x: string, ws: string, d: string, p: Marker, dot: bool)
    requires HeadMatches(x, p, dot) && AllSpace(ws) && IsLabelParts(p, dot, d)
    ensures NormalizeWeek(x + ws + d) == Label(p, dot, ws != [], d)
  {
    HeadHasNoSpace(x, p, dot);
    DigitsHaveNoSpace(d);
    CollapseMatch(x, ws, d);
    CapitalizeMatch(x, ws != [], d, p, dot);
  }

  lemma DigitsHaveNoSpace(d: string)
    requires IsDigits12(d)
    ensures d != [] && NoSpace(d)
  {
    forall k | 0 <= k < |d|
      ensures !IsSpace(d[k])
    {
      assert IsDigit(d[k]);
    }
  }

  lemma CapitalizeMatch(x: string, space: bool, d: string, p: Marker, dot: bool)
    requires HeadMatches(x, p, dot) && IsLabelParts(p, dot, d)
    ensures Capitalize(x + SpaceText(space) + d) == Label(p, dot, space, d)
  {
    var r := SpaceText(space) + d;
    Associate(x, SpaceText(space), d);
    CapitalizeAppend(x, r);
    CapitalizeHead(x, p, dot);
    LowerSpaceDigits(SpaceText(space), d);
    Associate(Head(p) + DotText(dot), SpaceText(space), d);
  }

  lemma Associate(a: string, b: string, c: string)
    ensures a + b + c == a + (b + c)
  {
  }

  /** A match of a body pattern normalises to a week label. */
  lemma MatchIsLabel(p: Marker, s: string, a: nat, b: nat) returns (dot: bool, space: bool, d: string)
    requires a <= |s| && BodyMatchAt(p, s, a) == Some(b)
    ensures IsLabelParts(p, dot, d) && NormalizeWeek(s[a..b]) == Label(p, dot, space, d)
  {
    dot := IsToken(p) && a + 1 < |s| && s[a + 1] == '.';
    var h := a + |Keyword(p)| + |DotText(dot)|;
    MatchParts(p, s, a, b, dot, h);
    var e := SpacesEnd(s, h);
    SliceSplit(s, a, h, e, b);
    NormalizeToLabel(s[a..h], s[h..e], s[e..b], p, dot);
    space, d := e > h, s[e..b];
  }

  lemma SliceSplit(s: string, a: nat, h: nat, e: nat, b: nat)
    requires a <= h <= e <= b <= |s|
    ensures s[a..b] == s[a..h] + s[h..e] + s[e..b]
  {
  }

  /** A match consists of the head, a whitespace run and one or two digits. */
  lemma MatchParts(p: Marker, s: string, a: nat, b: nat, dot: bool, h: nat)
    requires a <= |s| && BodyMatchAt(p, s, a) == Some(b)
    requires dot == (IsToken(p) && a + 1 < |s| && s[a + 1] == '.')
    requires h == a + |Keyword(p)| + |DotText(dot)|
    ensures h <= SpacesEnd(s, h) <= b <= |s|
    ensures HeadMatches(s[a..h], p, dot)
    ensures AllSpace(s[h..SpacesEnd(s, h)])
    ensures IsLabelParts(p, dot, s[SpacesEnd(s, h)..b])
  {
    if IsToken(p) {
      TokenParts(p, s, a, b, dot, h);
    } else {
      WordParts(p, s, a, b, h);
    }
  }

  lemma WordParts(p: Marker, s: string, a: nat, b: nat, h: nat)
    requires !IsToken(p) && a <= |s| && BodyMatchAt(p, s, a) == Some(b)
    requires h == a + |Keyword(p)|
    ensures h <= SpacesEnd(s, h) <= b <= |s|
    ensures HeadMatches(s[a..h], p, false)
    ensures AllSpace(s[h..SpacesEnd(s, h)])
    ensures IsLabelParts(p, false, s[SpacesEnd(s, h)..b])
  {
    assert LiteralAtIgnoringCase(s, a, Keyword(p));
    assert Digits12(s, SpacesEnd(s, h)) == Some(b);
  }

  lemma TokenParts(p: Marker, s: string, a: nat, b: nat, dot: bool, h: nat)
    requires IsToken(p) && a <= |s| && BodyMatchAt(p, s, a) == Some(b)
    requires dot == (a + 1 < |s| && s[a + 1] == '.')
    requires h == a + 1 + |DotText(dot)|
    ensures h <= SpacesEnd(s, h) <= b <= |s|
    ensures HeadMatches(s[a..h], p, dot)
    ensures AllSpace(s[h..SpacesEnd(s, h)])
    ensures IsLabelParts(p, dot, s[SpacesEnd(s, h)..b])
  {
    assert Lower(s[a]) == Keyword(p)[0];
    assert Digits12Bounded(s, SpacesEnd(s, h)) == Some(b);
  }

  /** A label is already normal. */
  lemma NormalizeLabel(p: Marker, dot: bool, space: bool, d: string)
    requires IsLabelParts(p, dot, d)
    ensures NormalizeWeek(Label(p, dot, space, d)) == Label(p, dot, space, d)
  {
    HeadIsCapitalizedKeyword(p);
    var h := Head(p) + DotText(dot);
    assert Label(p, dot, space, d) == h + SpaceText(space) + d;
    assert HeadMatches(h, p, dot);
    NormalizeToLabel(h, SpaceText(space), d, p, dot);
  }

  /** Where the characters of a label come from. */
  lemma LabelLayout(p: Marker, dot: bool, space: bool, d: string)
    requires IsLabelParts(p, dot, d)
    ensures var l := Label(p, dot, space, d);
            var t := |Head(p)| + |DotText(dot)|;
            var e := t + |SpaceText(space)|;
            l[..|Head(p)|] == Head(p) && l[e..] == d && |l| == e + |d|
            && (dot ==> l[|Head(p)|] == '.') && (space ==> l[t] == ' ')
  {
  }

  /** After the first letter a label has only lower-case letters of the keyword, a dot, a space or digits. */
  lemma LabelTail(p: Marker, dot: bool, space: bool, d: string, k: nat)
    requires IsLabelParts(p, dot, d) && 1 <= k < |Label(p, dot, space, d)|
    ensures var c := Label(p, dot, space, d)[k];
            Lower(c) == c && c != 'v' && c != 'w' && (k >= |Head(p)| ==> c != 'e')
            && (k >= |Head(p)| ==> c == '.' || c == ' ' || IsDigit(c))
  {
    HeadIsCapitalizedKeyword(p);
    LabelLayout(p, dot, space, d);
  }

  lemma DigitsToEnd(s: string, e: nat)
    requires e <= |s| && IsDigits12(s[e..])
    ensures Digits12(s, e) == Some(|s|)
    ensures Digits12Bounded(s, e) == Some(|s|)
  {
    assert IsDigit(s[e]);
    assert IsWordChar(s[|s| - 1]);
    if |s| - e == 2 {
      assert IsDigit(s[e + 1]);
    }
  }

  /** Searching a label for its own pattern finds the whole label. */
  lemma LabelMatchesItself(p: Marker, dot: bool, space: bool, d: string)
    requires IsLabelParts(p, dot, d)
    ensures SearchFrom(Body(p), Label(p, dot, space, d), 0) == Some((0, |Label(p, dot, space, d)|))
  {
    var l := Label(p, dot, space, d);
    var e := LabelSpacesEnd(p, dot, space, d);
    LabelStartsWithKeyword(p, dot, space, d);
    LabelLayout(p, dot, space, d);
    DigitsToEnd(l, e);
    if IsToken(p) {
      assert WordBoundary(l, 0);
      if !dot && 1 < |l| {
        LabelTail(p, dot, space, d, 1);
        assert l[1] != '.';
      }
    }
    assert BodyMatchAt(p, l, 0) == Some(|l|);
  }

  /** A label starts with its keyword, in any case. */
  lemma LabelStartsWithKeyword(p: Marker, dot: bool, space: bool, d: string)
    requires IsLabelParts(p, dot, d)
    ensures LiteralAtIgnoringCase(Label(p, dot, space, d), 0, Keyword(p))
  {
    var l := Label(p, dot, space, d);
    HeadIsCapitalizedKeyword(p);
    LabelLayout(p, dot, space, d);
    forall k | 0 <= k < |Head(p)|
      ensures Lower(l[k]) == Keyword(p)[k]
    {
      assert l[k] == Head(p)[k];
    }
  }

  /** In a label the whitespace after the head and dot ends where the digits start. */
  lemma LabelSpacesEnd(p: Marker, dot: bool, space: bool, d: string) returns (e: nat)
    requires IsLabelParts(p, dot, d)
    ensures e == |Head(p)| + |DotText(dot)| + |SpaceText(space)|
    ensures e <= |Label(p, dot, space, d)|
    ensures SpacesEnd(Label(p, dot, space, d), |Head(p)| + |DotText(dot)|) == e
  {
    var l := Label(p, dot, space, d);
    var t := |Head(p)| + |DotText(dot)|;
    e := t + |SpaceText(space)|;
    LabelLayout(p, dot, space, d);
    assert !IsSpace(l[e]) by {
      assert l[e] == d[0];
    }
    if space {
      assert SpacesEnd(l, t + 1) == e;
    }
  }

  /** The patterns tried before a label's own pattern find nothing in it. */
  lemma EarlierPatternsMissLabel(p: Marker, dot: bool, space: bool, d: string, j: nat)
    requires IsLabelParts(p, dot, d)
    requires j < |BodyPatterns| && BodyPatterns[j] == Body(p)
    ensures NoneMatchBefore(Label(p, dot, space, d), BodyPatterns, j)
  {
    forall i | 0 <= i < j
      ensures MatchesNowhere(BodyPatterns[i], Label(p, dot, space, d))
    {
      MarkerMissesLabel(BodyPatterns[i].m, p, dot, space, d);
    }
  }

  /** Position of a marker in the body-pattern order. */
  function Rank(p: Marker): nat {
    match p
    case VeckaWord => 0
    case WeekWord => 1
    case VToken => 2
    case WToken => 3
  }

  /** A body pattern tried before the label's own pattern matches nowhere in the label. */
  lemma MarkerMissesLabel(q: Marker, p: Marker, dot: bool, space: bool, d: string)
    requires IsLabelParts(p, dot, d) && Rank(q) < Rank(p)
    ensures MatchesNowhere(Body(q), Label(p, dot, space, d))
  {
    var l := Label(p, dot, space, d);
    HeadIsCapitalizedKeyword(p);
    LabelLayout(p, dot, space, d);
    forall k | 0 <= k <= |l|
      ensures BodyMatchAt(q, l, k).None?
    {
      MatchNeedsKeyword(q, l, k);
      if k == 0 {
        assert Lower(l[0]) == Keyword(p)[0];
        if Keyword(q)[0] == Keyword(p)[0] {
          LabelTail(p, dot, space, d, 1);
        }
      } else if k < |l| {
        LabelTail(p, dot, space, d, k);
      }
    }
  }

  /** A match starts with the first letter of the keyword; the word patterns continue with the second. */
  lemma MatchNeedsKeyword(q: Marker, s: string, k: nat)
    requires k <= |s|
    ensures BodyMatchAt(q, s, k).Some? ==> k < |s| && Lower(s[k]) == Keyword(q)[0]
    ensures BodyMatchAt(q, s, k).Some? && !IsToken(q) ==> k + 1 < |s| && Lower(s[k + 1]) == Keyword(q)[1]
  {
  }

  /** `extract_week_number` applied to a label returns that label. */
  lemma LabelIsFixedPoint(p: Marker, dot: bool, space: bool, d: string)
    requires IsLabelParts(p, dot, d)
    ensures ExtractWeekNumber(Label(p, dot, space, d)) == Some(Label(p, dot, space, d))
  {
    var l := Label(p, dot, space, d);
    var j := Rank(p);
    assert BodyPatterns[j] == Body(p);
    LabelMatchesItself(p, dot, space, d);
    EarlierPatternsMissLabel(p, dot, space, d, j);
    FirstPatternMatchFrom(l, BodyPatterns, j, 0, |l|);
    assert l[0..|l|] == l;
    NormalizeLabel(p, dot, space, d);
  }

  /** The first pattern that matches anywhere decides, at its leftmost match. */
  lemma FirstPatternMatchFrom(s: string, ps: seq<WeekRegex>, j: nat, a: nat, b: nat)
    requires j < |ps| && NoneMatchBefore(s, ps, j)
    requires SearchFrom(ps[j], s, 0) == Some((a, b))
    ensures FirstPatternMatch(s, ps) == Some(s[a..b])
  {
    FirstPatternSkips(s, ps, j);
    assert ps[j..][0] == ps[j];
  }

  /** When the patterns before index `j` match nowhere, the first match comes from pattern `j` on. */
  lemma {:induction false} FirstPatternSkips(s: string, ps: seq<WeekRegex>, j: nat)
    requires j < |ps|
    requires NoneMatchBefore(s, ps, j)
    ensures FirstPatternMatch(s, ps) == FirstPatternMatch(s, ps[j..])
  {
    if j > 0 {
      NoneMatchBeforeCons(s, ps, j);
      assert SearchFrom(ps[0], s, 0).None?;
      FirstPatternSkips(s, ps[1..], j - 1);
      assert ps[1..][j - 1..] == ps[j..];
    }
  }

  /** Every result of `extract_week_number` is a week label. */
  lemma ExtractWeekNumberIsLabel(text: string) returns (p: Marker, dot: bool, space: bool, d: string)
    requires ExtractWeekNumber(text).Some?
    ensures IsLabelParts(p, dot, d) && ExtractWeekNumber(text) == Some(Label(p, dot, space, d))
  {
    var j, a, b := FirstMatchWitness(text, BodyPatterns);
    BodyPatternsAreBody(j, text, a);
    p := BodyPatterns[j].m;
    dot, space, d := MatchIsLabel(p, text, a, b);
  }

  /** A week label starts with the letter of its head, never with whitespace. */
  lemma LabelStartsWithLetter(p: Marker, dot: bool, space: bool, d: string)
    ensures Label(p, dot, space, d) != [] && Label(p, dot, space, d)[0] == Head(p)[0]
    ensures !IsSpace(Label(p, dot, space, d)[0])
  {
  }

  /** Which pattern, and where, produced the result of `FirstPatternMatch`. */
  lemma {:induction false} FirstMatchWitness(s: string, ps: seq<WeekRegex>) returns (j: nat, a: nat, b: nat)
    requires FirstPatternMatch(s, ps).Some?
    ensures j < |ps| && a < b <= |s| && MatchAt(ps[j], s, a) == Some(b)
    ensures FirstPatternMatch(s, ps) == Some(s[a..b])
  {
    match SearchFrom(ps[0], s, 0)
    case Some(m) =>
      j, a, b := 0, m.0, m.1;
    case None =>
      j, a, b := FirstMatchWitness(s, ps[1..]);
      j := j + 1;
  }

  lemma BodyPatternsAreBody(j: nat, s: string, a: nat)
    requires j < |BodyPatterns| && a <= |s|
    ensures BodyPatterns[j] == Body(BodyPatterns[j].m)
    ensures MatchAt(BodyPatterns[j], s, a) == BodyMatchAt(BodyPatterns[j].m, s, a)
  {
  }

  /** Idempotence: re-running `extract_week_number` on its result returns the same string. */
  lemma ExtractWeekNumberIdempotent(text: string)
    requires ExtractWeekNumber(text).Some?
    ensures ExtractWeekNumber(ExtractWeekNumber(text).value) == ExtractWeekNumber(text)
  {
    var p, dot, space, d := ExtractWeekNumberIsLabel(text);
    LabelIsFixedPoint(p, dot, space, d);
  }

  // ---------------------------------------------------------------------------
  // extract_week_number_from_url and is_relevant_pdf
  // ---------------------------------------------------------------------------

  /** `url.split('/')[-1]`: the longest suffix of `url` without a '/'. */
  function LastSegment(url: string): (name: string)
    ensures |name| <= |url| && name == url[|url| - |name|..]
    ensures '/' !in name
    ensures |name| < |url| ==> url[|url| - |name| - 1] == '/'
  {
    if url == [] || url[|url| - 1] == '/' then []
    else LastSegment(url[..|url| - 1]) + [url[|url| - 1]]
  }

  /** The lower-cased file name both URL functions inspect. */
  function LoweredFileName(url: string): string {
    LowerStr(LastSegment(url))
  }

  /** The patterns of `extract_week_number_from_url`, in the order they are tried. */
  const FileNamePatterns: seq<WeekRegex> := [FileName(VeckaWord), FileName(VToken), FileName(WToken)]

  /** `re.sub(r'[\-_\.]', ' ', m)` */
  function SeparatorsToSpaces(m: string): (r: string)
    ensures |r| == |m|
  {
    seq(|m|, i requires 0 <= i < |m| => if IsSeparator(m[i]) then ' ' else m[i])
  }

  /** `extract_week_number_from_url(url)` */
  function ExtractWeekFromUrl(url: string): Option<string> {
    match FirstPatternMatch(LoweredFileName(url), FileNamePatterns)
    case Some(m) => Some(NormalizeWeek(SeparatorsToSpaces(m)))
    case None => None
  }

  /** `is_relevant_pdf(url)` */
  predicate IsRelevantPdf(url: string) {
    var name := LoweredFileName(url);
    Contains(name, "lunch") || Contains(name, "dagens") || IsTruthy(ExtractWeekFromUrl(url))
  }

  // ---------------------------------------------------------------------------
  // The properties of the URL functions
  // ---------------------------------------------------------------------------

  /** Only the part after the last '/' matters. */
  lemma {:induction false} LastSegmentAfterSlash(dir: string, name: string)
    requires '/' !in name
    ensures LastSegment(dir + "/" + name) == name
  {
    var url := dir + "/" + name;
    if name == [] {
      assert url[|url| - 1] == '/';
    } else {
      var init := name[..|name| - 1];
      assert url[..|url| - 1] == dir + "/" + init;
      assert name[|name| - 1] in name;
      LastSegmentAfterSlash(dir, init);
      assert name == init + [name[|name| - 1]];
    }
  }

  /** A name without '/' is its own last segment. */
  lemma {:induction false} LastSegmentOfPlainName(name: string)
    requires '/' !in name
    ensures LastSegment(name) == name
  {
    if name != [] {
      var init := name[..|name| - 1];
      assert name[|name| - 1] in name;
      LastSegmentOfPlainName(init);
      assert name == init + [name[|name| - 1]];
    }
  }

  lemma {:induction false} SeparatorsToSpacesAppend(a: string, b: string)
    ensures SeparatorsToSpaces(a + b) == SeparatorsToSpaces(a) + SeparatorsToSpaces(b)
  {
  }

  /** A file-name match is an optional separator, the keyword, a filler run and the digits. */
  lemma FileNameParts(p: Marker, s: string, a: nat, b: nat) returns (h: nat, e: nat)
    requires a <= |s| && FileNameMatchAt(p, s, a) == Some(b)
    ensures a <= h <= a + 1 && h + |Keyword(p)| <= e <= b <= |s|
    ensures h == a + 1 ==> IsSeparator(s[a])
    ensures HeadMatches(s[h..h + |Keyword(p)|], p, false)
    ensures forall k :: h + |Keyword(p)| <= k < e ==> IsFiller(s[k])
    ensures IsLabelParts(p, false, s[e..b])
  {
    h, e := KeywordParts(Keyword(p), s, a, b);
  }

  lemma KeywordParts(kw: string, s: string, a: nat, b: nat) returns (h: nat, e: nat)
    requires a <= |s| && KeywordMatchAt(kw, s, a) == Some(b)
    ensures a <= h <= a + 1 && h + |kw| <= e <= b <= |s|
    ensures h == a + 1 ==> IsSeparator(s[a])
    ensures forall k :: 0 <= k < |kw| ==> Lower(s[h..h + |kw|][k]) == kw[k]
    ensures forall k :: h + |kw| <= k < e ==> IsFiller(s[k])
    ensures IsDigits12(s[e..b])
  {
    var n := |kw|;
    if a == 0 && LiteralAtIgnoringCase(s, 0, kw) && Digits12(s, FillerEnd(s, n)).Some? {
      h := a;
    } else {
      h := a + 1;
    }
    e := FillerEnd(s, h + n);
    var x := s[h..h + n];
    forall k | 0 <= k < n
      ensures Lower(x[k]) == kw[k]
    {
      assert x[k] == s[h + k];
    }
    var d := s[e..b];
    forall k | 0 <= k < |d|
      ensures IsDigit(d[k])
    {
      assert d[k] == s[e + k];
    }
  }

  /** The normalised file-name match is a week label without a dot. */
  lemma FileNameMatchIsLabel(p: Marker, s: string, a: nat, b: nat) returns (space: bool, d: string)
    requires a <= |s| && FileNameMatchAt(p, s, a) == Some(b)
    ensures IsLabelParts(p, false, d) && NormalizeWeek(SeparatorsToSpaces(s[a..b])) == Label(p, false, space, d)
  {
    var h, e := FileNameParts(p, s, a, b);
    space, d := PartsAreLabel(p, s, a, h, e, b);
  }

  lemma PartsAreLabel(p: Marker, s: string, a: nat, h: nat, e: nat, b: nat) returns (space: bool, d: string)
    requires a <= h <= a + 1 && h + |Keyword(p)| <= e <= b <= |s|
    requires h == a + 1 ==> IsSeparator(s[a])
    requires HeadMatches(s[h..h + |Keyword(p)|], p, false)
    requires forall k :: h + |Keyword(p)| <= k < e ==> IsFiller(s[k])
    requires IsLabelParts(p, false, s[e..b])
    ensures IsLabelParts(p, false, d) && NormalizeWeek(SeparatorsToSpaces(s[a..b])) == Label(p, false, space, d)
  {
    var n := |Keyword(p)|;
    SliceSplit4(s, a, h, h + n, e, b);
    var fill := s[h + n..e];
    assert forall k :: 0 <= k < |fill| ==> fill[k] == s[h + n + k];
    NormalizeFileNameParts(s[a..b], s[a..h], s[h..h + n], fill, s[e..b], p);
    space, d := h + n < e, s[e..b];
  }

  lemma NormalizeFileNameParts(m: string, lead: string, x: string, fill: string, d: string, p: Marker)
    requires m == lead + (x + fill + d)
    requires |lead| <= 1 && (lead != [] ==> IsSeparator(lead[0]))
    requires HeadMatches(x, p, false) && IsDigits12(d)
    requires forall k :: 0 <= k < |fill| ==> IsFiller(fill[k])
    ensures NormalizeWeek(SeparatorsToSpaces(m)) == Label(p, false, fill != [], d)
  {
    SeparatorsSplit(lead, x, fill, d, p);
    var ws := SeparatorsToSpaces(fill);
    StripLeadingSpace(SeparatorsToSpaces(lead), x + ws + d);
    NormalizeToLabel(x, ws, d, p, false);
  }

  lemma SliceSplit4(s: string, a: nat, h: nat, g: nat, e: nat, b: nat)
    requires a <= h <= g <= e <= b <= |s|
    ensures s[a..b] == s[a..h] + (s[h..g] + s[g..e] + s[e..b])
  {
  }

  /** Replacing separators turns the filler into spaces and leaves the keyword and digits alone. */
  lemma SeparatorsSplit(lead: string, x: string, fill: string, d: string, p: Marker)
    requires |lead| <= 1 && (lead != [] ==> IsSeparator(lead[0]))
    requires HeadMatches(x, p, false) && IsDigits12(d)
    requires forall k :: 0 <= k < |fill| ==> IsFiller(fill[k])
    ensures SeparatorsToSpaces(lead) == "" || SeparatorsToSpaces(lead) == " "
    ensures AllSpace(SeparatorsToSpaces(fill))
    ensures SeparatorsToSpaces(lead + (x + fill + d))
            == SeparatorsToSpaces(lead) + (x + SeparatorsToSpaces(fill) + d)
  {
    SeparatorsToSpacesAppend(lead, x + fill + d);
    Associate(x, fill, d);
    SeparatorsToSpacesAppend(x, fill + d);
    SeparatorsToSpacesAppend(fill, d);
    HeadIsCapitalizedKeyword(p);
    assert SeparatorsToSpaces(x) == x by {
      forall k | 0 <= k < |x|
        ensures !IsSeparator(x[k])
      {
        LowerToAsciiLetter(x[k], Keyword(p)[k]);
      }
    }
    assert SeparatorsToSpaces(d) == d;
    Associate(x, SeparatorsToSpaces(fill), d);
  }

  /** A leading space or none: stripping ignores it. */
  lemma StripLeadingSpace(lead: string, t: string)
    requires lead == "" || lead == " "
    ensures NormalizeWeek(lead + t) == NormalizeWeek(t)
  {
    if lead == " " {
      assert (lead + t)[1..] == t;
    } else {
      assert lead + t == t;
    }
  }

  /**
    Every result of `extract_week_number_from_url` is a week label "Vecka", "V" or "W",
    an optional space and one or two digits: in particular it is nonempty and free of
    the separators '-', '_' and '.'.
   */
  lemma UrlWeekIsLabel(url: string) returns (p: Marker, space: bool, d: string)
    requires ExtractWeekFromUrl(url).Some?
    ensures p != WeekWord && IsLabelParts(p, false, d)
    ensures ExtractWeekFromUrl(url) == Some(Label(p, false, space, d))
  {
    var s := LoweredFileName(url);
    var j, a, b := FirstMatchWitness(s, FileNamePatterns);
    FileNamePatternsAreFileName(j, s, a);
    p := FileNamePatterns[j].m;
    space, d := FileNameMatchIsLabel(p, s, a, b);
  }

  lemma FileNamePatternsAreFileName(j: nat, s: string, a: nat)
    requires j < |FileNamePatterns| && a <= |s|
    ensures FileNamePatterns[j] == FileName(FileNamePatterns[j].m) && FileNamePatterns[j].m != WeekWord
    ensures MatchAt(FileNamePatterns[j], s, a) == FileNameMatchAt(FileNamePatterns[j].m, s, a)
  {
  }

  /** A week read from a file name reads back unchanged when searched for in text. */
  lemma UrlWeekReadsBack(url: string)
    requires ExtractWeekFromUrl(url).Some?
    ensures ExtractWeekNumber(ExtractWeekFromUrl(url).value) == ExtractWeekFromUrl(url)
    ensures ExtractWeekFromUrl(url).value != []
  {
    var p, space, d := UrlWeekIsLabel(url);
    LabelIsFixedPoint(p, false, space, d);
  }

  /** `is_relevant_pdf` holds exactly when the file name says "lunch" or "dagens" or carries a week. */
  lemma IsRelevantPdfIff(url: string)
    ensures IsRelevantPdf(url) <==>
            Contains(LoweredFileName(url), "lunch") || Contains(LoweredFileName(url), "dagens")
            || ExtractWeekFromUrl(url).Some?
  {
    if ExtractWeekFromUrl(url).Some? {
      UrlWeekReadsBack(url);
    }
  }

  /** Both URL functions look only at the part after the last '/'. */
  lemma UrlFunctionsSeeOnlyFileName(dir: string, name: string)
    requires '/' !in name
    ensures ExtractWeekFromUrl(dir + "/" + name) == ExtractWeekFromUrl(name)
    ensures IsRelevantPdf(dir + "/" + name) == IsRelevantPdf(name)
  {
    LastSegmentAfterSlash(dir, name);
    LastSegmentOfPlainName(name);
    SameFileNameSameAnswers(dir + "/" + name, name);
  }

  lemma SameFileNameSameAnswers(u: string, v: string)
    requires LoweredFileName(u) == LoweredFileName(v)
    ensures ExtractWeekFromUrl(u) == ExtractWeekFromUrl(v)
    ensures IsRelevantPdf(u) == IsRelevantPdf(v)
  {
  }

  // A worked example: ".../menus/lunch-vecka46.pdf" yields "Vecka46".
  // The literals are passed as parameters so that each step stays small.

  lemma ExampleNoSlash(name: string)
    requires name == "lunch-vecka46.pdf"
    ensures '/' !in name
  {
  }

  lemma ExampleAlreadyLower(name: string)
    requires name == "lunch-vecka46.pdf"
    ensures LowerStr(name) == name
  {
  }

  lemma ExampleMatchAtDash(name: string)
    requires name == "lunch-vecka46.pdf"
    ensures MatchAt(FileName(VeckaWord), name, 5) == Some(13)
  {
    assert LiteralAtIgnoringCase(name, 6, "vecka");
    assert FillerEnd(name, 11) == 11;
  }

  lemma ExampleNoEarlierMatch(name: string)
    requires name == "lunch-vecka46.pdf"
    ensures forall k :: 0 <= k < 5 ==> MatchAt(FileName(VeckaWord), name, k).None?
  {
    assert Lower(name[0 + 0]) != "vecka"[0];
    assert !LiteralAtIgnoringCase(name, 0, "vecka");
    forall k | 0 <= k < 5
      ensures !IsSeparator(name[k])
    {
    }
  }

  lemma ExampleFirstMatch(name: string, m: string)
    requires name == "lunch-vecka46.pdf" && m == "-vecka46"
    ensures FirstPatternMatch(name, FileNamePatterns) == Some(m)
  {
    ExampleMatchAtDash(name);
    ExampleNoEarlierMatch(name);
    SearchFromSkips(FileName(VeckaWord), name, 0, 5, 13);
    FirstPatternMatchFrom(name, FileNamePatterns, 0, 5, 13);
    assert name[5..13] == m;
  }

  lemma ExampleNormalize(m: string, x: string, d: string)
    requires m == "-vecka46" && x == "vecka" && d == "46"
    ensures NormalizeWeek(SeparatorsToSpaces(m)) == Label(VeckaWord, false, false, d)
  {
    assert m == "-" + (x + "" + d);
    NormalizeFileNameParts(m, "-", x, "", d, VeckaWord);
  }

  lemma ExampleLabel(d: string)
    requires d == "46"
    ensures Label(VeckaWord, false, false, d) == "Vecka46"
  {
  }

  /** The URL ".../menus/lunch-vecka46.pdf" gives the week "Vecka46" (no space: there was none). */
  lemma UrlExampleWeek(dir: string, name: string)
    requires dir == "https://example.com/menus" && name == "lunch-vecka46.pdf"
    ensures ExtractWeekFromUrl(dir + "/" + name) == Some("Vecka46")
    ensures IsRelevantPdf(dir + "/" + name)
  {
    ExampleNoSlash(name);
    LastSegmentAfterSlash(dir, name);
    ExampleAlreadyLower(name);
    ExampleFirstMatch(name, "-vecka46");
    ExampleNormalize("-vecka46", "vecka", "46");
    ExampleLabel("46");
  }

  /**
    A separator, a letter and then '_' never start a match of the v or w file-name
    pattern: '_' may precede the letter but is not among what may follow it.
   */
  lemma UnderscoreAfterLetterMisses(p: Marker, s: string, i: nat)
    requires p == VToken || p == WToken
    requires i + 2 < |s| && IsSeparator(s[i]) && s[i + 2] == '_'
    ensures FileNameMatchAt(p, s, i).None?
  {
    assert !IsFiller(s[i + 2]) && !IsDigit(s[i + 2]);
    assert FillerEnd(s, i + 2) == i + 2;
    assert Lower(s[i]) == s[i];
  }

  /**
    No file-name pattern matches a 13-character name that starts with 'm' and whose
    only separators are '_' at 4 and 6, with "v" between them, and a '.' at 9 before a
    'p'.
   */
  lemma NoFileNameMatch(s: string)
    requires |s| == 13 && s[0] == 'm' && s[4] == '_' && s[5] == 'v' && s[6] == '_' && s[7] == '4' && s[10] == 'p'
    requires forall k :: 0 <= k < |s| && IsSeparator(s[k]) ==> k == 4 || k == 6 || k == 9
    ensures forall j, k :: 0 <= j < |FileNamePatterns| && 0 <= k <= |s| ==>
              MatchAt(FileNamePatterns[j], s, k).None?
  {
    forall j, k | 0 <= j < |FileNamePatterns| && 0 <= k <= |s|
      ensures MatchAt(FileNamePatterns[j], s, k).None?
    {
      var p := FileNamePatterns[j].m;
      assert MatchAt(FileNamePatterns[j], s, k) == KeywordMatchAt(Keyword(p), s, k);
      if k == 4 && j > 0 {
        UnderscoreAfterLetterMisses(p, s, 4);
      } else if k == 4 {
        assert Lower(s[6]) != Keyword(p)[1];
      }
    }
  }

  lemma UnderscoreNameLower(name: string)
    requires name == "menu_v_46.pdf"
    ensures '/' !in name && LowerStr(name) == name
  {
  }

  lemma UnderscoreNameShape(name: string)
    requires name == "menu_v_46.pdf"
    ensures |name| == 13 && name[0] == 'm' && name[4] == '_' && name[5] == 'v' && name[6] == '_' && name[7] == '4' && name[10] == 'p'
    ensures forall k :: 0 <= k < |name| && IsSeparator(name[k]) ==> k == 4 || k == 6 || k == 9
  {
  }

  lemma UnderscoreNameFacts(name: string)
    requires name == "menu_v_46.pdf"
    ensures LoweredFileName(name) == name
    ensures |name| == 13 && name[0] == 'm' && name[4] == '_' && name[5] == 'v' && name[6] == '_' && name[7] == '4' && name[10] == 'p'
    ensures forall k :: 0 <= k < |name| && IsSeparator(name[k]) ==> k == 4 || k == 6 || k == 9
  {
    UnderscoreNameLower(name);
    UnderscoreNameShape(name);
    LastSegmentOfPlainName(name);
  }

  lemma UnderscoreNameWords(name: string)
    requires name == "menu_v_46.pdf"
    ensures !Contains(name, "lunch") && !Contains(name, "dagens")
  {
    forall i | 0 <= i <= |name|
      ensures !OccursAt(name, "lunch", i) && !OccursAt(name, "dagens", i)
    {
      if i + 5 <= |name| {
        assert name[i..i + 5][0] == name[i] != 'l';
      }
      if i + 6 <= |name| {
        assert name[i..i + 6][0] == name[i] != 'd';
      }
    }
  }

  /** "menu_v_46.pdf" carries no week for the URL reader and is not a relevant PDF. */
  lemma UrlUnderscoreWeekMisses(name: string)
    requires name == "menu_v_46.pdf"
    ensures ExtractWeekFromUrl(name).None?
    ensures !IsRelevantPdf(name)
  {
    UnderscoreNameFacts(name);
    UnderscoreNameWords(name);
    NoFileNameMatch(name);
    FirstPatternMatchNone(name, FileNamePatterns);
  }
}
