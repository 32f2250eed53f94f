// The text path of the scraper: the page's text with its whitespace collapsed,
// and a marker line started in front of every day name.

module TextScraper {
  import opened Wrappers
  import opened Text

  // ---------------------------------------------------------------------------
  // Whitespace collapsing
  // ---------------------------------------------------------------------------

  /** `' '.join(text.split())` */
  function Normalize(text: string): string {
    JoinWith(SplitWhitespace(text), " ")
  }

  /**
    Every whitespace character is a single space with a non-space character on
    each side: no tabs or newlines, no leading or trailing space, no two spaces
    in a row.
   */
  predicate IsNormal(s: string) {
    forall k :: 0 <= k < |s| && IsSpace(s[k]) ==>
      (s[k] == ' ' && 0 < k < |s| - 1 && !IsSpace(s[k - 1]) && !IsSpace(s[k + 1]))
  }

  predicate AreWords(words: seq<string>) {
    forall w :: w in words ==> w != [] && NoSpace(w)
  }

  /** Words joined by single spaces form normal text that starts and ends with a word. */
  lemma {:induction false} JoinedWordsNormal(words: seq<string>)
    requires AreWords(words)
    ensures var s := JoinWith(words, " ");
      IsNormal(s) && (words != [] ==> s != [] && !IsSpace(s[0]) && !IsSpace(s[|s| - 1]))
  {
    if |words| == 1 {
      assert words[0] in words;
    } else if |words| > 1 {
      var w := words[0];
      var rest := JoinWith(words[1..], " ");
      assert w in words;
      assert forall x :: x in words[1..] ==> x in words;
      JoinedWordsNormal(words[1..]);
      var s := w + " " + rest;
      assert JoinWith(words, " ") == s;
      assert NoSpace(w) && w != [];
      assert forall k :: 0 <= k < |w| ==> s[k] == w[k];
      forall k | 0 <= k < |s| && IsSpace(s[k])
        ensures s[k] == ' ' && 0 < k < |s| - 1 && !IsSpace(s[k - 1]) && !IsSpace(s[k + 1])
      {
        if k == |w| {
          assert s[k - 1] == w[|w| - 1] && s[k + 1] == rest[0];
        } else if k > |w| {
          var m := k - |w| - 1;
          assert s[k] == rest[m];
          assert s[k - 1] == rest[m - 1] && s[k + 1] == rest[m + 1];
        }
      }
    }
  }

  /** Collapsed text is normal. */
  lemma NormalizeIsNormal(text: string)
    ensures IsNormal(Normalize(text))
  {
    JoinedWordsNormal(SplitWhitespace(text));
  }

  /** Normal text has no newline. */
  lemma NormalHasNoNewline(s: string)
    requires IsNormal(s)
    ensures forall k :: 0 <= k < |s| ==> s[k] != '\n'
  {
    forall k | 0 <= k < |s|
      ensures s[k] != '\n'
    {
      if s[k] == '\n' {
        assert IsSpace(s[k]);
      }
    }
  }

  /** Trimming leaves a text that starts with a non-space character as it is. */
  lemma TrimLeftNonSpace(s: string)
    requires s != [] && !IsSpace(s[0])
    ensures TrimLeft(s) == s
  {
    assert LeadingSpaces(s) == 0;
  }

  /** In a word followed by a space, the first space is where the word ends. */
  lemma SpaceEndAtWord(w: string, r: string)
    requires NoSpace(w) && (r == [] || IsSpace(r[0]))
    ensures SpaceEnd(w + r, 0) == |w|
  {
    var s := w + r;
    assert forall k :: 0 <= k < |w| ==> s[k] == w[k];
    if r != [] {
      assert s[|w|] == r[0];
    }
  }

  /** A text starting with a non-space character splits into its first word and the rest. */
  lemma SplitFirstWord(w: string, r: string)
    requires w != [] && NoSpace(w) && (r == [] || IsSpace(r[0]))
    ensures SplitWhitespace(w + r) == [w] + SplitWhitespace(r)
  {
    var s := w + r;
    assert s[0] == w[0];
    TrimLeftNonSpace(s);
    SpaceEndAtWord(w, r);
    assert s[..|w|] == w && s[|w|..] == r;
  }

  /** A single space before a word-initial text is dropped by the split. */
  lemma SplitAfterSpace(rest: string)
    requires rest != [] && !IsSpace(rest[0])
    ensures SplitWhitespace(" " + rest) == SplitWhitespace(rest)
  {
    TrimLeftPadded(" ", rest);
    TrimLeftNonSpace(rest);
  }

  lemma JoinCons(w: string, tail: seq<string>, sep: string)
    requires tail != []
    ensures JoinWith([w] + tail, sep) == w + (sep + JoinWith(tail, sep))
  {
    var words := [w] + tail;
    assert words[0] == w && words[1..] == tail;
  }

  /** One step of the round trip: a word put in front of joined words that split back. */
  lemma SplitOfJoinedCons(w: string, tail: seq<string>)
    requires w != [] && NoSpace(w) && tail != []
    requires var rest := JoinWith(tail, " ");
      rest != [] && !IsSpace(rest[0]) && SplitWhitespace(rest) == tail
    ensures SplitWhitespace(JoinWith([w] + tail, " ")) == [w] + tail
  {
    var rest := JoinWith(tail, " ");
    JoinCons(w, tail, " ");
    SplitFirstWord(w, " " + rest);
    SplitAfterSpace(rest);
  }

  /** Splitting words joined by single spaces gives the words back. */
  lemma {:induction false} SplitOfJoinedWords(words: seq<string>)
    requires AreWords(words)
    ensures SplitWhitespace(JoinWith(words, " ")) == words
  {
    if |words| == 1 {
      assert words[0] in words;
      SplitFirstWord(words[0], []);
      assert words[0] + [] == words[0];
    } else if |words| > 1 {
      var w, tail := words[0], words[1..];
      assert words == [w] + tail;
      assert w in words;
      assert forall x :: x in tail ==> x in words;
      SplitOfJoinedWords(tail);
      JoinedWordsNormal(tail);
      SplitOfJoinedCons(w, tail);
    }
  }

  /** Collapsing whitespace twice is collapsing it once. */
  lemma NormalizeIdempotent(text: string)
    ensures Normalize(Normalize(text)) == Normalize(text)
  {
    SplitOfJoinedWords(SplitWhitespace(text));
  }

  // ---------------------------------------------------------------------------
  // Day markers
  // ---------------------------------------------------------------------------

  /** `day_names`, in the order the pattern tries them. */
  const DayNames: seq<string> := [
    "Monday", "Tuesday", "Wednesday", "Thursday", "Friday", "Saturday", "Sunday",
    "M\U{E5}ndag", "Tisdag", "Onsdag", "Torsdag", "Fredag", "L\U{F6}rdag", "S\U{F6}ndag"]

  /** What the replacement puts in front of a day name. */
  const Marker: string := "\n for the day : "

  /** `name` matches at `i`, case-sensitively, with `\b` on both sides. */
  predicate DayMatchAt(s: string, name: string, i: nat) {
    OccursAt(s, name, i) && IsBoundary(s, i) && IsBoundary(s, i + |name|)
  }

  /**
    What every day name is: at least six word characters, none a newline, with an
    ASCII capital first and an ASCII lower-case letter third.
   */
  predicate IsDayWord(name: string) {
    |name| >= 6 && 'A' <= name[0] <= 'Z' && 'a' <= name[2] <= 'z'
    && forall k :: 0 <= k < |name| ==> IsWordChar(name[k]) && name[k] != '\n'
  }

  predicate AreDayWords(names: seq<string>) {
    forall k :: 0 <= k < |names| ==> IsDayWord(names[k])
  }

  lemma DayNamesAreWords()
    ensures AreDayWords(DayNames)
  {
  }

  // The marking below is stated for any list of day words `names`; the scraper
  // uses it with `DayNames`.

  /** The first of the names from `j` on that matches at `i`. */
  function FirstDayFrom(s: string, names: seq<string>, i: nat, j: nat): (r: Option<string>)
    requires AreDayWords(names) && j <= |names|
    decreases |names| - j
    ensures r.Some? ==> |r.value| >= 6 && i + |r.value| <= |s|
  {
    if j == |names| then None
    else if DayMatchAt(s, names[j], i) then Some(names[j])
    else FirstDayFrom(s, names, i, j + 1)
  }

  /** What the search finds is a day word that matches at `i`. */
  lemma {:induction false} FirstDayFromSome(s: string, names: seq<string>, i: nat, j: nat)
    requires AreDayWords(names) && j <= |names|
    decreases |names| - j
    ensures var r := FirstDayFrom(s, names, i, j);
      r.Some? ==> r.value in names[j..] && IsDayWord(r.value) && DayMatchAt(s, r.value, i)
  {
    if j < |names| && !DayMatchAt(s, names[j], i) {
      FirstDayFromSome(s, names, i, j + 1);
      assert names[j + 1..] == names[j..][1..];
    }
  }

  /** The search finds nothing only when no name from `j` on matches. */
  lemma {:induction false} FirstDayFromNone(s: string, names: seq<string>, i: nat, j: nat)
    requires AreDayWords(names) && j <= |names|
    decreases |names| - j
    ensures FirstDayFrom(s, names, i, j).None? <==> forall k :: j <= k < |names| ==> !DayMatchAt(s, names[k], i)
  {
    if j < |names| {
      FirstDayFromNone(s, names, i, j + 1);
    }
  }

  /**
    What the pattern `\b(name|name|...)\b` matches at `i`: the first name in the
    list that matches there (`DayAtSome`), or None when none does (`DayAtNone`).
   */
  function DayAt(s: string, names: seq<string>, i: nat): (r: Option<string>)
    requires AreDayWords(names)
    ensures r.Some? ==> |r.value| >= 6 && i + |r.value| <= |s|
  {
    FirstDayFrom(s, names, i, 0)
  }

  lemma DayAtSome(s: string, names: seq<string>, i: nat)
    requires AreDayWords(names)
    ensures var r := DayAt(s, names, i);
      r.Some? ==> r.value in names && IsDayWord(r.value) && DayMatchAt(s, r.value, i)
  {
    FirstDayFromSome(s, names, i, 0);
    assert names[0..] == names;
  }

  lemma DayAtNone(s: string, names: seq<string>, i: nat)
    requires AreDayWords(names)
    ensures DayAt(s, names, i).None? <==> forall k :: 0 <= k < |names| ==> !DayMatchAt(s, names[k], i)
  {
    FirstDayFromNone(s, names, i, 0);
  }

  /** `re.sub` of the pattern with `"\n for the day : \1"`, from position `i` on. */
  function MarkFrom(s: string, names: seq<string>, i: nat): string
    requires AreDayWords(names) && i <= |s|
    decreases |s| - i
  {
    if i == |s| then ""
    else
      match DayAt(s, names, i)
      case Some(name) => Marker + name + MarkFrom(s, names, i + |name|)
      case None => [s[i]] + MarkFrom(s, names, i + 1)
  }

  /** The substitution the scraper makes, with the fourteen day names. */
  function MarkDays(s: string): string {
    DayNamesAreWords();
    MarkFrom(s, DayNames, 0)
  }

  /** Every marker deleted. */
  function Unmark(s: string): string
    decreases |s|
  {
    if s == [] then []
    else if |Marker| <= |s| && s[..|Marker|] == Marker then Unmark(s[|Marker|..])
    else [s[0]] + Unmark(s[1..])
  }

  /** Text without newlines passes through `Unmark` untouched. */
  lemma {:induction false} UnmarkPlain(a: string, r: string)
    requires forall k :: 0 <= k < |a| ==> a[k] != '\n'
    ensures Unmark(a + r) == a + Unmark(r)
  {
    if a != [] {
      var s := a + r;
      assert s[0] == a[0] && Marker[0] == '\n';
      assert s[1..] == a[1..] + r;
      UnmarkPlain(a[1..], r);
      assert a == [a[0]] + a[1..];
    } else {
      assert a + r == r;
    }
  }

  /** A marker and the day name after it come out of `Unmark` as the name alone. */
  lemma UnmarkMarker(name: string, rest: string)
    requires forall k :: 0 <= k < |name| ==> name[k] != '\n'
    ensures Unmark(Marker + name + rest) == name + Unmark(rest)
  {
    var m := Marker + (name + rest);
    assert Marker + name + rest == m;
    assert m[..|Marker|] == Marker;
    assert m[|Marker|..] == name + rest;
    UnmarkPlain(name, rest);
  }

  lemma SliceSplit(s: string, i: nat, j: nat)
    requires i <= j <= |s|
    ensures s[i..] == s[i..j] + s[j..]
  {
  }

  lemma UnmarkMatchStep(s: string, names: seq<string>, i: nat, name: string)
    requires AreDayWords(names) && i < |s| && DayAt(s, names, i) == Some(name)
    requires Unmark(MarkFrom(s, names, i + |name|)) == s[i + |name|..]
    ensures Unmark(MarkFrom(s, names, i)) == s[i..]
  {
    var rest := MarkFrom(s, names, i + |name|);
    assert MarkFrom(s, names, i) == Marker + name + rest;
    DayAtSome(s, names, i);
    UnmarkMarker(name, rest);
    SliceSplit(s, i, i + |name|);
  }

  lemma UnmarkCopyStep(s: string, names: seq<string>, i: nat)
    requires AreDayWords(names) && i < |s| && s[i] != '\n' && DayAt(s, names, i).None?
    requires Unmark(MarkFrom(s, names, i + 1)) == s[i + 1..]
    ensures Unmark(MarkFrom(s, names, i)) == s[i..]
  {
    assert MarkFrom(s, names, i) == [s[i]] + MarkFrom(s, names, i + 1);
    UnmarkPlain([s[i]], MarkFrom(s, names, i + 1));
    SliceSplit(s, i, i + 1);
  }

  /** Deleting the markers from the marked text gives the text back, from `i` on. */
  lemma {:induction false} UnmarkMarkFrom(s: string, names: seq<string>, i: nat)
    requires AreDayWords(names) && i <= |s| && forall k :: 0 <= k < |s| ==> s[k] != '\n'
    decreases |s| - i
    ensures Unmark(MarkFrom(s, names, i)) == s[i..]
  {
    if i < |s| {
      match DayAt(s, names, i)
      case Some(name) =>
        UnmarkMarkFrom(s, names, i + |name|);
        UnmarkMatchStep(s, names, i, name);
      case None =>
        UnmarkMarkFrom(s, names, i + 1);
        UnmarkCopyStep(s, names, i);
    }
  }

  /** Deleting every marker from the marked text gives the text back. */
  lemma MarkDaysRoundTrip(s: string)
    requires forall k :: 0 <= k < |s| ==> s[k] != '\n'
    ensures Unmark(MarkDays(s)) == s
  {
    DayNamesAreWords();
    UnmarkMarkFrom(s, DayNames, 0);
  }

  /** The number of positions from `i` on at which a name matches. */
  function DayCount(s: string, names: seq<string>, i: nat): nat
    requires AreDayWords(names) && i <= |s|
    decreases |s| - i
  {
    if i == |s| then 0
    else (if DayAt(s, names, i).Some? then 1 else 0) + DayCount(s, names, i + 1)
  }

  /** The number of positions at which one of the fourteen day names matches. */
  function DaysIn(s: string): nat {
    DayNamesAreWords();
    DayCount(s, DayNames, 0)
  }

  /** No name matches strictly inside a matched day word: there is no `\b` there. */
  lemma NoDayInsideDay(s: string, names: seq<string>, name: string, i: nat, p: nat)
    requires AreDayWords(names) && IsDayWord(name) && DayMatchAt(s, name, i) && i < p < i + |name|
    ensures DayAt(s, names, p).None?
  {
    assert s[p - 1] == name[p - 1 - i] && s[p] == name[p - i];
    assert !IsBoundary(s, p);
    DayAtSome(s, names, p);
  }

  /** Positions without a match add nothing to the count. */
  lemma {:induction false} DayCountSkip(s: string, names: seq<string>, from: nat, to: nat)
    requires AreDayWords(names) && from <= to <= |s|
    requires forall p :: from <= p < to ==> DayAt(s, names, p).None?
    decreases |s| - from
    ensures DayCount(s, names, from) == DayCount(s, names, to)
  {
    if from < to {
      DayCountSkip(s, names, from + 1, to);
    }
  }

  lemma {:induction false} NoNewlineCount(a: string)
    requires forall k :: 0 <= k < |a| ==> a[k] != '\n'
    ensures CountChar(a, '\n') == 0
  {
    if a != [] {
      NoNewlineCount(a[1..]);
    }
  }

  lemma MarkerHasOneNewline()
    ensures CountChar(Marker, '\n') == 1
  {
    var tail := Marker[1..];
    assert forall k :: 0 <= k < |tail| ==> tail[k] != '\n';
    NoNewlineCount(tail);
  }

  /** A marker and the day name after it hold one newline. */
  lemma MarkerNewlines(name: string, rest: string)
    requires forall k :: 0 <= k < |name| ==> name[k] != '\n'
    ensures CountChar(Marker + name + rest, '\n') == 1 + CountChar(rest, '\n')
  {
    CountCharAppend(Marker + name, rest, '\n');
    CountCharAppend(Marker, name, '\n');
    NoNewlineCount(name);
    MarkerHasOneNewline();
  }

  /** After a match, the count resumes past the name. */
  lemma DayCountAfterMatch(s: string, names: seq<string>, name: string, i: nat)
    requires AreDayWords(names) && IsDayWord(name) && DayMatchAt(s, name, i)
    ensures DayCount(s, names, i + 1) == DayCount(s, names, i + |name|)
  {
    forall p | i + 1 <= p < i + |name|
      ensures DayAt(s, names, p).None?
    {
      NoDayInsideDay(s, names, name, i, p);
    }
    DayCountSkip(s, names, i + 1, i + |name|);
  }

  /** A match adds one marker newline and one to the count. */
  lemma NewlinesMatchStep(s: string, names: seq<string>, i: nat, name: string)
    requires AreDayWords(names) && i < |s| && DayAt(s, names, i) == Some(name)
    requires CountChar(MarkFrom(s, names, i + |name|), '\n') == DayCount(s, names, i + |name|)
    ensures CountChar(MarkFrom(s, names, i), '\n') == DayCount(s, names, i)
  {
    var rest := MarkFrom(s, names, i + |name|);
    assert MarkFrom(s, names, i) == Marker + name + rest;
    DayAtSome(s, names, i);
    MarkerNewlines(name, rest);
    DayCountAfterMatch(s, names, name, i);
  }

  /** A character copied without a match adds neither. */
  lemma NewlinesCopyStep(s: string, names: seq<string>, i: nat)
    requires AreDayWords(names) && i < |s| && s[i] != '\n' && DayAt(s, names, i).None?
    requires CountChar(MarkFrom(s, names, i + 1), '\n') == DayCount(s, names, i + 1)
    ensures CountChar(MarkFrom(s, names, i), '\n') == DayCount(s, names, i)
  {
    assert MarkFrom(s, names, i) == [s[i]] + MarkFrom(s, names, i + 1);
    CountCharAppend([s[i]], MarkFrom(s, names, i + 1), '\n');
  }

  /** The marked text has one newline per match, from `i` on. */
  lemma {:induction false} NewlinesCountDays(s: string, names: seq<string>, i: nat)
    requires AreDayWords(names) && i <= |s| && forall k :: 0 <= k < |s| ==> s[k] != '\n'
    decreases |s| - i
    ensures CountChar(MarkFrom(s, names, i), '\n') == DayCount(s, names, i)
  {
    if i < |s| {
      match DayAt(s, names, i)
      case Some(name) =>
        NewlinesCountDays(s, names, i + |name|);
        NewlinesMatchStep(s, names, i, name);
      case None =>
        NewlinesCountDays(s, names, i + 1);
        NewlinesCopyStep(s, names, i);
    }
  }

  /** `r` holds a marker followed by `name` at `q`. */
  predicate MarkedAt(r: string, q: int, name: string) {
    0 <= q && q + |Marker| + |name| <= |r| && r[q..q + |Marker| + |name|] == Marker + name
  }

  /** Where the match at `p` lands in the text marked from `i`: one marker per match before it. */
  function MarkOffset(s: string, names: seq<string>, i: nat, p: nat): int
    requires AreDayWords(names) && i <= p <= |s|
  {
    (p - i) + |Marker| * (DayCount(s, names, i) - DayCount(s, names, p))
  }

  /**
    The marker goes right where the match is: a name matching at `p` appears in the
    marked text as `Marker + name`, after the characters of `s` from `i` up to `p`
    and one marker for each match among them.
   */
  lemma {:induction false} MarkerBeforeDay(s: string, names: seq<string>, i: nat, p: nat, name: string)
    requires AreDayWords(names) && i <= p < |s| && DayAt(s, names, p) == Some(name)
    decreases |s| - i
    ensures DayCount(s, names, p) <= DayCount(s, names, i)
    ensures MarkedAt(MarkFrom(s, names, i), MarkOffset(s, names, i, p), name)
  {
    if i == p {
      MarkerAtMatch(s, names, p, name);
    } else {
      match DayAt(s, names, i)
      case Some(first) =>
        MatchEndsBefore(s, names, i, p, first);
        MarkerBeforeDay(s, names, i + |first|, p, name);
        MarkerMatchStep(s, names, i, p, name, first);
      case None =>
        MarkerBeforeDay(s, names, i + 1, p, name);
        MarkerCopyStep(s, names, i, p, name);
    }
  }

  lemma MarkerAtMatch(s: string, names: seq<string>, p: nat, name: string)
    requires AreDayWords(names) && p < |s| && DayAt(s, names, p) == Some(name)
    ensures MarkedAt(MarkFrom(s, names, p), 0, name)
  {
    var r := MarkFrom(s, names, p);
    assert r == Marker + name + MarkFrom(s, names, p + |name|);
    assert r[..|Marker| + |name|] == Marker + name;
  }

  /** A match at `i` ends at or before any later match `p`. */
  lemma MatchEndsBefore(s: string, names: seq<string>, i: nat, p: nat, first: string)
    requires AreDayWords(names) && i < p && DayAt(s, names, i) == Some(first) && DayAt(s, names, p).Some?
    ensures i + |first| <= p
  {
    DayAtSome(s, names, i);
    if p < i + |first| {
      NoDayInsideDay(s, names, first, i, p);
    }
  }

  lemma MarkerMatchStep(s: string, names: seq<string>, i: nat, p: nat, name: string, first: string)
    requires AreDayWords(names) && i < p < |s| && DayAt(s, names, i) == Some(first) && i + |first| <= p
    requires DayCount(s, names, p) <= DayCount(s, names, i + |first|)
    requires MarkedAt(MarkFrom(s, names, i + |first|), MarkOffset(s, names, i + |first|, p), name)
    ensures DayCount(s, names, p) <= DayCount(s, names, i)
    ensures MarkedAt(MarkFrom(s, names, i), MarkOffset(s, names, i, p), name)
  {
    MatchCounted(s, names, i, first);
    var rest := MarkFrom(s, names, i + |first|);
    assert MarkFrom(s, names, i) == (Marker + first) + rest;
    assert MarkOffset(s, names, i, p) == |Marker + first| + MarkOffset(s, names, i + |first|, p);
    MarkerShift(Marker + first, rest, MarkOffset(s, names, i + |first|, p), name);
  }

  /** A match counts once, and the count resumes past it. */
  lemma MatchCounted(s: string, names: seq<string>, i: nat, first: string)
    requires AreDayWords(names) && i < |s| && DayAt(s, names, i) == Some(first)
    ensures i + |first| <= |s| && DayCount(s, names, i) == 1 + DayCount(s, names, i + |first|)
  {
    DayAtSome(s, names, i);
    DayCountAfterMatch(s, names, first, i);
  }

  lemma MarkerCopyStep(s: string, names: seq<string>, i: nat, p: nat, name: string)
    requires AreDayWords(names) && i < p < |s| && DayAt(s, names, i).None?
    requires DayCount(s, names, p) <= DayCount(s, names, i + 1)
    requires MarkedAt(MarkFrom(s, names, i + 1), MarkOffset(s, names, i + 1, p), name)
    ensures DayCount(s, names, p) <= DayCount(s, names, i)
    ensures MarkedAt(MarkFrom(s, names, i), MarkOffset(s, names, i, p), name)
  {
    var rest := MarkFrom(s, names, i + 1);
    assert MarkFrom(s, names, i) == [s[i]] + rest;
    assert MarkOffset(s, names, i, p) == 1 + MarkOffset(s, names, i + 1, p);
    MarkerShift([s[i]], rest, MarkOffset(s, names, i + 1, p), name);
  }

  lemma MarkerShift(head: string, rest: string, q: int, name: string)
    requires MarkedAt(rest, q, name)
    ensures MarkedAt(head + rest, |head| + q, name)
  {
    var r := head + rest;
    var n := |Marker| + |name|;
    assert r[|head| + q..|head| + q + n] == rest[q..q + n];
  }

  /** Where no name matches, the text is copied as it is. */
  lemma {:induction false} MarkFromWithoutDays(s: string, names: seq<string>, i: nat)
    requires AreDayWords(names) && i <= |s|
    requires forall p :: i <= p < |s| ==> DayAt(s, names, p).None?
    decreases |s| - i
    ensures MarkFrom(s, names, i) == s[i..]
  {
    if i < |s| {
      MarkFromWithoutDays(s, names, i + 1);
      assert s[i..] == [s[i]] + s[i + 1..];
    }
  }

  /** A day word matches only at an ASCII capital followed, one further on, by an ASCII lower-case letter. */
  lemma DayMatchCases(s: string, names: seq<string>, p: nat)
    requires AreDayWords(names) && DayAt(s, names, p).Some?
    ensures p + 2 < |s| && 'A' <= s[p] <= 'Z' && 'a' <= s[p + 2] <= 'z'
  {
    var name := DayAt(s, names, p).value;
    DayAtSome(s, names, p);
    assert s[p] == name[0] && s[p + 2] == name[2];
  }

  /**
    Matching is case-sensitive: a text without an ASCII capital, or without an
    ASCII lower-case letter (all capitals), gets no marker.
   */
  lemma UncapitalisedTextUnmarked(s: string)
    requires (forall k :: 0 <= k < |s| ==> !('A' <= s[k] <= 'Z'))
          || (forall k :: 0 <= k < |s| ==> !('a' <= s[k] <= 'z'))
    ensures MarkDays(s) == s
  {
    DayNamesAreWords();
    forall p | 0 <= p < |s|
      ensures DayAt(s, DayNames, p).None?
    {
      if DayAt(s, DayNames, p).Some? {
        DayMatchCases(s, DayNames, p);
      }
    }
    MarkFromWithoutDays(s, DayNames, 0);
    assert s[0..] == s;
  }

  // ---------------------------------------------------------------------------
  // The scraper
  // ---------------------------------------------------------------------------

  /** `scrape_text`, given the page's text (None when fetching failed). */
  function ScrapeText(pageText: Option<string>): Option<string> {
    if pageText.None? then None else Some(MarkDays(Normalize(pageText.value)))
  }

  /**
    The scraped text is the collapsed page text with one marker per day-name
    match: deleting the markers gives the collapsed text back, and it has one
    newline per match.
   */
  lemma ScrapeTextShape(pageText: Option<string>)
    ensures ScrapeText(pageText).None? <==> pageText.None?
    ensures pageText.Some? ==>
      var n := Normalize(pageText.value);
      var r := ScrapeText(pageText).value;
      IsNormal(n) && Unmark(r) == n && CountChar(r, '\n') == DaysIn(n)
  {
    if pageText.Some? {
      var n := Normalize(pageText.value);
      NormalizeIsNormal(pageText.value);
      NormalHasNoNewline(n);
      MarkDaysRoundTrip(n);
      DayNamesAreWords();
      NewlinesCountDays(n, DayNames, 0);
    }
  }
}
