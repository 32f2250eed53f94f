/**
  The text heuristics of the PDF scraper that work on OCR or PDF text once it has
  been extracted: the day-name windows, the deduplicating organiser of selectable
  text, the "Veckans ..." sections and the 300-character region slice.
 */
module PdfText {
  import opened Wrappers
  import opened Text

  // ---------------------------------------------------------------------------
  // extract_day_sentences
  // ---------------------------------------------------------------------------

  /** The Swedish and English day names, lower case. */
  const DayNames: seq<string> :=
    ["måndag", "tisdag", "onsdag", "torsdag", "fredag", "lördag", "söndag",
     "monday", "tuesday", "wednesday", "thursday", "friday", "saturday", "sunday"]

  /** `any(day in line.lower() for day in names)` */
  predicate MentionsName(line: string, names: seq<string>) {
    exists k :: 0 <= k < |names| && Contains(LowerStr(line), names[k])
  }

  /** The stripped three-line window around line `i`, with `''` beyond either end. */
  function Window(lines: seq<string>, i: nat): string
    requires i < |lines|
  {
    var prev := if i > 0 then lines[i - 1] else "";
    var next := if i + 1 < |lines| then lines[i + 1] else "";
    Strip(prev + "\n" + lines[i] + "\n" + next)
  }

  /** The windows around the lines among the first `n` that mention a day, in line order. */
  function DayWindows(lines: seq<string>, n: nat, names: seq<string>): seq<string>
    requires n <= |lines|
  {
    if n == 0 then []
    else if MentionsName(lines[n - 1], names) then DayWindows(lines, n - 1, names) + [Window(lines, n - 1)]
    else DayWindows(lines, n - 1, names)
  }

  /** The distinct windows around the lines that mention a day. */
  function DayWindowSet(lines: seq<string>, names: seq<string>): set<string> {
    set w | w in DayWindows(lines, |lines|, names)
  }

  /** Every collected window comes from a line that mentions a name. */
  lemma {:induction false} DayWindowSource(lines: seq<string>, n: nat, names: seq<string>, w: string)
    returns (k: nat)
    requires n <= |lines| && w in DayWindows(lines, n, names)
    ensures k < n && MentionsName(lines[k], names) && w == Window(lines, k)
  {
    var before := DayWindows(lines, n - 1, names);
    if MentionsName(lines[n - 1], names) {
      var last := Window(lines, n - 1);
      assert DayWindows(lines, n, names) == before + [last];
      if w == last {
        k := n - 1;
      } else {
        assert w in before;
        k := DayWindowSource(lines, n - 1, names, w);
      }
    } else {
      assert DayWindows(lines, n, names) == before;
      k := DayWindowSource(lines, n - 1, names, w);
    }
  }

  /** Every line that mentions a name has its window collected. */
  lemma {:induction false} DayWindowCollected(lines: seq<string>, n: nat, names: seq<string>, k: nat)
    requires k < n <= |lines| && MentionsName(lines[k], names)
    ensures Window(lines, k) in DayWindows(lines, n, names)
  {
    if k < n - 1 {
      DayWindowCollected(lines, n - 1, names, k);
    }
  }

  /**
    `extract_day_sentences(text)`: the windows are collected in line order, put in a
    set, and the set is listed in whatever order it yields (an arbitrary choice here)
    and joined with newlines.
   */
  method ExtractDaySentences(text: string) returns (r: string, windows: seq<string>)
    ensures Distinct(windows)
    ensures forall w :: w in windows <==> w in DayWindowSet(SplitOn(text, '\n'), DayNames)
    ensures r == JoinWith(windows, "\n")
  {
    var lines := SplitOn(text, '\n');
    var dayLines: seq<string> := [];
    for i := 0 to |lines|
      invariant dayLines == DayWindows(lines, i, DayNames)
    {
      if MentionsName(lines[i], DayNames) {
        dayLines := dayLines + [Window(lines, i)];
      }
    }
    var pool := set w | w in dayLines;
    windows := [];
    while pool != {}
      invariant Distinct(windows)
      invariant forall w :: w in windows ==> w !in pool
      invariant forall w :: w in dayLines <==> w in windows || w in pool
      decreases |pool|
    {
      var w :| w in pool;
      windows := windows + [w];
      pool := pool - {w};
    }
    r := JoinWith(windows, "\n");
  }

  /** Lower-casing leaves whitespace alone, so a non-space lower-cased character was non-space. */
  lemma LowerKeepsNonSpace(c: char)
    requires !IsSpace(Lower(c))
    ensures !IsSpace(c)
  {
  }

  /** Names that start with a non-space character. */
  predicate StartNonSpace(names: seq<string>) {
    forall k :: 0 <= k < |names| ==> names[k] != "" && !IsSpace(names[k][0])
  }

  lemma DayNamesStartNonSpace()
    ensures StartNonSpace(DayNames)
  {
  }

  /** A line that mentions such a name holds a non-space character, so its window is not blank. */
  lemma WindowNotBlank(lines: seq<string>, i: nat, names: seq<string>)
    requires StartNonSpace(names)
    requires i < |lines| && MentionsName(lines[i], names)
    ensures Window(lines, i) != "" && IsStripped(Window(lines, i))
  {
    var k :| 0 <= k < |names| && Contains(LowerStr(lines[i]), names[k]);
    var d := names[k];
    var at := Find(LowerStr(lines[i]), d).value;
    assert LowerStr(lines[i])[at] == d[0];
    LowerKeepsNonSpace(lines[i][at]);
    var prev := if i > 0 then lines[i - 1] else "";
    var next := if i + 1 < |lines| then lines[i + 1] else "";
    var whole := prev + "\n" + lines[i] + "\n" + next;
    assert whole[|prev| + 1 + at] == lines[i][at];
    StripKeepsNonSpace(whole, |prev| + 1 + at);
    StripSpec(whole);
  }

  /** A newline-join of non-empty parts is empty exactly when there are no parts. */
  lemma JoinEmptyIffNoParts(parts: seq<string>)
    requires forall p :: p in parts ==> p != ""
    ensures JoinWith(parts, "\n") == "" <==> parts == []
  {
    if parts != [] {
      assert parts[0] in parts;
      if |parts| > 1 {
        assert JoinWith(parts, "\n") == parts[0] + "\n" + JoinWith(parts[1..], "\n");
      }
    }
  }

  /**
    `extract_day_sentences` returns "" exactly when no line mentions a day; otherwise
    every listed window is non-blank and stripped. (The day names qualify: see
    `DayNamesStartNonSpace`.)
   */
  lemma DaySentencesEmptyIff(lines: seq<string>, names: seq<string>, windows: seq<string>)
    requires StartNonSpace(names)
    requires forall w :: w in windows <==> w in DayWindowSet(lines, names)
    ensures forall w :: w in windows ==> w != "" && IsStripped(w)
    ensures JoinWith(windows, "\n") == "" <==>
            forall i :: 0 <= i < |lines| ==> !MentionsName(lines[i], names)
  {
    forall w | w in windows
      ensures w != "" && IsStripped(w)
    {
      var k := DayWindowSource(lines, |lines|, names, w);
      WindowNotBlank(lines, k, names);
    }
    JoinEmptyIffNoParts(windows);
    if exists i :: 0 <= i < |lines| && MentionsName(lines[i], names) {
      var i :| 0 <= i < |lines| && MentionsName(lines[i], names);
      DayWindowCollected(lines, |lines|, names, i);
      assert Window(lines, i) in windows;
    }
    if windows != [] {
      assert windows[0] in windows;
      var k := DayWindowSource(lines, |lines|, names, windows[0]);
    }
  }

  // ---------------------------------------------------------------------------
  // clean_and_organize_text
  // ---------------------------------------------------------------------------

  /** The upper-case words that open a new section (MÅNDAG is not among them). */
  const SectionKeywords: seq<string> := ["TISDAG", "ONSDAG", "TORSDAG", "FREDAG", "VECKANS"]

  /** `any(keyword in line for keyword in keywords)`, case-sensitive. */
  predicate HasKeyword(line: string, keywords: seq<string>) {
    keywords != [] && (Contains(line, keywords[0]) || HasKeyword(line, keywords[1..]))
  }

  /** `line.strip()` for every line. */
  function StripEach(lines: seq<string>): (r: seq<string>)
    ensures |r| == |lines|
  {
    seq(|lines|, i requires 0 <= i < |lines| => Strip(lines[i]))
  }

  /** The non-empty entries, each kept at its first occurrence only. */
  function KeepFirst(xs: seq<string>): seq<string>
    decreases |xs|
  {
    if xs == [] then []
    else
      var u := KeepFirst(xs[..|xs| - 1]);
      var c := xs[|xs| - 1];
      if c != "" && c !in u then u + [c] else u
  }

  /** The stripped non-blank lines, each kept at its first occurrence only. */
  function UniqueLines(lines: seq<string>): seq<string> {
    KeepFirst(StripEach(lines))
  }

  /**
    The lines grouped into sections: a line with a keyword opens a new section
    unless nothing has been collected yet; every other line joins the current one.
   */
  function Sections(lines: seq<string>, keywords: seq<string>): (ss: seq<seq<string>>)
    decreases |lines|
    ensures |ss| <= |lines|
    ensures lines != [] ==> ss != []
  {
    if lines == [] then []
    else
      var ss := Sections(lines[..|lines| - 1], keywords);
      var l := lines[|lines| - 1];
      if ss == [] || HasKeyword(l, keywords) then ss + [[l]]
      else ss[..|ss| - 1] + [ss[|ss| - 1] + [l]]
  }

  /** Each section rendered as its lines joined by newlines. */
  function JoinEach(ss: seq<seq<string>>): (r: seq<string>)
    ensures |r| == |ss|
  {
    seq(|ss|, i requires 0 <= i < |ss| => JoinWith(ss[i], "\n"))
  }

  /** What `clean_and_organize_text(text)` returns. */
  function Organized(text: string): string {
    JoinWith(JoinEach(Sections(UniqueLines(SplitLines(text)), SectionKeywords)), "\n\n")
  }

  /** The first loop of `clean_and_organize_text`: the `seen` set and `unique_lines`. */
  method DedupLines(lines: seq<string>) returns (unique: seq<string>)
    ensures unique == UniqueLines(lines)
  {
    ghost var stripped := StripEach(lines);
    var seen: set<string> := {};
    unique := [];
    for i := 0 to |lines|
      invariant unique == KeepFirst(stripped[..i])
      invariant seen == set x | x in unique
    {
      assert stripped[..i + 1][..i] == stripped[..i];
      var cleaned := Strip(lines[i]);
      assert stripped[..i + 1][i] == cleaned;
      if cleaned != "" && cleaned !in seen {
        seen := seen + {cleaned};
        unique := unique + [cleaned];
      }
    }
    assert stripped[..|lines|] == stripped;
  }

  /** One step of the grouping loop, stated on the state it keeps. */
  lemma SectionsStep(lines: seq<string>, keywords: seq<string>, i: nat,
                     blocks: seq<seq<string>>, section: seq<string>)
    requires i < |lines|
    requires i == 0 ==> section == [] && blocks == []
    requires i > 0 ==> section != [] && Sections(lines[..i], keywords) == blocks + [section]
    ensures HasKeyword(lines[i], keywords) && section != [] ==>
            Sections(lines[..i + 1], keywords) == (blocks + [section]) + [[lines[i]]]
    ensures !(HasKeyword(lines[i], keywords) && section != []) ==>
            Sections(lines[..i + 1], keywords) == blocks + [section + [lines[i]]]
  {
    assert lines[..i + 1][..i] == lines[..i];
    assert lines[..i + 1][i] == lines[i];
    if i == 0 {
      assert lines[..0] == [];
      assert Sections(lines[..i + 1], keywords) == [[lines[i]]];
      assert section + [lines[i]] == [lines[i]];
    } else {
      assert (blocks + [section])[..|blocks|] == blocks;
    }
  }

  lemma JoinEachAppend(blocks: seq<seq<string>>, section: seq<string>)
    ensures JoinEach(blocks + [section]) == JoinEach(blocks) + [JoinWith(section, "\n")]
  {
  }

  /** The second loop of `clean_and_organize_text`: `section` and `organized_text`. */
  method GroupSections(unique: seq<string>, keywords: seq<string>) returns (organized: seq<string>)
    ensures organized == JoinEach(Sections(unique, keywords))
  {
    organized := [];
    var section: seq<string> := [];
    ghost var blocks: seq<seq<string>> := [];
    for i := 0 to |unique|
      invariant organized == JoinEach(blocks)
      invariant i == 0 ==> section == [] && blocks == []
      invariant i > 0 ==> section != [] && Sections(unique[..i], keywords) == blocks + [section]
    {
      var line := unique[i];
      SectionsStep(unique, keywords, i, blocks, section);
      if HasKeyword(line, keywords) && section != [] {
        JoinEachAppend(blocks, section);
        organized := organized + [JoinWith(section, "\n")];
        blocks := blocks + [section];
        section := [];
      }
      assert section == [] ==> section + [line] == [line];
      section := section + [line];
    }
    assert unique[..|unique|] == unique;
    if section != [] {
      JoinEachAppend(blocks, section);
      organized := organized + [JoinWith(section, "\n")];
      blocks := blocks + [section];
    }
  }

  /** `clean_and_organize_text(text)` */
  method CleanAndOrganize(text: string) returns (r: string)
    ensures r == Organized(text)
  {
    var unique := DedupLines(SplitLines(text));
    var organized := GroupSections(unique, SectionKeywords);
    r := JoinWith(organized, "\n\n");
  }

  /** `KeepFirst` keeps non-empty, pairwise distinct entries. */
  lemma {:induction false} KeepFirstFacts(xs: seq<string>)
    ensures Distinct(KeepFirst(xs))
    ensures forall x :: x in KeepFirst(xs) ==> x != ""
  {
    if xs != [] {
      KeepFirstFacts(xs[..|xs| - 1]);
    }
  }

  /** Every kept entry is an entry of the input. */
  lemma {:induction false} KeepFirstSource(xs: seq<string>, x: string) returns (k: nat)
    requires x in KeepFirst(xs)
    ensures k < |xs| && xs[k] == x
  {
    var n := |xs| - 1;
    if x in KeepFirst(xs[..n]) {
      k := KeepFirstSource(xs[..n], x);
    } else {
      k := n;
    }
  }

  /** Every non-empty entry of the input is kept. */
  lemma {:induction false} KeepFirstComplete(xs: seq<string>, k: nat)
    requires k < |xs| && xs[k] != ""
    ensures xs[k] in KeepFirst(xs)
  {
    var n := |xs| - 1;
    if k < n {
      assert xs[..n][k] == xs[k];
      KeepFirstComplete(xs[..n], k);
    }
  }

  /**
    The kept entries appear in the order of their first occurrences: `idx` gives, for
    each kept entry, the first index holding it, and increases.
   */
  lemma {:induction false} KeepFirstOrder(xs: seq<string>) returns (idx: seq<nat>)
    ensures |idx| == |KeepFirst(xs)|
    ensures forall i :: 0 <= i < |idx| ==> idx[i] < |xs| && KeepFirst(xs)[i] == xs[idx[i]]
    ensures forall i, k :: 0 <= i < |idx| && 0 <= k < idx[i] ==> xs[k] != KeepFirst(xs)[i]
    ensures forall i, j :: 0 <= i < j < |idx| ==> idx[i] < idx[j]
  {
    if xs == [] {
      idx := [];
    } else {
      var n := |xs| - 1;
      var init := xs[..n];
      idx := KeepFirstOrder(init);
      var c := xs[n];
      var before := KeepFirst(init);
      if c != "" && c !in before {
        assert KeepFirst(xs) == before + [c];
        forall k | 0 <= k < n
          ensures xs[k] != c
        {
          assert init[k] == xs[k];
          if init[k] == c {
            KeepFirstComplete(init, k);
          }
        }
        forall i | 0 <= i < |idx|
          ensures xs[idx[i]] == init[idx[i]]
        {
        }
        idx := idx + [n];
      } else {
        assert KeepFirst(xs) == before;
        forall i | 0 <= i < |idx|
          ensures xs[idx[i]] == init[idx[i]]
        {
        }
      }
    }
  }

  /**
    `clean_and_organize_text` keeps exactly the non-blank stripped input lines, each
    once, stripped, in the order of their first occurrences (`idx` as in `KeepFirstOrder`).
   */
  lemma UniqueLinesFacts(lines: seq<string>) returns (idx: seq<nat>)
    ensures Distinct(UniqueLines(lines))
    ensures forall x :: x in UniqueLines(lines) ==> x != "" && IsStripped(x)
    ensures forall k :: 0 <= k < |lines| && Strip(lines[k]) != "" ==> Strip(lines[k]) in UniqueLines(lines)
    ensures |idx| == |UniqueLines(lines)|
    ensures forall i :: 0 <= i < |idx| ==>
              idx[i] < |lines| && UniqueLines(lines)[i] == Strip(lines[idx[i]])
    ensures forall i, k :: 0 <= i < |idx| && 0 <= k < idx[i] ==> Strip(lines[k]) != UniqueLines(lines)[i]
    ensures forall i, j :: 0 <= i < j < |idx| ==> idx[i] < idx[j]
  {
    var xs := StripEach(lines);
    var u := KeepFirst(xs);
    assert u == UniqueLines(lines);
    KeepFirstFacts(xs);
    forall x | x in u
      ensures IsStripped(x)
    {
      var k := KeepFirstSource(xs, x);
      StripSpec(lines[k]);
    }
    forall k | 0 <= k < |lines| && Strip(lines[k]) != ""
      ensures Strip(lines[k]) in u
    {
      assert xs[k] == Strip(lines[k]);
      KeepFirstComplete(xs, k);
    }
    idx := KeepFirstOrder(xs);
    forall i, k | 0 <= i < |idx| && 0 <= k < idx[i]
      ensures Strip(lines[k]) != u[i]
    {
      assert xs[k] == Strip(lines[k]);
    }
  }

  /** All lines of the sections, in order. */
  function Flatten(ss: seq<seq<string>>): seq<string> {
    if ss == [] then [] else Flatten(ss[..|ss| - 1]) + ss[|ss| - 1]
  }

  lemma FlattenAppend(ss: seq<seq<string>>, x: seq<string>)
    ensures Flatten(ss + [x]) == Flatten(ss) + x
  {
    assert (ss + [x])[..|ss|] == ss;
  }

  /**
    The cut points of a grouping: the sections are non-empty, every section after the
    first opens with a keyword line, and no other line of a section holds a keyword.
   */
  predicate WellCut(ss: seq<seq<string>>, keywords: seq<string>) {
    (forall j :: 0 <= j < |ss| ==> ss[j] != [])
    && (forall j :: 0 < j < |ss| ==> HasKeyword(ss[j][0], keywords))
    && (forall j, m :: 0 <= j < |ss| && 0 < m < |ss[j]| ==> !HasKeyword(ss[j][m], keywords))
  }

  /** Starting a new section with a keyword line keeps the cuts well placed. */
  lemma CutNewSection(ss: seq<seq<string>>, l: string, keywords: seq<string>)
    requires WellCut(ss, keywords)
    requires ss == [] || HasKeyword(l, keywords)
    ensures WellCut(ss + [[l]], keywords)
  {
    var next := ss + [[l]];
    forall j | 0 <= j < |next|
      ensures next[j] != []
    {
      if j < |ss| {
        assert next[j] == ss[j];
      }
    }
    forall j, m | 0 <= j < |next| && 0 < m < |next[j]|
      ensures !HasKeyword(next[j][m], keywords)
    {
      assert j < |ss| && next[j] == ss[j];
    }
    forall j | 0 < j < |next|
      ensures HasKeyword(next[j][0], keywords)
    {
      if j < |ss| {
        assert next[j] == ss[j];
      }
    }
  }

  /** Adding a line without a keyword to the last section keeps the cuts well placed. */
  lemma CutExtendSection(ss: seq<seq<string>>, l: string, keywords: seq<string>)
    requires WellCut(ss, keywords) && ss != []
    requires !HasKeyword(l, keywords)
    ensures WellCut(ss[..|ss| - 1] + [ss[|ss| - 1] + [l]], keywords)
  {
    var last := ss[|ss| - 1];
    var front := ss[..|ss| - 1];
    var next := front + [last + [l]];
    forall j, m | 0 <= j < |next| && 0 < m < |next[j]|
      ensures !HasKeyword(next[j][m], keywords)
    {
      if j < |front| {
        assert next[j] == ss[j];
      } else if m < |last| {
        assert next[j][m] == ss[|ss| - 1][m];
      }
    }
    forall j | 0 < j < |next|
      ensures HasKeyword(next[j][0], keywords)
    {
      assert next[j][0] == ss[j][0];
    }
    forall j | 0 <= j < |next|
      ensures next[j] != []
    {
      if j < |front| {
        assert next[j] == ss[j];
      }
    }
  }

  /** Grouping only cuts the line list, and only before keyword lines. */
  lemma {:induction false} SectionsShape(lines: seq<string>, keywords: seq<string>)
    ensures Flatten(Sections(lines, keywords)) == lines
    ensures WellCut(Sections(lines, keywords), keywords)
  {
    if lines != [] {
      var n := |lines| - 1;
      var init := lines[..n];
      var l := lines[n];
      SectionsShape(init, keywords);
      var ss := Sections(init, keywords);
      assert init + [l] == lines;
      if ss == [] || HasKeyword(l, keywords) {
        FlattenAppend(ss, [l]);
        CutNewSection(ss, l, keywords);
      } else {
        var last := ss[|ss| - 1];
        var front := ss[..|ss| - 1];
        assert front + [last] == ss;
        FlattenAppend(front, last);
        FlattenAppend(front, last + [l]);
        CutExtendSection(ss, l, keywords);
      }
    }
  }

  /** The lines of the organised text: the sections' lines with one blank line between sections. */
  function WithBlanks(ss: seq<seq<string>>): seq<string> {
    if |ss| == 0 then []
    else if |ss| == 1 then ss[0]
    else WithBlanks(ss[..|ss| - 1]) + [""] + ss[|ss| - 1]
  }

  /** Joining sections with "\n\n" is joining their lines with blank lines between sections. */
  lemma {:induction false} JoinSections(ss: seq<seq<string>>)
    requires forall j :: 0 <= j < |ss| ==> ss[j] != []
    ensures JoinWith(JoinEach(ss), "\n\n") == JoinWith(WithBlanks(ss), "\n")
  {
    if |ss| > 1 {
      var n := |ss| - 1;
      var front := ss[..n];
      JoinSections(front);
      assert JoinEach(ss) == JoinEach(front) + [JoinWith(ss[n], "\n")];
      JoinWithAppend(JoinEach(front), JoinWith(ss[n], "\n"), "\n\n");
      assert WithBlanks(front) != [] by {
        WithBlanksMembers(front);
        assert front[0] != [] && front[0][0] in front[0];
      }
      JoinWithConcat(WithBlanks(front) + [""], ss[n], "\n");
      JoinWithAppend(WithBlanks(front), "", "\n");
    }
  }

  /** The lines of `WithBlanks(ss)` are blank separators or lines of the sections. */
  lemma {:induction false} WithBlanksMembers(ss: seq<seq<string>>)
    ensures forall x :: x in WithBlanks(ss) ==> x == "" || x in Flatten(ss)
    ensures forall j, x :: 0 <= j < |ss| && x in ss[j] ==> x in WithBlanks(ss)
  {
    if |ss| == 1 {
      assert Flatten(ss) == Flatten([]) + ss[0];
    } else if |ss| > 1 {
      var n := |ss| - 1;
      WithBlanksMembers(ss[..n]);
      FlattenAppend(ss[..n], ss[n]);
      assert ss[..n] + [ss[n]] == ss;
      forall j, x | 0 <= j < |ss| && x in ss[j]
        ensures x in WithBlanks(ss)
      {
        if j < n {
          assert ss[..n][j] == ss[j];
        }
      }
    }
  }

  /** `KeepFirst` ignores a blank entry. */
  lemma KeepFirstBlank(xs: seq<string>)
    ensures KeepFirst(xs + [""]) == KeepFirst(xs)
  {
    assert (xs + [""])[..|xs|] == xs;
  }

  /** Appending entries that are non-empty, distinct and new appends them as they are. */
  lemma {:induction false} KeepFirstFresh(xs: seq<string>, ys: seq<string>)
    requires Distinct(KeepFirst(xs) + ys)
    requires forall y :: y in ys ==> y != ""
    ensures KeepFirst(xs + ys) == KeepFirst(xs) + ys
  {
    if ys == [] {
      assert xs + ys == xs;
      assert KeepFirst(xs) + ys == KeepFirst(xs);
    } else {
      var m := |ys| - 1;
      var front := ys[..m];
      var y := ys[m];
      var k := KeepFirst(xs);
      assert k + ys == (k + front) + [y];
      DistinctParts(k + front, [y]);
      forall z | z in front
        ensures z != ""
      {
        assert z in ys;
      }
      KeepFirstFresh(xs, front);
      assert xs + ys == (xs + front) + [y];
      assert ((xs + front) + [y])[..|xs + front|] == xs + front;
      assert y in ys;
      assert KeepFirst(xs + ys) == KeepFirst(xs + front) + [y];
    }
  }

  /** Deduplicating the organised lines again gives back the section lines. */
  lemma {:induction false} KeepFirstOfWithBlanks(ss: seq<seq<string>>)
    requires Distinct(Flatten(ss))
    requires forall x :: x in Flatten(ss) ==> x != ""
    ensures KeepFirst(WithBlanks(ss)) == Flatten(ss)
  {
    if |ss| == 1 {
      assert Flatten(ss) == Flatten([]) + ss[0];
      assert KeepFirst([]) + ss[0] == ss[0] && [] + ss[0] == ss[0];
      KeepFirstFresh([], ss[0]);
    } else if |ss| > 1 {
      var n := |ss| - 1;
      var front := ss[..n];
      assert front + [ss[n]] == ss;
      FlattenAppend(front, ss[n]);
      assert Flatten(ss) == Flatten(front) + ss[n];
      DistinctParts(Flatten(front), ss[n]);
      forall x | x in Flatten(front)
        ensures x != ""
      {
        assert x in Flatten(ss);
      }
      KeepFirstOfWithBlanks(front);
      KeepFirstBlank(WithBlanks(front));
      forall x | x in ss[n]
        ensures x != ""
      {
        assert x in Flatten(ss);
      }
      KeepFirstFresh(WithBlanks(front) + [""], ss[n]);
      assert WithBlanks(ss) == WithBlanks(front) + [""] + ss[n];
    }
  }

  lemma WithBlanksLast(ss: seq<seq<string>>)
    requires ss != [] && ss[|ss| - 1] != []
    ensures WithBlanks(ss) != []
    ensures WithBlanks(ss)[|WithBlanks(ss)| - 1] == ss[|ss| - 1][|ss[|ss| - 1]| - 1]
  {
  }

  /** Kept lines come from `splitlines`, so they hold no line boundary. */
  lemma UniqueLinesAreOneLine(text: string, x: string)
    requires x in UniqueLines(SplitLines(text))
    ensures IsOneLine(x)
  {
    var lines := SplitLines(text);
    var k := KeepFirstSource(StripEach(lines), x);
    StripSpec(lines[k]);
    assert lines[k] in lines;
  }

  /** Lines that `clean_and_organize_text` can produce: distinct, non-blank, stripped, single lines. */
  predicate CleanLines(u: seq<string>) {
    Distinct(u) && forall x :: x in u ==> x != "" && IsStripped(x) && IsOneLine(x)
  }

  /** Splitting the rendered sections gives back their lines, with blank separators. */
  lemma SplitRendered(u: seq<string>, keywords: seq<string>)
    requires CleanLines(u)
    ensures SplitLines(JoinWith(JoinEach(Sections(u, keywords)), "\n\n")) == WithBlanks(Sections(u, keywords))
  {
    var ss := Sections(u, keywords);
    var blank := WithBlanks(ss);
    SectionsShape(u, keywords);
    JoinSections(ss);
    WithBlanksMembers(ss);
    forall i | 0 <= i < |blank|
      ensures IsOneLine(blank[i])
    {
      assert blank[i] in blank;
    }
    if ss != [] {
      WithBlanksLast(ss);
      var last := ss[|ss| - 1];
      assert last[|last| - 1] in last;
    }
    SplitLinesOfJoin(blank);
  }

  /** Deduplicating the split rendering gives back the lines that were grouped. */
  lemma DedupRendered(u: seq<string>, keywords: seq<string>)
    requires CleanLines(u)
    ensures UniqueLines(WithBlanks(Sections(u, keywords))) == u
  {
    var ss := Sections(u, keywords);
    var blank := WithBlanks(ss);
    SectionsShape(u, keywords);
    WithBlanksMembers(ss);
    forall i | 0 <= i < |blank|
      ensures Strip(blank[i]) == blank[i]
    {
      assert blank[i] in blank;
      StripOfStripped(blank[i]);
    }
    assert StripEach(blank) == blank;
    KeepFirstOfWithBlanks(ss);
  }

  /** Organising already organised text changes nothing. */
  lemma OrganizedIdempotent(text: string)
    ensures Organized(Organized(text)) == Organized(text)
  {
    var u := UniqueLines(SplitLines(text));
    var _ := UniqueLinesFacts(SplitLines(text));
    forall x | x in u
      ensures IsOneLine(x)
    {
      UniqueLinesAreOneLine(text, x);
    }
    SplitRendered(u, SectionKeywords);
    DedupRendered(u, SectionKeywords);
  }

  /**
    The lines of `clean_and_organize_text(text)` are the kept lines grouped into
    well-cut sections, with one blank line between sections.
   */
  lemma OrganizedLines(text: string)
    ensures var u := UniqueLines(SplitLines(text));
            var ss := Sections(u, SectionKeywords);
            SplitLines(Organized(text)) == WithBlanks(ss) && Flatten(ss) == u
            && WellCut(ss, SectionKeywords)
  {
    var u := UniqueLines(SplitLines(text));
    var _ := UniqueLinesFacts(SplitLines(text));
    forall x | x in u
      ensures IsOneLine(x)
    {
      UniqueLinesAreOneLine(text, x);
    }
    SplitRendered(u, SectionKeywords);
    SectionsShape(u, SectionKeywords);
  }

  // ---------------------------------------------------------------------------
  // extract_special_sections and the slice of extract_text_from_region
  // ---------------------------------------------------------------------------

  /**
    Where the lookahead `(?=\n[A-Z]|$)` holds: before a newline followed by an ASCII
    capital, at the end, or before a final newline (`$` without MULTILINE).
   */
  predicate StopsAt(s: string, e: nat)
    requires e <= |s|
  {
    (e + 1 < |s| && s[e] == '\n' && IsAsciiUpper(s[e + 1]))
    || e == |s|
    || (e + 1 == |s| && s[e] == '\n')
  }

  /** The first position at or after `e` where the lookahead holds: the lazy `.*?` stops there. */
  function StopFrom(s: string, e: nat): (r: nat)
    requires e <= |s|
    decreases |s| - e
    ensures e <= r <= |s| && StopsAt(s, r)
    ensures forall k :: e <= k < r ==> !StopsAt(s, k)
  {
    if StopsAt(s, e) then e else StopFrom(s, e + 1)
  }

  /** Characters that would make a keyword more than a literal inside the pattern. */
  predicate IsPlainKeyword(kw: string) {
    forall k :: 0 <= k < |kw| ==> kw[k] !in ".^$*+?{}[]\\|()"
  }

  /**
    `re.search(rf"{keyword}.*?(?=\n[A-Z]|$)", text, re.DOTALL)`, stripped: the span from
    the first occurrence of the keyword to the first stop after it.
   */
  function SectionFor(text: string, kw: string): (r: Option<string>)
    ensures r.Some? <==> Contains(text, kw)
  {
    match Find(text, kw)
    case None => None
    case Some(i) => Some(Strip(text[i..StopFrom(text, i + |kw|)]))
  }

  /** The sections of the keywords that occur, in keyword order. */
  function FoundSections(text: string, kws: seq<string>): seq<string> {
    if kws == [] then []
    else
      match SectionFor(text, kws[0])
      case None => FoundSections(text, kws[1..])
      case Some(sec) => [sec] + FoundSections(text, kws[1..])
  }

  /** `extract_special_sections(text, keywords)` */
  function SpecialSections(text: string, kws: seq<string>): string
    requires forall k :: 0 <= k < |kws| ==> IsPlainKeyword(kws[k])
  {
    JoinWith(FoundSections(text, kws), "\n\n")
  }

  /**
    A section, when its keyword occurs, runs from the keyword's first occurrence `i`
    to the first stop `e` after the keyword, and so holds no newline followed by a
    capital letter between the keyword and its end.
   */
  lemma SectionForSpan(text: string, kw: string) returns (i: nat, e: nat)
    requires Contains(text, kw)
    ensures OccursAt(text, kw, i) && forall k :: 0 <= k < i ==> !OccursAt(text, kw, k)
    ensures i + |kw| <= e <= |text| && StopsAt(text, e)
    ensures forall k :: i + |kw| <= k < e ==> !StopsAt(text, k)
    ensures text[i..i + |kw|] == kw
    ensures SectionFor(text, kw) == Some(Strip(text[i..e]))
  {
    i := Find(text, kw).value;
    e := StopFrom(text, i + |kw|);
  }

  /** The sections of a keyword list are those of its parts, in order: each keyword is searched on its own. */
  lemma {:induction false} FoundSectionsAppend(text: string, a: seq<string>, b: seq<string>)
    ensures FoundSections(text, a + b) == FoundSections(text, a) + FoundSections(text, b)
  {
    if a == [] {
      assert a + b == b;
    } else {
      assert (a + b)[0] == a[0];
      assert (a + b)[1..] == a[1..] + b;
      FoundSectionsAppend(text, a[1..], b);
    }
  }

  /** No section is found exactly when no keyword occurs. */
  lemma {:induction false} FoundSectionsNone(text: string, kws: seq<string>)
    ensures FoundSections(text, kws) == [] <==> forall k :: 0 <= k < |kws| ==> !Contains(text, kws[k])
  {
    if kws != [] {
      FoundSectionsNone(text, kws[1..]);
      assert forall k :: 1 <= k < |kws| ==> kws[1..][k - 1] == kws[k];
    }
  }

  /**
    The slice taken by `extract_text_from_region`: up to 300 characters from the
    keyword's first index, or "" when the keyword is missing. `None` when the OCR text
    is missing, where `keyword in text` raises `TypeError`.
   */
  function RegionSlice(ocr: Option<string>, kw: string): (r: Option<string>)
  {
    match ocr
    case None => None
    case Some(t) =>
      if Contains(t, kw) then
        var i := Find(t, kw).value;
        Some(t[i..if i + 300 <= |t| then i + 300 else |t|])
      else Some("")
  }

  /**
    The region slice is the 300 characters (fewer at the end of the text) that start
    at the first occurrence of the keyword, so it starts with the keyword when that is
    not longer than 300; it is "" exactly when the keyword is missing (for a non-empty
    keyword), and fails exactly when the OCR text is missing.
   */
  lemma RegionSliceSpec(ocr: Option<string>, kw: string) returns (i: nat)
    ensures RegionSlice(ocr, kw).None? <==> ocr.None?
    ensures ocr.Some? && !Contains(ocr.value, kw) ==> RegionSlice(ocr, kw) == Some("")
    ensures ocr.Some? && Contains(ocr.value, kw) ==>
              var t := ocr.value;
              var r := RegionSlice(ocr, kw).value;
              OccursAt(t, kw, i) && (forall k :: 0 <= k < i ==> !OccursAt(t, kw, k))
              && |r| == (if |t| - i < 300 then |t| - i else 300)
              && r == t[i..i + |r|]
              && (|kw| <= 300 ==> r[..|kw|] == kw)
    ensures ocr.Some? && kw != [] ==> (RegionSlice(ocr, kw) == Some("") <==> !Contains(ocr.value, kw))
  {
    i := 0;
    if ocr.Some? && Contains(ocr.value, kw) {
      i := Find(ocr.value, kw).value;
    }
  }
}
