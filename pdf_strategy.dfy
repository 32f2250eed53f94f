/**
  The strategy rules of the PDF scraper. A fetched document is given as what the
  network, PyPDF2, pdf2image, Tesseract and OpenCV report for it; the rules that
  choose a strategy, gate on week numbers and keywords, accumulate page text and
  assemble the result are modelled over those reports.
 */
module PdfStrategy {
  import opened Wrappers
  import opened Text
  import opened WeekNumbers
  import opened PdfText
  import opened Regions

  // ---------------------------------------------------------------------------
  // Inputs
  // ---------------------------------------------------------------------------

  /** What the image tools report for one rendered page. */
  datatype Page = Page(
    ocr: Option<string>,                // extract_text_from_image(image); None when it failed
    ocrPreprocessed: Option<string>,    // the same after preprocess_image_for_ocr
    contours: seq<Contour>,             // find_contours on the thresholded page
    roiOcr: map<Box, Option<string>>)   // extract_text_from_image of the crop of each box

  /** What a successful fetch of a PDF URL yields. */
  datatype Fetched = Fetched(
    isPdf: bool,                        // 'application/pdf' in the Content-Type header
    directText: Option<string>,         // extract_text_with_pypdf2; None when it failed
    pages: Option<seq<Page>>)           // pdf_to_images; None when it failed

  /** The OCR text of the crop of `b`; a crop the map does not list failed. */
  function RoiText(p: Page, b: Box): Option<string> {
    if b in p.roiOcr then p.roiOcr[b] else None
  }

  // ---------------------------------------------------------------------------
  // Accumulating text: `for t in texts: if t: acc += t + sep`
  // ---------------------------------------------------------------------------

  /** The truthy texts, each followed by `sep`, concatenated. */
  function Accumulate(texts: seq<Option<string>>, sep: string): string {
    if texts == [] then ""
    else
      var last := texts[|texts| - 1];
      Accumulate(texts[..|texts| - 1], sep) + (if IsTruthy(last) then last.value + sep else "")
  }

  /**
    The accumulation loop shared by `extract_text_from_rois` (separator "\n") and by
    the page loops of the strategies (separator "\n\n").
   */
  method AccumulateTexts(texts: seq<Option<string>>, sep: string) returns (acc: string)
    ensures acc == Accumulate(texts, sep)
  {
    acc := "";
    for i := 0 to |texts|
      invariant acc == Accumulate(texts[..i], sep)
    {
      assert texts[..i + 1][..i] == texts[..i];
      var t := texts[i];
      if IsTruthy(t) {
        acc := acc + t.value + sep;
      }
    }
    assert texts[..|texts|] == texts;
  }

  /** The texts that contribute, in order. */
  function Truthy(texts: seq<Option<string>>): seq<string> {
    if texts == [] then []
    else
      var last := texts[|texts| - 1];
      Truthy(texts[..|texts| - 1]) + (if IsTruthy(last) then [last.value] else [])
  }

  /**
    The accumulated text is the contributing texts joined by `sep`, plus one
    trailing `sep` when any text contributed.
   */
  lemma {:induction false} AccumulateIsJoin(texts: seq<Option<string>>, sep: string)
    ensures Accumulate(texts, sep) ==
            if Truthy(texts) == [] then "" else JoinWith(Truthy(texts), sep) + sep
  {
    if texts != [] {
      var init := texts[..|texts| - 1];
      AccumulateIsJoin(init, sep);
      var last := texts[|texts| - 1];
      if IsTruthy(last) {
        var t := Truthy(init);
        assert Truthy(texts) == t + [last.value];
        JoinWithAppend(t, last.value, sep);
        assert |Truthy(texts)| > 0;
        if t == [] {
          assert Accumulate(texts, sep) == last.value + sep;
          assert JoinWith(Truthy(texts), sep) == last.value;
        } else {
          assert Accumulate(texts, sep) == (JoinWith(t, sep) + sep + last.value) + sep;
          assert JoinWith(Truthy(texts), sep) == JoinWith(t, sep) + sep + last.value;
        }
      } else {
        assert Truthy(texts) == Truthy(init) + [] == Truthy(init);
        assert Accumulate(texts, sep) == Accumulate(init, sep) + "" == Accumulate(init, sep);
      }
    }
  }

  /** Some contributing text has a non-space character. */
  predicate SomeNonBlank(texts: seq<Option<string>>) {
    exists i :: 0 <= i < |texts| && IsTruthy(texts[i]) && !AllSpace(texts[i].value)
  }

  lemma SomeNonBlankSnoc(texts: seq<Option<string>>)
    requires texts != []
    ensures var last := texts[|texts| - 1];
      SomeNonBlank(texts) <==>
      SomeNonBlank(texts[..|texts| - 1]) || (IsTruthy(last) && !AllSpace(last.value))
  {
    var n := |texts| - 1;
    var init := texts[..n];
    if SomeNonBlank(texts) {
      var i :| 0 <= i < |texts| && IsTruthy(texts[i]) && !AllSpace(texts[i].value);
      if i < n {
        assert init[i] == texts[i];
      }
    }
    if SomeNonBlank(init) {
      var i :| 0 <= i < n && IsTruthy(init[i]) && !AllSpace(init[i].value);
      assert texts[i] == init[i];
    }
  }

  /**
    With a whitespace separator, the accumulated text is blank exactly when every
    contributing text is blank.
   */
  lemma {:induction false} AccumulateBlank(texts: seq<Option<string>>, sep: string)
    requires AllSpace(sep)
    ensures AllSpace(Accumulate(texts, sep)) <==> !SomeNonBlank(texts)
  {
    if texts != [] {
      var n := |texts| - 1;
      var init := texts[..n];
      AccumulateBlank(init, sep);
      SomeNonBlankSnoc(texts);
      var last := texts[n];
      var tail := if IsTruthy(last) then last.value + sep else "";
      assert Accumulate(texts, sep) == Accumulate(init, sep) + tail;
      AllSpaceConcat(Accumulate(init, sep), tail);
      if IsTruthy(last) {
        AllSpaceConcat(last.value, sep);
      }
    }
  }

  // ---------------------------------------------------------------------------
  // The texts a document offers
  // ---------------------------------------------------------------------------

  /** The OCR text of every page, in page order. */
  function OcrTexts(pages: seq<Page>): (ts: seq<Option<string>>)
    ensures |ts| == |pages| && forall i :: 0 <= i < |pages| ==> ts[i] == pages[i].ocr
  {
    seq(|pages|, i requires 0 <= i < |pages| => pages[i].ocr)
  }

  /** The OCR text of every preprocessed page, in page order. */
  function PreprocessedTexts(pages: seq<Page>): (ts: seq<Option<string>>)
    ensures |ts| == |pages| && forall i :: 0 <= i < |pages| ==> ts[i] == pages[i].ocrPreprocessed
  {
    seq(|pages|, i requires 0 <= i < |pages| => pages[i].ocrPreprocessed)
  }

  /** The OCR text of the crop of each box, in box order. */
  function RoiTexts(p: Page, boxes: seq<Box>): (ts: seq<Option<string>>)
    ensures |ts| == |boxes| && forall i :: 0 <= i < |boxes| ==> ts[i] == RoiText(p, boxes[i])
  {
    seq(|boxes|, i requires 0 <= i < |boxes| => RoiText(p, boxes[i]))
  }

  /**
    The text the second step of solution 1 takes from a page: the texts of the crops
    of its kept boxes in reading order, or the whole page's OCR when no box is kept.
   */
  function PageMenuText(p: Page): Option<string> {
    var boxes := SortByKey(KeptBoxes(p.contours));
    if boxes == [] then p.ocr else Some(Accumulate(RoiTexts(p, boxes), "\n"))
  }

  function MenuTexts(pages: seq<Page>): (ts: seq<Option<string>>)
    ensures |ts| == |pages| && forall i :: 0 <= i < |pages| ==> ts[i] == PageMenuText(pages[i])
  {
    seq(|pages|, i requires 0 <= i < |pages| => PageMenuText(pages[i]))
  }

  /** The rendered pages, when there are any (`if not images` fails for None and for []). */
  predicate HasPages(f: Fetched) {
    f.pages.Some? && f.pages.value != []
  }

  /** PyPDF2 found selectable text: present and more than 50 characters once stripped. */
  predicate LongDirectText(t: Option<string>) {
    IsTruthy(t) && |Strip(t.value)| > 50
  }

  /** The keyword test of solution 1, on the lower-cased OCR text. */
  predicate MentionsMenu(lowered: string) {
    Contains(lowered, "lunch") || Contains(lowered, "dagens") || Contains(lowered, "lunch menu")
  }

  const FiskKeyword: string := "Veckans Fisk"
  const VegetarianKeyword: string := "Veckans Vegetariska"

  // ---------------------------------------------------------------------------
  // What each strategy returns (None where the source returns None)
  // ---------------------------------------------------------------------------

  /** `process_pdf_with_solution1`: week number and keyword gate, then contour-guided OCR. */
  function Solution1Result(doc: Option<Fetched>): Option<string> {
    if doc.None? || !doc.value.isPdf || !HasPages(doc.value) then None
    else
      var pages := doc.value.pages.value;
      if |pages| > 2 then None
      else
        var weekText := WeekText(pages);
        if Strip(weekText) == "" then None
        else
          var week := ExtractWeekNumber(weekText);
          if !IsTruthy(week) && !MentionsMenu(LowerStr(weekText)) then None
          else
            var body := MenuBody(pages);
            if body == "" then None
            else if IsTruthy(week) then Some(week.value + "\n\n" + body)
            else Some(body)
  }

  /** The first step of solution 1: the pages' OCR text, searched for a week and keywords. */
  function WeekText(pages: seq<Page>): string {
    Accumulate(OcrTexts(pages), "\n\n")
  }

  /** The second step of solution 1: the pages' menu text, stripped. */
  function MenuBody(pages: seq<Page>): string {
    Strip(Accumulate(MenuTexts(pages), "\n\n"))
  }

  /** `process_pdf_with_solution2`: PyPDF2 text, organised, or else plain OCR. */
  function Solution2Result(doc: Option<Fetched>): Option<string> {
    if doc.None? || !doc.value.isPdf then None
    else if LongDirectText(doc.value.directText) then Some(Organized(doc.value.directText.value))
    else if !HasPages(doc.value) then None
    else
      var full := Strip(Accumulate(OcrTexts(doc.value.pages.value), "\n\n"));
      if full == "" then None else Some(full)
  }

  /**
    `process_pdf_with_solution3`: OCR of the preprocessed pages, then the regions after
    "Veckans Fisk" and "Veckans Vegetariska" on the first page. A first page without
    OCR text makes the keyword test raise, which the handler turns into None.
   */
  function Solution3Result(doc: Option<Fetched>): Option<string> {
    if doc.None? || !doc.value.isPdf || !HasPages(doc.value) then None
    else
      var pages := doc.value.pages.value;
      var full := Accumulate(PreprocessedTexts(pages), "\n\n");
      var fisk := RegionSlice(pages[0].ocr, FiskKeyword);
      var veg := RegionSlice(pages[0].ocr, VegetarianKeyword);
      if fisk.None? || veg.None? then None
      else
        var combined := Strip(full + "\n\n" + fisk.value + "\n\n" + veg.value);
        if combined == "" then None else Some(combined)
  }

  /** `process_pdf_auto`: the strategy the document's characteristics select. */
  function AutoResult(doc: Option<Fetched>): Option<string> {
    if doc.None? then None
    else if LongDirectText(doc.value.directText) then Solution2Result(doc)
    else if !HasPages(doc.value) then None
    else if IsSuitableForSolution1(doc.value.pages.value[0].contours) then Solution1Result(doc)
    else Solution3Result(doc)
  }

  /** The strategy `scrape_pdf` runs for its `solution` argument. */
  function Dispatch(solution: Option<string>, doc: Option<Fetched>): Option<string> {
    if solution == Some("1") then Solution1Result(doc)
    else if solution == Some("2") then Solution2Result(doc)
    else if solution == Some("3") then Solution3Result(doc)
    else AutoResult(doc)
  }

  /** What fetching `url` yields; a URL the map does not list could not be fetched. */
  function FetchOf(fetched: map<string, Fetched>, url: string): Option<Fetched> {
    if url in fetched then Some(fetched[url]) else None
  }

  /** What one link contributes: its strategy's result when it is a relevant PDF link. */
  function LinkText(url: string, fetched: map<string, Fetched>, solution: Option<string>): Option<string> {
    if IsRelevantPdf(url) then Dispatch(solution, FetchOf(fetched, url)) else None
  }

  function LinkTexts(links: seq<string>, fetched: map<string, Fetched>, solution: Option<string>)
    : (ts: seq<Option<string>>)
    ensures |ts| == |links|
    ensures forall i :: 0 <= i < |links| ==> ts[i] == LinkText(links[i], fetched, solution)
  {
    seq(|links|, i requires 0 <= i < |links| => LinkText(links[i], fetched, solution))
  }

  /** The first truthy result, in order. */
  function FirstTruthy(rs: seq<Option<string>>): Option<string> {
    if rs == [] then None
    else if IsTruthy(rs[0]) then rs[0]
    else FirstTruthy(rs[1..])
  }

  /** `scrape_pdf`: the first truthy result among the relevant links, in link order. */
  function ScrapeResult(links: seq<string>, fetched: map<string, Fetched>, solution: Option<string>): Option<string> {
    if links == [] then None
    else
      var t := LinkText(links[0], fetched, solution);
      if IsTruthy(t) then t else ScrapeResult(links[1..], fetched, solution)
  }

  // ---------------------------------------------------------------------------
  // Properties of the strategies
  // ---------------------------------------------------------------------------

  /** The page texts accumulated with blank lines strip to nothing exactly when none is non-blank. */
  lemma AccumulateStripEmpty(texts: seq<Option<string>>)
    ensures Strip(Accumulate(texts, "\n\n")) == "" <==> !SomeNonBlank(texts)
  {
    assert AllSpace("\n\n") by {
      assert IsSpace('\n');
    }
    AccumulateBlank(texts, "\n\n");
    StripEmptyIffAllSpace(Accumulate(texts, "\n\n"));
  }

  /** The keywords solution 1 needs when there is no week number. */
  predicate MentionsLunch(lowered: string) {
    Contains(lowered, "lunch") || Contains(lowered, "dagens")
  }

  /** The "lunch menu" test adds nothing: any text containing it contains "lunch". */
  lemma LunchMenuIsRedundant(lowered: string)
    ensures MentionsMenu(lowered) <==> MentionsLunch(lowered)
  {
    if Contains(lowered, "lunch menu") {
      assert "lunch menu"[..5] == "lunch";
      ContainsPrefix(lowered, "lunch menu", "lunch");
    }
  }

  /** What solution 1 asks of the pages of a PDF. */
  predicate Solution1Accepts(pages: seq<Page>) {
    |pages| <= 2
    && SomeNonBlank(OcrTexts(pages))
    && (IsTruthy(ExtractWeekNumber(WeekText(pages))) || MentionsLunch(LowerStr(WeekText(pages))))
    && SomeNonBlank(MenuTexts(pages))
  }

  /**
    Solution 1 yields text exactly for a PDF of one or two pages, one of whose OCR
    texts is not blank, whose OCR mentions a week or lunch, and one of whose pages
    yields non-blank menu text.
   */
  lemma Solution1Some(doc: Option<Fetched>)
    ensures Solution1Result(doc).Some? <==>
            doc.Some? && doc.value.isPdf && HasPages(doc.value) && Solution1Accepts(doc.value.pages.value)
  {
    if doc.Some? && doc.value.isPdf && HasPages(doc.value) {
      var pages := doc.value.pages.value;
      AccumulateStripEmpty(OcrTexts(pages));
      AccumulateStripEmpty(MenuTexts(pages));
      LunchMenuIsRedundant(LowerStr(WeekText(pages)));
    }
  }

  /**
    The text of solution 1 is never empty and has no surrounding whitespace. It is the
    normalised week label, a blank line and the pages' menu text when a week was found,
    and the menu text alone otherwise.
   */
  lemma Solution1Shape(doc: Option<Fetched>)
    requires Solution1Result(doc).Some?
    ensures var r := Solution1Result(doc).value;
            var pages := doc.value.pages.value;
            var week := ExtractWeekNumber(WeekText(pages));
            r != "" && IsStripped(r)
            && MenuBody(pages) != "" && r[|r| - |MenuBody(pages)|..] == MenuBody(pages)
            && (IsTruthy(week) ==> |week.value| < |r| && r[..|week.value|] == week.value)
            && (IsTruthy(week) ==> r == week.value + "\n\n" + MenuBody(pages))
            && (!IsTruthy(week) ==> r == MenuBody(pages))
  {
    var pages := doc.value.pages.value;
    var body := MenuBody(pages);
    StripSpec(Accumulate(MenuTexts(pages), "\n\n"));
    var week := ExtractWeekNumber(WeekText(pages));
    if IsTruthy(week) {
      WeekLabelStartsNonSpace(WeekText(pages));
      JoinedShape(week.value, body);
    }
  }

  /** A found week label starts with its non-space head letter. */
  lemma WeekLabelStartsNonSpace(text: string)
    requires ExtractWeekNumber(text).Some?
    ensures ExtractWeekNumber(text).value != "" && !IsSpace(ExtractWeekNumber(text).value[0])
  {
    var p, dot, space, d := ExtractWeekNumberIsLabel(text);
    LabelStartsWithLetter(p, dot, space, d);
  }

  /** `w + "\n\n" + body` for a label and a stripped body is stripped, and keeps both parts. */
  lemma JoinedShape(w: string, body: string)
    requires w != [] && !IsSpace(w[0]) && body != [] && IsStripped(body)
    ensures var r := w + "\n\n" + body;
            IsStripped(r) && |w| < |r| && r[..|w|] == w && r[|r| - |body|..] == body
  {
    var r := w + "\n\n" + body;
    assert r[0] == w[0];
    assert r[|r| - 1] == body[|body| - 1];
    assert r[..|w|] == w;
    assert r[|r| - |body|..] == body;
  }

  /**
    When PyPDF2 finds more than 50 characters of text, solution 2 returns that text
    organised into sections, and organising it once more changes nothing.
   */
  lemma Solution2PrefersDirectText(doc: Option<Fetched>)
    requires doc.Some? && doc.value.isPdf && LongDirectText(doc.value.directText)
    ensures var t := doc.value.directText.value;
            Solution2Result(doc) == Some(Organized(t)) && Organized(Organized(t)) == Organized(t)
  {
    OrganizedIdempotent(doc.value.directText.value);
  }

  /**
    Without usable PyPDF2 text, solution 2 yields the stripped OCR text of the pages,
    the same text solution 1 searches for a week number, and yields it exactly when
    some page's OCR is not blank.
   */
  lemma Solution2OcrFallback(doc: Option<Fetched>)
    requires doc.Some? && doc.value.isPdf && !LongDirectText(doc.value.directText)
    ensures Solution2Result(doc).Some? <==> HasPages(doc.value) && SomeNonBlank(OcrTexts(doc.value.pages.value))
    ensures Solution2Result(doc).Some? ==>
            var r := Solution2Result(doc).value;
            r == Strip(WeekText(doc.value.pages.value)) && r != "" && IsStripped(r)
  {
    if HasPages(doc.value) {
      var pages := doc.value.pages.value;
      AccumulateStripEmpty(OcrTexts(pages));
      StripSpec(WeekText(pages));
    }
  }

  /**
    Solution 3 fails without OCR text for the first page, and otherwise its text is
    never empty and has no surrounding whitespace.
   */
  lemma Solution3Shape(doc: Option<Fetched>)
    ensures doc.Some? && HasPages(doc.value) && doc.value.pages.value[0].ocr.None? ==>
            Solution3Result(doc).None?
    ensures Solution3Result(doc).Some? ==>
            Solution3Result(doc).value != "" && IsStripped(Solution3Result(doc).value)
  {
    if Solution3Result(doc).Some? {
      var pages := doc.value.pages.value;
      var full := Accumulate(PreprocessedTexts(pages), "\n\n");
      var fisk := RegionSlice(pages[0].ocr, FiskKeyword);
      var veg := RegionSlice(pages[0].ocr, VegetarianKeyword);
      StripSpec(full + "\n\n" + fisk.value + "\n\n" + veg.value);
    }
  }

  /**
    When the first page's OCR text contains "Veckans Fisk" or "Veckans Vegetariska",
    solution 3 yields text, and that text contains the keyword.
   */
  lemma Solution3KeepsKeyword(doc: Option<Fetched>, kw: string)
    requires kw == FiskKeyword || kw == VegetarianKeyword
    requires doc.Some? && doc.value.isPdf && HasPages(doc.value)
    requires var ocr := doc.value.pages.value[0].ocr; ocr.Some? && Contains(ocr.value, kw)
    ensures Solution3Result(doc).Some? && Contains(Solution3Result(doc).value, kw)
  {
    var pages := doc.value.pages.value;
    var full := Accumulate(PreprocessedTexts(pages), "\n\n");
    var fisk := RegionSlice(pages[0].ocr, FiskKeyword);
    var veg := RegionSlice(pages[0].ocr, VegetarianKeyword);
    var _ := RegionSliceSpec(pages[0].ocr, FiskKeyword);
    var _ := RegionSliceSpec(pages[0].ocr, VegetarianKeyword);
    var slice := RegionSlice(pages[0].ocr, kw).value;
    SliceContainsKeyword(pages[0].ocr.value, kw, slice);
    KeywordEnds(kw);
    var combined := full + "\n\n" + fisk.value + "\n\n" + veg.value;
    KeptInCombination(full, fisk.value, veg.value, kw);
  }

  /** The keywords start and end with a letter. */
  lemma KeywordEnds(kw: string)
    requires kw == FiskKeyword || kw == VegetarianKeyword
    ensures kw != [] && !IsSpace(kw[0]) && !IsSpace(kw[|kw| - 1])
  {
  }

  /** The region slice of a text containing a keyword of at most 300 characters contains it. */
  lemma SliceContainsKeyword(t: string, kw: string, slice: string)
    requires Contains(t, kw) && |kw| <= 300 && RegionSlice(Some(t), kw) == Some(slice)
    ensures Contains(slice, kw)
  {
    var i := RegionSliceSpec(Some(t), kw);
    assert OccursAt(slice, kw, 0);
    ContainsAt(slice, kw, 0);
  }

  /** A keyword in either region survives the joining and stripping of solution 3. */
  lemma KeptInCombination(full: string, fisk: string, veg: string, kw: string)
    requires Contains(fisk, kw) || Contains(veg, kw)
    requires kw != [] && !IsSpace(kw[0]) && !IsSpace(kw[|kw| - 1])
    ensures Contains(Strip(full + "\n\n" + fisk + "\n\n" + veg), kw)
  {
    var combined := full + "\n\n" + fisk + "\n\n" + veg;
    if Contains(fisk, kw) {
      assert combined == (full + "\n\n") + fisk + ("\n\n" + veg);
      ContainsInside(full + "\n\n", fisk, "\n\n" + veg, kw);
    } else {
      assert combined == (full + "\n\n" + fisk + "\n\n") + veg + "";
      ContainsInside(full + "\n\n" + fisk + "\n\n", veg, "", kw);
    }
    StripKeepsInner(combined, kw);
  }

  /**
    The automatic choice: selectable text of more than 50 characters selects
    solution 2; otherwise a first page with more than ten contours selects solution 1
    and one with at most ten selects solution 3.
   */
  lemma AutoSelection(doc: Option<Fetched>)
    ensures doc.Some? && LongDirectText(doc.value.directText) ==>
            AutoResult(doc) == Solution2Result(doc)
    ensures doc.Some? && !LongDirectText(doc.value.directText) && HasPages(doc.value)
            && |doc.value.pages.value[0].contours| > 10 ==>
            AutoResult(doc) == Solution1Result(doc)
    ensures doc.Some? && !LongDirectText(doc.value.directText) && HasPages(doc.value)
            && |doc.value.pages.value[0].contours| <= 10 ==>
            AutoResult(doc) == Solution3Result(doc)
    ensures doc.None? || (!HasPages(doc.value) && !LongDirectText(doc.value.directText)) ==>
            AutoResult(doc).None?
  {
  }

  /** Whatever strategy is asked for, only a response served as a PDF yields text. */
  lemma DispatchNeedsPdf(solution: Option<string>, doc: Option<Fetched>)
    ensures Dispatch(solution, doc).Some? ==> doc.Some? && doc.value.isPdf
  {
  }

  /** Link `i` is relevant and its strategy yields non-empty text. */
  predicate Yields(links: seq<string>, fetched: map<string, Fetched>, solution: Option<string>, i: nat)
    requires i < |links|
  {
    IsTruthy(LinkText(links[i], fetched, solution))
  }

  /** `scrape_pdf` returns the first truthy result of its links. */
  lemma {:induction false} ScrapeIsFirstTruthy(links: seq<string>, fetched: map<string, Fetched>,
                                                solution: Option<string>)
    ensures ScrapeResult(links, fetched, solution) == FirstTruthy(LinkTexts(links, fetched, solution))
  {
    if links != [] {
      ScrapeIsFirstTruthy(links[1..], fetched, solution);
      assert LinkTexts(links, fetched, solution)[1..] == LinkTexts(links[1..], fetched, solution);
    }
  }

  /** The first truthy result is the one at the first truthy position; None when there is none. */
  lemma {:induction false} FirstTruthyIndex(rs: seq<Option<string>>) returns (i: nat)
    ensures FirstTruthy(rs).Some? ==>
            i < |rs| && IsTruthy(rs[i]) && FirstTruthy(rs) == rs[i]
            && forall j :: 0 <= j < i ==> !IsTruthy(rs[j])
    ensures FirstTruthy(rs).None? <==> forall j :: 0 <= j < |rs| ==> !IsTruthy(rs[j])
  {
    i := 0;
    if rs != [] && !IsTruthy(rs[0]) {
      var k := FirstTruthyIndex(rs[1..]);
      i := k + 1;
      assert forall j :: 1 <= j < |rs| ==> rs[j] == rs[1..][j - 1];
    }
  }

  /**
    `scrape_pdf` returns the text of the first link that yields some, and None exactly
    when no link yields any.
   */
  lemma ScrapeFirstYield(links: seq<string>, fetched: map<string, Fetched>,
                                             solution: Option<string>) returns (i: nat)
    ensures ScrapeResult(links, fetched, solution).Some? ==>
            i < |links| && Yields(links, fetched, solution, i)
            && ScrapeResult(links, fetched, solution) == LinkText(links[i], fetched, solution)
            && forall j :: 0 <= j < i ==> !Yields(links, fetched, solution, j)
    ensures ScrapeResult(links, fetched, solution).None? <==>
            forall j :: 0 <= j < |links| ==> !Yields(links, fetched, solution, j)
  {
    var rs := LinkTexts(links, fetched, solution);
    ScrapeIsFirstTruthy(links, fetched, solution);
    i := FirstTruthyIndex(rs);
  }

  /** A page none of whose contours is large enough is read whole. */
  lemma PageWithoutBoxes(p: Page)
    requires forall j :: 0 <= j < |p.contours| ==> p.contours[j].area <= MinArea
    ensures PageMenuText(p) == p.ocr
  {
    NothingKept(p.contours);
  }

  /**
    A page with a contour large enough is read through its crops: the texts of the
    crops that read, in reading order, each followed by a newline.
   */
  lemma PageWithBoxes(p: Page, j: nat)
    requires j < |p.contours| && p.contours[j].area > MinArea
    ensures var boxes := SortByKey(KeptBoxes(p.contours));
            var ts := Truthy(RoiTexts(p, boxes));
            SortedByKey(boxes) && multiset(boxes) == multiset(KeptBoxes(p.contours))
            && PageMenuText(p) == Some(if ts == [] then "" else JoinWith(ts, "\n") + "\n")
  {
    var boxes := SortByKey(KeptBoxes(p.contours));
    KeptIndicesComplete(p.contours);
    KeptIndicesBoxes(p.contours);
    SortByKeySorted(KeptBoxes(p.contours));
    assert |KeptBoxes(p.contours)| > 0;
    assert |multiset(boxes)| > 0;
    AccumulateIsJoin(RoiTexts(p, boxes), "\n");
  }

  // ---------------------------------------------------------------------------
  // The strategies as the source runs them
  // ---------------------------------------------------------------------------

  /** The per-page step of solution 1: `filter_and_sort_contours`, then crops or the whole page. */
  method PageMenu(p: Page) returns (text: Option<string>)
    ensures text == PageMenuText(p)
  {
    var sorted := FilterAndSortContours(p.contours);
    if sorted == [] {
      text := p.ocr;
    } else {
      var t := AccumulateTexts(RoiTexts(p, sorted), "\n");
      text := Some(t);
    }
  }

  method Solution1(doc: Option<Fetched>) returns (r: Option<string>)
    ensures r == Solution1Result(doc)
  {
    if doc.None? || !doc.value.isPdf || !HasPages(doc.value) {
      return None;
    }
    var images := doc.value.pages.value;
    if |images| > 2 {
      return None;
    }
    var weekText := AccumulateTexts(OcrTexts(images), "\n\n");
    assert weekText == WeekText(images);
    if Strip(weekText) == "" {
      return None;
    }
    var week := ExtractWeekNumber(weekText);
    var proceed := MentionsMenu(LowerStr(weekText));
    if !(IsTruthy(week) || proceed) {
      return None;
    }
    var fullText := CollectMenuText(images);
    var body := Strip(fullText);
    assert body == MenuBody(images);
    if body == "" {
      return None;
    }
    if IsTruthy(week) {
      r := Some(week.value + "\n\n" + body);
    } else {
      r := Some(body);
    }
  }

  /** The page loop of solution 1: each page's menu text, followed by a blank line. */
  method CollectMenuText(images: seq<Page>) returns (fullText: string)
    ensures fullText == Accumulate(MenuTexts(images), "\n\n")
  {
    fullText := "";
    for i := 0 to |images|
      invariant fullText == Accumulate(MenuTexts(images)[..i], "\n\n")
    {
      assert MenuTexts(images)[..i + 1][..i] == MenuTexts(images)[..i];
      var pageText := PageMenu(images[i]);
      if IsTruthy(pageText) {
        fullText := fullText + pageText.value + "\n\n";
      }
    }
    assert MenuTexts(images)[..|images|] == MenuTexts(images);
  }

  method Solution2(doc: Option<Fetched>) returns (r: Option<string>)
    ensures r == Solution2Result(doc)
  {
    if doc.None? || !doc.value.isPdf {
      return None;
    }
    var pdfText := doc.value.directText;
    if LongDirectText(pdfText) {
      var cleaned := CleanAndOrganize(pdfText.value);
      return Some(cleaned);
    }
    if !HasPages(doc.value) {
      return None;
    }
    var fullText := AccumulateTexts(OcrTexts(doc.value.pages.value), "\n\n");
    if Strip(fullText) == "" {
      return None;
    }
    r := Some(Strip(fullText));
  }

  method Solution3(doc: Option<Fetched>) returns (r: Option<string>)
    ensures r == Solution3Result(doc)
  {
    if doc.None? || !doc.value.isPdf || !HasPages(doc.value) {
      return None;
    }
    var images := doc.value.pages.value;
    var fullText := AccumulateTexts(PreprocessedTexts(images), "\n\n");
    var fisk := RegionSlice(images[0].ocr, FiskKeyword);
    var veg := RegionSlice(images[0].ocr, VegetarianKeyword);
    if fisk.None? || veg.None? {
      return None;
    }
    var combined := fullText + "\n\n" + fisk.value + "\n\n" + veg.value;
    r := if Strip(combined) != "" then Some(Strip(combined)) else None;
  }

  method ProcessAuto(doc: Option<Fetched>) returns (r: Option<string>)
    ensures r == AutoResult(doc)
  {
    if doc.None? {
      return None;
    }
    if LongDirectText(doc.value.directText) {
      r := Solution2(doc);
      return;
    }
    if !HasPages(doc.value) {
      return None;
    }
    if IsSuitableForSolution1(doc.value.pages.value[0].contours) {
      r := Solution1(doc);
    } else {
      r := Solution3(doc);
    }
  }

  /** `scrape_pdf(main_url, solution)`, given the links `find_pdf_links` returned. */
  method ScrapePdf(links: seq<string>, fetched: map<string, Fetched>, solution: Option<string>)
    returns (r: Option<string>)
    ensures r == ScrapeResult(links, fetched, solution)
  {
    if links == [] {
      return None;
    }
    for i := 0 to |links|
      invariant ScrapeResult(links[i..], fetched, solution) == ScrapeResult(links, fetched, solution)
    {
      assert links[i..][1..] == links[i + 1..];
      var url := links[i];
      if !IsRelevantPdf(url) {
        continue;
      }
      var doc := FetchOf(fetched, url);
      var extracted: Option<string>;
      if solution == Some("1") {
        extracted := Solution1(doc);
      } else if solution == Some("2") {
        extracted := Solution2(doc);
      } else if solution == Some("3") {
        extracted := Solution3(doc);
      } else {
        extracted := ProcessAuto(doc);
      }
      if IsTruthy(extracted) {
        return extracted;
      }
    }
    return None;
  }
}
