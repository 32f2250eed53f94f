// The image path of the scraper: which images on a page are read, which OCR
// texts count as a lunch menu, and how the kept texts are combined.

module ImageGate {
  import opened Wrappers
  import opened Text

  // ---------------------------------------------------------------------------
  // Size filter
  // ---------------------------------------------------------------------------

  const MinWidth: int := 400
  const MinHeight: int := 400

  /** `is_proper_image`: logos and other small images are skipped. */
  predicate IsProperImage(width: int, height: int) {
    width >= MinWidth && height >= MinHeight
  }

  /** Enlarging a kept image keeps it; 400 by 400 is kept, one pixel less on either side is not. */
  lemma ProperImageThreshold(width: int, height: int, width2: int, height2: int)
    ensures IsProperImage(width, height) && width <= width2 && height <= height2 ==> IsProperImage(width2, height2)
    ensures IsProperImage(400, 400) && !IsProperImage(399, 400) && !IsProperImage(400, 399)
  {
  }

  // ---------------------------------------------------------------------------
  // Whole-word keyword search
  // ---------------------------------------------------------------------------

  /** `\b` + `re.escape(kw)` + `\b` matches `text` at `i` under `re.IGNORECASE`. */
  predicate WordMatchAt(text: string, kw: string, i: nat) {
    i + |kw| <= |text|
    && (forall k :: 0 <= k < |kw| ==> Lower(text[i + k]) == Lower(kw[k]))
    && IsBoundary(text, i) && IsBoundary(text, i + |kw|)
  }

  predicate KeywordOccurs(text: string, kw: string) {
    exists i :: 0 <= i <= |text| && WordMatchAt(text, kw, i)
  }

  /** The first match at or after `i`. */
  function SearchFrom(text: string, kw: string, i: nat): (r: Option<nat>)
    requires i <= |text|
    decreases |text| - i
    ensures r.Some? ==> i <= r.value <= |text| && WordMatchAt(text, kw, r.value)
    ensures r.Some? ==> forall k :: i <= k < r.value ==> !WordMatchAt(text, kw, k)
    ensures r.None? ==> forall k :: i <= k <= |text| ==> !WordMatchAt(text, kw, k)
  {
    if WordMatchAt(text, kw, i) then Some(i)
    else if i == |text| then None
    else SearchFrom(text, kw, i + 1)
  }

  /** `re.search(r'\b' + re.escape(kw) + r'\b', text, re.IGNORECASE)`, as the match position. */
  function Search(text: string, kw: string): (r: Option<nat>)
    ensures r.Some? <==> KeywordOccurs(text, kw)
  {
    SearchFrom(text, kw, 0)
  }

  predicate AnyKeyword(text: string, keywords: seq<string>) {
    exists j :: 0 <= j < |keywords| && KeywordOccurs(text, keywords[j])
  }

  /** `contains_keyword`: the keywords are tried in order and the first match ends the search. */
  method ContainsKeyword(text: string, keywords: seq<string>) returns (found: bool)
    ensures found <==> AnyKeyword(text, keywords)
    ensures keywords == [] ==> !found
  {
    for j := 0 to |keywords|
      invariant forall k :: 0 <= k < j ==> !KeywordOccurs(text, keywords[k])
    {
      if Search(text, keywords[j]).Some? {
        return true;
      }
    }
    return false;
  }

  /** Lower-casing the text or the keyword changes no match. */
  lemma MatchIgnoresCase(text: string, kw: string, i: nat)
    ensures WordMatchAt(LowerStr(text), kw, i) <==> WordMatchAt(text, kw, i)
    ensures WordMatchAt(text, LowerStr(kw), i) <==> WordMatchAt(text, kw, i)
  {
    var lt := LowerStr(text);
    forall p | 0 <= p < |text|
      ensures WordAt(lt, p) == WordAt(text, p)
      ensures Lower(lt[p]) == Lower(text[p])
    {
      LowerKeepsWordChar(text[p]);
      LowerIdempotent(text[p]);
    }
    assert forall p :: IsBoundary(lt, p) == IsBoundary(text, p);
    forall k | 0 <= k < |kw|
      ensures Lower(LowerStr(kw)[k]) == Lower(kw[k])
    {
      LowerIdempotent(kw[k]);
    }
  }

  /** Whether a keyword occurs does not depend on the case of the text. */
  lemma OccursIgnoresCase(text: string, kw: string)
    ensures KeywordOccurs(LowerStr(text), kw) <==> KeywordOccurs(text, kw)
  {
    if KeywordOccurs(text, kw) {
      var i :| 0 <= i <= |text| && WordMatchAt(text, kw, i);
      MatchIgnoresCase(text, kw, i);
    }
    if KeywordOccurs(LowerStr(text), kw) {
      var i :| 0 <= i <= |text| && WordMatchAt(LowerStr(text), kw, i);
      MatchIgnoresCase(text, kw, i);
    }
  }

  predicate AllWordChars(s: string) {
    forall k :: 0 <= k < |s| ==> IsWordChar(s[k])
  }

  /**
    A keyword made of word characters matches exactly where a whole word of the
    text spells it, ignoring case: the matched characters are word characters and
    the characters on either side are not.
   */
  lemma WholeWordMatch(text: string, kw: string, i: nat)
    requires kw != [] && AllWordChars(kw)
    ensures WordMatchAt(text, kw, i) <==>
      i + |kw| <= |text|
      && (forall k :: 0 <= k < |kw| ==> Lower(text[i + k]) == Lower(kw[k]))
      && (i == 0 || !IsWordChar(text[i - 1]))
      && (i + |kw| == |text| || !IsWordChar(text[i + |kw|]))
  {
    if i + |kw| <= |text| && (forall k :: 0 <= k < |kw| ==> Lower(text[i + k]) == Lower(kw[k])) {
      LowerKeepsWordChar(text[i]);
      LowerKeepsWordChar(kw[0]);
      LowerKeepsWordChar(text[i + |kw| - 1]);
      LowerKeepsWordChar(kw[|kw| - 1]);
      assert WordAt(text, i) && WordAt(text, i + |kw| - 1);
    }
  }

  // ---------------------------------------------------------------------------
  // The menu test on OCR text
  // ---------------------------------------------------------------------------

  /** The words that mark an image's text as a menu. */
  const MenuKeywords: seq<string> := [
    "lunchmeny", "veckans", "meny", "m\U{E5}ndag", "tisdag", "onsdag",
    "torsdag", "fredag", "l\U{F6}rdag", "s\U{F6}ndag", "serveras", "pris"]

  /** The OCR text when it mentions a menu keyword; None when OCR failed or found none. */
  function MenuText(ocr: Option<string>): Option<string> {
    if ocr.Some? && AnyKeyword(ocr.value, MenuKeywords) then ocr else None
  }

  /**
    `process_image_for_menu_text`, given what OCR read from the preprocessed image
    (None when OCR raised): the text itself, verbatim, or None.
   */
  method ProcessImageForMenuText(ocr: Option<string>) returns (text: Option<string>)
    ensures text.Some? <==> ocr.Some? && AnyKeyword(ocr.value, MenuKeywords)
    ensures text.Some? ==> text == ocr
    ensures text == MenuText(ocr)
  {
    if ocr.None? {
      return None;
    }
    var found := ContainsKeyword(ocr.value, MenuKeywords);
    if found {
      text := ocr;
    } else {
      text := None;
    }
  }

  /** A kept text is never empty: it holds a whole keyword. */
  lemma MenuTextNotEmpty(ocr: Option<string>)
    requires MenuText(ocr).Some?
    ensures MenuText(ocr).value != []
  {
    var t := ocr.value;
    var j :| 0 <= j < |MenuKeywords| && KeywordOccurs(t, MenuKeywords[j]);
    var i :| 0 <= i <= |t| && WordMatchAt(t, MenuKeywords[j], i);
    assert |MenuKeywords[j]| > 0;
  }

  // ---------------------------------------------------------------------------
  // Scraping the images of a page
  // ---------------------------------------------------------------------------

  /** The bytes of a download. */
  type Bytes = seq<bv8>

  /** A decoded image: its size and what OCR reads from it (None when OCR raised). */
  datatype Image = Image(width: int, height: int, ocr: Option<string>)

  /**
    An `<img>` tag as the scraper meets it: its `src`, the downloaded content (None
    when the download failed) and what `Image.open` makes of that content (None
    when opening raised).
   */
  datatype ImgTag = ImgTag(src: Option<string>, content: Option<Bytes>, decoded: Option<Image>)

  /** The text a tag contributes, or None when it is skipped. */
  function TagText(tag: ImgTag): Option<string> {
    if !IsTruthy(tag.src) then None
    else if tag.content.None? || tag.content.value == [] then None
    else if tag.decoded.None? then None
    else if !IsProperImage(tag.decoded.value.width, tag.decoded.value.height) then None
    else MenuText(tag.decoded.value.ocr)
  }

  /** `extracted_texts` after the tags: the texts of the tags kept, in page order. */
  function KeptTexts(tags: seq<ImgTag>): seq<string> {
    if tags == [] then []
    else
      var last := tags[|tags| - 1];
      KeptTexts(tags[..|tags| - 1]) + (if IsTruthy(TagText(last)) then [TagText(last).value] else [])
  }

  /** What `scrape_image` returns for a page whose tags were read (None when fetching failed). */
  function ScrapeImageResult(page: Option<seq<ImgTag>>): Option<string> {
    if page.None? || page.value == [] then None
    else
      var kept := KeptTexts(page.value);
      if kept == [] then None else Some(JoinWith(kept, "\n\n"))
  }

  /** `scrape_image`, given the fetched page's `<img>` tags. */
  method ScrapeImage(page: Option<seq<ImgTag>>) returns (r: Option<string>)
    ensures r == ScrapeImageResult(page)
  {
    if page.None? {
      return None;
    }
    var tags := page.value;
    if tags == [] {
      return None;
    }
    var extracted: seq<string> := [];
    for i := 0 to |tags|
      invariant extracted == KeptTexts(tags[..i])
    {
      assert tags[..i + 1][..i] == tags[..i];
      var tag := tags[i];
      if !IsTruthy(tag.src) {
        continue;
      }
      var content := tag.content;
      if content.None? || content.value == [] {
        continue;
      }
      if tag.decoded.None? {
        continue;
      }
      var image := tag.decoded.value;
      if !IsProperImage(image.width, image.height) {
        continue;
      }
      var text := ProcessImageForMenuText(image.ocr);
      if IsTruthy(text) {
        extracted := extracted + [text.value];
      }
    }
    assert tags[..|tags|] == tags;
    if extracted != [] {
      r := Some(JoinWith(extracted, "\n\n"));
    } else {
      r := None;
    }
  }

  predicate Kept(tags: seq<ImgTag>, j: int)
    requires 0 <= j < |tags|
  {
    IsTruthy(TagText(tags[j]))
  }

  /**
    The kept texts are the texts of exactly the tags kept, in page order: `idx`
    lists those tags' positions, increasing, and every kept tag is listed.
   */
  lemma {:induction false} KeptTextsInOrder(tags: seq<ImgTag>) returns (idx: seq<nat>)
    ensures |idx| == |KeptTexts(tags)|
    ensures forall k :: 0 <= k < |idx| ==>
      (idx[k] < |tags| && Kept(tags, idx[k]) && KeptTexts(tags)[k] == TagText(tags[idx[k]]).value)
    ensures forall k, l :: 0 <= k < l < |idx| ==> idx[k] < idx[l]
    ensures forall j :: 0 <= j < |tags| && Kept(tags, j) ==> j in idx
  {
    if tags == [] {
      return [];
    }
    var n := |tags| - 1;
    var init := tags[..n];
    idx := KeptTextsInOrder(init);
    assert forall j :: 0 <= j < n ==> init[j] == tags[j] && (Kept(init, j) <==> Kept(tags, j));
    if Kept(tags, n) {
      assert KeptTexts(tags) == KeptTexts(init) + [TagText(tags[n]).value];
      idx := idx + [n];
    } else {
      assert KeptTexts(tags) == KeptTexts(init);
    }
  }

  /** The scrape yields nothing exactly when the page could not be read or no tag is kept. */
  lemma ScrapeImageNone(page: Option<seq<ImgTag>>)
    ensures ScrapeImageResult(page).None? <==>
      page.None? || forall j :: 0 <= j < |page.value| ==> !Kept(page.value, j)
  {
    if page.Some? {
      var idx := KeptTextsInOrder(page.value);
      if |idx| > 0 {
        assert Kept(page.value, idx[0]);
      }
    }
  }

  /** Every kept text mentions a menu keyword and is the OCR text of a kept image `j` of proper size. */
  lemma KeptTextsAreMenus(tags: seq<ImgTag>, k: nat) returns (j: nat)
    requires k < |KeptTexts(tags)|
    ensures AnyKeyword(KeptTexts(tags)[k], MenuKeywords)
    ensures j < |tags| && tags[j].decoded.Some?
    ensures IsProperImage(tags[j].decoded.value.width, tags[j].decoded.value.height)
    ensures tags[j].decoded.value.ocr == Some(KeptTexts(tags)[k])
  {
    var idx := KeptTextsInOrder(tags);
    j := idx[k];
    assert Kept(tags, j);
  }
}
