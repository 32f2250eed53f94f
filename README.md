# LK-Dev-Scrpe lunch-menu scraper: a Dafny model of its text logic

LK-Dev-Scrpe collects restaurants' weekly lunch menus. It fetches a PDF, an image or
an HTML page. It turns what it finds into text and sends that text to a language
model. It then gives each returned dish the dates it is served.

This project models the deterministic part of that pipeline and proves what it
does. Every input that comes from OCR, a PDF library, the network or the language
model is a parameter.

- `WeekNumbers` (`week_numbers.dfy`) models `extract_week_number`,
  `extract_week_number_from_url` and `is_relevant_pdf`. Each regular expression is
  a hand-written matcher over `seq<char>`, and `re.search` finds the leftmost match.
- `PdfText` (`pdf_text.dfy`) models four operations:
  - `extract_day_sentences`, the three-line windows around day names;
  - `clean_and_organize_text`, an order-preserving de-duplication followed by
    sectioning;
  - `extract_special_sections`;
  - the 300-character slice of `extract_text_from_region`.
- `Regions` (`regions.dfy`) models `filter_and_sort_contours` and
  `is_suitable_for_solution1`. A contour is its bounding box and its area.
- `PdfStrategy` (`pdf_strategy.dfy`) models the three PDF strategies, the
  automatic choice between them and `scrape_pdf`'s loop over links. A fetched
  document is a record: whether it is a PDF, its direct text, and its pages. Each
  page holds its OCR texts and its contours.
- `MenuDates` (`menu_dates.dfy`) models `add_dates_to_menu`, which appears in both
  copies of `data_processing.py`:
  - a menu item is a `class` whose JSON fields the methods update in place;
  - dates are day ordinals;
  - the week's Monday follows `strptime`'s `%W` convention;
  - the current year is a parameter.
- `MenuPrompt` (`menu_prompt.dfy`) models how `process_menu_text` builds its
  prompt, including `str.format` with the one field `menu_text`. It also models how
  the reply's code fence is removed before JSON parsing.
- `ImageGate` (`image_gate.dfy`) models `is_proper_image`, `contains_keyword`, the
  keyword gate of `process_image_for_menu_text` and the keep/skip/join loop of
  `scrape_image`.
- `TextScraper` (`text_scraper.dfy`) models what `scrape_text` does to a page's
  text: it collapses whitespace and puts `"\n for the day : "` before each day name.
- `Text` (`text.dfy`) models the Python string primitives these modules use:
  - `strip`, `lower`, `capitalize`, `split`, `splitlines`, `join`, `find` and `in`;
  - `str.isspace` and the `\w`, `\d` and `\b` classes of `re`.

  `Wrappers` (`wrappers.dfy`) holds `Option`.

Where the code and the documented intent disagree, the model follows the code:

- The URL week reader turns `lunch-vecka46.pdf` into `"Vecka46"`, with no space
  (`UrlExampleWeek`). The intended result was "Vecka 46".
- The comment at `lkdevbackend2/scrapers/pdf_scraper.py:131` says `_v_46` matches.
  It does not, because `[\s\-\.]` excludes `_` (`UrlUnderscoreWeekMisses`).
- The contour filter compares `contourArea` with 1000, not the box's `w*h`.
- The automatic selector counts the contours before filtering.
- Solution 3 combines the full text with the two 300-character slices of
  `extract_text_from_region`. `extract_special_sections` is modelled, but only
  unreachable code calls it.
- The section keywords of `clean_and_organize_text` do not include MÅNDAG.
- Week numbers use `%W` (week 1 starts on the year's first Monday), not ISO 8601.
- Two failures in `add_dates_to_menu` behave differently:
  - a week that `int()` or `strptime` rejects raises ValueError, which is caught,
    and the item stays exactly as it was; no field is set to null;
  - a TypeError (a week that is null, a list or an object, or an availability that
    cannot be iterated or holds a list or an object) escapes the loop, and so does
    the OverflowError of `int()` on an infinite week. Later items are then left
    unprocessed. `AddDatesToMenu` reports this as `Aborted(at)`.
- A JSON number with a fraction or an exponent is a float, and `int()` truncates it
  toward zero: a week of `46.7` is week 46 and `-0.5` is week 0. A `NaN` week raises
  ValueError, so the item is kept as it is (`FloatWeek`, `FloatWeekTruncates`).

## Model

| member | source | states |
|---|---|---|
| WeekNumbers.SearchFrom | lkdevbackend2/scrapers/pdf_scraper.py:114 | `re.search`: the result is the leftmost position from which the pattern matches, with that match's end; no earlier position matches, and None means no position matches |
| WeekNumbers.ExtractWeekNumberPriority | lkdevbackend2/scrapers/pdf_scraper.py:106-120 | None exactly when none of vecka, week, `\bv`, `\bw` matches anywhere; otherwise the normalised leftmost match of the first pattern in that order that matches at all, even if a later pattern matches earlier in the text |
| WeekNumbers.FirstPatternMatchNone | lkdevbackend2/scrapers/pdf_scraper.py:113-120 | the pattern loop returns nothing exactly when no pattern matches anywhere |
| WeekNumbers.FirstPatternMatchFirst | lkdevbackend2/scrapers/pdf_scraper.py:113-116 | a found match is the leftmost match of some pattern j, and no pattern before j matches anywhere |
| WeekNumbers.ExtractWeekNumberIsLabel | lkdevbackend2/scrapers/pdf_scraper.py:106-119 | every result is a label: "Vecka", "Week", "V" or "W", a dot only after V or W, at most one space, then one or two digits |
| WeekNumbers.LabelIsFixedPoint | lkdevbackend2/scrapers/pdf_scraper.py:106-119 | every such label, searched for as text, is found and returned unchanged |
| WeekNumbers.ExtractWeekNumberIdempotent | lkdevbackend2/scrapers/pdf_scraper.py:95-120 | applied to its own result, extract_week_number returns that result again |
| WeekNumbers.LastSegmentAfterSlash | lkdevbackend2/scrapers/pdf_scraper.py:126 | the file name of `dir/name` is `name` whenever `name` has no '/' |
| WeekNumbers.UrlFunctionsSeeOnlyFileName | lkdevbackend2/scrapers/pdf_scraper.py:122-153 | the URL week and the relevance test of `dir/name` equal those of `name`: the directory is never looked at |
| WeekNumbers.SameFileNameSameAnswers | lkdevbackend2/scrapers/pdf_scraper.py:145-153 | two URLs with the same lower-cased file name get the same week and the same relevance |
| WeekNumbers.UrlWeekIsLabel | lkdevbackend2/scrapers/pdf_scraper.py:129-142 | every URL week is a label "Vecka", "V" or "W" with no dot, at most one space and one or two digits, so no separator survives |
| WeekNumbers.UrlWeekReadsBack | lkdevbackend2/scrapers/pdf_scraper.py:122-143 | a URL week is non-empty, and extract_week_number reads it back unchanged |
| WeekNumbers.IsRelevantPdfIff | lkdevbackend2/scrapers/pdf_scraper.py:145-153 | a PDF is relevant exactly when its lower-cased file name contains "lunch" or "dagens", or carries a week |
| WeekNumbers.UrlExampleWeek | lkdevbackend2/scrapers/pdf_scraper.py:140-142 | `https://example.com/menus/lunch-vecka46.pdf` is relevant and gives "Vecka46" |
| WeekNumbers.UnderscoreAfterLetterMisses | lkdevbackend2/scrapers/pdf_scraper.py:131-132 | a separator, a letter and then '_' never start a v or w file-name match |
| WeekNumbers.UrlUnderscoreWeekMisses | lkdevbackend2/scrapers/pdf_scraper.py:131 | `menu_v_46.pdf` carries no week and is not a relevant PDF |
| PdfText.ExtractDaySentences | lkdevbackend2/scrapers/pdf_scraper.py:175-200 | the windows are pairwise distinct and are exactly the windows of the lines that mention a day name; the result is the windows joined by "\n" |
| PdfText.DayWindowSource | lkdevbackend2/scrapers/pdf_scraper.py:190-196 | every collected window is the stripped previous/current/next window of a line that mentions a day name |
| PdfText.DayWindowCollected | lkdevbackend2/scrapers/pdf_scraper.py:190-196 | the window of every line that mentions a day name is collected |
| PdfText.WindowNotBlank | lkdevbackend2/scrapers/pdf_scraper.py:193-195 | the window of a line that mentions a day name is non-empty and stripped |
| PdfText.DaySentencesEmptyIff | lkdevbackend2/scrapers/pdf_scraper.py:190-200 | the result is "" exactly when no line mentions a day name |
| PdfText.DedupLines | lkdevbackend2/scrapers/pdf_scraper.py:373-382 | the `seen`-set loop computes the stripped, non-blank lines, each kept at its first occurrence |
| PdfText.GroupSections | lkdevbackend2/scrapers/pdf_scraper.py:385-399 | the sectioning loop produces each section of the unique lines, joined by "\n" |
| PdfText.CleanAndOrganize | lkdevbackend2/scrapers/pdf_scraper.py:368-402 | clean_and_organize_text computes the organised text that the lemmas below describe |
| PdfText.KeepFirstFacts | lkdevbackend2/scrapers/pdf_scraper.py:376-382 | the kept lines are pairwise distinct and none is empty |
| PdfText.KeepFirstSource | lkdevbackend2/scrapers/pdf_scraper.py:376-382 | every kept line occurs in the input |
| PdfText.KeepFirstComplete | lkdevbackend2/scrapers/pdf_scraper.py:376-382 | every non-empty input line is kept |
| PdfText.KeepFirstOrder | lkdevbackend2/scrapers/pdf_scraper.py:376-382 | each kept line comes from its first occurrence, in input order |
| PdfText.UniqueLinesFacts | lkdevbackend2/scrapers/pdf_scraper.py:373-382 | the unique lines are distinct, non-empty and stripped, and they include every non-blank stripped input line; each comes from the first line that strips to it, in input order |
| PdfText.SectionsShape | lkdevbackend2/scrapers/pdf_scraper.py:385-399 | concatenating the sections gives back the unique lines; a section starts only at the first line or at a line containing TISDAG, ONSDAG, TORSDAG, FREDAG or VECKANS, and every such line starts one |
| PdfText.OrganizedLines | lkdevbackend2/scrapers/pdf_scraper.py:368-402 | the output's lines are the sections' lines with one blank line between sections, and the sections' lines, in order, are the unique lines |
| PdfText.OrganizedIdempotent | lkdevbackend2/scrapers/pdf_scraper.py:368-402 | organising already organised text changes nothing |
| PdfText.SectionForSpan | lkdevbackend2/scrapers/pdf_scraper.py:620-624 | a found section is the stripped span from the keyword's first occurrence to the first newline-and-capital (or the end) after the keyword |
| PdfText.FoundSectionsAppend | lkdevbackend2/scrapers/pdf_scraper.py:619-624 | each keyword is searched on its own, and the sections follow keyword order |
| PdfText.FoundSectionsNone | lkdevbackend2/scrapers/pdf_scraper.py:619-625 | no section is found exactly when no keyword occurs |
| PdfText.RegionSliceSpec | lkdevbackend2/scrapers/pdf_scraper.py:531-537 | the slice is the up to 300 characters from the keyword's first index, so it starts with a keyword of at most 300 characters; for a non-empty keyword it is "" exactly when the keyword is missing; missing OCR text raises |
| Regions.FilterAndSortContours | lkdevbackend2/scrapers/pdf_scraper.py:765-776 | the filter-then-sort loop returns the kept boxes sorted by (y, x) |
| Regions.KeptIndicesBoxes | lkdevbackend2/scrapers/pdf_scraper.py:767-772 | the i-th kept box is the box of a contour whose area is above 1000 |
| Regions.KeptIndicesIncrease | lkdevbackend2/scrapers/pdf_scraper.py:767-772 | the kept boxes appear in contour order |
| Regions.KeptIndicesComplete | lkdevbackend2/scrapers/pdf_scraper.py:767-772 | every contour with area above 1000 is kept |
| Regions.InsertFacts | lkdevbackend2/scrapers/pdf_scraper.py:775 | inserting a box into a sorted list keeps it sorted and adds exactly that box |
| Regions.SortByKeySorted | lkdevbackend2/scrapers/pdf_scraper.py:775 | the sort returns a permutation of its input, sorted by (y, x) |
| Regions.SortByKeyStable | lkdevbackend2/scrapers/pdf_scraper.py:775 | boxes with equal (y, x) keep their relative order, as Python's stable `sorted` does |
| Regions.FilterAndSortFacts | lkdevbackend2/scrapers/pdf_scraper.py:765-776 | the result is sorted by (y, x), is a permutation of the kept boxes, and keeps ties in contour order |
| Regions.SuitableWithoutKeptBoxes | lkdevbackend2/scrapers/pdf_scraper.py:732-743 | more than ten contours make a page suitable for solution 1 even when none is kept by the area filter |
| Regions.NothingKept | lkdevbackend2/scrapers/pdf_scraper.py:767-772 | no box is kept when every area is at most 1000 |
| PdfStrategy.AccumulateTexts | lkdevbackend2/scrapers/pdf_scraper.py:785-791 | the `full_text +=` loop gives each truthy text followed by the separator, in order |
| PdfStrategy.AccumulateIsJoin | lkdevbackend2/scrapers/pdf_scraper.py:785-791 | the accumulated text is the truthy texts joined by the separator, plus one trailing separator when any text contributed |
| PdfStrategy.AccumulateBlank | lkdevbackend2/scrapers/pdf_scraper.py:233-241 | with a whitespace separator, the accumulation is all whitespace exactly when no text is non-blank |
| PdfStrategy.AccumulateStripEmpty | lkdevbackend2/scrapers/pdf_scraper.py:348-357 | the page texts joined with blank lines strip to "" exactly when no page text is non-blank |
| PdfStrategy.LunchMenuIsRedundant | lkdevbackend2/scrapers/pdf_scraper.py:252 | the keyword "lunch menu" adds nothing: the test holds exactly when "lunch" or "dagens" occurs |
| PdfStrategy.Solution1Some | lkdevbackend2/scrapers/pdf_scraper.py:204-305 | solution 1 yields text exactly for a PDF of one or two pages where some OCR text is non-blank, the OCR text has a week or mentions lunch or dagens, and some page yields non-blank menu text |
| PdfStrategy.Solution1Shape | lkdevbackend2/scrapers/pdf_scraper.py:290-302 | a solution 1 result is non-empty and stripped; it is the week label + "\n\n" + the stripped menu text when a week was found, and the stripped menu text alone otherwise |
| PdfStrategy.PageWithoutBoxes | lkdevbackend2/scrapers/pdf_scraper.py:274-280 | a page with no contour above 1000 falls back to whole-page OCR |
| PdfStrategy.PageWithBoxes | lkdevbackend2/scrapers/pdf_scraper.py:274-288 | a page with a kept contour reads its boxes in (y, x) order: the kept boxes' truthy texts, each followed by "\n" |
| PdfStrategy.PageMenu | lkdevbackend2/scrapers/pdf_scraper.py:267-288 | the per-page step returns that page's menu text |
| PdfStrategy.CollectMenuText | lkdevbackend2/scrapers/pdf_scraper.py:263-288 | the page loop accumulates the pages' menu texts with blank lines |
| PdfStrategy.Solution1 | lkdevbackend2/scrapers/pdf_scraper.py:204-312 | process_pdf_with_solution1 returns the solution 1 result that Solution1Some and Solution1Shape describe |
| PdfStrategy.Solution2PrefersDirectText | lkdevbackend2/scrapers/pdf_scraper.py:332-337 | direct text longer than 50 characters after stripping is organised and returned, and the result is stable under organising again |
| PdfStrategy.Solution2OcrFallback | lkdevbackend2/scrapers/pdf_scraper.py:338-359 | otherwise the result exists exactly when the PDF has pages and some OCR text is non-blank; it is then the stripped page texts, non-empty |
| PdfStrategy.Solution2 | lkdevbackend2/scrapers/pdf_scraper.py:314-366 | process_pdf_with_solution2 returns the solution 2 result described above |
| PdfStrategy.Solution3Shape | lkdevbackend2/scrapers/pdf_scraper.py:500-517 | solution 3 fails when the first page's OCR fails; any result is non-empty and stripped |
| PdfStrategy.Solution3KeepsKeyword | lkdevbackend2/scrapers/pdf_scraper.py:511-517 | when the first page's OCR contains "Veckans Fisk" or "Veckans Vegetariska", solution 3 returns text containing it |
| PdfStrategy.SliceContainsKeyword | lkdevbackend2/scrapers/pdf_scraper.py:532-536 | the region slice of a text containing a keyword of at most 300 characters contains that keyword |
| PdfStrategy.KeptInCombination | lkdevbackend2/scrapers/pdf_scraper.py:516-517 | a keyword without surrounding whitespace that is in either slice survives the combination and the final strip |
| PdfStrategy.Solution3 | lkdevbackend2/scrapers/pdf_scraper.py:478-524 | process_pdf_with_solution3 returns the solution 3 result described above |
| PdfStrategy.AutoSelection | lkdevbackend2/scrapers/pdf_scraper.py:698-730 | direct text longer than 50 characters selects solution 2; otherwise more than ten raw contours on page one select solution 1, else solution 3; with no pages and no such text the result is None |
| PdfStrategy.DispatchNeedsPdf | lkdevbackend2/scrapers/pdf_scraper.py:37-48 | no strategy yields text for a response that is not a PDF |
| PdfStrategy.ProcessAuto | lkdevbackend2/scrapers/pdf_scraper.py:698-730 | process_pdf_auto returns the automatic choice's result |
| PdfStrategy.ScrapeIsFirstTruthy | lkdevbackend2/scrapers/pdf_scraper.py:30-55 | scrape_pdf returns the first truthy per-link result, in link order |
| PdfStrategy.FirstTruthyIndex | lkdevbackend2/scrapers/pdf_scraper.py:50-55 | the first truthy result comes from an index before which every result is falsy; there is none exactly when every result is falsy |
| PdfStrategy.ScrapeFirstYield | lkdevbackend2/scrapers/pdf_scraper.py:24-55 | the result is the text of the first relevant link whose strategy yields text, and None exactly when no link does |
| PdfStrategy.ScrapePdf | lkdevbackend2/scrapers/pdf_scraper.py:24-55 | the link loop returns the result described above |
| MenuDates.IntOfIntText | lkdevbackend2/utils/data_processing.py:113 | `int()` of the decimal text of any integer gives that integer back |
| MenuDates.ParseSigned | lkdevbackend2/utils/data_processing.py:113 | a sign and digit groups parse to the signed value of the digits |
| MenuDates.WeekMondayIsMonday | lkdevbackend2/utils/data_processing.py:116 | the date `strptime("%Y-W%W-1")` gives is a Monday for every week 0 to 53 |
| MenuDates.WeekNumbering | lkdevbackend2/utils/data_processing.py:116 | week 1 starts on the first Monday of the year, weeks are seven days apart, week 0 starts on the Monday on or before 1 January, and week 0 equals week 1 exactly when 1 January is a Monday |
| MenuDates.SeqMin | lkdevbackend2/utils/data_processing.py:138 | `min` returns an element no larger than any other |
| MenuDates.SeqMax | lkdevbackend2/utils/data_processing.py:140 | `max` returns an element no smaller than any other |
| MenuDates.DatedFieldsOutcome | lkdevbackend2/utils/data_processing.py:110-153 | an item is left as it is exactly when it has no week, or its week fails `int()` with ValueError (NaN included) or lies outside 0..53; processing raises an escaping exception exactly when the week is null, a list, an object or an infinity, or a usable week meets an availability that cannot be iterated or holds a list or an object |
| MenuDates.TruncateTowardZero | lkdevbackend2/utils/data_processing.py:113 | `int()` of a finite float is the integer toward zero that lies less than one unit from it, with the float's sign |
| MenuDates.FloatWeek | lkdevbackend2/utils/data_processing.py:113-153 | a finite float week is processed as the integer it truncates to; a NaN week leaves the item as it is; an infinite week raises OverflowError, which escapes |
| MenuDates.FloatWeekTruncates | lkdevbackend2/utils/data_processing.py:113-116 | a week of 46.7 is processed as week 46, and -0.5 as week 0, which is then not skipped |
| MenuDates.DatedFieldsDefault | lkdevbackend2/utils/data_processing.py:118-123 | a missing or empty availability becomes Monday to Friday, and the item is valid from that week's Monday to its Friday |
| MenuDates.WorkdayDates | lkdevbackend2/utils/data_processing.py:122-132 | Monday to Friday give the five consecutive days from the Monday |
| MenuDates.DatesOfConsecutive | lkdevbackend2/utils/data_processing.py:128-132 | labels naming consecutive days from Monday give consecutive dates |
| MenuDates.DatesSnoc | lkdevbackend2/utils/data_processing.py:128-134 | each further label adds its date when it names a day, case-sensitively, and is skipped otherwise |
| MenuDates.DatedFieldsSpan | lkdevbackend2/utils/data_processing.py:136-150 | a processed item loses "week"; validFrom and validTo are both null or both dates, and validFrom ≤ validTo within the week starting on the item's Monday |
| MenuDates.WithDatesFields | lkdevbackend2/utils/data_processing.py:118-150 | validFrom and validTo are the earliest and latest dates of the named days, or both null; the availability is the given one when truthy, else Monday to Friday |
| MenuDates.MondayToWednesday | lkdevbackend2/utils/data_processing.py:136-142 | availability `["Monday", "Wednesday"]` makes the item valid from the week's Monday to its Wednesday |
| MenuDates.DatedFieldsKeepsOthers | lkdevbackend2/utils/data_processing.py:110-150 | no other field of a processed item changes, and a truthy availability is kept |
| MenuDates.AppliedIsSettled | lkdevbackend2/utils/data_processing.py:110-153 | processing an item a second time leaves it as it is |
| MenuDates.CollectDates | utils/data_processing.py:139-147 | the inner loop raises exactly when a label is a list or an object, and otherwise collects the dates of the known labels in order |
| MenuDates.AddDates | utils/data_processing.py:124-166 | one item's loop body raises exactly when the item's processing raises; the item's fields become the processed fields |
| MenuDates.AddDatesToMenu | utils/data_processing.py:111-168 | the loop completes exactly when no item raises, and then every item is processed in place; otherwise it stops at the first raising item (no earlier item raises), with the earlier items processed and the later distinct items untouched |
| MenuPrompt.FormatLiteral | lkdevbackend2/utils/data_processing.py:24 | formatting text without braces returns it unchanged |
| MenuPrompt.FormatFromField | lkdevbackend2/utils/data_processing.py:24 | a `{menu_text}` field is replaced by the menu text |
| MenuPrompt.FormatSingleField | lkdevbackend2/utils/data_processing.py:24 | a prompt with one `{menu_text}` and no other braces becomes the prompt with the menu text in its place |
| MenuPrompt.FormatUnknownField | lkdevbackend2/utils/data_processing.py:24 | any other field name makes `format` raise |
| MenuPrompt.FormatEscapedPlaceholder | lkdevbackend2/utils/data_processing.py:24 | `{{menu_text}}` formats to the literal `{menu_text}` |
| MenuPrompt.DefaultPromptWrapsText | lkdevbackend2/utils/data_processing.py:25-58 | without a custom prompt, the prompt is the fixed instructions, the menu text and the fixed closing text, in that order |
| MenuPrompt.CustomPromptAppendsText | lkdevbackend2/utils/data_processing.py:20-22 | a custom prompt without `{menu_text}` is followed by `\n\nText:\n"""`, the menu text and `"""` |
| MenuPrompt.CustomPromptFillsPlaceholder | lkdevbackend2/utils/data_processing.py:20-24 | a custom prompt with one `{menu_text}` and no other braces gets the menu text in its place |
| MenuPrompt.PromptFailsOnlyOnFormat | lkdevbackend2/utils/data_processing.py:19-24 | building the prompt fails only when a non-empty custom prompt containing `{menu_text}` fails to format |
| MenuPrompt.EscapedPlaceholderDropsText | lkdevbackend2/utils/data_processing.py:21-24 | the custom prompt `{{menu_text}}` passes the containment test but formats without the menu text |
| MenuPrompt.CleanReplyStripped | utils/data_processing.py:80-91 | the cleaned reply never starts or ends with whitespace |
| MenuPrompt.UnfencedReplyUnchanged | utils/data_processing.py:80-87 | a stripped reply that does not both start and end with a fence reaches the JSON parser unchanged |
| MenuPrompt.CleanFenced | utils/data_processing.py:87-91 | a fenced reply becomes its stripped contents, without a leading `json` tag |
| MenuPrompt.PlainFenceRoundTrip | utils/data_processing.py:87-91 | fencing a stripped body that does not start with "json" and cleaning it gives the body back |
| MenuPrompt.JsonFenceRoundTrip | utils/data_processing.py:87-91 | fencing a stripped body under a `json` tag and cleaning it gives the body back |
| MenuPrompt.JsonTagRemoved | utils/data_processing.py:89-91 | a leading `json` tag and the whitespace after it are removed |
| ImageGate.ProperImageThreshold | scrapers/image_scraper.py:92-98 | 400 by 400 is kept and one pixel less on either side is not; enlarging a kept image keeps it |
| ImageGate.ContainsKeyword | scrapers/image_scraper.py:146-153 | the result is true exactly when some keyword occurs as a whole word, ignoring case; it is false for no keywords |
| ImageGate.MatchIgnoresCase | scrapers/image_scraper.py:151 | lower-casing the text or the keyword changes no match |
| ImageGate.OccursIgnoresCase | scrapers/image_scraper.py:151 | lower-casing the text changes no occurrence |
| ImageGate.WholeWordMatch | scrapers/image_scraper.py:151 | a keyword of word characters matches exactly where the text spells it, ignoring case, with no word character on either side |
| ImageGate.ProcessImageForMenuText | scrapers/image_scraper.py:113-122 | the OCR text is returned verbatim exactly when it contains one of the twelve menu keywords, and None otherwise |
| ImageGate.MenuTextNotEmpty | scrapers/image_scraper.py:118-119 | a returned menu text is never empty |
| ImageGate.ScrapeImage | scrapers/image_scraper.py:32-77 | the tag loop returns the kept texts joined by blank lines, or None |
| ImageGate.KeptTextsInOrder | scrapers/image_scraper.py:36-69 | the kept texts are those of the kept tags, each kept tag contributes once, and page order is preserved |
| ImageGate.ScrapeImageNone | scrapers/image_scraper.py:32-77 | the result is None exactly when the page could not be read or none of its image tags is kept, which includes a page without image tags |
| ImageGate.KeptTextsAreMenus | scrapers/image_scraper.py:53-67 | every kept text is the OCR text of an image of at least 400 by 400 and contains a menu keyword |
| TextScraper.JoinedWordsNormal | lkdevbackend2/scrapers/text_scraper.py:18 | words joined by single spaces give text whose only whitespace is single spaces between words |
| TextScraper.NormalizeIsNormal | lkdevbackend2/scrapers/text_scraper.py:18 | the collapsed text has no tabs or newlines, no leading or trailing space and no two spaces in a row |
| TextScraper.NormalHasNoNewline | lkdevbackend2/scrapers/text_scraper.py:18 | collapsed text holds no newline |
| TextScraper.SplitOfJoinedWords | lkdevbackend2/scrapers/text_scraper.py:18 | splitting words joined by spaces gives the words back |
| TextScraper.NormalizeIdempotent | lkdevbackend2/scrapers/text_scraper.py:18 | collapsing collapsed text changes nothing |
| TextScraper.DayNamesAreWords | lkdevbackend2/scrapers/text_scraper.py:21-24 | each of the fourteen day names is a capitalised word of at least six word characters |
| TextScraper.FirstDayFromSome | lkdevbackend2/scrapers/text_scraper.py:27-30 | a name found by trying the alternatives in order is one of them and matches there as a whole word |
| TextScraper.FirstDayFromNone | lkdevbackend2/scrapers/text_scraper.py:27-30 | no name is found exactly when no remaining alternative matches there as a whole word |
| TextScraper.DayAtSome | lkdevbackend2/scrapers/text_scraper.py:27-30 | a day found at a position is a day name, matched case-sensitively between word boundaries |
| TextScraper.DayAtNone | lkdevbackend2/scrapers/text_scraper.py:27-30 | no day is found at a position exactly when no day name matches there as a whole word |
| TextScraper.NoDayInsideDay | lkdevbackend2/scrapers/text_scraper.py:27 | no day name matches strictly inside a matched day name |
| TextScraper.UnmarkMarkFrom | lkdevbackend2/scrapers/text_scraper.py:30 | removing the markers from the marked suffix gives the suffix back |
| TextScraper.MarkDaysRoundTrip | lkdevbackend2/scrapers/text_scraper.py:27-30 | removing every marker from the marked text gives the original text back |
| TextScraper.NewlinesCountDays | lkdevbackend2/scrapers/text_scraper.py:30 | the marked text has one newline per day-name match |
| TextScraper.MarkerBeforeDay | lkdevbackend2/scrapers/text_scraper.py:27-30 | a day name matching at position p appears in the marked text right after a marker, at p shifted by one marker length for each match before p |
| TextScraper.UncapitalisedTextUnmarked | lkdevbackend2/scrapers/text_scraper.py:21-30 | text with no upper-case letter, or with no lower-case letter, gets no marker |
| TextScraper.ScrapeTextShape | lkdevbackend2/scrapers/text_scraper.py:5-32 | a failed fetch gives None; otherwise the result is the collapsed page text with a marker before each day-name match: removing the markers gives the collapsed text, and the result has one newline per match |
| Text.StripSpec | lkdevbackend2/scrapers/pdf_scraper.py:379 | `strip` removes whitespace from both ends and nothing else |
| Text.StripEmptyIffAllSpace | lkdevbackend2/scrapers/pdf_scraper.py:239 | a text strips to "" exactly when it is all whitespace |
| Text.SplitLinesOfJoin | lkdevbackend2/scrapers/pdf_scraper.py:373 | `splitlines` of single-line texts joined by "\n" gives them back when the last one is non-empty |

## Left out

- OCR, rasterisation, image processing and PDF parsing (pytesseract, pdf2image and
  Poppler, OpenCV, PIL, PyPDF2) are foreign calls. Their results are inputs:
  - each page's OCR texts, with `None` where OCR raised;
  - the direct text;
  - the page list;
  - each contour's box and area;
  - each image's size.
- The network and HTML are left out: `requests`, `find_pdf_links`, BeautifulSoup's
  `get_text`, `download_image`, Selenium in `dynamic_scraper.py`, and `urljoin`.
  What they return is an input. A fetch failure is `None`.
- The language-model call and `json.loads` in both `process_menu_text` functions
  are external services. The model stops at the prompt and at the cleaned reply.
- The Flask and Azure handlers, the database and scheduler code and `main.py` are
  HTTP, storage and batch glue around the modelled functions.
- The code after `return` at `lkdevbackend2/scrapers/pdf_scraper.py:404-476`,
  `539-601` and `627-696` is never executed, so it is not modelled as behaviour.
- Logging has no effect on any result and is left out.
- `datetime.now()` is left out: the current year is a parameter.
- `isoformat` is left out: a date is a day ordinal (`JDate`), not its text.
- MenuDates.AddDatesToMenu: the year is limited to 1000..9998. Other years change
  the `%Y` text or leave `date`'s range, which is not modelled.
- PdfText.ExtractDaySentences: the order of the windows is not fixed, because it is
  the iteration order of a Python `set`. The contract states only which windows
  appear and that none repeats.
- MenuPrompt.FormatFrom: conversions and format specs such as `{menu_text!r}` and
  `{menu_text:>9}` are treated as errors, though Python accepts them. Attribute and
  index lookups such as `{menu_text.x}` and `{menu_text[0]}` are also treated as
  errors; Python raises for these too, but not for every such text.
- Text.Lower: case mapping is exact only for ASCII and Latin-1. Other characters are
  not case-mapped and are not word characters. `\d` covers only ASCII digits.
- MenuDates.IntOf: `int()` of text accepts only ASCII digits here. Python also accepts
  other Unicode decimal digits such as `"４６"`, so such a week is kept unprocessed
  here but gets its dates in Python. Listing every Unicode decimal digit block is
  beyond this model.
- MenuDates.IntOf: a finite float is the exact fraction it stands for. Fractions that
  no binary float can hold, such as 1/3, are allowed too. Truncation treats all of
  them alike.
- MenuDates.AddDatesToMenu: every element of `menu_data` is a JSON object. An element
  that is not an object is not modelled:
  - a string or list containing "week" makes `item["week"]` raise TypeError;
  - a number or null makes `"week" in item` raise TypeError;
  - any other such element is skipped.
- The exception handlers that turn any other error into `None` are modelled only
  where the modelled code can raise:
  - missing OCR text in `extract_text_from_region`;
  - a TypeError or OverflowError in `add_dates_to_menu`, which `process_menu_text`
    catches.
