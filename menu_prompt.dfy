// Building the prompt sent to the language model, and cleaning its reply
// before JSON parsing.

module MenuPrompt {
  import opened Wrappers
  import opened Text

  // ---------------------------------------------------------------------------
  // The default prompt
  // ---------------------------------------------------------------------------

  /** The fixed instructions in front of the menu text, ending in the opening quotes. */
  const DefaultPromptHead: string :=
    "\n"
    + "Extract the lunch menu for the week from the following text and format it as a JSON array with the following fields:\n"
    + "- \"name\": Dish name\n"
    + "- \"description\": Brief description\n"
    + "- \"price\": Price as a number (no currency symbols)\n"
    + "- \"availability\": Days when the dish is available (e.g., [\"Monday\", \"Tuesday\", \"Wednesday\"]). Use only the days explicitly mentioned. If no days are mentioned, leave it empty.\n"
    + "- \"allergies\": Possible food allergies (e.g., 'milk', 'gluten', etc.), if clearly indicated.\n"
    + "- \"tags\": Relevant tags such as \"Vegetarian\", \"Vegan\", \"Gluten-Free\".\n"
    + "- \"week\": Week number (e.g., 34 for V34). If no week number is present, send back the first clear date that you see as part of the text (turning it to week number of year 2024).\n"
    + "\n"
    + "Additional guidelines:\n"
    + "1. Ignore all items after the word \"\U{C0} la carte at all times\", Sometimes also called \"Klassiker\"\n"
    + "2. Ignore any irrelevant or gibberish data before generating the menus.\n"
    + "3. Do not assign availability to days not explicitly mentioned. If no days are specified, leave \"availability\" empty.\n"
    + "4. If no allergies or tags are specified, leave those fields as empty lists.\n"
    + "5. For prices, include only the numeric value without currency symbols.\n"
    + "6. Ensure the output is a JSON array with the specified fields.\n"
    + "7. Do not add any new lunch menus not mentioned in the input text.\n"
    + "8. If the week number is of 3 digits, get rid of the last one.\n"
    + "9. If the name gets too long, try to shorten it to 2 to 3 words and put the rest in the description instead.\n"
    + "10. It's extremely important to always remember to add the tags for vegan and vegetarian dishes.\n"
    + "11. if the price for the menu is mentioned, add it to every lunch if its not changed with special price.\n"
    + "12. To make sure that the week number is correct use one or multiple mentioned dates with the days (if exist), use the date knowing its the year 2024 to calculate the week number\n"
    + "13. When the meal name has the word \"Veckans vegetariska\", this meal is for the whole week.\" to catch the veg meal for the whole week.\n"
    + "14.if you find Lunch buffe without any day beside that, it means that the lunch buffe is for the whole week\" to catch that the lucnh buffe is for the whole week.But it has to say Lunchbuffe not only buffe\n"
    + "15. if the Vegetarian menu does not include any description, do not include it.\n"
    + "16.if the menu expands over multiple weeks, focus on the current week number now its: week 47(take into consideration that its a odd week)\n"
    + "17.take into consideration that some days could include multiple menus.\n"
    + "Text:\n"
    + "\"\"\""

  const DefaultPromptTail: string :=
    "\"\"\"\n"
    + "\n"
    + "Return only the JSON array with the fields as specified. Do not include any code snippets or code block markers in your response. For availability, use exact weekday names (Monday, Tuesday, etc.).\n"

  /** The placeholder a custom prompt may use for the menu text. */
  const Placeholder: string := "{menu_text}"

  /** What is appended to a custom prompt that has no placeholder, in front of the menu text. */
  const TextHeading: string := "\n\nText:\n\"\"\""

  const Quotes: string := "\"\"\""

  // ---------------------------------------------------------------------------
  // `str.format` with the single keyword argument `menu_text`
  // ---------------------------------------------------------------------------

  predicate NoBraces(s: string) {
    forall k :: 0 <= k < |s| ==> s[k] != '{' && s[k] != '}'
  }

  /** The first `}` at or after `i`, or the end of `t`. */
  function FieldEnd(t: string, i: nat): (j: nat)
    requires i <= |t|
    decreases |t| - i
    ensures i <= j <= |t|
    ensures j < |t| ==> t[j] == '}'
    ensures forall k :: i <= k < j ==> t[k] != '}'
  {
    if i == |t| || t[i] == '}' then i else FieldEnd(t, i + 1)
  }

  function Prepend(s: string, r: Option<string>): Option<string> {
    if r.Some? then Some(s + r.value) else None
  }

  /**
   * `t[i:].format(menu_text=text)`, where `None` stands for the exception
   * `format` raises: a lone `{` or `}`, or a field other than `menu_text`.
   */
  function FormatFrom(t: string, text: string, i: nat): Option<string>
    requires i <= |t|
    decreases |t| - i
  {
    if i == |t| then Some("")
    else if t[i] == '{' && i + 1 < |t| && t[i + 1] == '{' then Prepend("{", FormatFrom(t, text, i + 2))
    else if t[i] == '}' && i + 1 < |t| && t[i + 1] == '}' then Prepend("}", FormatFrom(t, text, i + 2))
    else if t[i] == '{' then
      var j := FieldEnd(t, i + 1);
      if j < |t| && t[i + 1..j] == "menu_text" then Prepend(text, FormatFrom(t, text, j + 1)) else None
    else if t[i] == '}' then None
    else Prepend([t[i]], FormatFrom(t, text, i + 1))
  }

  function Format(t: string, text: string): Option<string> {
    FormatFrom(t, text, 0)
  }

  /** Text without braces is copied through from `i` on. */
  lemma {:induction false} FormatFromPlain(t: string, text: string, i: nat)
    requires i <= |t| && NoBraces(t[i..])
    decreases |t| - i
    ensures FormatFrom(t, text, i) == Some(t[i..])
  {
    if i < |t| {
      assert t[i] == t[i..][0];
      assert t[i + 1..] == t[i..][1..];
      FormatFromPlain(t, text, i + 1);
      assert t[i..] == [t[i]] + t[i + 1..];
    }
  }

  /** A brace-free stretch `t[i..n]` is copied in front of what follows it. */
  lemma {:induction false} FormatFromPrefix(t: string, text: string, i: nat, n: nat)
    requires i <= n <= |t| && NoBraces(t[i..n])
    decreases n - i
    ensures FormatFrom(t, text, i) == Prepend(t[i..n], FormatFrom(t, text, n))
  {
    var r := FormatFrom(t, text, n);
    if i == n {
      if r.Some? {
        assert t[i..n] + r.value == r.value;
      }
    } else {
      assert t[i] == t[i..n][0];
      assert t[i + 1..n] == t[i..n][1..];
      FormatFromPrefix(t, text, i + 1, n);
      if r.Some? {
        assert [t[i]] + (t[i + 1..n] + r.value) == t[i..n] + r.value;
      }
    }
  }

  /** Formatting a template without braces leaves it as it is. */
  lemma FormatLiteral(t: string, text: string)
    requires NoBraces(t)
    ensures Format(t, text) == Some(t)
  {
    assert t[0..] == t;
    FormatFromPlain(t, text, 0);
  }

  /** A placeholder at `i` is replaced by the text. */
  lemma FormatFromField(t: string, text: string, i: nat)
    requires i + |Placeholder| <= |t| && t[i..i + |Placeholder|] == Placeholder
    ensures FormatFrom(t, text, i) == Prepend(text, FormatFrom(t, text, i + |Placeholder|))
  {
    assert |Placeholder| == 11;
    var p := t[i..i + 11];
    assert p == Placeholder;
    assert Placeholder[1..10] == "menu_text";
    assert forall k :: 0 <= k < 9 ==> t[i + 1..i + 10][k] == p[1..10][k];
    assert t[i + 1..i + 10] == p[1..10];
    assert forall k :: 0 <= k < |Placeholder| ==> t[i + k] == Placeholder[k];
    assert t[i] == '{' && t[i + 1] == 'm' && t[i + 10] == '}';
    assert forall k :: i + 1 <= k < i + 10 ==> t[k] != '}';
    assert FieldEnd(t, i + 1) == i + 10;
  }

  /** A template with one placeholder and no other braces gets the text in its place. */
  lemma FormatSingleField(a: string, b: string, text: string)
    requires NoBraces(a) && NoBraces(b)
    ensures Format(a + Placeholder + b, text) == Some(a + text + b)
  {
    var t := a + Placeholder + b;
    var n := |a|;
    assert t[0..n] == a;
    FormatFromPrefix(t, text, 0, n);
    assert t[n..n + 11] == Placeholder;
    FormatFromField(t, text, n);
    assert t[n + 11..] == b;
    FormatFromPlain(t, text, n + 11);
    assert a + (text + b) == a + text + b;
  }

  /** A field other than `menu_text` makes `format` raise. */
  lemma FormatUnknownField(a: string, name: string, b: string, text: string)
    requires NoBraces(a) && NoBraces(name) && name != "menu_text"
    ensures Format(a + "{" + name + "}" + b, text) == None
  {
    var t := a + "{" + name + "}" + b;
    var n := |a|;
    assert t[0..n] == a;
    FormatFromPrefix(t, text, 0, n);
    assert t[n] == '{';
    var e := n + 1 + |name|;
    assert t[e] == '}';
    assert forall k :: n + 1 <= k < e ==> t[k] == name[k - n - 1];
    assert FieldEnd(t, n + 1) == e;
    assert t[n + 1..e] == name;
    if name != [] {
      assert t[n + 1] != '{';
    }
  }

  /** A doubled brace is an escape: the placeholder written `{{menu_text}}` stays literal. */
  lemma FormatEscapedPlaceholder(text: string)
    ensures Format("{{menu_text}}", text) == Some(Placeholder)
  {
    var t := "{{menu_text}}";
    assert t[11] == '}' && t[12] == '}';
    assert FormatFrom(t, text, 13) == Some("");
    assert "}" + "" == "}";
    assert FormatFrom(t, text, 11) == Some("}");
    FormatFromPrefix(t, text, 2, 11);
    assert t[2..11] == "menu_text";
    assert "menu_text" + "}" == "menu_text}";
    assert FormatFrom(t, text, 2) == Some("menu_text}");
    assert "{" + "menu_text}" == Placeholder;
  }

  // ---------------------------------------------------------------------------
  // Prompt assembly
  // ---------------------------------------------------------------------------

  /**
   * The prompt for `menuText`, where `None` stands for the exception raised
   * by formatting a custom prompt.
   */
  function BuildPrompt(menuText: string, customPrompt: Option<string>): Option<string> {
    if customPrompt.Some? && customPrompt.value != "" then
      var custom := customPrompt.value;
      if !Contains(custom, Placeholder) then Some(custom + TextHeading + menuText + Quotes)
      else Format(custom, menuText)
    else
      Some(DefaultPromptHead + menuText + DefaultPromptTail)
  }

  /** Without a custom prompt the default instructions surround the menu text. */
  lemma DefaultPromptWrapsText(menuText: string, customPrompt: Option<string>)
    requires customPrompt.None? || customPrompt.value == ""
    ensures BuildPrompt(menuText, customPrompt).Some?
    ensures var p := BuildPrompt(menuText, customPrompt).value;
      |p| == |DefaultPromptHead| + |menuText| + |DefaultPromptTail|
      && p[..|DefaultPromptHead|] == DefaultPromptHead
      && p[|DefaultPromptHead|..|p| - |DefaultPromptTail|] == menuText
      && p[|p| - |DefaultPromptTail|..] == DefaultPromptTail
  {
  }

  /** A custom prompt without placeholder is kept verbatim, followed by the quoted menu text. */
  lemma CustomPromptAppendsText(menuText: string, custom: string)
    requires custom != "" && !Contains(custom, Placeholder)
    ensures BuildPrompt(menuText, Some(custom)).Some?
    ensures var p := BuildPrompt(menuText, Some(custom)).value;
      var start := |custom| + |TextHeading|;
      |p| == start + |menuText| + 3
      && p[..|custom|] == custom
      && p[|custom|..start] == TextHeading
      && p[start..|p| - 3] == menuText
      && p[|p| - 3..] == Quotes
  {
  }

  /** A custom prompt with one placeholder and no other braces gets the menu text in its place. */
  lemma CustomPromptFillsPlaceholder(menuText: string, a: string, b: string)
    requires NoBraces(a) && NoBraces(b)
    ensures BuildPrompt(menuText, Some(a + Placeholder + b)) == Some(a + menuText + b)
  {
    var custom := a + Placeholder + b;
    assert custom[|a|..|a| + |Placeholder|] == Placeholder;
    ContainsAt(custom, Placeholder, |a|);
    FormatSingleField(a, b, menuText);
  }

  /** Only formatting a custom prompt that contains the placeholder can raise. */
  lemma PromptFailsOnlyOnFormat(menuText: string, customPrompt: Option<string>)
    ensures BuildPrompt(menuText, customPrompt).None? <==>
      customPrompt.Some? && customPrompt.value != "" && Contains(customPrompt.value, Placeholder)
      && Format(customPrompt.value, menuText).None?
  {
  }

  /** The escaped placeholder passes the placeholder test but inserts no menu text. */
  lemma EscapedPlaceholderDropsText(menuText: string)
    ensures BuildPrompt(menuText, Some("{{menu_text}}")) == Some(Placeholder)
  {
    var custom := "{{menu_text}}";
    assert custom[1..1 + |Placeholder|] == Placeholder;
    ContainsAt(custom, Placeholder, 1);
    FormatEscapedPlaceholder(menuText);
  }

  // ---------------------------------------------------------------------------
  // Cleaning the reply
  // ---------------------------------------------------------------------------

  const Fence: string := "```"

  predicate StartsWith(s: string, p: string) {
    |p| <= |s| && s[..|p|] == p
  }

  predicate EndsWith(s: string, p: string) {
    |p| <= |s| && s[|s| - |p|..] == p
  }

  /** The fence contents after `strip`, with a leading `json` language tag removed. */
  function Untagged(inner: string): string {
    if StartsWith(inner, "json") then Strip(inner[4..]) else inner
  }

  /**
   * The message content after `strip`, with a surrounding code fence and a
   * leading `json` language tag removed.
   */
  function CleanReply(content: string): string {
    var m := Strip(content);
    if StartsWith(m, Fence) && EndsWith(m, Fence) then
      Untagged(Strip(if |m| >= 6 then m[3..|m| - 3] else ""))
    else m
  }

  /** The cleaned reply never starts or ends with whitespace. */
  lemma CleanReplyStripped(content: string)
    ensures IsStripped(CleanReply(content))
  {
    var m := Strip(content);
    StripSpec(content);
    if StartsWith(m, Fence) && EndsWith(m, Fence) {
      var inner := Strip(if |m| >= 6 then m[3..|m| - 3] else "");
      StripSpec(if |m| >= 6 then m[3..|m| - 3] else "");
      if StartsWith(inner, "json") {
        StripSpec(inner[4..]);
      }
    }
  }

  /** A stripped reply that is not fenced on both ends reaches the JSON parser unchanged. */
  lemma UnfencedReplyUnchanged(content: string)
    requires IsStripped(content) && !(StartsWith(content, Fence) && EndsWith(content, Fence))
    ensures CleanReply(content) == content
  {
    StripOfStripped(content);
  }

  /** The shape of a fenced reply, stated without stripping. */
  lemma FenceParts(middle: string)
    ensures var c := Fence + middle + Fence;
      IsStripped(c) && StartsWith(c, Fence) && EndsWith(c, Fence) && |c| >= 6 && c[3..|c| - 3] == middle
  {
    var c := Fence + middle + Fence;
    assert c[0] == '`' && c[|c| - 1] == '`';
    assert c[..3] == Fence && c[|c| - 3..] == Fence;
    assert c[3..|c| - 3] == middle;
  }

  /** A fenced reply loses both fences and the whitespace inside them. */
  lemma CleanFenced(middle: string)
    ensures CleanReply(Fence + middle + Fence) == Untagged(Strip(middle))
  {
    FenceParts(middle);
    StripOfStripped(Fence + middle + Fence);
  }

  /** A body fenced without a language tag is recovered exactly. */
  lemma PlainFenceRoundTrip(body: string)
    requires IsStripped(body) && !StartsWith(body, "json")
    ensures CleanReply(Fence + "\n" + body + "\n" + Fence) == body
  {
    var middle := "\n" + body + "\n";
    assert Fence + "\n" + body + "\n" + Fence == Fence + middle + Fence;
    CleanFenced(middle);
    StripPadded("\n", body, "\n");
  }

  /** A body fenced with the `json` tag is recovered exactly. */
  lemma JsonFenceRoundTrip(body: string)
    requires IsStripped(body)
    ensures CleanReply(Fence + "json\n" + body + "\n" + Fence) == body
  {
    var middle := "json\n" + body + "\n";
    assert Fence + "json\n" + body + "\n" + Fence == Fence + middle + Fence;
    CleanFenced(middle);
    JsonTagRemoved(body);
  }

  /** The pieces `JsonTagRemoved` hands to `StripPadded`: the fence body as padding + core + padding. */
  lemma JsonTagParts(body: string)
    ensures body == [] ==> "json\n" + body + "\n" == "" + "json" + "\n\n"
    ensures "json"[4..] == "" + "" + ""
    ensures var tagged := "json\n" + body;
      "json\n" + body + "\n" == "" + tagged + "\n" && StartsWith(tagged, "json")
      && tagged[4..] == "\n" + body + ""
      && (body != [] && IsStripped(body) ==> IsStripped(tagged))
  {
    var tagged := "json\n" + body;
    assert tagged[..4] == "json";
  }

  /** Removing the `json` tag from a tagged fence body gives the body back. */
  lemma JsonTagRemoved(body: string)
    requires IsStripped(body)
    ensures Untagged(Strip("json\n" + body + "\n")) == body
  {
    JsonTagParts(body);
    if body == [] {
      StripPadded("", "json", "\n\n");
      StripPadded("", "", "");
    } else {
      StripPadded("", "json\n" + body, "\n");
      StripPadded("\n", body, "");
    }
  }
}
