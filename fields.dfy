/** Reading fields, links and text from the current page
    (`InteractsWithPages`: isChecked, getSelectedValue and its select and
    radio-group scans, getInputOrTextAreaValue, hasLink, see, hasInElement). */
module Fields {
  import opened Wrappers
  import opened Strings
  import opened Dom
  import opened Selectors
  import Urls

  // ---------------------------------------------------------------- checkboxes

  /** `isChecked`: the first `input[type='checkbox']` named or identified by the
      selector decides; with none the source throws. */
  function IsChecked(doc: Document, selector: string): (r: Result<bool>)
    ensures r.Err? <==> forall e :: e in doc ==> !MatchesNameOrId(e, selector, [TypedInput("checkbox")])
    ensures r == Ok(true) ==> exists e :: e in doc && e.tag == "input" && Attr(e, "type") == Some("checkbox") && HasAttribute(e, "checked")
    ensures r.Ok? ==> var first := Filter(doc, selector, [TypedInput("checkbox")])[0];
                      first in doc && MatchesNameOrId(first, selector, [TypedInput("checkbox")]) &&
                      (r.value <==> HasAttribute(first, "checked"))
  {
    var boxes := Filter(doc, selector, [TypedInput("checkbox")]);
    if |boxes| == 0 then
      Err("There are no checkbox elements with the name or ID [" + selector + "].")
    else
      assert boxes[0] in boxes;
      assert MatchesCandidate(boxes[0], TypedInput("checkbox"));
      Ok(Attr(boxes[0], "checked") != None)
  }

  // ---------------------------------------------------------------- selects

  /** The option a browser would submit: the first child carrying `selected`. */
  predicate IsFirstSelected(options: seq<Element>, i: int)
  {
    0 <= i < |options| && HasAttribute(options[i], "selected") &&
    forall j :: 0 <= j < i ==> !HasAttribute(options[j], "selected")
  }

  /** `getSelectedValueFromSelect`: throws unless the node is a `select`; then
      the `value` of the first child with `selected`, or null when none is. */
  method GetSelectedValueFromSelect(field: Element) returns (r: Result<Option<string>>)
    ensures r.Err? <==> field.tag != "select"
    ensures r == Ok(None) <==> field.tag == "select" && forall i :: 0 <= i < |field.children| ==> !HasAttribute(field.children[i], "selected")
    ensures r.Ok? && r.value.Some? ==>
              exists i :: IsFirstSelected(field.children, i) && r.value.value == GetAttribute(field.children[i], "value")
  {
    if field.tag != "select" {
      return Err("Given element is not a select element.");
    }
    var options := field.children;
    var k := 0;
    while k < |options|
      invariant 0 <= k <= |options|
      invariant forall j :: 0 <= j < k ==> !HasAttribute(options[j], "selected")
    {
      if HasAttribute(options[k], "selected") {
        assert IsFirstSelected(options, k);
        return Ok(Some(GetAttribute(options[k], "value")));
      }
      k := k + 1;
    }
    return Ok(None);
  }

  // ---------------------------------------------------------------- radio groups

  /** The member a browser would submit: the first one carrying `checked`. */
  predicate IsFirstChecked(group: Document, i: int)
  {
    0 <= i < |group| && HasAttribute(group[i], "checked") &&
    forall j :: 0 <= j < i ==> !HasAttribute(group[j], "checked")
  }

  /** `getCheckedValueFromRadioGroup`: the group's first node must be an
      `input` of type `radio` (an empty group has no node name and throws);
      then the `value` of the first member carrying `checked`, or null. */
  method GetCheckedValueFromRadioGroup(group: Document) returns (r: Result<Option<string>>)
    ensures r.Err? <==> group == [] || group[0].tag != "input" || Attr(group[0], "type") != Some("radio")
    ensures r.Ok? ==> (r.value == None <==> forall i :: 0 <= i < |group| ==> !HasAttribute(group[i], "checked"))
    ensures r.Ok? && r.value.Some? ==> exists i :: IsFirstChecked(group, i) && r.value.value == GetAttribute(group[i], "value")
  {
    if group == [] {
      return Err("The current node list is empty.");
    }
    if group[0].tag != "input" || Attr(group[0], "type") != Some("radio") {
      return Err("Given element is not a radio button.");
    }
    var k := 0;
    while k < |group|
      invariant 0 <= k <= |group|
      invariant forall j :: 0 <= j < k ==> !HasAttribute(group[j], "checked")
    {
      if HasAttribute(group[k], "checked") {
        assert IsFirstChecked(group, k);
        return Ok(Some(GetAttribute(group[k], "value")));
      }
      k := k + 1;
    }
    return Ok(None);
  }

  /** `getSelectedValue`: a `select` is read through its options, an `input`
      as a radio group; anything else, or nothing at all, throws. */
  method GetSelectedValue(doc: Document, selector: string) returns (r: Result<Option<string>>)
    ensures var field := Filter(doc, selector, Default);
            r.Err? <==> field == [] || !(field[0].tag == "select" || (field[0].tag == "input" && Attr(field[0], "type") == Some("radio")))
    ensures var field := Filter(doc, selector, Default);
            field != [] && field[0].tag == "select" ==>
              && (r == Ok(None) <==> forall i :: 0 <= i < |field[0].children| ==> !HasAttribute(field[0].children[i], "selected"))
              && (r.Ok? && r.value.Some? ==>
                    exists i :: IsFirstSelected(field[0].children, i) && r.value.value == GetAttribute(field[0].children[i], "value"))
    ensures var field := Filter(doc, selector, Default);
            field != [] && field[0].tag == "input" && r.Ok? ==>
              && (r.value == None <==> forall i :: 0 <= i < |field| ==> !HasAttribute(field[i], "checked"))
              && (r.value.Some? ==> exists i :: IsFirstChecked(field, i) && r.value.value == GetAttribute(field[i], "value"))
  {
    var field := Filter(doc, selector, Default);
    if |field| == 0 {
      return Err("There are no elements with the name or ID [" + selector + "].");
    }
    if field[0].tag == "select" {
      r := GetSelectedValueFromSelect(field[0]);
      return;
    }
    if field[0].tag == "input" {
      r := GetCheckedValueFromRadioGroup(field);
      return;
    }
    return Err("Given selector [" + selector + "] is not a select or radio group.");
  }

  // ---------------------------------------------------------------- inputs

  const InputOrTextArea: seq<Candidate> := [Tag("input"), Tag("textarea")]

  /** `getInputOrTextAreaValue`: an input's `value` attribute (null when it has
      none) or a textarea's text. */
  function GetInputOrTextAreaValue(doc: Document, selector: string): (r: Result<Option<string>>)
  {
    var field := Filter(doc, selector, InputOrTextArea);
    if |field| == 0 then Err("There are no elements with the name or ID [" + selector + "].")
    else if field[0].tag == "input" then Ok(Attr(field[0], "value"))
    else if field[0].tag == "textarea" then Ok(Some(field[0].text))
    else Err("Given selector [" + selector + "] is not an input or textarea.")
  }

  /** The candidate tags already restrict the match to inputs and textareas, so
      the "not an input or textarea" branch is dead: the reader fails exactly
      when nothing matches, and otherwise reads the first match. */
  lemma GetInputOrTextAreaValueCases(doc: Document, selector: string)
    ensures var r := GetInputOrTextAreaValue(doc, selector);
            var field := Filter(doc, selector, InputOrTextArea);
            && (r.Err? <==> field == [])
            && (r.Ok? && field[0].tag == "input" ==> r.value == Attr(field[0], "value"))
            && (r.Ok? && field[0].tag == "textarea" ==> r.value == Some(field[0].text))
  {
    var field := Filter(doc, selector, InputOrTextArea);
    if field != [] {
      assert field[0] in field;
      var c :| c in InputOrTextArea && MatchesCandidate(field[0], c);
    }
  }

  // ---------------------------------------------------------------- links

  /** The link test of `selectLink($text)`: an anchor whose text holds `text`
      as a space-delimited run, or one with such an image child. */
  predicate LinkHasText(e: Element, text: string)
  {
    e.tag == "a" &&
    (Occurs(" " + e.text + " ", " " + text + " ") ||
     exists k :: 0 <= k < |e.children| && ImageAltHasText(e.children[k], text))
  }

  /** A child image whose `alt` holds the text as a space-delimited run also
      selects its link. */
  predicate ImageAltHasText(c: Element, text: string)
  {
    c.tag == "img" && Occurs(" " + GetAttribute(c, "alt") + " ", " " + text + " ")
  }

  /** `doc[i]` is the document's first link carrying the text. */
  predicate FirstLinkAt(doc: Document, text: string, i: int)
  {
    0 <= i < |doc| && LinkHasText(doc[i], text) && forall j :: 0 <= j < i ==> !LinkHasText(doc[j], text)
  }

  function SelectLink(doc: Document, text: string): (r: Document)
    ensures forall e :: e in r <==> e in doc && LinkHasText(e, text)
    ensures forall i :: FirstLinkAt(doc, text, i) ==> r != [] && r[0] == doc[i]
  {
    if doc == [] then []
    else
      assert forall i :: FirstLinkAt(doc, text, i) && 0 < i ==> FirstLinkAt(doc[1..], text, i - 1);
      (if LinkHasText(doc[0], text) then [doc[0]] else []) + SelectLink(doc[1..], text)
  }

  /** `null == $url` is a loose comparison: an empty string counts as null. */
  predicate IsNullUrl(url: Option<string>)
  {
    url == None || url == Some("")
  }

  /** `hasLink`: some link carries the text and, when a URL is given, one of
      those links has exactly that `href` once relative URLs are resolved. */
  method HasLink(doc: Document, text: string, url: Option<string>, buildUrl: string -> string) returns (found: bool)
    ensures found <==>
              (exists e :: e in doc && LinkHasText(e, text)) &&
              (IsNullUrl(url) ||
               exists e :: e in doc && LinkHasText(e, text) && GetAttribute(e, "href") == Urls.AddRootToRelativeUrl(buildUrl, url.value))
  {
    var links := SelectLink(doc, text);
    if |links| == 0 {
      return false;
    }
    assert links[0] in links;
    if IsNullUrl(url) {
      return true;
    }
    var target := Urls.AddRootToRelativeUrl(buildUrl, url.value);
    var k := 0;
    while k < |links|
      invariant 0 <= k <= |links|
      invariant forall j :: 0 <= j < k ==> GetAttribute(links[j], "href") != target
    {
      if GetAttribute(links[k], "href") == target {
        assert links[k] in links;
        return true;
      }
      k := k + 1;
    }
    forall e | e in doc && LinkHasText(e, text)
      ensures GetAttribute(e, "href") != target
    {
      assert e in links;
    }
    return false;
  }

  // ---------------------------------------------------------------- text

  /** Characters `preg_quote($s, '/')` prefixes with a backslash. */
  predicate IsRegexSpecial(x: char)
  {
    x in ".\\+*?[^]$(){}=!<>|:-#/"
  }

  /** How `preg_quote($s, '/')` writes one character: NUL as the octal
      escape `\000`, a special character behind a backslash, any other as is. */
  function QuoteChar(x: char): (r: string)
    ensures |r| >= 1
  {
    if x == '\0' then "\\000"
    else if IsRegexSpecial(x) then ['\\', x]
    else [x]
  }

  /** `preg_quote($s, '/')`. */
  function PregQuote(s: string): (r: string)
    ensures |r| >= |s|
  {
    if s == [] then []
    else QuoteChar(s[0]) + PregQuote(s[1..])
  }

  /** Inverse of `PregQuote`: `\000` stands for NUL, and any other backslash
      escapes the character after it. */
  function PregUnquote(s: string): string
    decreases |s|
  {
    if s == [] then []
    else if |s| >= 4 && s[..4] == "\\000" then ['\0'] + PregUnquote(s[4..])
    else if |s| >= 2 && s[0] == '\\' then [s[1]] + PregUnquote(s[2..])
    else [s[0]] + PregUnquote(s[1..])
  }

  lemma UnquoteNul(rest: string)
    ensures PregUnquote("\\000" + rest) == ['\0'] + PregUnquote(rest)
  {
    var q := "\\000" + rest;
    assert q[..4] == "\\000" && q[4..] == rest;
  }

  lemma UnquoteEscaped(x: char, rest: string)
    requires x != '0'
    ensures PregUnquote(['\\', x] + rest) == [x] + PregUnquote(rest)
  {
    var q := ['\\', x] + rest;
    assert q[0] == '\\' && q[1] == x && q[2..] == rest;
    if |q| >= 4 {
      assert q[..4][1] == x;
    }
  }

  lemma UnquotePlain(x: char, rest: string)
    requires x != '\\'
    ensures PregUnquote([x] + rest) == [x] + PregUnquote(rest)
  {
    var q := [x] + rest;
    assert q[0] == x && q[1..] == rest;
    if |q| >= 4 {
      assert q[..4][0] == x;
    }
  }

  /** Unquoting reads back exactly one quoted character. */
  lemma UnquoteQuoteChar(x: char, rest: string)
    ensures PregUnquote(QuoteChar(x) + rest) == [x] + PregUnquote(rest)
  {
    if x == '\0' {
      UnquoteNul(rest);
    } else if IsRegexSpecial(x) {
      UnquoteEscaped(x, rest);
    } else {
      assert x != '\\';
      UnquotePlain(x, rest);
    }
  }

  lemma {:induction false} PregQuoteRoundTrip(s: string)
    ensures PregUnquote(PregQuote(s)) == s
    decreases |s|
  {
    if s != [] {
      PregQuoteRoundTrip(s[1..]);
      UnquoteQuoteChar(s[0], PregQuote(s[1..]));
    }
  }

  /** The pattern built by `see` and `hasInElement` from the raw text and its
      HTML-entity form (`htmlentities` is the external `entities`). */
  function TextPattern(text: string, entities: string -> string): string
  {
    var raw := PregQuote(text);
    var escaped := PregQuote(entities(text));
    if raw == escaped then raw else "(" + raw + "|" + escaped + ")"
  }

  /** The raw pattern stands alone exactly when the entity form leaves the text
      unchanged; otherwise both forms are accepted as alternatives. */
  lemma TextPatternCases(text: string, entities: string -> string)
    ensures entities(text) == text ==> TextPattern(text, entities) == PregQuote(text)
    ensures entities(text) != text ==>
              TextPattern(text, entities) == "(" + PregQuote(text) + "|" + PregQuote(entities(text)) + ")"
  {
    PregQuoteRoundTrip(text);
    PregQuoteRoundTrip(entities(text));
  }

  /** `see($text, $negate)`: a case-insensitive regex test of the body;
      `matches` is the external `preg_match`. */
  function See(content: string, text: string, negate: bool, entities: string -> string,
               matches: (string, string) -> bool): (r: Outcome)
    ensures r.Pass? <==> matches("/" + TextPattern(text, entities) + "/i", content) != negate
  {
    var found := matches("/" + TextPattern(text, entities) + "/i", content);
    if found != negate then Pass
    else Fail(if negate then "Failed asserting that the content does not match the pattern."
              else "Failed asserting that the content matches the pattern.")
  }

  /** `notSee` is `see` with the assertion negated: exactly one of them passes. */
  lemma NotSeeIsNegatedSee(content: string, text: string, entities: string -> string,
                           matches: (string, string) -> bool)
    ensures See(content, text, true, entities, matches).Pass? <==> !See(content, text, false, entities, matches).Pass?
  {
  }

  /** For text the entity form leaves unchanged, `see` tests the quoted text alone. */
  lemma SeePlainText(content: string, text: string, negate: bool, entities: string -> string,
                     matches: (string, string) -> bool)
    requires entities(text) == text
    ensures See(content, text, negate, entities, matches).Pass? <==> matches("/" + PregQuote(text) + "/i", content) != negate
  {
    TextPatternCases(text, entities);
  }

  /** The loop of `hasInElement`: some element's inner markup matches. */
  method AnyMarkupMatches(elements: Document, pattern: string, matches: (string, string) -> bool) returns (found: bool)
    ensures found <==> exists e :: e in elements && matches(pattern, e.html)
  {
    var k := 0;
    while k < |elements|
      invariant 0 <= k <= |elements|
      invariant forall j :: 0 <= j < k ==> !matches(pattern, elements[j].html)
    {
      if matches(pattern, elements[k].html) {
        assert elements[k] in elements;
        return true;
      }
      k := k + 1;
    }
    return false;
  }

  /** `hasInElement`: some selected element's inner markup matches the
      case-insensitive pattern of the text. */
  method HasInElement(elements: Document, text: string, entities: string -> string,
                      matches: (string, string) -> bool) returns (found: bool)
    ensures found <==> exists e :: e in elements && matches("/" + TextPattern(text, entities) + "/i", e.html)
  {
    found := AnyMarkupMatches(elements, "/" + TextPattern(text, entities) + "/i", matches);
  }
}
