/**
 * The six accessibility rules, each stated as a function from the document to the findings it
 * appends, and their concatenation in rule order, the specification of the engine's result.
 * Every per-element check is stated through the predicate that says when it fires and the
 * finding it then builds.
 */
module Rules {
  import opened Wrappers
  import opened Dom
  import opened Findings
  import Text

  // ----- The queries the rules run -----

  const ImageSelector: SelectorList := [TypeSelector("img")]
  const FormControlSelector: SelectorList :=
    [TypeSelector("input"), TypeSelector("textarea"), TypeSelector("select")]
  const HeadingSelector: SelectorList :=
    [TypeSelector("h1"), TypeSelector("h2"), TypeSelector("h3"),
     TypeSelector("h4"), TypeSelector("h5"), TypeSelector("h6")]
  const ButtonSelector: SelectorList := [TypeSelector("button")]
  const InteractiveSelector: SelectorList :=
    [TypeSelector("button"), TypeSelector("a"), TypeSelector("input"),
     TypeSelector("textarea"), TypeSelector("select")]
  const ColorSelector: SelectorList :=
    [AttributeContains("style", "color"), AttributeContains("style", "background")]

  /** `label[for="<id>"]`. */
  function LabelForSelector(id: string): SelectorList {
    [AttributeEquals("label", "for", id)]
  }

  // ----- Appending per-element findings in document order -----

  /** The findings `check` appends for each element of `s`, in order. */
  function FlatMap(s: seq<Element>, check: Element -> seq<Finding>): seq<Finding> {
    if s == [] then [] else FlatMap(s[..|s| - 1], check) + check(s[|s| - 1])
  }

  /** Extending the prefix by one element appends that element's findings after those
      already collected. */
  lemma AppendStep(before: seq<Finding>, s: seq<Element>, i: nat, check: Element -> seq<Finding>)
    requires i < |s|
    ensures before + FlatMap(s[..i + 1], check) == (before + FlatMap(s[..i], check)) + check(s[i])
  {
    assert s[..i + 1][..i] == s[..i];
  }

  /** A whole pass collects the findings of all elements. */
  lemma PassDone(issues: seq<Finding>, before: seq<Finding>, s: seq<Element>, check: Element -> seq<Finding>)
    requires issues == before + FlatMap(s[..|s|], check)
    ensures issues == before + FlatMap(s, check)
  {
    assert s[..|s|] == s;
  }

  /** The elements of `s` satisfying `p`, in order. */
  function FilterElements(s: seq<Element>, p: Element -> bool): (r: seq<Element>)
    ensures |r| <= |s|
    ensures forall i :: 0 <= i < |r| ==> p(r[i])
  {
    if s == [] then []
    else FilterElements(s[..|s| - 1], p) + (if p(s[|s| - 1]) then [s[|s| - 1]] else [])
  }

  /** One finding per element of `s`, in order. */
  function MapFindings(s: seq<Element>, build: Element -> Finding): (r: seq<Finding>)
    ensures |r| == |s|
    ensures forall i :: 0 <= i < |s| ==> r[i] == build(s[i])
  {
    if s == [] then [] else MapFindings(s[..|s| - 1], build) + [build(s[|s| - 1])]
  }

  // ----- Rule 1: alternative text of images -----

  const PlaceholderAlt := "Description of the image"

  predicate LacksAlt(img: Element) {
    !HasAttribute(img, "alt")
  }

  /** The attribute is there but trims to nothing. */
  predicate HasBlankAlt(img: Element) {
    HasAttribute(img, "alt") && Text.Trim(AltProperty(img)) == ""
  }

  function MissingAltFinding(img: Element): (f: Finding)
    ensures f.Severity() == Error && f.element == img.outerHtml
  {
    Finding(MissingAlt, img.outerHtml, "<img src=\"" + img.src + "\" alt=\"" + PlaceholderAlt + "\">")
  }

  /** Keeps `alt=""` when the raw value is exactly empty, proposes text otherwise. */
  function EmptyAltFinding(img: Element): (f: Finding)
    ensures f.Severity() == Warning && f.element == img.outerHtml
  {
    Finding(EmptyAlt, img.outerHtml,
      if AltProperty(img) == "" then "<img src=\"" + img.src + "\" alt=\"\">"
      else "<img src=\"" + img.src + "\" alt=\"" + PlaceholderAlt + "\">")
  }

  function ImageCheck(img: Element): seq<Finding> {
    if LacksAlt(img) then [MissingAltFinding(img)]
    else if HasBlankAlt(img) then [EmptyAltFinding(img)]
    else []
  }

  function ImageRule(doc: Document): seq<Finding> {
    FlatMap(QuerySelectorAll(doc, ImageSelector), ImageCheck)
  }

  // ----- Rule 2: identification and labelling of form controls -----

  /** Neither `id` nor `name` is truthy: both absent or empty. */
  predicate IsUnidentified(input: Element) {
    !IsTruthy(GetAttribute(input, "id")) && !IsTruthy(GetAttribute(input, "name"))
  }

  /** Some `label` element of the document names `id` in its `for` attribute. */
  predicate HasLabelFor(doc: Document, id: string) {
    QuerySelector(doc, LabelForSelector(id)).Some?
  }

  /** A truthy `id` that no label refers to. */
  predicate IsUnlabeled(doc: Document, input: Element) {
    var id := GetAttribute(input, "id");
    IsTruthy(id) && !HasLabelFor(doc, id.value)
  }

  function UnlabeledIn(doc: Document): Element -> bool {
    input => IsUnlabeled(doc, input)
  }

  function UnidentifiedControlFinding(input: Element): (f: Finding)
    ensures f.Severity() == Error && f.element == input.outerHtml
  {
    Finding(UnidentifiedControl, input.outerHtml,
      "<input type=\"" + input.typeProperty + "\" id=\"unique-id\" name=\"field-name\" placeholder=\""
        + OrElse(GetAttribute(input, "placeholder"), "") + "\">")
  }

  function UnlabeledControlFinding(input: Element): (f: Finding)
    ensures f.Severity() == Warning && f.element == input.outerHtml
  {
    var id := OrElse(GetAttribute(input, "id"), "");
    Finding(UnlabeledControl, input.outerHtml,
      "<label for=\"" + id + "\">Field Label</label>\n<input type=\"" + input.typeProperty
        + "\" id=\"" + id + "\" name=\"" + OrElse(GetAttribute(input, "name"), id) + "\">")
  }

  function FormControlCheck(doc: Document, input: Element): seq<Finding> {
    if IsUnidentified(input) then [UnidentifiedControlFinding(input)]
    else if IsUnlabeled(doc, input) then [UnlabeledControlFinding(input)]
    else []
  }

  function FormControlCheckIn(doc: Document): Element -> seq<Finding> {
    input => FormControlCheck(doc, input)
  }

  function FormRule(doc: Document): seq<Finding> {
    FlatMap(QuerySelectorAll(doc, FormControlSelector), FormControlCheckIn(doc))
  }

  // ----- Rule 3: heading hierarchy -----

  predicate IsHeading(e: Element) {
    e.tag in {"h1", "h2", "h3", "h4", "h5", "h6"}
  }

  predicate AllHeadings(hs: seq<Element>) {
    forall i :: 0 <= i < |hs| ==> IsHeading(hs[i])
  }

  /** `parseInt(heading.tagName.charAt(1))`. */
  function HeadingLevel(h: Element): (level: nat)
    requires IsHeading(h)
    ensures 1 <= level <= 6
    ensures h.tag == "h" + Text.NatToString(level)
  {
    Text.DigitValue(h.tag[1])
  }

  /** The level of the heading just before position `i`, or 0 before the first one. */
  function PrecedingLevel(hs: seq<Element>, i: nat): nat
    requires i <= |hs| && AllHeadings(hs)
  {
    if i == 0 then 0 else HeadingLevel(hs[i - 1])
  }

  function SkippedHeadingFinding(previousLevel: nat, currentLevel: nat, h: Element): (f: Finding)
    ensures f.Severity() == Warning && f.element == h.outerHtml
  {
    Finding(SkippedHeading(previousLevel, currentLevel), h.outerHtml,
      "<!-- Add missing h" + Text.NatToString(previousLevel + 1) + " heading before this -->\n"
        + h.outerHtml)
  }

  /** A heading whose level is more than one deeper than the preceding heading's. */
  function HeadingCheck(previousLevel: nat, h: Element): seq<Finding>
    requires IsHeading(h)
  {
    var currentLevel := HeadingLevel(h);
    if currentLevel as int - previousLevel as int > 1 then [SkippedHeadingFinding(previousLevel, currentLevel, h)]
    else []
  }

  /** Each heading checked against the heading immediately before it. */
  function HeadingRuleOn(hs: seq<Element>): seq<Finding>
    requires AllHeadings(hs)
  {
    if hs == [] then []
    else HeadingRuleOn(hs[..|hs| - 1]) + HeadingCheck(PrecedingLevel(hs, |hs| - 1), hs[|hs| - 1])
  }

  /** One step of the heading pass: the next heading is checked against the one before it. */
  lemma HeadingStep(before: seq<Finding>, hs: seq<Element>, i: nat)
    requires i < |hs| && AllHeadings(hs)
    ensures AllHeadings(hs[..i]) && AllHeadings(hs[..i + 1])
    ensures before + HeadingRuleOn(hs[..i + 1])
         == (before + HeadingRuleOn(hs[..i])) + HeadingCheck(PrecedingLevel(hs, i), hs[i])
  {
    assert hs[..i + 1][..i] == hs[..i];
  }

  /** What `h1, h2, h3, h4, h5, h6` selects is all headings. */
  lemma HeadingQueryGivesHeadings(doc: Document)
    ensures AllHeadings(QuerySelectorAll(doc, HeadingSelector))
  {
    var hs := QuerySelectorAll(doc, HeadingSelector);
    forall i | 0 <= i < |hs|
      ensures IsHeading(hs[i])
    {
      assert Matches(HeadingSelector, hs[i]);
    }
  }

  function HeadingRule(doc: Document): seq<Finding> {
    HeadingQueryGivesHeadings(doc);
    HeadingRuleOn(QuerySelectorAll(doc, HeadingSelector))
  }

  // ----- Rule 4: non-descriptive button text -----

  const NonDescriptiveTexts: seq<string> :=
    ["click here", "click", "submit", "button", "ok", "yes", "no"]

  const ButtonSuggestions: map<string, string> := map[
    "click here" := "Learn more about our services",
    "click" := "View details",
    "submit" := "Send message",
    "button" := "Continue to next step",
    "ok" := "Confirm selection",
    "yes" := "Confirm action",
    "no" := "Cancel action"]

  const FallbackButtonText := "Perform action"

  /** `getBetterButtonText`: the canned label for a phrase, "Perform action" otherwise. */
  function GetBetterButtonText(originalText: string): (r: string)
    ensures originalText in ButtonSuggestions ==> r == ButtonSuggestions[originalText]
    ensures originalText !in ButtonSuggestions ==> r == FallbackButtonText
    ensures r != ""
  {
    if originalText in ButtonSuggestions && ButtonSuggestions[originalText] != "" then
      ButtonSuggestions[originalText]
    else
      FallbackButtonText
  }

  /** `button.textContent.trim().toLowerCase()`. */
  function ButtonText(button: Element): string {
    Text.ToLower(Text.Trim(button.textContent))
  }

  predicate IsNonDescriptive(button: Element) {
    ButtonText(button) in NonDescriptiveTexts
  }

  function NonDescriptiveButtonFinding(button: Element): (f: Finding)
    ensures f.Severity() == Warning && f.element == button.outerHtml
  {
    Finding(NonDescriptiveButton, button.outerHtml,
      "<button>" + GetBetterButtonText(ButtonText(button)) + "</button>")
  }

  function ButtonCheck(button: Element): seq<Finding> {
    if IsNonDescriptive(button) then [NonDescriptiveButtonFinding(button)] else []
  }

  function ButtonRule(doc: Document): seq<Finding> {
    FlatMap(QuerySelectorAll(doc, ButtonSelector), ButtonCheck)
  }

  // ----- Rule 5: accessible names of interactive elements -----

  predicate HasAriaName(e: Element) {
    HasAttribute(e, "aria-label") || HasAttribute(e, "aria-labelledby")
  }

  /** Trimmed text, `placeholder` and `title` all empty or absent. */
  predicate LacksVisibleText(e: Element) {
    && Text.Trim(e.textContent) == ""
    && !IsTruthy(GetAttribute(e, "placeholder"))
    && !IsTruthy(GetAttribute(e, "title"))
  }

  predicate NeedsAria(e: Element) {
    !HasAriaName(e) && LacksVisibleText(e)
  }

  function MissingAriaFinding(e: Element): (f: Finding)
    ensures f.Severity() == Info && f.element == e.outerHtml
  {
    var tag := Text.ToLower(e.tag);
    Finding(MissingAria, e.outerHtml,
      "<" + tag + " aria-label=\"Description of the action\">" + e.innerHtml + "</" + tag + ">")
  }

  function AriaCheck(e: Element): seq<Finding> {
    if NeedsAria(e) then [MissingAriaFinding(e)] else []
  }

  function AriaRule(doc: Document): seq<Finding> {
    FlatMap(QuerySelectorAll(doc, InteractiveSelector), AriaCheck)
  }

  // ----- Rule 6: inline colour styles (one aggregate finding) -----

  /** The `style` attribute mentions "color" or "background" anywhere. */
  predicate HasColorStyle(e: Element) {
    "style" in e.attributes
      && (Text.Contains(e.attributes["style"], "color") || Text.Contains(e.attributes["style"], "background"))
  }

  const ColorCode := "<!-- Consider using CSS custom properties for consistent, accessible colors -->"

  function ColorFinding(count: nat): (f: Finding)
    ensures f.Severity() == Info
    ensures f.element == Text.NatToString(count) + " elements with color styles found"
  {
    Finding(ColorContrast, Text.NatToString(count) + " elements with color styles found", ColorCode)
  }

  function ColorRule(doc: Document): seq<Finding> {
    var count := |QuerySelectorAll(doc, ColorSelector)|;
    if count > 0 then [ColorFinding(count)] else []
  }

  // ----- The whole analysis -----

  /** The findings of rules 1 to 6, in that order. */
  function Analyze(doc: Document): seq<Finding> {
    ImageRule(doc) + FormRule(doc) + HeadingRule(doc) + ButtonRule(doc) + AriaRule(doc) + ColorRule(doc)
  }
}
