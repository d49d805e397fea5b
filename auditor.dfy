/**
 * The rule engine of the auditor: one pass per rule over the parsed document, each appending
 * to a single list of findings, in the order the rules are written. Each pass is its own
 * method, and the body of each `forEach` callback is its own method too; `PerformAnalysis`
 * threads the list through the passes.
 */
module Auditor {
  import opened Wrappers
  import opened Dom
  import opened Findings
  import opened Rules
  import Text

  /** `performAnalysis`, after the document has been parsed. */
  method PerformAnalysis(doc: Document) returns (issues: seq<Finding>)
    ensures issues == Analyze(doc)
  {
    issues := CheckImages(doc, []);
    assert issues == ImageRule(doc);
    issues := CheckFormLabels(doc, issues);
    issues := CheckHeadings(doc, issues);
    issues := CheckButtonText(doc, issues);
    issues := CheckAria(doc, issues);
    issues := CheckColorStyles(doc, issues);
  }

  // ----- Rule 1 -----

  method VisitImage(img: Element, before: seq<Finding>) returns (issues: seq<Finding>)
    ensures issues == before + ImageCheck(img)
  {
    issues := before;
    if !HasAttribute(img, "alt") {
      issues := issues + [MissingAltFinding(img)];
    } else if Text.Trim(AltProperty(img)) == "" {
      issues := issues + [EmptyAltFinding(img)];
    }
  }

  /** Missing and empty alt attributes on images. */
  method CheckImages(doc: Document, before: seq<Finding>) returns (issues: seq<Finding>)
    ensures issues == before + ImageRule(doc)
  {
    issues := before;
    var images := QuerySelectorAll(doc, ImageSelector);
    var i := 0;
    while i < |images|
      invariant i <= |images|
      invariant issues == before + FlatMap(images[..i], ImageCheck)
    {
      AppendStep(before, images, i, ImageCheck);
      issues := VisitImage(images[i], issues);
      i := i + 1;
    }
    PassDone(issues, before, images, ImageCheck);
  }

  // ----- Rule 2 -----

  method VisitFormControl(doc: Document, input: Element, before: seq<Finding>) returns (issues: seq<Finding>)
    ensures issues == before + FormControlCheck(doc, input)
  {
    issues := before;
    var id := GetAttribute(input, "id");
    var name := GetAttribute(input, "name");
    if !IsTruthy(id) && !IsTruthy(name) {
      issues := issues + [UnidentifiedControlFinding(input)];
    } else if IsTruthy(id) && QuerySelector(doc, LabelForSelector(id.value)).None? {
      issues := issues + [UnlabeledControlFinding(input)];
    }
  }

  /** Form controls without id and name, or whose id no label refers to. */
  method CheckFormLabels(doc: Document, before: seq<Finding>) returns (issues: seq<Finding>)
    ensures issues == before + FormRule(doc)
  {
    issues := before;
    var inputs := QuerySelectorAll(doc, FormControlSelector);
    var i := 0;
    while i < |inputs|
      invariant i <= |inputs|
      invariant issues == before + FlatMap(inputs[..i], FormControlCheckIn(doc))
    {
      AppendStep(before, inputs, i, FormControlCheckIn(doc));
      issues := VisitFormControl(doc, inputs[i], issues);
      i := i + 1;
    }
    PassDone(issues, before, inputs, FormControlCheckIn(doc));
  }

  // ----- Rule 3 -----

  /** The callback of the heading pass, with the `previousLevel` it reads and reassigns. */
  method VisitHeading(heading: Element, previousLevel: nat, before: seq<Finding>)
    returns (issues: seq<Finding>, level: nat)
    requires IsHeading(heading)
    ensures issues == before + HeadingCheck(previousLevel, heading)
    ensures level == HeadingLevel(heading)
  {
    issues := before;
    var currentLevel := HeadingLevel(heading);
    if currentLevel as int - previousLevel as int > 1 {
      issues := issues + [SkippedHeadingFinding(previousLevel, currentLevel, heading)];
    }
    level := currentLevel;
  }

  /** Headings more than one level deeper than the heading before them. */
  method CheckHeadings(doc: Document, before: seq<Finding>) returns (issues: seq<Finding>)
    ensures issues == before + HeadingRule(doc)
  {
    issues := before;
    var headings := QuerySelectorAll(doc, HeadingSelector);
    HeadingQueryGivesHeadings(doc);
    var previousLevel := 0;
    var i := 0;
    while i < |headings|
      invariant i <= |headings|
      invariant previousLevel == PrecedingLevel(headings, i)
      invariant issues == before + HeadingRuleOn(headings[..i])
    {
      HeadingStep(before, headings, i);
      issues, previousLevel := VisitHeading(headings[i], previousLevel, issues);
      i := i + 1;
    }
    assert headings[..i] == headings;
  }

  // ----- Rule 4 -----

  method VisitButton(button: Element, before: seq<Finding>) returns (issues: seq<Finding>)
    ensures issues == before + ButtonCheck(button)
  {
    issues := before;
    var text := Text.ToLower(Text.Trim(button.textContent));
    if text in NonDescriptiveTexts {
      issues := issues + [NonDescriptiveButtonFinding(button)];
    }
  }

  /** Buttons whose text is one of the non-descriptive phrases. */
  method CheckButtonText(doc: Document, before: seq<Finding>) returns (issues: seq<Finding>)
    ensures issues == before + ButtonRule(doc)
  {
    issues := before;
    var buttons := QuerySelectorAll(doc, ButtonSelector);
    var i := 0;
    while i < |buttons|
      invariant i <= |buttons|
      invariant issues == before + FlatMap(buttons[..i], ButtonCheck)
    {
      AppendStep(before, buttons, i, ButtonCheck);
      issues := VisitButton(buttons[i], issues);
      i := i + 1;
    }
    PassDone(issues, before, buttons, ButtonCheck);
  }

  // ----- Rule 5 -----

  method VisitInteractive(element: Element, before: seq<Finding>) returns (issues: seq<Finding>)
    ensures issues == before + AriaCheck(element)
  {
    issues := before;
    if HasAttribute(element, "aria-label") || HasAttribute(element, "aria-labelledby") {
      return;  // already has an ARIA name
    }
    var text := Text.Trim(element.textContent);
    var placeholder := GetAttribute(element, "placeholder");
    var title := GetAttribute(element, "title");
    if text == "" && !IsTruthy(placeholder) && !IsTruthy(title) {
      issues := issues + [MissingAriaFinding(element)];
    }
  }

  /** Interactive elements with no ARIA name and no visible text. */
  method CheckAria(doc: Document, before: seq<Finding>) returns (issues: seq<Finding>)
    ensures issues == before + AriaRule(doc)
  {
    issues := before;
    var interactiveElements := QuerySelectorAll(doc, InteractiveSelector);
    var i := 0;
    while i < |interactiveElements|
      invariant i <= |interactiveElements|
      invariant issues == before + FlatMap(interactiveElements[..i], AriaCheck)
    {
      AppendStep(before, interactiveElements, i, AriaCheck);
      issues := VisitInteractive(interactiveElements[i], issues);
      i := i + 1;
    }
    PassDone(issues, before, interactiveElements, AriaCheck);
  }

  // ----- Rule 6 -----

  /** One aggregate finding when any element has an inline colour style. */
  method CheckColorStyles(doc: Document, before: seq<Finding>) returns (issues: seq<Finding>)
    ensures issues == before + ColorRule(doc)
  {
    issues := before;
    var elementsWithColor := QuerySelectorAll(doc, ColorSelector);
    if |elementsWithColor| > 0 {
      issues := issues + [ColorFinding(|elementsWithColor|)];
    }
  }
}
