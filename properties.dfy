/**
 * What the rule engine promises, proved about the rule functions the engine is tied to:
 * which elements produce findings of which severity and in which order, what the fixed
 * markup says, and how the six rule outputs make up the whole result.
 */
module Properties {
  import opened Wrappers
  import opened Dom
  import opened Findings
  import opened Rules
  import Text

  // ----- Per-element checks that push at most one finding of a severity -----

  lemma MapFindingsSnoc(s: seq<Element>, e: Element, build: Element -> Finding)
    ensures MapFindings(s + [e], build) == MapFindings(s, build) + [build(e)]
  {
    assert (s + [e])[..|s|] == s;
  }

  /** If each element yields, at severity `sev`, exactly `build(e)` when `p(e)` holds and
      nothing otherwise, then the findings of that severity are one per element satisfying
      `p`, in document order. */
  lemma {:induction false} FlatMapSeverity(s: seq<Element>, check: Element -> seq<Finding>, sev: Severity,
                                           p: Element -> bool, build: Element -> Finding)
    requires forall e :: e in s ==> OfSeverity(check(e), sev) == (if p(e) then [build(e)] else [])
    ensures OfSeverity(FlatMap(s, check), sev) == MapFindings(FilterElements(s, p), build)
  {
    if s != [] {
      var init, last := s[..|s| - 1], s[|s| - 1];
      assert forall e :: e in init ==> e in s;
      FlatMapSeverity(init, check, sev, p, build);
      OfSeverityAppend(FlatMap(init, check), check(last), sev);
      if p(last) {
        MapFindingsSnoc(FilterElements(init, p), last, build);
      }
    }
  }

  /** If no element yields a finding of severity `sev`, the pass yields none. */
  lemma {:induction false} FlatMapNoSeverity(s: seq<Element>, check: Element -> seq<Finding>, sev: Severity)
    requires forall e :: e in s ==> OfSeverity(check(e), sev) == []
    ensures OfSeverity(FlatMap(s, check), sev) == []
  {
    if s != [] {
      var init, last := s[..|s| - 1], s[|s| - 1];
      assert forall e :: e in init ==> e in s;
      FlatMapNoSeverity(init, check, sev);
      OfSeverityAppend(FlatMap(init, check), check(last), sev);
    }
  }

  /** A per-element pass over a document split in two is the pass over the first part
      followed by the pass over the second. */
  lemma {:induction false} FlatMapAppend(a: seq<Element>, b: seq<Element>, check: Element -> seq<Finding>)
    ensures FlatMap(a + b, check) == FlatMap(a, check) + FlatMap(b, check)
  {
    if b == [] {
      assert a + b == a;
    } else {
      var init := b[..|b| - 1];
      assert (a + b)[..|a + b| - 1] == a + init;
      assert (a + b)[|a + b| - 1] == b[|b| - 1];
      FlatMapAppend(a, init, check);
    }
  }

  lemma SingletonSeverity(f: Finding, sev: Severity)
    ensures OfSeverity([f], sev) == if f.Severity() == sev then [f] else []
  {
    assert [f][1..] == [];
  }

  // ----- Rule 1: images -----

  /** Exactly one error per `img` without an `alt` attribute, in document order; an `img`
      that has the attribute, whatever its value, never yields an error. */
  lemma ImageErrors(doc: Document)
    ensures OfSeverity(ImageRule(doc), Error)
         == MapFindings(FilterElements(QuerySelectorAll(doc, ImageSelector), LacksAlt), MissingAltFinding)
  {
    var images := QuerySelectorAll(doc, ImageSelector);
    forall e | e in images
      ensures OfSeverity(ImageCheck(e), Error) == (if LacksAlt(e) then [MissingAltFinding(e)] else [])
    {
      if LacksAlt(e) {
        SingletonSeverity(MissingAltFinding(e), Error);
      } else if HasBlankAlt(e) {
        SingletonSeverity(EmptyAltFinding(e), Error);
      }
    }
    FlatMapSeverity(images, ImageCheck, Error, LacksAlt, MissingAltFinding);
  }

  /** Exactly one warning per `img` whose `alt` is present but trims to nothing. */
  lemma ImageWarnings(doc: Document)
    ensures OfSeverity(ImageRule(doc), Warning)
         == MapFindings(FilterElements(QuerySelectorAll(doc, ImageSelector), HasBlankAlt), EmptyAltFinding)
  {
    var images := QuerySelectorAll(doc, ImageSelector);
    forall e | e in images
      ensures OfSeverity(ImageCheck(e), Warning) == (if HasBlankAlt(e) then [EmptyAltFinding(e)] else [])
    {
      if LacksAlt(e) {
        SingletonSeverity(MissingAltFinding(e), Warning);
      } else if HasBlankAlt(e) {
        SingletonSeverity(EmptyAltFinding(e), Warning);
      }
    }
    FlatMapSeverity(images, ImageCheck, Warning, HasBlankAlt, EmptyAltFinding);
  }

  /** An image the image rule reports: no `alt`, or an `alt` that trims to nothing. */
  predicate ImageFlagged(img: Element) {
    LacksAlt(img) || HasBlankAlt(img)
  }

  /** The one finding of a reported image: the error takes precedence over the warning. */
  function ImageFindingOf(img: Element): Finding {
    if LacksAlt(img) then MissingAltFinding(img) else EmptyAltFinding(img)
  }

  /** The whole image pass, errors and warnings interleaved: one finding per reported
      image, in document order, the error when `alt` is absent and the blank-`alt`
      warning otherwise. */
  lemma ImageRuleExact(doc: Document)
    ensures ImageRule(doc)
         == MapFindings(FilterElements(QuerySelectorAll(doc, ImageSelector), ImageFlagged), ImageFindingOf)
  {
    var images := QuerySelectorAll(doc, ImageSelector);
    forall e | e in images
      ensures ImageCheck(e) == (if ImageFlagged(e) then [ImageFindingOf(e)] else [])
    {
    }
    FlatMapSingle(images, ImageCheck, ImageFlagged, ImageFindingOf);
  }

  /** An image is silent exactly when its `alt` attribute holds a non-whitespace character. */
  lemma ImageSilentIff(img: Element)
    ensures ImageCheck(img) == [] <==>
      "alt" in img.attributes && exists k :: 0 <= k < |img.attributes["alt"]| && !Text.IsWhitespace(img.attributes["alt"][k])
  {
    if "alt" in img.attributes {
      Text.TrimEmptyIff(img.attributes["alt"]);
    }
  }

  /** For a blank `alt`, the fixed markup keeps `alt=""` exactly when the raw value is
      the empty string; a whitespace-only value gets the placeholder text instead. */
  lemma EmptyAltCode(img: Element)
    requires HasBlankAlt(img)
    ensures EmptyAltFinding(img).code == "<img src=\"" + img.src + "\" alt=\"\">"
        <==> img.attributes["alt"] == ""
    ensures img.attributes["alt"] != "" ==>
      EmptyAltFinding(img).code == "<img src=\"" + img.src + "\" alt=\"" + PlaceholderAlt + "\">"
  {
    var keep := "<img src=\"" + img.src + "\" alt=\"\">";
    var placeholder := "<img src=\"" + img.src + "\" alt=\"" + PlaceholderAlt + "\">";
    assert |keep| < |placeholder|;
  }

  /** `alt="   "` is not `alt=""`: one warning, with the placeholder text in its fix. */
  lemma WhitespaceAltGetsPlaceholder(img: Element)
    requires "alt" in img.attributes && img.attributes["alt"] != ""
    requires forall k :: 0 <= k < |img.attributes["alt"]| ==> Text.IsWhitespace(img.attributes["alt"][k])
    ensures ImageCheck(img) == [EmptyAltFinding(img)]
    ensures EmptyAltFinding(img).code != "<img src=\"" + img.src + "\" alt=\"\">"
  {
    Text.TrimEmptyIff(img.attributes["alt"]);
    EmptyAltCode(img);
  }

  // ----- Rule 2: form controls -----

  /** Exactly one error per control whose `id` and `name` are both absent or empty, in
      document order. */
  lemma FormErrors(doc: Document)
    ensures OfSeverity(FormRule(doc), Error)
         == MapFindings(FilterElements(QuerySelectorAll(doc, FormControlSelector), IsUnidentified),
                        UnidentifiedControlFinding)
  {
    var controls := QuerySelectorAll(doc, FormControlSelector);
    forall e | e in controls
      ensures OfSeverity(FormControlCheckIn(doc)(e), Error)
           == (if IsUnidentified(e) then [UnidentifiedControlFinding(e)] else [])
    {
      if IsUnidentified(e) {
        SingletonSeverity(UnidentifiedControlFinding(e), Error);
      } else if IsUnlabeled(doc, e) {
        SingletonSeverity(UnlabeledControlFinding(e), Error);
      }
    }
    FlatMapSeverity(controls, FormControlCheckIn(doc), Error, IsUnidentified, UnidentifiedControlFinding);
  }

  /** Exactly one warning per control with a non-empty `id` that no label refers to. */
  lemma FormWarnings(doc: Document)
    ensures OfSeverity(FormRule(doc), Warning)
         == MapFindings(FilterElements(QuerySelectorAll(doc, FormControlSelector), UnlabeledIn(doc)),
                        UnlabeledControlFinding)
  {
    var controls := QuerySelectorAll(doc, FormControlSelector);
    forall e | e in controls
      ensures OfSeverity(FormControlCheckIn(doc)(e), Warning)
           == (if UnlabeledIn(doc)(e) then [UnlabeledControlFinding(e)] else [])
    {
      if IsUnidentified(e) {
        SingletonSeverity(UnidentifiedControlFinding(e), Warning);
      } else if IsUnlabeled(doc, e) {
        SingletonSeverity(UnlabeledControlFinding(e), Warning);
      }
    }
    FlatMapSeverity(controls, FormControlCheckIn(doc), Warning, UnlabeledIn(doc), UnlabeledControlFinding);
  }

  /** A control the form rule reports: unidentified, or identified but unlabeled. */
  function FormFlaggedIn(doc: Document): Element -> bool {
    input => IsUnidentified(input) || IsUnlabeled(doc, input)
  }

  /** The one finding of a reported control: the error takes precedence over the warning. */
  function FormFindingOf(input: Element): Finding {
    if IsUnidentified(input) then UnidentifiedControlFinding(input) else UnlabeledControlFinding(input)
  }

  /** The whole form pass, errors and warnings interleaved: one finding per reported
      control, in document order, the error when it has neither `id` nor `name` and the
      missing-label warning otherwise. */
  lemma FormRuleExact(doc: Document)
    ensures FormRule(doc)
         == MapFindings(FilterElements(QuerySelectorAll(doc, FormControlSelector), FormFlaggedIn(doc)),
                        FormFindingOf)
  {
    var controls := QuerySelectorAll(doc, FormControlSelector);
    forall e | e in controls
      ensures FormControlCheckIn(doc)(e) == (if FormFlaggedIn(doc)(e) then [FormFindingOf(e)] else [])
    {
    }
    FlatMapSingle(controls, FormControlCheckIn(doc), FormFlaggedIn(doc), FormFindingOf);
  }

  /** The label lookup finds a `label` whose `for` attribute is exactly the id. */
  lemma HasLabelForIff(doc: Document, id: string)
    ensures HasLabelFor(doc, id) <==>
      exists i :: 0 <= i < |doc| && doc[i].tag == "label" && GetAttribute(doc[i], "for") == Some(id)
  {
    var sel := LabelForSelector(id);
    forall e: Element
      ensures Matches(sel, e) <==> e.tag == "label" && GetAttribute(e, "for") == Some(id)
    {
      if Matches(sel, e) {
        var s :| s in sel && MatchesSimple(s, e);
      }
      if e.tag == "label" && GetAttribute(e, "for") == Some(id) {
        assert MatchesSimple(sel[0], e);
      }
    }
  }

  /** A control yields an error exactly when its `id` and `name` are each absent or the
      empty string: an empty attribute counts as missing. */
  lemma FormErrorIff(doc: Document, input: Element)
    ensures (exists f :: f in FormControlCheck(doc, input) && f.Severity() == Error) <==>
      ("id" !in input.attributes || input.attributes["id"] == "") &&
      ("name" !in input.attributes || input.attributes["name"] == "")
  {
    if IsUnidentified(input) {
      assert UnidentifiedControlFinding(input) in FormControlCheck(doc, input);
    }
  }

  /** A control with only a `name` yields nothing. */
  lemma NameOnlyControlIsSilent(doc: Document, input: Element)
    requires !IsTruthy(GetAttribute(input, "id")) && IsTruthy(GetAttribute(input, "name"))
    ensures FormControlCheck(doc, input) == []
  {
  }

  /** The fixed markup of an unlabeled control repeats its id as `name` when it has none. */
  lemma UnlabeledCodeFallsBackToId(input: Element, id: string)
    requires GetAttribute(input, "id") == Some(id) && id != ""
    requires !IsTruthy(GetAttribute(input, "name"))
    ensures UnlabeledControlFinding(input).code
         == "<label for=\"" + id + "\">Field Label</label>\n<input type=\"" + input.typeProperty
            + "\" id=\"" + id + "\" name=\"" + id + "\">"
  {
  }

  // ----- Rule 3: headings -----

  /** The heading at position `i` is at most one level deeper than the heading before it
      (level 0 before the first heading). */
  predicate NoSkipAt(hs: seq<Element>, i: nat)
    requires AllHeadings(hs) && i < |hs|
  {
    HeadingLevel(hs[i]) <= PrecedingLevel(hs, i) + 1
  }

  lemma PrefixKeepsNoSkip(hs: seq<Element>)
    requires AllHeadings(hs) && hs != []
    ensures AllHeadings(hs[..|hs| - 1])
    ensures forall i :: 0 <= i < |hs| - 1 ==> (NoSkipAt(hs[..|hs| - 1], i) <==> NoSkipAt(hs, i))
  {
  }

  lemma HeadingSilentStep(hs: seq<Element>)
    requires AllHeadings(hs) && hs != []
    ensures AllHeadings(hs[..|hs| - 1])
    ensures HeadingRuleOn(hs) == [] <==> HeadingRuleOn(hs[..|hs| - 1]) == [] && NoSkipAt(hs, |hs| - 1)
  {
  }

  /** The heading pass is silent exactly when no heading skips a level relative to the
      heading just before it. */
  lemma {:induction false} HeadingSilentIff(hs: seq<Element>)
    requires AllHeadings(hs)
    ensures HeadingRuleOn(hs) == [] <==> forall i :: 0 <= i < |hs| ==> NoSkipAt(hs, i)
  {
    if hs != [] {
      var init, n := hs[..|hs| - 1], |hs| - 1;
      PrefixKeepsNoSkip(hs);
      HeadingSilentStep(hs);
      HeadingSilentIff(init);
      if HeadingRuleOn(hs) == [] {
        forall i | 0 <= i < |hs| ensures NoSkipAt(hs, i) {
          if i < n { assert NoSkipAt(init, i); }
        }
      }
      if forall i :: 0 <= i < |hs| ==> NoSkipAt(hs, i) {
        forall i | 0 <= i < |init| ensures NoSkipAt(init, i) {
          assert NoSkipAt(hs, i);
        }
        assert NoSkipAt(hs, n);
      }
    }
  }

  lemma {:induction false} HeadingWarningsOnly(hs: seq<Element>)
    requires AllHeadings(hs)
    ensures forall i :: 0 <= i < |HeadingRuleOn(hs)| ==> HeadingRuleOn(hs)[i].Severity() == Warning
  {
    if hs != [] {
      HeadingWarningsOnly(hs[..|hs| - 1]);
    }
  }

  /** Every finding of the heading pass is a warning, and there are no more findings than
      headings (one per skipping heading: `HeadingRuleAtSkips`). */
  lemma {:induction false} HeadingFindingsAreWarnings(hs: seq<Element>)
    requires AllHeadings(hs)
    ensures |HeadingRuleOn(hs)| <= |hs|
    ensures OfSeverity(HeadingRuleOn(hs), Warning) == HeadingRuleOn(hs)
  {
    if hs != [] {
      HeadingFindingsAreWarnings(hs[..|hs| - 1]);
    }
    HeadingWarningsOnly(hs);
    OfSeverityAll(HeadingRuleOn(hs), Warning);
  }

  /** The positions, in increasing order, of the headings that skip a level. */
  function SkipPositions(hs: seq<Element>): (r: seq<nat>)
    requires AllHeadings(hs)
    ensures forall k :: 0 <= k < |r| ==> r[k] < |hs| && !NoSkipAt(hs, r[k])
    ensures forall j, k :: 0 <= j < k < |r| ==> r[j] < r[k]
    ensures forall i :: 0 <= i < |hs| && !NoSkipAt(hs, i) ==> i in r
  {
    if hs == [] then []
    else
      PrefixKeepsNoSkip(hs);
      SkipPositions(hs[..|hs| - 1]) + (if NoSkipAt(hs, |hs| - 1) then [] else [|hs| - 1])
  }

  /** The warning the heading pass raises for the heading at position `p`. */
  function SkipFinding(hs: seq<Element>, p: nat): Finding
    requires AllHeadings(hs) && p < |hs|
  {
    SkippedHeadingFinding(PrecedingLevel(hs, p), HeadingLevel(hs[p]), hs[p])
  }

  lemma PrefixKeepsSkipFinding(hs: seq<Element>)
    requires AllHeadings(hs) && hs != []
    ensures AllHeadings(hs[..|hs| - 1])
    ensures forall p :: 0 <= p < |hs| - 1 ==> SkipFinding(hs[..|hs| - 1], p) == SkipFinding(hs, p)
  {
  }

  /** The heading pass raises exactly one warning per heading that skips a level, in
      document order, and the k-th warning names the k-th such heading together with its
      own level and the level of the heading just before it. */
  lemma {:induction false} HeadingRuleAtSkips(hs: seq<Element>)
    requires AllHeadings(hs)
    ensures |HeadingRuleOn(hs)| == |SkipPositions(hs)|
    ensures forall k :: 0 <= k < |SkipPositions(hs)| ==>
      HeadingRuleOn(hs)[k] == SkipFinding(hs, SkipPositions(hs)[k])
  {
    if hs != [] {
      var init, n := hs[..|hs| - 1], |hs| - 1;
      PrefixKeepsNoSkip(hs);
      PrefixKeepsSkipFinding(hs);
      HeadingRuleAtSkips(init);
      var before, ps := HeadingRuleOn(init), SkipPositions(init);
      assert HeadingRuleOn(hs) == before + HeadingCheck(PrecedingLevel(hs, n), hs[n]);
      if NoSkipAt(hs, n) {
        assert HeadingCheck(PrecedingLevel(hs, n), hs[n]) == [];
        assert SkipPositions(hs) == ps;
      } else {
        assert HeadingCheck(PrecedingLevel(hs, n), hs[n]) == [SkipFinding(hs, n)];
        assert SkipPositions(hs) == ps + [n];
      }
      forall k | 0 <= k < |ps| ensures HeadingRuleOn(hs)[k] == SkipFinding(hs, SkipPositions(hs)[k]) {
        assert HeadingRuleOn(hs)[k] == before[k];
        assert SkipPositions(hs)[k] == ps[k];
      }
    }
  }

  /** A heading whose tag is `h` followed by the digit `n` has level `n`. */
  lemma HeadingLevelOf(h: Element, n: nat)
    requires 1 <= n <= 6 && h.tag == "h" + Text.NatToString(n)
    ensures IsHeading(h) && HeadingLevel(h) == n
  {
    assert Text.NatToString(n) == [Text.DigitChar(n)];
    if n == 1 { assert h.tag == "h1"; }
    else if n == 2 { assert h.tag == "h2"; }
    else if n == 3 { assert h.tag == "h3"; }
    else if n == 4 { assert h.tag == "h4"; }
    else if n == 5 { assert h.tag == "h5"; }
    else { assert h.tag == "h6"; }
    Text.NatToStringInjective(HeadingLevel(h), n);
  }

  /** h1, h2, h4: one warning, stating the jump from h2 to h4. */
  lemma HeadingExampleSkipToFour(h1: Element, h2: Element, h4: Element)
    requires h1.tag == "h1" && h2.tag == "h2" && h4.tag == "h4"
    ensures AllHeadings([h1, h2, h4])
    ensures HeadingRuleOn([h1, h2, h4]) == [SkippedHeadingFinding(2, 4, h4)]
  {
    HeadingLevelOf(h1, 1);
    HeadingLevelOf(h2, 2);
    HeadingLevelOf(h4, 4);
    var hs := [h1, h2, h4];
    assert [h1][..0] == [];
    assert HeadingRuleOn([h1]) == [];
    assert [h1, h2][..1] == [h1];
    assert HeadingRuleOn([h1, h2]) == [];
    assert hs[..2] == [h1, h2];
    assert HeadingRuleOn(hs) == HeadingCheck(2, h4);
  }

  /** h1, h3, h5: each jump is measured from the heading just before, so two warnings. */
  lemma HeadingExampleTwoJumps(h1: Element, h3: Element, h5: Element)
    requires h1.tag == "h1" && h3.tag == "h3" && h5.tag == "h5"
    ensures AllHeadings([h1, h3, h5])
    ensures HeadingRuleOn([h1, h3, h5]) == [SkippedHeadingFinding(1, 3, h3), SkippedHeadingFinding(3, 5, h5)]
  {
    HeadingLevelOf(h1, 1);
    HeadingLevelOf(h3, 3);
    HeadingLevelOf(h5, 5);
    var hs := [h1, h3, h5];
    assert [h1][..0] == [];
    assert HeadingRuleOn([h1]) == [];
    assert [h1, h3][..1] == [h1];
    assert HeadingRuleOn([h1, h3]) == [SkippedHeadingFinding(1, 3, h3)];
    assert hs[..2] == [h1, h3];
  }

  /** A document whose first heading is h2 warns of a jump from h0. */
  lemma HeadingExampleFirstIsDeep(h: Element)
    requires h.tag == "h2"
    ensures AllHeadings([h])
    ensures HeadingRuleOn([h]) == [SkippedHeadingFinding(0, 2, h)]
  {
    HeadingLevelOf(h, 2);
    assert [h][..0] == [];
  }

  // ----- Rule 4: button text -----

  /** A pass whose per-element check is "one finding when `p` holds" yields one finding
      per element satisfying `p`, in document order. */
  lemma {:induction false} FlatMapSingle(s: seq<Element>, check: Element -> seq<Finding>,
                                         p: Element -> bool, build: Element -> Finding)
    requires forall e :: e in s ==> check(e) == (if p(e) then [build(e)] else [])
    ensures FlatMap(s, check) == MapFindings(FilterElements(s, p), build)
  {
    if s != [] {
      var init, last := s[..|s| - 1], s[|s| - 1];
      assert forall e :: e in init ==> e in s;
      FlatMapSingle(init, check, p, build);
      if p(last) {
        MapFindingsSnoc(FilterElements(init, p), last, build);
      }
    }
  }

  /** Findings built by a constructor of one fixed severity all have that severity. */
  lemma MapFindingsUniform(s: seq<Element>, build: Element -> Finding, sev: Severity)
    requires forall e: Element :: build(e).Severity() == sev
    ensures OfSeverity(MapFindings(s, build), sev) == MapFindings(s, build)
  {
    OfSeverityAll(MapFindings(s, build), sev);
  }

  /** One warning per button whose trimmed, lower-cased text is on the denylist, in
      document order, and nothing else. */
  lemma ButtonFindings(doc: Document)
    ensures ButtonRule(doc)
         == MapFindings(FilterElements(QuerySelectorAll(doc, ButtonSelector), IsNonDescriptive),
                        NonDescriptiveButtonFinding)
    ensures OfSeverity(ButtonRule(doc), Warning) == ButtonRule(doc)
  {
    var buttons := QuerySelectorAll(doc, ButtonSelector);
    forall e | e in buttons
      ensures ButtonCheck(e) == (if IsNonDescriptive(e) then [NonDescriptiveButtonFinding(e)] else [])
    {
    }
    forall e: Element ensures NonDescriptiveButtonFinding(e).Severity() == Warning {
    }
    FlatMapSingle(buttons, ButtonCheck, IsNonDescriptive, NonDescriptiveButtonFinding);
    MapFindingsUniform(FilterElements(buttons, IsNonDescriptive), NonDescriptiveButtonFinding, Warning);
  }

  /** Every denylisted phrase has its own canned label, so the rule never falls back to
      "Perform action". */
  lemma DenylistHasSuggestions()
    ensures forall t :: t in NonDescriptiveTexts ==> t in ButtonSuggestions
    ensures forall t :: t in NonDescriptiveTexts ==> GetBetterButtonText(t) != FallbackButtonText
  {
  }

  lemma TrimKeepsUnpadded(s: string)
    requires s != [] && !Text.IsWhitespace(s[0]) && !Text.IsWhitespace(s[|s| - 1])
    ensures Text.Trim(s) == s
  {
  }

  /** No denylisted phrase is longer than ten characters. */
  lemma DenylistIsShort()
    ensures forall t :: t in NonDescriptiveTexts ==> |t| <= 10
  {
  }

  /** A text that is longer than every denylisted phrase once trimmed is not flagged. */
  lemma LongCaptionIsDescriptive(caption: string)
    requires |Text.Trim(caption)| > 10
    ensures Text.ToLower(Text.Trim(caption)) !in NonDescriptiveTexts
  {
    DenylistIsShort();
  }

  /** Every canned label is longer than ten characters and has no whitespace at either end. */
  lemma SuggestionShape(t: string)
    requires t in NonDescriptiveTexts
    ensures var caption := GetBetterButtonText(t);
      |caption| > 10 && !Text.IsWhitespace(caption[0]) && !Text.IsWhitespace(caption[|caption| - 1])
  {
    if t == "click here" {
      assert GetBetterButtonText(t) == "Learn more about our services";
    } else if t == "click" {
      assert GetBetterButtonText(t) == "View details";
    } else if t == "submit" {
      assert GetBetterButtonText(t) == "Send message";
    } else if t == "button" {
      assert GetBetterButtonText(t) == "Continue to next step";
    } else if t == "ok" {
      assert GetBetterButtonText(t) == "Confirm selection";
    } else if t == "yes" {
      assert GetBetterButtonText(t) == "Confirm action";
    } else {
      assert GetBetterButtonText(t) == "Cancel action";
    }
  }

  /** Taking the suggested label as the button's text clears the warning: no suggestion
      is itself on the denylist. */
  lemma SuggestionIsDescriptive(button: Element, fixed: Element)
    requires IsNonDescriptive(button)
    requires fixed.textContent == GetBetterButtonText(ButtonText(button))
    ensures ButtonCheck(fixed) == []
  {
    SuggestionShape(ButtonText(button));
    TrimKeepsUnpadded(fixed.textContent);
    LongCaptionIsDescriptive(fixed.textContent);
  }

  /** `<button>Click here</button>` is flagged, and the fix relabels it "Learn more about
      our services": the test ignores case. */
  lemma ButtonExampleClickHere(b: Element)
    requires b.textContent == "Click here"
    ensures ButtonCheck(b) == [NonDescriptiveButtonFinding(b)]
    ensures NonDescriptiveButtonFinding(b).code == "<button>Learn more about our services</button>"
  {
    ClickHereFlagged(b);
    ClickHereCode(b);
  }

  lemma ClickHereFlagged(b: Element)
    requires b.textContent == "Click here"
    ensures IsNonDescriptive(b)
  {
    ClickHereText(b);
    ClickHereListed();
  }

  lemma ClickHereListed()
    ensures "click here" in NonDescriptiveTexts
  {
    assert NonDescriptiveTexts[0] == "click here";
  }

  lemma ClickHereCode(b: Element)
    requires b.textContent == "Click here"
    ensures NonDescriptiveButtonFinding(b).code == "<button>Learn more about our services</button>"
  {
    ClickHereText(b);
    ClickHereSuggestion();
    ButtonMarkup("Learn more about our services");
  }

  lemma ButtonMarkup(caption: string)
    requires caption == "Learn more about our services"
    ensures "<button>" + caption + "</button>" == "<button>Learn more about our services</button>"
  {
  }

  lemma ClickHereSuggestion()
    ensures GetBetterButtonText("click here") == "Learn more about our services"
  {
  }

  lemma ClickHereText(b: Element)
    requires b.textContent == "Click here"
    ensures ButtonText(b) == "click here"
  {
    TrimKeepsUnpadded(b.textContent);
    LowerClickHere();
  }

  lemma LowerClickHere()
    ensures Text.ToLower("Click here") == "click here"
  {
    var r := Text.ToLower("Click here");
    assert r[0] == 'c';
    assert r[1..] == "lick here";
  }

  /** Padding does not hide a denylisted phrase: `<button> click here </button>` is
      flagged like `<button>click here</button>`. */
  lemma PaddedClickHereFlagged(b: Element)
    requires b.textContent == " click here "
    ensures IsNonDescriptive(b)
    ensures ButtonCheck(b) == [NonDescriptiveButtonFinding(b)]
  {
    PaddedClickHereText(b);
    ClickHereListed();
  }

  lemma PaddedClickHereText(b: Element)
    requires b.textContent == " click here "
    ensures ButtonText(b) == "click here"
  {
    PaddedClickHereTrim();
    LowerLowerClickHere();
  }

  lemma PaddedClickHereTrim()
    ensures Text.Trim(" click here ") == "click here"
  {
    var t := " click here ";
    assert !Text.IsWhitespace(t[1]);
    assert Text.TrimStart(t[1..]) == t[1..];
    var u := t[1..];
    assert !Text.IsWhitespace(u[|u| - 2]);
    assert Text.TrimEnd(u[..|u| - 1]) == u[..|u| - 1];
    assert u[..|u| - 1] == "click here";
  }

  lemma LowerLowerClickHere()
    ensures Text.ToLower("click here") == "click here"
  {
    var s := "click here";
    forall i | 0 <= i < |s|
      ensures !Text.IsAsciiUpper(s[i])
    {
    }
  }

  // ----- Rule 5: accessible names -----

  /** One info finding per button, link or form control that needs an accessible name,
      in document order, and nothing else. */
  lemma AriaFindings(doc: Document)
    ensures AriaRule(doc)
         == MapFindings(FilterElements(QuerySelectorAll(doc, InteractiveSelector), NeedsAria), MissingAriaFinding)
    ensures OfSeverity(AriaRule(doc), Info) == AriaRule(doc)
  {
    var elements := QuerySelectorAll(doc, InteractiveSelector);
    forall e | e in elements
      ensures AriaCheck(e) == (if NeedsAria(e) then [MissingAriaFinding(e)] else [])
    {
    }
    forall e: Element ensures MissingAriaFinding(e).Severity() == Info {
    }
    FlatMapSingle(elements, AriaCheck, NeedsAria, MissingAriaFinding);
    MapFindingsUniform(FilterElements(elements, NeedsAria), MissingAriaFinding, Info);
  }

  /** An element is reported exactly when it has neither `aria-label` nor
      `aria-labelledby` (whatever their values), its text is all whitespace, and its
      `placeholder` and `title` are each absent or empty. */
  lemma AriaFindingIff(e: Element)
    ensures AriaCheck(e) != [] <==>
      && "aria-label" !in e.attributes && "aria-labelledby" !in e.attributes
      && (forall k :: 0 <= k < |e.textContent| ==> Text.IsWhitespace(e.textContent[k]))
      && ("placeholder" !in e.attributes || e.attributes["placeholder"] == "")
      && ("title" !in e.attributes || e.attributes["title"] == "")
  {
    Text.TrimEmptyIff(e.textContent);
  }

  // ----- Rule 6: inline colour styles -----

  lemma ColorSelectorMatches(e: Element)
    ensures Matches(ColorSelector, e) <==> HasColorStyle(e)
  {
    if HasColorStyle(e) {
      if Text.Contains(e.attributes["style"], "color") {
        assert MatchesSimple(ColorSelector[0], e);
      } else {
        assert MatchesSimple(ColorSelector[1], e);
      }
    }
  }

  /** The selector list counts each element with a colour style once. */
  lemma {:induction false} ColorCount(doc: Document)
    ensures |QuerySelectorAll(doc, ColorSelector)| == CountWhere(doc, HasColorStyle)
  {
    if doc != [] {
      ColorSelectorMatches(doc[0]);
      ColorCount(doc[1..]);
    }
  }

  lemma {:induction false} CountWherePositive(doc: Document, p: Element -> bool)
    ensures CountWhere(doc, p) > 0 <==> exists i :: 0 <= i < |doc| && p(doc[i])
  {
    if doc != [] {
      CountWherePositive(doc[1..], p);
      if exists i :: 0 <= i < |doc| && p(doc[i]) {
        var i :| 0 <= i < |doc| && p(doc[i]);
        if i > 0 {
          assert p(doc[1..][i - 1]);
        }
      }
      if exists i :: 0 <= i < |doc[1..]| && p(doc[1..][i]) {
        var i :| 0 <= i < |doc[1..]| && p(doc[1..][i]);
        assert p(doc[i + 1]);
      }
    }
  }

  /** At most one colour finding, an info one, present exactly when some element's style
      mentions a colour, and carrying the number of such elements. */
  lemma ColorRuleSpec(doc: Document)
    ensures |ColorRule(doc)| <= 1
    ensures ColorRule(doc) != [] <==> exists i :: 0 <= i < |doc| && HasColorStyle(doc[i])
    ensures ColorRule(doc) != [] ==> ColorRule(doc) == [ColorFinding(CountWhere(doc, HasColorStyle))]
    ensures OfSeverity(ColorRule(doc), Info) == ColorRule(doc)
  {
    ColorCount(doc);
    CountWherePositive(doc, HasColorStyle);
    OfSeverityAll(ColorRule(doc), Info);
  }

  /** A style mentioning both words, such as `background-color: red`, is counted once. */
  lemma ColorExampleCountedOnce(e: Element)
    requires e.attributes == map["style" := "background-color: red"]
    ensures ColorRule([e]) == [ColorFinding(1)]
  {
    var style := e.attributes["style"];
    assert Text.OccursAt(style, "color", 11) by {
      assert style[11..16] == "color";
    }
    Text.ContainsIff(style, "color");
    ColorRuleSpec([e]);
    assert [e][1..] == [];
  }

  // ----- The whole analysis -----

  /** A list made of findings of one severity has none of any other. */
  lemma OnlySeverity(r: seq<Finding>, sev: Severity, other: Severity)
    requires OfSeverity(r, sev) == r && other != sev
    ensures OfSeverity(r, other) == []
  {
    assert forall i :: 0 <= i < |r| ==> r[i].Severity() == sev by {
      assert forall i :: 0 <= i < |OfSeverity(r, sev)| ==> OfSeverity(r, sev)[i].Severity() == sev;
    }
    OfSeverityNone(r, other);
  }

  lemma OfSeveritySix(a: seq<Finding>, b: seq<Finding>, c: seq<Finding>, d: seq<Finding>,
                      e: seq<Finding>, f: seq<Finding>, sev: Severity)
    ensures OfSeverity(a + b + c + d + e + f, sev)
         == OfSeverity(a, sev) + OfSeverity(b, sev) + OfSeverity(c, sev)
            + OfSeverity(d, sev) + OfSeverity(e, sev) + OfSeverity(f, sev)
  {
    OfSeverityAppend(a, b, sev);
    OfSeverityAppend(a + b, c, sev);
    OfSeverityAppend(a + b + c, d, sev);
    OfSeverityAppend(a + b + c + d, e, sev);
    OfSeverityAppend(a + b + c + d + e, f, sev);
  }

  /** Filtering the six rule outputs by a severity that only the first two produce. */
  lemma OfSeverityFirstTwo(a: seq<Finding>, b: seq<Finding>, c: seq<Finding>, d: seq<Finding>,
                           e: seq<Finding>, f: seq<Finding>, sev: Severity)
    requires OfSeverity(c, sev) == [] && OfSeverity(d, sev) == []
    requires OfSeverity(e, sev) == [] && OfSeverity(f, sev) == []
    ensures OfSeverity(a + b + c + d + e + f, sev) == OfSeverity(a, sev) + OfSeverity(b, sev)
  {
    OfSeveritySix(a, b, c, d, e, f, sev);
  }

  /** Filtering the six rule outputs by a severity that only the first four produce. */
  lemma OfSeverityFirstFour(a: seq<Finding>, b: seq<Finding>, c: seq<Finding>, d: seq<Finding>,
                            e: seq<Finding>, f: seq<Finding>, sev: Severity)
    requires OfSeverity(e, sev) == [] && OfSeverity(f, sev) == []
    ensures OfSeverity(a + b + c + d + e + f, sev)
         == OfSeverity(a, sev) + OfSeverity(b, sev) + OfSeverity(c, sev) + OfSeverity(d, sev)
  {
    OfSeveritySix(a, b, c, d, e, f, sev);
  }

  /** Filtering the six rule outputs by a severity that only the last two produce. */
  lemma OfSeverityLastTwo(a: seq<Finding>, b: seq<Finding>, c: seq<Finding>, d: seq<Finding>,
                          e: seq<Finding>, f: seq<Finding>, sev: Severity)
    requires OfSeverity(a, sev) == [] && OfSeverity(b, sev) == []
    requires OfSeverity(c, sev) == [] && OfSeverity(d, sev) == []
    ensures OfSeverity(a + b + c + d + e + f, sev) == OfSeverity(e, sev) + OfSeverity(f, sev)
  {
    OfSeveritySix(a, b, c, d, e, f, sev);
    assert OfSeverity(a + b + c + d + e + f, sev) == [] + [] + [] + [] + OfSeverity(e, sev) + OfSeverity(f, sev);
  }

  /** Rule 1 reports no info findings. */
  lemma ImageHasNoInfo(doc: Document)
    ensures OfSeverity(ImageRule(doc), Info) == []
  {
    var images := QuerySelectorAll(doc, ImageSelector);
    forall e | e in images ensures OfSeverity(ImageCheck(e), Info) == [] {
      if LacksAlt(e) {
        SingletonSeverity(MissingAltFinding(e), Info);
      } else if HasBlankAlt(e) {
        SingletonSeverity(EmptyAltFinding(e), Info);
      }
    }
    FlatMapNoSeverity(images, ImageCheck, Info);
  }

  /** Rule 2 reports no info findings. */
  lemma FormHasNoInfo(doc: Document)
    ensures OfSeverity(FormRule(doc), Info) == []
  {
    var controls := QuerySelectorAll(doc, FormControlSelector);
    forall e | e in controls ensures OfSeverity(FormControlCheckIn(doc)(e), Info) == [] {
      if IsUnidentified(e) {
        SingletonSeverity(UnidentifiedControlFinding(e), Info);
      } else if IsUnlabeled(doc, e) {
        SingletonSeverity(UnlabeledControlFinding(e), Info);
      }
    }
    FlatMapNoSeverity(controls, FormControlCheckIn(doc), Info);
  }

  /** Rules 3 and 4 report only warnings; rules 5 and 6 only info findings. */
  lemma LaterRulesSeverities(doc: Document)
    ensures OfSeverity(HeadingRule(doc), Warning) == HeadingRule(doc)
    ensures OfSeverity(HeadingRule(doc), Error) == [] && OfSeverity(HeadingRule(doc), Info) == []
    ensures OfSeverity(ButtonRule(doc), Error) == [] && OfSeverity(ButtonRule(doc), Info) == []
    ensures OfSeverity(AriaRule(doc), Error) == [] && OfSeverity(AriaRule(doc), Warning) == []
    ensures OfSeverity(ColorRule(doc), Error) == [] && OfSeverity(ColorRule(doc), Warning) == []
  {
    HeadingQueryGivesHeadings(doc);
    HeadingFindingsAreWarnings(QuerySelectorAll(doc, HeadingSelector));
    OnlySeverity(HeadingRule(doc), Warning, Error);
    OnlySeverity(HeadingRule(doc), Warning, Info);
    ButtonFindings(doc);
    OnlySeverity(ButtonRule(doc), Warning, Error);
    OnlySeverity(ButtonRule(doc), Warning, Info);
    AriaFindings(doc);
    OnlySeverity(AriaRule(doc), Info, Error);
    OnlySeverity(AriaRule(doc), Info, Warning);
    ColorRuleSpec(doc);
    OnlySeverity(ColorRule(doc), Info, Error);
    OnlySeverity(ColorRule(doc), Info, Warning);
  }

  /** The errors of a run: the images without `alt`, then the controls without `id` or
      `name`, each in document order. */
  lemma AnalyzeErrors(doc: Document)
    ensures OfSeverity(Analyze(doc), Error)
         == MapFindings(FilterElements(QuerySelectorAll(doc, ImageSelector), LacksAlt), MissingAltFinding)
          + MapFindings(FilterElements(QuerySelectorAll(doc, FormControlSelector), IsUnidentified),
                        UnidentifiedControlFinding)
    ensures ReportSummary(Analyze(doc)).errors
         == |FilterElements(QuerySelectorAll(doc, ImageSelector), LacksAlt)|
          + |FilterElements(QuerySelectorAll(doc, FormControlSelector), IsUnidentified)|
  {
    LaterRulesSeverities(doc);
    OfSeverityFirstTwo(ImageRule(doc), FormRule(doc), HeadingRule(doc), ButtonRule(doc), AriaRule(doc), ColorRule(doc), Error);
    ImageErrors(doc);
    FormErrors(doc);
  }

  /** The warnings of a run: blank `alt` texts, unlabeled controls, skipped heading
      levels, then vague button texts. */
  lemma AnalyzeWarnings(doc: Document)
    ensures OfSeverity(Analyze(doc), Warning)
         == MapFindings(FilterElements(QuerySelectorAll(doc, ImageSelector), HasBlankAlt), EmptyAltFinding)
          + MapFindings(FilterElements(QuerySelectorAll(doc, FormControlSelector), UnlabeledIn(doc)),
                        UnlabeledControlFinding)
          + HeadingRule(doc) + ButtonRule(doc)
  {
    LaterRulesSeverities(doc);
    ButtonFindings(doc);
    OfSeverityFirstFour(ImageRule(doc), FormRule(doc), HeadingRule(doc), ButtonRule(doc), AriaRule(doc), ColorRule(doc), Warning);
    ImageWarnings(doc);
    FormWarnings(doc);
  }

  /** The info findings of a run: the elements that need an accessible name, then the
      single colour finding if any. */
  lemma AnalyzeInfo(doc: Document)
    ensures OfSeverity(Analyze(doc), Info) == AriaRule(doc) + ColorRule(doc)
  {
    ImageHasNoInfo(doc);
    FormHasNoInfo(doc);
    LaterRulesSeverities(doc);
    AriaFindings(doc);
    ColorRuleSpec(doc);
    OfSeverityLastTwo(ImageRule(doc), FormRule(doc), HeadingRule(doc), ButtonRule(doc), AriaRule(doc), ColorRule(doc), Info);
  }

  /** The image, button and accessible-name rules look at one element at a time: on a
      document split in two they report the first part's findings, then the second's. */
  lemma LocalRulesCompose(d1: Document, d2: Document)
    ensures ImageRule(d1 + d2) == ImageRule(d1) + ImageRule(d2)
    ensures ButtonRule(d1 + d2) == ButtonRule(d1) + ButtonRule(d2)
    ensures AriaRule(d1 + d2) == AriaRule(d1) + AriaRule(d2)
  {
    QueryAllAppend(d1, d2, ImageSelector);
    FlatMapAppend(QuerySelectorAll(d1, ImageSelector), QuerySelectorAll(d2, ImageSelector), ImageCheck);
    QueryAllAppend(d1, d2, ButtonSelector);
    FlatMapAppend(QuerySelectorAll(d1, ButtonSelector), QuerySelectorAll(d2, ButtonSelector), ButtonCheck);
    QueryAllAppend(d1, d2, InteractiveSelector);
    FlatMapAppend(QuerySelectorAll(d1, InteractiveSelector), QuerySelectorAll(d2, InteractiveSelector), AriaCheck);
  }
}
