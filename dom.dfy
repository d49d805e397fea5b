/**
 * The parsed document as the rule engine sees it: a sequence of elements in document
 * (pre-order) order, and the read-only query operations the engine calls on it
 * (`getAttribute`, `hasAttribute`, `querySelectorAll`, `querySelector`).
 * Parsing itself is not part of this model; the document is given.
 */
module Dom {
  import opened Wrappers
  import Text

  /** One element of the parsed document. `textContent` is the untrimmed concatenated
      descendant text; `outerHtml` and `innerHtml` are the serialisations the browser
      produces; `src` is an image's resolved `src` property and `typeProperty` a form
      control's `type` property, both computed by the browser and taken as given. */
  datatype Element = Element(
    tag: string,
    attributes: map<string, string>,
    textContent: string,
    outerHtml: string,
    innerHtml: string,
    src: string,
    typeProperty: string)

  /** All elements of a document, in document order. */
  type Document = seq<Element>

  /** `e.hasAttribute(name)`. */
  predicate HasAttribute(e: Element, name: string) {
    name in e.attributes
  }

  /** `e.getAttribute(name)`: the raw value, or `null` (None) when absent. */
  function GetAttribute(e: Element, name: string): (r: Option<string>)
    ensures r.Some? <==> HasAttribute(e, name)
    ensures r.Some? ==> r.value == e.attributes[name]
  {
    if name in e.attributes then Some(e.attributes[name]) else None
  }

  /** JavaScript truthiness of an attribute lookup: `null` and `""` are both falsy. */
  predicate IsTruthy(v: Option<string>) {
    v.Some? && v.value != ""
  }

  /** `v || fallback` for an attribute lookup. */
  function OrElse(v: Option<string>, fallback: string): string {
    if IsTruthy(v) then v.value else fallback
  }

  /** `img.alt`: the reflected `alt` property, which reads as "" when the attribute is absent. */
  function AltProperty(img: Element): (alt: string)
    ensures HasAttribute(img, "alt") ==> alt == img.attributes["alt"]
    ensures !HasAttribute(img, "alt") ==> alt == ""
  {
    OrElse(GetAttribute(img, "alt"), "")
  }

  /** The simple selectors the engine uses. */
  datatype SimpleSelector =
    | TypeSelector(tagName: string)                                // img
    | AttributeEquals(tagName: string, attr: string, value: string)   // label[for="x"]
    | AttributeContains(attr: string, needle: string)              // [style*="color"]

  /** A comma-separated selector list: an element matches when any member matches. */
  type SelectorList = seq<SimpleSelector>

  predicate MatchesSimple(s: SimpleSelector, e: Element) {
    match s
    case TypeSelector(t) => e.tag == t
    case AttributeEquals(t, a, v) => e.tag == t && a in e.attributes && e.attributes[a] == v
    // an empty needle matches nothing (CSS Selectors Level 4, section 6.2)
    case AttributeContains(a, v) => a in e.attributes && v != "" && Text.Contains(e.attributes[a], v)
  }

  predicate Matches(sel: SelectorList, e: Element) {
    exists s :: s in sel && MatchesSimple(s, e)
  }

  /** `doc.querySelectorAll(sel)`: every matching element once, in document order,
      whichever member of the list it matches. */
  function QuerySelectorAll(doc: Document, sel: SelectorList): (r: seq<Element>)
    ensures |r| <= |doc|
    ensures forall i :: 0 <= i < |r| ==> Matches(sel, r[i])
  {
    if doc == [] then []
    else (if Matches(sel, doc[0]) then [doc[0]] else []) + QuerySelectorAll(doc[1..], sel)
  }

  /** The result holds exactly the matching elements of the document. */
  lemma {:induction false} QueryAllMembers(doc: Document, sel: SelectorList, e: Element)
    ensures e in QuerySelectorAll(doc, sel) <==> e in doc && Matches(sel, e)
  {
    if doc != [] {
      QueryAllMembers(doc[1..], sel, e);
      assert doc == [doc[0]] + doc[1..];
    }
  }

  /** Querying a document split in two gives the results of the first part followed by
      those of the second: results keep document order. */
  lemma {:induction false} QueryAllAppend(d1: Document, d2: Document, sel: SelectorList)
    ensures QuerySelectorAll(d1 + d2, sel) == QuerySelectorAll(d1, sel) + QuerySelectorAll(d2, sel)
  {
    if d1 == [] {
      assert d1 + d2 == d2;
    } else {
      assert (d1 + d2)[0] == d1[0];
      assert (d1 + d2)[1..] == d1[1..] + d2;
      QueryAllAppend(d1[1..], d2, sel);
    }
  }

  /** Number of elements of `doc` satisfying `p`, counting positions. */
  function CountWhere(doc: Document, p: Element -> bool): nat {
    if doc == [] then 0 else (if p(doc[0]) then 1 else 0) + CountWhere(doc[1..], p)
  }

  /** Each element is counted once by a two-member selector list: the size of the union
      is the sum of the two sizes less the elements matching both. */
  lemma {:induction false} QueryAllUnionCount(doc: Document, a: SimpleSelector, b: SimpleSelector)
    ensures |QuerySelectorAll(doc, [a, b])| + CountWhere(doc, e => MatchesSimple(a, e) && MatchesSimple(b, e))
         == |QuerySelectorAll(doc, [a])| + |QuerySelectorAll(doc, [b])|
  {
    if doc != [] {
      QueryAllUnionCount(doc[1..], a, b);
      assert Matches([a, b], doc[0]) <==> MatchesSimple(a, doc[0]) || MatchesSimple(b, doc[0]);
      assert Matches([a], doc[0]) <==> MatchesSimple(a, doc[0]);
      assert Matches([b], doc[0]) <==> MatchesSimple(b, doc[0]);
    }
  }

  /** `doc.querySelector(sel)`: the first matching element, or `null` (None). */
  function QuerySelector(doc: Document, sel: SelectorList): (r: Option<Element>)
    ensures r.Some? <==> exists i :: 0 <= i < |doc| && Matches(sel, doc[i])
    ensures r.Some? ==> Matches(sel, r.value)
    ensures r.Some? ==> exists i :: 0 <= i < |doc| && doc[i] == r.value &&
                          forall j :: 0 <= j < i ==> !Matches(sel, doc[j])
  {
    if doc == [] then None
    else if Matches(sel, doc[0]) then Some(doc[0])
    else
      var r := QuerySelector(doc[1..], sel);
      assert forall i :: 1 <= i < |doc| ==> doc[i] == doc[1..][i - 1];
      r
  }
}
