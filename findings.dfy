/**
 * The finding record every rule appends, and the severity partition computed over a list of
 * findings, as the results view and the downloadable report summary compute it.
 */
module Findings {
  import Text

  /** The `type` field of a finding: 'error', 'warning' or 'info'. */
  datatype Severity = Error | Warning | Info

  /** The string the finding's `type` field holds. */
  function SeverityName(s: Severity): (name: string)
    ensures name in ["error", "warning", "info"]
  {
    match s
    case Error => "error"
    case Warning => "warning"
    case Info => "info"
  }

  /** `SeverityName` is one-to-one, so filtering on the string and on the value agree. */
  lemma SeverityNameInjective(a: Severity, b: Severity)
    ensures SeverityName(a) == SeverityName(b) <==> a == b
  {
  }

  /** The defect classes the rules report. Each rule pushes findings of one or two
      classes; the heading class carries the two levels its description mentions. */
  datatype Kind =
    | MissingAlt
    | EmptyAlt
    | UnidentifiedControl
    | UnlabeledControl
    | SkippedHeading(previousLevel: nat, currentLevel: nat)
    | NonDescriptiveButton
    | MissingAria
    | ColorContrast

  /** `{type, title, description, element, suggestion, code}`: `element` and `code` are
      built from the offending element; `type`, `title`, `description` and `suggestion`
      are fixed by the defect class and are the member functions below. */
  datatype Finding = Finding(kind: Kind, element: string, code: string) {

    /** The `type` field. */
    function Severity(): Severity {
      match kind
      case MissingAlt | UnidentifiedControl => Error
      case EmptyAlt | UnlabeledControl | SkippedHeading(_, _) | NonDescriptiveButton => Warning
      case MissingAria | ColorContrast => Info
    }

    function Title(): string {
      match kind
      case MissingAlt => "Missing alt attribute on image"
      case EmptyAlt => "Empty alt attribute on image"
      case UnidentifiedControl => "Form input missing id and name attributes"
      case UnlabeledControl => "Form input missing associated label"
      case SkippedHeading(_, _) => "Skipped heading level"
      case NonDescriptiveButton => "Non-descriptive button text"
      case MissingAria => "Interactive element may need ARIA attributes"
      case ColorContrast => "Color contrast check needed"
    }

    function Description(): string {
      match kind
      case MissingAlt => "Images without alt text are not accessible to screen readers."
      case EmptyAlt =>
        "Empty alt attributes may indicate decorative images that should be hidden from screen readers."
      case UnidentifiedControl =>
        "Form inputs should have unique identifiers for proper labeling and accessibility."
      case UnlabeledControl => "Form inputs should have associated labels for better accessibility."
      case SkippedHeading(previous, current) =>
        "Heading hierarchy jumps from h" + Text.NatToString(previous) + " to h"
          + Text.NatToString(current) + ", which can confuse screen reader users."
      case NonDescriptiveButton => "Button text should clearly describe the action it performs."
      case MissingAria =>
        "Interactive elements without visible text may need ARIA attributes for screen readers."
      case ColorContrast =>
        "Elements with inline color styles should be checked for sufficient color contrast."
    }

    function Suggestion(): string {
      match kind
      case MissingAlt => "Add a descriptive alt attribute to the image."
      case EmptyAlt => "Either add descriptive alt text or use alt=\"\" for decorative images."
      case UnidentifiedControl => "Add both id and name attributes to the input element."
      case UnlabeledControl => "Add a label element with the for attribute matching the input id."
      case SkippedHeading(_, _) => "Use heading levels in sequential order (h1 \U{2192} h2 \U{2192} h3, etc.)."
      case NonDescriptiveButton => "Use more descriptive text that explains what the button does."
      case MissingAria =>
        "Add aria-label, aria-labelledby, or ensure the element has accessible text content."
      case ColorContrast =>
        "Use a color contrast checker to ensure text meets WCAG guidelines (4.5:1 for normal text, 3:1 for large text)."
    }
  }

  /** `issues.filter(issue => issue.type === sev)`. */
  function OfSeverity(issues: seq<Finding>, sev: Severity): (r: seq<Finding>)
    ensures |r| <= |issues|
    ensures forall i :: 0 <= i < |r| ==> r[i].Severity() == sev && r[i] in issues
  {
    if issues == [] then []
    else (if issues[0].Severity() == sev then [issues[0]] else []) + OfSeverity(issues[1..], sev)
  }

  /** `issues.filter(issue => issue.type === sev).length`. */
  function CountOf(issues: seq<Finding>, sev: Severity): nat {
    |OfSeverity(issues, sev)|
  }

  /** Filtering distributes over concatenation, keeping order. */
  lemma {:induction false} OfSeverityAppend(a: seq<Finding>, b: seq<Finding>, sev: Severity)
    ensures OfSeverity(a + b, sev) == OfSeverity(a, sev) + OfSeverity(b, sev)
  {
    if a == [] {
      assert a + b == b;
    } else {
      assert (a + b)[0] == a[0];
      assert (a + b)[1..] == a[1..] + b;
      OfSeverityAppend(a[1..], b, sev);
    }
  }

  /** Filtering a list none of whose findings has the severity gives nothing. */
  lemma {:induction false} OfSeverityNone(issues: seq<Finding>, sev: Severity)
    requires forall i :: 0 <= i < |issues| ==> issues[i].Severity() != sev
    ensures OfSeverity(issues, sev) == []
  {
    if issues != [] {
      OfSeverityNone(issues[1..], sev);
    }
  }

  /** Filtering a list all of whose findings have the severity keeps all of it. */
  lemma {:induction false} OfSeverityAll(issues: seq<Finding>, sev: Severity)
    requires forall i :: 0 <= i < |issues| ==> issues[i].Severity() == sev
    ensures OfSeverity(issues, sev) == issues
  {
    if issues != [] {
      OfSeverityAll(issues[1..], sev);
      assert issues == [issues[0]] + issues[1..];
    }
  }

  /** The three counts partition the list: every finding has exactly one of the three
      severities, so they add up to its length. */
  lemma {:induction false} SeverityPartition(issues: seq<Finding>)
    ensures CountOf(issues, Error) + CountOf(issues, Warning) + CountOf(issues, Info) == |issues|
  {
    if issues != [] {
      SeverityPartition(issues[1..]);
    }
  }

  /** The `summary` object of the downloadable report. */
  datatype Summary = Summary(total: nat, errors: nat, warnings: nat, info: nat)

  function ReportSummary(issues: seq<Finding>): (s: Summary)
    ensures s.total == |issues|
    ensures s.total == s.errors + s.warnings + s.info
    ensures issues == [] ==> s == Summary(0, 0, 0, 0)
    ensures s.errors == CountOf(issues, Error)
    ensures s.warnings == CountOf(issues, Warning)
    ensures s.info == CountOf(issues, Info)
    ensures s.errors == 0 <==> forall i :: 0 <= i < |issues| ==> issues[i].Severity() != Error
  {
    SeverityPartition(issues);
    CountZeroIff(issues, Error);
    Summary(|issues|, CountOf(issues, Error), CountOf(issues, Warning), CountOf(issues, Info))
  }

  /** A severity count is zero exactly when no finding has that severity. */
  lemma {:induction false} CountZeroIff(issues: seq<Finding>, sev: Severity)
    ensures CountOf(issues, sev) == 0 <==> forall i :: 0 <= i < |issues| ==> issues[i].Severity() != sev
  {
    if issues != [] {
      CountZeroIff(issues[1..], sev);
      assert forall i :: 1 <= i < |issues| ==> issues[i] == issues[1..][i - 1];
    }
  }
}
