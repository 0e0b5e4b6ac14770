/**
 * What the field loops of extract_fields look for: the anchor test that
 * starts a window, and the test a line of the window must pass together
 * with the value it then yields.
 */
module Probes {
  import opened Optional
  import opened Text
  import opened Boilerplate
  import opened Patterns

  /** How a line is recognised as a field's label. */
  datatype Anchor =
    | Containing(phrase: string)   // `phrase in line`
    | StartingWith(prefix: string) // `line.startswith(prefix)`

  predicate IsAnchor(a: Anchor, line: string) {
    match a
    case Containing(phrase) => Contains(line, phrase)
    case StartingWith(prefix) => StartsWith(line, prefix)
  }

  /** The test applied to a candidate line, one per kind of field. */
  datatype Probe =
    | UpperLine    // company and auditor name: upper case, not boilerplate
    | AnyLine      // appointment type and signer: non-empty, not boilerplate
    | DigitLine    // auditor count and resolution number: all digits, not boilerplate
    | AddressLine  // address parts: non-empty, not boilerplate, no '@', not starting with "email"
    | DateIn       // AGM, appointment and period dates: the first date token in the line
    | NumberIn     // years: the first digit run in the line
    | DateLine     // resolution date: a non-boilerplate line that starts with a date

  /** Probes that test the stripped line itself and yield it whole. */
  predicate IsLineProbe(p: Probe) {
    p != DateIn && p != NumberIn
  }

  /** The address filter: no '@' and, ignoring case, no leading "email". */
  predicate LooksLikeAddress(l: string) {
    '@' !in l && !StartsWith(Lower(l), "email")
  }

  /** The test a line probe applies to the stripped line. */
  predicate Qualifies(p: Probe, l: string)
    requires IsLineProbe(p)
  {
    match p
    case UpperLine => IsUpper(l) && !IsHeader(l)
    case AnyLine => l != [] && !IsHeader(l)
    case DigitLine => IsDigits(l) && !IsHeader(l)
    case AddressLine => l != [] && !IsHeader(l) && LooksLikeAddress(l)
    case DateLine => DateAt(l, 0).Some? && !IsHeader(l)
  }

  /** The pattern a token probe searches for. */
  function TokenPattern(p: Probe): Regex
    requires !IsLineProbe(p)
  {
    if p == DateIn then Date else Number
  }

  /** The value `p` takes from `line`, or None when the line does not qualify. */
  function Try(p: Probe, line: string): Option<string> {
    if IsLineProbe(p) then
      var l := Strip(line);
      if Qualifies(p, l) then Some(l) else None
    else
      match Search(TokenPattern(p), line, 0)
      case Some(m) => Some(m.text)
      case None => None
  }

  /** Boilerplate wins, and nothing empty is accepted: what a line probe accepts is a non-empty non-header line. */
  lemma QualifiesIsNonEmptyContent(p: Probe, l: string)
    requires IsLineProbe(p) && Qualifies(p, l)
    ensures l != [] && !IsHeader(l)
  {
    if p == DateLine {
      assert |DateAt(l, 0).value| >= 1 by { assert MatchAt(Date, l, 0) == DateAt(l, 0); }
    }
  }

  /** No probe yields an empty value, so an empty field always means "not found". */
  lemma TryNonEmpty(p: Probe, line: string)
    ensures Try(p, line).Some? ==> Try(p, line).value != []
  {
    if IsLineProbe(p) {
      if Qualifies(p, Strip(line)) {
        QualifiesIsNonEmptyContent(p, Strip(line));
      }
    } else {
      match Search(TokenPattern(p), line, 0)
      case Some(m) => assert MatchAt(TokenPattern(p), line, m.start) == Some(m.text);
      case None =>
    }
  }

  /** A line probe yields the stripped line itself, and never one that is_header flags. */
  lemma LineProbeRejectsHeaders(p: Probe, line: string)
    requires IsLineProbe(p) && Try(p, line).Some?
    ensures Try(p, line).value == Strip(line) && !IsHeader(Strip(line))
  {
    QualifiesIsNonEmptyContent(p, Strip(line));
  }

  /** A date or number probe yields the leftmost-longest token of its pattern in the line. */
  lemma TokenProbeIsLeftmostLongest(p: Probe, line: string)
    requires !IsLineProbe(p)
    ensures var re := TokenPattern(p);
            match Try(p, line)
            case Some(t) =>
              exists k :: IsLongestAt(re, line, k, Some(t)) && forall k', e :: k' < k ==> !Accepts(re, line, k', e)
            case None => forall k, e :: !Accepts(re, line, k, e)
  {
    var re := TokenPattern(p);
    SearchIsLeftmostLongest(re, line, 0);
    match Search(re, line, 0)
    case Some(m) =>
      assert IsLongestAt(re, line, m.start, Some(m.text));
    case None =>
  }
}
