/**
 * What extract_fields promises about the record it returns, stated on
 * `Extract` field by field: which line or which match each field holds,
 * which boilerplate it never holds, how far from its label it may lie, and
 * which anchor occurrence wins.
 */
module Properties {
  import opened Optional
  import opened Text
  import opened Boilerplate
  import opened Patterns
  import opened Probes
  import opened Window
  import opened Fields
  import opened Extractor

  /** A line probe's test as a predicate on lines. */
  function QualifierOf(p: Probe): string -> bool
    requires IsLineProbe(p)
  {
    (l: string) => Qualifies(p, l)
  }

  /** On a line of `Lines(text)` a line probe yields the line itself exactly when it qualifies, and only non-empty lines qualify. */
  lemma ProbeOnLines(text: string, p: Probe)
    requires IsLineProbe(p)
    ensures var ls := Lines(text);
      && (forall j :: 0 <= j < |ls| ==> ProbeOf(p)(ls[j]) == if QualifierOf(p)(ls[j]) then Some(ls[j]) else None)
      && (forall j :: 0 <= j < |ls| && QualifierOf(p)(ls[j]) ==> ls[j] != [])
  {
    var ls := Lines(text);
    LinesAreClean(text);
    forall j | 0 <= j < |ls| && QualifierOf(p)(ls[j])
      ensures ls[j] != []
    {
      QualifiesIsNonEmptyContent(p, ls[j]);
    }
  }

  /**
   * `v` is what a first-anchor field with the line probe `p` holds: the first
   * line of the window `lines[i + lo .. i + hi - 1]` after the first line `i`
   * containing `phrase` that `p` accepts, and empty only when no line of that
   * window is accepted.
   */
  ghost predicate IsFirstAnchorLine(lines: seq<string>, phrase: string, p: Probe, lo: nat, hi: nat, v: string)
    requires IsLineProbe(p)
  {
    var a := AnchorOf(Containing(phrase));
    && (v != [] ==> Qualifies(p, v))
    && (v != [] ==> exists i: nat, j: nat :: IsFirstAnchor(lines, a, i) && FirstPassing(lines, QualifierOf(p), i + lo, i + hi, j) && v == lines[j])
    && (forall i: nat, j: nat ::
          (IsFirstAnchor(lines, a, i) && i + lo <= j < i + hi && j < |lines| && Qualifies(p, lines[j])) ==> v != [])
  }

  /** A first-anchor field with a line probe over the lines of a text is such a line. */
  lemma LineFieldSpec(text: string, phrase: string, p: Probe, lo: nat, hi: nat)
    requires IsLineProbe(p)
    ensures IsFirstAnchorLine(Lines(text), phrase, p, lo, hi, FirstAfter(Lines(text), phrase, p, lo, hi))
  {
    ProbeOnLines(text, p);
    FirstAnchorLineSpec(Lines(text), AnchorOf(Containing(phrase)), ProbeOf(p), QualifierOf(p), lo, hi);
  }

  /** Company name: the first upper-case, non-boilerplate line among the four after the first label line. */
  lemma CompanyNameSpec(text: string)
    ensures IsFirstAnchorLine(Lines(text), CompanyLabel, UpperLine, 1, 5, Extract(text).companyName)
  {
    assert Extract(text).companyName == FirstAfter(Lines(text), CompanyLabel, UpperLine, 1, 5);
    LineFieldSpec(text, CompanyLabel, UpperLine, 1, 5);
  }

  /** Appointment type: the first non-empty, non-boilerplate line among the three after the label line. */
  lemma AppointmentTypeSpec(text: string)
    ensures IsFirstAnchorLine(Lines(text), NatureLabel, AnyLine, 1, 4, Extract(text).appointmentType)
  {
    assert Extract(text).appointmentType == FirstAfter(Lines(text), NatureLabel, AnyLine, 1, 4);
    LineFieldSpec(text, NatureLabel, AnyLine, 1, 4);
  }

  /** Number of auditors: the first all-digit, non-boilerplate line among the three after the label line. */
  lemma NumberOfAuditorsSpec(text: string)
    ensures IsFirstAnchorLine(Lines(text), CountLabel, DigitLine, 1, 4, Extract(text).numberOfAuditors)
  {
    assert Extract(text).numberOfAuditors == FirstAfter(Lines(text), CountLabel, DigitLine, 1, 4);
    LineFieldSpec(text, CountLabel, DigitLine, 1, 4);
  }

  /** Auditor name: the first upper-case, non-boilerplate line among the four after the label line. */
  lemma AuditorNameSpec(text: string)
    ensures IsFirstAnchorLine(Lines(text), AuditorLabel, UpperLine, 1, 5, Extract(text).auditorName)
  {
    assert Extract(text).auditorName == FirstAfter(Lines(text), AuditorLabel, UpperLine, 1, 5);
    LineFieldSpec(text, AuditorLabel, UpperLine, 1, 5);
  }

  /** Signer name: the first non-empty, non-boilerplate line among the two after the first "Digitally signed by" line. */
  lemma DirectorNameSpec(text: string)
    ensures IsFirstAnchorLine(Lines(text), SignerLabel, AnyLine, 1, 3, Extract(text).director.name)
  {
    assert Extract(text).director.name == FirstAfter(Lines(text), SignerLabel, AnyLine, 1, 3);
    LineFieldSpec(text, SignerLabel, AnyLine, 1, 3);
  }
  /**
   * `v` is what a first-anchor field with a token probe and the window
   * `range(0, 1)` holds: the token of the first line containing `phrase`,
   * empty only when that line holds no token.
   */
  ghost predicate IsFirstAnchorToken(lines: seq<string>, phrase: string, p: Probe, v: string) {
    var a := AnchorOf(Containing(phrase));
    && (v != [] ==> exists i: nat :: IsFirstAnchor(lines, a, i) && Try(p, lines[i]) == Some(v))
    && (forall i: nat :: IsFirstAnchor(lines, a, i) && Try(p, lines[i]).Some? ==> v != [])
  }

  /** Financial years: the leftmost digit run of the first line containing the label. */
  lemma YearsSpec(text: string)
    ensures IsFirstAnchorToken(Lines(text), YearsLabel, NumberIn, Extract(text).period.years)
  {
    var ls, a, probe := Lines(text), AnchorOf(Containing(YearsLabel)), ProbeOf(NumberIn);
    var v := FirstAfter(ls, YearsLabel, NumberIn, 0, 1);
    assert Extract(text).period.years == v;
    FirstAnchorValueSpec(ls, a, probe, 0, 1);
    forall i: nat | IsFirstAnchor(ls, a, i) && Try(NumberIn, ls[i]).Some?
      ensures v != []
    {
      assert FirstInWindow(ls, probe, i, 0, 1, i);
      TryNonEmpty(NumberIn, ls[i]);
    }
  }

  /**
   * `v` is what an every-anchor field holds: the value of the first accepted
   * line of the window after some anchor line, with every later anchor
   * line's window silent; it is empty only when every anchor line's window is.
   */
  ghost predicate IsLastAnchorValue(lines: seq<string>, a: Anchor, p: Probe, lo: nat, hi: nat, v: string) {
    var probe := ProbeOf(p);
    && (v != [] ==> exists i: nat, j: nat ::
          && i < |lines| && IsAnchor(a, lines[i]) && FirstInWindow(lines, probe, i, lo, hi, j) && Try(p, lines[j]) == Some(v)
          && forall i' :: i < i' < |lines| && IsAnchor(a, lines[i']) ==> WindowSilent(lines, probe, i', lo, hi))
    && ((exists i: nat :: i < |lines| && IsAnchor(a, lines[i]) && !WindowSilent(lines, probe, i, lo, hi)) ==> v != [])
  }

  /** Every every-anchor field over the lines of a text is such a value. */
  lemma LastFieldSpec(text: string, a: Anchor, p: Probe, lo: nat, hi: nat)
    ensures IsLastAnchorValue(Lines(text), a, p, lo, hi, LastAfter(Lines(text), a, p, lo, hi))
  {
    forall l | ProbeOf(p)(l).Some?
      ensures ProbeOf(p)(l).value != []
    {
      TryNonEmpty(p, l);
    }
    LastAnchorWindowSpec(Lines(text), AnchorOf(a), ProbeOf(p), lo, hi);
  }

  /** Period start: the first date of the last line starting with "From" that holds one. */
  lemma PeriodFromSpec(text: string)
    ensures IsLastAnchorValue(Lines(text), StartingWith("From"), DateIn, 0, 1, Extract(text).period.fromDate)
  {
    assert Extract(text).period.fromDate == LastAfter(Lines(text), StartingWith("From"), DateIn, 0, 1);
    LastFieldSpec(text, StartingWith("From"), DateIn, 0, 1);
  }

  /** Period end: the first date of the last line starting with "To" that holds one. */
  lemma PeriodToSpec(text: string)
    ensures IsLastAnchorValue(Lines(text), StartingWith("To"), DateIn, 0, 1, Extract(text).period.toDate)
  {
    assert Extract(text).period.toDate == LastAfter(Lines(text), StartingWith("To"), DateIn, 0, 1);
    LastFieldSpec(text, StartingWith("To"), DateIn, 0, 1);
  }

  /** Date of the AGM: the first date in the two lines after the last label line whose window holds one. */
  lemma AgmDateSpec(text: string)
    ensures IsLastAnchorValue(Lines(text), Containing(AgmLabel), DateIn, 1, 3, Extract(text).agmDate)
  {
    assert Extract(text).agmDate == LastAfter(Lines(text), Containing(AgmLabel), DateIn, 1, 3);
    LastFieldSpec(text, Containing(AgmLabel), DateIn, 1, 3);
  }

  /** Date of appointment: the same rule after "Date of appointment". */
  lemma AppointmentDateSpec(text: string)
    ensures IsLastAnchorValue(Lines(text), Containing(AppointmentLabel), DateIn, 1, 3, Extract(text).appointmentDate)
  {
    assert Extract(text).appointmentDate == LastAfter(Lines(text), Containing(AppointmentLabel), DateIn, 1, 3);
    LastFieldSpec(text, Containing(AppointmentLabel), DateIn, 1, 3);
  }

  /** Board resolution number: the first all-digit, non-boilerplate line of the two after the last "resolution number" line that has one. */
  lemma ResolutionNumberSpec(text: string)
    ensures IsLastAnchorValue(Lines(text), Containing(ResolutionNumberLabel), DigitLine, 1, 3, Extract(text).boardResolutionNumber)
  {
    assert Extract(text).boardResolutionNumber == LastAfter(Lines(text), Containing(ResolutionNumberLabel), DigitLine, 1, 3);
    LastFieldSpec(text, Containing(ResolutionNumberLabel), DigitLine, 1, 3);
  }

  /** Board resolution date: the first non-boilerplate line starting with a date among the two after the last "dated" line that has one. */
  lemma ResolutionDateSpec(text: string)
    ensures IsLastAnchorValue(Lines(text), Containing(ResolutionDateLabel), DateLine, 1, 3, Extract(text).boardResolutionDate)
  {
    assert Extract(text).boardResolutionDate == LastAfter(Lines(text), Containing(ResolutionDateLabel), DateLine, 1, 3);
    LastFieldSpec(text, Containing(ResolutionDateLabel), DateLine, 1, 3);
  }
  /**
   * `parts` is what the collect scheme keeps after the first line containing
   * `phrase`: the first `cap` lines, in order, of the window
   * `lines[i + 1 .. i + span - 1]` that `AddressLine` accepts, each of them
   * non-empty; nothing when no line contains `phrase`.
   */
  ghost predicate IsAddressParts(lines: seq<string>, phrase: string, span: nat, cap: nat, parts: seq<string>) {
    && (forall x :: x in parts ==> x != [])
    && (forall i: nat :: IsFirstAnchor(lines, AnchorOf(Containing(phrase)), i) ==>
          IsFirstPassingLines(lines, QualifierOf(AddressLine), i + 1, i + span, cap, parts))
    && ((forall i :: 0 <= i < |lines| ==> !AnchorOf(Containing(phrase))(lines[i])) ==> parts == [])
  }

  /** `v` is such parts joined with ", ", and is empty exactly when no part was kept. */
  ghost predicate IsJoinedAddress(lines: seq<string>, phrase: string, span: nat, cap: nat, v: string) {
    exists parts :: IsAddressParts(lines, phrase, span, cap, parts) && v == Join(", ", parts) && (v == [] <==> parts == [])
  }

  /** The collect scheme over the lines of a text keeps such parts. */
  lemma AddressFieldSpec(text: string, phrase: string, span: nat, cap: nat)
    ensures IsJoinedAddress(Lines(text), phrase, span, cap, Join(", ", PartsAfter(Lines(text), phrase, span, cap)))
  {
    var ls, a, probe := Lines(text), AnchorOf(Containing(phrase)), ProbeOf(AddressLine);
    var parts := PartsAfter(ls, phrase, span, cap);
    ProbeOnLines(text, AddressLine);
    FirstAnchorHarvestLineSpec(ls, a, probe, QualifierOf(AddressLine), span, cap);
    forall k | 0 <= k < |parts|
      ensures parts[k] != []
    {
      assert parts[k] in parts;
    }
    JoinEmptyIff(", ", parts);
    assert IsAddressParts(ls, phrase, span, cap, parts);
  }

  /** Registered office: up to five address lines of the nine after the label line, joined with ", ". */
  lemma RegisteredOfficeSpec(text: string)
    ensures IsJoinedAddress(Lines(text), OfficeLabel, 10, 5, Extract(text).registeredOffice)
  {
    assert Extract(text).registeredOffice == Join(", ", PartsAfter(Lines(text), OfficeLabel, 10, 5));
    AddressFieldSpec(text, OfficeLabel, 10, 5);
  }

  /** Auditor address: up to six address lines of the nine after the label line, joined with ", ". */
  lemma AuditorAddressSpec(text: string)
    ensures IsJoinedAddress(Lines(text), AuditorAddressLabel, 10, 6, Extract(text).auditorAddress)
  {
    assert Extract(text).auditorAddress == Join(", ", PartsAfter(Lines(text), AuditorAddressLabel, 10, 6));
    AddressFieldSpec(text, AuditorAddressLabel, 10, 6);
  }
  /**
   * `v` is what `re.search` over the whole text yields for a field: the
   * longest text the pattern accepts at the leftmost position where it accepts
   * anything, and empty exactly when it accepts nothing anywhere.
   */
  ghost predicate IsLeftmostLongest(re: Regex, text: string, v: string) {
    && (v != [] ==> exists k: nat :: IsLongestAt(re, text, k, Some(v)) && forall k': nat, e: nat :: k' < k ==> !Accepts(re, text, k', e))
    && (v == [] ==> forall k: nat, e: nat :: !Accepts(re, text, k, e))
  }

  /** A whole-text search field is such a text. */
  lemma SearchFieldSpec(re: Regex, text: string)
    ensures IsLeftmostLongest(re, text, TextOr(Search(re, text, 0)))
  {
    SearchIsLeftmostLongest(re, text, 0);
    match Search(re, text, 0)
    case Some(m) =>
      assert IsLongestAt(re, text, m.start, Some(m.text));
    case None =>
  }

  /** CIN: the first 21-character corporate identity number in the text. */
  lemma CinSpec(text: string)
    ensures IsLeftmostLongest(Cin, text, Extract(text).cin)
  {
    assert Extract(text).cin == TextOr(Search(Cin, text, 0));
    SearchFieldSpec(Cin, text);
  }

  /** Company e-mail: the first address in the text, as long as the pattern allows. */
  lemma EmailSpec(text: string)
    ensures IsLeftmostLongest(Email, text, Extract(text).email)
  {
    assert Extract(text).email == TextOr(Search(Email, text, 0));
    SearchFieldSpec(Email, text);
  }

  /** Auditor FRN: the first six-digit firm registration number, with its optional letter. */
  lemma FrnSpec(text: string)
    ensures IsLeftmostLongest(Frn, text, Extract(text).auditorIds.frn)
  {
    assert Extract(text).auditorIds.frn == TextOr(Search(Frn, text, 0));
    SearchFieldSpec(Frn, text);
  }

  /** Auditor PAN: the first ten-character permanent account number. */
  lemma PanSpec(text: string)
    ensures IsLeftmostLongest(Pan, text, Extract(text).auditorIds.pan)
  {
    assert Extract(text).auditorIds.pan == TextOr(Search(Pan, text, 0));
    SearchFieldSpec(Pan, text);
  }

  /** Auditor e-mail: the first address at the auditor's fixed mailbox prefix. */
  lemma AuditorEmailSpec(text: string)
    ensures IsLeftmostLongest(AuditorEmail, text, Extract(text).auditorEmail)
  {
    assert Extract(text).auditorEmail == TextOr(Search(AuditorEmail, text, 0));
    SearchFieldSpec(AuditorEmail, text);
  }

  /** Signer DIN: the first eight-digit director identification number standing as a word. */
  lemma DinSpec(text: string)
    ensures IsLeftmostLongest(Din, text, Extract(text).director.din)
  {
    assert Extract(text).director.din == TextOr(Search(Din, text, 0));
    SearchFieldSpec(Din, text);
  }

  /**
   * `ts` is what `re.findall` yields for a one-group pattern: the texts of
   * matches in order and without overlap, each the longest the pattern accepts
   * where it starts, and covering every position at which the pattern accepts
   * anything.
   */
  ghost predicate IsMatchList(re: Regex, text: string, ts: seq<string>) {
    exists ms: seq<Match> ::
      && |ms| == |ts|
      && (forall i :: 0 <= i < |ms| ==> ts[i] == ms[i].text && IsLongestAt(re, text, ms[i].start, Some(ts[i])))
      && (forall i, j :: 0 <= i < j < |ms| ==> ms[i].End() <= ms[j].start)
      && (forall k: nat, e: nat :: Accepts(re, text, k, e) ==> exists i :: 0 <= i < |ms| && ms[i].start <= k < ms[i].End())
  }

  /** `re.findall` of the attachment pattern over the whole text yields such a list. */
  lemma FindAllSpec(text: string)
    ensures IsMatchList(Attachment, text, Texts(FindAll(Attachment, text, 0)))
  {
    var ms := FindAll(Attachment, text, 0);
    var ts := Texts(ms);
    forall i | 0 <= i < |ms|
      ensures IsLongestAt(Attachment, text, ms[i].start, Some(ts[i]))
    {
      MatchAtIsLongest(Attachment, text, ms[i].start);
    }
    forall k: nat, e: nat | Accepts(Attachment, text, k, e)
      ensures exists i :: 0 <= i < |ms| && ms[i].start <= k < ms[i].End()
    {
      MatchAtIsLongest(Attachment, text, k);
      FindAllCovers(Attachment, text, 0, k);
    }
  }

  /** Attachments: every ".pdf" file name in the text, in order, none missed. */
  lemma AttachmentsSpec(text: string)
    ensures IsMatchList(Attachment, text, Extract(text).attachments)
  {
    assert Extract(text).attachments == Texts(FindAll(Attachment, text, 0));
    FindAllSpec(text);
  }

  /** An empty text has no lines. */
  lemma NoLines(text: string)
    requires |text| == 0
    ensures Lines(text) == []
  {
  }

  /** No pattern matches in an empty text. */
  lemma NoMatch(re: Regex, text: string)
    requires |text| == 0
    ensures Search(re, text, 0) == None
  {
    assert MatchAt(re, text, 0) == None;
  }

  /** A document with no text yields the record in which every field is empty. */
  lemma EmptyTextSpec(text: string)
    requires |text| == 0
    ensures Extract(text) == EmptyRecord
  {
    NoLines(text);
    NoMatch(Cin, text);
    NoMatch(Email, text);
    NoMatch(Frn, text);
    NoMatch(Pan, text);
    NoMatch(AuditorEmail, text);
    NoMatch(Attachment, text);
    NoMatch(Din, text);
  }
}
