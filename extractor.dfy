/**
 * extract_fields (extractor.py lines 28-207): the raw text becomes trimmed,
 * non-empty lines, and every field of the record is recovered by its own
 * rule: a leftmost search of a pattern over the whole text, or a windowed
 * search after an anchor line.
 */
module Extractor {
  import opened Optional
  import opened Text
  import opened Boilerplate
  import opened Patterns
  import opened Probes
  import opened Window
  import opened Fields

  /** The anchor as the test the window search applies to a line. */
  function AnchorOf(a: Anchor): string -> bool {
    (line: string) => IsAnchor(a, line)
  }

  /** The probe as the test the window search applies to a line. */
  function ProbeOf(p: Probe): string -> Option<string> {
    (line: string) => Try(p, line)
  }

  const CompanyLabel: string := "Name of the company"
  const OfficeLabel: string := "Address of the registered office"
  const NatureLabel: string := "Nature of appointment"
  const CountLabel: string := "Number of auditor(s) appointed"
  const AuditorLabel: string := "Name of the auditor or auditor's firm"
  const AuditorAddressLabel: string := "Address of the Auditor"
  const YearsLabel: string := "Number of financial year(s) to which appointment relates"
  const AgmLabel: string := "date of AGM"
  const AppointmentLabel: string := "Date of appointment"
  const SignerLabel: string := "Digitally signed by"
  const ResolutionNumberLabel: string := "resolution number"
  const ResolutionDateLabel: string := "dated"

  /** A first-anchor field: the window `range(lo, hi)` after the first line containing `phrase`. */
  function FirstAfter(lines: seq<string>, phrase: string, p: Probe, lo: nat, hi: nat): string {
    FirstAnchorValue(lines, AnchorOf(Containing(phrase)), ProbeOf(p), lo, hi)
  }

  /** An every-anchor field: the last anchor line picked by `a` whose window `range(lo, hi)` yields a value. */
  function LastAfter(lines: seq<string>, a: Anchor, p: Probe, lo: nat, hi: nat): string {
    LastAnchorValue(lines, AnchorOf(a), ProbeOf(p), lo, hi, |lines|)
  }

  /** A collected field: the accepted lines of `range(1, span)` after the first line containing `phrase`, at most `cap`. */
  function PartsAfter(lines: seq<string>, phrase: string, span: nat, cap: nat): seq<string> {
    FirstAnchorHarvest(lines, AnchorOf(Containing(phrase)), ProbeOf(AddressLine), span, cap)
  }

  /** The record extract_fields returns for `text`, field by field. */
  function Extract(text: string): Record {
    var lines := Lines(text);
    Record(
      cin := TextOr(Search(Cin, text, 0)),
      companyName := FirstAfter(lines, CompanyLabel, UpperLine, 1, 5),
      registeredOffice := Join(", ", PartsAfter(lines, OfficeLabel, 10, 5)),
      email := TextOr(Search(Email, text, 0)),
      appointmentType := FirstAfter(lines, NatureLabel, AnyLine, 1, 4),
      numberOfAuditors := FirstAfter(lines, CountLabel, DigitLine, 1, 4),
      auditorName := FirstAfter(lines, AuditorLabel, UpperLine, 1, 5),
      auditorIds := Identifiers(TextOr(Search(Frn, text, 0)), TextOr(Search(Pan, text, 0))),
      auditorAddress := Join(", ", PartsAfter(lines, AuditorAddressLabel, 10, 6)),
      auditorEmail := TextOr(Search(AuditorEmail, text, 0)),
      period := Period(
        LastAfter(lines, StartingWith("From"), DateIn, 0, 1),
        LastAfter(lines, StartingWith("To"), DateIn, 0, 1),
        FirstAfter(lines, YearsLabel, NumberIn, 0, 1)),
      agmDate := LastAfter(lines, Containing(AgmLabel), DateIn, 1, 3),
      appointmentDate := LastAfter(lines, Containing(AppointmentLabel), DateIn, 1, 3),
      attachments := Texts(FindAll(Attachment, text, 0)),
      director := Signer(FirstAfter(lines, SignerLabel, AnyLine, 1, 3), TextOr(Search(Din, text, 0))),
      boardResolutionNumber := LastAfter(lines, Containing(ResolutionNumberLabel), DigitLine, 1, 3),
      boardResolutionDate := LastAfter(lines, Containing(ResolutionDateLabel), DateLine, 1, 3))
  }

  /** extract_fields: the fields in the source's order, each by its own scan of the lines. */
  method ExtractFields(text: string) returns (r: Record)
    ensures r == Extract(text)
  {
    var lines := Lines(text);
    var cin := TextOr(Search(Cin, text, 0));
    var companyName := ScanFirstAnchor(lines, AnchorOf(Containing(CompanyLabel)), ProbeOf(UpperLine), 1, 5);
    var regOffice := CollectAfterFirstAnchor(lines, AnchorOf(Containing(OfficeLabel)), ProbeOf(AddressLine), 10, 5);
    var email := TextOr(Search(Email, text, 0));
    var appointType := ScanFirstAnchor(lines, AnchorOf(Containing(NatureLabel)), ProbeOf(AnyLine), 1, 4);
    var numAud := ScanFirstAnchor(lines, AnchorOf(Containing(CountLabel)), ProbeOf(DigitLine), 1, 4);
    var auditorName := ScanFirstAnchor(lines, AnchorOf(Containing(AuditorLabel)), ProbeOf(UpperLine), 1, 5);
    var frn := TextOr(Search(Frn, text, 0));
    var pan := TextOr(Search(Pan, text, 0));
    var auditorAddr := CollectAfterFirstAnchor(lines, AnchorOf(Containing(AuditorAddressLabel)), ProbeOf(AddressLine), 10, 6);
    var auditorEmail := TextOr(Search(AuditorEmail, text, 0));
    var periodFrom := ScanEveryAnchor(lines, AnchorOf(StartingWith("From")), ProbeOf(DateIn), 0, 1);
    var periodTo := ScanEveryAnchor(lines, AnchorOf(StartingWith("To")), ProbeOf(DateIn), 0, 1);
    var years := ScanFirstAnchor(lines, AnchorOf(Containing(YearsLabel)), ProbeOf(NumberIn), 0, 1);
    var agmDate := ScanEveryAnchor(lines, AnchorOf(Containing(AgmLabel)), ProbeOf(DateIn), 1, 3);
    var appointmentDate := ScanEveryAnchor(lines, AnchorOf(Containing(AppointmentLabel)), ProbeOf(DateIn), 1, 3);
    var attachments := Texts(FindAll(Attachment, text, 0));
    var directorName := ScanFirstAnchor(lines, AnchorOf(Containing(SignerLabel)), ProbeOf(AnyLine), 1, 3);
    var din := TextOr(Search(Din, text, 0));
    var boardResNo := ScanEveryAnchor(lines, AnchorOf(Containing(ResolutionNumberLabel)), ProbeOf(DigitLine), 1, 3);
    var boardResDate := ScanEveryAnchor(lines, AnchorOf(Containing(ResolutionDateLabel)), ProbeOf(DateLine), 1, 3);
    r := Record(
      cin, companyName, Join(", ", regOffice), email, appointType, numAud, auditorName,
      Identifiers(frn, pan), Join(", ", auditorAddr), auditorEmail,
      Period(periodFrom, periodTo, years), agmDate, appointmentDate, attachments,
      Signer(directorName, din), boardResNo, boardResDate);
  }
}
