/**
 * The record extract_fields returns (extractor.py lines 30-207): a
 * fixed-shape value with one entry per field, and its view as the
 * dictionary the source builds, with the same keys in the same order.
 */
module Fields {

  /** `auditor_frn_or_membership`. */
  datatype Identifiers = Identifiers(frn: string, pan: string)

  /** `period_of_account`. */
  datatype Period = Period(fromDate: string, toDate: string, years: string)

  /** `director`. */
  datatype Signer = Signer(name: string, din: string)

  datatype Record = Record(
    cin: string,
    companyName: string,
    registeredOffice: string,
    email: string,
    appointmentType: string,
    numberOfAuditors: string,
    auditorName: string,
    auditorIds: Identifiers,
    auditorAddress: string,
    auditorEmail: string,
    period: Period,
    agmDate: string,
    appointmentDate: string,
    attachments: seq<string>,
    director: Signer,
    boardResolutionNumber: string,
    boardResolutionDate: string)

  /** The record in which nothing was found: every string empty, no attachment. */
  const EmptyRecord: Record :=
    Record([], [], [], [], [], [], [], Identifiers([], []), [], [], Period([], [], []), [], [], [],
           Signer([], []), [], [])

  /** A JSON value as the dictionary holds it: a string, a list of strings, or an object. */
  datatype Json =
    | Str(s: string)
    | StrList(items: seq<string>)
    | Object(entries: seq<(string, Json)>)

  /** The keys of the dictionary extract_fields returns, in insertion order. */
  const RecordKeys: seq<string> :=
    [ "cin", "company_name", "registered_office", "email", "appointment_type", "number_of_auditors",
      "auditor_name", "auditor_frn_or_membership", "auditor_address", "auditor_email",
      "period_of_account", "agm_date", "appointment_date", "attachments", "director",
      "board_resolution_number", "board_resolution_date" ]

  /** The keys of the nested `auditor_frn_or_membership`, `period_of_account` and `director` objects. */
  const IdentifierKeys: seq<string> := ["frn", "pan"]
  const PeriodKeys: seq<string> := ["from", "to", "years"]
  const SignerKeys: seq<string> := ["name", "din"]

  function Keys(entries: seq<(string, Json)>): (ks: seq<string>)
    ensures |ks| == |entries| && forall i :: 0 <= i < |entries| ==> ks[i] == entries[i].0
  {
    seq(|entries|, i requires 0 <= i < |entries| => entries[i].0)
  }

  /** The dictionary `data`, as the source fills it key by key. */
  function ToJson(r: Record): Json {
    Object([
      ("cin", Str(r.cin)),
      ("company_name", Str(r.companyName)),
      ("registered_office", Str(r.registeredOffice)),
      ("email", Str(r.email)),
      ("appointment_type", Str(r.appointmentType)),
      ("number_of_auditors", Str(r.numberOfAuditors)),
      ("auditor_name", Str(r.auditorName)),
      ("auditor_frn_or_membership", Object([("frn", Str(r.auditorIds.frn)), ("pan", Str(r.auditorIds.pan))])),
      ("auditor_address", Str(r.auditorAddress)),
      ("auditor_email", Str(r.auditorEmail)),
      ("period_of_account", Object([("from", Str(r.period.fromDate)), ("to", Str(r.period.toDate)),
                                    ("years", Str(r.period.years))])),
      ("agm_date", Str(r.agmDate)),
      ("appointment_date", Str(r.appointmentDate)),
      ("attachments", StrList(r.attachments)),
      ("director", Object([("name", Str(r.director.name)), ("din", Str(r.director.din))])),
      ("board_resolution_number", Str(r.boardResolutionNumber)),
      ("board_resolution_date", Str(r.boardResolutionDate))
    ])
  }

  /**
   * The dictionary always carries every key, in the source's order, whatever
   * was found, and so do its three nested objects; `attachments` is a list.
   */
  lemma DictionaryHasEveryKey(r: Record)
    ensures ToJson(r).Object? && Keys(ToJson(r).entries) == RecordKeys
    ensures ToJson(r).entries[7].1.Object? && Keys(ToJson(r).entries[7].1.entries) == IdentifierKeys
    ensures ToJson(r).entries[10].1.Object? && Keys(ToJson(r).entries[10].1.entries) == PeriodKeys
    ensures ToJson(r).entries[13].1.StrList?
    ensures ToJson(r).entries[14].1.Object? && Keys(ToJson(r).entries[14].1.entries) == SignerKeys
  {
  }
}
