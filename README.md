# Form ADT-1 field extractor, modelled in Dafny

This project models the field-extraction engine of `extractor.py`. It has two parts:

- the boilerplate classifier `is_header`, with its table `HEADER_PATTERNS`;
- `extract_fields`, which turns the text of a filed Form ADT-1 (a notice of an auditor's appointment) into a fixed-shape record.

`extract_fields` first splits the text into stripped, non-empty lines. It then fills each field by one of three rules:

- **Leftmost regular-expression search over the whole text**: CIN, email, FRN, PAN, auditor email and DIN. The attachments use `findall` instead.
- **Anchored window search**: find a line holding the field's label, then scan the few lines after it for one that passes the field's test. Boilerplate lines flagged by `is_header` are skipped where the source does so.
- **Collected window**: the two address fields append every passing line of the window, up to a cap, and join the parts with `", "`.

Modules:

- `Optional`: the `Option` type.
- `Text`: the Python string operations.
  - `strip`, `splitlines`, `isupper`, `isdigit`, `lower`, `startswith`, `in` and `join`.
  - The line sequence `Lines(text)` of line 29.
  - Its laws: every line is clean (non-empty and stripped), and a join of clean lines splits back into those lines.
- `Boilerplate`: the pattern table as data, `IsHeader`, and a proof that it equals the hand-written rule.
- `Patterns`: each fixed regular expression as a matcher that follows Python's backtracking order.
  - Each matcher is paired with a declarative language `Accepts` and proved to return the longest accepted text.
  - It also holds `re.search` (proved leftmost-longest) and `re.findall` (proved ordered, non-overlapping and covering every match position).
- `Probes`: the anchor tests (`phrase in line`, `line.startswith(prefix)`) and the per-field line tests.
- `Window`: the nested loops with their inner and outer `break`s, as methods over `seq<string>`.
  - Each method is proved equal to a specification function.
  - Lemmas say which line wins under each of the three disciplines: first anchor only, and every anchor with the later one overwriting.
  - For the collect discipline they say which lines are kept: the first `cap` passing lines of the first anchor's window, in window order.
- `Fields`: the record, and its view as the dictionary the source returns.
- `Extractor`: `Extract`, the record as a function of the text, and the method `ExtractFields`, written as the source's sequence of scans.
- `Properties`: what each field of `Extract(text)` is, stated field by field.

## Model

| member | source | states |
|---|---|---|
| Boilerplate.IsHeaderIff | extractor.py:8-16 | is_header holds exactly when the line starts with `(a)` or `(b)`, holds `FORM NO`, `Notice to the Registrar`, `Refer the instruction`, `English`, `Hindi`, `Page ` or `*`, or starts with digits followed by `.(`, a letter a-z and `)` |
| Boilerplate.IsHeader | extractor.py:12-16 | is_header, as the loop over the table; what it accepts is stated by `Boilerplate.IsHeaderIff` |
| Boilerplate.AnyMatch | extractor.py:12-16 | the loop of is_header returns true exactly when some pattern of the table matches the line |
| Boilerplate.NumberedItems | extractor.py:9 | the numbered-item entries of the table are `^\d+\.\(x\)` for x from a to z, in order |
| Boilerplate.FixedMatchIff | extractor.py:9 | one of the nine literal entries matches exactly when the line has the corresponding prefix or substring |
| Boilerplate.NumberedMatchIff | extractor.py:9 | one of the 26 numbered entries matches exactly when the line starts with a digit run followed by `.(`, a lower-case letter and `)` |
| Text.Lines | extractor.py:29 | the stripped, non-empty lines of the text; what they are is stated by `Text.LinesAreClean`, `Text.LinesOfJoin` and `Text.LinesSplitAt` |
| Text.Contains | extractor.py:37 | the substring test `t in s` holds exactly when `t` occurs at some index of `s` |
| Text.TrimStartSpec | extractor.py:29 | `lstrip` removes exactly a leading whitespace run; what is left is a suffix that starts with non-whitespace or is empty |
| Text.TrimEndSpec | extractor.py:29 | `rstrip` removes exactly a trailing whitespace run; what is left is a prefix that ends with non-whitespace or is empty |
| Text.StripSpec | extractor.py:29 | `strip` returns the middle slice; everything removed on either side is whitespace, and the result has no whitespace at either end |
| Text.StripOfTrimmed | extractor.py:40 | a string with no whitespace at either end is its own `strip()` |
| Text.StripIdempotent | extractor.py:29-40 | stripping twice equals stripping once, so the inner `lines[i+j].strip()` changes nothing |
| Text.StripKeepsNoBreak | extractor.py:29 | stripping a piece without line boundaries leaves none |
| Text.SplitLinesNoBreak | extractor.py:29 | no piece produced by `splitlines` contains a line boundary |
| Text.LinesAreClean | extractor.py:29 | every element of `lines` is non-empty, equals its own `strip()` and holds no line boundary |
| Text.CleanAppend | extractor.py:29 | the filtering comprehension distributes over concatenation: lines are kept in order |
| Text.SplitLinesOfJoin | extractor.py:29 | `splitlines` undoes a newline-join of non-empty pieces that hold no boundary |
| Text.LinesOfJoin | extractor.py:29 | round trip: the lines of a newline-join of clean lines are exactly those lines |
| Text.LinesSplitAt | extractor.py:29 | a line boundary splits the line sequence: `Lines(a + [c] + b) == Lines(a) + Lines(b)` |
| Text.CrLfIsOneBreak | extractor.py:29 | a `\r\n` pair gives the same lines as a single `\n` |
| Text.JoinEmptyIff | extractor.py:60 | `", ".join` of non-empty parts is empty exactly when there are no parts |
| Patterns.CinIsLongest | extractor.py:32 | the CIN matcher returns the 21-character text of shape `[Uu]`, 5 digits, 2 capitals, 4 digits, `PTC`, 6 digits at the position, or None when there is none |
| Patterns.EmailIsLongest | extractor.py:62 | the email matcher returns the longest `[\w.-]+@[\w.-]+` at the position, as greedy backtracking finds it |
| Patterns.FrnIsLongest | extractor.py:101 | the FRN matcher returns the longest `\b` 6 digits, optional capital, `\b` text at the position |
| Patterns.PanIsLongest | extractor.py:102 | the PAN matcher returns the 5 capitals, 4 digits, 1 capital text at the position |
| Patterns.AuditorEmailIsLongest | extractor.py:123 | the auditor-email matcher returns `mallyaandmallya@` followed by the longest run of `[\w.-]` with at least one character |
| Patterns.DateIsLongest | extractor.py:130 | the date matcher returns the unique `D{1,2}/D{1,2}/D{4}` text at the position |
| Patterns.DateLayoutUnique | extractor.py:130 | at one position at most one split of the digit counts forms a date |
| Patterns.NumberIsLongest | extractor.py:140 | the number matcher returns the maximal digit run at the position |
| Patterns.DinIsLongest | extractor.py:182 | the DIN matcher returns the 8-digit text between word boundaries at the position |
| Patterns.AttachmentIsLongest | extractor.py:170 | the attachment matcher returns the longest run of `[\w .'-]` that ends in `.pdf`: backtracking stops at the last `.pdf` within the run |
| Patterns.MatchAtIsLongest | extractor.py:32-182 | every matcher returns the longest text its pattern accepts at the position |
| Patterns.Search | extractor.py:32 | `re.search` returns a match at the first position where the pattern matches, and no earlier position matches |
| Patterns.SearchIsLeftmostLongest | extractor.py:32-33 | `re.search` gives the longest accepted text at the leftmost position where the pattern accepts anything; None means it accepts nothing anywhere |
| Patterns.FindAll | extractor.py:170 | `re.findall` returns matches that lie in the text, are each what the matcher returns at their start, and come in order without overlapping |
| Patterns.FindAllCovers | extractor.py:170 | every position where the pattern matches lies inside one of the matches `findall` returns |
| Patterns.CinAt | extractor.py:32 | the CIN matcher yields a non-empty text that lies in the string at the position |
| Patterns.EmailAt | extractor.py:62 | the email matcher yields a non-empty text that lies in the string at the position |
| Patterns.FrnAt | extractor.py:101 | the FRN matcher yields a non-empty text that lies in the string at the position |
| Patterns.PanAt | extractor.py:102 | the PAN matcher yields a non-empty text that lies in the string at the position |
| Patterns.AuditorEmailAt | extractor.py:123 | the auditor-email matcher yields a non-empty text that lies in the string at the position |
| Patterns.DateAt | extractor.py:130 | the date matcher yields a non-empty text that lies in the string at the position |
| Patterns.NumberAt | extractor.py:140 | the number matcher yields a non-empty text that lies in the string at the position |
| Patterns.DinAt | extractor.py:182 | the DIN matcher yields a non-empty text that lies in the string at the position |
| Patterns.AttachmentAt | extractor.py:170 | the attachment matcher yields a non-empty text that lies in the string at the position |
| Probes.QualifiesIsNonEmptyContent | extractor.py:41 | a line that passes a line test is non-empty and not boilerplate |
| Probes.Try | extractor.py:130-132 | one window line under a field's test; what it yields is stated by `Probes.LineProbeRejectsHeaders`, `Probes.TokenProbeIsLeftmostLongest` and `Probes.TryNonEmpty` |
| Probes.TryNonEmpty | extractor.py:130-132 | no test yields an empty value, so an empty field means nothing was found |
| Probes.LineProbeRejectsHeaders | extractor.py:40-42 | a line test yields the stripped line itself, and never one that is_header flags |
| Probes.TokenProbeIsLeftmostLongest | extractor.py:130-132 | a date or number test yields the leftmost-longest token of its pattern in the line, or nothing when the line has none |
| Window.FirstAnchor | extractor.py:36-37 | finds the first line the anchor picks, with no earlier line picked |
| Window.FirstHit | extractor.py:38-43 | finds the first line of the window the test accepts, with no earlier window line accepted |
| Window.LastAnchor | extractor.py:152-166 | finds the last anchor line whose window yields a value; no later anchor line's window yields one |
| Window.ScanWindow | extractor.py:38-43 | the inner `for j` loop with its `break` returns the value of the first accepted line of `lines[i+lo .. i+hi-1]` |
| Window.ScanFirstAnchor | extractor.py:36-44 | the outer loop, which stops at the first anchor line found value or not, returns that anchor's window value or `""` |
| Window.ScanEveryAnchor | extractor.py:152-166 | the outer loop without `break` returns the window value of the last anchor line whose window yields one, or `""` |
| Window.LastAnchorValueStep | extractor.py:190-204 | one more line overwrites the value exactly when it is an anchor line whose window yields a value |
| Window.CollectWindow | extractor.py:51-58 | the counting loop returns the first `cap` accepted lines of the window, in order |
| Window.CollectAfterFirstAnchor | extractor.py:48-59 | the collect scan returns the parts of the window after the first anchor line, or none without an anchor |
| Window.HarvestExtends | extractor.py:51-58 | the accepted lines of a shorter window are a prefix of those of a longer one |
| Window.WindowValueIff | extractor.py:38-43 | a window yields a value exactly when some window line is accepted, and then it is the first accepted line's value |
| Window.FirstAnchorValueSpec | extractor.py:36-44 | the first-anchor value is the value of the first accepted line in the first anchor's window; a non-empty value comes from such a line |
| Window.FirstAnchorLineSpec | extractor.py:36-44 | for line tests: the value is the first passing line of the first anchor's window; it is non-empty if any window line passes; a non-empty value is such a line |
| Window.LastAnchorValueSpec | extractor.py:128-136 | the every-anchor value is the window value of the last yielding anchor line; it is `""` when no anchor window yields anything |
| Window.LastAnchorWindowSpec | extractor.py:190-204 | a non-empty value is the first accepted line of some anchor's window, and every later anchor's window is silent; if some anchor's window is not silent, the value is non-empty |
| Window.HarvestMembers | extractor.py:51-56 | a string is collected exactly when it is the value of an accepted line of the window |
| Window.FirstAnchorHarvestSpec | extractor.py:48-59 | for any test: at most `cap` parts; each is the value of an accepted line of the first anchor's window; all are kept when they fit in `cap` |
| Window.PassingIndicesBounds | extractor.py:51-55 | the passing indices of a window are indices of existing window lines that pass the test |
| Window.PassingIndicesIncreasing | extractor.py:51 | the passing indices come in strictly increasing order, as `for j in range(1, 10)` visits them |
| Window.PassingIndicesComplete | extractor.py:51-55 | every existing window line that passes the test has its index among the passing indices |
| Window.HarvestIsPassingLines | extractor.py:51-56 | for line tests the appended parts are the passing lines, index by index, in window order |
| Window.TakeKeepsEarlier | extractor.py:57-58 | stopping at `cap` picks keeps every index below the last one kept, and all of them when fewer than `cap` are kept |
| Window.TakePassingPicksFirst | extractor.py:51-58 | the first `cap` passing indices are increasing passing indices with none skipped before the last pick, and none skipped at all when fewer than `cap` exist |
| Window.TakeHarvestIsFirstPassing | extractor.py:51-58 | for line tests the counting loop keeps exactly the first `cap` passing lines of the window, in window order |
| Window.FirstAnchorHarvestAt | extractor.py:48-59 | when line `i` is the first anchor line, the collect scan keeps the capped parts of `i`'s window |
| Window.NoAnchorHarvestsNothing | extractor.py:48-59 | without an anchor line the collect scan keeps nothing |
| Window.FirstAnchorHarvestIsFirstPassing | extractor.py:48-59 | for line tests the collect scan keeps the first `cap` passing lines of the first anchor's window, in window order |
| Window.FirstAnchorHarvestLineSpec | extractor.py:109-120 | for line tests: the parts are non-empty passing lines of the first anchor's window, exactly its first `cap` passing lines in window order; nothing is kept without an anchor |
| Extractor.Extract | extractor.py:28-207 | the record as a function of the text; each field is stated by the `Properties` lemmas |
| Extractor.ExtractFields | extractor.py:28-207 | the sequence of scans returns exactly `Extract(text)` |
| Fields.ToJson | extractor.py:30-206 | the dictionary `data` built from the record; its shape is stated by `Fields.DictionaryHasEveryKey` |
| Fields.DictionaryHasEveryKey | extractor.py:30-206 | the returned dictionary always has the 17 keys in the source's order, whatever was found; `auditor_frn_or_membership` has `frn`, `pan`, `period_of_account` has `from`, `to`, `years`, `director` has `name`, `din`, and `attachments` is a list |
| Properties.ProbeOnLines | extractor.py:40 | on `lines`, a line test yields the line itself exactly when the line passes, because each line is already stripped |
| Properties.LineFieldSpec | extractor.py:36-44 | for a first-anchor field: a non-empty value passes the field's test and is the first passing line in the window after the first anchor; it is non-empty if any window line passes |
| Properties.CompanyNameSpec | extractor.py:35-45 | company name: the first upper-case, non-boilerplate line among the 4 after the first `Name of the company` line |
| Properties.AppointmentTypeSpec | extractor.py:65-75 | appointment type: the first non-empty, non-boilerplate line among the 3 after the first `Nature of appointment` line |
| Properties.NumberOfAuditorsSpec | extractor.py:77-87 | number of auditors: the first all-digit, non-boilerplate line among the 3 after the first anchor line |
| Properties.AuditorNameSpec | extractor.py:89-99 | auditor name: the first upper-case, non-boilerplate line among the 4 after the first anchor line |
| Properties.DirectorNameSpec | extractor.py:172-181 | director name: the first non-boilerplate line among the 2 after the first `Digitally signed by` line |
| Properties.YearsSpec | extractor.py:137-143 | years: the leftmost maximal digit run of the first line holding the years label, `""` if it has none, and later anchor lines are ignored |
| Properties.LastFieldSpec | extractor.py:152-166 | for an every-anchor field: a non-empty value is what the window of some anchor line yields, and every later anchor window is silent; it is non-empty when some anchor window yields |
| Properties.PeriodFromSpec | extractor.py:126-132 | period from: the first date token of the last line starting with `From` that contains one, boilerplate not excluded |
| Properties.PeriodToSpec | extractor.py:133-136 | period to: the same rule for lines starting with `To` |
| Properties.AgmDateSpec | extractor.py:150-159 | AGM date: the first date token among the 2 lines after the last `date of AGM` line whose window has one |
| Properties.AppointmentDateSpec | extractor.py:160-166 | appointment date: the same rule after `Date of appointment` |
| Properties.ResolutionNumberSpec | extractor.py:188-197 | board resolution number: the first all-digit, non-boilerplate line among the 2 after the last `resolution number` line whose window has one |
| Properties.ResolutionDateSpec | extractor.py:198-204 | board resolution date: the whole first non-boilerplate line starting with a date among the 2 after the last `dated` line whose window has one |
| Properties.AddressFieldSpec | extractor.py:48-60 | a collected field is the `", "`-join of the parts: the first `cap` lines, in order, of the window after the first anchor line that are non-empty, not boilerplate, without `@` and not starting with `email` in any case; no parts without an anchor line; the value is empty exactly when there are no parts |
| Properties.RegisteredOfficeSpec | extractor.py:47-60 | registered office: the first 5 such lines, in order, from the 9 after the first anchor line, joined |
| Properties.AuditorAddressSpec | extractor.py:108-121 | auditor address: the first 6 such lines, in order, from the 9 after the first anchor line, joined |
| Properties.SearchFieldSpec | extractor.py:32-33 | a searched field is the leftmost-longest match of its pattern in the text, or `""` exactly when the pattern matches nowhere |
| Properties.CinSpec | extractor.py:32-33 | `cin` is the leftmost CIN-shaped text, or `""` when there is none |
| Properties.EmailSpec | extractor.py:62-63 | `email` is the leftmost-longest email-shaped text, or `""` |
| Properties.FrnSpec | extractor.py:101-104 | `frn` is the leftmost-longest FRN-shaped text, or `""` |
| Properties.PanSpec | extractor.py:102-105 | `pan` is the leftmost PAN-shaped text, or `""` |
| Properties.AuditorEmailSpec | extractor.py:123-124 | `auditor_email` is the leftmost-longest `mallyaandmallya@...` text, or `""` |
| Properties.DinSpec | extractor.py:182-185 | `din` is the leftmost 8-digit number between word boundaries, or `""` |
| Properties.FindAllSpec | extractor.py:170 | the `findall` texts are longest matches, in order, without overlap, and every match position lies inside one of them |
| Properties.AttachmentsSpec | extractor.py:170 | `attachments` is that list for the `.pdf` pattern |
| Properties.NoLines | extractor.py:29 | empty text has no lines |
| Properties.NoMatch | extractor.py:32-182 | no pattern matches in empty text |
| Properties.EmptyTextSpec | extractor.py:30-206 | from empty text every field keeps its default: `""` everywhere and no attachments |

## Left out

- `extract_text_pymupdf` (extractor.py:18-26): this reads the PDF through the foreign PyMuPDF library. `Extract` takes the text as its input instead.
- `main` (extractor.py:209-214): printing and writing `output.json`. The model stops at the dictionary (`Fields.ToJson`) and does not model `json.dumps` formatting.
- `generate_summary.py` is not part of this model. It loads files and calls a remote generative API, and has no extraction logic.
- Python's Unicode character classes.
  - `\w`, `\d`, `isupper`, `isdigit` and `lower` are modelled on ASCII letters and digits.
  - `strip` and `splitlines` use Python's full whitespace and line-boundary lists.
- `Text.SplitLines`: like `splitlines`, it treats `\r\n` as one boundary only in its effect. It counts two boundaries with an empty piece between them, which the empty-line filter drops (`Text.CrLfIsOneBreak`).
- General regular expressions: there is no regex engine. Each of the source's fixed patterns is a hand-written matcher, proved longest against its own language.
- Paired loops. The source shares one outer loop between two independent fields: `From`/`To`, AGM/appointment date, and board resolution number/date. The model scans each field separately. The fields' variables are disjoint, so the results are the same.
- `From`/`To` lines and the years line are modelled as a window of the anchor line alone (offsets 0 to 0). The date or number token is then searched in that line.
- Window.CollectWindow: requires a window and a cap of at least 1. Every call in the source meets this (a window of 10, caps of 5 and 6).
- Fields.ToJson: no round trip is proved from the dictionary back to the record. Only the keys and their order, at the top level and in the three nested objects, are proved (`Fields.DictionaryHasEveryKey`).
- Window.FirstAnchorHarvestSpec: for a general test it states membership and the cap, not window order. Both collected fields use line tests, and for those `Window.FirstAnchorHarvestLineSpec` states the order and which lines are kept.
- Boilerplate.IsHeader, Text.Lines, Probes.Try, Extractor.Extract, Fields.ToJson: these are definitions without a contract of their own. The lemmas named in their rows state their properties.
- Attachments. One line such as `report.pdf and form.pdf` yields ONE attachment here, not two. Read as one file name per match, the pattern would give two. But the class `[\w .'-]` includes the space, and greedy backtracking stops at the last `.pdf`, so the whole `report.pdf and form.pdf` is one match.
