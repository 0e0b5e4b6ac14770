/**
 * The regular expressions of the extractor (extractor.py lines 32, 62, 101,
 * 102, 123, 130, 140, 182 and 170), each written as a matcher that tries the
 * pattern at one position in the order Python's backtracking engine explores
 * it, and `re.search` / `re.findall` built on those matchers.
 *
 * Every matcher is paired with a declarative description of the pattern's
 * language (`Accepts`), and the `...IsLongest` lemmas show that what the
 * backtracking order finds is the longest text the pattern accepts there.
 */
module Patterns {
  import opened Optional
  import opened Text

  /** The regular expressions the extractor uses. */
  datatype Regex =
    | Cin           // [Uu][0-9]{5}[A-Z]{2}[0-9]{4}PTC[0-9]{6}
    | Email         // [\w.-]+@[\w.-]+
    | Frn           // \b[0-9]{6}[A-Z]?\b
    | Pan           // [A-Z]{5}[0-9]{4}[A-Z]{1}
    | AuditorEmail  // mallyaandmallya@[\w.-]+
    | Date          // [0-9]{1,2}/[0-9]{1,2}/[0-9]{4}
    | Number        // [0-9]+
    | Din           // \b[0-9]{8}\b
    | Attachment    // ([\w .'-]+\.pdf)

  /** A match object: where it starts and its `group(0)`. */
  datatype Match = Match(start: nat, text: string) {
    function End(): nat { start + |text| }
  }

  /** The class `[\w.-]`. */
  predicate IsEmailChar(c: char) { IsWordChar(c) || c == '.' || c == '-' }

  /** The class `[\w .'-]`. */
  predicate IsFileNameChar(c: char) { IsWordChar(c) || c == ' ' || c == '.' || c == '\'' || c == '-' }

  /** `\b` at position `p`: a word character on exactly one side. */
  predicate WordBoundary(s: string, p: nat)
    requires p <= |s|
  {
    (0 < p && IsWordChar(s[p - 1])) != (p < |s| && IsWordChar(s[p]))
  }

  /** The literal that the auditor's e-mail address must start with. */
  const AuditorPrefix: string := "mallyaandmallya@"

  /** The file extension that ends an attachment name. */
  const PdfSuffix: string := ".pdf"

  /** `s[k..k + 21]` has the shape of a CIN. */
  predicate CinShapeAt(s: string, k: nat) {
    && k + 21 <= |s|
    && (s[k] == 'U' || s[k] == 'u')
    && AllInRange(s, k + 1, k + 6, IsDigit)
    && AllInRange(s, k + 6, k + 8, IsAsciiUpper)
    && AllInRange(s, k + 8, k + 12, IsDigit)
    && s[k + 12] == 'P' && s[k + 13] == 'T' && s[k + 14] == 'C'
    && AllInRange(s, k + 15, k + 21, IsDigit)
  }

  /** `s[k..k + 10]` has the shape of a PAN. */
  predicate PanShapeAt(s: string, k: nat) {
    && k + 10 <= |s|
    && AllInRange(s, k, k + 5, IsAsciiUpper)
    && AllInRange(s, k + 5, k + 9, IsDigit)
    && IsAsciiUpper(s[k + 9])
  }

  /** A date at `k` whose day has `a` digits and whose month has `b` digits. */
  predicate DateLayout(s: string, k: nat, a: nat, b: nat) {
    && k + a + b + 6 <= |s|
    && AllInRange(s, k, k + a, IsDigit)
    && s[k + a] == '/'
    && AllInRange(s, k + a + 1, k + a + 1 + b, IsDigit)
    && s[k + a + 1 + b] == '/'
    && AllInRange(s, k + a + b + 2, k + a + b + 6, IsDigit)
  }

  /** `s[k..e]` is an address `[\w.-]+@[\w.-]+` whose '@' is at `p`. */
  predicate EmailSplit(s: string, k: nat, p: nat, e: nat) {
    && k < p && p + 1 < e <= |s|
    && AllInRange(s, k, p, IsEmailChar)
    && s[p] == '@'
    && AllInRange(s, p + 1, e, IsEmailChar)
  }

  /** The language of each pattern: it matches exactly `s[k..e]`, in the context `s`. */
  ghost predicate Accepts(re: Regex, s: string, k: nat, e: nat) {
    && k < e <= |s|
    && match re
       case Cin => e == k + 21 && CinShapeAt(s, k)
       case Email => exists p :: EmailSplit(s, k, p, e)
       case Frn =>
         && (e == k + 6 || (e == k + 7 && IsAsciiUpper(s[k + 6])))
         && AllInRange(s, k, k + 6, IsDigit)
         && WordBoundary(s, k) && WordBoundary(s, e)
       case Pan => e == k + 10 && PanShapeAt(s, k)
       case AuditorEmail =>
         k + |AuditorPrefix| < e && OccursAt(s, AuditorPrefix, k) && AllInRange(s, k + |AuditorPrefix|, e, IsEmailChar)
       case Date => exists a, b :: 1 <= a <= 2 && 1 <= b <= 2 && e == k + a + b + 6 && DateLayout(s, k, a, b)
       case Number => AllInRange(s, k, e, IsDigit)
       case Din => e == k + 8 && AllInRange(s, k, e, IsDigit) && WordBoundary(s, k) && WordBoundary(s, e)
       case Attachment => k + 5 <= e && AllInRange(s, k, e - 4, IsFileNameChar) && OccursAt(s, PdfSuffix, e - 4)
  }

  /** `r` is the longest text that `re` accepts at `k`, or None when it accepts nothing there. */
  ghost predicate IsLongestAt(re: Regex, s: string, k: nat, r: Option<string>) {
    match r
    case Some(t) =>
      && k + |t| <= |s| && t == s[k..k + |t|] && Accepts(re, s, k, k + |t|)
      && forall e :: k + |t| < e ==> !Accepts(re, s, k, e)
    case None => forall e :: !Accepts(re, s, k, e)
  }

  /** Length of the greedy run of `cls` characters starting at `k`. */
  function RunLength(s: string, k: nat, cls: char -> bool): (n: nat)
    requires k <= |s|
    ensures k + n <= |s|
    ensures forall i :: k <= i < k + n ==> cls(s[i])
    ensures k + n < |s| ==> !cls(s[k + n])
    decreases |s| - k
  {
    if k < |s| && cls(s[k]) then 1 + RunLength(s, k + 1, cls) else 0
  }

  /** No run of `cls` from `k` is longer than the greedy one. */
  lemma RunBound(s: string, k: nat, cls: char -> bool, e: nat)
    requires k <= e <= |s| && AllInRange(s, k, e, cls)
    ensures e <= k + RunLength(s, k, cls)
  {
  }

  /** Backtracking of `[\w .'-]+\.pdf`: the largest `j` in 1..m with ".pdf" at `k + j`. */
  function PdfTail(s: string, k: nat, m: nat): (r: Option<nat>)
    ensures r.Some? ==> 1 <= r.value <= m && OccursAt(s, PdfSuffix, k + r.value)
    ensures r.None? ==> forall q :: k < q <= k + m ==> !OccursAt(s, PdfSuffix, q)
    ensures r.Some? ==> forall q :: k + r.value < q <= k + m ==> !OccursAt(s, PdfSuffix, q)
    decreases m
  {
    if m == 0 then None
    else if OccursAt(s, PdfSuffix, k + m) then Some(m)
    else PdfTail(s, k, m - 1)
  }

  /** A match result is either nothing or a non-empty slice of `s` starting at `k`. */
  predicate IsTextAt(s: string, k: nat, r: Option<string>) {
    r.Some? ==> 1 <= |r.value| && k + |r.value| <= |s| && r.value == s[k..k + |r.value|]
  }

  function CinAt(s: string, k: nat): (r: Option<string>)
    requires k <= |s|
    ensures IsTextAt(s, k, r)
  {
    if CinShapeAt(s, k) then Some(s[k..k + 21]) else None
  }

  /** Each `[\w.-]+` is greedy; the one before '@' cannot give back, since '@' is not in the class. */
  function EmailAt(s: string, k: nat): (r: Option<string>)
    requires k <= |s|
    ensures IsTextAt(s, k, r)
  {
    var n := RunLength(s, k, IsEmailChar);
    if n >= 1 && k + n < |s| && s[k + n] == '@' then
      var n' := RunLength(s, k + n + 1, IsEmailChar);
      if n' >= 1 then Some(s[k..k + n + 1 + n']) else None
    else None
  }

  /** `[A-Z]?` is greedy: the letter is taken first and given back when `\b` fails after it. */
  function FrnAt(s: string, k: nat): (r: Option<string>)
    requires k <= |s|
    ensures IsTextAt(s, k, r)
  {
    if k + 6 <= |s| && AllInRange(s, k, k + 6, IsDigit) && WordBoundary(s, k) then
      if k + 7 <= |s| && IsAsciiUpper(s[k + 6]) && WordBoundary(s, k + 7) then Some(s[k..k + 7])
      else if WordBoundary(s, k + 6) then Some(s[k..k + 6])
      else None
    else None
  }

  function PanAt(s: string, k: nat): (r: Option<string>)
    requires k <= |s|
    ensures IsTextAt(s, k, r)
  {
    if PanShapeAt(s, k) then Some(s[k..k + 10]) else None
  }

  function AuditorEmailAt(s: string, k: nat): (r: Option<string>)
    requires k <= |s|
    ensures IsTextAt(s, k, r)
  {
    if OccursAt(s, AuditorPrefix, k) then
      var n := RunLength(s, k + |AuditorPrefix|, IsEmailChar);
      if n >= 1 then Some(s[k..k + |AuditorPrefix| + n]) else None
    else None
  }

  /** `{1,2}` is greedy: two digits are tried before one, for the day and then for the month. */
  function DateAt(s: string, k: nat): (r: Option<string>)
    requires k <= |s|
    ensures IsTextAt(s, k, r)
  {
    if DateLayout(s, k, 2, 2) then Some(s[k..k + 10])
    else if DateLayout(s, k, 2, 1) then Some(s[k..k + 9])
    else if DateLayout(s, k, 1, 2) then Some(s[k..k + 9])
    else if DateLayout(s, k, 1, 1) then Some(s[k..k + 8])
    else None
  }

  function NumberAt(s: string, k: nat): (r: Option<string>)
    requires k <= |s|
    ensures IsTextAt(s, k, r)
  {
    var n := RunLength(s, k, IsDigit);
    if n >= 1 then Some(s[k..k + n]) else None
  }

  function DinAt(s: string, k: nat): (r: Option<string>)
    requires k <= |s|
    ensures IsTextAt(s, k, r)
  {
    if k + 8 <= |s| && AllInRange(s, k, k + 8, IsDigit) && WordBoundary(s, k) && WordBoundary(s, k + 8)
    then Some(s[k..k + 8])
    else None
  }

  /** The greedy run of `[\w .'-]`, then backtracking until `\.pdf` follows. */
  function AttachmentAt(s: string, k: nat): (r: Option<string>)
    requires k <= |s|
    ensures IsTextAt(s, k, r)
  {
    match PdfTail(s, k, RunLength(s, k, IsFileNameChar))
    case Some(m) => Some(s[k..k + m + |PdfSuffix|])
    case None => None
  }

  /** The pattern tried at position `k` of `s`, as Python's engine tries it. */
  function MatchAt(re: Regex, s: string, k: nat): (r: Option<string>)
    requires k <= |s|
    ensures r.Some? ==> 1 <= |r.value| && k + |r.value| <= |s| && r.value == s[k..k + |r.value|]
  {
    match re
    case Cin => CinAt(s, k)
    case Email => EmailAt(s, k)
    case Frn => FrnAt(s, k)
    case Pan => PanAt(s, k)
    case AuditorEmail => AuditorEmailAt(s, k)
    case Date => DateAt(s, k)
    case Number => NumberAt(s, k)
    case Din => DinAt(s, k)
    case Attachment => AttachmentAt(s, k)
  }

  /** A day and a month of `[0-9]{1,2}` are each fixed by where the next '/' is. */
  lemma DateLayoutUnique(s: string, k: nat, a: nat, b: nat, a': nat, b': nat)
    requires 1 <= a <= 2 && 1 <= b <= 2 && 1 <= a' <= 2 && 1 <= b' <= 2
    requires DateLayout(s, k, a, b) && DateLayout(s, k, a', b')
    ensures a == a' && b == b'
  {
  }

  lemma CinIsLongest(s: string, k: nat)
    requires k <= |s|
    ensures IsLongestAt(Cin, s, k, CinAt(s, k))
  {
  }

  /** Both runs of an address are as long as the class allows, and the '@' ends the first. */
  lemma EmailSplitIsGreedy(s: string, k: nat, p: nat, e: nat)
    requires EmailSplit(s, k, p, e)
    ensures p == k + RunLength(s, k, IsEmailChar) && e <= p + 1 + RunLength(s, p + 1, IsEmailChar)
  {
    RunBound(s, k, IsEmailChar, p);
    RunBound(s, p + 1, IsEmailChar, e);
  }

  /** Whatever address the pattern accepts at `k` ends no later than the greedy one. */
  lemma EmailAcceptsAtMost(s: string, k: nat, e: nat)
    requires k <= |s| && Accepts(Email, s, k, e)
    ensures EmailAt(s, k).Some? && e <= k + |EmailAt(s, k).value|
  {
    var p :| EmailSplit(s, k, p, e);
    EmailSplitIsGreedy(s, k, p, e);
  }

  lemma EmailIsLongest(s: string, k: nat)
    requires k <= |s|
    ensures IsLongestAt(Email, s, k, EmailAt(s, k))
  {
    forall e: nat | Accepts(Email, s, k, e)
      ensures EmailAt(s, k).Some? && e <= k + |EmailAt(s, k).value|
    {
      EmailAcceptsAtMost(s, k, e);
    }
    if EmailAt(s, k).Some? {
      assert EmailSplit(s, k, k + RunLength(s, k, IsEmailChar), k + |EmailAt(s, k).value|);
    }
  }

  lemma FrnIsLongest(s: string, k: nat)
    requires k <= |s|
    ensures IsLongestAt(Frn, s, k, FrnAt(s, k))
  {
  }

  lemma PanIsLongest(s: string, k: nat)
    requires k <= |s|
    ensures IsLongestAt(Pan, s, k, PanAt(s, k))
  {
  }

  lemma AuditorEmailIsLongest(s: string, k: nat)
    requires k <= |s|
    ensures IsLongestAt(AuditorEmail, s, k, AuditorEmailAt(s, k))
  {
    var h := k + |AuditorPrefix|;
    if OccursAt(s, AuditorPrefix, k) {
      forall e: nat | Accepts(AuditorEmail, s, k, e)
        ensures e <= h + RunLength(s, h, IsEmailChar)
      {
        RunBound(s, h, IsEmailChar, e);
      }
    }
  }

  lemma DateIsLongest(s: string, k: nat)
    requires k <= |s|
    ensures IsLongestAt(Date, s, k, DateAt(s, k))
  {
    forall e, a, b | 1 <= a <= 2 && 1 <= b <= 2 && e == k + a + b + 6 && DateLayout(s, k, a, b)
      ensures DateAt(s, k) == Some(s[k..e])
    {
      if DateLayout(s, k, 2, 2) {
        DateLayoutUnique(s, k, a, b, 2, 2);
      } else if DateLayout(s, k, 2, 1) {
        DateLayoutUnique(s, k, a, b, 2, 1);
      } else if DateLayout(s, k, 1, 2) {
        DateLayoutUnique(s, k, a, b, 1, 2);
      } else {
        DateLayoutUnique(s, k, a, b, 1, 1);
      }
    }
    if DateLayout(s, k, 2, 2) {
      assert Accepts(Date, s, k, k + 10);
    } else if DateLayout(s, k, 2, 1) {
      assert Accepts(Date, s, k, k + 9);
    } else if DateLayout(s, k, 1, 2) {
      assert Accepts(Date, s, k, k + 9);
    } else if DateLayout(s, k, 1, 1) {
      assert Accepts(Date, s, k, k + 8);
    }
  }

  lemma NumberIsLongest(s: string, k: nat)
    requires k <= |s|
    ensures IsLongestAt(Number, s, k, NumberAt(s, k))
  {
    forall e: nat | Accepts(Number, s, k, e)
      ensures e <= k + RunLength(s, k, IsDigit)
    {
      RunBound(s, k, IsDigit, e);
    }
  }

  lemma DinIsLongest(s: string, k: nat)
    requires k <= |s|
    ensures IsLongestAt(Din, s, k, DinAt(s, k))
  {
  }

  lemma AttachmentIsLongest(s: string, k: nat)
    requires k <= |s|
    ensures IsLongestAt(Attachment, s, k, AttachmentAt(s, k))
  {
    var n := RunLength(s, k, IsFileNameChar);
    forall e: nat | Accepts(Attachment, s, k, e)
      ensures k < e - 4 <= k + n && OccursAt(s, PdfSuffix, e - 4)
    {
      RunBound(s, k, IsFileNameChar, e - 4);
    }
  }

  /** What every matcher finds is the longest text its pattern accepts at that position. */
  lemma MatchAtIsLongest(re: Regex, s: string, k: nat)
    requires k <= |s|
    ensures IsLongestAt(re, s, k, MatchAt(re, s, k))
  {
    match re
    case Cin => CinIsLongest(s, k);
    case Email => EmailIsLongest(s, k);
    case Frn => FrnIsLongest(s, k);
    case Pan => PanIsLongest(s, k);
    case AuditorEmail => AuditorEmailIsLongest(s, k);
    case Date => DateIsLongest(s, k);
    case Number => NumberIsLongest(s, k);
    case Din => DinIsLongest(s, k);
    case Attachment => AttachmentIsLongest(s, k);
  }

  /** `re.search(re, s[from..])`: the match at the leftmost position where the pattern matches. */
  function Search(re: Regex, s: string, from: nat): (r: Option<Match>)
    ensures r.Some? ==> from <= r.value.start <= |s| && MatchAt(re, s, r.value.start) == Some(r.value.text)
    ensures forall k :: from <= k <= |s| && (r.None? || k < r.value.start) ==> MatchAt(re, s, k).None?
    decreases |s| + 1 - from
  {
    if from > |s| then None
    else
      match MatchAt(re, s, from)
      case Some(t) => Some(Match(from, t))
      case None => Search(re, s, from + 1)
  }

  /** `re.search` finds the leftmost-longest text the pattern accepts, and finds nothing only when it accepts nothing. */
  lemma SearchIsLeftmostLongest(re: Regex, s: string, from: nat)
    ensures match Search(re, s, from)
            case Some(m) =>
              && from <= m.start && IsLongestAt(re, s, m.start, Some(m.text))
              && forall k, e :: from <= k < m.start ==> !Accepts(re, s, k, e)
            case None => forall k, e :: from <= k ==> !Accepts(re, s, k, e)
  {
    forall k, e | from <= k && Accepts(re, s, k, e)
      ensures MatchAt(re, s, k).Some?
    {
      MatchAtIsLongest(re, s, k);
    }
    match Search(re, s, from)
    case Some(m) => MatchAtIsLongest(re, s, m.start);
    case None =>
  }

  /** `m.group(0) if m else ""` for a search result. */
  function TextOr(m: Option<Match>): (t: string)
    ensures m.Some? ==> t == m.value.text
    ensures m.None? ==> t == []
  {
    match m
    case Some(x) => x.text
    case None => []
  }

  /** `re.findall(re, s[from..])` as match objects, each search resuming where the last match ended. */
  function FindAll(re: Regex, s: string, from: nat): (r: seq<Match>)
    ensures forall i :: 0 <= i < |r| ==>
              from <= r[i].start && r[i].End() <= |s| && MatchAt(re, s, r[i].start) == Some(r[i].text)
    ensures forall i, j :: 0 <= i < j < |r| ==> r[i].End() <= r[j].start
    decreases |s| + 1 - from
  {
    match Search(re, s, from)
    case None => []
    case Some(m) => [m] + FindAll(re, s, m.End())
  }

  /** The texts of a list of matches, in order: what `re.findall` returns for a one-group pattern. */
  function Texts(ms: seq<Match>): (r: seq<string>)
    ensures |r| == |ms| && forall i :: 0 <= i < |ms| ==> r[i] == ms[i].text
  {
    seq(|ms|, i requires 0 <= i < |ms| => ms[i].text)
  }

  /** A search from `from` stops at or before any later position where the pattern matches. */
  lemma SearchReaches(re: Regex, s: string, from: nat, k: nat)
    requires from <= k <= |s| && MatchAt(re, s, k).Some?
    ensures Search(re, s, from).Some? && from <= Search(re, s, from).value.start <= k
    ensures from < Search(re, s, from).value.End()
  {
  }

  /** One step of `re.findall`: the first match, then the matches after it. */
  lemma FindAllStep(re: Regex, s: string, from: nat)
    requires Search(re, s, from).Some?
    ensures FindAll(re, s, from) == [Search(re, s, from).value] + FindAll(re, s, Search(re, s, from).value.End())
  {
  }

  /** A position inside one of `rest` is inside one of `[m] + rest`. */
  lemma CoveredCons(m: Match, rest: seq<Match>, k: nat, i: nat)
    requires i < |rest| && rest[i].start <= k < rest[i].End()
    ensures exists i' :: 0 <= i' < |[m] + rest| && ([m] + rest)[i'].start <= k < ([m] + rest)[i'].End()
  {
    assert ([m] + rest)[i + 1] == rest[i];
  }

  /** `re.findall` misses no match: every position where the pattern matches lies inside a found match. */
  lemma {:induction false} FindAllCovers(re: Regex, s: string, from: nat, k: nat)
    requires from <= k <= |s| && MatchAt(re, s, k).Some?
    ensures exists i :: 0 <= i < |FindAll(re, s, from)| && FindAll(re, s, from)[i].start <= k < FindAll(re, s, from)[i].End()
    decreases |s| + 1 - from
  {
    SearchReaches(re, s, from, k);
    FindAllStep(re, s, from);
    var m := Search(re, s, from).value;
    var rest := FindAll(re, s, m.End());
    if k < m.End() {
      assert ([m] + rest)[0] == m;
    } else {
      FindAllCovers(re, s, m.End(), k);
      var i :| 0 <= i < |rest| && rest[i].start <= k < rest[i].End();
      CoveredCons(m, rest, k, i);
    }
  }




}
