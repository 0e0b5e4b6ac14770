/**
 * The boilerplate classifier: a line is page furniture, instructions or an
 * item marker, never a field value, when any entry of a constant pattern table
 * matches it (HEADER_PATTERNS and is_header, extractor.py lines 8-16).
 */
module Boilerplate {
  import opened Text

  /** One entry of the pattern table, each a fixed regular expression. */
  datatype Pattern =
    | AtStart(literal: string)    // `^literal`
    | Anywhere(literal: string)   // `literal`, anywhere in the line
    | NumberedItem(letter: char)  // `^\d+\.\(letter\)`, e.g. "12.(c)"

  /** The lower-case letter with alphabet position `i`. */
  function Letter(i: nat): (c: char)
    requires i < 26
    ensures IsAsciiLower(c) && c as int == 'a' as int + i
  {
    ('a' as int + i) as char
  }

  /** The entries `^\d+\.\(x\)` for the letters from position `i` up to z. */
  function NumberedItems(i: nat): (r: seq<Pattern>)
    requires i <= 26
    ensures |r| == 26 - i
    ensures forall j :: 0 <= j < |r| ==> r[j] == NumberedItem(Letter(i + j))
    decreases 26 - i
  {
    if i == 26 then [] else [NumberedItem(Letter(i))] + NumberedItems(i + 1)
  }

  /** HEADER_PATTERNS, entry by entry in the source's order: `(a)` to `(z)` come last. */
  const HeaderPatterns: seq<Pattern> := FixedPatterns + NumberedItems(0)

  /** The first nine entries of HEADER_PATTERNS: literals, anchored or not. */
  const FixedPatterns: seq<Pattern> :=
    [ AtStart("(b)"), Anywhere("FORM NO"), Anywhere("Notice to the Registrar"),
      Anywhere("Refer the instruction"), Anywhere("English"), Anywhere("Hindi"),
      Anywhere("Page "), Anywhere("*"), AtStart("(a)") ]

  /** Length of the run of digits that `s` starts with. */
  function LeadingDigits(s: string): (n: nat)
    ensures n <= |s|
    ensures forall i :: 0 <= i < n ==> IsDigit(s[i])
    ensures n < |s| ==> !IsDigit(s[n])
  {
    if s != [] && IsDigit(s[0]) then 1 + LeadingDigits(s[1..]) else 0
  }

  /** `re.search(p, line)` for one entry of the table. */
  predicate Matches(p: Pattern, line: string) {
    match p
    case AtStart(lit) => StartsWith(line, lit)
    case Anywhere(lit) => Contains(line, lit)
    case NumberedItem(c) =>
      // `\d+` is greedy and the next character must be '.', so only the whole
      // leading digit run can be followed by the marker.
      var n := LeadingDigits(line);
      n >= 1 && StartsWith(line[n..], ['.', '(', c, ')'])
  }

  /** The loop of is_header: does any pattern of `pats` match? */
  function AnyMatch(pats: seq<Pattern>, line: string): (r: bool)
    ensures r <==> exists k :: 0 <= k < |pats| && Matches(pats[k], line)
  {
    if pats == [] then false
    else Matches(pats[0], line) || AnyMatch(pats[1..], line)
  }

  /** is_header. */
  predicate IsHeader(line: string) {
    AnyMatch(HeaderPatterns, line)
  }

  /** `line` starts with `<digits>.(<a-z>)`, the digit run being `line[..n]`. */
  predicate ItemMarkerAt(line: string, n: nat) {
    && 1 <= n && n + 4 <= |line|
    && AllInRange(line, 0, n, IsDigit)
    && line[n] == '.' && line[n + 1] == '(' && IsAsciiLower(line[n + 2]) && line[n + 3] == ')'
  }

  /** The boilerplate rule written out by hand, without the table. */
  ghost predicate IsBoilerplate(line: string) {
    || StartsWith(line, "(a)")
    || StartsWith(line, "(b)")
    || Contains(line, "FORM NO")
    || Contains(line, "Notice to the Registrar")
    || Contains(line, "Refer the instruction")
    || Contains(line, "English")
    || Contains(line, "Hindi")
    || Contains(line, "Page ")
    || Contains(line, "*")
    || exists n: nat :: ItemMarkerAt(line, n)
  }

  /** An item marker can only sit after the whole leading digit run. */
  lemma ItemMarkerAfterLeadingDigits(line: string, n: nat)
    requires ItemMarkerAt(line, n)
    ensures LeadingDigits(line) == n
  {
  }

  /** A fixed entry matches exactly when one of the literal tests holds. */
  lemma FixedMatchIff(line: string)
    ensures (exists k :: 0 <= k < 9 && Matches(FixedPatterns[k], line)) <==>
      || StartsWith(line, "(a)") || StartsWith(line, "(b)")
      || Contains(line, "FORM NO") || Contains(line, "Notice to the Registrar")
      || Contains(line, "Refer the instruction") || Contains(line, "English")
      || Contains(line, "Hindi") || Contains(line, "Page ") || Contains(line, "*")
  {
    var f := FixedPatterns;
    assert f[0] == AtStart("(b)") && f[1] == Anywhere("FORM NO") && f[2] == Anywhere("Notice to the Registrar");
    assert f[3] == Anywhere("Refer the instruction") && f[4] == Anywhere("English") && f[5] == Anywhere("Hindi");
    assert f[6] == Anywhere("Page ") && f[7] == Anywhere("*") && f[8] == AtStart("(a)");
  }

  /** The entry for letter `j` matches exactly the lines with marker `<digits>.(<letter j>)`. */
  lemma NumberedItemMatch(line: string, j: nat)
    requires j < 26
    ensures Matches(NumberedItem(Letter(j)), line) <==>
            (ItemMarkerAt(line, LeadingDigits(line)) && line[LeadingDigits(line) + 2] == Letter(j))
  {
    var n := LeadingDigits(line);
    var marker := ['.', '(', Letter(j), ')'];
    if n + 4 <= |line| {
      assert line[n..][..4] == line[n..n + 4];
      assert marker <= line[n..] <==> line[n..n + 4] == marker;
    }
  }

  /** A matching numbered entry shows the line starts with an item marker. */
  lemma NumberedMatchHasMarker(line: string, j: nat)
    requires j < 26 && Matches(NumberedItems(0)[j], line)
    ensures exists n: nat :: ItemMarkerAt(line, n)
  {
    NumberedItemMatch(line, j);
    assert ItemMarkerAt(line, LeadingDigits(line));
  }

  /** An item marker is matched by the entry for its own letter. */
  lemma MarkerHasNumberedMatch(line: string, n: nat)
    requires ItemMarkerAt(line, n)
    ensures exists j :: 0 <= j < 26 && Matches(NumberedItems(0)[j], line)
  {
    ItemMarkerAfterLeadingDigits(line, n);
    var j := line[n + 2] as int - 'a' as int;
    NumberedItemMatch(line, j);
    assert Matches(NumberedItems(0)[j], line);
  }

  /** A numbered entry matches exactly when the line starts with an item marker. */
  lemma NumberedMatchIff(line: string)
    ensures (exists j :: 0 <= j < 26 && Matches(NumberedItems(0)[j], line)) <==>
            (exists n: nat :: ItemMarkerAt(line, n))
  {
    if j :| 0 <= j < 26 && Matches(NumberedItems(0)[j], line) {
      NumberedMatchHasMarker(line, j);
    }
    if n: nat :| ItemMarkerAt(line, n) {
      MarkerHasNumberedMatch(line, n);
    }
  }

  /** The any-match over the table is exactly the hand-written rule. */
  lemma IsHeaderIff(line: string)
    ensures IsHeader(line) <==> IsBoilerplate(line)
  {
    var pats := HeaderPatterns;
    assert forall k :: 0 <= k < 9 ==> pats[k] == FixedPatterns[k];
    assert forall j :: 0 <= j < 26 ==> pats[9 + j] == NumberedItems(0)[j];
    assert forall k :: 9 <= k < |pats| ==> pats[k] == NumberedItems(0)[k - 9];
    FixedMatchIff(line);
    NumberedMatchIff(line);
  }
}
