/**
 * The Python string operations the extractor relies on: `str.strip`,
 * `str.splitlines`, `str.isupper`, `str.isdigit`, `str.lower`,
 * `str.startswith`, the substring test `in` and `str.join`.
 *
 * Whitespace and line boundaries follow Python's full lists; letters, digits
 * and word characters are ASCII (Python's Unicode categories are not modelled).
 */
module Text {

  predicate IsDigit(c: char) { '0' <= c <= '9' }

  predicate IsAsciiUpper(c: char) { 'A' <= c <= 'Z' }

  predicate IsAsciiLower(c: char) { 'a' <= c <= 'z' }

  /** Python's `\w`, restricted to ASCII. */
  predicate IsWordChar(c: char) { IsDigit(c) || IsAsciiUpper(c) || IsAsciiLower(c) || c == '_' }

  /** The characters for which Python's `str.isspace()` holds. */
  predicate IsSpace(c: char) {
    || c == ' '
    || ('\t' <= c <= '\r')
    || ('\U{1c}' <= c <= '\U{1f}')
    || c == '\U{85}' || c == '\U{a0}' || c == '\U{1680}'
    || ('\U{2000}' <= c <= '\U{200a}')
    || c == '\U{2028}' || c == '\U{2029}' || c == '\U{202f}' || c == '\U{205f}' || c == '\U{3000}'
  }

  /** The line boundaries recognised by Python's `str.splitlines()`. */
  predicate IsLineBreak(c: char) {
    || ('\n' <= c <= '\r')
    || ('\U{1c}' <= c <= '\U{1e}')
    || c == '\U{85}' || c == '\U{2028}' || c == '\U{2029}'
  }

  /** Every character in `s[lo..hi]` belongs to the class `cls`. */
  predicate AllInRange(s: string, lo: nat, hi: nat, cls: char -> bool)
    requires lo <= hi <= |s|
  {
    forall i :: lo <= i < hi ==> cls(s[i])
  }

  predicate NoBreak(s: string) {
    forall i :: 0 <= i < |s| ==> !IsLineBreak(s[i])
  }

  /** `s.startswith(p)`. */
  predicate StartsWith(s: string, p: string) { p <= s }

  /** `t` occurs in `s` starting at index `k`. */
  predicate OccursAt(s: string, t: string, k: nat) {
    k + |t| <= |s| && s[k..k + |t|] == t
  }

  /** `t in s` for strings. */
  function Contains(s: string, t: string): (r: bool)
    ensures r <==> exists k: nat :: OccursAt(s, t, k)
    decreases |s|
  {
    if |s| < |t| then false
    else if s[..|t|] == t then
      assert OccursAt(s, t, 0);
      true
    else
      var r := Contains(s[1..], t);
      assert forall k: nat :: OccursAt(s, t, k + 1) <==> OccursAt(s[1..], t, k);
      assert !OccursAt(s, t, 0);
      assert forall k: nat :: OccursAt(s, t, k) ==> k == 0 || OccursAt(s[1..], t, k - 1);
      r
  }

  /** `s.isupper()`: some cased character, and every cased character is upper case. */
  predicate IsUpper(s: string) {
    && (exists i :: 0 <= i < |s| && IsAsciiUpper(s[i]))
    && (forall i :: 0 <= i < |s| ==> !IsAsciiLower(s[i]))
  }

  /** `s.isdigit()`: non-empty and made of digits only. */
  predicate IsDigits(s: string) {
    |s| > 0 && forall i :: 0 <= i < |s| ==> IsDigit(s[i])
  }

  function LowerChar(c: char): (d: char)
    ensures IsAsciiUpper(c) ==> d as int == c as int + 32
    ensures !IsAsciiUpper(c) ==> d == c
  {
    if IsAsciiUpper(c) then (c as int + 32) as char else c
  }

  /** `s.lower()`. */
  function Lower(s: string): (r: string)
    ensures |r| == |s| && forall i :: 0 <= i < |s| ==> r[i] == LowerChar(s[i])
  {
    seq(|s|, i requires 0 <= i < |s| => LowerChar(s[i]))
  }

  /** `s.lstrip()`. */
  function TrimStart(s: string): (r: string)
    ensures |r| <= |s|
  {
    if s != [] && IsSpace(s[0]) then TrimStart(s[1..]) else s
  }

  /** `s.rstrip()`. */
  function TrimEnd(s: string): (r: string)
    ensures |r| <= |s|
  {
    if s != [] && IsSpace(s[|s| - 1]) then TrimEnd(s[..|s| - 1]) else s
  }

  /** `r` is `s[a..a + |r|]` and everything of `s` outside that slice is whitespace. */
  predicate IsTrimmedSlice(s: string, r: string, a: nat) {
    && a + |r| <= |s| && r == s[a..a + |r|]
    && (forall i :: 0 <= i < a ==> IsSpace(s[i]))
    && (forall i :: a + |r| <= i < |s| ==> IsSpace(s[i]))
  }

  /** `s.strip()`: `s` with the whitespace at both ends removed. */
  function Strip(s: string): string {
    TrimEnd(TrimStart(s))
  }

  /** `lstrip` removes a whitespace prefix and stops at the first other character. */
  lemma {:induction false} TrimStartSpec(s: string)
    ensures IsTrimmedSlice(s, TrimStart(s), |s| - |TrimStart(s)|)
    ensures TrimStart(s) == [] || !IsSpace(TrimStart(s)[0])
  {
    if s != [] && IsSpace(s[0]) {
      var t := s[1..];
      TrimStartSpec(t);
      var r := TrimStart(t);
      var a := |t| - |r|;
      assert r == s[a + 1..a + 1 + |r|];
      forall i | 0 <= i < a + 1
        ensures IsSpace(s[i])
      {
        if i > 0 {
          assert s[i] == t[i - 1];
        }
      }
    }
  }

  /** `rstrip` removes a whitespace suffix and stops at the last other character. */
  lemma {:induction false} TrimEndSpec(s: string)
    ensures IsTrimmedSlice(s, TrimEnd(s), 0)
    ensures TrimEnd(s) == [] || !IsSpace(TrimEnd(s)[|TrimEnd(s)| - 1])
  {
    if s != [] && IsSpace(s[|s| - 1]) {
      var t := s[..|s| - 1];
      TrimEndSpec(t);
      var r := TrimEnd(t);
      assert r == s[..|r|];
      forall i | |r| <= i < |s|
        ensures IsSpace(s[i])
      {
        if i < |s| - 1 {
          assert s[i] == t[i];
        }
      }
    }
  }

  /** Trimming a trimmed slice again gives a trimmed slice of the original. */
  lemma TrimmedSliceOfTrimmedSlice(s: string, t: string, a: nat, r: string, b: nat)
    requires IsTrimmedSlice(s, t, a) && IsTrimmedSlice(t, r, b)
    ensures IsTrimmedSlice(s, r, a + b)
  {
    forall i | 0 <= i < |r|
      ensures r[i] == s[a + b + i]
    {
      assert r[i] == t[b + i];
    }
    assert r == s[a + b..a + b + |r|];
    forall i | a <= i < a + b || a + b + |r| <= i < a + |t|
      ensures IsSpace(s[i])
    {
      assert s[i] == t[i - a];
    }
  }

  /** What `strip` removes is whitespace at the two ends, nothing else, and what it keeps has no whitespace at either end. */
  lemma StripSpec(s: string)
    ensures IsTrimmedSlice(s, Strip(s), |s| - |TrimStart(s)|)
    ensures Strip(s) == [] || (!IsSpace(Strip(s)[0]) && !IsSpace(Strip(s)[|Strip(s)| - 1]))
  {
    var t := TrimStart(s);
    var r := TrimEnd(t);
    assert Strip(s) == r;
    TrimStartSpec(s);
    TrimEndSpec(t);
    TrimmedSliceOfTrimmedSlice(s, t, |s| - |t|, r, 0);
    if r != [] {
      assert r[0] == t[0] by { assert r == t[..|r|]; }
    }
  }

  /** A string with no whitespace at either end is its own `strip()`. */
  lemma StripOfTrimmed(r: string)
    requires r == [] || (!IsSpace(r[0]) && !IsSpace(r[|r| - 1]))
    ensures Strip(r) == r
  {
    assert TrimStart(r) == r;
  }

  /** Stripping twice changes nothing more than stripping once. */
  lemma StripIdempotent(s: string)
    ensures Strip(Strip(s)) == Strip(s)
  {
    StripSpec(s);
    StripOfTrimmed(Strip(s));
  }

  /** Characters of `strip(s)` all come from `s`. */
  lemma StripKeepsNoBreak(s: string)
    requires NoBreak(s)
    ensures NoBreak(Strip(s))
  {
    var r := Strip(s);
    var a := |s| - |TrimStart(s)|;
    StripSpec(s);
    assert forall i :: 0 <= i < |r| ==> r[i] == s[a + i];
  }

  /** Index of the first line boundary in `s`, or |s| when there is none. */
  function BreakIndex(s: string): (k: nat)
    ensures k <= |s|
    ensures k < |s| ==> IsLineBreak(s[k])
  {
    if s == [] || IsLineBreak(s[0]) then 0 else 1 + BreakIndex(s[1..])
  }

  /** No line boundary comes before the one BreakIndex finds. */
  lemma {:induction false} BreakIndexIsFirst(s: string)
    ensures NoBreak(s[..BreakIndex(s)])
  {
    if s != [] && !IsLineBreak(s[0]) {
      BreakIndexIsFirst(s[1..]);
      assert s[..BreakIndex(s)] == [s[0]] + s[1..][..BreakIndex(s[1..])];
    }
  }

  /**
   * `s.splitlines()`, each boundary character counted on its own (Python takes
   * "\r\n" as one boundary; after empty lines are dropped the two agree, see
   * CrLfIsOneBreak).
   */
  function SplitLines(s: string): seq<string>
    decreases |s|
  {
    if s == [] then []
    else
      var k := BreakIndex(s);
      if k == |s| then [s] else [s[..k]] + SplitLines(s[k + 1..])
  }

  /** No piece of `splitlines` holds a line boundary. */
  lemma {:induction false} SplitLinesNoBreak(s: string)
    ensures forall j :: 0 <= j < |SplitLines(s)| ==> NoBreak(SplitLines(s)[j])
    decreases |s|
  {
    if s != [] {
      var k := BreakIndex(s);
      BreakIndexIsFirst(s);
      if k < |s| {
        SplitLinesNoBreak(s[k + 1..]);
      } else {
        assert s[..k] == s;
      }
    }
  }

  /** The comprehension `[l.strip() for l in pieces if l.strip()]`. */
  function Clean(pieces: seq<string>): seq<string>
  {
    if pieces == [] then []
    else
      var t := Strip(pieces[0]);
      (if t != [] then [t] else []) + Clean(pieces[1..])
  }

  /** The line sequence the extractor works on (extractor.py line 29). */
  function Lines(text: string): seq<string>
  {
    Clean(SplitLines(text))
  }

  /** What every element of `Lines(text)` is: non-empty, stripped and without boundaries. */
  predicate IsCleanLine(l: string) {
    l != [] && Strip(l) == l && NoBreak(l)
  }

  lemma {:induction false} CleanAppend(x: seq<string>, y: seq<string>)
    ensures Clean(x + y) == Clean(x) + Clean(y)
  {
    if x != [] {
      assert (x + y)[1..] == x[1..] + y;
      CleanAppend(x[1..], y);
    } else {
      assert x + y == y;
    }
  }

  lemma {:induction false} CleanIsClean(pieces: seq<string>)
    requires forall j :: 0 <= j < |pieces| ==> NoBreak(pieces[j])
    ensures forall j :: 0 <= j < |Clean(pieces)| ==> IsCleanLine(Clean(pieces)[j])
  {
    if pieces != [] {
      var t := Strip(pieces[0]);
      var head := if t != [] then [t] else [];
      var rest := Clean(pieces[1..]);
      assert Clean(pieces) == head + rest;
      CleanIsClean(pieces[1..]);
      StripIdempotent(pieces[0]);
      StripKeepsNoBreak(pieces[0]);
      forall j | 0 <= j < |head + rest|
        ensures IsCleanLine((head + rest)[j])
      {
        if j >= |head| {
          assert (head + rest)[j] == rest[j - |head|];
        }
      }
    }
  }

  /** Every line is non-empty, is its own `strip()` and holds no line boundary. */
  lemma LinesAreClean(text: string)
    ensures forall j :: 0 <= j < |Lines(text)| ==> IsCleanLine(Lines(text)[j])
  {
    SplitLinesNoBreak(text);
    CleanIsClean(SplitLines(text));
  }

  /** `sep.join(parts)`. */
  function Join(sep: string, parts: seq<string>): string
  {
    if parts == [] then []
    else if |parts| == 1 then parts[0]
    else parts[0] + sep + Join(sep, parts[1..])
  }

  /** Joining non-empty parts gives the empty string exactly when there are no parts. */
  lemma {:induction false} JoinEmptyIff(sep: string, parts: seq<string>)
    requires forall j :: 0 <= j < |parts| ==> parts[j] != []
    ensures Join(sep, parts) == [] <==> parts == []
  {
    if |parts| > 1 {
      assert |Join(sep, parts)| >= |parts[0]|;
    }
  }

  lemma BreakIndexOfNoBreak(s: string)
    requires NoBreak(s)
    ensures BreakIndex(s) == |s|
  {
  }

  lemma {:induction false} BreakIndexAt(a: string, c: char, b: string)
    requires NoBreak(a) && IsLineBreak(c)
    ensures BreakIndex(a + [c] + b) == |a|
  {
    var s := a + [c] + b;
    if a == [] {
      assert s[0] == c;
    } else {
      BreakIndexAt(a[1..], c, b);
      assert s[1..] == a[1..] + [c] + b;
    }
  }

  lemma {:induction false} SplitLinesStep(s: string, k: nat)
    requires k == BreakIndex(s) && k < |s|
    ensures SplitLines(s) == [s[..k]] + SplitLines(s[k + 1..])
  {
  }


  /** Python's `splitlines` undoes a newline-join of lines that hold no boundary. */
  lemma {:induction false} SplitLinesOfJoin(ls: seq<string>)
    requires forall j :: 0 <= j < |ls| ==> ls[j] != [] && NoBreak(ls[j])
    ensures SplitLines(Join("\n", ls)) == ls
  {
    if |ls| == 1 {
      BreakIndexOfNoBreak(ls[0]);
    } else if |ls| > 1 {
      var rest := Join("\n", ls[1..]);
      assert Join("\n", ls) == ls[0] + ['\n'] + rest;
      SplitLinesAtFirstBreak(ls[0], '\n', rest);
      SplitLinesOfJoin(ls[1..]);
      assert ls == [ls[0]] + ls[1..];
    }
  }


  lemma {:induction false} CleanOfClean(ls: seq<string>)
    requires forall j :: 0 <= j < |ls| ==> IsCleanLine(ls[j])
    ensures Clean(ls) == ls
  {
    if ls != [] {
      CleanOfClean(ls[1..]);
      assert ls == [ls[0]] + ls[1..];
    }
  }

  /** Round trip: the lines of a newline-join of clean lines are those lines. */
  lemma LinesOfJoin(ls: seq<string>)
    requires forall j :: 0 <= j < |ls| ==> IsCleanLine(ls[j])
    ensures Lines(Join("\n", ls)) == ls
  {
    SplitLinesOfJoin(ls);
    CleanOfClean(ls);
  }

  lemma SplitLinesAtFirstBreak(a: string, c: char, b: string)
    requires NoBreak(a) && IsLineBreak(c)
    ensures SplitLines(a + [c] + b) == [a] + SplitLines(b)
  {
    var s := a + [c] + b;
    BreakIndexAt(a, c, b);
    SplitLinesStep(s, |a|);
    assert s[..|a|] == a;
    assert s[|a| + 1..] == b;
  }

  /** The lines of a piece without boundaries: the piece itself, stripped, if anything is left. */
  lemma LinesOfNoBreak(a: string)
    requires NoBreak(a)
    ensures Lines(a) == Clean([a])
  {
    if a != [] {
      BreakIndexOfNoBreak(a);
      assert SplitLines(a) == [a];
    } else {
      assert Strip(a) == [];
    }
  }

  lemma ConcatAssoc<T>(x: seq<T>, y: seq<T>, z: seq<T>)
    ensures x + (y + z) == (x + y) + z
  {
  }

  /** A line boundary splits the line sequence: the lines on each side are kept, in order. */
  lemma {:induction false} LinesSplitAt(a: string, c: char, b: string)
    requires IsLineBreak(c)
    ensures Lines(a + [c] + b) == Lines(a) + Lines(b)
    decreases |a|
  {
    var k := BreakIndex(a);
    BreakIndexIsFirst(a);
    if k == |a| {
      assert a[..k] == a;
      SplitLinesAtFirstBreak(a, c, b);
      CleanAppend([a], SplitLines(b));
      LinesOfNoBreak(a);
    } else {
      var head, d, a' := a[..k], a[k], a[k + 1..];
      var rest := a' + [c] + b;
      assert a == head + [d] + a';
      assert a + [c] + b == head + [d] + rest;
      SplitLinesAtFirstBreak(head, d, rest);
      SplitLinesAtFirstBreak(head, d, a');
      LinesSplitAt(a', c, b);
      CleanAppend([head], SplitLines(rest));
      CleanAppend([head], SplitLines(a'));
      calc {
        Lines(a + [c] + b);
        Clean(SplitLines(head + [d] + rest));
        Clean([head] + SplitLines(rest));
        Clean([head]) + Lines(rest);
        Clean([head]) + (Lines(a') + Lines(b));
        { ConcatAssoc(Clean([head]), Lines(a'), Lines(b)); }
        (Clean([head]) + Lines(a')) + Lines(b);
        Clean([head] + SplitLines(a')) + Lines(b);
        Lines(a) + Lines(b);
      }
    }
  }

  /** Counting "\r\n" as two boundaries instead of Python's one changes no line. */
  lemma CrLfIsOneBreak(a: string, b: string)
    ensures Lines(a + "\r\n" + b) == Lines(a + "\n" + b)
  {
    var nb: string := [] + ['\n'] + b;
    assert a + "\r\n" + b == a + ['\r'] + nb;
    assert a + "\n" + b == a + ['\n'] + b;
    LinesSplitAt(a, '\r', nb);
    LinesSplitAt([], '\n', b);
    assert Lines([]) == [];
    assert Lines(nb) == Lines(b);
    LinesSplitAt(a, '\n', b);
  }
}
