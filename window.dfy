/**
 * The windowed anchor search that extract_fields repeats for every
 * line-based field: find a line the anchor picks, then look at the lines
 * `lines[i + lo .. i + hi - 1]` (those that exist) for one a probe accepts.
 *
 * The specification functions say which line wins; the methods are the
 * source's nested loops, with their `break`s, proved to compute them.
 * Three schemes occur:
 *   - first anchor only: the outer loop stops at the first anchor line,
 *     found value or not (extractor.py lines 36-44, 66-74, 78-86, 90-98,
 *     138-143, 173-181);
 *   - every anchor: no outer `break`, so each later anchor whose window
 *     yields a value overwrites the earlier one (lines 128-136, 152-166,
 *     190-204);
 *   - collect: after the first anchor, append every accepted line of the
 *     window until a count reaches a cap (lines 48-59, 109-120).
 *
 * An anchor is the test that picks a label line; a probe is the test a
 * window line must pass, giving the value it yields (None: the line does
 * not qualify).
 */
module Window {
  import opened Optional
  import opened Text

  /** The first line at or after `from` that the anchor picks. */
  function FirstAnchor(lines: seq<string>, anchor: string -> bool, from: nat): (r: Option<nat>)
    ensures r.Some? ==> from <= r.value < |lines| && anchor(lines[r.value])
    ensures forall i :: from <= i < |lines| && (r.None? || i < r.value) ==> !anchor(lines[i])
    decreases |lines| - from
  {
    if from >= |lines| then None
    else if anchor(lines[from]) then Some(from)
    else FirstAnchor(lines, anchor, from + 1)
  }

  /** The first existing line among `lines[from..stop - 1]` that the probe accepts. */
  function FirstHit(lines: seq<string>, probe: string -> Option<string>, from: nat, stop: nat): (r: Option<nat>)
    ensures r.Some? ==> from <= r.value < stop && r.value < |lines| && probe(lines[r.value]).Some?
    ensures forall j :: from <= j < stop && j < |lines| && (r.None? || j < r.value) ==> !probe(lines[j]).Some?
    decreases stop - from
  {
    if from >= stop || from >= |lines| then None
    else if probe(lines[from]).Some? then Some(from)
    else FirstHit(lines, probe, from + 1, stop)
  }

  /** What the window `lines[i + lo .. i + hi - 1]` yields: the value of its first accepted line. */
  function WindowValue(lines: seq<string>, probe: string -> Option<string>, i: nat, lo: nat, hi: nat): Option<string> {
    match FirstHit(lines, probe, i + lo, i + hi)
    case Some(j) => probe(lines[j])
    case None => None
  }

  /** The scheme with an outer `break`: only the first anchor line's window counts. */
  function FirstAnchorValue(lines: seq<string>, anchor: string -> bool, probe: string -> Option<string>, lo: nat, hi: nat): string {
    match FirstAnchor(lines, anchor, 0)
    case Some(i) => WindowValue(lines, probe, i, lo, hi).GetOr([])
    case None => []
  }

  /** The last anchor line before `n` whose window yields a value. */
  function LastAnchor(lines: seq<string>, anchor: string -> bool, probe: string -> Option<string>, lo: nat, hi: nat, n: nat): (r: Option<nat>)
    requires n <= |lines|
    ensures r.Some? ==> r.value < n && anchor(lines[r.value]) && WindowValue(lines, probe, r.value, lo, hi).Some?
    ensures forall i :: (if r.Some? then r.value + 1 else 0) <= i < n && anchor(lines[i]) ==>
              WindowValue(lines, probe, i, lo, hi).None?
  {
    if n == 0 then None
    else if anchor(lines[n - 1]) && WindowValue(lines, probe, n - 1, lo, hi).Some? then Some(n - 1)
    else LastAnchor(lines, anchor, probe, lo, hi, n - 1)
  }

  /** The scheme without an outer `break`, once the first `n` lines have been scanned: the last value wins. */
  function LastAnchorValue(lines: seq<string>, anchor: string -> bool, probe: string -> Option<string>, lo: nat, hi: nat, n: nat): string
    requires n <= |lines|
  {
    match LastAnchor(lines, anchor, probe, lo, hi, n)
    case Some(i) => WindowValue(lines, probe, i, lo, hi).value
    case None => []
  }

  /** The values of the accepted lines among the existing `lines[from..stop - 1]`, in order. */
  function Harvest(lines: seq<string>, probe: string -> Option<string>, from: nat, stop: nat): seq<string>
    decreases stop
  {
    if stop <= from then []
    else
      Harvest(lines, probe, from, stop - 1) +
      (if stop - 1 < |lines| && probe(lines[stop - 1]).Some? then [probe(lines[stop - 1]).value] else [])
  }

  /** The first `n` elements of `s`, or all of them when there are fewer. */
  function Take<T>(s: seq<T>, n: nat): (r: seq<T>)
    ensures r <= s && |r| == if |s| <= n then |s| else n
  {
    if |s| <= n then s else s[..n]
  }

  /** The collect scheme: the first `cap` accepted lines of `lines[i + 1 .. i + span - 1]` after the first anchor. */
  function FirstAnchorHarvest(lines: seq<string>, anchor: string -> bool, probe: string -> Option<string>, span: nat, cap: nat): seq<string> {
    match FirstAnchor(lines, anchor, 0)
    case Some(i) => Take(Harvest(lines, probe, i + 1, i + span), cap)
    case None => []
  }

  /** The inner loop: `for j in range(lo, hi): if i + j < len(lines): ... break` at the first accepted line. */
  method ScanWindow(lines: seq<string>, probe: string -> Option<string>, i: nat, lo: nat, hi: nat) returns (r: Option<string>)
    requires lo <= hi
    ensures r == WindowValue(lines, probe, i, lo, hi)
  {
    r := None;
    var j := lo;
    while j < hi
      invariant lo <= j <= hi
      invariant FirstHit(lines, probe, i + lo, i + hi) == FirstHit(lines, probe, i + j, i + hi)
    {
      if i + j < |lines| {
        var v := probe(lines[i + j]);
        if v.Some? {
          r := v;
          break;
        }
      }
      j := j + 1;
    }
  }

  /** The first-anchor scheme: the outer loop breaks at the first anchor line. */
  method ScanFirstAnchor(lines: seq<string>, anchor: string -> bool, probe: string -> Option<string>, lo: nat, hi: nat) returns (v: string)
    requires lo <= hi
    ensures v == FirstAnchorValue(lines, anchor, probe, lo, hi)
  {
    v := [];
    var i := 0;
    while i < |lines|
      invariant 0 <= i <= |lines|
      invariant FirstAnchor(lines, anchor, 0) == FirstAnchor(lines, anchor, i)
    {
      if anchor(lines[i]) {
        var r := ScanWindow(lines, probe, i, lo, hi);
        if r.Some? {
          v := r.value;
        }
        break;
      }
      i := i + 1;
    }
  }

  /** The every-anchor scheme: no outer `break`, each anchor whose window yields a value overwrites `v`. */
  method ScanEveryAnchor(lines: seq<string>, anchor: string -> bool, probe: string -> Option<string>, lo: nat, hi: nat) returns (v: string)
    requires lo <= hi
    ensures v == LastAnchorValue(lines, anchor, probe, lo, hi, |lines|)
  {
    v := [];
    var i := 0;
    while i < |lines|
      invariant 0 <= i <= |lines|
      invariant v == LastAnchorValue(lines, anchor, probe, lo, hi, i)
    {
      LastAnchorValueStep(lines, anchor, probe, lo, hi, i);
      if anchor(lines[i]) {
        var r := ScanWindow(lines, probe, i, lo, hi);
        if r.Some? {
          v := r.value;
        }
      }
      i := i + 1;
    }
  }

  /** Scanning one more line: an anchor line whose window yields a value replaces the value so far. */
  lemma LastAnchorValueStep(lines: seq<string>, anchor: string -> bool, probe: string -> Option<string>, lo: nat, hi: nat, n: nat)
    requires n < |lines|
    ensures LastAnchorValue(lines, anchor, probe, lo, hi, n + 1) ==
            if anchor(lines[n]) && WindowValue(lines, probe, n, lo, hi).Some? then WindowValue(lines, probe, n, lo, hi).value
            else LastAnchorValue(lines, anchor, probe, lo, hi, n)
  {
  }

  lemma PrefixTransitive<T>(a: seq<T>, b: seq<T>, c: seq<T>)
    requires a <= b && b <= c
    ensures a <= c
  {
    assert b[..|a|] == c[..|a|];
  }

  /** The accepted lines up to `t1` are a prefix of those up to any later `t2`. */
  lemma {:induction false} HarvestExtends(lines: seq<string>, probe: string -> Option<string>, from: nat, t1: nat, t2: nat)
    requires t1 <= t2
    ensures Harvest(lines, probe, from, t1) <= Harvest(lines, probe, from, t2)
    decreases t2
  {
    if t1 < t2 {
      HarvestExtends(lines, probe, from, t1, t2 - 1);
      if from < t2 {
        PrefixTransitive(Harvest(lines, probe, from, t1), Harvest(lines, probe, from, t2 - 1), Harvest(lines, probe, from, t2));
      }
    }
  }

  /** Two prefixes of one sequence with the same length are equal. */
  lemma TakeOfPrefix<T>(a: seq<T>, b: seq<T>, n: nat)
    requires a <= b && |a| == n
    ensures Take(b, n) == a
  {
  }

  /** The collecting inner loop: `count` accepted lines are appended and it stops once `count >= cap`. */
  method CollectWindow(lines: seq<string>, probe: string -> Option<string>, i: nat, span: nat, cap: nat) returns (parts: seq<string>)
    requires 1 <= span && 1 <= cap
    ensures parts == Take(Harvest(lines, probe, i + 1, i + span), cap)
  {
    parts := [];
    var count := 0;
    var j := 1;
    while j < span
      invariant 1 <= j <= span
      invariant parts == Harvest(lines, probe, i + 1, i + j)
      invariant count == |parts| < cap
    {
      if i + j < |lines| {
        var v := probe(lines[i + j]);
        if v.Some? {
          parts := parts + [v.value];
          count := count + 1;
        }
      }
      assert parts == Harvest(lines, probe, i + 1, i + j + 1);
      if count >= cap {
        HarvestExtends(lines, probe, i + 1, i + j + 1, i + span);
        TakeOfPrefix(parts, Harvest(lines, probe, i + 1, i + span), cap);
        return;
      }
      j := j + 1;
    }
  }

  /** The collect scheme: the outer loop breaks at the first anchor line, whatever was collected. */
  method CollectAfterFirstAnchor(lines: seq<string>, anchor: string -> bool, probe: string -> Option<string>, span: nat, cap: nat) returns (parts: seq<string>)
    requires 1 <= span && 1 <= cap
    ensures parts == FirstAnchorHarvest(lines, anchor, probe, span, cap)
  {
    parts := [];
    var i := 0;
    while i < |lines|
      invariant 0 <= i <= |lines|
      invariant FirstAnchor(lines, anchor, 0) == FirstAnchor(lines, anchor, i)
    {
      if anchor(lines[i]) {
        parts := CollectWindow(lines, probe, i, span, cap);
        break;
      }
      i := i + 1;
    }
  }

  /** `i` is the first line the anchor picks. */
  ghost predicate IsFirstAnchor(lines: seq<string>, anchor: string -> bool, i: nat) {
    i < |lines| && anchor(lines[i]) && forall i' :: 0 <= i' < i ==> !anchor(lines[i'])
  }

  /** `j` is the first line of the window `lines[i + lo .. i + hi - 1]` that the probe accepts. */
  ghost predicate FirstInWindow(lines: seq<string>, probe: string -> Option<string>, i: nat, lo: nat, hi: nat, j: nat) {
    && i + lo <= j < i + hi && j < |lines| && probe(lines[j]).Some?
    && forall j' :: i + lo <= j' < j ==> probe(lines[j']).None?
  }

  /** A window yields a value exactly when some line of it is accepted, and then the first one's value. */
  lemma WindowValueIff(lines: seq<string>, probe: string -> Option<string>, i: nat, lo: nat, hi: nat)
    ensures WindowValue(lines, probe, i, lo, hi).Some? <==> exists j: nat :: FirstInWindow(lines, probe, i, lo, hi, j)
    ensures forall j: nat :: FirstInWindow(lines, probe, i, lo, hi, j) ==> WindowValue(lines, probe, i, lo, hi) == probe(lines[j])
  {
    match FirstHit(lines, probe, i + lo, i + hi)
    case Some(j) =>
      assert FirstInWindow(lines, probe, i, lo, hi, j);
    case None =>
  }

  /**
   * First anchor wins: the value is the one the window after the first anchor
   * line yields, and nothing else; later anchor lines are never looked at.
   */
  lemma FirstAnchorValueSpec(lines: seq<string>, anchor: string -> bool, probe: string -> Option<string>, lo: nat, hi: nat)
    ensures forall i: nat, j: nat :: IsFirstAnchor(lines, anchor, i) && FirstInWindow(lines, probe, i, lo, hi, j) ==>
              FirstAnchorValue(lines, anchor, probe, lo, hi) == probe(lines[j]).value
    ensures FirstAnchorValue(lines, anchor, probe, lo, hi) != [] ==>
              exists i: nat, j: nat :: IsFirstAnchor(lines, anchor, i) && FirstInWindow(lines, probe, i, lo, hi, j)
  {
    match FirstAnchor(lines, anchor, 0)
    case Some(i) =>
      assert IsFirstAnchor(lines, anchor, i);
      forall i': nat | IsFirstAnchor(lines, anchor, i')
        ensures i' == i
      {
      }
      WindowValueIff(lines, probe, i, lo, hi);
    case None =>
  }

  /** `j` is the first line among the existing `lines[from .. stop - 1]` that passes `ok`. */
  ghost predicate FirstPassing(lines: seq<string>, ok: string -> bool, from: nat, stop: nat, j: nat) {
    from <= j < stop && j < |lines| && ok(lines[j]) && forall j' :: from <= j' < j ==> !ok(lines[j'])
  }

  /**
   * For a probe that yields a line itself exactly when the line passes `ok`,
   * and passes only non-empty lines: the value is the first passing line of
   * the window after the first anchor line, and it is empty only when that
   * window holds no passing line.
   */
  lemma FirstAnchorLineSpec(lines: seq<string>, anchor: string -> bool, probe: string -> Option<string>, ok: string -> bool, lo: nat, hi: nat)
    requires forall j :: 0 <= j < |lines| ==> probe(lines[j]) == if ok(lines[j]) then Some(lines[j]) else None
    requires forall j :: 0 <= j < |lines| && ok(lines[j]) ==> lines[j] != []
    ensures var v := FirstAnchorValue(lines, anchor, probe, lo, hi);
      && (forall i: nat, j: nat :: IsFirstAnchor(lines, anchor, i) && FirstPassing(lines, ok, i + lo, i + hi, j) ==> v == lines[j])
      && (forall i: nat, j: nat ::
            (IsFirstAnchor(lines, anchor, i) && i + lo <= j < i + hi && j < |lines| && ok(lines[j])) ==> v != [])
      && (v != [] ==> exists i: nat, j: nat :: IsFirstAnchor(lines, anchor, i) && FirstPassing(lines, ok, i + lo, i + hi, j) && v == lines[j])
  {
    var v := FirstAnchorValue(lines, anchor, probe, lo, hi);
    FirstAnchorValueSpec(lines, anchor, probe, lo, hi);
    forall i: nat, j: nat | FirstPassing(lines, ok, i + lo, i + hi, j)
      ensures FirstInWindow(lines, probe, i, lo, hi, j)
    {
    }
    forall i: nat, j: nat | IsFirstAnchor(lines, anchor, i) && i + lo <= j < i + hi && j < |lines| && ok(lines[j])
      ensures v != []
    {
      assert FirstAnchor(lines, anchor, 0) == Some(i);
      assert FirstHit(lines, probe, i + lo, i + hi).Some?;
    }
    if v != [] {
      var i: nat, j: nat :| IsFirstAnchor(lines, anchor, i) && FirstInWindow(lines, probe, i, lo, hi, j);
      assert FirstPassing(lines, ok, i + lo, i + hi, j);
    }
  }

  /** `i` is an anchor line whose window yields a value, and no later anchor line's window does. */
  ghost predicate IsLastYielding(lines: seq<string>, anchor: string -> bool, probe: string -> Option<string>, lo: nat, hi: nat, i: nat) {
    && i < |lines| && anchor(lines[i]) && WindowValue(lines, probe, i, lo, hi).Some?
    && forall i' :: i < i' < |lines| && anchor(lines[i']) ==> WindowValue(lines, probe, i', lo, hi).None?
  }

  /**
   * Last occurrence wins: the value comes from the last anchor line whose
   * window yields one, and is empty only when no anchor line's window does.
   */
  lemma LastAnchorValueSpec(lines: seq<string>, anchor: string -> bool, probe: string -> Option<string>, lo: nat, hi: nat)
    ensures forall i: nat :: IsLastYielding(lines, anchor, probe, lo, hi, i) ==>
              LastAnchorValue(lines, anchor, probe, lo, hi, |lines|) == WindowValue(lines, probe, i, lo, hi).value
    ensures (forall i :: 0 <= i < |lines| && anchor(lines[i]) ==> WindowValue(lines, probe, i, lo, hi).None?) ==>
              LastAnchorValue(lines, anchor, probe, lo, hi, |lines|) == []
    ensures LastAnchorValue(lines, anchor, probe, lo, hi, |lines|) != [] ==>
              exists i: nat :: IsLastYielding(lines, anchor, probe, lo, hi, i)
  {
    match LastAnchor(lines, anchor, probe, lo, hi, |lines|)
    case Some(i) =>
      assert IsLastYielding(lines, anchor, probe, lo, hi, i);
      forall i': nat | IsLastYielding(lines, anchor, probe, lo, hi, i')
        ensures i' == i
      {
      }
    case None =>
  }

  /** No line of the window `lines[i + lo .. i + hi - 1]` is accepted. */
  ghost predicate WindowSilent(lines: seq<string>, probe: string -> Option<string>, i: nat, lo: nat, hi: nat) {
    forall j :: i + lo <= j < i + hi && j < |lines| ==> probe(lines[j]).None?
  }

  /**
   * Last occurrence wins, line by line: for a probe whose values are never
   * empty, a non-empty value is the value of the first accepted line of the
   * window after some anchor line, every later anchor line's window is
   * silent, and the value is empty only when every anchor line's window is.
   */
  lemma LastAnchorWindowSpec(lines: seq<string>, anchor: string -> bool, probe: string -> Option<string>, lo: nat, hi: nat)
    requires forall l :: probe(l).Some? ==> probe(l).value != []
    ensures var v := LastAnchorValue(lines, anchor, probe, lo, hi, |lines|);
      && (v != [] ==> exists i: nat, j: nat ::
            && i < |lines| && anchor(lines[i]) && FirstInWindow(lines, probe, i, lo, hi, j) && probe(lines[j]) == Some(v)
            && forall i' :: i < i' < |lines| && anchor(lines[i']) ==> WindowSilent(lines, probe, i', lo, hi))
      && ((exists i: nat :: i < |lines| && anchor(lines[i]) && !WindowSilent(lines, probe, i, lo, hi)) ==> v != [])
  {
    var v := LastAnchorValue(lines, anchor, probe, lo, hi, |lines|);
    match LastAnchor(lines, anchor, probe, lo, hi, |lines|)
    case Some(i) =>
      var j := FirstHit(lines, probe, i + lo, i + hi).value;
      assert FirstInWindow(lines, probe, i, lo, hi, j);
      forall i' | i < i' < |lines| && anchor(lines[i'])
        ensures WindowSilent(lines, probe, i', lo, hi)
      {
        assert WindowValue(lines, probe, i', lo, hi).None?;
      }
    case None =>
      forall i: nat | i < |lines| && anchor(lines[i])
        ensures WindowSilent(lines, probe, i, lo, hi)
      {
        assert WindowValue(lines, probe, i, lo, hi).None?;
      }
  }

  /** The harvested values are exactly the values of the accepted lines of the window. */
  lemma {:induction false} HarvestMembers(lines: seq<string>, probe: string -> Option<string>, from: nat, stop: nat, x: string)
    ensures x in Harvest(lines, probe, from, stop) <==>
            exists j :: from <= j < stop && j < |lines| && probe(lines[j]) == Some(x)
    decreases stop
  {
    if from < stop {
      HarvestMembers(lines, probe, from, stop - 1, x);
      if exists j :: from <= j < stop && j < |lines| && probe(lines[j]) == Some(x) {
        var j :| from <= j < stop && j < |lines| && probe(lines[j]) == Some(x);
        if j < stop - 1 {
          assert x in Harvest(lines, probe, from, stop - 1);
        }
      }
    }
  }

  /** What `Take` keeps is an element of the sequence it takes from. */
  lemma TakeMember<T>(s: seq<T>, n: nat, x: T)
    requires x in Take(s, n)
    ensures x in s
  {
    var k :| 0 <= k < |Take(s, n)| && Take(s, n)[k] == x;
    assert s[k] == x;
  }

  /** A part kept from the window after line `i` is the value of an accepted line of that window. */
  lemma KeptIsHarvested(lines: seq<string>, probe: string -> Option<string>, i: nat, span: nat, cap: nat, x: string)
    requires x in Take(Harvest(lines, probe, i + 1, i + span), cap)
    ensures exists j :: i + 1 <= j < i + span && j < |lines| && probe(lines[j]) == Some(x)
  {
    TakeMember(Harvest(lines, probe, i + 1, i + span), cap, x);
    HarvestMembers(lines, probe, i + 1, i + span, x);
  }

  /** When the accepted lines of the window after line `i` fit in `cap`, every one of them is kept. */
  lemma HarvestFitsWhole(lines: seq<string>, probe: string -> Option<string>, i: nat, span: nat, cap: nat)
    ensures forall j :: (i + 1 <= j < i + span && j < |lines| && probe(lines[j]).Some? &&
                         |Harvest(lines, probe, i + 1, i + span)| <= cap) ==>
              probe(lines[j]).value in Take(Harvest(lines, probe, i + 1, i + span), cap)
  {
    var h := Harvest(lines, probe, i + 1, i + span);
    forall j | i + 1 <= j < i + span && j < |lines| && probe(lines[j]).Some? && |h| <= cap
      ensures probe(lines[j]).value in Take(h, cap)
    {
      HarvestMembers(lines, probe, i + 1, i + span, probe(lines[j]).value);
    }
  }

  /**
   * The collect scheme keeps at most `cap` parts, each the value of an
   * accepted line of the window after the first anchor line; when the window
   * holds no more than `cap` accepted lines, it keeps all of them.
   */
  lemma FirstAnchorHarvestSpec(lines: seq<string>, anchor: string -> bool, probe: string -> Option<string>, span: nat, cap: nat)
    ensures |FirstAnchorHarvest(lines, anchor, probe, span, cap)| <= cap
    ensures forall x :: x in FirstAnchorHarvest(lines, anchor, probe, span, cap) ==>
              exists i: nat, j: nat :: IsFirstAnchor(lines, anchor, i) && i + 1 <= j < i + span && j < |lines| && probe(lines[j]) == Some(x)
    ensures forall i: nat, j: nat ::
              (IsFirstAnchor(lines, anchor, i) && i + 1 <= j < i + span && j < |lines| && probe(lines[j]).Some? &&
               |Harvest(lines, probe, i + 1, i + span)| <= cap) ==>
              probe(lines[j]).value in FirstAnchorHarvest(lines, anchor, probe, span, cap)
  {
    match FirstAnchor(lines, anchor, 0)
    case Some(i) =>
      var r := Take(Harvest(lines, probe, i + 1, i + span), cap);
      assert FirstAnchorHarvest(lines, anchor, probe, span, cap) == r;
      assert IsFirstAnchor(lines, anchor, i);
      HarvestFitsWhole(lines, probe, i, span, cap);
      forall x | x in r
        ensures exists i: nat, j: nat :: IsFirstAnchor(lines, anchor, i) && i + 1 <= j < i + span && j < |lines| && probe(lines[j]) == Some(x)
      {
        KeptIsHarvested(lines, probe, i, span, cap, x);
        var j :| i + 1 <= j < i + span && j < |lines| && probe(lines[j]) == Some(x);
      }
      forall i': nat | IsFirstAnchor(lines, anchor, i')
        ensures i' == i
      {
      }
    case None =>
  }


  /** The indices of the lines among the existing `lines[from..stop - 1]` that pass `ok`, in order. */
  function PassingIndices(lines: seq<string>, ok: string -> bool, from: nat, stop: nat): seq<nat>
    decreases stop
  {
    if stop <= from then []
    else
      PassingIndices(lines, ok, from, stop - 1) +
      (if stop - 1 < |lines| && ok(lines[stop - 1]) then [stop - 1] else [])
  }

  ghost predicate IsIncreasing(js: seq<nat>) {
    forall k, k' :: 0 <= k < k' < |js| ==> js[k] < js[k']
  }

  /** Every index of `js` is that of an existing line of `lines[from..stop - 1]` that passes `ok`. */
  ghost predicate PassingIn(lines: seq<string>, ok: string -> bool, from: nat, stop: nat, js: seq<nat>) {
    forall k :: 0 <= k < |js| ==> from <= js[k] < stop && js[k] < |lines| && ok(lines[js[k]])
  }

  /**
   * `js` picks the first passing lines of `lines[from..stop - 1]`: at most
   * `cap` indices of lines passing `ok`, strictly increasing, and with no
   * passing line skipped before the last pick, nor at all when fewer than
   * `cap` were picked.
   */
  ghost predicate PicksFirst(lines: seq<string>, ok: string -> bool, from: nat, stop: nat, cap: nat, js: seq<nat>) {
    && |js| <= cap
    && PassingIn(lines, ok, from, stop, js)
    && IsIncreasing(js)
    && (forall j :: (from <= j < stop && j < |lines| && ok(lines[j]) &&
                     (|js| < cap || (0 < |js| && j < js[|js| - 1]))) ==> j in js)
  }

  /** `parts` are the first `cap` lines of `lines[from..stop - 1]` that pass `ok`, in window order. */
  ghost predicate IsFirstPassingLines(lines: seq<string>, ok: string -> bool, from: nat, stop: nat, cap: nat, parts: seq<string>) {
    exists js: seq<nat> :: PicksFirst(lines, ok, from, stop, cap, js) && |js| == |parts| &&
      forall k :: 0 <= k < |js| ==> parts[k] == lines[js[k]]
  }

  lemma {:induction false} PassingIndicesBounds(lines: seq<string>, ok: string -> bool, from: nat, stop: nat)
    ensures PassingIn(lines, ok, from, stop, PassingIndices(lines, ok, from, stop))
    decreases stop
  {
    if from < stop {
      PassingIndicesBounds(lines, ok, from, stop - 1);
    }
  }

  lemma {:induction false} PassingIndicesIncreasing(lines: seq<string>, ok: string -> bool, from: nat, stop: nat)
    ensures IsIncreasing(PassingIndices(lines, ok, from, stop))
    decreases stop
  {
    if from < stop {
      var prev := PassingIndices(lines, ok, from, stop - 1);
      var idx := PassingIndices(lines, ok, from, stop);
      PassingIndicesIncreasing(lines, ok, from, stop - 1);
      PassingIndicesBounds(lines, ok, from, stop - 1);
      forall k, k' | 0 <= k < k' < |idx|
        ensures idx[k] < idx[k']
      {
        assert idx[k] == prev[k];
        if k' >= |prev| {
          assert idx[k'] == stop - 1;
        } else {
          assert idx[k'] == prev[k'];
        }
      }
    }
  }

  lemma {:induction false} PassingIndicesComplete(lines: seq<string>, ok: string -> bool, from: nat, stop: nat)
    ensures forall j :: from <= j < stop && j < |lines| && ok(lines[j]) ==> j in PassingIndices(lines, ok, from, stop)
    decreases stop
  {
    if from < stop {
      PassingIndicesComplete(lines, ok, from, stop - 1);
    }
  }

  /** For a probe that yields a line itself exactly when it passes `ok`, the harvest is the passing lines, index by index. */
  lemma {:induction false} HarvestIsPassingLines(lines: seq<string>, probe: string -> Option<string>, ok: string -> bool, from: nat, stop: nat)
    requires forall j :: 0 <= j < |lines| ==> probe(lines[j]) == if ok(lines[j]) then Some(lines[j]) else None
    ensures |Harvest(lines, probe, from, stop)| == |PassingIndices(lines, ok, from, stop)|
    ensures forall k :: 0 <= k < |PassingIndices(lines, ok, from, stop)| ==>
              PassingIndices(lines, ok, from, stop)[k] < |lines| &&
              Harvest(lines, probe, from, stop)[k] == lines[PassingIndices(lines, ok, from, stop)[k]]
    decreases stop
  {
    if from < stop {
      HarvestIsPassingLines(lines, probe, ok, from, stop - 1);
    }
  }

  /** Cutting an increasing sequence at `cap` keeps every element below the last one kept, and all of them when fewer than `cap` are kept. */
  lemma TakeKeepsEarlier(idx: seq<nat>, cap: nat, j: nat)
    requires IsIncreasing(idx) && j in idx
    requires |Take(idx, cap)| < cap || (0 < |Take(idx, cap)| && j < Take(idx, cap)[|Take(idx, cap)| - 1])
    ensures j in Take(idx, cap)
  {
    var js := Take(idx, cap);
    var p :| 0 <= p < |idx| && idx[p] == j;
    if |idx| > cap {
      assert js[cap - 1] == idx[cap - 1];
      assert js[p] == j;
    }
  }

  /** The first `cap` passing indices pick the first passing lines. */
  lemma TakePassingPicksFirst(lines: seq<string>, ok: string -> bool, from: nat, stop: nat, cap: nat)
    ensures PicksFirst(lines, ok, from, stop, cap, Take(PassingIndices(lines, ok, from, stop), cap))
  {
    var idx := PassingIndices(lines, ok, from, stop);
    var js := Take(idx, cap);
    PassingIndicesBounds(lines, ok, from, stop);
    PassingIndicesIncreasing(lines, ok, from, stop);
    PassingIndicesComplete(lines, ok, from, stop);
    assert js == idx[..|js|];
    assert PassingIn(lines, ok, from, stop, js);
    assert IsIncreasing(js);
    forall j | from <= j < stop && j < |lines| && ok(lines[j]) && (|js| < cap || (0 < |js| && j < js[|js| - 1]))
      ensures j in js
    {
      TakeKeepsEarlier(idx, cap, j);
    }
  }

  /** What the collect scheme keeps from a window: its first `cap` lines passing `ok`, in order. */
  lemma TakeHarvestIsFirstPassing(lines: seq<string>, probe: string -> Option<string>, ok: string -> bool, from: nat, stop: nat, cap: nat)
    requires forall j :: 0 <= j < |lines| ==> probe(lines[j]) == if ok(lines[j]) then Some(lines[j]) else None
    ensures IsFirstPassingLines(lines, ok, from, stop, cap, Take(Harvest(lines, probe, from, stop), cap))
  {
    var idx, h := PassingIndices(lines, ok, from, stop), Harvest(lines, probe, from, stop);
    HarvestIsPassingLines(lines, probe, ok, from, stop);
    TakePassingPicksFirst(lines, ok, from, stop, cap);
    var js, parts := Take(idx, cap), Take(h, cap);
    forall k | 0 <= k < |js|
      ensures parts[k] == lines[js[k]]
    {
      assert js[k] == idx[k] && parts[k] == h[k];
    }
  }

  /**
   * For a probe that yields a line itself exactly when it passes `ok`: after
   * the first anchor line `i` the collect scheme keeps the first `cap`
   * passing lines of the window, in window order.
   */
  lemma FirstAnchorHarvestIsFirstPassing(lines: seq<string>, anchor: string -> bool, probe: string -> Option<string>, ok: string -> bool, span: nat, cap: nat, i: nat)
    requires forall j :: 0 <= j < |lines| ==> probe(lines[j]) == if ok(lines[j]) then Some(lines[j]) else None
    requires IsFirstAnchor(lines, anchor, i)
    ensures IsFirstPassingLines(lines, ok, i + 1, i + span, cap, FirstAnchorHarvest(lines, anchor, probe, span, cap))
  {
    FirstAnchorHarvestAt(lines, anchor, probe, span, cap, i);
    TakeHarvestIsFirstPassing(lines, probe, ok, i + 1, i + span, cap);
  }

  /** After the first anchor line `i`, the collect scheme is the capped harvest of its window. */
  lemma FirstAnchorHarvestAt(lines: seq<string>, anchor: string -> bool, probe: string -> Option<string>, span: nat, cap: nat, i: nat)
    requires IsFirstAnchor(lines, anchor, i)
    ensures FirstAnchorHarvest(lines, anchor, probe, span, cap) == Take(Harvest(lines, probe, i + 1, i + span), cap)
  {
    var r := FirstAnchor(lines, anchor, 0);
    assert r.Some? && r.value <= i by {
      assert anchor(lines[i]);
    }
    assert r.value == i by {
      assert anchor(lines[r.value]);
    }
  }

  /** Without an anchor line the collect scheme keeps nothing. */
  lemma NoAnchorHarvestsNothing(lines: seq<string>, anchor: string -> bool, probe: string -> Option<string>, span: nat, cap: nat)
    requires forall i :: 0 <= i < |lines| ==> !anchor(lines[i])
    ensures FirstAnchorHarvest(lines, anchor, probe, span, cap) == []
  {
    assert FirstAnchor(lines, anchor, 0) == None;
  }

  /**
   * For a probe that yields a line itself exactly when the line passes `ok`,
   * and passes only non-empty lines: the kept parts are non-empty passing
   * lines of the window after the first anchor line, namely its first `cap`
   * passing lines in window order; without an anchor line nothing is kept.
   */
  lemma FirstAnchorHarvestLineSpec(lines: seq<string>, anchor: string -> bool, probe: string -> Option<string>, ok: string -> bool, span: nat, cap: nat)
    requires forall j :: 0 <= j < |lines| ==> probe(lines[j]) == if ok(lines[j]) then Some(lines[j]) else None
    requires forall j :: 0 <= j < |lines| && ok(lines[j]) ==> lines[j] != []
    ensures var r := FirstAnchorHarvest(lines, anchor, probe, span, cap);
      && |r| <= cap
      && (forall x :: x in r ==>
            x != [] && ok(x) && exists i: nat, j: nat :: IsFirstAnchor(lines, anchor, i) && i + 1 <= j < i + span && j < |lines| && lines[j] == x)
      && (forall i: nat, j: nat ::
            (IsFirstAnchor(lines, anchor, i) && i + 1 <= j < i + span && j < |lines| && ok(lines[j]) &&
             |Harvest(lines, probe, i + 1, i + span)| <= cap) ==> lines[j] in r)
    ensures forall i: nat :: IsFirstAnchor(lines, anchor, i) ==>
              IsFirstPassingLines(lines, ok, i + 1, i + span, cap, FirstAnchorHarvest(lines, anchor, probe, span, cap))
    ensures (forall i :: 0 <= i < |lines| ==> !anchor(lines[i])) ==> FirstAnchorHarvest(lines, anchor, probe, span, cap) == []
  {
    FirstAnchorHarvestSpec(lines, anchor, probe, span, cap);
    var r := FirstAnchorHarvest(lines, anchor, probe, span, cap);
    forall i: nat | IsFirstAnchor(lines, anchor, i)
      ensures IsFirstPassingLines(lines, ok, i + 1, i + span, cap, r)
    {
      FirstAnchorHarvestIsFirstPassing(lines, anchor, probe, ok, span, cap, i);
    }
    if forall i :: 0 <= i < |lines| ==> !anchor(lines[i]) {
      NoAnchorHarvestsNothing(lines, anchor, probe, span, cap);
    }
    forall x | x in r
      ensures x != [] && ok(x) && exists i: nat, j: nat :: IsFirstAnchor(lines, anchor, i) && i + 1 <= j < i + span && j < |lines| && lines[j] == x
    {
      var i: nat, j: nat :| IsFirstAnchor(lines, anchor, i) && i + 1 <= j < i + span && j < |lines| && probe(lines[j]) == Some(x);
    }
  }
}
