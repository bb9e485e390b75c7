/**
 * String helpers shared by the search lookups, the search form and the import
 * error class: ASCII case folding, substring search, `str.strip()` and the
 * tail of `str.rpartition`.
 */
module Text {
  import opened Wrappers

  /** ASCII lower-casing of one character; every other character is unchanged. */
  function LowerChar(c: char): char {
    if 'A' <= c <= 'Z' then (c as int + 32) as char else c
  }

  /** ASCII lower-casing of a string, character by character. */
  function Lower(s: string): string {
    seq(|s|, i requires 0 <= i < |s| => LowerChar(s[i]))
  }

  /** `sub` occurs in `s` starting at index `i`. */
  predicate OccursAt(s: string, sub: string, i: int) {
    0 <= i && i + |sub| <= |s| && s[i..i + |sub|] == sub
  }

  /** `sub` occurs somewhere in `s` (the `in` operator on Python strings). */
  ghost predicate IsInfix(sub: string, s: string) {
    exists i :: OccursAt(s, sub, i)
  }

  /** Substring search by trying each start position from the left. */
  function Contains(s: string, sub: string): (b: bool)
    ensures b <==> IsInfix(sub, s)
    decreases |s|
  {
    if OccursAt(s, sub, 0) then true
    else if |s| == 0 then
      assert forall i :: !OccursAt(s, sub, i);
      false
    else
      var b := Contains(s[1..], sub);
      assert forall i :: 1 <= i ==> (OccursAt(s, sub, i) <==> OccursAt(s[1..], sub, i - 1));
      assert b ==> OccursAt(s, sub, 1 + var j :| OccursAt(s[1..], sub, j); j);
      b
  }

  /** Django's `icontains` lookup: substring match after case folding both sides. */
  predicate ContainsIgnoreCase(s: string, sub: string) {
    Contains(Lower(s), Lower(sub))
  }

  /** The greatest start index `<= k` at which `sep` occurs in `s`, if any. */
  function LastIndexAtOrBelow(s: string, sep: string, k: nat): (r: Option<nat>)
    ensures r.Some? ==> r.value <= k && OccursAt(s, sep, r.value)
    ensures r.Some? ==> forall j :: r.value < j <= k ==> !OccursAt(s, sep, j)
    ensures r.None? ==> forall j :: 0 <= j <= k ==> !OccursAt(s, sep, j)
    decreases k
  {
    if OccursAt(s, sep, k) then Some(k)
    else if k == 0 then None
    else LastIndexAtOrBelow(s, sep, k - 1)
  }

  /**
   * `s.rpartition(sep)[2]`: the text after the last occurrence of `sep`, or
   * the whole of `s` when `sep` does not occur. Python rejects an empty
   * separator, hence the precondition.
   */
  function RPartitionTail(s: string, sep: string): (r: string)
    requires sep != ""
    ensures !IsInfix(sep, s) ==> r == s
    ensures IsInfix(sep, s) ==>
      exists i :: OccursAt(s, sep, i) && r == s[i + |sep|..]
               && forall j :: i < j ==> !OccursAt(s, sep, j)
  {
    match LastIndexAtOrBelow(s, sep, |s|)
    case None =>
      assert forall j :: !OccursAt(s, sep, j);
      s
    case Some(i) =>
      assert forall j :: i < j ==> !OccursAt(s, sep, j);
      s[i + |sep|..]
  }

  /**
   * Python's `str.isspace()` for one character: the ASCII separators and
   * controls `\t`..`\r` and `\x1c`..`\x1f`, and the Unicode space characters.
   */
  predicate IsSpace(c: char) {
    || c == ' ' || ('\t' <= c <= '\r') || ('\U{1C}' <= c <= '\U{1F}')
    || c == '\U{85}' || c == '\U{A0}' || c == '\U{1680}'
    || ('\U{2000}' <= c <= '\U{200A}') || c == '\U{2028}' || c == '\U{2029}'
    || c == '\U{202F}' || c == '\U{205F}' || c == '\U{3000}'
  }

  /** Every character of `s` is whitespace. */
  predicate AllSpace(s: string) {
    forall i :: 0 <= i < |s| ==> IsSpace(s[i])
  }

  /** The length of the run of whitespace that `s` begins with. */
  function LeadingSpace(s: string): (n: nat)
    ensures n <= |s| && forall i :: 0 <= i < n ==> IsSpace(s[i])
    ensures n < |s| ==> !IsSpace(s[n])
  {
    if |s| > 0 && IsSpace(s[0]) then
      var n := LeadingSpace(s[1..]);
      1 + n
    else 0
  }

  /** The length of the run of whitespace that `s` ends with. */
  function TrailingSpace(s: string): (n: nat)
    ensures n <= |s| && forall i :: |s| - n <= i < |s| ==> IsSpace(s[i])
    ensures n < |s| ==> !IsSpace(s[|s| - n - 1])
  {
    if |s| > 0 && IsSpace(s[|s| - 1]) then
      var n := TrailingSpace(s[..|s| - 1]);
      1 + n
    else 0
  }

  /**
   * `s.strip()`: the middle part of `s` between a run of leading and a run of
   * trailing whitespace, beginning and ending with non-whitespace.
   */
  function Strip(s: string): (r: string)
    ensures exists i, j :: 0 <= i <= j <= |s| && r == s[i..j] && AllSpace(s[..i]) && AllSpace(s[j..])
    ensures r == [] || (!IsSpace(r[0]) && !IsSpace(r[|r| - 1]))
  {
    var lead := LeadingSpace(s);
    assert AllSpace(s[..lead]);
    if lead == |s| then
      assert AllSpace(s[|s|..]);
      s[|s|..]
    else
      var trail := TrailingSpace(s);
      assert AllSpace(s[|s| - trail..]);
      assert lead < |s| - trail;
      s[lead..|s| - trail]
  }

  /** Whitespace put in front adds exactly its own length to the leading run. */
  lemma {:induction false} LeadingSpacePadded(pad: string, rest: string)
    requires AllSpace(pad)
    ensures LeadingSpace(pad + rest) == |pad| + LeadingSpace(rest)
  {
    if |pad| > 0 {
      assert (pad + rest)[1..] == pad[1..] + rest;
      LeadingSpacePadded(pad[1..], rest);
    } else {
      assert pad + rest == rest;
    }
  }

  /** Whitespace put at the end adds exactly its own length to the trailing run. */
  lemma {:induction false} TrailingSpacePadded(rest: string, pad: string)
    requires AllSpace(pad)
    ensures TrailingSpace(rest + pad) == TrailingSpace(rest) + |pad|
  {
    if |pad| > 0 {
      assert (rest + pad)[..|rest + pad| - 1] == rest + pad[..|pad| - 1];
      TrailingSpacePadded(rest, pad[..|pad| - 1]);
    } else {
      assert rest + pad == rest;
    }
  }

  /**
   * Stripping recovers the core of any whitespace-padded string whose core
   * neither begins nor ends with whitespace: `" news ".strip() == "news"`,
   * and a value of whitespace only strips to the empty string.
   */
  lemma StripPadded(before: string, core: string, after: string)
    requires AllSpace(before) && AllSpace(after)
    requires core == [] || (!IsSpace(core[0]) && !IsSpace(core[|core| - 1]))
    ensures Strip(before + core + after) == core
  {
    if core == [] {
      assert before + core + after == before + after;
      StripAllSpace(before + after);
    } else {
      StripPaddedCore(before, core, after);
    }
  }

  /** A string of whitespace only strips to the empty string. */
  lemma StripAllSpace(s: string)
    requires AllSpace(s)
    ensures Strip(s) == []
  {
    assert s + [] == s;
    LeadingSpacePadded(s, []);
  }

  lemma StripPaddedCore(before: string, core: string, after: string)
    requires AllSpace(before) && AllSpace(after)
    requires core != [] && !IsSpace(core[0]) && !IsSpace(core[|core| - 1])
    ensures Strip(before + core + after) == core
  {
    var s := before + core + after;
    assert (core + after)[0] == core[0];
    assert LeadingSpace(core + after) == 0;
    assert s == before + (core + after);
    LeadingSpacePadded(before, core + after);
    assert (before + core)[|before + core| - 1] == core[|core| - 1];
    assert TrailingSpace(before + core) == 0;
    assert s == (before + core) + after;
    TrailingSpacePadded(before + core, after);
    assert s[|before|..|s| - |after|] == core;
  }
}
