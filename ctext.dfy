/**
 * The C library string routines the parsers rely on, over `string`
 * (a `seq<char>`): `isspace`, `isdigit`, `strstr`, `strchr`, `strcspn`,
 * `strtok` and `atoi`. A file is the sequence of chunks `fgets` returns;
 * each chunk keeps its trailing newline.
 */
module CText {
  import opened Wrappers

  /** `isspace` in the C locale. */
  predicate IsSpace(c: char) {
    c == ' ' || c == '\t' || c == '\n' || c == '\r' || c == '\U{000C}' || c == '\U{000B}'
  }

  /** `isdigit`. */
  predicate IsDigit(c: char) {
    '0' <= c <= '9'
  }

  /** The value of a decimal digit (0 for any other character). */
  function DigitValue(c: char): (d: nat)
    ensures d < 10
  {
    if IsDigit(c) then c as int - '0' as int else 0
  }

  /** The first index at or after `i` that does not hold white space. */
  function SkipSpace(s: string, i: nat): (j: nat)
    requires i <= |s|
    ensures i <= j <= |s|
    ensures j < |s| ==> !IsSpace(s[j])
    decreases |s| - i
  {
    if i < |s| && IsSpace(s[i]) then SkipSpace(s, i + 1) else i
  }

  /** The line with its leading white space removed (`while (isspace(*p)) p++`). */
  function TrimLeft(s: string): (t: string)
    ensures |t| <= |s| && t == s[|s| - |t|..]
    ensures t != [] ==> !IsSpace(t[0])
  {
    s[SkipSpace(s, 0)..]
  }

  /** Whether `pat` occurs in `s` starting at index `i`. */
  predicate OccursAt(s: string, pat: string, i: nat) {
    i + |pat| <= |s| && forall k :: 0 <= k < |pat| ==> s[i + k] == pat[k]
  }

  /** `strstr(s + from, pat)`: the first occurrence of `pat` at or after `from`. */
  function FindFrom(s: string, pat: string, from: nat): (r: Option<nat>)
    requires from <= |s|
    ensures r.Some? ==> from <= r.value && OccursAt(s, pat, r.value)
    decreases |s| - from
  {
    if OccursAt(s, pat, from) then Some(from)
    else if from == |s| then None
    else FindFrom(s, pat, from + 1)
  }

  /** `strstr(s, pat)`. */
  function Find(s: string, pat: string): Option<nat> {
    FindFrom(s, pat, 0)
  }

  /** A pattern whose first character the string lacks is not found in it. */
  lemma {:induction false} MissingFirstChar(s: string, pat: string, from: nat)
    requires from <= |s| && pat != [] && pat[0] !in s
    ensures FindFrom(s, pat, from).None?
    decreases |s| - from
  {
    assert from < |s| ==> s[from + 0] != pat[0];
    if from < |s| {
      MissingFirstChar(s, pat, from + 1);
    }
  }

  /** `strstr(s, pat) != NULL`. */
  predicate Contains(s: string, pat: string) {
    Find(s, pat).Some?
  }

  /** `strchr(s, c)`: the index of the first `c` in `s`. */
  function IndexOf(s: string, c: char): (r: Option<nat>)
    ensures r.Some? ==> r.value < |s| && s[r.value] == c && c !in s[..r.value]
    ensures r.None? ==> c !in s
  {
    if s == [] then None
    else if s[0] == c then Some(0)
    else match IndexOf(s[1..], c)
      case Some(k) => Some(k + 1)
      case None => None
  }

  /** `line[strcspn(line, "\n")] = 0`: the line up to its first newline. */
  function StripNewline(s: string): (t: string)
    ensures '\n' !in t
    ensures |t| <= |s| && t == s[..|t|]
  {
    match IndexOf(s, '\n')
    case Some(k) => s[..k]
    case None => s
  }

  /** The value of a run of decimal digits. */
  function DigitsValue(s: string): nat
  {
    if s == [] then 0 else 10 * DigitsValue(s[..|s| - 1]) + DigitValue(s[|s| - 1])
  }

  /** The end of the run of digits that starts at `i`. */
  function DigitsEnd(s: string, i: nat): (j: nat)
    requires i <= |s|
    ensures i <= j <= |s|
    decreases |s| - i
  {
    if i < |s| && IsDigit(s[i]) then DigitsEnd(s, i + 1) else i
  }

  /**
   * `atoi(s)`: leading white space, an optional sign, then as many digits as
   * follow; 0 when there are none.
   */
  function Atoi(s: string): int {
    var i := SkipSpace(s, 0);
    var negative := i < |s| && s[i] == '-';
    var start := if i < |s| && (s[i] == '-' || s[i] == '+') then i + 1 else i;
    var magnitude: int := DigitsValue(s[start..DigitsEnd(s, start)]);
    if negative then -magnitude else magnitude
  }

  /** `strtok` with the delimiter set `delims`: the maximal runs of non-delimiters. */
  function Tokens(s: string, delims: set<char>): (ts: seq<string>)
    decreases |s|
  {
    if s == [] then []
    else if s[0] in delims then Tokens(s[1..], delims)
    else
      var n := RunEnd(s, delims, 0);
      [s[..n]] + Tokens(s[n..], delims)
  }

  /** The end of the run of non-delimiters that starts at `i`. */
  function RunEnd(s: string, delims: set<char>, i: nat): (j: nat)
    requires i <= |s|
    ensures i <= j <= |s|
    decreases |s| - i
  {
    if i < |s| && s[i] !in delims then RunEnd(s, delims, i + 1) else i
  }
}
