/**
 * A model of `sscanf`/`fscanf` over a string: a format is a sequence of
 * directives, and scanning returns the values assigned before the first
 * directive that fails, with the position reached. The number of values is
 * what `sscanf` returns (a scan that fails before its first conversion
 * returns 0 here, where C may return EOF; no caller tells the two apart).
 */
module Scan {
  import opened Wrappers
  import opened CText

  datatype Directive =
    | Space          // white space in the format: skips any amount of input white space
    | Lit(c: char)   // an ordinary character: must match exactly
    | DecInt         // %d
    | Float          // %lf
    | SkipWord       // %*s: a non-empty word, not assigned
    | OneChar        // %c: the next character, white space included

  datatype Value = IntVal(i: int) | RealVal(r: real) | CharVal(c: char)

  /** The ordinary characters of `s`, each matched literally. */
  function Lits(s: string): (dirs: seq<Directive>)
    ensures |dirs| == |s|
  {
    seq(|s|, k requires 0 <= k < |s| => Lit(s[k]))
  }

  // The formats the parsers use. White space in a C format is `Space`, and
  // `%%` is `Space, Lit('%')` (the conversion skips white space first).

  /** `"%lf %lf %lf"` */
  const TripleFormat := [Float, Space, Float, Space, Float]

  /** `"%% fs%d:"` */
  const HeaderFormat := [Space, Lit('%'), Space, Lit('f'), Lit('s'), DecInt, Lit(':')]

  /** `"%lf %lf %d %c S"` */
  const SteinerFormat := [Float, Space, Float, Space, DecInt, Space, OneChar, Space, Lit('S')]

  /** `"%*s %*s %*s not_covered[%d] = %lf"` */
  const CoverageFormat :=
    [SkipWord, Space, SkipWord, Space, SkipWord, Space] + Lits("not_covered[")
    + [DecInt, Lit(']'), Space, Lit('='), Space, Float]

  /** `"Best bound = %lf , Best integer = %lf"` */
  const BestBoundFormat :=
    Lits("Best") + [Space] + Lits("bound") + [Space, Lit('='), Space, Float, Space, Lit(','), Space]
    + Lits("Best") + [Space] + Lits("integer") + [Space, Lit('='), Space, Float]

  /** `"MIP gap = %lf%%"` */
  const MipGapFormat := Lits("MIP") + [Space] + Lits("gap") + [Space, Lit('='), Space, Float, Space, Lit('%')]

  /** `"%lf%%"` */
  const PercentFormat := [Float, Space, Lit('%')]

  /** `"Z = %lf"` */
  const ZFormat := [Lit('Z'), Space, Lit('='), Space, Float]

  /** `"Z0 = %lf"` */
  const Z0Format := [Lit('Z'), Lit('0'), Space, Lit('='), Space, Float]

  /** `"Z1 = %lf"` */
  const Z1Format := [Lit('Z'), Lit('1'), Space, Lit('='), Space, Float]

  /** The number of assigning directives. */
  function Conversions(dirs: seq<Directive>): nat {
    if dirs == [] then 0
    else (if dirs[0].DecInt? || dirs[0].Float? || dirs[0].OneChar? then 1 else 0) + Conversions(dirs[1..])
  }

  /** The position after an optional sign at `i`. */
  function AfterSign(s: string, i: nat): (j: nat)
    requires i <= |s|
    ensures i <= j <= i + 1 && j <= |s|
  {
    if i < |s| && (s[i] == '+' || s[i] == '-') then i + 1 else i
  }

  function Sign(s: string, i: nat): real
    requires i <= |s|
  {
    if i < |s| && s[i] == '-' then -1.0 else 1.0
  }

  /** `strtol` at `i`: an optional sign, then at least one digit. */
  function ScanInt(s: string, i: nat): (r: Option<(int, nat)>)
    requires i <= |s|
    ensures r.Some? ==> i < r.value.1 <= |s|
  {
    var j := AfterSign(s, i);
    var k := DigitsEnd(s, j);
    if k == j then None
    else
      var m: int := DigitsValue(s[j..k]);
      Some((if j > i && s[i] == '-' then -m else m, k))
  }

  function Pow10(n: nat): (p: real)
    ensures p >= 1.0
  {
    if n == 0 then 1.0 else 10.0 * Pow10(n - 1)
  }

  /** The exponent part at `i`, if a complete one starts there: `e`, an optional sign, digits. */
  function ScanExponent(s: string, i: nat): (r: Option<(int, nat)>)
    requires i <= |s|
    ensures r.Some? ==> i < r.value.1 <= |s|
  {
    if i < |s| && (s[i] == 'e' || s[i] == 'E') then ScanInt(s, i + 1) else None
  }

  /**
   * `strtod` at `i`, decimal forms only: an optional sign, digits with an
   * optional point (at least one digit on either side), then an optional
   * exponent.
   */
  function ScanReal(s: string, i: nat): (r: Option<(real, nat)>)
    requires i <= |s|
    ensures r.Some? ==> i < r.value.1 <= |s|
    ensures r.Some? ==> s[i] == '+' || s[i] == '-' || s[i] == '.' || IsDigit(s[i])
  {
    var j := AfterSign(s, i);
    var intEnd := DigitsEnd(s, j);
    var hasPoint := intEnd < |s| && s[intEnd] == '.';
    var fracEnd := if hasPoint then DigitsEnd(s, intEnd + 1) else intEnd;
    var fracStart := if hasPoint then intEnd + 1 else intEnd;
    if intEnd == j && fracEnd == fracStart then None
    else
      var mantissa := DigitsValue(s[j..intEnd]) as real
        + DigitsValue(s[fracStart..fracEnd]) as real / Pow10(fracEnd - fracStart);
      var signed := Sign(s, i) * mantissa;
      match ScanExponent(s, fracEnd)
      case None => Some((signed, fracEnd))
      case Some((e, end)) => Some((if e >= 0 then signed * Pow10(e) else signed / Pow10(-e), end))
  }

  /** The end of the word (run of non-white space) that starts at `i`. */
  function WordEnd(s: string, i: nat): (j: nat)
    requires i <= |s|
    ensures i <= j <= |s|
    decreases |s| - i
  {
    if i < |s| && !IsSpace(s[i]) then WordEnd(s, i + 1) else i
  }

  /** Runs `dirs` over `s` from `i`: the values assigned and the position reached. */
  function ScanFrom(s: string, i: nat, dirs: seq<Directive>): (r: (seq<Value>, nat))
    requires i <= |s|
    ensures i <= r.1 <= |s|
    ensures |r.0| <= Conversions(dirs)
    decreases |dirs|
  {
    if dirs == [] then ([], i)
    else
      var rest := dirs[1..];
      match dirs[0]
      case Space => ScanFrom(s, SkipSpace(s, i), rest)
      case Lit(c) => if i < |s| && s[i] == c then ScanFrom(s, i + 1, rest) else ([], i)
      case OneChar =>
        if i < |s| then
          var r := ScanFrom(s, i + 1, rest);
          ([CharVal(s[i])] + r.0, r.1)
        else ([], i)
      case SkipWord =>
        var j := SkipSpace(s, i);
        var k := WordEnd(s, j);
        if k == j then ([], j) else ScanFrom(s, k, rest)
      case DecInt =>
        var j := SkipSpace(s, i);
        (match ScanInt(s, j)
         case None => ([], j)
         case Some((v, k)) =>
           var r := ScanFrom(s, k, rest);
           ([IntVal(v)] + r.0, r.1))
      case Float =>
        var j := SkipSpace(s, i);
        match ScanReal(s, j)
        case None => ([], j)
        case Some((v, k)) =>
          var r := ScanFrom(s, k, rest);
          ([RealVal(v)] + r.0, r.1)
  }

  /** A format that starts with a number assigns nothing unless a number starts after the white space. */
  lemma {:induction false} LeadingFloatNeedsNumber(s: string, i: nat, dirs: seq<Directive>)
    requires i <= |s| && dirs != [] && dirs[0] == Float
    requires |ScanFrom(s, i, dirs).0| > 0
    ensures ScanReal(s, SkipSpace(s, i)).Some?
  {
  }

  /** Ordinary characters that the input holds at `i` are matched one by one, and scanning goes on after them. */
  lemma {:induction false} ScanLits(s: string, i: nat, w: string, rest: seq<Directive>)
    requires i + |w| <= |s| && s[i..i + |w|] == w
    ensures ScanFrom(s, i, Lits(w) + rest) == ScanFrom(s, i + |w|, rest)
    decreases |w|
  {
    if w == [] {
      assert Lits(w) + rest == rest;
    } else {
      var dirs := Lits(w) + rest;
      assert dirs[0] == Lit(w[0]);
      assert dirs[1..] == Lits(w[1..]) + rest;
      assert s[i] == s[i..i + |w|][0];
      assert s[i + 1..i + 1 + |w[1..]|] == s[i..i + |w|][1..];
      ScanLits(s, i + 1, w[1..], rest);
    }
  }

  /** White space in the format skips the input's white space. */
  lemma {:induction false} ScanSpace(s: string, i: nat, dirs: seq<Directive>)
    requires i <= |s| && dirs != [] && dirs[0] == Space
    ensures ScanFrom(s, i, dirs) == ScanFrom(s, SkipSpace(s, i), dirs[1..])
  {
  }

  /** An ordinary character in the format that the input holds is matched, and scanning goes on after it. */
  lemma {:induction false} ScanLit(s: string, i: nat, dirs: seq<Directive>)
    requires i < |s| && dirs != [] && dirs[0] == Lit(s[i])
    ensures ScanFrom(s, i, dirs) == ScanFrom(s, i + 1, dirs[1..])
  {
  }

  /** `%lf` assigns the number that starts after the white space, and scanning goes on after it. */
  lemma {:induction false} ScanFloat(s: string, i: nat, dirs: seq<Directive>, v: real, k: nat)
    requires i <= |s| && dirs != [] && dirs[0] == Float
    requires ScanReal(s, SkipSpace(s, i)) == Some((v, k))
    ensures ScanFrom(s, i, dirs) == ([RealVal(v)] + ScanFrom(s, k, dirs[1..]).0, ScanFrom(s, k, dirs[1..]).1)
  {
  }

  /** White space then ordinary characters in the format, over white space then those characters in the input. */
  lemma {:induction false} ScanSpacedWord(s: string, i: nat, w: string, rest: seq<Directive>)
    requires i <= |s| && SkipSpace(s, i) + |w| <= |s| && s[SkipSpace(s, i)..SkipSpace(s, i) + |w|] == w
    ensures ScanFrom(s, i, ([Space] + Lits(w)) + rest) == ScanFrom(s, SkipSpace(s, i) + |w|, rest)
  {
    assert ([Space] + Lits(w)) + rest == [Space] + (Lits(w) + rest);
    ScanSpace(s, i, [Space] + (Lits(w) + rest));
    ScanLits(s, SkipSpace(s, i), w, rest);
  }

  /** White space then `%lf` in the format, over white space then a number in the input. */
  lemma {:induction false} ScanSpacedFloat(s: string, i: nat, rest: seq<Directive>, v: real, k: nat)
    requires i <= |s| && ScanReal(s, SkipSpace(s, i)) == Some((v, k))
    ensures ScanFrom(s, i, [Space, Float] + rest) == ([RealVal(v)] + ScanFrom(s, k, rest).0, ScanFrom(s, k, rest).1)
  {
    ScanSpace(s, i, [Space, Float] + rest);
    assert ([Space, Float] + rest)[1..] == [Float] + rest;
    ScanFloat(s, SkipSpace(s, i), [Float] + rest, v, k);
    assert ([Float] + rest)[1..] == rest;
    assert SkipSpace(s, SkipSpace(s, i)) == SkipSpace(s, i);
  }

  /**
   * `strtod` on a run of digits followed by something that continues no
   * number (not a point, a digit or an exponent): the run's value.
   */
  lemma {:induction false} ScanRealDigits(s: string, i: nat, k: nat)
    requires i < k < |s| && DigitsEnd(s, i) == k
    requires s[k] != '.' && s[k] != 'e' && s[k] != 'E'
    ensures ScanReal(s, i) == Some((DigitsValue(s[i..k]) as real, k))
  {
    assert IsDigit(s[i]);
    assert AfterSign(s, i) == i && Sign(s, i) == 1.0;
    assert ScanExponent(s, k).None?;
    assert DigitsValue(s[k..k]) == 0;
  }

  /** `sscanf(s, fmt, ...)`: the values assigned, in order. */
  function Scanf(s: string, fmt: seq<Directive>): seq<Value> {
    ScanFrom(s, 0, fmt).0
  }

  /** A scan that assigns anything has consumed at least one character. */
  lemma {:induction false} ScanAdvances(s: string, i: nat, dirs: seq<Directive>)
    requires i <= |s|
    requires |ScanFrom(s, i, dirs).0| > 0
    ensures ScanFrom(s, i, dirs).1 > i
    decreases |dirs|
  {
    var rest := dirs[1..];
    match dirs[0]
    case Space =>
      ScanAdvances(s, SkipSpace(s, i), rest);
    case Lit(c) =>
    case OneChar =>
    case SkipWord =>
      ScanAdvances(s, WordEnd(s, SkipSpace(s, i)), rest);
    case DecInt =>
    case Float =>
  }
}
