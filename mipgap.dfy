/**
 * The final MIP gap reported by the solver transcript, as simulate.c's
 * `parse_final_mip_gap` recovers it. Five kinds of line are recognised;
 * four of them set the gap outright, and a fifth ("New best: ..., Z = v")
 * only feeds a fallback estimate tried when nothing set the gap.
 */
module MipGap {
  import opened Wrappers
  import opened CText
  import opened Scan
  import opened Seqs
  import opened LineLoops

  /**
   * What `parse_final_mip_gap` returns: -1.0 when the file cannot be opened,
   * NaN when no gap could be determined, and the gap otherwise.
   */
  datatype GapReport = Unopenable | Unavailable | Gap(value: real)

  function Abs(x: real): (r: real)
    ensures r >= 0.0 && (r == x || r == -x)
  {
    if x < 0.0 then -x else x
  }

  function Min(a: real, b: real): (r: real)
    ensures r <= a && r <= b && (r == a || r == b)
  {
    if a < b then a else b
  }

  function Max(a: real, b: real): (r: real)
    ensures r >= a && r >= b && (r == a || r == b)
  {
    if a > b then a else b
  }

  /** `|bound - incumbent| / |incumbent|`: the relative distance of the bound from the incumbent. */
  function RelativeGap(bound: real, incumbent: real): (g: real)
    requires incumbent != 0.0
    ensures g >= 0.0
    ensures g * Abs(incumbent) == Abs(bound - incumbent)
  {
    Abs(bound - incumbent) / Abs(incumbent)
  }

  /** The first real a scan assigned, if it assigned one. */
  function FirstReal(v: seq<Value>): Option<real> {
    if |v| >= 1 && v[0].RealVal? then Some(v[0].r) else None
  }

  /** `Best bound = %lf , Best integer = %lf`, matched from the start of the line: (bound, incumbent). */
  function BestBoundOf(line: string): Option<(real, real)> {
    var v := Scanf(line, BestBoundFormat);
    if |v| >= 2 && v[0].RealVal? && v[1].RealVal? then Some((v[0].r, v[1].r)) else None
  }

  /** The gap a bound/incumbent line sets: only when the incumbent is non-zero. */
  function BoundGapOf(line: string): (g: Option<real>)
    ensures g.Some? <==> BestBoundOf(line).Some? && BestBoundOf(line).value.1 != 0.0
    ensures g.Some? ==> g.value == RelativeGap(BestBoundOf(line).value.0, BestBoundOf(line).value.1)
  {
    match BestBoundOf(line)
    case None => None
    case Some((bound, incumbent)) => if incumbent != 0.0 then Some(RelativeGap(bound, incumbent)) else None
  }

  /** `MIP gap = %lf%%` from the start of the line: the percentage as a fraction. */
  function MipGapOf(line: string): Option<real> {
    match FirstReal(Scanf(line, MipGapFormat))
    case None => None
    case Some(percent) => Some(percent / 100.0)
  }

  /**
   * A line with both "MIP optimal" and "tolerance": the percentage that
   * follows its first `(`, as a fraction.
   */
  function ToleranceGapOf(line: string): Option<real> {
    if Contains(line, "MIP optimal") && Contains(line, "tolerance") then
      match IndexOf(line, '(')
      case None => None
      case Some(p) =>
        match FirstReal(Scanf(line[p + 1..], PercentFormat))
        case None => None
        case Some(percent) => Some(percent / 100.0)
    else None
  }

  /** A line with both "New best:" and "Z =": the value after its first `Z =`. */
  function NewBestOf(line: string): Option<real> {
    if Contains(line, "New best:") && Contains(line, "Z =") then
      match Find(line, "Z =")
      case None => None
      case Some(p) => FirstReal(Scanf(line[p..], ZFormat))
    else None
  }

  /** A line with "Best branch is", "Z0 =" and "Z1 =": the two values, when both scan. */
  function BranchOf(line: string): Option<(real, real)> {
    if Contains(line, "Best branch is") && Contains(line, "Z0 =") && Contains(line, "Z1 =") then
      match (Find(line, "Z0 ="), Find(line, "Z1 ="))
      case (Some(p0), Some(p1)) =>
        (match (FirstReal(Scanf(line[p0..], Z0Format)), FirstReal(Scanf(line[p1..], Z1Format)))
         case (Some(z0), Some(z1)) => Some((z0, z1))
         case _ => None)
      case _ => None
    else None
  }

  /**
   * The gap a branch line sets: the smaller value is taken as the incumbent
   * and the larger as the bound, and only a non-zero incumbent sets it.
   */
  function BranchGapOf(line: string): (g: Option<real>)
    ensures g.Some? <==> BranchOf(line).Some? && Min(BranchOf(line).value.0, BranchOf(line).value.1) != 0.0
    ensures g.Some? ==> var (z0, z1) := BranchOf(line).value; g.value == RelativeGap(Max(z0, z1), Min(z0, z1))
  {
    match BranchOf(line)
    case None => None
    case Some((z0, z1)) => if Min(z0, z1) != 0.0 then Some(RelativeGap(Max(z0, z1), Min(z0, z1))) else None
  }

  /** `later` when it holds a value, `earlier` otherwise: an assignment that may not happen. */
  function Then<T>(earlier: Option<T>, later: Option<T>): (r: Option<T>)
    ensures r.Some? <==> earlier.Some? || later.Some?
    ensures later.Some? ==> r == later
    ensures later.None? ==> r == earlier
  {
    if later.Some? then later else earlier
  }

  /**
   * The gap one line leaves behind, if it sets one: the four patterns are
   * tried in order and each one that matches overwrites the previous.
   */
  function LineGap(line: string): Option<real> {
    Then(Then(Then(BoundGapOf(line), MipGapOf(line)), ToleranceGapOf(line)), BranchGapOf(line))
  }

  /** Within a line, a later pattern overrides every earlier one; a line sets the gap when any pattern does. */
  lemma {:induction false} LineGapPriority(line: string)
    ensures LineGap(line).Some? <==> BoundGapOf(line).Some? || MipGapOf(line).Some?
                                     || ToleranceGapOf(line).Some? || BranchGapOf(line).Some?
    ensures BranchGapOf(line).Some? ==> LineGap(line) == BranchGapOf(line)
    ensures BranchGapOf(line).None? && ToleranceGapOf(line).Some? ==> LineGap(line) == ToleranceGapOf(line)
    ensures BranchGapOf(line).None? && ToleranceGapOf(line).None? && MipGapOf(line).Some?
            ==> LineGap(line) == MipGapOf(line)
    ensures BranchGapOf(line).None? && ToleranceGapOf(line).None? && MipGapOf(line).None?
            ==> LineGap(line) == BoundGapOf(line)
  {
  }

  /**
   * The gap a readable transcript yields: the one the last gap-setting line
   * left; failing that, the estimate from the last "New best" value (the
   * incumbent) and the larger value of the last branch line (the bound),
   * when both were seen and the incumbent is non-zero.
   */
  function TranscriptGap(lines: seq<string>): GapReport {
    match LastSome(lines, LineGap)
    case Some(g) => Gap(g)
    case None =>
      var bestZ := LastSome(lines, NewBestOf);
      var branch := LastSome(lines, BranchOf);
      if bestZ.Some? && branch.Some? && bestZ.value != 0.0
      then Gap(RelativeGap(Max(branch.value.0, branch.value.1), bestZ.value))
      else Unavailable
  }

  /** `parse_final_mip_gap` on a file that may not open. */
  function FinalMipGap(file: Option<seq<string>>): GapReport {
    match file
    case None => Unopenable
    case Some(lines) => TranscriptGap(lines)
  }

  /**
   * `parse_final_mip_gap`: one pass over the transcript keeping the gap,
   * the latest "New best" value and the latest branch values, then the
   * fallback estimate.
   */
  method ParseFinalMipGap(file: Option<seq<string>>) returns (r: GapReport)
    ensures r == FinalMipGap(file)
  {
    if file.None? {
      return Unopenable;
    }
    var gap, bestZ, branch := LatestOfThree(file.value, LineGap, NewBestOf, BranchOf);
    if gap.Some? {
      r := Gap(gap.value);
    } else if bestZ.Some? && branch.Some? {
      var incumbent := bestZ.value;
      var bound := Max(branch.value.0, branch.value.1);
      if incumbent != 0.0 {
        r := Gap(RelativeGap(bound, incumbent));
      } else {
        r := Unavailable;
      }
    } else {
      r := Unavailable;
    }
  }

  /** The last line that sets the gap decides it, whatever earlier lines set. */
  lemma {:induction false} LastGapLineGoverns(lines: seq<string>, j: nat)
    requires j < |lines| && LineGap(lines[j]).Some?
    requires forall k :: j < k < |lines| ==> LineGap(lines[k]).None?
    ensures FinalMipGap(Some(lines)) == Gap(LineGap(lines[j]).value)
  {
    LastSomeGoverns(lines, LineGap, j);
  }

  /**
   * The gap is "Not available" exactly when no line sets it and the
   * fallback lacks a "New best" value, a branch line, or a non-zero incumbent.
   */
  lemma {:induction false} UnavailableExactly(lines: seq<string>)
    ensures FinalMipGap(Some(lines)) == Unavailable <==>
            (forall k :: 0 <= k < |lines| ==> LineGap(lines[k]).None?)
            && (LastSome(lines, NewBestOf).None? || LastSome(lines, BranchOf).None?
                || LastSome(lines, NewBestOf) == Some(0.0))
  {
    LastSomeNone(lines, LineGap);
  }

  /** In particular a transcript where no pattern matches at all gives "Not available". */
  lemma {:induction false} NothingMatchesUnavailable(lines: seq<string>)
    requires forall k :: 0 <= k < |lines| ==> LineGap(lines[k]).None? && NewBestOf(lines[k]).None?
    ensures FinalMipGap(Some(lines)) == Unavailable
  {
    UnavailableExactly(lines);
    LastSomeNone(lines, NewBestOf);
  }

  /**
   * A branch line with a non-zero smaller value sets the gap at once, so
   * the fallback estimate can only be used when every branch line seen had
   * a smaller value of 0.
   */
  lemma {:induction false} FallbackOnlyAfterZeroBranches(lines: seq<string>)
    requires FinalMipGap(Some(lines)).Gap?
    requires LastSome(lines, LineGap).None?
    ensures forall k :: 0 <= k < |lines| && BranchOf(lines[k]).Some? ==>
              Min(BranchOf(lines[k]).value.0, BranchOf(lines[k]).value.1) == 0.0
    ensures LastSome(lines, NewBestOf).Some? && LastSome(lines, BranchOf).Some?
  {
    LastSomeNone(lines, LineGap);
    forall k | 0 <= k < |lines| && BranchOf(lines[k]).Some?
      ensures Min(BranchOf(lines[k]).value.0, BranchOf(lines[k]).value.1) == 0.0
    {
      LineGapPriority(lines[k]);
    }
  }

  /** A transcript line in the bound/incumbent form. */
  function BoundLine(): string {
    "Best" + (" bound" + (" =" + (" 90" + (" ," + (" Best" + (" integer" + (" =" + (" 100" + "\n"))))))))
  }

  /** `BoundLine`, written out. */
  lemma {:induction false} BoundLineText()
    ensures BoundLine() == "Best bound = 90 , Best integer = 100\n"
  {
  }

  /** The words and punctuation of `BoundLine` before the comma's end. */
  lemma {:induction false} BoundLineHeadWords()
    ensures BoundLine()[0..4] == "Best" && BoundLine()[5..10] == "bound"
    ensures BoundLine()[11..12] == "=" && BoundLine()[16..17] == ","
  {
    var s := BoundLine();
    assert s[..4] == "Best";
    assert s[4..10] == " bound";
    assert s[10..12] == " =";
    assert s[15..17] == " ,";
  }

  /** The words and punctuation of `BoundLine` after the comma. */
  lemma {:induction false} BoundLineTailWords()
    ensures BoundLine()[18..22] == "Best" && BoundLine()[23..30] == "integer" && BoundLine()[31..32] == "="
  {
    var s := BoundLine();
    assert s[17..22] == " Best";
    assert s[22..30] == " integer";
    assert s[30..32] == " =";
  }

  /** Where the white space of `BoundLine` before the comma ends. */
  lemma {:induction false} BoundLineHeadSpaces()
    ensures SkipSpace(BoundLine(), 4) == 5 && SkipSpace(BoundLine(), 10) == 11
    ensures SkipSpace(BoundLine(), 12) == 13 && SkipSpace(BoundLine(), 15) == 16
  {
    var s := BoundLine();
    assert s[4] == ' ' && s[5] == 'b';
    assert s[10] == ' ' && s[11] == '=';
    assert s[12] == ' ' && s[13] == '9';
    assert s[15] == ' ' && s[16] == ',';
  }

  /** Where the white space of `BoundLine` after the comma ends. */
  lemma {:induction false} BoundLineTailSpaces()
    ensures SkipSpace(BoundLine(), 17) == 18 && SkipSpace(BoundLine(), 22) == 23
    ensures SkipSpace(BoundLine(), 30) == 31 && SkipSpace(BoundLine(), 32) == 33
  {
    var s := BoundLine();
    assert s[17] == ' ' && s[18] == 'B';
    assert s[22] == ' ' && s[23] == 'i';
    assert s[30] == ' ' && s[31] == '=';
    assert s[32] == ' ' && s[33] == '1';
  }

  /** The first number of `BoundLine` scans as 90. */
  lemma {:induction false} BoundLineNinety()
    ensures ScanReal(BoundLine(), 13) == Some((90.0, 15))
  {
    var s := BoundLine();
    assert s[13] == '9' && s[14] == '0' && s[15] == ' ';
    assert DigitsEnd(s, 13) == 15;
    assert s[13..15] == "90" && "90"[..1] == "9";
    ScanRealDigits(s, 13, 15);
  }

  /** The digits of the second number of `BoundLine` and what ends them. */
  lemma {:induction false} BoundLineHundredDigits()
    ensures DigitsEnd(BoundLine(), 33) == 36 && BoundLine()[36] == '\n'
  {
    var s := BoundLine();
    assert s[33] == '1' && s[34] == '0' && s[35] == '0' && s[36] == '\n';
  }

  /** The second number of `BoundLine` scans as 100. */
  lemma {:induction false} BoundLineHundred()
    ensures ScanReal(BoundLine(), 33) == Some((100.0, 36))
  {
    var s := BoundLine();
    BoundLineHundredDigits();
    assert s[33..36] == "100" && "100"[..2] == "10" && "10"[..1] == "1";
    ScanRealDigits(s, 33, 36);
  }

  /** The bound/incumbent format from the comma's trailing space on. */
  function IntegerPart(): seq<Directive> {
    ([Space] + Lits("Best")) + (([Space] + Lits("integer")) + (([Space] + Lits("=")) + [Space, Float]))
  }

  /** The bound/incumbent format, split into a word and chunks of white space then a word or a number. */
  lemma {:induction false} BestBoundFormatParts()
    ensures BestBoundFormat
            == Lits("Best") + (([Space] + Lits("bound")) + (([Space] + Lits("=")) + ([Space, Float]
               + (([Space] + Lits(",")) + IntegerPart()))))
  {
  }

  /** Over a line laid out as "Best bound = <bound> ,", the format up to the comma assigns the bound. */
  lemma {:induction false} ScanBoundPart(s: string, bound: real)
    requires 17 <= |s| && s[0..4] == "Best" && s[5..10] == "bound" && s[11..12] == "=" && s[16..17] == ","
    requires SkipSpace(s, 4) == 5 && SkipSpace(s, 10) == 11 && SkipSpace(s, 15) == 16
    requires ScanReal(s, SkipSpace(s, 12)) == Some((bound, 15))
    ensures ScanFrom(s, 0, BestBoundFormat) == ([RealVal(bound)] + ScanFrom(s, 17, IntegerPart()).0, ScanFrom(s, 17, IntegerPart()).1)
  {
    BestBoundFormatParts();
    var r4 := ([Space] + Lits(",")) + IntegerPart();
    var r3 := [Space, Float] + r4;
    var r2 := ([Space] + Lits("=")) + r3;
    var r1 := ([Space] + Lits("bound")) + r2;
    ScanLits(s, 0, "Best", r1);
    ScanSpacedWord(s, 4, "bound", r2);
    ScanSpacedWord(s, 10, "=", r3);
    ScanSpacedFloat(s, 12, r4, bound, 15);
    ScanSpacedWord(s, 15, ",", IntegerPart());
  }

  /** Over " Best integer = <incumbent>" from 17 on, the rest of the format assigns the incumbent. */
  lemma {:induction false} ScanIncumbentPart(s: string, incumbent: real, end: nat)
    requires 32 <= |s| && s[18..22] == "Best" && s[23..30] == "integer" && s[31..32] == "="
    requires SkipSpace(s, 17) == 18 && SkipSpace(s, 22) == 23 && SkipSpace(s, 30) == 31
    requires ScanReal(s, SkipSpace(s, 32)) == Some((incumbent, end))
    ensures ScanFrom(s, 17, IntegerPart()) == ([RealVal(incumbent)], end)
  {
    var r3 := [Space, Float];
    var r2 := ([Space] + Lits("=")) + r3;
    var r1 := ([Space] + Lits("integer")) + r2;
    assert IntegerPart() == ([Space] + Lits("Best")) + r1;
    ScanSpacedWord(s, 17, "Best", r1);
    ScanSpacedWord(s, 22, "integer", r2);
    ScanSpacedWord(s, 30, "=", r3);
    assert r3 + [] == r3;
    ScanSpacedFloat(s, 32, [], incumbent, end);
    assert ScanFrom(s, end, []) == ([], end);
    assert [RealVal(incumbent)] + [] == [RealVal(incumbent)];
  }

  /** Up to the comma, `BoundLine` assigns 90. */
  lemma {:induction false} BoundLineHead()
    ensures ScanFrom(BoundLine(), 0, BestBoundFormat)
            == ([RealVal(90.0)] + ScanFrom(BoundLine(), 17, IntegerPart()).0, ScanFrom(BoundLine(), 17, IntegerPart()).1)
  {
    BoundLineHeadWords();
    BoundLineHeadSpaces();
    BoundLineNinety();
    ScanBoundPart(BoundLine(), 90.0);
  }

  /** After the comma, `BoundLine` assigns 100. */
  lemma {:induction false} BoundLineTail()
    ensures ScanFrom(BoundLine(), 17, IntegerPart()) == ([RealVal(100.0)], 36)
  {
    BoundLineTailWords();
    BoundLineTailSpaces();
    BoundLineHundred();
    ScanIncumbentPart(BoundLine(), 100.0, 36);
  }

  /** `BoundLine` matches the bound/incumbent pattern with (90, 100). */
  lemma {:induction false} BoundLineScans()
    ensures BestBoundOf(BoundLine()) == Some((90.0, 100.0))
  {
    BoundLineHead();
    BoundLineTail();
  }

  /** `BoundLine` has no 'M', so neither percentage pattern matches it. */
  lemma {:induction false} BoundLineHasNoPercentage()
    ensures MipGapOf(BoundLine()).None? && ToleranceGapOf(BoundLine()).None?
  {
    var s := BoundLine();
    assert 'M' !in s;
    MissingFirstChar(s, "MIP optimal", 0);
    assert MipGapFormat[0] == Lit('M');
  }

  /** `BoundLine` has no 'Z', so the branch pattern does not match it. */
  lemma {:induction false} BoundLineHasNoBranch()
    ensures BranchOf(BoundLine()).None?
  {
    var s := BoundLine();
    assert 'Z' !in s;
    MissingFirstChar(s, "Z0 =", 0);
  }

  /** A transcript whose only line is "Best bound = 90 , Best integer = 100" gives a gap of 0.10. */
  lemma {:induction false} BoundNinetyOfHundred()
    ensures FinalMipGap(Some(["Best bound = 90 , Best integer = 100\n"])) == Gap(0.1)
  {
    var line := BoundLine();
    BoundLineText();
    BoundLineScans();
    BoundLineHasNoPercentage();
    BoundLineHasNoBranch();
    LineGapPriority(line);
    assert LineGap(line) == Some(RelativeGap(90.0, 100.0));
    LastSomeGoverns([line], LineGap, 0);
  }

  /** Reading the same transcript twice over yields the same gap: the last lines decide. */
  lemma {:induction false} RepeatedTranscriptSameGap(lines: seq<string>)
    ensures FinalMipGap(Some(lines + lines)) == FinalMipGap(Some(lines))
  {
    LastSomeTwice(lines, LineGap);
    LastSomeTwice(lines, NewBestOf);
    LastSomeTwice(lines, BranchOf);
  }

  /** What the metrics table shows for the gap: the gap when it is a non-negative number, else "Not available". */
  function ShownGap(r: GapReport): (shown: Option<real>)
    ensures shown.Some? <==> r.Gap? && r.value >= 0.0
    ensures shown.Some? ==> shown.value == r.value
  {
    if r.Gap? && r.value >= 0.0 then Some(r.value) else None
  }

  /** A file that cannot be opened, or a transcript without a gap, shows "Not available". */
  lemma {:induction false} ShownGapMissing(file: Option<seq<string>>)
    requires file.None? || (forall k :: 0 <= k < |file.value| ==> LineGap(file.value[k]).None? && NewBestOf(file.value[k]).None?)
    ensures ShownGap(FinalMipGap(file)).None?
  {
    if file.Some? {
      NothingMatchesUnavailable(file.value);
    }
  }

  /** Every gap computed from a bound and an incumbent is non-negative, so only a percentage line can hide it. */
  lemma {:induction false} ComputedGapsShown(line: string)
    requires LineGap(line).Some? && MipGapOf(line).None? && ToleranceGapOf(line).None?
    ensures LineGap(line).value >= 0.0
  {
    LineGapPriority(line);
  }
}
