/**
 * Which terminals the solution covers, as simulate.c's
 * `parse_solution_coverage` reads it from the solver's debug dump of the
 * LP variables `not_covered[k] = v`: the last value printed for a terminal
 * decides, and a terminal is covered when that value is below 0.5.
 */
module Coverage {
  import opened Wrappers
  import opened CText
  import opened Scan
  import opened Seqs
  import opened LineLoops

  /** The size of the local `final_not_covered` table. */
  const FinalTableSize := 50

  /** The value below which a terminal counts as covered. */
  const CoverageThreshold := 0.5

  /**
   * A line with both "not_covered[" and "] =" that scans as
   * `%*s %*s %*s not_covered[%d] = %lf`: the terminal and its value.
   */
  function CoverageEntryOf(line: string): Option<(int, real)> {
    if Contains(line, "not_covered[") && Contains(line, "] =") then
      var v := Scanf(line, CoverageFormat);
      if |v| >= 2 && v[0].IntVal? && v[1].RealVal? then Some((v[0].i, v[1].r)) else None
    else None
  }

  /** The value left for terminal `k`: the last one printed for it, or 0 when none was. */
  function FinalNotCovered(lines: seq<string>, k: int): real {
    LastFor(lines, CoverageEntryOf, k).GetOr(0.0)
  }

  /** The verdict for terminal `k`. */
  predicate CoveredIn(lines: seq<string>, k: int) {
    FinalNotCovered(lines, k) < CoverageThreshold
  }

  /**
   * `parse_solution_coverage`: marks the first `maxTerminals` terminals
   * covered, and when the file opens, replaces each mark by the verdict of
   * the last `not_covered` value printed for it; -1 when the file cannot be
   * opened, 0 otherwise.
   */
  method ParseSolutionCoverage(file: Option<seq<string>>, coverage: array<bool>, maxTerminals: int)
    returns (status: int)
    requires maxTerminals <= FinalTableSize && maxTerminals <= coverage.Length
    modifies coverage
    ensures file.None? ==> status == -1 && forall k :: 0 <= k < maxTerminals ==> coverage[k]
    ensures file.Some? ==> status == 0 && forall k :: 0 <= k < maxTerminals ==> coverage[k] == CoveredIn(file.value, k)
    ensures forall k :: 0 <= k < coverage.Length && !(0 <= k < maxTerminals) ==> coverage[k] == old(coverage[k])
  {
    var finalNotCovered := new real[FinalTableSize];
    var count := if maxTerminals < 0 then 0 else maxTerminals;
    var i := 0;
    while i < count
      invariant 0 <= i <= count
      invariant forall k :: 0 <= k < i ==> coverage[k] && finalNotCovered[k] == 0.0
      invariant forall k :: 0 <= k < coverage.Length && !(0 <= k < i) ==> coverage[k] == old(coverage[k])
    {
      coverage[i] := true;
      finalNotCovered[i] := 0.0;
      i := i + 1;
    }
    if file.None? {
      return -1;
    }
    RecordLatest(file.value, CoverageEntryOf, finalNotCovered, maxTerminals);
    assert forall k :: 0 <= k < maxTerminals ==> finalNotCovered[k] == FinalNotCovered(file.value, k);
    i := 0;
    while i < count
      invariant 0 <= i <= count
      invariant forall k :: 0 <= k < count ==> finalNotCovered[k] == FinalNotCovered(file.value, k)
      invariant forall k :: 0 <= k < i ==> coverage[k] == CoveredIn(file.value, k)
      invariant forall k :: 0 <= k < coverage.Length && !(0 <= k < maxTerminals) ==> coverage[k] == old(coverage[k])
    {
      coverage[i] := finalNotCovered[i] < CoverageThreshold;
      i := i + 1;
    }
    status := 0;
  }

  /** The last `not_covered` line for a terminal decides its verdict. */
  lemma {:induction false} LastValueDecides(lines: seq<string>, k: int, j: nat, v: real)
    requires j < |lines| && CoverageEntryOf(lines[j]) == Some((k, v))
    requires forall m :: j < m < |lines| && CoverageEntryOf(lines[m]).Some? ==> CoverageEntryOf(lines[m]).value.0 != k
    ensures CoveredIn(lines, k) <==> v < 0.5
  {
    LastForGoverns(lines, CoverageEntryOf, k, j, v);
  }

  /** A terminal no `not_covered` line mentions stays covered. */
  lemma {:induction false} UnmentionedCovered(lines: seq<string>, k: int)
    requires forall m :: 0 <= m < |lines| && CoverageEntryOf(lines[m]).Some? ==> CoverageEntryOf(lines[m]).value.0 != k
    ensures CoveredIn(lines, k)
  {
    LastForNone(lines, CoverageEntryOf, k);
  }

  /** A terminal is uncovered only when some line printed a value of at least 0.5 for it. */
  lemma {:induction false} UncoveredHasWitness(lines: seq<string>, k: int)
    requires !CoveredIn(lines, k)
    ensures exists m :: 0 <= m < |lines| && CoverageEntryOf(lines[m]).Some?
                        && CoverageEntryOf(lines[m]).value.0 == k && CoverageEntryOf(lines[m]).value.1 >= 0.5
    decreases |lines|
  {
    var init := lines[..|lines| - 1];
    var last := lines[|lines| - 1];
    match CoverageEntryOf(last)
    case Some((key, v)) =>
      if key != k {
        UncoveredHasWitness(init, k);
        var m :| 0 <= m < |init| && CoverageEntryOf(init[m]).Some?
                 && CoverageEntryOf(init[m]).value.0 == k && CoverageEntryOf(init[m]).value.1 >= 0.5;
        assert lines[m] == init[m];
      }
    case None =>
      UncoveredHasWitness(init, k);
      var m :| 0 <= m < |init| && CoverageEntryOf(init[m]).Some?
               && CoverageEntryOf(init[m]).value.0 == k && CoverageEntryOf(init[m]).value.1 >= 0.5;
      assert lines[m] == init[m];
  }

  /** Reading the transcript twice over gives the same verdicts as reading it once. */
  lemma {:induction false} VerdictsStable(lines: seq<string>, k: int)
    ensures CoveredIn(lines + lines, k) == CoveredIn(lines, k)
  {
    LastForTwice(lines, CoverageEntryOf, k);
  }
}
