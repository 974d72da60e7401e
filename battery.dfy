/**
 * battery_wrapper.c: reads the terminals, decides from the solver
 * transcript whether any tree was selected, and updates every terminal's
 * battery: a demand-only drain when nothing was selected, otherwise a
 * charge for the covered terminals and a drain for all, with terminal 0
 * (the base station) pinned at 100.
 */
module Battery {
  import opened Wrappers
  import opened CText
  import opened Scan
  import opened Seqs
  import opened LineLoops
  import opened Network

  const MinBatteryLevel := 0.0
  const MaxBatteryLevel := 100.0
  const DefaultChargeRate := 10.0
  const DefaultDemandRate := 5.0

  /** The initial size of the terminal buffer. */
  const InitialCapacity := 16

  /** `clamp_battery`: the level brought into [0, 100], unchanged when already there. */
  function Clamp(level: real): (r: real)
    ensures MinBatteryLevel <= r <= MaxBatteryLevel
    ensures MinBatteryLevel <= level <= MaxBatteryLevel ==> r == level
    ensures level < MinBatteryLevel ==> r == MinBatteryLevel
    ensures level > MaxBatteryLevel ==> r == MaxBatteryLevel
  {
    if level < MinBatteryLevel then MinBatteryLevel
    else if level > MaxBatteryLevel then MaxBatteryLevel
    else level
  }

  /** Clamping twice is clamping once. */
  lemma {:induction false} ClampIdempotent(level: real)
    ensures Clamp(Clamp(level)) == Clamp(level)
  {
  }

  /** Clamping keeps the order of levels. */
  lemma {:induction false} ClampMonotone(a: real, b: real)
    requires a <= b
    ensures Clamp(a) <= Clamp(b)
  {
  }

  // ---------------------------------------------------------------------
  // read_terminals (battery_wrapper.c:107-137)
  // ---------------------------------------------------------------------

  /** A line skipped without a look: a comment, or shorter than two characters (a bare newline). */
  predicate SkippedRow(line: string) {
    |line| < 2 || line[0] == '#'
  }

  /** The `x y battery` triple a line scans as, when all three scan. */
  function TripleOf(line: string): Option<(real, real, real)> {
    var v := Scanf(line, TripleFormat);
    if |v| >= 3 && v[0].RealVal? && v[1].RealVal? && v[2].RealVal? then Some((v[0].r, v[1].r, v[2].r))
    else None
  }

  /** The `k`-th terminal read: battery clamped, not covered, id `k`. */
  function RowTerminal(k: nat, t: (real, real, real)): Terminal {
    Terminal(t.0, t.1, Clamp(t.2), k, false)
  }

  /** The terminals `read_terminals` reads from the lines of a file: every unskipped line whose triple scans. */
  function TerminalRows(lines: seq<string>): seq<Terminal> {
    Numbered(Collect(lines, 0, Unskipped(SkippedRow, TripleOf)), RowTerminal)
  }

  /**
   * `read_terminals`: the terminals in a buffer that starts with 16 slots
   * and doubles when full; 0 when at least one terminal was read, -1
   * otherwise, and -1 with nothing read when the file cannot be opened.
   */
  method ReadTerminals(file: Option<seq<string>>) returns (status: int, terms: array<Terminal>, count: nat)
    ensures fresh(terms) && count <= terms.Length
    ensures file.None? ==> status == -1 && count == 0
    ensures file.Some? ==> terms[..count] == TerminalRows(file.value)
    ensures file.Some? ==> (status == 0 <==> count > 0) && (status == -1 <==> count == 0)
    ensures file.Some? ==> Doubled(terms.Length, InitialCapacity)
    ensures file.Some? ==> terms.Length == InitialCapacity || terms.Length <= 2 * count
  {
    if file.None? {
      return -1, new Terminal[0], 0;
    }
    terms, count := CollectGrowing(file.value, SkippedRow, TripleOf, RowTerminal, InitialCapacity);
    status := if count > 0 then 0 else -1;
  }

  /** Every terminal read has its position as id, a battery in [0, 100], and is not covered. */
  lemma {:induction false} TerminalRowsShape(lines: seq<string>)
    ensures var rows := TerminalRows(lines);
            |rows| <= |lines|
            && forall k :: 0 <= k < |rows| ==>
                 rows[k].id == k && !rows[k].covered && 0.0 <= rows[k].battery <= 100.0
  {
    CollectLength(lines, 0, Unskipped(SkippedRow, TripleOf));
  }

  /** Comment lines and bare newlines never give a terminal. */
  lemma {:induction false} SkippedRowsGiveNothing(line: string)
    requires SkippedRow(line)
    ensures Unskipped(SkippedRow, TripleOf)(line).None?
  {
  }

  // ---------------------------------------------------------------------
  // check_for_selected_fsts (battery_wrapper.c:140-150)
  // ---------------------------------------------------------------------

  /** A line reporting a variable `x[...]` at 1.0: a selected tree. */
  predicate SelectionLine(line: string) {
    Contains(line, "x[") && Contains(line, "] = 1.0")
  }

  /** What `check_for_selected_fsts` returns: -1 when the file cannot be opened, else the selection lines counted. */
  function SelectionCount(file: Option<seq<string>>): int {
    if file.None? then -1 else CountWhere(file.value, SelectionLine)
  }

  /** `check_for_selected_fsts`. */
  method CheckForSelectedFsts(file: Option<seq<string>>) returns (selected: int)
    ensures selected == SelectionCount(file)
  {
    if file.None? {
      return -1;
    }
    var n := CountMatching(file.value, SelectionLine);
    selected := n;
  }

  /** The count is zero exactly when the transcript opens and no line reports a selected tree. */
  lemma {:induction false} NoSelectionExactly(file: Option<seq<string>>)
    ensures SelectionCount(file) == 0 <==>
            file.Some? && forall j :: 0 <= j < |file.value| ==> !SelectionLine(file.value[j])
  {
    if file.Some? {
      CountWhereZero(file.value, SelectionLine);
    }
  }

  // ---------------------------------------------------------------------
  // parse_coverage_from_solution (battery_wrapper.c:153-176)
  // ---------------------------------------------------------------------

  /** The `atoi` values of a line's tokens. */
  function AtoiAll(tokens: seq<string>): (ids: seq<int>)
    ensures |ids| == |tokens| && forall k :: 0 <= k < |tokens| ==> ids[k] == Atoi(tokens[k])
  {
    seq(|tokens|, k requires 0 <= k < |tokens| => Atoi(tokens[k]))
  }

  /**
   * The terminal ids a tree line lists: for a line with both "% fs" and
   * ":", the `atoi` value of every blank-, tab- or newline-separated token
   * after its first colon.
   */
  function ListedTerminals(line: string): Option<seq<int>> {
    if Contains(line, "% fs") && Contains(line, ":") then
      match IndexOf(line, ':')
      case Some(c) => Some(AtoiAll(Tokens(line[c + 1..], {' ', '\t', '\n'})))
      case None => None
    else None
  }

  /** Whether terminal `k` is listed by some tree line of the transcript. */
  predicate MarkedIn(lines: seq<string>, k: int) {
    ListedIn(lines, ListedTerminals, k)
  }

  /**
   * `parse_coverage_from_solution`: -1 and nothing touched when the file
   * cannot be opened; otherwise the first `max` flags become "listed by a
   * tree line", and the result is 0 when some tree line was seen, -1 when
   * none was.
   */
  method ParseCoverageFromSolution(file: Option<seq<string>>, coverage: array<bool>, max: int) returns (status: int)
    requires max <= coverage.Length
    modifies coverage
    ensures file.None? ==> status == -1 && coverage[..] == old(coverage[..])
    ensures file.Some? ==> forall k :: 0 <= k < max ==> coverage[k] == MarkedIn(file.value, k)
    ensures file.Some? ==> status == (if AnyListing(file.value, ListedTerminals) then 0 else -1)
    ensures forall k :: 0 <= k < coverage.Length && !(0 <= k < max) ==> coverage[k] == old(coverage[k])
  {
    if file.None? {
      return -1;
    }
    var i := 0;
    while i < max
      invariant 0 <= i <= if max < 0 then 0 else max
      invariant forall k :: 0 <= k < i ==> !coverage[k]
      invariant forall k :: 0 <= k < coverage.Length && !(0 <= k < i) ==> coverage[k] == old(coverage[k])
    {
      coverage[i] := false;
      i := i + 1;
    }
    var found := MarkListed(file.value, ListedTerminals, coverage, max);
    status := if found then 0 else -1;
  }

  /** A terminal is marked exactly when some tree line lists it. */
  lemma {:induction false} MarkedHasWitness(lines: seq<string>, k: int)
    ensures MarkedIn(lines, k) <==>
            exists j :: 0 <= j < |lines| && ListedTerminals(lines[j]).Some? && k in ListedTerminals(lines[j]).value
  {
    ListedInWitness(lines, ListedTerminals, k);
  }

  /** A token that is not a number (`atoi` gives 0) marks terminal 0, the base station. */
  lemma {:induction false} NonNumericTokenMarksBase(line: string, c: nat)
    requires Contains(line, "% fs") && Contains(line, ":") && IndexOf(line, ':') == Some(c)
    requires exists t :: t in Tokens(line[c + 1..], {' ', '\t', '\n'}) && Atoi(t) == 0
    ensures MarkedIn([line], 0)
  {
    var tokens := Tokens(line[c + 1..], {' ', '\t', '\n'});
    var t :| t in tokens && Atoi(t) == 0;
    var j :| 0 <= j < |tokens| && tokens[j] == t;
    assert AtoiAll(tokens)[j] == 0;
    assert [line][..0] == [];
  }

  // ---------------------------------------------------------------------
  // The two battery updates (battery_wrapper.c:179-208)
  // ---------------------------------------------------------------------

  /** `apply_demand_only_update` for terminal `i`: the base station refilled and covered, every other one drained and uncovered. */
  function DemandOnly(t: Terminal, i: int, demand: real): Terminal {
    if i == 0 then t.(battery := Clamp(100.0), covered := true)
    else t.(battery := Clamp(t.battery - demand), covered := false)
  }

  /** `update_battery_levels` for terminal `i`: the base station refilled, every other one charged when covered and drained. */
  function Charged(t: Terminal, i: int, charge: real, demand: real): Terminal {
    if i == 0 then t.(battery := 100.0)
    else t.(battery := Clamp(t.battery + (if t.covered then charge else 0.0) - demand))
  }

  function DemandOnlyAll(ts: seq<Terminal>, demand: real): (us: seq<Terminal>)
    ensures |us| == |ts| && forall i :: 0 <= i < |ts| ==> us[i] == DemandOnly(ts[i], i, demand)
  {
    seq(|ts|, i requires 0 <= i < |ts| => DemandOnly(ts[i], i, demand))
  }

  function ChargedAll(ts: seq<Terminal>, charge: real, demand: real): (us: seq<Terminal>)
    ensures |us| == |ts| && forall i :: 0 <= i < |ts| ==> us[i] == Charged(ts[i], i, charge, demand)
  {
    seq(|ts|, i requires 0 <= i < |ts| => Charged(ts[i], i, charge, demand))
  }

  /** `apply_demand_only_update` over the first `count` terminals, in place. */
  method DemandOnlyUpdate(terms: array<Terminal>, count: nat, demand: real)
    requires count <= terms.Length
    modifies terms
    ensures terms[..count] == DemandOnlyAll(old(terms[..count]), demand)
    ensures terms[count..] == old(terms[count..])
  {
    var i := 0;
    while i < count
      invariant 0 <= i <= count
      invariant forall k :: 0 <= k < i ==> terms[k] == DemandOnly(old(terms[k]), k, demand)
      invariant forall k :: i <= k < terms.Length ==> terms[k] == old(terms[k])
    {
      if i == 0 {
        terms[i] := terms[i].(battery := 100.0, covered := true);
      } else {
        terms[i] := terms[i].(battery := terms[i].battery - demand, covered := false);
      }
      terms[i] := terms[i].(battery := Clamp(terms[i].battery));
      i := i + 1;
    }
  }

  /** `update_battery_levels` over the first `count` terminals, in place. */
  method UpdateBatteryLevels(terms: array<Terminal>, count: nat, charge: real, demand: real)
    requires count <= terms.Length
    modifies terms
    ensures terms[..count] == ChargedAll(old(terms[..count]), charge, demand)
    ensures terms[count..] == old(terms[count..])
  {
    var i := 0;
    while i < count
      invariant 0 <= i <= count
      invariant forall k :: 0 <= k < i ==> terms[k] == Charged(old(terms[k]), k, charge, demand)
      invariant forall k :: i <= k < terms.Length ==> terms[k] == old(terms[k])
    {
      var level := terms[i].battery;
      if i == 0 {
        terms[i] := terms[i].(battery := 100.0);
      } else {
        var add := if terms[i].covered then charge else 0.0;
        terms[i] := terms[i].(battery := Clamp(level + add - demand));
      }
      i := i + 1;
    }
  }

  /** After either update, every battery is in [0, 100] and the base station's is full; positions and ids are kept. */
  lemma {:induction false} UpdatesKeepRange(ts: seq<Terminal>, charge: real, demand: real)
    requires |ts| > 0
    ensures DemandOnlyAll(ts, demand)[0].battery == 100.0 && ChargedAll(ts, charge, demand)[0].battery == 100.0
    ensures forall i :: 0 <= i < |ts| ==>
              0.0 <= DemandOnlyAll(ts, demand)[i].battery <= 100.0
              && 0.0 <= ChargedAll(ts, charge, demand)[i].battery <= 100.0
    ensures forall i :: 0 <= i < |ts| ==>
              DemandOnlyAll(ts, demand)[i].(battery := ts[i].battery, covered := ts[i].covered) == ts[i]
              && ChargedAll(ts, charge, demand)[i].(battery := ts[i].battery) == ts[i]
  {
  }

  /** A covered terminal other than the base station never loses charge when the charge rate covers the demand. */
  lemma {:induction false} CoveredNeverDrains(t: Terminal, i: int, charge: real, demand: real)
    requires i != 0 && t.covered && charge >= demand && 0.0 <= t.battery <= 100.0
    ensures Charged(t, i, charge, demand).battery >= t.battery
  {
  }

  /** An uncovered terminal other than the base station loses the demand, down to empty. */
  lemma {:induction false} UncoveredDrains(t: Terminal, i: int, charge: real, demand: real)
    requires i != 0 && !t.covered && demand >= 0.0 && 0.0 <= t.battery <= 100.0
    ensures Charged(t, i, charge, demand).battery == if t.battery >= demand then t.battery - demand else 0.0
  {
  }

  /**
   * With the default rates (charge 10, demand 5) a covered terminal other
   * than the base station gains 5 up to full, and an uncovered one loses 5
   * down to empty.
   */
  lemma {:induction false} DefaultRatesNetFive(t: Terminal, i: int)
    requires i != 0 && 0.0 <= t.battery <= 100.0
    ensures t.covered ==> Charged(t, i, DefaultChargeRate, DefaultDemandRate).battery
                          == if t.battery <= 95.0 then t.battery + 5.0 else 100.0
    ensures !t.covered ==> Charged(t, i, DefaultChargeRate, DefaultDemandRate).battery
                           == if t.battery >= 5.0 then t.battery - 5.0 else 0.0
  {
  }

  // ---------------------------------------------------------------------
  // main (battery_wrapper.c:226-268)
  // ---------------------------------------------------------------------

  /** The result of one run: a failure (exit status 1), or the terminals written out and which update was applied. */
  datatype Outcome = Failed | Updated(terminals: seq<Terminal>, demandOnly: bool)

  /** The terminals with the coverage flags the transcript gives them (none when it cannot be opened). */
  function WithMarks(rows: seq<Terminal>, solution: Option<seq<string>>): (ts: seq<Terminal>)
    ensures |ts| == |rows|
    ensures forall i :: 0 <= i < |rows| ==>
              ts[i] == rows[i].(covered := solution.Some? && MarkedIn(solution.value, i))
  {
    seq(|rows|, i requires 0 <= i < |rows| => rows[i].(covered := solution.Some? && MarkedIn(solution.value, i)))
  }

  /**
   * What `main` does once the options are parsed: fails when no terminal is
   * read; applies the demand-only update when the transcript reports no
   * selected tree; otherwise marks coverage from the transcript and applies
   * the charge-and-drain update.
   */
  function Run(input: Option<seq<string>>, solution: Option<seq<string>>, charge: real, demand: real): Outcome {
    if input.None? || |TerminalRows(input.value)| == 0 then Failed
    else
      var rows := TerminalRows(input.value);
      if SelectionCount(solution) == 0 then Updated(DemandOnlyAll(rows, demand), true)
      else Updated(ChargedAll(WithMarks(rows, solution), charge, demand), false)
  }

  /** Copies the coverage flags onto the terminals. */
  method ApplyMarks(terms: array<Terminal>, count: nat, coverage: array<bool>)
    requires count <= terms.Length && count <= coverage.Length
    modifies terms
    ensures forall i :: 0 <= i < count ==> terms[i] == old(terms[i]).(covered := coverage[i])
    ensures terms[count..] == old(terms[count..])
  {
    var i := 0;
    while i < count
      invariant 0 <= i <= count
      invariant forall k :: 0 <= k < i ==> terms[k] == old(terms[k]).(covered := coverage[k])
      invariant forall k :: i <= k < terms.Length ==> terms[k] == old(terms[k])
    {
      terms[i] := terms[i].(covered := coverage[i]);
      i := i + 1;
    }
  }

  /** The charge-and-drain path of `main`: coverage from a zeroed buffer, then the update. */
  method CoverageUpdate(terms: array<Terminal>, count: nat, solution: Option<seq<string>>, charge: real, demand: real)
    requires count <= terms.Length
    modifies terms
    ensures terms[..count] == ChargedAll(WithMarks(old(terms[..count]), solution), charge, demand)
    ensures terms[count..] == old(terms[count..])
  {
    ghost var rows := terms[..count];
    var coverage := new bool[count](_ => false);
    var _ := ParseCoverageFromSolution(solution, coverage, count);
    assert forall i :: 0 <= i < count ==> coverage[i] == (solution.Some? && MarkedIn(solution.value, i));
    ApplyMarks(terms, count, coverage);
    assert terms[..count] == WithMarks(rows, solution);
    UpdateBatteryLevels(terms, count, charge, demand);
  }

  /** `main` after option parsing, proved to compute `Run`; writing the output file is left to the caller. */
  method RunWrapper(input: Option<seq<string>>, solution: Option<seq<string>>, charge: real, demand: real)
    returns (exitCode: int, outcome: Outcome)
    ensures outcome == Run(input, solution, charge, demand)
    ensures exitCode == (if outcome.Failed? then 1 else 0)
  {
    var status, terms, count := ReadTerminals(input);
    if status != 0 {
      return 1, Failed;
    }
    var selected := CheckForSelectedFsts(solution);
    if selected == 0 {
      DemandOnlyUpdate(terms, count, demand);
      return 0, Updated(terms[..count], true);
    }
    CoverageUpdate(terms, count, solution, charge, demand);
    return 0, Updated(terms[..count], false);
  }

  /**
   * When the transcript cannot be opened, the charge-and-drain path runs
   * with nothing covered and leaves exactly the batteries the demand-only
   * update would.
   */
  lemma {:induction false} UnopenedSolutionDrainsOnly(input: seq<string>, charge: real, demand: real)
    requires |TerminalRows(input)| > 0
    ensures var out := Run(Some(input), None, charge, demand);
            out.Updated? && !out.demandOnly
            && forall i :: 0 <= i < |out.terminals| ==>
                 out.terminals[i].battery == DemandOnlyAll(TerminalRows(input), demand)[i].battery
  {
    var rows := TerminalRows(input);
    TerminalRowsShape(input);
    forall i | 0 <= i < |rows|
      ensures ChargedAll(WithMarks(rows, None), charge, demand)[i].battery == DemandOnlyAll(rows, demand)[i].battery
    {
      if i == 0 {
        assert Clamp(100.0) == 100.0;
      } else {
        assert rows[i].battery + 0.0 - demand == rows[i].battery - demand;
      }
    }
  }

  /** The demand-only path is taken exactly when the transcript opens and reports no selected tree. */
  lemma {:induction false} DemandOnlyExactly(input: Option<seq<string>>, solution: Option<seq<string>>, charge: real, demand: real)
    requires Run(input, solution, charge, demand).Updated?
    ensures Run(input, solution, charge, demand).demandOnly <==>
            solution.Some? && forall j :: 0 <= j < |solution.value| ==> !SelectionLine(solution.value[j])
  {
    NoSelectionExactly(solution);
  }

  /** A run fails exactly when no terminal can be read. */
  lemma {:induction false} FailsExactly(input: Option<seq<string>>, solution: Option<seq<string>>, charge: real, demand: real)
    ensures Run(input, solution, charge, demand).Failed? <==> input.None? || TerminalRows(input.value) == []
  {
  }
}
