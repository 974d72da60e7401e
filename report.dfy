/**
 * The decisions simulate.c's `create_rich_visualization` makes once the
 * files are read: the terminals with their coverage, the selection flags of
 * the dumped trees, the segments drawn for each selected tree, each
 * terminal's marker, and the metrics (selected trees, covered terminals,
 * coverage rate, MIP gap). The HTML and SVG text itself is not modelled.
 */
module Report {
  import opened Wrappers
  import opened Seqs
  import opened Network
  import opened TerminalsFile
  import opened Coverage
  import opened TreeDump
  import opened Transcript
  import opened MipGap
  import opened Render

  /** The sizes of the arrays `create_rich_visualization` reads into. */
  const MaxTerminals := 50
  const MaxDumpFsts := 100
  const MaxSelectedIds := 50
  const MaxSolutionFsts := 50

  /** A count returned by a parser, where -1 (file not opened) counts as none. */
  function Clip(n: int): (c: nat)
    ensures n >= 0 ==> c == n
    ensures n < 0 ==> c == 0
  {
    if n < 0 then 0 else n
  }

  // ---------------------------------------------------------------------
  // Selection reconciliation (simulate.c:796-807)
  // ---------------------------------------------------------------------

  /** A dumped tree with its selection flag set from the selected ids, and nothing else changed. */
  function Reconciled(f: Fst, selectedIds: seq<int>): (g: Fst)
    ensures g.selected <==> f.id in selectedIds
    ensures g.(selected := f.selected) == f
  {
    f.(selected := f.id in selectedIds)
  }

  function ReconcileAll(fsts: seq<Fst>, selectedIds: seq<int>): (gs: seq<Fst>)
    ensures |gs| == |fsts| && forall k :: 0 <= k < |fsts| ==> gs[k] == Reconciled(fsts[k], selectedIds)
  {
    seq(|fsts|, k requires 0 <= k < |fsts| => Reconciled(fsts[k], selectedIds))
  }

  /**
   * The reconciliation loop: every one of the first `numFsts` trees is
   * marked selected exactly when its id is among the first `numIds`
   * selected ids.
   */
  method Reconcile(fsts: array<Fst>, numFsts: int, ids: array<int>, numIds: int)
    requires numFsts <= fsts.Length && numIds <= ids.Length
    modifies fsts
    ensures fsts[..Clip(numFsts)] == ReconcileAll(old(fsts[..Clip(numFsts)]), ids[..Clip(numIds)])
    ensures fsts[Clip(numFsts)..] == old(fsts[Clip(numFsts)..])
  {
    var i := 0;
    while i < numFsts
      invariant 0 <= i <= Clip(numFsts)
      invariant forall k :: 0 <= k < i ==> fsts[k] == Reconciled(old(fsts[k]), ids[..Clip(numIds)])
      invariant forall k :: i <= k < fsts.Length ==> fsts[k] == old(fsts[k])
    {
      fsts[i] := fsts[i].(selected := false);
      var j := 0;
      while j < numIds
        invariant 0 <= j <= Clip(numIds)
        invariant fsts[i] == old(fsts[i]).(selected := false)
        invariant old(fsts[i]).id !in ids[..j]
        invariant forall k :: 0 <= k < fsts.Length && k != i ==> fsts[k] == old(fsts[k]) || k < i
        invariant forall k :: 0 <= k < i ==> fsts[k] == Reconciled(old(fsts[k]), ids[..Clip(numIds)])
      {
        if fsts[i].id == ids[j] {
          fsts[i] := fsts[i].(selected := true);
          assert ids[..Clip(numIds)][j] == ids[j];
          break;
        }
        assert ids[..j + 1] == ids[..j] + [ids[j]];
        j := j + 1;
      }
      i := i + 1;
    }
  }

  // ---------------------------------------------------------------------
  // Counting (simulate.c:918-927)
  // ---------------------------------------------------------------------

  /** The number of selected trees. */
  function SelectedCount(fsts: seq<Fst>): (n: nat)
    ensures n <= |fsts|
  {
    if fsts == [] then 0 else SelectedCount(fsts[..|fsts| - 1]) + (if fsts[|fsts| - 1].selected then 1 else 0)
  }

  /** The number of covered terminals. */
  function CoveredCount(ts: seq<Terminal>): (n: nat)
    ensures n <= |ts|
  {
    if ts == [] then 0 else CoveredCount(ts[..|ts| - 1]) + (if ts[|ts| - 1].covered then 1 else 0)
  }

  method CountSelected(fsts: array<Fst>, numFsts: int) returns (count: nat)
    requires numFsts <= fsts.Length
    ensures count == SelectedCount(fsts[..Clip(numFsts)])
  {
    count := 0;
    var i := 0;
    while i < numFsts
      invariant 0 <= i <= Clip(numFsts)
      invariant count == SelectedCount(fsts[..i])
    {
      assert fsts[..i + 1][..i] == fsts[..i];
      if fsts[i].selected {
        count := count + 1;
      }
      i := i + 1;
    }
  }

  method CountCovered(terminals: array<Terminal>, numTerminals: int) returns (count: nat)
    requires numTerminals <= terminals.Length
    ensures count == CoveredCount(terminals[..Clip(numTerminals)])
  {
    count := 0;
    var i := 0;
    while i < numTerminals
      invariant 0 <= i <= Clip(numTerminals)
      invariant count == CoveredCount(terminals[..i])
    {
      assert terminals[..i + 1][..i] == terminals[..i];
      if terminals[i].covered {
        count := count + 1;
      }
      i := i + 1;
    }
  }

  /** The positions of the trees whose id is listed. */
  function ListedPositions(fsts: seq<Fst>, selectedIds: seq<int>): set<nat> {
    set k: nat | k < |fsts| && fsts[k].id in selectedIds
  }

  /**
   * After reconciliation the selected count is the number of trees whose
   * id is listed, however the trees were marked before.
   */
  lemma {:induction false} SelectedCountIsListed(fsts: seq<Fst>, selectedIds: seq<int>)
    ensures SelectedCount(ReconcileAll(fsts, selectedIds)) == |ListedPositions(fsts, selectedIds)|
    decreases |fsts|
  {
    if fsts != [] {
      var last := |fsts| - 1;
      var init := fsts[..last];
      SelectedCountIsListed(init, selectedIds);
      var all := ReconcileAll(fsts, selectedIds);
      assert all[..last] == ReconcileAll(init, selectedIds);
      assert SelectedCount(all) == SelectedCount(all[..last]) + (if all[last].selected then 1 else 0);
      var sInit := ListedPositions(init, selectedIds);
      var sAll := ListedPositions(fsts, selectedIds);
      assert last !in sInit;
      assert forall k :: 0 <= k < last ==> init[k] == fsts[k];
      assert sAll == sInit + (if fsts[last].id in selectedIds then {last} else {});
    }
  }

  // ---------------------------------------------------------------------
  // Segments of the selected trees (simulate.c:829-863)
  // ---------------------------------------------------------------------

  /** A segment drawn for a tree: from its Steiner point to a member terminal, or between two member terminals. */
  datatype Segment = Spoke(hub: Point, terminal: int) | Link(from: int, to: int)

  predicate InRange(t: int, numTerminals: int) {
    0 <= t < numTerminals
  }

  /** Junction mode: one spoke from the hub to each member terminal in range, in member order. */
  function Spokes(hub: Point, ids: seq<int>, numTerminals: int): (segs: seq<Segment>)
    ensures |segs| <= |ids|
    ensures forall s :: s in segs ==> s.Spoke? && s.hub == hub && s.terminal in ids && InRange(s.terminal, numTerminals)
  {
    if ids == [] then []
    else
      var rest := Spokes(hub, ids[1..], numTerminals);
      if InRange(ids[0], numTerminals) then [Spoke(hub, ids[0])] + rest else rest
  }

  /** Chain mode: a link between each two consecutive member terminals, when both are in range. */
  function Links(ids: seq<int>, numTerminals: int): (segs: seq<Segment>)
    ensures |ids| >= 1 ==> |segs| <= |ids| - 1
    ensures |ids| < 2 ==> segs == []
    ensures forall s :: s in segs ==> s.Link? && InRange(s.from, numTerminals) && InRange(s.to, numTerminals)
  {
    if |ids| < 2 then []
    else
      var rest := Links(ids[1..], numTerminals);
      if InRange(ids[0], numTerminals) && InRange(ids[1], numTerminals)
      then [Link(ids[0], ids[1])] + rest
      else rest
  }

  /**
   * A link from `a` to `b` is drawn exactly when `b` follows `a` somewhere in
   * the tree's member list and both are in range: every link joins
   * neighbours, and no pair of neighbours in range is skipped.
   */
  lemma {:induction false} LinksJoinNeighbours(ids: seq<int>, numTerminals: int, a: int, b: int)
    ensures Link(a, b) in Links(ids, numTerminals) <==>
            exists j :: 0 <= j < |ids| - 1 && ids[j] == a && ids[j + 1] == b
                        && InRange(a, numTerminals) && InRange(b, numTerminals)
  {
    if |ids| >= 2 {
      LinksJoinNeighbours(ids[1..], numTerminals, a, b);
      if Link(a, b) in Links(ids, numTerminals) {
        if Link(a, b) !in Links(ids[1..], numTerminals) {
          assert ids[0] == a && ids[1] == b;
        } else {
          var j :| 0 <= j < |ids[1..]| - 1 && ids[1..][j] == a && ids[1..][j + 1] == b;
          assert ids[j + 1] == a && ids[j + 2] == b;
        }
      }
      if exists j :: 0 <= j < |ids| - 1 && ids[j] == a && ids[j + 1] == b
                     && InRange(a, numTerminals) && InRange(b, numTerminals) {
        var j :| 0 <= j < |ids| - 1 && ids[j] == a && ids[j + 1] == b
                 && InRange(a, numTerminals) && InRange(b, numTerminals);
        if j > 0 {
          assert ids[1..][j - 1] == a && ids[1..][j] == b;
        }
      }
    }
  }

  /** The segments of one selected tree: junction mode when it has a Steiner point, chain mode otherwise. */
  function TreeSegments(f: Fst, numTerminals: int): seq<Segment> {
    if f.steinerCount > 0 && f.steiner.Some? then Spokes(f.steiner.value, f.terminals, numTerminals)
    else Links(f.terminals, numTerminals)
  }

  function AllSegments(fsts: seq<Fst>, numTerminals: int): seq<Segment> {
    if fsts == [] then []
    else AllSegments(fsts[..|fsts| - 1], numTerminals) + TreeSegments(fsts[|fsts| - 1], numTerminals)
  }

  /** Every spoke of a tree goes to a member in range, and every member in range gets one. */
  lemma {:induction false} SpokesCoverMembers(hub: Point, ids: seq<int>, numTerminals: int, t: int)
    ensures Spoke(hub, t) in Spokes(hub, ids, numTerminals) <==> t in ids && InRange(t, numTerminals)
  {
    if ids != [] {
      SpokesCoverMembers(hub, ids[1..], numTerminals, t);
      assert ids == [ids[0]] + ids[1..];
    }
  }

  /** A tree whose members are all out of range draws no link. */
  lemma {:induction false} LinksNeedMembersInRange(ids: seq<int>, numTerminals: int)
    requires forall j :: 0 <= j < |ids| ==> !InRange(ids[j], numTerminals)
    ensures Links(ids, numTerminals) == []
  {
    if |ids| >= 2 {
      LinksNeedMembersInRange(ids[1..], numTerminals);
    }
  }

  /** The junction-mode loop: a spoke to each member in range. */
  method DrawSpokes(hub: Point, ids: seq<int>, numTerminals: int) returns (drawn: seq<Segment>)
    ensures drawn == Spokes(hub, ids, numTerminals)
  {
    drawn := [];
    var j := 0;
    while j < |ids|
      invariant 0 <= j <= |ids|
      invariant drawn + Spokes(hub, ids[j..], numTerminals) == Spokes(hub, ids, numTerminals)
    {
      assert ids[j..][1..] == ids[j + 1..];
      if InRange(ids[j], numTerminals) {
        drawn := drawn + [Spoke(hub, ids[j])];
      }
      j := j + 1;
    }
  }

  /** The chain-mode loop: a link for each consecutive pair of members both in range. */
  method DrawLinks(ids: seq<int>, numTerminals: int) returns (drawn: seq<Segment>)
    ensures drawn == Links(ids, numTerminals)
  {
    drawn := [];
    var j := 0;
    while j < |ids| - 1
      invariant 0 <= j <= if |ids| == 0 then 0 else |ids| - 1
      invariant drawn + Links(ids[j..], numTerminals) == Links(ids, numTerminals)
    {
      assert ids[j..][1..] == ids[j + 1..];
      if InRange(ids[j], numTerminals) && InRange(ids[j + 1], numTerminals) {
        drawn := drawn + [Link(ids[j], ids[j + 1])];
      }
      j := j + 1;
    }
  }

  /** The segments drawn for one tree: spokes when it has a Steiner point, links otherwise. */
  method DrawTree(f: Fst, numTerminals: int) returns (drawn: seq<Segment>)
    ensures drawn == TreeSegments(f, numTerminals)
  {
    if f.steinerCount > 0 && f.steiner.Some? {
      drawn := DrawSpokes(f.steiner.value, f.terminals, numTerminals);
    } else {
      drawn := DrawLinks(f.terminals, numTerminals);
    }
  }

  /** The segments of the first `i + 1` trees are those of the first `i`, then those of tree `i`. */
  lemma {:induction false} AllSegmentsStep(fsts: seq<Fst>, i: nat, numTerminals: int)
    requires i < |fsts|
    ensures AllSegments(fsts[..i + 1], numTerminals) == AllSegments(fsts[..i], numTerminals) + TreeSegments(fsts[i], numTerminals)
  {
    assert fsts[..i + 1][..i] == fsts[..i];
  }

  /** The drawing loop over the selected trees: the segments in tree order, then member order. */
  method DrawSegments(fsts: array<Fst>, numFsts: int, numTerminals: int) returns (segs: seq<Segment>)
    requires numFsts <= fsts.Length
    ensures segs == AllSegments(fsts[..Clip(numFsts)], numTerminals)
  {
    ghost var all := fsts[..];
    segs := [];
    var i := 0;
    while i < numFsts
      invariant 0 <= i <= Clip(numFsts)
      invariant segs == AllSegments(all[..i], numTerminals)
    {
      var drawn := DrawTree(fsts[i], numTerminals);
      AllSegmentsStep(all, i, numTerminals);
      segs := segs + drawn;
      i := i + 1;
    }
    assert all[..i] == fsts[..Clip(numFsts)];
  }

  // ---------------------------------------------------------------------
  // Terminal markers (simulate.c:866-892)
  // ---------------------------------------------------------------------

  /** A terminal's marker: its pixel position, its battery colour, whether it is drawn as covered, and its label. */
  datatype Marker = Marker(pixel: (int, int), color: Color, covered: bool, number: int)

  function MarkerOf(t: Terminal, k: int): Marker {
    Marker(ScaleCoordinates(t.x, t.y), BatteryColor(t.battery), t.covered, k)
  }

  function Markers(ts: seq<Terminal>): (ms: seq<Marker>)
    ensures |ms| == |ts| && forall k :: 0 <= k < |ts| ==> ms[k] == MarkerOf(ts[k], k)
  {
    seq(|ts|, k requires 0 <= k < |ts| => MarkerOf(ts[k], k))
  }

  // ---------------------------------------------------------------------
  // The whole visualisation
  // ---------------------------------------------------------------------

  /** Everything the page shows that the program computes. */
  datatype Visualization = Visualization(
    terminals: seq<Terminal>,
    markers: seq<Marker>,
    segments: seq<Segment>,
    selectedFsts: nat,
    totalFsts: int,
    coveredTerminals: nat,
    uncoveredTerminals: int,
    coverageRate: real,
    shownGap: Option<real>)

  /** The coverage verdict for terminal `k`: covered when the transcript cannot be opened. */
  predicate CoverageVerdict(solution: Option<seq<string>>, k: int) {
    solution.None? || CoveredIn(solution.value, k)
  }

  function WithCoverage(read: seq<Terminal>, solution: Option<seq<string>>): (ts: seq<Terminal>)
    ensures |ts| == |read|
    ensures forall k :: 0 <= k < |read| ==> ts[k] == read[k].(covered := CoverageVerdict(solution, k), id := k)
  {
    seq(|read|, k requires 0 <= k < |read| => read[k].(covered := CoverageVerdict(solution, k), id := k))
  }

  function DumpedFsts(dump: Option<seq<string>>): seq<Fst> {
    if dump.None? then [] else DumpFsts(dump.value, MaxDumpFsts)
  }

  function SelectedIdList(solution: Option<seq<string>>): seq<int> {
    if solution.None? then [] else Take(AllSelectedIds(solution.value), MaxSelectedIds)
  }

  function SolutionTrees(solution: Option<seq<string>>): seq<Fst> {
    if solution.None? then [] else SolutionFsts(solution.value, MaxSolutionFsts)
  }

  /**
   * The page's content once at least one terminal is read and the page can
   * be written: the terminals with their coverage, their markers, the
   * segments of the trees recovered from the transcript, and the metrics.
   */
  function Assemble(ts: seq<Terminal>, dump: Option<seq<string>>, solution: Option<seq<string>>): Visualization
    requires |ts| > 0
  {
    var all := ReconcileAll(DumpedFsts(dump), SelectedIdList(solution));
    var covered := CoveredCount(ts);
    Visualization(ts, Markers(ts), AllSegments(SolutionTrees(solution), |ts|),
                  SelectedCount(all), if dump.None? then -1 else |all|,
                  covered, |ts| - covered, (100 * covered) as real / |ts| as real,
                  ShownGap(FinalMipGap(solution)))
  }

  /**
   * `create_rich_visualization`: nothing when no terminal can be read or
   * the page cannot be written, otherwise the assembled page.
   */
  function Visualize(terminalsFile: Option<string>, dump: Option<seq<string>>, solution: Option<seq<string>>,
                     pageWritable: bool): Option<Visualization>
  {
    if terminalsFile.None? then None
    else
      var read := TerminalsIn(terminalsFile.value, MaxTerminals);
      if |read| == 0 || !pageWritable then None
      else Some(Assemble(WithCoverage(read, solution), dump, solution))
  }

  /** The coverage update loop: each read terminal takes its verdict and its position as id. */
  method ApplyCoverage(terminals: array<Terminal>, numTerminals: int, coverage: array<bool>)
    requires 0 <= numTerminals <= terminals.Length && numTerminals <= coverage.Length
    modifies terminals
    ensures forall k :: 0 <= k < numTerminals ==> terminals[k] == old(terminals[k]).(covered := coverage[k], id := k)
    ensures forall k :: numTerminals <= k < terminals.Length ==> terminals[k] == old(terminals[k])
  {
    var i := 0;
    while i < numTerminals
      invariant 0 <= i <= numTerminals
      invariant forall k :: 0 <= k < i ==> terminals[k] == old(terminals[k]).(covered := coverage[k], id := k)
      invariant forall k :: i <= k < terminals.Length ==> terminals[k] == old(terminals[k])
    {
      terminals[i] := terminals[i].(covered := coverage[i], id := i);
      i := i + 1;
    }
  }

  /** Reads the terminals and applies the coverage the transcript gives them. */
  method LoadTerminals(terminalsFile: Option<string>, solution: Option<seq<string>>)
    returns (terminals: array<Terminal>, num: int)
    ensures terminals.Length == MaxTerminals && num <= MaxTerminals
    ensures terminalsFile.None? ==> num == -1
    ensures terminalsFile.Some? ==> num == |TerminalsIn(terminalsFile.value, MaxTerminals)|
    ensures terminalsFile.Some? && num > 0 ==>
              terminals[..num] == WithCoverage(TerminalsIn(terminalsFile.value, MaxTerminals), solution)
  {
    terminals := new Terminal[MaxTerminals](_ => Terminal(0.0, 0.0, 0.0, 0, false));
    num := ParseTerminals(terminalsFile, terminals, MaxTerminals);
    if num <= 0 {
      return;
    }
    var coverage := new bool[MaxTerminals](_ => false);
    var _ := ParseSolutionCoverage(solution, coverage, MaxTerminals);
    ghost var read := terminals[..num];
    assert read == TerminalsIn(terminalsFile.value, MaxTerminals);
    assert forall k :: 0 <= k < num ==> coverage[k] == CoverageVerdict(solution, k);
    ApplyCoverage(terminals, num, coverage);
    forall k | 0 <= k < num
      ensures terminals[k] == WithCoverage(read, solution)[k]
    {
    }
    assert terminals[..num] == WithCoverage(read, solution);
  }

  /** Reads the dump and marks the trees the transcript lists as selected. */
  method LoadDumpedTrees(dump: Option<seq<string>>, solution: Option<seq<string>>)
    returns (fsts: array<Fst>, num: int)
    ensures num <= fsts.Length
    ensures dump.None? ==> num == -1
    ensures dump.Some? ==> num >= 0
    ensures fsts[..Clip(num)] == ReconcileAll(DumpedFsts(dump), SelectedIdList(solution))
  {
    fsts := new Fst[MaxDumpFsts](_ => Fst(0, false, [], 0, None, 0.0));
    num := ParseFstsFromDump(dump, fsts, MaxDumpFsts);
    var ids := new int[MaxSelectedIds](_ => 0);
    var numIds := ParseSelectedFstIds(solution, ids, MaxSelectedIds);
    assert ids[..Clip(numIds)] == SelectedIdList(solution);
    Reconcile(fsts, num, ids, numIds);
  }

  /** Reads the trees of the solution from the transcript. */
  method LoadSolutionTrees(solution: Option<seq<string>>) returns (fsts: array<Fst>, num: int)
    ensures num <= fsts.Length
    ensures fsts[..Clip(num)] == SolutionTrees(solution)
  {
    fsts := new Fst[MaxSolutionFsts](_ => Fst(0, false, [], 0, None, 0.0));
    num := ParseFstsFromSolution(solution, fsts, MaxSolutionFsts);
  }

  /**
   * The tree side of `create_rich_visualization`: the dumped trees
   * reconciled and counted, and the segments of the transcript's trees
   * among `num` terminals.
   */
  method TreeMetrics(dump: Option<seq<string>>, solution: Option<seq<string>>, num: int)
    returns (segments: seq<Segment>, selectedCount: nat, numAll: int)
    ensures segments == AllSegments(SolutionTrees(solution), num)
    ensures var all := ReconcileAll(DumpedFsts(dump), SelectedIdList(solution));
            selectedCount == SelectedCount(all) && numAll == if dump.None? then -1 else |all|
  {
    var allFsts, n := LoadDumpedTrees(dump, solution);
    var selected, numSelected := LoadSolutionTrees(solution);
    segments := DrawSegments(selected, numSelected, num);
    selectedCount := CountSelected(allFsts, n);
    numAll := n;
    assert numAll == if dump.None? then -1 else |allFsts[..Clip(numAll)]|;
  }

  /**
   * The part of `create_rich_visualization` after the terminals are read:
   * the trees from the dump and the transcript, the segments to draw, the
   * counts and the gap, put together for the `num` terminals read.
   */
  method BuildPage(terminals: array<Terminal>, num: int, dump: Option<seq<string>>, solution: Option<seq<string>>)
    returns (v: Visualization)
    requires 0 < num <= terminals.Length
    ensures v == Assemble(terminals[..num], dump, solution)
  {
    var ts := terminals[..num];
    var segments, selectedCount, numAll := TreeMetrics(dump, solution, num);
    var covered := CountCovered(terminals, num);
    var gap := ParseFinalMipGap(solution);
    v := Visualization(ts, Markers(ts), segments, selectedCount, numAll,
                       covered, num - covered, (100 * covered) as real / num as real, ShownGap(gap));
    assert terminals[..Clip(num)] == ts;
  }

  /** The steps of `create_rich_visualization`, in its order, proved to compute `Visualize`. */
  method CreateVisualization(terminalsFile: Option<string>, dump: Option<seq<string>>, solution: Option<seq<string>>,
                             pageWritable: bool) returns (v: Option<Visualization>)
    ensures v == Visualize(terminalsFile, dump, solution, pageWritable)
  {
    var terminals, num := LoadTerminals(terminalsFile, solution);
    if num <= 0 || !pageWritable {
      assert Visualize(terminalsFile, dump, solution, pageWritable) == None;
      return None;
    }
    var page := BuildPage(terminals, num, dump, solution);
    v := Some(page);
  }

  /** The coverage rate of `covered` terminals out of `total` is a percentage. */
  lemma {:induction false} RateIsPercentage(covered: nat, total: nat)
    requires 0 < total && covered <= total
    ensures 0.0 <= (100 * covered) as real / total as real <= 100.0
  {
    var rate := (100 * covered) as real / total as real;
    assert rate * total as real == (100 * covered) as real;
    assert (100 * covered) as real <= 100.0 * total as real;
  }

  /**
   * The metrics agree with each other: no more trees selected than read,
   * covered and uncovered terminals add up to all of them, and the coverage
   * rate is a percentage.
   */
  lemma {:induction false} AssembledMetricsConsistent(ts: seq<Terminal>, dump: Option<seq<string>>, solution: Option<seq<string>>)
    requires |ts| > 0
    ensures var v := Assemble(ts, dump, solution);
            v.selectedFsts <= Clip(v.totalFsts)
            && v.coveredTerminals + v.uncoveredTerminals == |v.terminals| == |v.markers|
            && 0.0 <= v.coverageRate <= 100.0
  {
    RateIsPercentage(CoveredCount(ts), |ts|);
  }

  /** The page shows between 1 and 50 terminals, and its metrics agree with each other. */
  lemma {:induction false} MetricsConsistent(terminalsFile: Option<string>, dump: Option<seq<string>>, solution: Option<seq<string>>,
                          pageWritable: bool)
    requires Visualize(terminalsFile, dump, solution, pageWritable).Some?
    ensures var v := Visualize(terminalsFile, dump, solution, pageWritable).value;
            v.selectedFsts <= Clip(v.totalFsts)
            && v.coveredTerminals + v.uncoveredTerminals == |v.terminals|
            && 1 <= |v.terminals| <= MaxTerminals
            && 0.0 <= v.coverageRate <= 100.0
  {
    var read := TerminalsIn(terminalsFile.value, MaxTerminals);
    TerminalsInShape(terminalsFile.value, MaxTerminals);
    AssembledMetricsConsistent(WithCoverage(read, solution), dump, solution);
  }

  /**
   * The selected count is the number of dumped trees whose id (its
   * position in the dump) is among the selected ids.
   */
  lemma {:induction false} SelectedCountIsListedTrees(dump: seq<string>, solution: Option<seq<string>>)
    ensures var all := DumpFsts(dump, MaxDumpFsts);
            SelectedCount(ReconcileAll(all, SelectedIdList(solution)))
            == |set k: nat | k < |all| && k in SelectedIdList(solution)|
  {
    var all := DumpFsts(dump, MaxDumpFsts);
    var ids := SelectedIdList(solution);
    SelectedCountIsListed(all, ids);
    forall k: nat | k < |all|
      ensures all[k].id == k
    {
    }
    assert ListedPositions(all, ids) == (set k: nat | k < |all| && k in ids);
  }

  /** Every segment drawn ends at terminals that were read. */
  lemma {:induction false} SegmentsStayInRange(fsts: seq<Fst>, numTerminals: int)
    ensures forall s :: s in AllSegments(fsts, numTerminals) ==>
              (s.Spoke? && InRange(s.terminal, numTerminals))
              || (s.Link? && InRange(s.from, numTerminals) && InRange(s.to, numTerminals))
  {
    if fsts != [] {
      SegmentsStayInRange(fsts[..|fsts| - 1], numTerminals);
    }
  }
}
