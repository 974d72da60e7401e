/**
 * The solver transcript as simulate.c reads it for the selected trees: the
 * `% fs<N>: t1 t2 ...` comment that introduces each selected tree in the
 * embedded drawing program, and the drawing lines `x y id T S` that follow
 * it and place the tree's Steiner point.
 */
module Transcript {
  import opened Wrappers
  import opened CText
  import opened Scan
  import opened Seqs
  import opened Network
  import opened LineLoops

  /** `"%d %d ... %d"` with `n` conversions, as directives. */
  function IdListFormat(n: nat): (dirs: seq<Directive>)
    ensures Conversions(dirs) == n
  {
    if n == 0 then []
    else if n == 1 then [DecInt]
    else
      var rest := IdListFormat(n - 1);
      assert ([DecInt, Space] + rest)[1..] == [Space] + rest;
      assert ([Space] + rest)[1..] == rest;
      [DecInt, Space] + rest
  }

  /** The integers of a scan whose conversions are all `%d`. */
  function IntsOf(vs: seq<Value>): (r: seq<int>)
    ensures |r| == |vs|
  {
    seq(|vs|, k requires 0 <= k < |vs| => if vs[k].IntVal? then vs[k].i else 0)
  }

  /** A line, after its leading white space, that contains `% fs` and `:` and scans as `%% fs%d:`. */
  function SelectedIdOf(line: string): Option<int> {
    var t := TrimLeft(line);
    if Contains(t, "% fs") && Contains(t, ":") then
      var v := Scanf(t, HeaderFormat);
      if |v| >= 1 && v[0].IntVal? then Some(v[0].i) else None
    else None
  }

  /** A tree header: the tree's id and the terminal ids listed after the colon. */
  datatype Header = Header(id: int, terminals: seq<int>)

  /**
   * A `% fs<N>:` line followed by at least one integer after its first colon;
   * at most ten integers are read (`"%d %d %d %d %d %d %d %d %d %d"`).
   */
  function FstHeaderOf(line: string): (h: Option<Header>)
    ensures h.Some? ==> SelectedIdOf(line) == Some(h.value.id)
    ensures h.Some? ==> 1 <= |h.value.terminals| <= MaxFstTerminals
  {
    match SelectedIdOf(line)
    case None => None
    case Some(id) =>
      var t := TrimLeft(line);
      match IndexOf(t, ':')
      case None => None
      case Some(colon) =>
        var ids := IntsOf(ScanFrom(TrimLeft(t[colon + 1..]), 0, IdListFormat(MaxFstTerminals)).0);
        if |ids| > 0 then Some(Header(id, ids)) else None
  }

  /** A drawing line `x y id T S`: the point it starts from is a Steiner point. */
  function SteinerOf(line: string): Option<Point> {
    var v := Scanf(TrimLeft(line), SteinerFormat);
    if |v| == 4 && v[0].RealVal? && v[1].RealVal? && v[3] == CharVal('T')
    then Some(Point(v[0].r, v[1].r))
    else None
  }

  /** A line that ends the look-ahead for a Steiner point: the next tree, or the end of the plot. */
  predicate EndsLookahead(line: string) {
    Contains(TrimLeft(line), "% fs") || Contains(TrimLeft(line), "EndPlot")
  }

  /** A header line, after its leading white space, starts with `%`. */
  lemma {:induction false} HeaderStartsWithPercent(line: string)
    requires SelectedIdOf(line).Some?
    ensures TrimLeft(line) != [] && TrimLeft(line)[0] == '%'
  {
    var t := TrimLeft(line);
    assert SkipSpace(t, 0) == 0;
    assert |ScanFrom(t, 0, HeaderFormat).0| >= 1;
    assert ScanFrom(t, 0, HeaderFormat) == ScanFrom(t, 0, HeaderFormat[1..]);
  }

  /** A Steiner line, after its leading white space, starts with a number. */
  lemma {:induction false} SteinerStartsWithNumber(line: string)
    requires SteinerOf(line).Some?
    ensures TrimLeft(line) != []
    ensures var c := TrimLeft(line)[0]; c == '+' || c == '-' || c == '.' || IsDigit(c)
  {
    var t := TrimLeft(line);
    assert SkipSpace(t, 0) == 0;
    LeadingFloatNeedsNumber(t, 0, SteinerFormat);
  }

  /** A header is never read as a Steiner line, and it ends the look-ahead. */
  lemma {:induction false} HeaderEndsLookahead(line: string)
    requires FstHeaderOf(line).Some?
    ensures SteinerOf(line).None? && EndsLookahead(line)
  {
    HeaderStartsWithPercent(line);
    if SteinerOf(line).Some? {
      SteinerStartsWithNumber(line);
    }
  }

  // ---------------------------------------------------------------------
  // parse_selected_fst_ids
  // ---------------------------------------------------------------------

  /** Every id a `% fs<N>:` line names, in file order. */
  function AllSelectedIds(lines: seq<string>): seq<int> {
    Collect(lines, 0, SelectedIdOf)
  }

  /** A selected id is stored as it is, whatever its position. */
  function KeepId(position: nat, id: int): int {
    id
  }

  /**
   * `parse_selected_fst_ids`: fills `ids` with the id of every `% fs<N>:`
   * line, in file order, stopping when `maxFsts` are stored; -1 when the
   * file cannot be opened.
   */
  method ParseSelectedFstIds(file: Option<seq<string>>, ids: array<int>, maxFsts: int) returns (count: int)
    requires maxFsts <= ids.Length
    modifies ids
    ensures file.None? ==> count == -1 && ids[..] == old(ids[..])
    ensures file.Some? ==> 0 <= count <= ids.Length && ids[..count] == Take(AllSelectedIds(file.value), maxFsts)
    ensures forall k :: 0 <= count <= k < ids.Length ==> ids[k] == old(ids[k])
  {
    if file.None? {
      return -1;
    }
    var n := CollectInto(file.value, SelectedIdOf, KeepId, ids, maxFsts);
    count := n;
  }

  // ---------------------------------------------------------------------
  // parse_fsts_from_solution
  // ---------------------------------------------------------------------

  /** The record a header and its Steiner point make: selected, cost 0, one Steiner point or none. */
  function FstOf(h: Header, steiner: Option<Point>): (f: Fst)
    ensures f.selected && f.id == h.id && f.terminals == h.terminals && f.cost == 0.0
    ensures f.steinerCount <= 1 && (f.steinerCount == 1 <==> f.steiner.Some?) && f.steiner == steiner
  {
    Fst(h.id, true, h.terminals, if steiner.Some? then 1 else 0, steiner, 0.0)
  }

  /** The trees `parse_fsts_from_solution` records, at most `maxFsts`. */
  function SolutionFsts(lines: seq<string>, maxFsts: int): seq<Fst> {
    Built(TreeScan(lines, 0, maxFsts, FstHeaderOf, SteinerOf, EndsLookahead), FstOf)
  }

  /**
   * The trees recovered from a transcript: as many as there are headers
   * (up to `maxFsts`), each with its header's id and terminal list, 1 to 10
   * terminals, selected, and with a Steiner point exactly when it counts one.
   */
  lemma {:induction false} SolutionFstsMatchHeaders(lines: seq<string>, maxFsts: int)
    ensures var fsts := SolutionFsts(lines, maxFsts);
            var headers := Take(Collect(lines, 0, FstHeaderOf), maxFsts);
            |fsts| == |headers|
            && (forall k :: 0 <= k < |fsts| ==> fsts[k].id == headers[k].id && fsts[k].terminals == headers[k].terminals)
            && (forall f :: f in fsts ==> f.selected && 1 <= |f.terminals| <= MaxFstTerminals
                                          && f.steinerCount <= 1 && (f.steinerCount == 1 <==> f.steiner.Some?))
  {
    forall m | 0 <= m < |lines| && FstHeaderOf(lines[m]).Some?
      ensures SteinerOf(lines[m]).None? && EndsLookahead(lines[m])
    {
      HeaderEndsLookahead(lines[m]);
    }
    NoHeaderSwallowed(lines, 0, maxFsts, FstHeaderOf, SteinerOf, EndsLookahead);
    forall h | h in Collect(lines, 0, FstHeaderOf)
      ensures 1 <= |h.terminals| <= MaxFstTerminals
    {
      CollectMember(lines, 0, FstHeaderOf, h);
    }
  }

  /** Every tree recovered with its geometry is also among the selected ids: the two readings agree. */
  lemma {:induction false} SolutionFstIdsSelected(lines: seq<string>, maxFsts: int)
    ensures forall f :: f in SolutionFsts(lines, maxFsts) ==> f.id in AllSelectedIds(lines)
  {
    SolutionFstsMatchHeaders(lines, maxFsts);
    var fsts := SolutionFsts(lines, maxFsts);
    var headers := Collect(lines, 0, FstHeaderOf);
    forall f | f in fsts
      ensures f.id in AllSelectedIds(lines)
    {
      var k :| 0 <= k < |fsts| && fsts[k] == f;
      assert headers[k] in headers;
      CollectMember(lines, 0, FstHeaderOf, headers[k]);
      var j :| 0 <= j < |lines| && FstHeaderOf(lines[j]) == Some(headers[k]);
      CollectMember(lines, 0, SelectedIdOf, f.id);
    }
  }

  /**
   * `parse_fsts_from_solution`: records one selected tree per header, with
   * the first Steiner point found before the next `% fs` or `EndPlot` line;
   * -1 when the file cannot be opened.
   */
  method ParseFstsFromSolution(file: Option<seq<string>>, fsts: array<Fst>, maxFsts: int) returns (count: int)
    requires maxFsts <= fsts.Length
    modifies fsts
    ensures file.None? ==> count == -1 && fsts[..] == old(fsts[..])
    ensures file.Some? ==> 0 <= count <= fsts.Length && fsts[..count] == SolutionFsts(file.value, maxFsts)
    ensures forall k :: 0 <= count <= k < fsts.Length ==> fsts[k] == old(fsts[k])
  {
    if file.None? {
      return -1;
    }
    var n := TreeScanInto(file.value, FstHeaderOf, SteinerOf, EndsLookahead, FstOf, fsts, maxFsts);
    count := n;
  }
}
