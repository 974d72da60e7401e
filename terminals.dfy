/**
 * The terminals file as simulate.c's `parse_terminals` reads it: one
 * `x y battery` triple after another, read with `fscanf` over the whole
 * stream (so line breaks are just white space), until a triple fails to
 * scan or the caller's array is full.
 */
module TerminalsFile {
  import opened Wrappers
  import opened Scan
  import opened Seqs
  import opened LineLoops
  import opened Network

  /** The triple `%lf %lf %lf` scanned at `pos`, and where the scan stopped; none when fewer than three values scan. */
  function TripleAt(s: string, pos: nat): (r: Option<((real, real, real), nat)>)
    requires pos <= |s|
    ensures r.Some? ==> pos < r.value.1 <= |s|
  {
    var (v, end) := ScanFrom(s, pos, TripleFormat);
    if |v| >= 3 && v[0].RealVal? && v[1].RealVal? && v[2].RealVal? then
      ScanAdvances(s, pos, TripleFormat);
      Some(((v[0].r, v[1].r, v[2].r), end))
    else None
  }

  /** The reader `fscanf` makes of a stream: the triple at a position, if one scans there. */
  function TripleReader(s: string): nat -> Option<((real, real, real), nat)> {
    (pos: nat) => if pos <= |s| then TripleAt(s, pos) else None
  }

  /** The terminal the `k`-th triple makes: id `k`, covered until the coverage says otherwise. */
  function TerminalOf(k: nat, t: (real, real, real)): Terminal {
    Terminal(t.0, t.1, t.2, k, true)
  }

  /** The terminals `parse_terminals` reads from a stream, at most `maxTerminals`: they stop at the first triple that fails to scan. */
  function TerminalsIn(s: string, maxTerminals: int): seq<Terminal> {
    Numbered(Chain(TripleReader(s), 0, maxTerminals), TerminalOf)
  }

  /**
   * `parse_terminals`: stores the terminals read into `terminals`, in
   * stream order, with ids 0, 1, 2, ...; -1 only when the file cannot be
   * opened.
   */
  method ParseTerminals(file: Option<string>, terminals: array<Terminal>, maxTerminals: int) returns (count: int)
    requires maxTerminals <= terminals.Length
    modifies terminals
    ensures file.None? ==> count == -1 && terminals[..] == old(terminals[..])
    ensures file.Some? ==> 0 <= count <= terminals.Length && terminals[..count] == TerminalsIn(file.value, maxTerminals)
    ensures forall k :: 0 <= count <= k < terminals.Length ==> terminals[k] == old(terminals[k])
  {
    if file.None? {
      return -1;
    }
    var n := ChainInto(TripleReader(file.value), TerminalOf, terminals, maxTerminals);
    count := n;
  }

  /**
   * The terminals read: ids 0 to count-1 in stream order, all marked
   * covered, and no more than `maxTerminals`.
   */
  lemma {:induction false} TerminalsInShape(s: string, maxTerminals: int)
    ensures var ts := TerminalsIn(s, maxTerminals);
            |ts| <= (if maxTerminals <= 0 then 0 else maxTerminals)
            && forall k :: 0 <= k < |ts| ==> ts[k].id == k && ts[k].covered
  {
    ChainBounded(TripleReader(s), 0, maxTerminals);
  }

  /**
   * A stream that holds `ts` well-formed triples, read from positions
   * `ps[0] = 0`, `ps[1]`, ..., followed by something that does not scan as
   * a triple, gives exactly the first `maxTerminals` of them (all of them
   * when they fit), as terminals 0, 1, 2, ... with those coordinates and
   * batteries.
   */
  lemma {:induction false} TerminalsOfTriples(s: string, ps: seq<nat>, ts: seq<(real, real, real)>, maxTerminals: int)
    requires |ps| == |ts| + 1 && ps[0] == 0
    requires forall k :: 0 <= k < |ts| ==> TripleReader(s)(ps[k]) == Some((ts[k], ps[k + 1]))
    requires TripleReader(s)(ps[|ts|]).None?
    ensures var got := TerminalsIn(s, maxTerminals);
            |got| == (if maxTerminals <= 0 then 0 else if maxTerminals < |ts| then maxTerminals else |ts|)
            && forall k :: 0 <= k < |got| ==> got[k] == Terminal(ts[k].0, ts[k].1, ts[k].2, k, true)
  {
    ChainFollowsReads(TripleReader(s), ps, ts, maxTerminals);
  }

  /**
   * A smaller array receives a prefix of what a larger one receives: the
   * reader never skips a triple, it only stops earlier.
   */
  lemma {:induction false} TerminalsPrefix(s: string, maxTerminals: int, larger: int)
    requires maxTerminals <= larger
    ensures TerminalsIn(s, maxTerminals) == Take(TerminalsIn(s, larger), maxTerminals)
  {
    ChainPrefix(TripleReader(s), 0, maxTerminals, larger);
  }
}
