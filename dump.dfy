/**
 * The candidate-tree dump as simulate.c's `parse_fsts_from_dump` reads it:
 * one tree per line, written as the ids of its terminals separated by
 * blanks or tabs.
 */
module TreeDump {
  import opened Wrappers
  import opened CText
  import opened Seqs
  import opened LineLoops
  import opened Network

  /** Terminal ids outside [0, 50) are dropped. */
  const MaxTerminalId := 50

  /** The cost given to the `k`-th tree read, a placeholder. */
  function PlaceholderCost(k: nat): real {
    (100000 + k * 10000) as real
  }

  /** A token that starts like a number: a digit, or `-` followed by a digit. */
  predicate NumberLike(token: string) {
    (|token| >= 1 && IsDigit(token[0])) || (|token| >= 2 && token[0] == '-' && IsDigit(token[1]))
  }

  /** The terminal id a token gives, if it is kept: number-like with an `atoi` value in [0, 50). */
  function TokenId(token: string): (id: Option<int>)
    ensures id.Some? <==> NumberLike(token) && 0 <= Atoi(token) < MaxTerminalId
    ensures id.Some? ==> id.value == Atoi(token)
  {
    if NumberLike(token) && 0 <= Atoi(token) < MaxTerminalId then Some(Atoi(token)) else None
  }

  /** The ids a line's tokens give, the first ten kept. */
  function KeptIds(tokens: seq<string>): (ids: seq<int>)
    ensures ids == Take(Collect(tokens, 0, TokenId), MaxFstTerminals)
  {
    CollectUpToIsTake(tokens, 0, TokenId, MaxFstTerminals);
    CollectUpTo(tokens, 0, TokenId, MaxFstTerminals)
  }

  /** A line, cut at its newline and without leading white space, that is skipped: empty or a DEBUG line. */
  predicate SkippedLine(line: string) {
    var t := TrimLeft(StripNewline(line));
    Contains(t, "DEBUG") || |t| == 0
  }

  /** The terminal ids of the tree a dump line describes: only when at least two are kept. */
  function DumpTreeOf(line: string): Option<seq<int>> {
    if SkippedLine(line) then None
    else
      var ids := KeptIds(Tokens(TrimLeft(StripNewline(line)), {' ', '\t'}));
      if |ids| >= 2 then Some(ids) else None
  }

  /**
   * The `k`-th tree read: id `k`, not selected, one Steiner point counted
   * when it has more than two terminals (none is recovered from the dump),
   * and the placeholder cost.
   */
  function DumpFstOf(k: nat, ids: seq<int>): Fst {
    Fst(k, false, ids, if |ids| > 2 then 1 else 0, None, PlaceholderCost(k))
  }

  /** The trees `parse_fsts_from_dump` reads, at most `maxFsts`. */
  function DumpFsts(lines: seq<string>, maxFsts: int): seq<Fst> {
    Numbered(Take(Collect(lines, 0, DumpTreeOf), maxFsts), DumpFstOf)
  }

  /**
   * `parse_fsts_from_dump`: stores one tree per dump line that keeps at
   * least two terminal ids, numbered in the order read; -1 when the file
   * cannot be opened.
   */
  method ParseFstsFromDump(file: Option<seq<string>>, fsts: array<Fst>, maxFsts: int) returns (count: int)
    requires maxFsts <= fsts.Length
    modifies fsts
    ensures file.None? ==> count == -1 && fsts[..] == old(fsts[..])
    ensures file.Some? ==> 0 <= count <= fsts.Length && fsts[..count] == DumpFsts(file.value, maxFsts)
    ensures forall k :: 0 <= count <= k < fsts.Length ==> fsts[k] == old(fsts[k])
  {
    if file.None? {
      return -1;
    }
    var n := CollectInto(file.value, DumpTreeOf, DumpFstOf, fsts, maxFsts);
    count := n;
  }

  /** Empty and DEBUG lines never give a tree. */
  lemma {:induction false} SkippedLinesGiveNoTree(line: string)
    requires SkippedLine(line)
    ensures DumpTreeOf(line).None?
  {
  }

  /**
   * Every tree read has ids 0, 1, 2, ... in order, is not selected, has 2 to
   * 10 terminal ids, each in [0, 50), counts one Steiner point exactly when
   * it has more than two terminals, and carries the placeholder cost.
   */
  lemma {:induction false} DumpFstsShape(lines: seq<string>, maxFsts: int)
    ensures var fsts := DumpFsts(lines, maxFsts);
            |fsts| <= (if maxFsts <= 0 then 0 else maxFsts)
            && forall k :: 0 <= k < |fsts| ==>
                 fsts[k].id == k && !fsts[k].selected && fsts[k].steiner.None?
                 && 2 <= |fsts[k].terminals| <= MaxFstTerminals
                 && (forall t :: t in fsts[k].terminals ==> 0 <= t < MaxTerminalId)
                 && (fsts[k].steinerCount == 1 <==> |fsts[k].terminals| > 2)
                 && fsts[k].steinerCount <= 1
                 && fsts[k].cost == PlaceholderCost(k)
  {
    var trees := Collect(lines, 0, DumpTreeOf);
    forall ids | ids in trees
      ensures 2 <= |ids| <= MaxFstTerminals && forall t :: t in ids ==> 0 <= t < MaxTerminalId
    {
      CollectMember(lines, 0, DumpTreeOf, ids);
      var j :| 0 <= j < |lines| && DumpTreeOf(lines[j]) == Some(ids);
      DumpTreeShape(lines[j]);
    }
  }

  /** A dump line's tree has 2 to 10 terminal ids, each in [0, 50). */
  lemma {:induction false} DumpTreeShape(line: string)
    requires DumpTreeOf(line).Some?
    ensures var ids := DumpTreeOf(line).value;
            2 <= |ids| <= MaxFstTerminals && forall t :: t in ids ==> 0 <= t < MaxTerminalId
  {
    var tokens := Tokens(TrimLeft(StripNewline(line)), {' ', '\t'});
    var ids := DumpTreeOf(line).value;
    assert ids == KeptIds(tokens);
    forall t | t in ids
      ensures 0 <= t < MaxTerminalId
    {
      CollectMember(tokens, 0, TokenId, t);
    }
  }

  /**
   * The ids of a line are its kept tokens' values in the order they
   * appear: every number-like token in range is kept until ten are.
   */
  lemma {:induction false} KeptIdsInOrder(tokens: seq<string>, k: nat)
    requires k < |tokens| && TokenId(tokens[k]).Some?
    requires |Collect(tokens[..k], 0, TokenId)| < MaxFstTerminals
    ensures TokenId(tokens[k]).value in KeptIds(tokens)
  {
    CollectSplit(tokens, k, TokenId);
    var before := Collect(tokens[..k], 0, TokenId);
    var all := Collect(tokens, 0, TokenId);
    assert Collect(tokens, k, TokenId) == [TokenId(tokens[k]).value] + Collect(tokens, k + 1, TokenId);
    assert all[|before|] == TokenId(tokens[k]).value;
    assert Take(all, MaxFstTerminals)[|before|] == all[|before|];
  }
}
