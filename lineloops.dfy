/**
 * The reading loops that the parsers of both programs share: each reads a
 * file line by line (`fgets`), asks a line classifier what the line holds,
 * and stores what it finds in a caller's array until the array's budget is
 * used up. The loops are written once here, over any classifier, and each
 * parser supplies its own.
 */
module LineLoops {
  import opened Wrappers
  import opened Seqs

  /** `vs` with each value turned into a record by `build`, which also sees its position. */
  function Numbered<V, T>(vs: seq<V>, build: (nat, V) -> T): (ts: seq<T>)
    ensures |ts| == |vs|
    ensures forall k :: 0 <= k < |vs| ==> ts[k] == build(k, vs[k])
  {
    seq(|vs|, k requires 0 <= k < |vs| => build(k, vs[k]))
  }

  /**
   * Reads `xs` until it ends or `maxCount` records are stored; every element
   * the classifier `f` recognises becomes the next record, built from its
   * value and its position among the records.
   */
  method CollectInto<S, V, T>(xs: seq<S>, f: S -> Option<V>, build: (nat, V) -> T, out: array<T>, maxCount: int)
    returns (count: nat)
    requires maxCount <= out.Length
    modifies out
    ensures count <= out.Length
    ensures out[..count] == Numbered(Take(Collect(xs, 0, f), maxCount), build)
    ensures forall k :: count <= k < out.Length ==> out[k] == old(out[k])
  {
    var i := 0;
    count := 0;
    ghost var found: seq<V> := [];
    while i < |xs| && count < maxCount
      invariant 0 <= i <= |xs| && count <= out.Length && count == |found|
      invariant count < maxCount || count == 0 || count == maxCount
      invariant found + CollectUpTo(xs, i, f, maxCount - count) == CollectUpTo(xs, 0, f, maxCount)
      invariant out[..count] == Numbered(found, build)
      invariant forall k :: count <= k < out.Length ==> out[k] == old(out[k])
    {
      var v := f(xs[i]);
      if v.Some? {
        out[count] := build(count, v.value);
        found := found + [v.value];
        count := count + 1;
      }
      i := i + 1;
    }
    CollectUpToIsTake(xs, 0, f, maxCount);
  }

  /**
   * Where a look-ahead from `j` ends: the first element that is not a point
   * and `stops` it, or the end of `xs`.
   */
  function LookAheadEnd<S, P>(xs: seq<S>, j: nat, point: S -> Option<P>, stops: S -> bool): (k: nat)
    requires j <= |xs|
    ensures j <= k <= |xs|
    ensures forall m :: j <= m < k ==> point(xs[m]).Some? || !stops(xs[m])
    ensures k < |xs| ==> point(xs[k]).None? && stops(xs[k])
    decreases |xs| - j
  {
    if j == |xs| || (point(xs[j]).None? && stops(xs[j])) then j else LookAheadEnd(xs, j + 1, point, stops)
  }

  /**
   * The header/point pairs a look-ahead scan records from element `pos` on
   * with `room` slots left: after each header, the look-ahead runs to the
   * first non-point element that `stops` it, keeping the first point it passes, and
   * the scan resumes AT that element.
   */
  function TreeScan<S, H, P>(xs: seq<S>, pos: nat, room: int, header: S -> Option<H>,
                             point: S -> Option<P>, stops: S -> bool): seq<(H, Option<P>)>
    requires pos <= |xs|
    decreases |xs| - pos
  {
    if pos == |xs| || room <= 0 then []
    else match header(xs[pos])
      case None => TreeScan(xs, pos + 1, room, header, point, stops)
      case Some(h) =>
        var end := LookAheadEnd(xs, pos + 1, point, stops);
        [(h, FirstSome(xs, pos + 1, end, point))] + TreeScan(xs, end, room - 1, header, point, stops)
  }

  /** A scan records at most `room` pairs. */
  lemma {:induction false} TreeScanLength<S, H, P>(xs: seq<S>, pos: nat, room: int, header: S -> Option<H>,
                                                   point: S -> Option<P>, stops: S -> bool)
    requires pos <= |xs|
    ensures |TreeScan(xs, pos, room, header, point, stops)| <= if room <= 0 then 0 else room
    decreases |xs| - pos
  {
    if pos < |xs| && room > 0 {
      match header(xs[pos])
      case None =>
        TreeScanLength(xs, pos + 1, room, header, point, stops);
      case Some(h) =>
        TreeScanLength(xs, LookAheadEnd(xs, pos + 1, point, stops), room - 1, header, point, stops);
    }
  }

  /** The headers of a scan's pairs. */
  function Heads<H, P>(scan: seq<(H, Option<P>)>): (hs: seq<H>)
    ensures |hs| == |scan| && forall k :: 0 <= k < |scan| ==> hs[k] == scan[k].0
  {
    seq(|scan|, k requires 0 <= k < |scan| => scan[k].0)
  }

  /** The pairs a scan from `pos` records have exactly the first `room` headers from `pos` on. */
  ghost predicate HeadersKept<S, H, P>(xs: seq<S>, pos: nat, room: int, header: S -> Option<H>,
                                 point: S -> Option<P>, stops: S -> bool)
    requires pos <= |xs|
  {
    Heads(TreeScan(xs, pos, room, header, point, stops)) == Take(Collect(xs, pos, header), room)
  }

  /** The step of `NoHeaderSwallowed` at an element that is not a header: it is passed over by both sides. */
  lemma {:induction false} SkipNotSwallowed<S, H, P>(xs: seq<S>, pos: nat, room: int, header: S -> Option<H>,
                                  point: S -> Option<P>, stops: S -> bool)
    requires pos < |xs| && room > 0 && header(xs[pos]).None?
    requires HeadersKept(xs, pos + 1, room, header, point, stops)
    ensures HeadersKept(xs, pos, room, header, point, stops)
  {
    TreeScanStep(xs, pos, room, header, point, stops);
    assert Collect(xs, pos, header) == Collect(xs, pos + 1, header);
  }

  /**
   * The step of `NoHeaderSwallowed` at a header: if the headers after its
   * look-ahead are recorded, so are the headers from the header on.
   */
  lemma {:induction false} HeaderNotSwallowed<S, H, P>(xs: seq<S>, pos: nat, room: int, header: S -> Option<H>,
                                    point: S -> Option<P>, stops: S -> bool)
    requires pos < |xs| && room > 0 && header(xs[pos]).Some?
    requires forall m :: 0 <= m < |xs| && header(xs[m]).Some? ==> point(xs[m]).None? && stops(xs[m])
    requires HeadersKept(xs, LookAheadEnd(xs, pos + 1, point, stops), room - 1, header, point, stops)
    ensures HeadersKept(xs, pos, room, header, point, stops)
  {
    var h := header(xs[pos]).value;
    var end := LookAheadEnd(xs, pos + 1, point, stops);
    var rest := TreeScan(xs, end, room - 1, header, point, stops);
    var headers := Collect(xs, pos + 1, header);
    assert headers == Collect(xs, end, header) by {
      forall m | pos + 1 <= m < end
        ensures header(xs[m]).None?
      {
        assert point(xs[m]).Some? || !stops(xs[m]);
      }
      CollectSkip(xs, pos + 1, end, header);
    }
    assert Heads(TreeScan(xs, pos, room, header, point, stops)) == [h] + Heads(rest) by {
      TreeScanStep(xs, pos, room, header, point, stops);
      var pair := (h, FirstSome(xs, pos + 1, end, point));
      assert Heads([pair] + rest) == [h] + Heads(rest);
    }
    assert Take(Collect(xs, pos, header), room) == [h] + Take(headers, room - 1) by {
      assert Collect(xs, pos, header) == [h] + headers;
      TakeCons(h, headers, room);
    }
  }

  /** `NoHeaderSwallowed` stated through `HeadersKept`, by induction on the position. */
  lemma {:induction false} HeadersKeptFrom<S, H, P>(xs: seq<S>, pos: nat, room: int, header: S -> Option<H>,
                                                    point: S -> Option<P>, stops: S -> bool)
    requires pos <= |xs|
    requires forall m :: 0 <= m < |xs| && header(xs[m]).Some? ==> point(xs[m]).None? && stops(xs[m])
    ensures HeadersKept(xs, pos, room, header, point, stops)
    decreases |xs| - pos
  {
    if pos == |xs| || room <= 0 {
      assert TreeScan(xs, pos, room, header, point, stops) == [];
    } else if header(xs[pos]).None? {
      HeadersKeptFrom(xs, pos + 1, room, header, point, stops);
      SkipNotSwallowed(xs, pos, room, header, point, stops);
    } else {
      HeadersKeptFrom(xs, LookAheadEnd(xs, pos + 1, point, stops), room - 1, header, point, stops);
      HeaderNotSwallowed(xs, pos, room, header, point, stops);
    }
  }

  /**
   * When every header also stops the look-ahead, no header is swallowed:
   * the recorded headers are exactly the first `room` headers, in order.
   */
  lemma {:induction false} NoHeaderSwallowed<S, H, P>(xs: seq<S>, pos: nat, room: int, header: S -> Option<H>,
                                   point: S -> Option<P>, stops: S -> bool)
    requires pos <= |xs|
    requires forall m :: 0 <= m < |xs| && header(xs[m]).Some? ==> point(xs[m]).None? && stops(xs[m])
    ensures Heads(TreeScan(xs, pos, room, header, point, stops)) == Take(Collect(xs, pos, header), room)
  {
    HeadersKeptFrom(xs, pos, room, header, point, stops);
  }

  /** One step of a scan with room left: a non-header is passed over, a header records one pair. */
  lemma {:induction false} TreeScanStep<S, H, P>(xs: seq<S>, pos: nat, room: int, header: S -> Option<H>,
                              point: S -> Option<P>, stops: S -> bool)
    requires pos < |xs| && room > 0
    ensures header(xs[pos]).None? ==>
              TreeScan(xs, pos, room, header, point, stops) == TreeScan(xs, pos + 1, room, header, point, stops)
    ensures header(xs[pos]).Some? ==>
              var end := LookAheadEnd(xs, pos + 1, point, stops);
              TreeScan(xs, pos, room, header, point, stops)
              == [(header(xs[pos]).value, FirstSome(xs, pos + 1, end, point))]
                 + TreeScan(xs, end, room - 1, header, point, stops)
  {
  }

  /** The records a scan's pairs make. */
  function Built<H, P, T>(scan: seq<(H, Option<P>)>, build: (H, Option<P>) -> T): (ts: seq<T>)
    ensures |ts| == |scan| && forall k :: 0 <= k < |scan| ==> ts[k] == build(scan[k].0, scan[k].1)
  {
    seq(|scan|, k requires 0 <= k < |scan| => build(scan[k].0, scan[k].1))
  }

  /**
   * The look-ahead after a header, from element `start`: reads on for the
   * first point, remembering the position before every element (`ftell`)
   * and going back to it (`fseek`) at the element that stops the
   * look-ahead, so the caller reads that element again.
   */
  method LookAhead<S, P>(xs: seq<S>, start: nat, point: S -> Option<P>, stops: S -> bool)
    returns (pos: nat, found: Option<P>)
    requires start <= |xs|
    ensures pos == LookAheadEnd(xs, start, point, stops)
    ensures found == FirstSome(xs, start, pos, point)
  {
    pos := start;
    found := None;
    var mark := pos;
    while pos < |xs|
      invariant start <= pos <= |xs| && mark == pos
      invariant LookAheadEnd(xs, start, point, stops) == LookAheadEnd(xs, pos, point, stops)
      invariant found == FirstSome(xs, start, pos, point)
      decreases |xs| - pos
    {
      var next := xs[pos];
      FirstSomeExtend(xs, start, pos, point);
      pos := pos + 1;
      var p := point(next);
      if p.Some? {
        if found.None? {
          found := p;
        }
      } else if stops(next) {
        pos := mark;
        break;
      }
      mark := pos;
    }
  }

  /**
   * One step of the outer loop at element `pos`: a header runs the
   * look-ahead and gives its pair; any other element is passed over.
   */
  method NextTree<S, H, P>(xs: seq<S>, pos: nat, room: int, header: S -> Option<H>,
                           point: S -> Option<P>, stops: S -> bool)
    returns (next: nat, pair: Option<(H, Option<P>)>)
    requires pos < |xs| && room > 0
    ensures pos < next <= |xs|
    ensures pair.None? ==> TreeScan(xs, pos, room, header, point, stops) == TreeScan(xs, next, room, header, point, stops)
    ensures pair.Some? ==> TreeScan(xs, pos, room, header, point, stops)
                           == [pair.value] + TreeScan(xs, next, room - 1, header, point, stops)
  {
    var h := header(xs[pos]);
    TreeScanStep(xs, pos, room, header, point, stops);
    if h.Some? {
      var end, found := LookAhead(xs, pos + 1, point, stops);
      next, pair := end, Some((h.value, found));
    } else {
      next, pair := pos + 1, None;
    }
  }

  /** The outer loop: one record per header, with the point its look-ahead finds. */
  method TreeScanInto<S, H, P, T>(xs: seq<S>, header: S -> Option<H>, point: S -> Option<P>, stops: S -> bool,
                                  build: (H, Option<P>) -> T, out: array<T>, maxCount: int)
    returns (count: nat)
    requires maxCount <= out.Length
    modifies out
    ensures count <= out.Length
    ensures out[..count] == Built(TreeScan(xs, 0, maxCount, header, point, stops), build)
    ensures forall k :: count <= k < out.Length ==> out[k] == old(out[k])
  {
    var pos := 0;
    count := 0;
    ghost var whole := TreeScan(xs, 0, maxCount, header, point, stops);
    ghost var done: seq<(H, Option<P>)> := [];
    ghost var rest := whole;
    while pos < |xs| && count < maxCount
      invariant 0 <= pos <= |xs| && count <= out.Length && count == |done|
      invariant count < maxCount || count == 0 || count == maxCount
      invariant rest == TreeScan(xs, pos, maxCount - count, header, point, stops)
      invariant done + rest == whole
      invariant forall k :: 0 <= k < count ==> out[k] == build(done[k].0, done[k].1)
      invariant forall k :: count <= k < out.Length ==> out[k] == old(out[k])
      decreases |xs| - pos
    {
      var next, pair := NextTree(xs, pos, maxCount - count, header, point, stops);
      if pair.Some? {
        ghost var tail := TreeScan(xs, next, maxCount - count - 1, header, point, stops);
        MoveHead(done, [pair.value], tail, whole);
        out[count] := build(pair.value.0, pair.value.1);
        done := done + [pair.value];
        rest := tail;
        count := count + 1;
      }
      pos := next;
    }
    assert rest == [];
  }

  /**
   * One pass that keeps, for three classifiers at once, the value each gave
   * on the last element it recognised: three variables overwritten on every
   * match.
   */
  method LatestOfThree<S, A, B, C>(xs: seq<S>, fa: S -> Option<A>, fb: S -> Option<B>, fc: S -> Option<C>)
    returns (a: Option<A>, b: Option<B>, c: Option<C>)
    ensures a == LastSome(xs, fa) && b == LastSome(xs, fb) && c == LastSome(xs, fc)
  {
    a, b, c := None, None, None;
    var i := 0;
    while i < |xs|
      invariant 0 <= i <= |xs|
      invariant a == LastSome(xs[..i], fa) && b == LastSome(xs[..i], fb) && c == LastSome(xs[..i], fc)
    {
      assert xs[..i + 1][..i] == xs[..i];
      var x := xs[i];
      var va := fa(x);
      if va.Some? {
        a := va;
      }
      var vb := fb(x);
      if vb.Some? {
        b := vb;
      }
      var vc := fc(x);
      if vc.Some? {
        c := vc;
      }
      i := i + 1;
    }
    assert xs[..i] == xs;
  }

  /**
   * One pass that stores every (key, value) pair `entry` reads whose key
   * lies in [0, `maxKey`) into `table[key]`, later pairs overwriting
   * earlier ones; slots no pair reaches keep their value.
   */
  method RecordLatest<S, V>(xs: seq<S>, entry: S -> Option<(int, V)>, table: array<V>, maxKey: int)
    requires maxKey <= table.Length
    modifies table
    ensures forall k :: 0 <= k < maxKey ==> table[k] == LastFor(xs, entry, k).GetOr(old(table[k]))
    ensures forall k :: 0 <= k < table.Length && !(0 <= k < maxKey) ==> table[k] == old(table[k])
  {
    var i := 0;
    while i < |xs|
      invariant 0 <= i <= |xs|
      invariant forall k :: 0 <= k < maxKey ==> table[k] == LastFor(xs[..i], entry, k).GetOr(old(table[k]))
      invariant forall k :: 0 <= k < table.Length && !(0 <= k < maxKey) ==> table[k] == old(table[k])
    {
      assert xs[..i + 1][..i] == xs[..i];
      var e := entry(xs[i]);
      if e.Some? && 0 <= e.value.0 < maxKey {
        table[e.value.0] := e.value.1;
      }
      i := i + 1;
    }
    assert xs[..i] == xs;
  }

  /**
   * The records a cursor-driven reader yields from position `pos` with room
   * for `room` more: `read` gives the record at a position and the position
   * after it, and reading stops at the first position where it gives none.
   */
  function Chain<T>(read: nat -> Option<(T, nat)>, pos: nat, room: int): seq<T>
    decreases room
  {
    if room <= 0 then []
    else match read(pos)
      case None => []
      case Some((t, end)) => [t] + Chain(read, end, room - 1)
  }

  /** At most `room` records are read. */
  lemma {:induction false} ChainBounded<T>(read: nat -> Option<(T, nat)>, pos: nat, room: int)
    ensures |Chain(read, pos, room)| <= if room <= 0 then 0 else room
    decreases room
  {
    if room > 0 && read(pos).Some? {
      ChainBounded(read, read(pos).value.1, room - 1);
    }
  }

  /** Less room reads a prefix of what more room reads: records are never skipped, only cut off. */
  lemma {:induction false} ChainPrefix<T>(read: nat -> Option<(T, nat)>, pos: nat, room: int, larger: int)
    requires room <= larger
    ensures Chain(read, pos, room) == Take(Chain(read, pos, larger), room)
    decreases room
  {
    if room > 0 && read(pos).Some? {
      ChainPrefix(read, read(pos).value.1, room - 1, larger - 1);
    }
  }

  /**
   * When `read` succeeds at positions `ps[0]`, `ps[1]`, ... giving `ts[0]`,
   * `ts[1]`, ..., each read ending where the next starts, and fails at the
   * position after the last, the records read are exactly `ts`, cut to `room`.
   */
  lemma {:induction false} ChainFollowsReads<T>(read: nat -> Option<(T, nat)>, ps: seq<nat>, ts: seq<T>, room: int)
    requires |ps| == |ts| + 1
    requires forall k :: 0 <= k < |ts| ==> read(ps[k]) == Some((ts[k], ps[k + 1]))
    requires read(ps[|ts|]).None?
    ensures Chain(read, ps[0], room) == Take(ts, room)
    decreases room
  {
    if room > 0 && |ts| > 0 {
      ChainFollowsReads(read, ps[1..], ts[1..], room - 1);
      assert ts == [ts[0]] + ts[1..];
      TakeCons(ts[0], ts[1..], room);
    }
  }

  /**
   * Reads records from position 0 until `read` fails or `maxCount` are
   * stored; each record is stored built from its position among the
   * records and its value.
   */
  method ChainInto<T, R>(read: nat -> Option<(T, nat)>, build: (nat, T) -> R, out: array<R>, maxCount: int)
    returns (count: nat)
    requires maxCount <= out.Length
    modifies out
    ensures count <= out.Length
    ensures out[..count] == Numbered(Chain(read, 0, maxCount), build)
    ensures forall k :: count <= k < out.Length ==> out[k] == old(out[k])
  {
    var pos := 0;
    count := 0;
    ghost var done: seq<T> := [];
    while count < maxCount
      invariant count <= out.Length && count == |done|
      invariant done + Chain(read, pos, maxCount - count) == Chain(read, 0, maxCount)
      invariant out[..count] == Numbered(done, build)
      invariant forall k :: count <= k < out.Length ==> out[k] == old(out[k])
      decreases maxCount - count
    {
      var r := read(pos);
      if r.None? {
        break;
      }
      out[count] := build(count, r.value.0);
      done := done + [r.value.0];
      count := count + 1;
      pos := r.value.1;
    }
  }

  /** The classifier that gives nothing on the elements `skip` rejects and what `scan` gives on the others. */
  function Unskipped<S, V>(skip: S -> bool, scan: S -> Option<V>): S -> Option<V> {
    x => if skip(x) then None else scan(x)
  }

  /** A buffer twice as large holding the first `count` elements of `a`: what `realloc` to double size keeps. */
  method Grow<T(0)>(a: array<T>, count: nat) returns (b: array<T>)
    requires count <= a.Length
    ensures fresh(b) && b.Length == 2 * a.Length
    ensures b[..count] == a[..count]
  {
    b := new T[2 * a.Length];
    var k := 0;
    while k < count
      invariant 0 <= k <= count
      invariant b[..k] == a[..k]
    {
      b[k] := a[k];
      k := k + 1;
    }
  }

  function Pow2(n: nat): (p: nat)
    ensures p >= 1
  {
    if n == 0 then 1 else 2 * Pow2(n - 1)
  }

  /** `len` is `cap` doubled some number of times. */
  predicate Doubled(len: nat, cap: nat)
    decreases len
  {
    len == cap || (cap < len && len % 2 == 0 && Doubled(len / 2, cap))
  }

  /** One more doubling multiplies by two. */
  lemma {:induction false} ScaledPow2Step(cap: nat, d: nat)
    ensures cap * Pow2(d + 1) == 2 * (cap * Pow2(d))
    ensures cap * Pow2(d) >= cap
  {
    var p := Pow2(d);
    assert Pow2(d + 1) == 2 * p;
    assert cap * (2 * p) == 2 * (cap * p);
    assert cap * p == cap + cap * (p - 1);
  }

  /** A doubled size is the starting size times a power of two, and every such product is a doubled size. */
  lemma {:induction false} DoubledIsPowerOfTwo(len: nat, cap: nat)
    requires cap > 0
    ensures Doubled(len, cap) <==> exists d: nat :: len == cap * Pow2(d)
    decreases len
  {
    if Doubled(len, cap) {
      if len == cap {
        assert len == cap * Pow2(0);
      } else {
        DoubledIsPowerOfTwo(len / 2, cap);
        var d: nat :| len / 2 == cap * Pow2(d);
        ScaledPow2Step(cap, d);
        assert len == cap * Pow2(d + 1);
      }
    }
    if exists d: nat :: len == cap * Pow2(d) {
      var d: nat :| len == cap * Pow2(d);
      if d > 0 {
        var half := cap * Pow2(d - 1);
        ScaledPow2Step(cap, d - 1);
        assert len == 2 * half && half >= cap;
        DoubledIsPowerOfTwo(half, cap);
        assert len / 2 == half;
      }
    }
  }

  /**
   * The check before each store: a full buffer, of the starting size
   * doubled some number of times, is doubled once more, keeping its first
   * `count` elements.
   */
  method MakeRoom<T(0)>(out: array<T>, count: nat, ghost initialCap: nat)
    returns (room: array<T>)
    requires initialCap > 0 && count <= out.Length && Doubled(out.Length, initialCap)
    requires out.Length == initialCap || out.Length <= 2 * count
    ensures room == out || fresh(room)
    ensures count < room.Length
    ensures room[..count] == out[..count]
    ensures Doubled(room.Length, initialCap)
    ensures room.Length == initialCap || room.Length <= 2 * count
  {
    room := out;
    if count >= out.Length {
      room := Grow(out, count);
      assert room.Length / 2 == out.Length;
    }
  }

  /** The values an optional value contributes to a collection. */
  function Listed<V>(v: Option<V>): (vs: seq<V>)
    ensures v.None? ==> vs == []
    ensures v.Some? ==> vs == [v.value]
  {
    if v.Some? then [v.value] else []
  }

  /** Collecting from `i` is what element `i` gives, then collecting from `i + 1`. */
  lemma {:induction false} CollectStep<S, V>(xs: seq<S>, i: nat, f: S -> Option<V>)
    requires i < |xs|
    ensures Collect(xs, i, f) == Listed(f(xs[i])) + Collect(xs, i + 1, f)
  {
  }

  /**
   * One element of the growing read: unless it is skipped, make room first
   * (doubling a full buffer); then, if `scan` recognises it, store its record
   * as record number `count`.
   */
  method StoreNext<S, V, T(0)>(x: S, skip: S -> bool, scan: S -> Option<V>, build: (nat, V) -> T,
                               out: array<T>, count: nat, ghost found: seq<V>, ghost initialCap: nat)
    returns (room: array<T>, newCount: nat, ghost newFound: seq<V>)
    requires initialCap > 0 && Doubled(out.Length, initialCap)
    requires count == |found| <= out.Length
    requires out.Length == initialCap || out.Length <= 2 * count
    requires forall k :: 0 <= k < count ==> out[k] == build(k, found[k])
    modifies out
    ensures room == out || fresh(room)
    ensures newFound == found + Listed(Unskipped(skip, scan)(x))
    ensures newCount == |newFound| <= room.Length && Doubled(room.Length, initialCap)
    ensures room.Length == initialCap || room.Length <= 2 * newCount
    ensures forall k :: 0 <= k < newCount ==> room[k] == build(k, newFound[k])
  {
    room, newCount, newFound := out, count, found;
    if !skip(x) {
      room := MakeRoom(out, count, initialCap);
      assert forall k :: 0 <= k < count ==> room[k] == out[..count][k];
      var v := scan(x);
      if v.Some? {
        room[count] := build(count, v.value);
        newFound := found + [v.value];
        newCount := count + 1;
      }
    }
  }

  /**
   * Reads all of `xs` into a buffer that starts with `initialCap` slots and
   * doubles whenever an element that is not skipped arrives while the buffer
   * is full; every element `scan` recognises becomes the next record. The
   * buffer is the initial size times a power of two, and once it has grown
   * it is never more than twice the number of records.
   */
  method CollectGrowing<S, V, T(0)>(xs: seq<S>, skip: S -> bool, scan: S -> Option<V>, build: (nat, V) -> T,
                                   initialCap: nat)
    returns (out: array<T>, count: nat)
    requires initialCap > 0
    ensures fresh(out) && count <= out.Length
    ensures out[..count] == Numbered(Collect(xs, 0, Unskipped(skip, scan)), build)
    ensures Doubled(out.Length, initialCap)
    ensures out.Length == initialCap || out.Length <= 2 * count
  {
    out := new T[initialCap];
    count := 0;
    ghost var f := Unskipped(skip, scan);
    ghost var whole := Collect(xs, 0, f);
    ghost var found: seq<V> := [];
    ghost var rest := whole;
    var i := 0;
    while i < |xs|
      invariant 0 <= i <= |xs| && count == |found| <= out.Length
      invariant fresh(out)
      invariant rest == Collect(xs, i, f) && found + rest == whole
      invariant forall k :: 0 <= k < count ==> out[k] == build(k, found[k])
      invariant Doubled(out.Length, initialCap)
      invariant out.Length == initialCap || out.Length <= 2 * count
    {
      CollectStep(xs, i, f);
      ghost var next := Collect(xs, i + 1, f);
      MoveHead(found, Listed(f(xs[i])), next, whole);
      out, count, found := StoreNext(xs[i], skip, scan, build, out, count, found, initialCap);
      rest := next;
      i := i + 1;
    }
    assert found == whole;
  }

  /** Counts the elements that satisfy `p`. */
  method CountMatching<S>(xs: seq<S>, p: S -> bool) returns (count: nat)
    ensures count == CountWhere(xs, p)
  {
    count := 0;
    var i := 0;
    while i < |xs|
      invariant 0 <= i <= |xs|
      invariant count == CountWhere(xs[..i], p)
    {
      assert xs[..i + 1][..i] == xs[..i];
      if p(xs[i]) {
        count := count + 1;
      }
      i := i + 1;
    }
    assert xs[..i] == xs;
  }

  /**
   * Sets `marks[k]` for every id `k` in [0, `max`) that some element lists;
   * reports whether any element lists ids at all. Other slots, and slots no
   * element lists, keep their value.
   */
  method MarkListed<S>(xs: seq<S>, ids: S -> Option<seq<int>>, marks: array<bool>, max: int) returns (found: bool)
    requires max <= marks.Length
    modifies marks
    ensures found == AnyListing(xs, ids)
    ensures forall k :: 0 <= k < max ==> marks[k] == (old(marks[k]) || ListedIn(xs, ids, k))
    ensures forall k :: 0 <= k < marks.Length && !(0 <= k < max) ==> marks[k] == old(marks[k])
  {
    found := false;
    var i := 0;
    while i < |xs|
      invariant 0 <= i <= |xs|
      invariant found == AnyListing(xs[..i], ids)
      invariant forall k :: 0 <= k < max ==> marks[k] == (old(marks[k]) || ListedIn(xs[..i], ids, k))
      invariant forall k :: 0 <= k < marks.Length && !(0 <= k < max) ==> marks[k] == old(marks[k])
    {
      assert xs[..i + 1][..i] == xs[..i];
      assert forall j :: 0 <= j < i ==> xs[..i + 1][j] == xs[..i][j];
      var listed := ids(xs[i]);
      if listed.Some? {
        var t := 0;
        while t < |listed.value|
          invariant 0 <= t <= |listed.value|
          invariant forall k :: 0 <= k < max ==>
                      marks[k] == (old(marks[k]) || ListedIn(xs[..i], ids, k) || k in listed.value[..t])
          invariant forall k :: 0 <= k < marks.Length && !(0 <= k < max) ==> marks[k] == old(marks[k])
        {
          var id := listed.value[t];
          if 0 <= id < max {
            marks[id] := true;
          }
          assert listed.value[..t + 1] == listed.value[..t] + [id];
          t := t + 1;
        }
        assert listed.value[..t] == listed.value;
        found := true;
      }
      assert AnyListing(xs[..i + 1], ids) == found by {
        if listed.Some? {
          assert xs[..i + 1][i] == xs[i];
        }
      }
      i := i + 1;
    }
    assert xs[..i] == xs;
  }
}
