/** Sequence helpers shared by the parsers: bounded prefixes and "last write wins". */
module Seqs {
  import opened Wrappers

  /** Moving the head of the unread part onto the read part keeps their concatenation. */
  lemma {:induction false} MoveHead<T>(done: seq<T>, given: seq<T>, tail: seq<T>, whole: seq<T>)
    requires done + (given + tail) == whole
    ensures (done + given) + tail == whole
  {
    assert (done + given) + tail == done + (given + tail);
  }

  /** The first `n` elements of `s` (all of them when `s` is shorter). */
  function Take<T>(s: seq<T>, n: int): (r: seq<T>)
    ensures |r| == if n <= 0 then 0 else if n < |s| then n else |s|
    ensures r == s[..|r|]
  {
    if n <= 0 then [] else if n < |s| then s[..n] else s
  }

  /** Taking from a sequence with a known head keeps the head and takes one fewer from the rest. */
  lemma {:induction false} TakeCons<T>(x: T, rest: seq<T>, n: int)
    requires n > 0
    ensures Take([x] + rest, n) == [x] + Take(rest, n - 1)
  {
  }

  /**
   * The value `f` gives for the LAST element of `xs` on which it gives one:
   * what a loop that overwrites a variable on every match leaves behind.
   */
  function LastSome<S, T>(xs: seq<S>, f: S -> Option<T>): Option<T> {
    if xs == [] then None
    else match f(xs[|xs| - 1])
      case Some(v) => Some(v)
      case None => LastSome(xs[..|xs| - 1], f)
  }

  /** The element that sets the value last decides it. */
  lemma {:induction false} LastSomeGoverns<S, T>(xs: seq<S>, f: S -> Option<T>, j: nat)
    requires j < |xs| && f(xs[j]).Some?
    requires forall k :: j < k < |xs| ==> f(xs[k]).None?
    ensures LastSome(xs, f) == f(xs[j])
    decreases |xs|
  {
    if j < |xs| - 1 {
      var init := xs[..|xs| - 1];
      assert forall k :: j < k < |init| ==> init[k] == xs[k];
      LastSomeGoverns(init, f, j);
    }
  }

  /** There is no value exactly when no element gives one. */
  lemma {:induction false} LastSomeNone<S, T>(xs: seq<S>, f: S -> Option<T>)
    ensures LastSome(xs, f).None? <==> forall k :: 0 <= k < |xs| ==> f(xs[k]).None?
    decreases |xs|
  {
    if xs != [] {
      var init := xs[..|xs| - 1];
      LastSomeNone(init, f);
      assert forall k :: 0 <= k < |init| ==> init[k] == xs[k];
    }
  }

  /** A value comes from some element, and from one after which no element gives a value. */
  lemma {:induction false} LastSomeWitness<S, T>(xs: seq<S>, f: S -> Option<T>)
    requires LastSome(xs, f).Some?
    ensures exists j :: 0 <= j < |xs| && f(xs[j]) == LastSome(xs, f)
                        && forall k :: j < k < |xs| ==> f(xs[k]).None?
    decreases |xs|
  {
    var last := |xs| - 1;
    if f(xs[last]).None? {
      var init := xs[..last];
      assert LastSome(xs, f) == LastSome(init, f);
      LastSomeWitness(init, f);
      var j :| 0 <= j < |init| && f(init[j]) == LastSome(init, f)
               && forall k :: j < k < |init| ==> f(init[k]).None?;
      assert forall k :: j < k < |init| ==> init[k] == xs[k];
      assert f(xs[j]) == LastSome(xs, f) && forall k :: j < k < |xs| ==> f(xs[k]).None?;
    } else {
      assert f(xs[last]) == LastSome(xs, f);
    }
  }

  /** Scanning `a` then `b`: `b` decides whenever it gives a value at all. */
  lemma {:induction false} LastSomeAppend<S, T>(a: seq<S>, b: seq<S>, f: S -> Option<T>)
    ensures LastSome(a + b, f) == if LastSome(b, f).Some? then LastSome(b, f) else LastSome(a, f)
    decreases |b|
  {
    if b == [] {
      assert a + b == a;
    } else {
      var ab := a + b;
      assert ab[|ab| - 1] == b[|b| - 1];
      assert ab[..|ab| - 1] == a + b[..|b| - 1];
      LastSomeAppend(a, b[..|b| - 1], f);
    }
  }

  /** Scanning the same input twice leaves the same value as scanning it once. */
  lemma {:induction false} LastSomeTwice<S, T>(xs: seq<S>, f: S -> Option<T>)
    ensures LastSome(xs + xs, f) == LastSome(xs, f)
  {
    LastSomeAppend(xs, xs, f);
  }

  /** The values `f` gives on `xs[i..]`, in order: a filter and a map in one pass. */
  function Collect<S, T>(xs: seq<S>, i: nat, f: S -> Option<T>): seq<T>
    requires i <= |xs|
    decreases |xs| - i
  {
    if i == |xs| then []
    else match f(xs[i])
      case Some(v) => [v] + Collect(xs, i + 1, f)
      case None => Collect(xs, i + 1, f)
  }

  /** The same pass, stopped once `room` values are collected. */
  function CollectUpTo<S, T>(xs: seq<S>, i: nat, f: S -> Option<T>, room: int): seq<T>
    requires i <= |xs|
    decreases |xs| - i
  {
    if i == |xs| || room <= 0 then []
    else match f(xs[i])
      case Some(v) => [v] + CollectUpTo(xs, i + 1, f, room - 1)
      case None => CollectUpTo(xs, i + 1, f, room)
  }

  /** Stopping at `room` values keeps exactly the first `room` values. */
  lemma {:induction false} CollectUpToIsTake<S, T>(xs: seq<S>, i: nat, f: S -> Option<T>, room: int)
    requires i <= |xs|
    ensures CollectUpTo(xs, i, f, room) == Take(Collect(xs, i, f), room)
    decreases |xs| - i
  {
    if i < |xs| && room > 0 {
      var rest := Collect(xs, i + 1, f);
      match f(xs[i])
      case Some(v) =>
        CollectUpToIsTake(xs, i + 1, f, room - 1);
        assert Collect(xs, i, f) == [v] + rest;
        TakeCons(v, rest, room);
      case None =>
        CollectUpToIsTake(xs, i + 1, f, room);
    }
  }

  /** A value is collected exactly when some element from `i` on gives it. */
  lemma {:induction false} CollectMember<S, T>(xs: seq<S>, i: nat, f: S -> Option<T>, v: T)
    requires i <= |xs|
    ensures v in Collect(xs, i, f) <==> exists j :: i <= j < |xs| && f(xs[j]) == Some(v)
    decreases |xs| - i
  {
    if i < |xs| {
      CollectMember(xs, i + 1, f, v);
      var rest := Collect(xs, i + 1, f);
      if f(xs[i]) == Some(v) {
        assert Collect(xs, i, f) == [v] + rest;
      } else {
        assert v in Collect(xs, i, f) <==> v in rest;
        if exists j :: i <= j < |xs| && f(xs[j]) == Some(v) {
          var j :| i <= j < |xs| && f(xs[j]) == Some(v);
          assert j != i;
        }
      }
    }
  }

  /** Elements that give no value can be skipped. */
  lemma {:induction false} CollectSkip<S, T>(xs: seq<S>, a: nat, b: nat, f: S -> Option<T>)
    requires a <= b <= |xs|
    requires forall m :: a <= m < b ==> f(xs[m]).None?
    ensures Collect(xs, a, f) == Collect(xs, b, f)
    decreases b - a
  {
    if a < b {
      CollectSkip(xs, a + 1, b, f);
    }
  }

  /** Collecting from `i` is collecting up to `k`, then from `k` on. */
  lemma {:induction false} CollectSplitFrom<S, T>(xs: seq<S>, i: nat, k: nat, f: S -> Option<T>)
    requires i <= k <= |xs|
    ensures Collect(xs, i, f) == Collect(xs[..k], i, f) + Collect(xs, k, f)
    decreases k - i
  {
    if i < k {
      CollectSplitFrom(xs, i + 1, k, f);
      assert xs[..k][i] == xs[i];
    }
  }

  /** The values collected from the first `k` elements come first. */
  lemma {:induction false} CollectSplit<S, T>(xs: seq<S>, k: nat, f: S -> Option<T>)
    requires k <= |xs|
    ensures Collect(xs, 0, f) == Collect(xs[..k], 0, f) + Collect(xs, k, f)
  {
    CollectSplitFrom(xs, 0, k, f);
  }

  /** The number of collected values never exceeds the number of elements scanned. */
  lemma {:induction false} CollectLength<S, T>(xs: seq<S>, i: nat, f: S -> Option<T>)
    requires i <= |xs|
    ensures |Collect(xs, i, f)| <= |xs| - i
    decreases |xs| - i
  {
    if i < |xs| {
      CollectLength(xs, i + 1, f);
    }
  }

  /** The first index at or after `j` whose element satisfies `p`, or `|xs|`. */
  function FirstWhere<S>(xs: seq<S>, j: nat, p: S -> bool): (k: nat)
    requires j <= |xs|
    ensures j <= k <= |xs|
    ensures forall m :: j <= m < k ==> !p(xs[m])
    ensures k < |xs| ==> p(xs[k])
    decreases |xs| - j
  {
    if j == |xs| || p(xs[j]) then j else FirstWhere(xs, j + 1, p)
  }

  /** The value `f` gives on the first element of `xs[j..end]` that gives one. */
  function FirstSome<S, T>(xs: seq<S>, j: nat, end: nat, f: S -> Option<T>): (r: Option<T>)
    requires j <= end <= |xs|
    ensures r.Some? ==> exists m :: j <= m < end && f(xs[m]) == r
                                    && forall m' :: j <= m' < m ==> f(xs[m']).None?
    ensures r.None? ==> forall m :: j <= m < end ==> f(xs[m]).None?
    decreases end - j
  {
    if j == end then None
    else match f(xs[j])
      case Some(v) => Some(v)
      case None => FirstSome(xs, j + 1, end, f)
  }

  /** One more element keeps the first value, or supplies it when there was none. */
  lemma {:induction false} FirstSomeExtend<S, T>(xs: seq<S>, j: nat, end: nat, f: S -> Option<T>)
    requires j <= end < |xs|
    ensures FirstSome(xs, j, end + 1, f)
         == if FirstSome(xs, j, end, f).Some? then FirstSome(xs, j, end, f) else f(xs[end])
    decreases end - j
  {
    if j < end {
      FirstSomeExtend(xs, j + 1, end, f);
    }
  }

  /**
   * Among the elements that `entry` reads as a (key, value) pair, the value
   * of the LAST one with key `key`: what a loop that stores every pair
   * into a keyed table leaves in that key's slot.
   */
  function LastFor<S, V>(xs: seq<S>, entry: S -> Option<(int, V)>, key: int): Option<V> {
    if xs == [] then None
    else match entry(xs[|xs| - 1])
      case Some((k, v)) => if k == key then Some(v) else LastFor(xs[..|xs| - 1], entry, key)
      case None => LastFor(xs[..|xs| - 1], entry, key)
  }

  /** The last pair with the key decides its value. */
  lemma {:induction false} LastForGoverns<S, V>(xs: seq<S>, entry: S -> Option<(int, V)>, key: int, j: nat, v: V)
    requires j < |xs| && entry(xs[j]) == Some((key, v))
    requires forall m :: j < m < |xs| && entry(xs[m]).Some? ==> entry(xs[m]).value.0 != key
    ensures LastFor(xs, entry, key) == Some(v)
    decreases |xs|
  {
    if j < |xs| - 1 {
      var init := xs[..|xs| - 1];
      assert init[j] == xs[j];
      forall m | j < m < |init| && entry(init[m]).Some?
        ensures entry(init[m]).value.0 != key
      {
        assert init[m] == xs[m];
      }
      LastForGoverns(init, entry, key, j, v);
    }
  }

  /** A key no pair carries has no value. */
  lemma {:induction false} LastForNone<S, V>(xs: seq<S>, entry: S -> Option<(int, V)>, key: int)
    ensures LastFor(xs, entry, key).None? <==>
            forall m :: 0 <= m < |xs| && entry(xs[m]).Some? ==> entry(xs[m]).value.0 != key
    decreases |xs|
  {
    if xs != [] {
      var init := xs[..|xs| - 1];
      LastForNone(init, entry, key);
      assert forall m :: 0 <= m < |init| ==> init[m] == xs[m];
    }
  }

  /** Appending elements that carry no pair with the key keeps its value. */
  lemma {:induction false} LastForAppend<S, V>(a: seq<S>, b: seq<S>, entry: S -> Option<(int, V)>, key: int)
    ensures LastFor(a + b, entry, key)
         == if LastFor(b, entry, key).Some? then LastFor(b, entry, key) else LastFor(a, entry, key)
    decreases |b|
  {
    if b != [] {
      var init := b[..|b| - 1];
      assert (a + b)[..|a + b| - 1] == a + init;
      assert (a + b)[|a + b| - 1] == b[|b| - 1];
      LastForAppend(a, init, entry, key);
    }
    else {
      assert a + b == a;
    }
  }

  /** Reading the same elements twice over leaves every key's value as one reading does. */
  lemma {:induction false} LastForTwice<S, V>(xs: seq<S>, entry: S -> Option<(int, V)>, key: int)
    ensures LastFor(xs + xs, entry, key) == LastFor(xs, entry, key)
  {
    LastForAppend(xs, xs, entry, key);
  }

  /** How many elements of `xs` satisfy `p`: what a loop that bumps a counter on every match returns. */
  function CountWhere<S>(xs: seq<S>, p: S -> bool): (n: nat)
    ensures n <= |xs|
  {
    if xs == [] then 0 else CountWhere(xs[..|xs| - 1], p) + (if p(xs[|xs| - 1]) then 1 else 0)
  }

  /** The count is zero exactly when no element matches. */
  lemma {:induction false} CountWhereZero<S>(xs: seq<S>, p: S -> bool)
    ensures CountWhere(xs, p) == 0 <==> forall j :: 0 <= j < |xs| ==> !p(xs[j])
    decreases |xs|
  {
    if xs != [] {
      var init := xs[..|xs| - 1];
      CountWhereZero(init, p);
      assert forall j :: 0 <= j < |init| ==> init[j] == xs[j];
    }
  }

  /**
   * Whether `k` is among the ids some element of `xs` lists: what a loop
   * that sets a flag for every listed id leaves set.
   */
  predicate ListedIn<S>(xs: seq<S>, ids: S -> Option<seq<int>>, k: int) {
    xs != [] && (ListedIn(xs[..|xs| - 1], ids, k)
                 || (ids(xs[|xs| - 1]).Some? && k in ids(xs[|xs| - 1]).value))
  }

  /** An id is listed exactly when some element lists it. */
  lemma {:induction false} ListedInWitness<S>(xs: seq<S>, ids: S -> Option<seq<int>>, k: int)
    ensures ListedIn(xs, ids, k) <==> exists j :: 0 <= j < |xs| && ids(xs[j]).Some? && k in ids(xs[j]).value
    decreases |xs|
  {
    if xs != [] {
      var init := xs[..|xs| - 1];
      ListedInWitness(init, ids, k);
      assert forall j :: 0 <= j < |init| ==> init[j] == xs[j];
      if exists j :: 0 <= j < |xs| && ids(xs[j]).Some? && k in ids(xs[j]).value {
        var j :| 0 <= j < |xs| && ids(xs[j]).Some? && k in ids(xs[j]).value;
        if j < |init| {
          assert init[j] == xs[j];
        }
      }
    }
  }

  /** Whether any element lists ids at all. */
  predicate AnyListing<S>(xs: seq<S>, ids: S -> Option<seq<int>>) {
    exists j :: 0 <= j < |xs| && ids(xs[j]).Some?
  }
}
