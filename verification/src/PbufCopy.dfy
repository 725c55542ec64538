/**
 How pbuf_copy walks two chains at once: which of its exits it takes depends only on the
 lengths of the pbufs, which copying does not change.
 */
module PbufCopy {
  import opened Common
  import opened Pbuf

  /** The last pbuf of a chain of several has no bytes. */
  ghost predicate EmptyEnd(m: Mem, chains: Chains, p: Ptr) {
    var c := From(chains, Some(p));
    |c| >= 2 && c[|c| - 1] in m && m[c[|c| - 1]].data == []
  }

  /** A source of two pbufs whose first fits into the first target pbuf, with another target
      pbuf to follow if it fills it. */
  ghost predicate PairFits(m: Mem, chains: Chains, to: Ptr, from: Ptr)
    requires to in m && from in m
  {
    && |From(chains, Some(from))| == 2
    && (|m[from].data| < |m[to].data| || (|m[from].data| == |m[to].data| && m[to].next.Some?))
  }

  /** The source is not taken for a packet queue. */
  ghost predicate SourceFits(m: Mem, chains: Chains, to: Ptr, from: Ptr)
    requires to in m && from in m
  {
    !EmptyEnd(m, chains, from) || PairFits(m, chains, to, from)
  }

  /** The place in the chain c of its last pbuf with bytes, or 0. */
  function LastFull(m: Mem, c: seq<Ptr>): (z: nat)
    requires c != []
    ensures z < |c|
  {
    if |c| == 1 || c[0] !in m || |m[c[0]].data| == m[c[0]].totLen then 0 else 1 + LastFull(m, c[1..])
  }

  /** The rounds in which the cursors move without a byte being copied. */
  ghost function IdleRounds(m: Mem, chains: Chains, from: Ptr): nat
    requires from in m
  {
    (if m[from].totLen == 0 then 1 else 0) + (if EmptyEnd(m, chains, from) then 1 else 0)
  }

  /** The source ends before the last pbuf with bytes of the target, a target with empty pbufs at
      its end: what is left of that is taken for a packet queue otherwise. If it ends just before
      that pbuf, empty ones there must take up the idle rounds. */
  ghost predicate TargetFits(m: Mem, chains: Chains, to: Ptr, from: Ptr)
    requires to in m && from in m
  {
    var c := From(chains, Some(to));
    c != [] &&
    var z, idle := LastFull(m, c), IdleRounds(m, chains, from);
    if z == 0 then |c| == 2 && |m[to].data| <= |m[from].data|
    else
      && c[z] in m
      && (|| m[from].totLen < m[to].totLen - m[c[z]].totLen
          || (m[from].totLen == m[to].totLen - m[c[z]].totLen && EmptyBefore(m, c, z, idle)))
  }

  /** More than idle pbufs before place z are empty. */
  ghost predicate EmptyBefore(m: Mem, c: seq<Ptr>, z: nat, idle: nat)
    requires z < |c| && c[z] in m
  {
    z > idle && c[z - idle - 1] in m && m[c[z - idle - 1]].totLen == m[c[z]].totLen
  }

  /** When a packet is copied into a target that is large enough. */
  ghost predicate CopySucceeds(m: Mem, chains: Chains, to: Ptr, from: Ptr)
    requires to in m && from in m
  {
    SourceFits(m, chains, to, from) && (EmptyEnd(m, chains, to) ==> TargetFits(m, chains, to, from))
  }

  /** Enough room in the target is not enough: a source whose last pbuf is empty is taken for a
      packet queue. */
  lemma {:induction false} CopyMayFail() returns (m: Mem, chains: Chains, to: Ptr, from: Ptr)
    ensures Linked(m, chains) && TotLens(m) && to in m && from in m && !EmptyEnd(m, chains, to)
    ensures m[from].totLen <= m[to].totLen && !CopySucceeds(m, chains, to, from)
  {
    to, from := 1, 3;
    m := map[1 := Pbuf(Some(2), [0], 2, 1), 2 := Pbuf(None, [0], 1, 1),
             3 := Pbuf(Some(4), [7, 7], 2, 1), 4 := Pbuf(None, [], 0, 1)];
    chains := map[1 := [1, 2], 2 := [2], 3 := [3, 4], 4 := [4]];
  }

  lemma {:induction false} ChainIs(m: Mem, chains: Chains, p: Ptr)
    requires Linked(m, chains) && p in m
    ensures p in chains && From(chains, Some(p)) == [p] + From(chains, m[p].next)
    ensures m[p].next.Some? ==> m[p].next.value in m && m[p].next.value in chains
    ensures m[p].next.Some? ==> From(chains, m[p].next) != [] && From(chains, m[p].next)[0] == m[p].next.value
  {
    assert LinkedAt(m, chains, p);
    if m[p].next.Some? { assert LinkedAt(m, chains, m[p].next.value); }
  }

  /** If all that is left of a chain has no bytes, its last pbuf has none. */
  lemma {:induction false} NothingLeft(m: Mem, chains: Chains, p: Ptr, x: Ptr)
    requires Linked(m, chains) && TotLens(m) && p in m && x in m && x in From(chains, Some(p)) && m[x].totLen == 0
    requires |From(chains, Some(p))| >= 2
    ensures EmptyEnd(m, chains, p)
  {
    hide Linked, TotLens;
    var d := Suffix(m, chains, p, x);
    LastOfSuffix(From(chains, Some(p)), d);
    EmptyAll(m, chains, x, d[|d| - 1]);
  }

  lemma {:induction false} SuffixShares(c: seq<Ptr>, d: seq<Ptr>)
    requires 0 < |d| <= |c| && c[|c| - |d|..] == d
    ensures c[|c| - 1] == d[|d| - 1] && (|c| == |d| ==> c[0] == d[0])
  {
    LastOfSuffix(c, d);
  }

  lemma {:induction false} LastOfSuffix(c: seq<Ptr>, d: seq<Ptr>)
    requires 0 < |d| <= |c| && c[|c| - |d|..] == d
    ensures c[|c| - 1] == d[|d| - 1]
  {
    assert c[|c| - |d|..][|d| - 1] == c[|c| - 1];
  }

  lemma {:induction false} EmptyAll(m: Mem, chains: Chains, x: Ptr, y: Ptr)
    requires Linked(m, chains) && TotLens(m) && x in m && y in From(chains, Some(x)) && m[x].totLen == 0
    ensures y in m && m[y].data == []
  {
    InChain(m, chains, x, y);
    TotLenCounts(m, chains, Some(x));
    var front, rest := Around(m, chains, x, y);
    AroundContent(m, chains, x, y, front, rest);
  }

  // ---------------------------------------------------------------------
  // The two cursors

  /** A pbuf, or none at the end of the chain, and an offset into it. */
  datatype Pos = Pos(q: Option<Ptr>, off: nat)

  /** A place in a packet n bytes from its start. */
  ghost predicate Cursor(m: Mem, chains: Chains, p: Ptr, a: Pos, n: nat) {
    && p in m
    && n == m[p].totLen - TotOf(m, a.q) + a.off
    && match a.q
       case None => a.off == 0
       case Some(x) => x in m && x in From(chains, Some(p)) && (a.off < |m[x].data| || a.off == 0)
  }

  /** On to the next pbuf when the current one is done. */
  function Ahead(m: Mem, x: Ptr, off: nat): Pos
    requires x in m
  {
    if off >= |m[x].data| then Pos(m[x].next, 0) else Pos(Some(x), off)
  }

  lemma {:induction false} AheadCursor(m: Mem, chains: Chains, p: Ptr, x: Ptr, off: nat, n: nat, len: nat)
    requires Linked(m, chains) && TotLens(m) && Cursor(m, chains, p, Pos(Some(x), off), n) && off + len <= |m[x].data|
    ensures Cursor(m, chains, p, Ahead(m, x, off + len), n + len)
    ensures Ahead(m, x, off + len).q == Some(x) || |From(chains, Ahead(m, x, off + len).q)| == |From(chains, Some(x))| - 1
  {
    TotStep(m, x);
    ChainIs(m, chains, x);
    if off + len == |m[x].data| && m[x].next.Some? {
      var front, rest := Around(m, chains, p, x);
      assert chains[p][|front| + 1] == rest[0];
    }
  }

  /** What the loop knows each time around; start says nothing was done yet. */
  ghost predicate Walk(m: Mem, chains: Chains, to: Ptr, from: Ptr,
                       a: Pos, b: Pos, n: nat, start: bool) {
    && Cursor(m, chains, to, a, n)
    && Cursor(m, chains, from, b, n)
    && m[from].totLen <= m[to].totLen
    && (start ==> a == Pos(Some(to), 0) && b == Pos(Some(from), 0) && n == 0)
    && (!start && b.q == Some(from) ==> |m[to].data| < |m[from].data|)
    && (!start && EmptyEnd(m, chains, from) && |From(chains, Some(from))| == 2 ==> PairFits(m, chains, to, from))
    && (EmptyEnd(m, chains, from) && |From(chains, Some(from))| >= 3 ==> |From(chains, b.q)| >= 3)
  }

  lemma {:induction false} WalkStarts(m: Mem, chains: Chains, to: Ptr, from: Ptr)
    requires Linked(m, chains) && to in m && from in m && m[from].totLen <= m[to].totLen
    ensures Walk(m, chains, to, from, Pos(Some(to), 0), Pos(Some(from), 0), 0, true)
  {
    ChainIs(m, chains, to);
    ChainIs(m, chains, from);
  }

  lemma {:induction false} WalkAt(m: Mem, chains: Chains, to: Ptr, from: Ptr, a: Pos, b: Pos, n: nat, start: bool)
    requires Walk(m, chains, to, from, a, b, n, start) && a.q.Some? && b.q.Some?
    ensures to in m && a.q.value in m && a.q.value in From(chains, Some(to)) && a.off <= |m[a.q.value].data|
    ensures from in m && b.q.value in m && b.q.value in From(chains, Some(from)) && b.off <= |m[b.q.value].data|
    ensures n == m[to].totLen - m[a.q.value].totLen + a.off == m[from].totLen - m[b.q.value].totLen + b.off
  {
  }

  lemma {:induction false} WalkEnds(m: Mem, chains: Chains, to: Ptr, from: Ptr, a: Pos, b: Pos, n: nat)
    requires Linked(m, chains) && Walk(m, chains, to, from, a, b, n, false) && b.q.None?
    ensures SourceFits(m, chains, to, from) && n == m[from].totLen
  {
  }

  /** One round of the loop: both cursors move on by as much as fits, and then past pbufs that
      are done. */
  ghost predicate Round(m: Mem, chains: Chains, to: Ptr, from: Ptr, a: Pos, b: Pos, n: nat, start: bool,
                        len: nat, a': Pos, b': Pos) {
    && Linked(m, chains) && TotLens(m)
    && Walk(m, chains, to, from, a, b, n, start) && a.q.Some? && b.q.Some?
    && len == Min(|m[a.q.value].data| - a.off, |m[b.q.value].data| - b.off)
    && a' == Ahead(m, a.q.value, a.off + len) && b' == Ahead(m, b.q.value, b.off + len)
    && Cursor(m, chains, to, a', n + len) && Cursor(m, chains, from, b', n + len)
  }

  lemma {:induction false} Suffix(m: Mem, chains: Chains, p: Ptr, x: Ptr) returns (d: seq<Ptr>)
    requires Linked(m, chains) && p in m && x in From(chains, Some(p))
    ensures x in m && d == From(chains, Some(x)) && d != [] && d[0] == x
    ensures var c := From(chains, Some(p)); |d| <= |c| && c[|c| - |d|..] == d
  {
    hide Linked;
    InChain(m, chains, p, x);
    d := chains[x];
  }

  /** What is left of a chain is no longer than the chain, and all of it only at its start. */
  lemma {:induction false} LeftOf(m: Mem, chains: Chains, p: Ptr, x: Ptr)
    requires Linked(m, chains) && p in m && x in From(chains, Some(p))
    ensures x in m && 1 <= |From(chains, Some(x))| <= |From(chains, Some(p))|
    ensures |From(chains, Some(x))| == |From(chains, Some(p))| ==> x == p
    ensures From(chains, Some(p))[|From(chains, Some(p))| - 1] == From(chains, Some(x))[|From(chains, Some(x))| - 1]
  {
    hide Linked;
    ChainIs(m, chains, p);
    var c := From(chains, Some(p));
    var d := Suffix(m, chains, p, x);
    SuffixShares(c, d);
  }

  /** The source cursor is still on the first pbuf only if that is longer than the target's. */
  lemma {:induction false} StillFirst(m: Mem, chains: Chains, to: Ptr, from: Ptr, a: Pos, b: Pos, n: nat, start: bool,
                        len: nat, a': Pos, b': Pos)
    requires Round(m, chains, to, from, a, b, n, start, len, a', b')
    requires b'.q == Some(from)
    ensures |m[to].data| < |m[from].data|
  {
    LeftOf(m, chains, from, b.q.value);
    ChainIs(m, chains, b.q.value);
  }

  /** The source looks like a packet queue. */
  ghost predicate Queue(m: Mem, q: Option<Ptr>) {
    q.Some? && q.value in m && m[q.value].next.Some? && |m[q.value].data| == m[q.value].totLen
  }

  lemma {:induction false} QueueIsEmptyEnd(m: Mem, chains: Chains, p: Ptr, q: Ptr)
    requires Linked(m, chains) && TotLens(m) && p in m && q in From(chains, Some(p)) && Queue(m, Some(q))
    ensures EmptyEnd(m, chains, p) && |From(chains, Some(q))| >= 2
  {
    LeftOf(m, chains, p, q);
    ChainIs(m, chains, q);
    TotStep(m, q);
    var front, rest := Around(m, chains, p, q);
    assert chains[p][|front| + 1] == rest[0];
    NothingLeft(m, chains, p, m[q].next.value);
  }

  /** The last but one pbuf of a chain with an empty end looks like a packet queue. */
  lemma {:induction false} LastButOne(m: Mem, chains: Chains, p: Ptr, q: Ptr)
    requires Linked(m, chains) && TotLens(m) && p in m && q in From(chains, Some(p))
    requires EmptyEnd(m, chains, p) && |From(chains, Some(q))| == 2
    ensures Queue(m, Some(q))
  {
    LeftOf(m, chains, p, q);
    ChainIs(m, chains, q);
    TotStep(m, q);
    var last := m[q].next.value;
    ChainIs(m, chains, last);
    TotStep(m, last);
  }

  lemma {:induction false} SourceExit(m: Mem, chains: Chains, to: Ptr, from: Ptr, a: Pos, b: Pos, n: nat, start: bool,
                        len: nat, a': Pos, b': Pos)
    requires Round(m, chains, to, from, a, b, n, start, len, a', b')
    requires Queue(m, b'.q)
    ensures !SourceFits(m, chains, to, from)
  {
    QueueIsEmptyEnd(m, chains, from, b'.q.value);
    LeftOf(m, chains, from, b'.q.value);
    if b'.q == Some(from) {
      StillFirst(m, chains, to, from, a, b, n, start, len, a', b');
    }
  }

  /** When the target is used up first, the source has only empty pbufs left. */
  lemma {:induction false} ShortLeaves(m: Mem, chains: Chains, to: Ptr, from: Ptr, a: Pos, b: Pos, n: nat, start: bool,
                   len: nat, a': Pos, b': Pos)
    requires Round(m, chains, to, from, a, b, n, start, len, a', b')
    requires a'.q.None? && b'.q.Some?
    ensures EmptyEnd(m, chains, from) && m[from].totLen == m[to].totLen
    ensures b'.q.value in m && b'.q.value != from && m[b'.q.value].totLen == 0
  {
    TotStep(m, b'.q.value);
    LeftOf(m, chains, from, b'.q.value);
    if b'.q == Some(from) {
      StillFirst(m, chains, to, from, a, b, n, start, len, a', b');
      assert false;
    }
    NothingLeft(m, chains, from, b'.q.value);
  }

  lemma {:induction false} PairTotals(m: Mem, chains: Chains, to: Ptr, from: Ptr, f: Ptr)
    requires Linked(m, chains) && TotLens(m) && to in m && from in m && m[from].totLen == m[to].totLen
    requires PairFits(m, chains, to, from) && f in From(chains, Some(from)) && f != from && f in m && m[f].totLen == 0
    ensures EmptyEnd(m, chains, to)
  {
    ChainIs(m, chains, from);
    TotStep(m, from);
    TotStep(m, to);
    ChainIs(m, chains, to);
    assert f == From(chains, m[from].next)[0];
    QueueIsEmptyEnd(m, chains, to, to);
  }

  lemma {:induction false} Onward(m: Mem, chains: Chains, to: Ptr, from: Ptr, a: Pos, b: Pos, n: nat, start: bool,
                        len: nat, a': Pos, b': Pos)
    requires Round(m, chains, to, from, a, b, n, start, len, a', b')
    requires !(a'.q.None? && b'.q.Some?) && !Queue(m, b'.q)
    ensures Walk(m, chains, to, from, a', b', n + len, false)
  {
    if b'.q == Some(from) {
      StillFirst(m, chains, to, from, a, b, n, start, len, a', b');
    }
    AheadCursor(m, chains, from, b.q.value, b.off, n, len);
    if EmptyEnd(m, chains, from) {
      if |From(chains, Some(from))| == 2 {
        if start {
          ChainIs(m, chains, from);
          LastButOne(m, chains, from, from);
          assert b'.q == m[from].next;
        }
      } else if |From(chains, b'.q)| == 2 {
        LastButOne(m, chains, from, b'.q.value);
      }
    }
  }

  // ---------------------------------------------------------------------
  // Where the target cursor may be

  /** On a chain, later pbufs have fewer pbufs and bytes from them on. */
  lemma {:induction false} Later(m: Mem, chains: Chains, p: Ptr, x: Ptr, y: Ptr)
    requires Linked(m, chains) && TotLens(m) && p in m && x in From(chains, Some(p)) && y in From(chains, Some(p))
    ensures x in m && y in m
    ensures |From(chains, Some(x))| > |From(chains, Some(y))| ==> m[x].totLen >= |m[x].data| + m[y].totLen
    ensures |From(chains, Some(x))| == |From(chains, Some(y))| ==> x == y
  {
    hide Linked, TotLens;
    var d := Suffix(m, chains, p, x);
    var e := Suffix(m, chains, p, y);
    if |d| >= |e| {
      SuffixIn(From(chains, Some(p)), d, e);
      if |d| > |e| {
        ChainIs(m, chains, x);
        TotStep(m, x);
        assert y in d[1..] && d[1..] == From(chains, m[x].next);
        SliceAt(m, chains, m[x].next.value, y, 0, 0);
      }
    }
  }

  lemma {:induction false} SuffixIn(c: seq<Ptr>, d: seq<Ptr>, e: seq<Ptr>)
    requires 0 < |e| <= |d| <= |c| && c[|c| - |d|..] == d && c[|c| - |e|..] == e
    ensures |d| > |e| ==> e[0] in d[1..]
    ensures |d| == |e| ==> d[0] == e[0]
  {
    assert e[0] == c[|c| - |e|] == d[|d| - |e|];
    if |d| > |e| { assert d[1..][|d| - |e| - 1] == e[0]; }
  }

  /** The pbuf at a place of a chain. */
  lemma {:induction false} AtPlace(m: Mem, chains: Chains, p: Ptr, i: nat)
    requires Linked(m, chains) && p in m && i < |From(chains, Some(p))|
    ensures var c := From(chains, Some(p)); c[i] in c && c[i] in m && |From(chains, Some(c[i]))| == |c| - i
  {
    SuffixOf(m, chains, p, i);
  }

  /** From the last pbuf with bytes on, and only there, a pbuf with another to follow looks like a
      packet queue. */
  lemma {:induction false} QueueFrom(m: Mem, chains: Chains, p: Ptr, x: Ptr)
    requires Linked(m, chains) && TotLens(m) && p in m && x in From(chains, Some(p))
    ensures var c := From(chains, Some(p)); c != [] && x in m
    ensures var c := From(chains, Some(p));
            Queue(m, Some(x)) <==> |From(chains, Some(x))| <= |c| - LastFull(m, c) && m[x].next.Some?
    decreases |From(chains, Some(p))|
  {
    hide Linked, TotLens;
    var c := From(chains, Some(p));
    ChainIs(m, chains, p);
    TotStep(m, p);
    LeftOf(m, chains, p, x);
    assert c[1..] == From(chains, m[p].next);
    if |c| == 1 {
    } else if |m[p].data| == m[p].totLen {
      if x != p { EmptyAll(m, chains, m[p].next.value, x); EmptyFrom(m, chains, m[p].next.value, x); }
    } else if x != p {
      QueueFrom(m, chains, m[p].next.value, x);
    }
  }

  lemma {:induction false} EmptyFrom(m: Mem, chains: Chains, p: Ptr, x: Ptr)
    requires Linked(m, chains) && TotLens(m) && p in m && m[p].totLen == 0 && x in From(chains, Some(p))
    ensures x in m && m[x].totLen == 0
  {
    InChain(m, chains, p, x);
    SliceAt(m, chains, p, x, 0, 0);
  }

  /** A chain with an empty end has its last pbuf with bytes before its end. */
  lemma {:induction false} FullBeforeEnd(m: Mem, chains: Chains, p: Ptr)
    requires Linked(m, chains) && TotLens(m) && p in m && EmptyEnd(m, chains, p)
    ensures var c := From(chains, Some(p)); |c| >= 2 && LastFull(m, c) <= |c| - 2
  {
    var c := From(chains, Some(p));
    AtPlace(m, chains, p, |c| - 2);
    LastButOne(m, chains, p, c[|c| - 2]);
    QueueFrom(m, chains, p, c[|c| - 2]);
  }

  /** The pbufs from the target cursor on. */
  ghost function Left(chains: Chains, a: Pos): nat {
    |From(chains, a.q)|
  }

  /** A source whose empty second pbuf takes a round of its own. */
  ghost predicate Pair(m: Mem, chains: Chains, to: Ptr, from: Ptr)
    requires to in m && from in m
  {
    EmptyEnd(m, chains, from) && PairFits(m, chains, to, from)
  }

  ghost predicate NextEmpty(m: Mem, p: Ptr)
    requires p in m
  {
    m[p].next.Some? && m[p].next.value in m && m[m[p].next.value].data == []
  }

  /** Where the target cursor is each time around. */
  ghost predicate Landing(m: Mem, chains: Chains, to: Ptr, from: Ptr, a: Pos, b: Pos, start: bool)
    requires to in m && from in m && From(chains, Some(to)) != []
  {
    var c := From(chains, Some(to));
    var z := LastFull(m, c);
    && (EmptyEnd(m, chains, to) && z > 0 ==> Left(chains, a) > |c| - z)
    && (!start && EmptyEnd(m, chains, to) && z == 0 ==>
          |c| == 2 && |m[to].data| <= |m[from].data| && Left(chains, a) <= 1)
    && (!start && Pair(m, chains, to, from) && b.q.Some? ==> Left(chains, a) >= |c| - 1)
    && (!start && m[to].data == [] ==> Left(chains, a) < |c|)
    && (!start && Pair(m, chains, to, from) && |m[from].data| == |m[to].data| ==>
          Left(chains, a) < |c| && (b.q.None? && NextEmpty(m, to) ==> Left(chains, a) + 2 <= |c|))
  }

  lemma {:induction false} LandingStarts(m: Mem, chains: Chains, to: Ptr, from: Ptr)
    requires Linked(m, chains) && TotLens(m) && to in m && from in m
    ensures From(chains, Some(to)) != [] && Landing(m, chains, to, from, Pos(Some(to), 0), Pos(Some(from), 0), true)
  {
    ChainIs(m, chains, to);
  }

  /** A round moves the target cursor on exactly if it fills the pbuf. */
  lemma {:induction false} AheadLeft(m: Mem, chains: Chains, x: Ptr, off: nat)
    requires Linked(m, chains) && x in m
    ensures From(chains, Some(x)) != []
    ensures Left(chains, Ahead(m, x, off)) == |From(chains, Some(x))| - if off >= |m[x].data| then 1 else 0
  {
    ChainIs(m, chains, x);
  }

  /** The cursors are on their chains, and the target's moves by one pbuf at most. */
  lemma {:induction false} RoundLeft(m: Mem, chains: Chains, to: Ptr, from: Ptr, a: Pos, b: Pos, n: nat, start: bool,
                   len: nat, a': Pos, b': Pos)
    requires Round(m, chains, to, from, a, b, n, start, len, a', b')
    ensures to in m && from in m && a.q.value in m && b.q.value in m
    ensures a.q.value in From(chains, Some(to)) && b.q.value in From(chains, Some(from))
    ensures Left(chains, a') == Left(chains, a) - if a.off + len >= |m[a.q.value].data| then 1 else 0
    ensures 1 <= Left(chains, a) <= |From(chains, Some(to))|
  {
    AheadLeft(m, chains, a.q.value, a.off + len);
    LeftOf(m, chains, to, a.q.value);
  }

  /** The round after a source's second and empty pbuf was reached is the last. */
  lemma {:induction false} PairEnds(m: Mem, chains: Chains, to: Ptr, from: Ptr, a: Pos, b: Pos, n: nat, start: bool,
                   len: nat, a': Pos, b': Pos)
    requires Round(m, chains, to, from, a, b, n, start, len, a', b')
    requires !start && Pair(m, chains, to, from)
    ensures b'.q.None?
  {
    LeftOf(m, chains, from, b.q.value);
    ChainIs(m, chains, b.q.value);
  }

  lemma {:induction false} FullAhead(m: Mem, chains: Chains, to: Ptr, from: Ptr, a: Pos, b: Pos, n: nat, start: bool,
                   len: nat, a': Pos, b': Pos)
    requires Round(m, chains, to, from, a, b, n, start, len, a', b')
    requires From(chains, Some(to)) != [] && Landing(m, chains, to, from, a, b, start)
    requires EmptyEnd(m, chains, to) && LastFull(m, From(chains, Some(to))) > 0 && !Queue(m, a'.q)
    ensures Left(chains, a') > |From(chains, Some(to))| - LastFull(m, From(chains, Some(to)))
  {
    hide Linked, TotLens;
    RoundLeft(m, chains, to, from, a, b, n, start, len, a', b');
    FullBeforeEnd(m, chains, to);
    var c := From(chains, Some(to));
    if Left(chains, a') == |c| - LastFull(m, c) {
      ChainIs(m, chains, a'.q.value);
      QueueFrom(m, chains, to, a'.q.value);
      assert false;
    }
  }

  lemma {:induction false} NoneAhead(m: Mem, chains: Chains, to: Ptr, from: Ptr, a: Pos, b: Pos, n: nat, start: bool,
                   len: nat, a': Pos, b': Pos)
    requires Round(m, chains, to, from, a, b, n, start, len, a', b')
    requires From(chains, Some(to)) != [] && Landing(m, chains, to, from, a, b, start)
    requires EmptyEnd(m, chains, to) && LastFull(m, From(chains, Some(to))) == 0 && !Queue(m, a'.q)
    ensures |From(chains, Some(to))| == 2 && |m[to].data| <= |m[from].data| && Left(chains, a') <= 1
  {
    hide Linked, TotLens;
    RoundLeft(m, chains, to, from, a, b, n, start, len, a', b');
    if start {
      assert a'.q.Some?;
      ChainIs(m, chains, a'.q.value);
      QueueFrom(m, chains, to, a'.q.value);
    }
  }

  lemma {:induction false} PairAhead(m: Mem, chains: Chains, to: Ptr, from: Ptr, a: Pos, b: Pos, n: nat, start: bool,
                   len: nat, a': Pos, b': Pos)
    requires Round(m, chains, to, from, a, b, n, start, len, a', b')
    requires From(chains, Some(to)) != [] && Landing(m, chains, to, from, a, b, start)
    requires Pair(m, chains, to, from)
    ensures b'.q.Some? ==> Left(chains, a') >= |From(chains, Some(to))| - 1
    ensures |m[from].data| == |m[to].data| ==> Left(chains, a') < |From(chains, Some(to))|
    ensures |m[from].data| == |m[to].data| && b'.q.None? && NextEmpty(m, to) ==>
              Left(chains, a') + 2 <= |From(chains, Some(to))|
  {
    hide Linked, TotLens;
    RoundLeft(m, chains, to, from, a, b, n, start, len, a', b');
    ChainIs(m, chains, from);
    ChainIs(m, chains, to);
    if !start {
      PairEnds(m, chains, to, from, a, b, n, start, len, a', b');
      if NextEmpty(m, to) && |m[from].data| == |m[to].data| {
        Later(m, chains, to, a.q.value, m[to].next.value);
        ChainIs(m, chains, m[to].next.value);
      }
    }
  }

  lemma {:induction false} LandingOn(m: Mem, chains: Chains, to: Ptr, from: Ptr, a: Pos, b: Pos, n: nat, start: bool,
                   len: nat, a': Pos, b': Pos)
    requires Round(m, chains, to, from, a, b, n, start, len, a', b')
    requires From(chains, Some(to)) != [] && Landing(m, chains, to, from, a, b, start)
    requires !Queue(m, a'.q)
    ensures Landing(m, chains, to, from, a', b', false)
  {
    RoundLeft(m, chains, to, from, a, b, n, start, len, a', b');
    if EmptyEnd(m, chains, to) {
      if LastFull(m, From(chains, Some(to))) > 0 { FullAhead(m, chains, to, from, a, b, n, start, len, a', b'); }
      else { NoneAhead(m, chains, to, from, a, b, n, start, len, a', b'); }
    }
    if Pair(m, chains, to, from) { PairAhead(m, chains, to, from, a, b, n, start, len, a', b'); }
  }

  /** In what follows the target cursor has come to the last pbuf with bytes, z. */
  lemma {:induction false} CameTo(m: Mem, chains: Chains, to: Ptr, from: Ptr, a: Pos, b: Pos, n: nat, start: bool,
                   len: nat, a': Pos, b': Pos)
    requires Round(m, chains, to, from, a, b, n, start, len, a', b')
    requires From(chains, Some(to)) != [] && Landing(m, chains, to, from, a, b, start)
    requires Queue(m, a'.q) && EmptyEnd(m, chains, to) && LastFull(m, From(chains, Some(to))) > 0
    ensures var c := From(chains, Some(to)); var z := LastFull(m, c);
            && z + 1 < |c| && c[z] in m && c[z - 1] in m && a'.q == Some(c[z]) && a.q == Some(c[z - 1])
            && n + len == m[to].totLen - m[c[z]].totLen <= m[from].totLen
            && Left(chains, a) == |c| - z + 1
  {
    hide Linked, TotLens;
    var c := From(chains, Some(to));
    var z := LastFull(m, c);
    RoundLeft(m, chains, to, from, a, b, n, start, len, a', b');
    FullBeforeEnd(m, chains, to);
    QueueFrom(m, chains, to, a'.q.value);
    AtPlace(m, chains, to, z);
    AtPlace(m, chains, to, z - 1);
    Later(m, chains, to, a'.q.value, c[z]);
    Later(m, chains, to, a.q.value, c[z - 1]);
    WithinSource(m, chains, from, b', n + len);
  }

  lemma {:induction false} WithinSource(m: Mem, chains: Chains, from: Ptr, b: Pos, n: nat)
    requires TotLens(m) && Linked(m, chains) && Cursor(m, chains, from, b, n)
    ensures n <= m[from].totLen
  {
    if b.q.Some? { TotStep(m, b.q.value); }
  }

  /** If the source ends there, the pbufs before z are not enough for the idle rounds. */
  lemma {:induction false} NotIdled(m: Mem, chains: Chains, to: Ptr, from: Ptr, a: Pos, b: Pos, n: nat, start: bool,
                   len: nat, a': Pos, b': Pos)
    requires Round(m, chains, to, from, a, b, n, start, len, a', b')
    requires From(chains, Some(to)) != [] && Landing(m, chains, to, from, a, b, start)
    requires Queue(m, a'.q) && EmptyEnd(m, chains, to) && LastFull(m, From(chains, Some(to))) > 0
    requires SourceFits(m, chains, to, from)
    requires var c := From(chains, Some(to)); var z := LastFull(m, c);
             c[z] in m && m[from].totLen == m[to].totLen - m[c[z]].totLen
    ensures var c := From(chains, Some(to)); !EmptyBefore(m, c, LastFull(m, c), IdleRounds(m, chains, from))
  {
    hide Linked, TotLens;
    var c := From(chains, Some(to));
    var z, idle := LastFull(m, c), IdleRounds(m, chains, from);
    CameTo(m, chains, to, from, a, b, n, start, len, a', b');
    if EmptyBefore(m, c, z, idle) {
      JustBefore(m, chains, to, z, idle);
      RoundLeft(m, chains, to, from, a, b, n, start, len, a', b');
      ChainIs(m, chains, to);
      hide LastFull, From, Landing;
      if start { assert false; }
      DoneIsPair(m, chains, to, from, a, b, n, start, len, a', b');
      assert false;
    }
  }

  lemma {:induction false} JustBefore(m: Mem, chains: Chains, p: Ptr, z: nat, idle: nat)
    requires Linked(m, chains) && TotLens(m) && p in m && z < |From(chains, Some(p))| && From(chains, Some(p))[z] in m
    requires EmptyBefore(m, From(chains, Some(p)), z, idle)
    ensures var c := From(chains, Some(p)); c[z - 1] in m && m[c[z - 1]].data == []
  {
    hide Linked, TotLens;
    var c := From(chains, Some(p));
    AtPlace(m, chains, p, z);
    AtPlace(m, chains, p, z - 1);
    AtPlace(m, chains, p, z - idle - 1);
    Later(m, chains, p, c[z - idle - 1], c[z - 1]);
    Later(m, chains, p, c[z - 1], c[z]);
  }

  /** A source with no bytes left, but a pbuf. */
  lemma {:induction false} DoneIsPair(m: Mem, chains: Chains, to: Ptr, from: Ptr, a: Pos, b: Pos, n: nat, start: bool,
                   len: nat, a': Pos, b': Pos)
    requires Round(m, chains, to, from, a, b, n, start, len, a', b')
    requires !start && n == m[from].totLen && SourceFits(m, chains, to, from)
    ensures Pair(m, chains, to, from)
  {
    TotStep(m, b.q.value);
    TotStep(m, from);
    LeftOf(m, chains, from, b.q.value);
    NothingLeft(m, chains, from, b.q.value);
  }

  lemma {:induction false} TargetExit(m: Mem, chains: Chains, to: Ptr, from: Ptr, a: Pos, b: Pos, n: nat, start: bool,
                   len: nat, a': Pos, b': Pos)
    requires Round(m, chains, to, from, a, b, n, start, len, a', b')
    requires From(chains, Some(to)) != [] && Landing(m, chains, to, from, a, b, start)
    requires Queue(m, a'.q)
    ensures !CopySucceeds(m, chains, to, from)
  {
    hide Linked, TotLens;
    RoundLeft(m, chains, to, from, a, b, n, start, len, a', b');
    QueueIsEmptyEnd(m, chains, to, a'.q.value);
    var c := From(chains, Some(to));
    if LastFull(m, c) > 0 && SourceFits(m, chains, to, from) {
      CameTo(m, chains, to, from, a, b, n, start, len, a', b');
      if m[from].totLen == m[to].totLen - m[c[LastFull(m, c)]].totLen {
        NotIdled(m, chains, to, from, a, b, n, start, len, a', b');
      }
    }
  }

  lemma {:induction false} ShortExit(m: Mem, chains: Chains, to: Ptr, from: Ptr, a: Pos, b: Pos, n: nat, start: bool,
                   len: nat, a': Pos, b': Pos)
    requires Round(m, chains, to, from, a, b, n, start, len, a', b')
    requires From(chains, Some(to)) != [] && Landing(m, chains, to, from, a, b, start)
    requires a'.q.None? && b'.q.Some?
    ensures !CopySucceeds(m, chains, to, from)
  {
    hide Linked, TotLens;
    RoundLeft(m, chains, to, from, a, b, n, start, len, a', b');
    ShortLeaves(m, chains, to, from, a, b, n, start, len, a', b');
    if SourceFits(m, chains, to, from) {
      PairTotals(m, chains, to, from, b'.q.value);
      FullBeforeEnd(m, chains, to);
      if !start { PairEnds(m, chains, to, from, a, b, n, start, len, a', b'); }
    }
  }

  /** After the last round the target cursor stands that many pbufs behind the place where the
      source ended. */
  lemma {:induction false} Idled(m: Mem, chains: Chains, to: Ptr, from: Ptr, a: Pos, b: Pos, n: nat)
    requires Linked(m, chains) && TotLens(m) && Walk(m, chains, to, from, a, b, n, false) && b.q.None? && a.q.Some?
    requires From(chains, Some(to)) != [] && Landing(m, chains, to, from, a, b, false)
    requires a.q.value in m && m[a.q.value].data == []
    ensures var c, idle := From(chains, Some(to)), IdleRounds(m, chains, from);
            && idle <= |c| - Left(chains, a) < |c| && c[|c| - Left(chains, a) - idle] in m
            && m[c[|c| - Left(chains, a) - idle]].totLen == m[a.q.value].totLen
  {
    hide Linked, TotLens;
    var c, idle, x := From(chains, Some(to)), IdleRounds(m, chains, from), a.q.value;
    LeftOf(m, chains, to, x);
    ChainIs(m, chains, to);
    var i: nat := |c| - Left(chains, a);
    AtPlace(m, chains, to, i);
    Later(m, chains, to, x, c[i]);
    Later(m, chains, to, to, x);
    if EmptyEnd(m, chains, from) {
      PairIdled(m, chains, to, from, a, b, n);
    }
    AtPlace(m, chains, to, i - idle);
    Later(m, chains, to, c[i - idle], x);
    Later(m, chains, to, to, c[i - idle]);
    if i > idle > 0 && EmptyEnd(m, chains, from) {
      var y := m[to].next.value;
      ChainIs(m, chains, y);
      Later(m, chains, to, y, c[i - idle]);
    }
  }

  lemma {:induction false} PairIdled(m: Mem, chains: Chains, to: Ptr, from: Ptr, a: Pos, b: Pos, n: nat)
    requires Linked(m, chains) && TotLens(m) && Walk(m, chains, to, from, a, b, n, false) && b.q.None? && a.q.Some?
    requires From(chains, Some(to)) != [] && Landing(m, chains, to, from, a, b, false) && EmptyEnd(m, chains, from)
    requires a.q.value in m && m[a.q.value].data == []
    ensures Left(chains, a) + 2 <= |From(chains, Some(to))|
    ensures m[to].next.Some? && m[to].next.value in m && m[to].next.value in From(chains, Some(to))
    ensures m[m[to].next.value].totLen == m[a.q.value].totLen && m[from].totLen == |m[to].data|
  {
    hide Linked, TotLens;
    WalkEnds(m, chains, to, from, a, b, n);
    ChainIs(m, chains, from);
    LastButOne(m, chains, from, from);
    ChainIs(m, chains, to);
    TotStep(m, to);
    LeftOf(m, chains, to, a.q.value);
    Later(m, chains, to, to, a.q.value);
    var y := m[to].next.value;
    ChainIs(m, chains, y);
    TotStep(m, y);
    assert y in From(chains, Some(to));
    Later(m, chains, to, y, a.q.value);
  }

  lemma {:induction false} LandingEnds(m: Mem, chains: Chains, to: Ptr, from: Ptr, a: Pos, b: Pos, n: nat)
    requires Linked(m, chains) && TotLens(m) && Walk(m, chains, to, from, a, b, n, false) && b.q.None?
    requires From(chains, Some(to)) != [] && Landing(m, chains, to, from, a, b, false)
    ensures CopySucceeds(m, chains, to, from) && n == m[from].totLen
  {
    hide Linked, TotLens;
    WalkEnds(m, chains, to, from, a, b, n);
    var c := From(chains, Some(to));
    var z, idle := LastFull(m, c), IdleRounds(m, chains, from);
    if EmptyEnd(m, chains, to) && z > 0 {
      AtPlace(m, chains, to, z);
      Later(m, chains, to, a.q.value, c[z]);
      if m[from].totLen >= m[to].totLen - m[c[z]].totLen {
        Idled(m, chains, to, from, a, b, n);
        AtPlace(m, chains, to, z - idle - 1);
        AtPlace(m, chains, to, |c| - Left(chains, a) - idle);
        Later(m, chains, to, c[|c| - Left(chains, a) - idle], c[z - idle - 1]);
        Later(m, chains, to, c[z - idle - 1], c[z]);
      }
    }
  }

  /** A round moves at least one cursor on to the next pbuf, and copies bytes the source has. */
  lemma {:induction false} RoundMoves(m: Mem, chains: Chains, to: Ptr, from: Ptr, a: Pos, b: Pos, n: nat, start: bool, len: nat)
    requires Linked(m, chains) && TotLens(m) && Walk(m, chains, to, from, a, b, n, start) && a.q.Some? && b.q.Some?
    requires len == Min(|m[a.q.value].data| - a.off, |m[b.q.value].data| - b.off)
    ensures var a', b' := Ahead(m, a.q.value, a.off + len), Ahead(m, b.q.value, b.off + len);
            Round(m, chains, to, from, a, b, n, start, len, a', b')
            && |From(chains, a'.q)| + |From(chains, b'.q)| < |From(chains, a.q)| + |From(chains, b.q)|
            && n + len <= m[from].totLen
  {
    AheadCursor(m, chains, to, a.q.value, a.off, n, len);
    AheadCursor(m, chains, from, b.q.value, b.off, n, len);
    TotStep(m, b.q.value);
    ChainIs(m, chains, a.q.value);
    ChainIs(m, chains, b.q.value);
  }

  /** All the loop knows each time around. */
  ghost predicate OnWay(m: Mem, chains: Chains, to: Ptr, from: Ptr, a: Pos, b: Pos, n: nat, start: bool) {
    && Walk(m, chains, to, from, a, b, n, start)
    && From(chains, Some(to)) != [] && Landing(m, chains, to, from, a, b, start)
  }

  lemma {:induction false} OnWayStarts(m: Mem, chains: Chains, to: Ptr, from: Ptr)
    requires Linked(m, chains) && TotLens(m) && to in m && from in m && m[from].totLen <= m[to].totLen
    ensures OnWay(m, chains, to, from, Pos(Some(to), 0), Pos(Some(from), 0), 0, true)
  {
    hide Linked, TotLens, Landing, Walk;
    WalkStarts(m, chains, to, from);
    LandingStarts(m, chains, to, from);
  }

  lemma {:induction false} OnWayAt(m: Mem, chains: Chains, to: Ptr, from: Ptr, a: Pos, b: Pos, n: nat, start: bool)
    requires OnWay(m, chains, to, from, a, b, n, start) && a.q.Some? && b.q.Some?
    ensures to in m && a.q.value in m && a.q.value in From(chains, Some(to)) && a.off <= |m[a.q.value].data|
    ensures from in m && b.q.value in m && b.q.value in From(chains, Some(from)) && b.off <= |m[b.q.value].data|
    ensures n == m[to].totLen - m[a.q.value].totLen + a.off == m[from].totLen - m[b.q.value].totLen + b.off
  {
    hide Landing;
    WalkAt(m, chains, to, from, a, b, n, start);
  }

  lemma {:induction false} OnWayEnds(m: Mem, chains: Chains, to: Ptr, from: Ptr, a: Pos, b: Pos, n: nat)
    requires Linked(m, chains) && TotLens(m) && OnWay(m, chains, to, from, a, b, n, false) && b.q.None?
    ensures to in m && from in m && CopySucceeds(m, chains, to, from) && n == m[from].totLen
  {
    hide Linked, TotLens, Landing;
    LandingEnds(m, chains, to, from, a, b, n);
  }

  lemma {:induction false} NoSource(m: Mem, chains: Chains, to: Ptr, from: Ptr)
    requires to in m && from in m && !SourceFits(m, chains, to, from)
    ensures !CopySucceeds(m, chains, to, from)
  {
  }

  /** The bytes of a pbuf within those of its packet. */
  lemma {:induction false} SliceAt(m: Mem, chains: Chains, p: Ptr, x: Ptr, off: nat, len: nat)
    requires Linked(m, chains) && TotLens(m) && p in m && x in m && x in From(chains, Some(p))
    requires off + len <= |m[x].data|
    ensures var n := m[p].totLen - m[x].totLen + off;
            0 <= n && n + len <= |Content(m, chains, Some(p))|
            && Content(m, chains, Some(p))[n..n + len] == m[x].data[off..off + len]
  {
    hide Linked, TotLens, Content;
    var front, rest := Around(m, chains, p, x);
    AroundContent(m, chains, p, x, front, rest);
    MiddleSlice(Bytes(m, front), m[x].data, Bytes(m, rest), off, len);
  }

  lemma {:induction false} MiddleSlice(a: seq<byte>, d: seq<byte>, b: seq<byte>, off: nat, len: nat)
    requires off + len <= |d|
    ensures (a + d + b)[|a| + off..|a| + off + len] == d[off..off + len]
  {
  }
}
