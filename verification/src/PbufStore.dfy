/**
 The operations of pbuf.c that change chains, in place, on pbufs from the pool: each does to
 memory what its function in PbufRuns says.
 */
module PbufStore {
  import opened Common
  import opened Pbuf
  import opened PbufRefs
  import opened PbufOps
  import opened PbufShape
  import opened PbufRuns

  /** q heads a chain of the pbufs c. */
  ghost predicate Path(mem: Mem, q: Option<Ptr>, c: seq<Ptr>) {
    && NoRepeat(c)
    && q == (if c == [] then None else Some(c[0]))
    && forall i | 0 <= i < |c| :: PathAt(mem, c, i)
  }

  ghost predicate PathAt(mem: Mem, c: seq<Ptr>, i: nat)
    requires i < |c|
  {
    c[i] in mem && mem[c[i]].refs >= 1 && mem[c[i]].next == if i + 1 < |c| then Some(c[i + 1]) else None
  }

  lemma {:induction false} PathRest(mem: Mem, c: seq<Ptr>)
    requires c != [] && Path(mem, Some(c[0]), c)
    ensures c[0] in mem && mem[c[0]].refs >= 1 && Path(mem - {c[0]}, mem[c[0]].next, c[1..])
  {
    var rest := c[1..];
    assert PathAt(mem, c, 0);
    forall i | 0 <= i < |rest| ensures PathAt(mem - {c[0]}, rest, i) {
      assert PathAt(mem, c, i + 1);
    }
  }

  /** The chain of a pbuf is a path. */
  lemma {:induction false} ChainIsPath(mem: Mem, chains: Chains, held: Held, q: Option<Ptr>)
    requires Linked(mem, chains) && Counted(mem, held) && (q.Some? ==> q.value in mem)
    ensures Path(mem, q, From(chains, q))
  {
    if q.Some? {
      var c := chains[q.value];
      var rest := LinkOf(mem, chains, q.value);
      ChainsDoNotRepeat(mem, chains, q.value);
      forall i | 0 <= i < |c| ensures PathAt(mem, c, i) { ChainStep(mem, chains, held, q.value, i); }
    }
  }

  lemma {:induction false} ChainStep(mem: Mem, chains: Chains, held: Held, p: Ptr, i: nat)
    requires Linked(mem, chains) && Counted(mem, held) && p in mem && i < |chains[p]|
    ensures PathAt(mem, chains[p], i)
  {
    var c := chains[p];
    SuffixOf(mem, chains, p, i);
    assert CountedAt(mem, held, c[i]);
    var rest := LinkOf(mem, chains, c[i]);
    assert c[i..][1..] == rest;
    if mem[c[i]].next.Some? {
      var r := LinkOf(mem, chains, mem[c[i]].next.value);
      assert rest[0] == c[i + 1];
    }
  }

  /** A free list with the first k of c pushed to its front one by one. */
  function Pushed(free: seq<Ptr>, c: seq<Ptr>, k: nat): seq<Ptr>
    requires k <= |c|
  {
    if k == 0 then free else [c[k - 1]] + Pushed(free, c, k - 1)
  }

  lemma {:induction false} PushedFirst(free: seq<Ptr>, c: seq<Ptr>, k: nat)
    requires 0 < k <= |c|
    ensures Pushed(free, c, k) == Pushed([c[0]] + free, c[1..], k - 1)
  {
    if k > 1 { PushedFirst(free, c, k - 1); }
  }

  lemma {:induction false} PushOne(x: Ptr, a: seq<Ptr>, free: seq<Ptr>, b: seq<Ptr>)
    requires multiset(a) == multiset(free) + multiset(b)
    ensures multiset([x] + a) == multiset(free) + multiset(b + [x])
  {
  }

  lemma {:induction false} PushedHas(free: seq<Ptr>, c: seq<Ptr>, k: nat)
    requires k <= |c|
    ensures multiset(Pushed(free, c, k)) == multiset(free) + multiset(c[..k])
  {
    if k > 0 {
      PushedHas(free, c, k - 1);
      assert c[..k] == c[..k - 1] + [c[k - 1]];
      PushOne(c[k - 1], Pushed(free, c, k - 1), free, c[..k - 1]);
    } else {
      assert c[..k] == [];
    }
  }

  lemma {:induction false} FreedAtMost(mem: Mem, c: seq<Ptr>)
    ensures Freed(mem, c) <= |c|
    decreases |c|
  {
    if c != [] && c[0] in mem && mem[c[0]].refs == 1 { FreedAtMost(mem - {c[0]}, c[1..]); }
  }

  class Buffers {
    const bufSize: nat
    var mem: Mem
    var free: seq<Ptr>
    ghost var chains: Chains
    ghost var held: Held
    ghost const pool: set<Ptr>

    /** The world of PbufRuns. */
    ghost function W(): World
      reads this
    {
      World(mem, chains, held)
    }

    /** Every pbuf of the pool is allocated once or free once. */
    ghost predicate Conserved()
      reads this
    {
      multiset(free) + multiset(mem.Keys) == multiset(pool)
    }

    ghost predicate Valid()
      reads this
    {
      bufSize > 0 && Good(W()) && Conserved()
    }

    constructor (bufSize: nat, ids: seq<Ptr>)
      requires bufSize > 0 && NoRepeat(ids)
      ensures Valid() && W() == EMPTY && free == ids && pool == Elements(ids) && this.bufSize == bufSize
    {
      this.bufSize := bufSize;
      mem, free, chains, held, pool := map[], ids, map[], multiset{}, Elements(ids);
      NoRepeatCounts(ids);
    }

    /** pbuf_free, for a reference to the head of the chain c; the count is an u8_t. */
    method Release(p: Option<Ptr>, ghost c: seq<Ptr>) returns (count: nat)
      requires Path(mem, p, c)
      modifies this`mem, this`free
      ensures mem == Released(old(mem), c) && count == Freed(old(mem), c) % 256
      ensures Freed(old(mem), c) <= |c| && free == Pushed(old(free), c, Freed(old(mem), c))
    {
      hide Path, Released, Freed, Pushed;
      var q := p;
      count := 0;
      ghost var d, n: nat := c, 0;
      FreedAtMost(mem, c);
      while q.Some?
        invariant Path(mem, q, d) && Freed(mem, d) <= |d|
        invariant Released(mem, d) == Released(old(mem), c)
        invariant n + Freed(mem, d) == Freed(old(mem), c) && count == n % 256
        invariant Pushed(free, d, Freed(mem, d)) == Pushed(old(free), c, Freed(old(mem), c))
        decreases |d|
      {
        PathHead(mem, q, d);
        PathRest(mem, d);
        ReleaseStep(mem, d);
        var ref := mem[q.value].refs - 1;
        if ref == 0 {
          var next := mem[q.value].next;
          FreedAtMost(mem - {q.value}, d[1..]);
          PushedFirst(free, d, Freed(mem, d));
          AddModulo(n, 1, 256);
          mem := mem - {q.value};
          free := [q.value] + free;
          count := (count + 1) % 256;
          n := n + 1;
          d := d[1..];
          q := next;
        } else {
          NothingPushed(free, d);
          mem := mem[q.value := mem[q.value].(refs := ref)];
          d := [];
          q := None;
          NoPath(mem);
          NothingReleased(mem);
          NothingPushed(free, d);
        }
      }
      PathEnd(mem, d);
      NothingReleased(mem);
      NothingPushed(free, d);
    }

    /** pbuf_free: the program gives up a reference. */
    method Free(p: Ptr) returns (count: nat)
      requires Valid() && p in held && p in chains
      modifies this
      ensures Valid() && W() == Apply(old(W()), Op.Free(p))
      ensures count == Freed(old(mem), old(chains)[p]) % 256
    {
      hide Tied, Linked, Released, Freed;
      HeadPath(mem, chains, held, p);
      StepKeeps(W(), Op.Free(p));
      ReleaseConserves(mem, free, chains[p]);
      count := Release(Some(p), chains[p]);
      held, chains := held - multiset{p}, Kept(chains, mem);
    }

    /** pbuf_ref */
    method Ref(p: Ptr)
      requires Valid() && Legal(W(), Op.Ref(p))
      modifies this
      ensures Valid() && W() == Apply(old(W()), Op.Ref(p)) && free == old(free)
    {
      hide Good;
      StepKeeps(W(), Op.Ref(p));
      assert mem[p := mem[p].(refs := mem[p].refs + 1)].Keys == mem.Keys;
      mem := mem[p := mem[p].(refs := mem[p].refs + 1)];
      held := held + multiset{p};
    }

    /** pbuf_cat: walks to the last pbuf, adding the tail's length on the way. */
    method Cat(h: Ptr, t: Ptr)
      requires Valid() && Legal(W(), Op.Cat(h, t))
      modifies this
      ensures Valid() && W() == Apply(old(W()), Op.Cat(h, t)) && free == old(free)
    {
      hide Good;
      StepKeeps(W(), Op.Cat(h, t));
      Join(h, t);
      chains, held := JoinedChains(chains, chains[h], t), held - multiset{t};
    }

    /** pbuf_chain */
    method Chain(h: Ptr, t: Ptr)
      requires Valid() && Legal(W(), Op.Chain(h, t))
      modifies this
      ensures Valid() && W() == Apply(old(W()), Op.Chain(h, t)) && free == old(free)
    {
      hide Good;
      StepKeeps(W(), Op.Chain(h, t));
      Join(h, t);
      assert mem[t := mem[t].(refs := mem[t].refs + 1)].Keys == mem.Keys;
      mem := mem[t := mem[t].(refs := mem[t].refs + 1)];
      chains := JoinedChains(chains, chains[h], t);
    }

    method Join(h: Ptr, t: Ptr)
      requires Good(W()) && JoinLegal(W(), h, t)
      modifies this`mem
      ensures mem == Joined(old(mem), chains[h], t)
    {
      hide Tied, Linked, Joined, Private;
      var p := h;
      ghost var c, front: seq<Ptr>, m := chains[h], [], mem;
      AliveChain(m, chains, held, h);
      AliveChain(m, chains, held, t);
      assert t in chains[t] && t !in c;
      assert c[0] == h && c[|front|..] == c;
      while mem[p].next.Some?
        invariant |front| < |c| && front == c[..|front|] && c[|front|] == p
        invariant Bumped(m, mem, front, m[t].totLen) && p in mem && t in mem && mem[t] == m[t]
        decreases |c| - |front|
      {
        BumpOne(m, mem, c, |front|, m[t].totLen);
        assert PathAt(m, c, |front|);
        mem := mem[p := mem[p].(totLen := mem[p].totLen + mem[t].totLen)];
        front := c[..|front| + 1];
        p := mem[p].next.value;
        assert PathAt(m, c, |front|);
      }
      assert PathAt(m, c, |front|);
      assert |front| + 1 == |c|;
      BumpLast(m, mem, c, t);
      mem := mem[p := mem[p].(totLen := mem[p].totLen + mem[t].totLen, next := Some(t))];
    }

    /** pbuf_dechain: it returns the rest, or NULL if that was freed, unless just a multiple of
        256 pbufs were freed. */
    method Dechain(p: Ptr) returns (r: Option<Ptr>)
      requires Valid() && Legal(W(), Op.Dechain(p))
      modifies this
      ensures Valid() && W() == Apply(old(W()), Op.Dechain(p))
      ensures var next, freed := old(mem)[p].next, Freed(Cut(old(mem), p), From(old(chains), old(mem)[p].next));
              (r == if next.Some? && next.value in mem then next else None) <==> freed % 256 != 0 || freed == 0
    {
      hide Tied, Linked, Released, Freed, Kept, Cut, Truncated, Pushed;
      ghost var m, d := mem, From(chains, mem[p].next);
      StepKeeps(W(), Op.Dechain(p));
      CutPath(mem, chains, held, p);
      CutKeysSame(mem, p);
      FreedHead(Cut(mem, p), d);
      ReleaseConserves(Cut(mem, p), free, d);
      var q, tailGone := mem[p].next, 1;
      CutOff(p);
      if q.Some? {
        tailGone := Release(q, d);
      }
      r := if tailGone > 0 then None else q;
      assert mem == Dechained(m, chains, p);
      chains := Kept(Truncated(chains, p), mem);
    }

    method CutOff(p: Ptr)
      requires p in mem && (mem[p].next.Some? ==> mem[p].next.value in mem && mem[p].next.value != p)
      modifies this`mem
      ensures mem == Cut(old(mem), p) && mem.Keys == old(mem).Keys
    {
      hide CutPbuf;
      ghost var m := mem;
      CutKeysSame(mem, p);
      var q := mem[p].next;
      if q.Some? {
        mem := mem[q.value := mem[q.value].(totLen := (mem[p].totLen - |mem[p].data|) % M16)];
        mem := mem[p := mem[p].(next := None, totLen := |mem[p].data|)];
      }
      forall x | x in m ensures mem[x] == Cut(m, p)[x] { CutAtEach(m, p, x); }
      MapSame(mem, Cut(m, p));
    }

    /** pbuf_realloc: shrinks a packet to its first newLen bytes; it never grows one. */
    method Realloc(p: Ptr, newLen: nat)
      requires Valid() && Legal(W(), Op.Realloc(p, newLen))
      modifies this
      ensures Valid() && W() == Apply(old(W()), Op.Realloc(p, newLen))
    {
      hide Tied, Linked, Released, Freed, Kept, Owned, Realloced, ReallocedChains, Shrunk, CutAt, Path;
      StepKeeps(W(), Op.Realloc(p, newLen));
      if newLen >= mem[p].totLen {
        return;
      }
      ghost var m, cs := mem, chains;
      ghost var cut, k := ReallocCut(m, cs, held, p, newLen);
      EnoughContent(m, cs, p, newLen);
      var q := Shorten(p, newLen);
      RestPath(m, cs, held, p, newLen, mem, q);
      GiveUpRest(q, cut.rest[1..]);
      chains := ReallocedChains(m, cs, p, newLen);
    }

    /** What follows q is given up. */
    method GiveUpRest(q: Ptr, ghost rest: seq<Ptr>)
      requires q in mem && q !in rest && Path(mem, mem[q].next, rest) && Conserved()
      modifies this`mem, this`free
      ensures mem == Released(old(mem)[q := old(mem)[q].(next := None)], rest) && Conserved()
    {
      hide Released, Freed, Path, Pushed;
      ReleasedAround(mem, rest, q, mem[q].(next := None));
      ReleaseConserves(mem, free, rest);
      if mem[q].next.Some? {
        var _ := Release(mem[q].next, rest);
      } else {
        PathEnd(mem, rest);
        NothingReleased(mem);
      }
      assert mem[q := mem[q].(next := None)].Keys == mem.Keys;
      mem := mem[q := mem[q].(next := None)];
    }

    /** Up to the new last pbuf, which is returned: lengths, but not yet its next field. */
    method Shorten(p: Ptr, newLen: nat) returns (q: Ptr)
      requires Good(W()) && p in mem && p in chains && chains.Keys == mem.Keys && chains[p] != []
      requires newLen < mem[p].totLen && Enough(mem, chains[p], newLen)
      modifies this`mem
      ensures mem.Keys == old(mem).Keys && q == CutAt(old(mem), chains[p], newLen).rest[0] && q in old(mem)
      ensures mem[q].next == old(mem)[q].next
      ensures var cut := CutAt(old(mem), chains[p], newLen);
              mem[q := mem[q].(next := None)] == Shrunk(old(mem), chains, p, |cut.rest|, cut.rem, old(mem)[p].totLen - newLen)
    {
      hide Tied, Linked, CutAt, Shrunk, Lowered, Path, NoRepeat, Enough;
      ghost var m, c := mem, chains[p];
      var less: nat, rem: nat := mem[p].totLen - newLen, newLen;
      q := p;
      ghost var i: nat := 0;
      AliveChain(m, chains, held, p);
      UniqueChain(m, chains, held, p);
      NoneLowered(m, c, less);
      while rem > |mem[q].data|
        invariant i < |c| && c[i] == q && q in mem && q in m && Enough(m, c[i..], rem)
        invariant Lowered(m, mem, c[..i], less) && mem[q] == m[q]
        invariant CutAt(m, c[i..], rem) == CutAt(m, c, newLen)
        decreases |c| - i
      {
        NotLast(m, chains, held, p, i, rem);
        LowerOne(m, mem, c, i, less);
        rem := rem - |mem[q].data|;
        mem := mem[q := mem[q].(totLen := (mem[q].totLen - less) % M16)];
        q := mem[q].next.value;
        i := i + 1;
        FreshNext(m, mem, c, i, less);
      }
      LastPiece(m, chains, held, p, i, rem);
      ShrunkIs(m, chains, held, p, i, rem, less, mem);
      LoweredKeys(m, mem, c[..i], less);
      CutInTwo(mem, q, rem);
      mem := mem[q := mem[q].(data := mem[q].data[..rem], totLen := rem)];
    }

    /** pbuf_alloc for PBUF_POOL: a chain of pool pbufs for length bytes, headroom bytes being
        kept free in the first, or nothing at all if the pool has too few. */
    method Alloc(length: nat, headroom: nat) returns (p: Option<Ptr>, ghost datas: seq<seq<byte>>)
      requires Valid() && length < M16 && headroom < bufSize
      modifies this
      ensures Valid() && (p.None? <==> |Sizes(length, headroom, bufSize)| > |old(free)|)
      ensures p.None? ==> W() == old(W()) && multiset(free) == multiset(old(free))
      ensures p.Some? ==> SizedAs(datas, Sizes(length, headroom, bufSize)) && |datas| <= |old(free)|
      ensures p.Some? ==> Total(datas) == length
      ensures p.Some? ==> var ids := old(free)[..|datas|];
                Legal(old(W()), Op.Alloc(ids, datas)) && W() == Apply(old(W()), Op.Alloc(ids, datas))
                && p == Some(ids[0]) && free == old(free)[|datas|..]
    {
      hide Tied, Linked, Strung, StrungChains, Sizes, Lens, Unused, Total, Conserved, SizedSoFar, SizedAs;
      ghost var m, f, sizes := mem, free, Sizes(length, headroom, bufSize);
      datas := [];
      SizesCount(length, headroom, bufSize);
      if free == [] {
        return None, [];
      }
      var r, rem;
      r, rem, datas := First(length, headroom);
      p := Some(r);
      while rem > 0
        invariant Growing(m, f, datas, length, sizes, rem, r) && p == Some(f[0])
        invariant chains == old(chains) && held == old(held)
        decreases rem
      {
        if free == [] {
          TooFew(datas, sizes, rem, bufSize);
          GiveBack(m, f, datas, length, p.value);
          return None, datas;
        }
        r, rem, datas := Another(m, f, datas, length, sizes, rem, r);
      }
      SizedEnd(datas, sizes, rem, bufSize);
      ghost var ids := f[..|datas|];
      UnusedPrefix(m, f, |datas|);
      StepKeeps(old(W()), Op.Alloc(ids, datas));
      StrungConserves(m, f, datas, length);
      chains, held := StrungChains(chains, ids), held + multiset{ids[0]};
      StillConserved(m, f);
    }

    lemma {:induction false} StillConserved(m: Mem, f: seq<Ptr>)
      requires multiset(free) + multiset(mem.Keys) == multiset(f) + multiset(m.Keys) == multiset(pool)
      ensures Conserved()
    {
    }

    /** While pbuf_alloc is under way: the first pbufs of the former free list f are strung
        together on the former memory m. */
    ghost predicate Growing(m: Mem, f: seq<Ptr>, datas: seq<seq<byte>>, length: nat, sizes: seq<nat>, rem: int, r: Ptr)
      reads this
    {
      && bufSize > 0 && Unused(m, f) && multiset(f) + multiset(m.Keys) == multiset(pool)
      && 0 < |datas| <= |f| && r == f[|datas| - 1] && r in mem && free == f[|datas|..]
      && mem == Strung(m, f[..|datas|], datas, length)
      && rem >= 0 && rem == length - Total(datas) && SizedSoFar(datas, sizes, rem, bufSize)
    }

    method First(length: nat, headroom: nat) returns (r: Ptr, rem: int, ghost datas: seq<seq<byte>>)
      requires headroom < bufSize && Conserved() && free != []
      modifies this`mem, this`free
      ensures Growing(old(mem), old(free), datas, length, Sizes(length, headroom, bufSize), rem, r)
      ensures r == old(free)[0]
    {
      hide Strung, Sizes, Lens, Total, SizedSoFar;
      FreshIds(mem, free, pool);
      var d: seq<byte> := Junk(Min(length, bufSize - headroom));
      r := free[0];
      datas := [d];
      StrungOne(mem, free, d, length);
      SizesStart(length, headroom, bufSize, datas);
      mem := mem[r := Pbuf(None, d, length, 1)];
      free := free[1..];
      rem := length - |d|;
    }

    method Another(ghost m: Mem, ghost f: seq<Ptr>, ghost datas: seq<seq<byte>>, ghost length: nat,
                   ghost sizes: seq<nat>, rem: int, r: Ptr)
      returns (r': Ptr, rem': int, ghost datas': seq<seq<byte>>)
      requires Growing(m, f, datas, length, sizes, rem, r) && rem > 0 && free != []
      modifies this`mem, this`free
      ensures Growing(m, f, datas', length, sizes, rem', r') && rem' < rem
    {
      hide Strung, Lens, Total, SizedSoFar, Unused;
      r' := free[0];
      var d: seq<byte> := Junk(Min(rem, bufSize));
      StringNext(m, f, datas, length, d);
      SizedNext(datas, sizes, rem, bufSize, d);
      mem := mem[r' := Pbuf(None, d, rem, 1)];
      mem := mem[r := mem[r].(next := Some(r'))];
      free := free[1..];
      datas', rem' := datas + [d], rem - |d|;
    }

    method GiveBack(ghost m: Mem, ghost f: seq<Ptr>, ghost datas: seq<seq<byte>>, ghost length: nat, p: Ptr)
      requires Unused(m, f) && |f| == |datas| > 0 && p == f[0] && free == []
      requires mem == Strung(m, f[..|datas|], datas, length) && multiset(f) + multiset(m.Keys) == multiset(pool)
      modifies this`mem, this`free
      ensures mem == m && multiset(free) == multiset(f) && Conserved()
    {
      assert f[..|datas|] == f;
      hide Strung, Released, Freed, Path, Pushed;
      StrungPath(m, f, datas, length);
      StrungReleased(m, f, datas, length);
      PushedHas([], f, |f|);
      var _ := Release(Some(p), f);
    }
  }

  /** The contents of a pbuf that was just allocated, whatever they are. */
  method Junk(n: nat) returns (d: seq<byte>)
    ensures |d| == n
  {
    assert |seq(n, i => 0 as byte)| == n;
    d :| |d| == n;
  }

  /** How rem bytes go into pbufs of bufSize bytes. */
  function Lens(rem: nat, bufSize: nat): (r: seq<nat>)
    requires bufSize > 0
  {
    if rem == 0 then [] else [Min(rem, bufSize)] + Lens(rem - Min(rem, bufSize), bufSize)
  }

  function Sizes(length: nat, headroom: nat, bufSize: nat): seq<nat>
    requires headroom < bufSize
  {
    [Min(length, bufSize - headroom)] + Lens(length - Min(length, bufSize - headroom), bufSize)
  }

  ghost predicate SizedAs(datas: seq<seq<byte>>, sizes: seq<nat>) {
    |datas| == |sizes| && forall i | 0 <= i < |datas| :: |datas[i]| == sizes[i]
  }

  /** The first pbufs have their sizes, and those to come are for rem bytes. */
  ghost predicate SizedSoFar(datas: seq<seq<byte>>, sizes: seq<nat>, rem: int, bufSize: nat)
    requires bufSize > 0
  {
    rem >= 0 && |datas| <= |sizes| && SizedAs(datas, sizes[..|datas|]) && sizes[|datas|..] == Lens(rem, bufSize)
  }

  lemma {:induction false} SizesCount(length: nat, headroom: nat, bufSize: nat)
    requires headroom < bufSize
    ensures |Sizes(length, headroom, bufSize)| > 0
  {
  }

  lemma {:induction false} OneMore(n: int, b: int)
    ensures (n + 1) * b == n * b + b
  {
  }

  /** How many pbufs rem bytes take, and that all but the last are full. */
  lemma {:induction false} LensAre(rem: nat, bufSize: nat)
    requires bufSize > 0
    ensures var n := |Lens(rem, bufSize)|;
            if rem == 0 then n == 0 else n > 0 && (n - 1) * bufSize < rem <= n * bufSize
    ensures forall i | 0 <= i < |Lens(rem, bufSize)| ::
              && 0 < Lens(rem, bufSize)[i] <= bufSize
              && (i + 1 < |Lens(rem, bufSize)| ==> Lens(rem, bufSize)[i] == bufSize)
  {
    if rem > bufSize {
      var l, m := Lens(rem, bufSize), Lens(rem - bufSize, bufSize);
      LensAre(rem - bufSize, bufSize);
      assert l == [bufSize] + m;
      hide Lens;
      OneMore(|m|, bufSize);
      OneMore(|m| - 1, bufSize);
      forall i | 0 <= i < |l| ensures 0 < l[i] <= bufSize && (i + 1 < |l| ==> l[i] == bufSize) {
        if i > 0 { assert l[i] == m[i - 1]; }
      }
    } else if rem > 0 {
      assert Lens(rem, bufSize) == [rem];
    }
  }

  /** The pbufs of pbuf_alloc: the first has what its headroom leaves, all but the last are full, and
      there are just as many as the length takes. */
  lemma {:induction false} SizesAre(length: nat, headroom: nat, bufSize: nat)
    requires headroom < bufSize
    ensures var sizes, first := Sizes(length, headroom, bufSize), bufSize - headroom;
            && sizes[0] == Min(length, first)
            && (length <= first ==> |sizes| == 1)
            && (length > first ==> (|sizes| - 2) * bufSize < length - first <= (|sizes| - 1) * bufSize)
            && forall i | 0 < i < |sizes| :: 0 < sizes[i] <= bufSize && (i + 1 < |sizes| ==> sizes[i] == bufSize)
  {
    var sizes, rest := Sizes(length, headroom, bufSize), length - Min(length, bufSize - headroom);
    LensAre(rest, bufSize);
    forall i | 0 < i < |sizes| ensures 0 < sizes[i] <= bufSize && (i + 1 < |sizes| ==> sizes[i] == bufSize) {
      assert sizes[i] == Lens(rest, bufSize)[i - 1];
    }
  }

  lemma {:induction false} SizesStart(length: nat, headroom: nat, bufSize: nat, datas: seq<seq<byte>>)
    requires headroom < bufSize && |datas| == 1 && |datas[0]| == Min(length, bufSize - headroom)
    ensures SizedSoFar(datas, Sizes(length, headroom, bufSize), length - |datas[0]|, bufSize)
    ensures Total(datas) == |datas[0]|
  {
    assert datas[1..] == [];
  }

  lemma {:induction false} TooFew(datas: seq<seq<byte>>, sizes: seq<nat>, rem: int, bufSize: nat)
    requires bufSize > 0 && rem > 0 && SizedSoFar(datas, sizes, rem, bufSize)
    ensures |sizes| > |datas|
  {
  }

  lemma {:induction false} SizedNext(datas: seq<seq<byte>>, sizes: seq<nat>, rem: int, bufSize: nat, d: seq<byte>)
    requires bufSize > 0 && rem > 0 && SizedSoFar(datas, sizes, rem, bufSize) && |d| == Min(rem, bufSize)
    ensures SizedSoFar(datas + [d], sizes, rem - |d|, bufSize) && Total(datas + [d]) == Total(datas) + |d|
  {
    TotalAppend(datas, d);
    var n := |datas|;
    assert sizes[n] == Lens(rem, bufSize)[0];
    assert sizes[n + 1..] == sizes[n..][1..];
  }

  lemma {:induction false} SizedEnd(datas: seq<seq<byte>>, sizes: seq<nat>, rem: int, bufSize: nat)
    requires bufSize > 0 && rem <= 0 && SizedSoFar(datas, sizes, rem, bufSize)
    ensures SizedAs(datas, sizes)
  {
    assert sizes[..|datas|] == sizes;
  }

  /** Free pbufs are distinct and not allocated. */
  lemma {:induction false} FreshIds(mem: Mem, free: seq<Ptr>, pool: set<Ptr>)
    requires multiset(free) + multiset(mem.Keys) == multiset(pool)
    ensures Unused(mem, free)
  {
    forall i, j | 0 <= i < j < |free| ensures free[i] != free[j] {
      TwoIndices(free, i, j);
      assert (multiset(free) + multiset(mem.Keys))[free[i]] <= 1;
    }
    forall x | x in free ensures x !in mem {
      assert multiset(free)[x] >= 1;
      assert (multiset(free) + multiset(mem.Keys))[x] <= 1;
    }
  }

  lemma {:induction false} TwoIndices(s: seq<Ptr>, i: nat, j: nat)
    requires i < j < |s|
    ensures s[i] == s[j] ==> multiset(s)[s[i]] >= 2
  {
    assert s == s[..j] + [s[j]] + s[j + 1..];
    assert s[i] in s[..j];
  }

  lemma {:induction false} UnusedPrefix(mem: Mem, f: seq<Ptr>, n: nat)
    requires Unused(mem, f) && n <= |f|
    ensures Unused(mem, f[..n])
  {
  }

  lemma {:induction false} StrungOne(m: Mem, f: seq<Ptr>, d: seq<byte>, tot: nat)
    requires f != []
    ensures Strung(m, f[..1], [d], tot) == m[f[0] := Pbuf(None, d, tot, 1)]
  {
    assert f[..1] == [f[0]] && [f[0]][1..] == [] && [d][1..] == [];
  }

  lemma {:induction false} StringNext(m: Mem, f: seq<Ptr>, datas: seq<seq<byte>>, tot: nat, d: seq<byte>)
    requires 0 < |datas| < |f| && Unused(m, f) && Total(datas) <= tot
    ensures var before := Strung(m, f[..|datas|], datas, tot); var r := f[|datas| - 1];
            && r in before && r != f[|datas|]
            && Strung(m, f[..|datas| + 1], datas + [d], tot) == Extended(before, r, f[|datas|], d, tot - Total(datas))
    ensures f[|datas|] in Strung(m, f[..|datas| + 1], datas + [d], tot)
  {
    var n := |datas|;
    StrungAppend(m, f[..n], datas, tot, f[n], d);
    assert f[..n + 1] == f[..n] + [f[n]];
  }

  lemma {:induction false} StrungPath(m: Mem, ids: seq<Ptr>, datas: seq<seq<byte>>, tot: nat)
    requires |ids| == |datas| > 0 && Unused(m, ids)
    ensures Path(Strung(m, ids, datas, tot), Some(ids[0]), ids)
    decreases |ids|
  {
    var after := Strung(m, ids, datas, tot);
    if |ids| > 1 {
      var less := if tot >= |datas[0]| then tot - |datas[0]| else 0;
      StrungPath(m, ids[1..], datas[1..], less);
      forall i | 0 < i < |ids| ensures PathAt(after, ids, i) {
        assert PathAt(Strung(m, ids[1..], datas[1..], less), ids[1..], i - 1);
      }
    }
    assert PathAt(after, ids, 0);
  }

  lemma {:induction false} StrungConserves(m: Mem, f: seq<Ptr>, datas: seq<seq<byte>>, tot: nat)
    requires Unused(m, f) && |datas| <= |f|
    ensures multiset(f[|datas|..]) + multiset(Strung(m, f[..|datas|], datas, tot).Keys) == multiset(f) + multiset(m.Keys)
  {
    var ids := f[..|datas|];
    StrungHas(m, ids, datas, tot);
    NoRepeatCounts(ids);
    assert m.Keys !! Elements(ids);
    hide *;
    UnionCounts(m.Keys, Elements(ids));
    SplitCounts(f, |datas|);
  }

  lemma {:induction false} UnionCounts(a: set<Ptr>, b: set<Ptr>)
    requires a !! b
    ensures multiset(a + b) == multiset(a) + multiset(b)
  {
  }

  lemma {:induction false} SplitCounts(f: seq<Ptr>, n: nat)
    requires n <= |f|
    ensures multiset(f) == multiset(f[..n]) + multiset(f[n..])
  {
    assert f == f[..n] + f[n..];
  }

  lemma {:induction false} NoneLowered(m: Mem, c: seq<Ptr>, less: nat)
    ensures Lowered(m, m, c[..0], less) && c[0..] == c
  {
  }

  lemma {:induction false} LoweredKeys(m: Mem, mem: Mem, front: seq<Ptr>, less: nat)
    requires Lowered(m, mem, front, less)
    ensures mem.Keys == m.Keys
  {
  }

  /** The pbufs of front count less bytes. */
  ghost predicate Lowered(m: Mem, mem: Mem, front: seq<Ptr>, less: nat) {
    && mem.Keys == m.Keys
    && forall x | x in m :: mem[x] == if x in front then WithLess(m[x], less) else m[x]
  }

  lemma {:induction false} LowerOne(m: Mem, mem: Mem, c: seq<Ptr>, i: nat, less: nat)
    requires i < |c| && NoRepeat(c) && c[i] in m && Lowered(m, mem, c[..i], less)
    ensures c[i] in mem && mem[c[i]] == m[c[i]]
    ensures Lowered(m, mem[c[i] := mem[c[i]].(totLen := (mem[c[i]].totLen - less) % M16)], c[..i + 1], less)
  {
    assert c[..i + 1] == c[..i] + [c[i]];
    assert c[i] !in c[..i];
  }

  lemma {:induction false} FreshNext(m: Mem, mem: Mem, c: seq<Ptr>, i: nat, less: nat)
    requires i < |c| && NoRepeat(c) && c[i] in m && Lowered(m, mem, c[..i], less)
    ensures c[i] in mem && mem[c[i]] == m[c[i]]
  {
    assert c[i] !in c[..i];
  }

  /** A pbuf with fewer bytes than are still to keep is not the last, and the cut is beyond it. */
  lemma {:induction false} NotLast(m: Mem, chains: Chains, held: Held, p: Ptr, i: nat, rem: nat)
    requires Tied(m, chains, held) && p in m && p in chains && i < |chains[p]|
    requires var x := chains[p][i]; x in m && |m[x].data| < rem && Enough(m, chains[p][i..], rem)
    ensures var c := chains[p]; var x := c[i];
            && i + 1 < |c| && m[x].next == Some(c[i + 1]) && c[i + 1] in m
            && Enough(m, c[i + 1..], rem - |m[x].data|)
            && CutAt(m, c[i..], rem) == CutAt(m, c[i + 1..], rem - |m[x].data|)
  {
    var c := chains[p];
    var x := c[i];
    assert c[i..][1..] == c[i + 1..] && c[i..][0] == x;
    hide Tied, Linked;
    EnoughRest(m, c[i..], rem);
    hide Bytes, Enough;
    ChainStep(m, chains, held, p, i);
    ChainStep(m, chains, held, p, i + 1);
    assert PathAt(m, c, i) && PathAt(m, c, i + 1);
  }

  /** The pbufs of c hold rem bytes or more. */
  ghost predicate Enough(m: Mem, c: seq<Ptr>, rem: nat) {
    (forall x | x in c :: x in m) && rem <= |Bytes(m, c)|
  }

  lemma {:induction false} EnoughContent(m: Mem, chains: Chains, p: Ptr, newLen: nat)
    requires Linked(m, chains) && p in m && newLen <= |Content(m, chains, Some(p))|
    ensures p in chains && Enough(m, chains[p], newLen)
  {
    ContentIs(m, chains, p);
  }

  lemma {:induction false} EnoughRest(m: Mem, c: seq<Ptr>, rem: nat)
    requires c != [] && Enough(m, c, rem) && c[0] in m && |m[c[0]].data| < rem
    ensures |c| > 1 && Enough(m, c[1..], rem - |m[c[0]].data|)
  {
    assert Bytes(m, c) == m[c[0]].data + Bytes(m, c[1..]);
  }

  lemma {:induction false} LastPiece(m: Mem, chains: Chains, held: Held, p: Ptr, i: nat, rem: nat)
    requires Tied(m, chains, held) && p in m && p in chains && i < |chains[p]| && chains[p][i] in m
    requires rem <= |m[chains[p][i]].data|
    ensures CutAt(m, chains[p][i..], rem) == Cutoff(chains[p][i..], rem)
  {
    SuffixOf(m, chains, p, i);
  }

  /** Lowering what is before the cut, and cutting there, is what Shrunk says. */
  lemma {:induction false} ShrunkIs(m: Mem, chains: Chains, held: Held, p: Ptr, i: nat, rem: nat, less: nat, mem: Mem)
    requires Tied(m, chains, held) && p in m && p in chains && chains.Keys == m.Keys && i < |chains[p]|
    requires Lowered(m, mem, chains[p][..i], less) && chains[p][i] in m && rem <= |m[chains[p][i]].data|
    ensures chains[p][i] in mem && mem[chains[p][i]] == m[chains[p][i]]
    ensures mem[chains[p][i] := CutShort(mem[chains[p][i]], rem)] == Shrunk(m, chains, p, |chains[p]| - i, rem, less)
  {
    hide *;
    var c := chains[p];
    var k, n: nat := c[i], |c| - i;
    UniqueChain(m, chains, held, p);
    FreshNext(m, mem, c, i, less);
    var after, shrunk := mem[k := CutShort(mem[k], rem)], Shrunk(m, chains, p, n, rem, less);
    CutKeys(m, mem, chains, p, i, n, rem, less);
    forall x | x in m ensures after[x] == shrunk[x] {
      Placed(m, chains, held, p, i, x);
      ShrunkCase(m, mem, chains, p, i, n, rem, less, x);
    }
    MapSame(after, shrunk);
  }

  function CutShort(b: Pbuf, rem: nat): Pbuf {
    b.(next := None, data := b.data[..Min(rem, |b.data|)], totLen := rem)
  }

  /** The lengths first and then the next field. */
  lemma {:induction false} CutInTwo(mem: Mem, q: Ptr, rem: nat)
    requires q in mem && rem <= |mem[q].data|
    ensures var b := mem[q].(data := mem[q].data[..rem], totLen := rem);
            mem[q := b].Keys == mem.Keys && mem[q := b][q := b.(next := None)] == mem[q := CutShort(mem[q], rem)]
  {
  }

  lemma {:induction false} UniqueChain(mem: Mem, chains: Chains, held: Held, p: Ptr)
    requires Tied(mem, chains, held) && p in mem && p in chains
    ensures NoRepeat(chains[p])
  {
    ChainsDoNotRepeat(mem, chains, p);
  }

  lemma {:induction false} CutKeys(m: Mem, mem: Mem, chains: Chains, p: Ptr, i: nat, n: nat, rem: nat, less: nat)
    requires p in chains && chains.Keys == m.Keys && i < |chains[p]| && chains[p][i] in m
    requires Lowered(m, mem, chains[p][..i], less)
    ensures mem[chains[p][i] := CutShort(mem[chains[p][i]], rem)].Keys == m.Keys
         && Shrunk(m, chains, p, n, rem, less).Keys == m.Keys
  {
  }

  lemma {:induction false} ShrunkCase(m: Mem, mem: Mem, chains: Chains, p: Ptr, i: nat, n: nat, rem: nat, less: nat, x: Ptr)
    requires p in chains && chains.Keys == m.Keys && x in m && i < |chains[p]| && n == |chains[p]| - i
    requires Lowered(m, mem, chains[p][..i], less) && chains[p][i] in m && rem <= |m[chains[p][i]].data|
    requires x in chains[p][..i] <==> x in chains[p] && |chains[x]| > n
    requires x == chains[p][i] <==> x in chains[p] && |chains[x]| == n
    requires mem[chains[p][i]] == m[chains[p][i]]
    ensures mem[chains[p][i] := CutShort(mem[chains[p][i]], rem)][x] == Shrunk(m, chains, p, n, rem, less)[x]
  {
    assert Shrunk(m, chains, p, n, rem, less)[x] == ShrunkAt(m[x], chains, p, n, rem, less, x);
  }

  /** Where a pbuf stands in relation to the i-th of a chain. */
  lemma {:induction false} Placed(m: Mem, chains: Chains, held: Held, p: Ptr, i: nat, x: Ptr)
    requires Tied(m, chains, held) && p in m && p in chains && x in m && x in chains && i < |chains[p]|
    ensures x in chains[p][..i] <==> x in chains[p] && |chains[x]| > |chains[p]| - i
    ensures x == chains[p][i] <==> x in chains[p] && |chains[x]| == |chains[p]| - i
  {
    var c := chains[p];
    assert Linked(m, chains);
    hide Tied, Linked, Counted;
    if x in c {
      var j :| 0 <= j < |c| && c[j] == x;
      SuffixOf(m, chains, p, j);
      SuffixOf(m, chains, p, i);
      if j < i { assert c[..i][j] == x; }
      if x in c[..i] {
        var l :| 0 <= l < i && c[..i][l] == x;
        SuffixOf(m, chains, p, l);
      }
      if |chains[x]| == |c| - i { assert j == i; }
    }
  }

  /** What is released does not meet a pbuf off the chain. */
  lemma {:induction false} ReleasedAround(mem: Mem, c: seq<Ptr>, k: Ptr, b: Pbuf)
    requires k in mem && k !in c
    ensures k in Released(mem, c) && Released(mem, c)[k] == mem[k]
    ensures Released(mem[k := b], c) == Released(mem, c)[k := b]
    decreases |c|
  {
    if c != [] && c[0] in mem && mem[c[0]].refs == 1 {
      ReleasedAround(mem - {c[0]}, c[1..], k, b);
      assert mem[k := b] - {c[0]} == (mem - {c[0]})[k := b];
    }
  }

  lemma {:induction false} RestPath(m: Mem, chains: Chains, held: Held, p: Ptr, newLen: nat, mem: Mem, q: Ptr)
    requires Tied(m, chains, held) && p in m && p in chains && chains.Keys == m.Keys && chains[p] != []
    requires Linked(m, chains) && newLen < m[p].totLen && newLen <= |Content(m, chains, Some(p))|
    requires var cut := CutAt(m, chains[p], newLen);
             && q == cut.rest[0] && q in m && mem.Keys == m.Keys && mem[q].next == m[q].next
             && mem[q := mem[q].(next := None)] == Shrunk(m, chains, p, |cut.rest|, cut.rem, m[p].totLen - newLen)
    ensures var rest := CutAt(m, chains[p], newLen).rest[1..];
            Path(mem, mem[q].next, rest) && q !in rest
  {
    hide *;
    var cut, k := ReallocCut(m, chains, held, p, newLen);
    var less := m[p].totLen - newLen;
    var rest := RestOf(m, chains, held, q);
    forall x | x in rest ensures x in m && x != q && mem[x] == m[x] {
      RestShorter(m, chains, held, q, x);
      SameAt(m, mem, chains, p, |cut.rest|, cut.rem, less, q, x);
    }
    PathSame(m, mem, m[q].next, rest);
  }

  lemma {:induction false} RestOf(m: Mem, chains: Chains, held: Held, q: Ptr) returns (rest: seq<Ptr>)
    requires Tied(m, chains, held) && q in m && q in chains
    ensures rest == From(chains, m[q].next) && chains[q] != [] && chains[q][1..] == rest && Path(m, m[q].next, rest)
  {
    rest := LinkOf(m, chains, q);
    ChainIsPath(m, chains, held, m[q].next);
  }

  lemma {:induction false} SameAt(m: Mem, mem: Mem, chains: Chains, p: Ptr, n: nat, rem: nat, less: nat, q: Ptr, x: Ptr)
    requires p in chains && chains.Keys == m.Keys && x in m && x != q && q in mem && mem.Keys == m.Keys
    requires |chains[x]| < n && mem[q := mem[q].(next := None)] == Shrunk(m, chains, p, n, rem, less)
    ensures mem[x] == m[x]
  {
    assert Shrunk(m, chains, p, n, rem, less)[x] == ShrunkAt(m[x], chains, p, n, rem, less, x) == m[x];
    assert mem[q := mem[q].(next := None)][x] == mem[x];
  }

  lemma {:induction false} PathSame(m: Mem, mem: Mem, q: Option<Ptr>, c: seq<Ptr>)
    requires Path(m, q, c) && forall x | x in c :: x in m && x in mem && mem[x] == m[x]
    ensures Path(mem, q, c)
  {
    forall i | 0 <= i < |c| ensures PathAt(mem, c, i) { assert PathAt(m, c, i); }
  }

  lemma {:induction false} RestShorter(m: Mem, chains: Chains, held: Held, q: Ptr, x: Ptr)
    requires Tied(m, chains, held) && q in chains && q in m && x in From(chains, m[q].next)
    ensures x in m && x in chains && x != q && |chains[x]| < |chains[q]|
  {
    var rest := LinkOf(m, chains, q);
    RestOmits(m, chains, q, x);
    InChain(m, chains, m[q].next.value, x);
  }

  lemma {:induction false} CutPath(mem: Mem, chains: Chains, held: Held, p: Ptr)
    requires Tied(mem, chains, held) && p in mem && p in chains
    ensures Path(Cut(mem, p), mem[p].next, From(chains, mem[p].next))
    ensures mem[p].next.Some? ==> mem[p].next.value in mem && mem[p].next.value != p
  {
    hide *;
    CutWorld(mem, chains, held, p);
    NextUntouched(mem, chains, held, p);
    InvPath(Cut(mem, p), Truncated(chains, p), PlusNext(held, mem[p].next), mem[p].next);
    SameFrom(chains, Truncated(chains, p), mem[p].next);
  }

  lemma {:induction false} CutWorld(mem: Mem, chains: Chains, held: Held, p: Ptr)
    requires Tied(mem, chains, held) && p in mem && p in chains
    ensures Tied(Cut(mem, p), Truncated(chains, p), PlusNext(held, mem[p].next))
    ensures mem[p].next.Some? ==> var q := mem[p].next.value; q in Cut(mem, p) && q in mem && q != p
  {
    NoSelfLoop(mem, chains, p);
    CutKeysSame(mem, p);
    var rest := LinkOf(mem, chains, p);
    CutSevers(mem, chains, p);
    hide *;
    SeverKeeps(mem, Cut(mem, p), chains, held, p);
  }

  lemma {:induction false} SameFrom(chains: Chains, chains': Chains, q: Option<Ptr>)
    requires q.Some? ==> q.value in chains && q.value in chains' && chains'[q.value] == chains[q.value]
    ensures From(chains', q) == From(chains, q)
  {
  }

  lemma {:induction false} CutKeysSame(mem: Mem, p: Ptr)
    requires p in mem
    ensures Cut(mem, p).Keys == mem.Keys
  {
  }

  lemma {:induction false} CutAtEach(mem: Mem, p: Ptr, x: Ptr)
    requires p in mem && x in mem && (mem[p].next.Some? ==> mem[p].next.value in mem && mem[p].next.value != p)
    ensures x in Cut(mem, p) && Cut(mem, p)[x] == CutPbuf(mem, p, x)
    ensures mem[p].next.None? ==> CutPbuf(mem, p, x) == mem[x]
    ensures mem[p].next.Some? ==>
              CutPbuf(mem, p, x) == if x == p then mem[p].(next := None, totLen := |mem[p].data|)
                                    else if x == mem[p].next.value then mem[x].(totLen := (mem[p].totLen - |mem[p].data|) % M16)
                                    else mem[x]
  {
  }

  lemma {:induction false} InvPath(mem: Mem, chains: Chains, held: Held, q: Option<Ptr>)
    requires Tied(mem, chains, held) && (q.Some? ==> q.value in mem)
    ensures Path(mem, q, From(chains, q))
  {
    ChainIsPath(mem, chains, held, q);
  }

  /** A chain has lost its head exactly if anything was freed. */
  lemma {:induction false} FreedHead(mem: Mem, c: seq<Ptr>)
    requires c != [] ==> c[0] in mem
    ensures c == [] ==> Freed(mem, c) == 0 && Released(mem, c) == mem
    ensures c != [] ==> (c[0] in Released(mem, c) <==> Freed(mem, c) == 0)
  {
    if c != [] && mem[c[0]].refs == 1 { ReleasedShrinks(mem - {c[0]}, c[1..]); }
  }

  /** The pbufs of front count more bytes. */
  ghost predicate Bumped(m: Mem, mem: Mem, front: seq<Ptr>, more: nat) {
    && mem.Keys == m.Keys
    && forall x | x in m :: mem[x] == if x in front then m[x].(totLen := m[x].totLen + more) else m[x]
  }

  lemma {:induction false} BumpOne(m: Mem, mem: Mem, c: seq<Ptr>, i: nat, more: nat)
    requires i < |c| && NoRepeat(c) && c[i] in m && Bumped(m, mem, c[..i], more)
    ensures Bumped(m, mem[c[i] := mem[c[i]].(totLen := mem[c[i]].totLen + more)], c[..i + 1], more)
  {
    assert c[..i + 1] == c[..i] + [c[i]];
    assert c[i] !in c[..i];
  }

  lemma {:induction false} BumpLast(m: Mem, mem: Mem, c: seq<Ptr>, t: Ptr)
    requires c != [] && NoRepeat(c) && LastOf(c) in m && t in m && t !in c && Bumped(m, mem, c[..|c| - 1], m[t].totLen)
    ensures mem[LastOf(c) := mem[LastOf(c)].(totLen := mem[LastOf(c)].totLen + mem[t].totLen, next := Some(t))]
         == Joined(m, c, t)
  {
    assert c == c[..|c| - 1] + [LastOf(c)];
    assert LastOf(c) !in c[..|c| - 1];
  }

  lemma {:induction false} AliveChain(mem: Mem, chains: Chains, held: Held, p: Ptr)
    requires Tied(mem, chains, held) && p in mem
    ensures p in chains && Path(mem, Some(p), chains[p]) && chains[p] != [] && chains[p][0] == p
  {
    ChainIsPath(mem, chains, held, Some(p));
    var rest := LinkOf(mem, chains, p);
  }

  lemma {:induction false} HeadPath(mem: Mem, chains: Chains, held: Held, p: Ptr)
    requires Tied(mem, chains, held) && p in held && p in chains
    ensures Path(mem, Some(p), chains[p])
  {
    ChainIsPath(mem, chains, held, Some(p));
  }

  /** What leaves memory goes to the free list. */
  lemma {:induction false} ReleaseConserves(mem: Mem, free: seq<Ptr>, c: seq<Ptr>)
    ensures Freed(mem, c) <= |c|
    ensures multiset(Pushed(free, c, Freed(mem, c))) + multiset(Released(mem, c).Keys) == multiset(free) + multiset(mem.Keys)
    decreases |c|
  {
    FreedAtMost(mem, c);
    if c != [] && c[0] in mem && mem[c[0]].refs == 1 {
      ReleaseConserves(mem - {c[0]}, [c[0]] + free, c[1..]);
      PushedFirst(free, c, Freed(mem, c));
      assert (mem - {c[0]}).Keys == mem.Keys - {c[0]};
      hide Pushed;
      OneMoved(free, mem.Keys, c[0]);
    } else if c != [] && c[0] in mem && mem[c[0]].refs > 1 {
      assert Released(mem, c).Keys == mem.Keys;
    }
  }

  lemma {:induction false} OneMoved(free: seq<Ptr>, keys: set<Ptr>, p: Ptr)
    requires p in keys
    ensures multiset([p] + free) + multiset(keys - {p}) == multiset(free) + multiset(keys)
  {
    assert multiset([p] + free) == multiset{p} + multiset(free);
    assert multiset(keys) == multiset{p} + multiset(keys - {p});
  }

  lemma {:induction false} NoRepeatCounts(c: seq<Ptr>)
    requires NoRepeat(c)
    ensures multiset(c) == multiset(Elements(c))
  {
    if c != [] {
      NoRepeatCounts(c[1..]);
      assert c == [c[0]] + c[1..];
      assert Elements(c) == {c[0]} + Elements(c[1..]) && c[0] !in Elements(c[1..]);
      hide Elements, NoRepeat;
      UnionCounts({c[0]}, Elements(c[1..]));
      assert multiset(c) == multiset{c[0]} + multiset(c[1..]);
    }
  }

  lemma {:induction false} PathHead(mem: Mem, q: Option<Ptr>, c: seq<Ptr>)
    requires Path(mem, q, c) && q.Some?
    ensures c != [] && c[0] == q.value
  {
  }

  /** One round of pbuf_free. */
  lemma {:induction false} ReleaseStep(mem: Mem, c: seq<Ptr>)
    requires c != [] && c[0] in mem && mem[c[0]].refs >= 1
    ensures mem[c[0]].refs == 1 ==> Released(mem, c) == Released(mem - {c[0]}, c[1..])
    ensures mem[c[0]].refs == 1 ==> Freed(mem, c) == 1 + Freed(mem - {c[0]}, c[1..])
    ensures mem[c[0]].refs != 1 ==> Released(mem, c) == mem[c[0] := mem[c[0]].(refs := mem[c[0]].refs - 1)] && Freed(mem, c) == 0
  {
  }

  lemma {:induction false} NothingPushed(free: seq<Ptr>, c: seq<Ptr>)
    ensures Pushed(free, c, 0) == free
  {
  }

  lemma {:induction false} NothingReleased(mem: Mem)
    ensures Released(mem, []) == mem && Freed(mem, []) == 0
  {
  }

  lemma {:induction false} NoPath(mem: Mem)
    ensures Path(mem, None, [])
  {
  }

  lemma {:induction false} PathEnd(mem: Mem, c: seq<Ptr>)
    requires Path(mem, None, c)
    ensures c == []
  {
  }
}
