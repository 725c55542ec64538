/**
 Pbufs that come and pbufs that go: the chain pbuf_alloc strings together from the pool, and
 the chain pbuf_realloc cuts short.
 */
module PbufShape {
  import opened Common
  import opened Pbuf
  import opened PbufRefs
  import opened PbufOps

  // ---------------------------------------------------------------------
  // pbuf_alloc

  /** A new pbuf in front of a chain whose head the program holds. */
  function Fronted(mem: Mem, a: Ptr, d: seq<byte>, next: Option<Ptr>): Mem {
    mem[a := Pbuf(next, d, |d| + TotOf(mem, next), 1)]
  }

  lemma {:induction false} FrontLinked(mem: Mem, chains: Chains, a: Ptr, d: seq<byte>, next: Option<Ptr>)
    requires Linked(mem, chains) && a !in mem && (next.Some? ==> next.value in mem)
    ensures Linked(Fronted(mem, a, d, next), chains[a := [a] + From(chains, next)])
  {
    var after, chains' := Fronted(mem, a, d, next), chains[a := [a] + From(chains, next)];
    forall x | x in after ensures LinkedAt(after, chains', x) {
      if x != a {
        assert LinkedAt(mem, chains, x);
        FrontLinkedAt(mem, chains, a, d, next, x);
      }
    }
  }

  lemma {:induction false} FrontLinkedAt(mem: Mem, chains: Chains, a: Ptr, d: seq<byte>, next: Option<Ptr>, x: Ptr)
    requires a !in mem && x in mem && LinkedAt(mem, chains, x)
    ensures LinkedAt(Fronted(mem, a, d, next), chains[a := [a] + From(chains, next)], x)
  {
  }

  lemma {:induction false} FrontTotLens(mem: Mem, chains: Chains, a: Ptr, d: seq<byte>, next: Option<Ptr>)
    requires Linked(mem, chains) && TotLens(mem) && a !in mem && (next.Some? ==> next.value in mem)
    requires |d| + TotOf(mem, next) < M16
    ensures TotLens(Fronted(mem, a, d, next))
  {
    var after := Fronted(mem, a, d, next);
    forall x | x in after ensures TotAt(after, x) {
      if x != a {
        TotStep(mem, x);
        NoSelfLoop(mem, chains, x);
        FrontTotAt(mem, a, d, next, x);
      }
    }
  }

  lemma {:induction false} FrontTotAt(mem: Mem, a: Ptr, d: seq<byte>, next: Option<Ptr>, x: Ptr)
    requires a !in mem && x in mem && TotAt(mem, x) && (mem[x].next.Some? ==> mem[x].next.value in mem)
    ensures TotAt(Fronted(mem, a, d, next), x)
  {
  }

  lemma {:induction false} FrontPreds(mem: Mem, a: Ptr, d: seq<byte>, next: Option<Ptr>, x: Ptr)
    requires a !in mem
    ensures |Preds(Fronted(mem, a, d, next), x)| == |Preds(mem, x)| + (if next == Some(x) then 1 else 0)
  {
    assert Preds(Fronted(mem, a, d, next), x) == Preds(mem, x) + (if next == Some(x) then {a} else {});
  }

  /** The program's reference to the chain becomes the new pbuf's, and it holds the new pbuf. */
  function HeldFront(held: Held, a: Ptr, next: Option<Ptr>): Held {
    (if next.Some? then held - multiset{next.value} else held) + multiset{a}
  }

  lemma {:induction false} FrontCounted(mem: Mem, chains: Chains, held: Held, a: Ptr, d: seq<byte>, next: Option<Ptr>)
    requires Linked(mem, chains) && Counted(mem, held) && a !in mem && (next.Some? ==> next.value in held)
    ensures Counted(Fronted(mem, a, d, next), HeldFront(held, a, next))
  {
    var after, held' := Fronted(mem, a, d, next), HeldFront(held, a, next);
    NoPreds(mem, chains, a);
    FrontHeld(mem, held, a, d, next);
    hide Linked, HeldFront, Preds, Fronted, CountedAt;
    forall x | x in after ensures CountedAt(after, held', x) { FrontCountedAt(mem, held, a, d, next, x); }
  }

  lemma {:induction false} FrontHeld(mem: Mem, held: Held, a: Ptr, d: seq<byte>, next: Option<Ptr>)
    requires Counted(mem, held) && a !in mem && (next.Some? ==> next.value in held)
    ensures forall x | x in HeldFront(held, a, next) :: x in Fronted(mem, a, d, next)
  {
    forall x | x in HeldFront(held, a, next) ensures x in Fronted(mem, a, d, next) {
      HeldFrontCount(held, a, next, x);
      assert x != a ==> x in held;
    }
  }

  lemma {:induction false} FrontCountedAt(mem: Mem, held: Held, a: Ptr, d: seq<byte>, next: Option<Ptr>, x: Ptr)
    requires Counted(mem, held) && a !in mem && (next.Some? ==> next.value in held) && Preds(mem, a) == {}
    requires x in Fronted(mem, a, d, next)
    ensures CountedAt(Fronted(mem, a, d, next), HeldFront(held, a, next), x)
  {
    FrontPreds(mem, a, d, next, x);
    HeldFrontCount(held, a, next, x);
    FrontMembers(mem, a, d, next);
    if x != a { CountOf(mem, held, x); } else { NotHeld(mem, held, a); }
    hide Counted, HeldFront, Preds, Fronted;
  }

  lemma {:induction false} CountOf(mem: Mem, held: Held, x: Ptr)
    requires Counted(mem, held) && x in mem
    ensures mem[x].refs >= 1 && mem[x].refs == held[x] + |Preds(mem, x)|
  {
    assert CountedAt(mem, held, x);
  }

  lemma {:induction false} NotHeld(mem: Mem, held: Held, a: Ptr)
    requires Counted(mem, held) && a !in mem
    ensures held[a] == 0
  {
  }

  lemma {:induction false} FrontMembers(mem: Mem, a: Ptr, d: seq<byte>, next: Option<Ptr>)
    requires a !in mem
    ensures Fronted(mem, a, d, next).Keys == mem.Keys + {a} && Fronted(mem, a, d, next)[a].refs == 1
    ensures forall x | x in mem :: Fronted(mem, a, d, next)[x] == mem[x]
  {
  }

  lemma {:induction false} HeldFrontCount(held: Held, a: Ptr, next: Option<Ptr>, x: Ptr)
    requires next.Some? ==> next.value in held
    ensures HeldFront(held, a, next)[x] == held[x] + (if x == a then 1 else 0) - (if next == Some(x) then 1 else 0)
  {
  }

  lemma {:induction false} NoPreds(mem: Mem, chains: Chains, a: Ptr)
    requires Linked(mem, chains) && a !in mem
    ensures Preds(mem, a) == {}
  {
    forall x | x in mem ensures mem[x].next != Some(a) { assert LinkedAt(mem, chains, x); }
  }

  lemma {:induction false} FrontKeeps(mem: Mem, chains: Chains, held: Held, a: Ptr, d: seq<byte>, next: Option<Ptr>)
    requires Tied(mem, chains, held) && a !in mem && (next.Some? ==> next.value in held)
    ensures Tied(Fronted(mem, a, d, next), chains[a := [a] + From(chains, next)], HeldFront(held, a, next))
  {
    hide Linked;
    FrontLinked(mem, chains, a, d, next);
    FrontCounted(mem, chains, held, a, d, next);
  }

  function Total(datas: seq<seq<byte>>): nat {
    if datas == [] then 0 else |datas[0]| + Total(datas[1..])
  }

  /** New pbufs ids strung together, the first with total length tot. */
  function Strung(mem: Mem, ids: seq<Ptr>, datas: seq<seq<byte>>, tot: nat): Mem
    requires |ids| == |datas|
  {
    if ids == [] then mem
    else
      Strung(mem, ids[1..], datas[1..], if tot >= |datas[0]| then tot - |datas[0]| else 0)
        [ids[0] := Pbuf(if |ids| > 1 then Some(ids[1]) else None, datas[0], tot, 1)]
  }

  function StrungChains(chains: Chains, ids: seq<Ptr>): Chains {
    if ids == [] then chains else StrungChains(chains, ids[1..])[ids[0] := ids]
  }

  ghost predicate Unused(mem: Mem, ids: seq<Ptr>) {
    NoRepeat(ids) && forall x | x in ids :: x !in mem
  }

  /** pbuf_alloc keeps counts and links right: the program holds the head of a new packet. */
  lemma {:induction false} AllocKeeps(mem: Mem, chains: Chains, held: Held, ids: seq<Ptr>, datas: seq<seq<byte>>)
    requires Tied(mem, chains, held) && |ids| == |datas| > 0 && Unused(mem, ids)
    ensures Tied(Strung(mem, ids, datas, Total(datas)), StrungChains(chains, ids), held + multiset{ids[0]})
    decreases |ids|
  {
    hide Tied;
    var a, rest, d := ids[0], ids[1..], datas[1..];
    StrungFront(mem, chains, ids, datas);
    if rest == [] {
      FrontKeeps(mem, chains, held, a, datas[0], None);
    } else {
      AllocKeeps(mem, chains, held, rest, d);
      var mem', chains' := Strung(mem, rest, d, Total(d)), StrungChains(chains, rest);
      hide Strung, StrungChains, Total, Unused;
      FrontKeeps(mem', chains', held + multiset{rest[0]}, a, datas[0], Some(rest[0]));
      HeldMoves(held, a, rest[0]);
    }
  }

  /** The string is its first pbuf in front of the rest. */
  lemma {:induction false} StrungFront(mem: Mem, chains: Chains, ids: seq<Ptr>, datas: seq<seq<byte>>)
    requires |ids| == |datas| > 0 && Unused(mem, ids)
    ensures var a, rest, d := ids[0], ids[1..], datas[1..];
            var next := if rest == [] then None else Some(rest[0]);
            var mem', chains' := Strung(mem, rest, d, Total(d)), StrungChains(chains, rest);
            && a !in mem' && Unused(mem, rest) && (next.Some? ==> next.value in mem')
            && Strung(mem, ids, datas, Total(datas)) == Fronted(mem', a, datas[0], next)
            && StrungChains(chains, ids) == chains'[a := [a] + From(chains', next)]
            && (rest == [] ==> mem' == mem && chains' == chains)
            && Total(datas) == |datas[0]| + TotOf(mem', next)
  {
    StringFront(mem, ids, datas);
    hide Strung, Unused, Total;
    ChainsFront(chains, ids);
  }

  lemma {:induction false} StringFront(mem: Mem, ids: seq<Ptr>, datas: seq<seq<byte>>)
    requires |ids| == |datas| > 0 && Unused(mem, ids)
    ensures var a, rest, d := ids[0], ids[1..], datas[1..];
            var next := if rest == [] then None else Some(rest[0]);
            var mem' := Strung(mem, rest, d, Total(d));
            && a !in mem' && Unused(mem, rest) && (next.Some? ==> next.value in mem')
            && Strung(mem, ids, datas, Total(datas)) == Fronted(mem', a, datas[0], next)
            && (rest == [] ==> mem' == mem)
            && Total(datas) == |datas[0]| + TotOf(mem', next)
  {
    var a, rest, d := ids[0], ids[1..], datas[1..];
    StrungHas(mem, rest, d, Total(d));
    assert a !in Elements(rest) by { assert forall i | 0 < i < |ids| :: ids[i] != a; }
    assert Unused(mem, rest);
    assert a in ids;
    if rest != [] { assert rest[0] in Elements(rest); }
    hide Unused, StrungChains, Elements;
  }

  lemma {:induction false} ChainsFront(chains: Chains, ids: seq<Ptr>)
    requires ids != []
    ensures var a, rest := ids[0], ids[1..];
            var next := if rest == [] then None else Some(rest[0]);
            var chains' := StrungChains(chains, rest);
            StrungChains(chains, ids) == chains'[a := [a] + From(chains', next)] && (rest == [] ==> chains' == chains)
  {
    ChainsOf(chains, ids[1..]);
    assert [ids[0]] + ids[1..] == ids;
  }

  /** The total lengths are right, too. */
  lemma {:induction false} AllocTotLens(mem: Mem, chains: Chains, held: Held, ids: seq<Ptr>, datas: seq<seq<byte>>)
    requires Tied(mem, chains, held) && TotLens(mem) && |ids| == |datas| > 0 && Unused(mem, ids) && Total(datas) < M16
    ensures TotLens(Strung(mem, ids, datas, Total(datas)))
    decreases |ids|
  {
    var rest, d := ids[1..], datas[1..];
    StrungFront(mem, chains, ids, datas);
    if rest == [] {
      FrontTotLens(mem, chains, ids[0], datas[0], None);
    } else {
      AllocTotLens(mem, chains, held, rest, d);
      AllocKeeps(mem, chains, held, rest, d);
      var mem', chains' := Strung(mem, rest, d, Total(d)), StrungChains(chains, rest);
      hide Strung, StrungChains, Total, Unused, Linked, TotLens, Counted;
      FrontTotLens(mem', chains', ids[0], datas[0], Some(rest[0]));
    }
  }

  lemma {:induction false} HeldMoves(held: Held, a: Ptr, b: Ptr)
    ensures HeldFront(held + multiset{b}, a, Some(b)) == held + multiset{a}
  {
    assert held + multiset{b} - multiset{b} == held;
  }

  lemma {:induction false} ChainsOf(chains: Chains, ids: seq<Ptr>)
    ensures ids != [] ==> ids[0] in StrungChains(chains, ids) && StrungChains(chains, ids)[ids[0]] == ids
  {
  }

  lemma {:induction false} StrungHas(mem: Mem, ids: seq<Ptr>, datas: seq<seq<byte>>, tot: nat)
    requires |ids| == |datas|
    ensures Strung(mem, ids, datas, tot).Keys == mem.Keys + Elements(ids)
    ensures ids != [] ==> Strung(mem, ids, datas, tot)[ids[0]].totLen == tot
    decreases |ids|
  {
    if ids != [] {
      StrungHas(mem, ids[1..], datas[1..], if tot >= |datas[0]| then tot - |datas[0]| else 0);
      assert Elements(ids) == {ids[0]} + Elements(ids[1..]);
    }
  }

  /** A new pbuf q behind pbuf r. */
  function Extended(mem: Mem, r: Ptr, q: Ptr, d: seq<byte>, tot: nat): Mem
    requires r in mem
  {
    mem[q := Pbuf(None, d, tot, 1)][r := mem[r].(next := Some(q))]
  }

  /** Another pbuf at the end of the string. */
  lemma {:induction false} StrungAppend(mem: Mem, ids: seq<Ptr>, datas: seq<seq<byte>>, tot: nat, q: Ptr, d: seq<byte>)
    requires |ids| == |datas| > 0 && NoRepeat(ids) && q !in ids && Total(datas) <= tot
    ensures LastOf(ids) in Strung(mem, ids, datas, tot)
    ensures Strung(mem, ids + [q], datas + [d], tot)
         == Extended(Strung(mem, ids, datas, tot), LastOf(ids), q, d, tot - Total(datas))
    decreases |ids|
  {
    StrungHas(mem, ids, datas, tot);
    assert (ids + [q])[1..] == ids[1..] + [q] && (datas + [d])[1..] == datas[1..] + [d];
    if |ids| > 1 {
      StrungAppend(mem, ids[1..], datas[1..], tot - |datas[0]|, q, d);
    } else {
      assert Strung(mem, [q], [d], tot - |datas[0]|) == mem[q := Pbuf(None, d, tot - |datas[0]|, 1)];
      assert ids[1..] + [q] == [q] && datas[1..] + [d] == [d];
    }
  }

  lemma {:induction false} TotalAppend(datas: seq<seq<byte>>, d: seq<byte>)
    ensures Total(datas + [d]) == Total(datas) + |d|
  {
    if datas != [] {
      TotalAppend(datas[1..], d);
      assert (datas + [d])[1..] == datas[1..] + [d];
    }
  }

  /** Giving up a packet that was just strung together leaves nothing of it. */
  lemma {:induction false} StrungReleased(mem: Mem, ids: seq<Ptr>, datas: seq<seq<byte>>, tot: nat)
    requires |ids| == |datas| && Unused(mem, ids)
    ensures Released(Strung(mem, ids, datas, tot), ids) == mem && Freed(Strung(mem, ids, datas, tot), ids) == |ids|
    decreases |ids|
  {
    if ids != [] {
      var rest := if tot >= |datas[0]| then tot - |datas[0]| else 0;
      StrungReleased(mem, ids[1..], datas[1..], rest);
      StrungHas(mem, ids[1..], datas[1..], rest);
      assert Strung(mem, ids, datas, tot) - {ids[0]} == Strung(mem, ids[1..], datas[1..], rest);
    }
  }

  // ---------------------------------------------------------------------
  // pbuf_realloc

  /** The pbuf of chain c that has n pbufs from it on. */
  ghost predicate NthLast(chains: Chains, p: Ptr, n: nat, x: Ptr) {
    p in chains && x in chains && x in chains[p] && |chains[x]| == n
  }

  /** Memory with the chain of p cut short: the pbuf with n pbufs from it on becomes the last,
      with rem bytes, and those before it count less bytes in all. */
  function Shrunk(mem: Mem, chains: Chains, p: Ptr, n: nat, rem: nat, less: nat): Mem
    requires p in chains && chains.Keys == mem.Keys
  {
    map x | x in mem :: ShrunkAt(mem[x], chains, p, n, rem, less, x)
  }

  function ShrunkAt(b: Pbuf, chains: Chains, p: Ptr, n: nat, rem: nat, less: nat, x: Ptr): Pbuf
    requires p in chains && x in chains
  {
    if x !in chains[p] || |chains[x]| < n then b
    else if |chains[x]| == n then b.(next := None, data := b.data[..Min(rem, |b.data|)], totLen := rem)
    else WithLess(b, less)
  }

  /** tot_len goes down, in 16 bits. */
  function WithLess(b: Pbuf, less: nat): Pbuf {
    b.(totLen := (b.totLen - less) % M16)
  }

  lemma {:induction false} LessIs(b: Pbuf, less: nat)
    requires b.totLen < M16
    ensures less <= b.totLen ==> WithLess(b, less).totLen == b.totLen - less
    ensures 0 < less < M16 ==> WithLess(b, less).totLen != b.totLen
  {
  }

  /** Only pbufs of the chain lead into its part that stays. */
  ghost predicate Owned(mem: Mem, chains: Chains, p: Ptr, n: nat)
    requires p in chains && chains.Keys == mem.Keys
  {
    forall y | y in mem && mem[y].next.Some? && mem[y].next.value in chains[p]
               && mem[y].next.value in chains && |chains[mem[y].next.value]| >= n :: y in chains[p]
  }

  lemma {:induction false} OnlyNth(mem: Mem, chains: Chains, p: Ptr, n: nat, x: Ptr, y: Ptr)
    requires Linked(mem, chains) && p in mem && NthLast(chains, p, n, x) && NthLast(chains, p, n, y)
    ensures x == y
  {
    InChain(mem, chains, p, x);
    InChain(mem, chains, p, y);
  }

  lemma {:induction false} Nested(mem: Mem, chains: Chains, p: Ptr, x: Ptr, y: Ptr)
    requires Linked(mem, chains) && p in mem && x in chains[p] && y in chains[p]
    requires x in chains && y in chains && |chains[y]| <= |chains[x]|
    ensures y in chains[x]
  {
    InChain(mem, chains, p, x);
    InChain(mem, chains, p, y);
    var c, d, e := chains[p], chains[x], chains[y];
    assert d[|d| - |e|] == c[|c| - |e|] == e[0];
  }

  /** Cutting a chain short keeps the total lengths exactly if no other chain leads into the part
      that stays. */
  lemma {:induction false} ShrinkTotLens(mem: Mem, chains: Chains, p: Ptr, n: nat, rem: nat, less: nat, k: Ptr)
    requires Linked(mem, chains) && TotLens(mem) && p in mem && n > 0 && less > 0 && p in chains && chains.Keys == mem.Keys
    requires NthLast(chains, p, n, k) && k in mem && rem <= |mem[k].data| && mem[k].totLen == rem + less
    ensures TotLens(Shrunk(mem, chains, p, n, rem, less)) <==> Owned(mem, chains, p, n)
  {
    var after := Shrunk(mem, chains, p, n, rem, less);
    if Owned(mem, chains, p, n) {
      forall x | x in after ensures TotAt(after, x) { ShrinkTotAt(mem, chains, p, n, rem, less, k, x); }
    } else {
      var y := Intruder(mem, chains, p, n);
      ShrinkBreaks(mem, chains, p, n, rem, less, k, y);
    }
  }

  /** A pbuf off the chain that leads into the part that stays. */
  ghost predicate Intrudes(mem: Mem, chains: Chains, p: Ptr, n: nat, y: Ptr) {
    && y in mem && p in chains && y !in chains[p] && mem[y].next.Some?
    && mem[y].next.value in chains[p] && mem[y].next.value in chains && |chains[mem[y].next.value]| >= n
  }

  lemma {:induction false} Intruder(mem: Mem, chains: Chains, p: Ptr, n: nat) returns (y: Ptr)
    requires p in chains && chains.Keys == mem.Keys && !Owned(mem, chains, p, n)
    ensures Intrudes(mem, chains, p, n, y)
  {
    y :| y in mem && mem[y].next.Some? && mem[y].next.value in chains[p]
         && mem[y].next.value in chains && |chains[mem[y].next.value]| >= n && y !in chains[p];
  }

  lemma {:induction false} ShrinkBreaks(mem: Mem, chains: Chains, p: Ptr, n: nat, rem: nat, less: nat, k: Ptr, y: Ptr)
    requires Linked(mem, chains) && TotLens(mem) && p in mem && chains.Keys == mem.Keys && less > 0
    requires NthLast(chains, p, n, k) && k in mem && mem[k].totLen == rem + less && Intrudes(mem, chains, p, n, y)
    ensures y in Shrunk(mem, chains, p, n, rem, less) && !TotAt(Shrunk(mem, chains, p, n, rem, less), y)
  {
    var after, z := Shrunk(mem, chains, p, n, rem, less), mem[y].next.value;
    TotStep(mem, y);
    TotStep(mem, z);
    TotStep(mem, k);
    LessIs(mem[z], less);
    if |chains[z]| == n { OnlyNth(mem, chains, p, n, z, k); }
    assert after[y] == ShrunkAt(mem[y], chains, p, n, rem, less, y) == mem[y];
    assert after[z] == ShrunkAt(mem[z], chains, p, n, rem, less, z);
    hide Linked, TotLens, Shrunk, WithLess;
  }

  lemma {:induction false} ShrinkTotAt(mem: Mem, chains: Chains, p: Ptr, n: nat, rem: nat, less: nat, k: Ptr, x: Ptr)
    requires Linked(mem, chains) && TotLens(mem) && p in mem && n > 0 && chains.Keys == mem.Keys
    requires Owned(mem, chains, p, n) && x in mem
    requires NthLast(chains, p, n, k) && k in mem && rem <= |mem[k].data| && mem[k].totLen == rem + less
    ensures TotAt(Shrunk(mem, chains, p, n, rem, less), x)
  {
    TotStep(mem, x);
    TotStep(mem, k);
    var rest := LinkOf(mem, chains, x);
    if x in chains[p] && |chains[x]| == n {
      OnlyNth(mem, chains, p, n, x, k);
    } else if mem[x].next.Some? {
      if x in chains[p] && |chains[x]| > n {
        ShrinkNext(mem, chains, p, n, rem, less, k, x);
        TotStep(mem, mem[x].next.value);
      } else {
        ShrinkApart(mem, chains, p, n, x);
      }
    }
    hide Linked, TotLens, Owned;
    ShrinkTotCase(mem, chains, p, n, rem, less, k, x);
  }

  lemma {:induction false} ShrinkApart(mem: Mem, chains: Chains, p: Ptr, n: nat, x: Ptr)
    requires Linked(mem, chains) && p in mem && chains.Keys == mem.Keys && Owned(mem, chains, p, n) && x in mem
    requires mem[x].next.Some? && mem[x].next.value in mem && (x !in chains[p] || |chains[x]| < n)
    ensures mem[x].next.value !in chains[p] || |chains[mem[x].next.value]| < n
  {
    var rest := LinkOf(mem, chains, x);
  }

  lemma {:induction false} ShrinkTotCase(mem: Mem, chains: Chains, p: Ptr, n: nat, rem: nat, less: nat, k: Ptr, x: Ptr)
    requires p in mem && n > 0 && chains.Keys == mem.Keys && x in mem && TotAt(mem, x)
    requires NthLast(chains, p, n, k) && k in mem && rem <= |mem[k].data| && mem[k].totLen == rem + less && TotAt(mem, k)
    requires x in chains[p] && |chains[x]| == n ==> x == k
    requires match mem[x].next
             case None => x in chains[p] ==> |chains[x]| <= n
             case Some(q) =>
               && q in mem
               && (x in chains[p] && |chains[x]| > n ==>
                     q in chains[p] && |chains[q]| >= n && less <= mem[q].totLen < M16 && (|chains[q]| == n ==> q == k))
               && (x !in chains[p] || |chains[x]| < n ==> q !in chains[p] || |chains[q]| < n)
    ensures TotAt(Shrunk(mem, chains, p, n, rem, less), x)
  {
    var after := Shrunk(mem, chains, p, n, rem, less);
    assert after[x] == ShrunkAt(mem[x], chains, p, n, rem, less, x);
    LessIs(mem[x], less);
    if mem[x].next.Some? {
      var q := mem[x].next.value;
      assert after[q] == ShrunkAt(mem[q], chains, p, n, rem, less, q);
      if mem[q].totLen < M16 { LessIs(mem[q], less); }
    }
    hide Shrunk, WithLess;
  }

  lemma {:induction false} ShrinkNext(mem: Mem, chains: Chains, p: Ptr, n: nat, rem: nat, less: nat, k: Ptr, x: Ptr)
    requires Linked(mem, chains) && TotLens(mem) && p in mem && NthLast(chains, p, n, k) && k in mem
    requires x in mem && mem[x].next.Some? && x in chains[p] && |chains[x]| > n && mem[k].totLen == rem + less
    ensures var q := mem[x].next.value;
            q in mem && q in chains && q in chains[p] && |chains[q]| >= n && mem[q].totLen >= less
            && (|chains[q]| == n ==> q == k)
  {
    var rest := LinkOf(mem, chains, x);
    var q := mem[x].next.value;
    NextInChain(mem, chains, p, x);
    if |chains[q]| == n { OnlyNth(mem, chains, p, n, q, k); }
    Nested(mem, chains, p, q, k);
    TotAtMost(mem, chains, q, k);
  }

  /** Only the last pbuf that stays loses its next field. */
  lemma {:induction false} ShrinkSevers(mem: Mem, chains: Chains, p: Ptr, n: nat, rem: nat, less: nat, k: Ptr)
    requires Linked(mem, chains) && p in mem && NthLast(chains, p, n, k) && k in mem && chains.Keys == mem.Keys
    ensures Severed(mem, Shrunk(mem, chains, p, n, rem, less), k)
  {
    var after := Shrunk(mem, chains, p, n, rem, less);
    forall y | y in mem ensures after[y].next == (if y == k then None else mem[y].next) && after[y].refs == mem[y].refs {
      if NthLast(chains, p, n, y) { OnlyNth(mem, chains, p, n, y, k); }
      assert after[y] == ShrunkAt(mem[y], chains, p, n, rem, less, y);
    }
  }

  /** The packet keeps its first bytes. */
  lemma {:induction false} ShrinkContent(mem: Mem, chains: Chains, p: Ptr, n: nat, rem: nat, less: nat, k: Ptr)
    requires Linked(mem, chains) && p in mem && n > 0 && chains.Keys == mem.Keys
    requires NthLast(chains, p, n, k) && k in mem && rem <= |mem[k].data|
    requires Linked(Shrunk(mem, chains, p, n, rem, less), Truncated(chains, k))
    ensures var s, newLen := Content(mem, chains, Some(p)), |Content(mem, chains, Some(p))| - |Content(mem, chains, Some(k))| + rem;
            0 <= newLen <= |s| && p in Shrunk(mem, chains, p, n, rem, less)
            && Content(Shrunk(mem, chains, p, n, rem, less), Truncated(chains, k), Some(p)) == s[..newLen]
  {
    hide Linked, Content, Shrunk, Truncated;
    var after, chains' := Shrunk(mem, chains, p, n, rem, less), Truncated(chains, k);
    var front, rest := Around(mem, chains, p, k);
    AroundBytes(mem, chains, p, k, front, rest);
    TruncatedHead(mem, chains, p, n, k, front, rest);
    ShrunkBytes(mem, chains, p, n, rem, less, k, front, rest);
    ContentIs(after, chains', p);
    FirstBytes(Bytes(mem, front), mem[k].data, Bytes(mem, rest), rem);
  }

  lemma {:induction false} AroundBytes(mem: Mem, chains: Chains, p: Ptr, x: Ptr, front: seq<Ptr>, rest: seq<Ptr>)
    requires Linked(mem, chains) && p in mem && x in mem && p in chains
    requires chains[p] == front + [x] + rest && rest == From(chains, mem[x].next)
    requires (forall y | y in front :: y in mem) && forall y | y in rest :: y in mem
    ensures Content(mem, chains, Some(p)) == Bytes(mem, front) + mem[x].data + Bytes(mem, rest)
    ensures Content(mem, chains, Some(x)) == mem[x].data + Bytes(mem, rest)
  {
    ContentIs(mem, chains, p);
    ContentStep(mem, chains, x);
    hide Linked;
    Splits(mem, front, x, rest);
  }

  lemma {:induction false} ShrunkBytes(mem: Mem, chains: Chains, p: Ptr, n: nat, rem: nat, less: nat, k: Ptr, front: seq<Ptr>, rest: seq<Ptr>)
    requires Linked(mem, chains) && p in mem && NthLast(chains, p, n, k) && k in mem && rem <= |mem[k].data|
    requires chains.Keys == mem.Keys && chains[p] == front + [k] + rest && rest == From(chains, mem[k].next)
    requires forall x | x in front :: x in mem
    ensures p in Shrunk(mem, chains, p, n, rem, less)
    ensures forall x | x in front + [k] :: x in Shrunk(mem, chains, p, n, rem, less)
    ensures Bytes(Shrunk(mem, chains, p, n, rem, less), front + [k]) == Bytes(mem, front) + mem[k].data[..rem]
  {
    hide Linked;
    var after := Shrunk(mem, chains, p, n, rem, less);
    forall x | x in front + [k] ensures x in after && after[x].data == if x == k then mem[k].data[..rem] else mem[x].data {
      if x != k { FrontLonger(mem, chains, p, n, k, front, rest, x); }
    }
    assert k in front + [k];
    forall x | x in front ensures x != k { FrontLonger(mem, chains, p, n, k, front, rest, x); }
    hide Shrunk;
    CutBytes(mem, after, front, k, rem);
  }

  lemma {:induction false} CutBytes(mem: Mem, after: Mem, front: seq<Ptr>, k: Ptr, rem: nat)
    requires k in mem && k in after && rem <= |mem[k].data| && after[k].data == mem[k].data[..rem]
    requires forall x | x in front :: x in mem && x in after && after[x].data == mem[x].data
    ensures Bytes(after, front + [k]) == Bytes(mem, front) + mem[k].data[..rem]
  {
    BytesSame(mem, after, front);
    BytesAppend(after, front, [k]);
  }

  lemma {:induction false} TruncatedHead(mem: Mem, chains: Chains, p: Ptr, n: nat, k: Ptr, front: seq<Ptr>, rest: seq<Ptr>)
    requires Linked(mem, chains) && p in mem && n > 0 && NthLast(chains, p, n, k) && k in mem
    requires chains[p] == front + [k] + rest && rest == From(chains, mem[k].next)
    ensures p in Truncated(chains, k) && Truncated(chains, k)[p] == front + [k]
  {
    var r := LinkOf(mem, chains, k);
    InChain(mem, chains, p, k);
    KeptUpTo(chains, k, p);
    assert |rest| == n - 1;
    assert chains[p][..|chains[p]| - n + 1] == front + [k];
  }

  lemma {:induction false} FrontLonger(mem: Mem, chains: Chains, p: Ptr, n: nat, k: Ptr, front: seq<Ptr>, rest: seq<Ptr>, x: Ptr)
    requires Linked(mem, chains) && p in mem && NthLast(chains, p, n, k) && k in mem
    requires chains[p] == front + [k] + rest && rest == From(chains, mem[k].next) && x in front
    ensures x in chains && x in chains[p] && |chains[x]| > n
  {
    var r := LinkOf(mem, chains, k);
    var i :| 0 <= i < |front| && front[i] == x;
    assert chains[p][i] == x;
    SuffixOf(mem, chains, p, i);
  }

  lemma {:induction false} FirstBytes(a: seq<byte>, d: seq<byte>, b: seq<byte>, rem: nat)
    requires rem <= |d|
    ensures (a + d + b)[..|a| + rem] == a + d[..rem]
  {
  }
}
