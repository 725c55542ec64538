/**
 The operations on chains that keep reference counts and total lengths: pbuf_ref, pbuf_cat,
 pbuf_chain, pbuf_dechain and the shrinking of pbuf_realloc. Each is a function on memory here.
 */
module PbufOps {
  import opened Common
  import opened Pbuf
  import opened PbufRefs

  function LastOf(c: seq<Ptr>): Ptr
    requires c != []
  {
    c[|c| - 1]
  }

  /** The last pbuf of a chain has no next, and chains that share a pbuf share the last one. */
  lemma {:induction false} EndOf(mem: Mem, chains: Chains, p: Ptr)
    requires Linked(mem, chains) && p in mem
    ensures p in chains && chains[p] != [] && p in chains[p] && LastOf(chains[p]) in mem
    ensures mem[LastOf(chains[p])].next == None && chains[LastOf(chains[p])] == [LastOf(chains[p])]
  {
    var rest := LinkOf(mem, chains, p);
    var c := chains[p];
    SuffixOf(mem, chains, p, |c| - 1);
    assert c[|c| - 1..] == [LastOf(c)];
    rest := LinkOf(mem, chains, LastOf(c));
    assert rest == [];
    if mem[LastOf(c)].next.Some? { var r := LinkOf(mem, chains, mem[LastOf(c)].next.value); }
  }

  lemma {:induction false} SameEnd(mem: Mem, chains: Chains, p: Ptr)
    requires Linked(mem, chains) && p in mem && mem[p].next.Some?
    ensures var q := mem[p].next.value;
            p in chains && q in mem && q in chains && chains[p] == [p] + chains[q] && chains[q] != []
            && LastOf(chains[p]) == LastOf(chains[q])
  {
    var rest := LinkOf(mem, chains, p);
    var r := LinkOf(mem, chains, mem[p].next.value);
  }

  lemma {:induction false} EndIsMember(mem: Mem, chains: Chains, p: Ptr, x: Ptr)
    requires Linked(mem, chains) && p in mem && x in chains[p]
    ensures x in mem && chains[x] != [] && LastOf(chains[x]) == LastOf(chains[p]) && LastOf(chains[p]) in chains[p]
  {
    InChain(mem, chains, p, x);
    assert chains[p][|chains[p]| - |chains[x]|..][|chains[x]| - 1] == chains[p][|chains[p]| - 1];
  }

  // ---------------------------------------------------------------------
  // pbuf_ref

  function Referenced(mem: Mem, p: Ptr): Mem
    requires p in mem
  {
    WithRefs(mem, p, mem[p].refs + 1)
  }

  lemma {:induction false} RefKeeps(mem: Mem, chains: Chains, held: Held, p: Ptr)
    requires Tied(mem, chains, held) && p in mem
    ensures Tied(Referenced(mem, p), chains, held + multiset{p})
  {
    WithRefsKeeps(mem, chains, p, mem[p].refs + 1);
    hide Linked;
    WithRefsCounted(mem, held, p, mem[p].refs + 1, held + multiset{p});
  }

  // ---------------------------------------------------------------------
  // pbuf_cat

  /** Memory with chain c continued by t. */
  function Joined(mem: Mem, c: seq<Ptr>, t: Ptr): Mem
    requires c != [] && t in mem
  {
    map x | x in mem :: JoinedAt(mem, c, t, x)
  }

  function JoinedAt(mem: Mem, c: seq<Ptr>, t: Ptr, x: Ptr): Pbuf
    requires c != [] && t in mem && x in mem
  {
    if x !in c then mem[x]
    else mem[x].(totLen := mem[x].totLen + mem[t].totLen, next := if x == LastOf(c) then Some(t) else mem[x].next)
  }

  function JoinedChains(chains: Chains, c: seq<Ptr>, t: Ptr): Chains
    requires c != [] && t in chains
  {
    map x | x in chains :: JoinedChain(chains, c, t, x)
  }

  function JoinedChain(chains: Chains, c: seq<Ptr>, t: Ptr, x: Ptr): seq<Ptr>
    requires c != [] && t in chains && x in chains
  {
    if chains[x] != [] && LastOf(chains[x]) == LastOf(c) then chains[x] + chains[t] else chains[x]
  }

  ghost predicate Apart(c: seq<Ptr>, d: seq<Ptr>) {
    forall x | x in c :: x !in d
  }

  lemma {:induction false} JoinLinked(mem: Mem, chains: Chains, h: Ptr, t: Ptr)
    requires Linked(mem, chains) && h in mem && t in mem && Apart(chains[h], chains[t]) && chains[h] != []
    ensures Linked(Joined(mem, chains[h], t), JoinedChains(chains, chains[h], t))
  {
    var c := chains[h];
    var after, chains' := Joined(mem, c, t), JoinedChains(chains, c, t);
    EndOf(mem, chains, h);
    EndOf(mem, chains, t);
    EndIsMember(mem, chains, t, t);
    EndIsMember(mem, chains, h, h);
    assert chains'[t] == chains[t];
    forall x | x in after ensures LinkedAt(after, chains', x) { JoinLinkedAt(mem, chains, h, t, x); }
  }

  lemma {:induction false} JoinLinkedAt(mem: Mem, chains: Chains, h: Ptr, t: Ptr, x: Ptr)
    requires Linked(mem, chains) && h in mem && t in mem && chains[h] != [] && x in mem
    requires JoinedChains(chains, chains[h], t)[t] == chains[t]
    ensures LinkedAt(Joined(mem, chains[h], t), JoinedChains(chains, chains[h], t), x)
  {
    var c := chains[h];
    var after, chains' := Joined(mem, c, t), JoinedChains(chains, c, t);
    var rest := LinkOf(mem, chains, x);
    EndOf(mem, chains, h);
    EndIsMember(mem, chains, h, h);
    hide Linked;
    assert after[x] == JoinedAt(mem, c, t, x) && chains'[x] == JoinedChain(chains, c, t, x);
    hide Joined, JoinedChains;
    if x == LastOf(c) {
      assert chains'[x] == [x] + chains[t];
    } else if mem[x].next.Some? {
      SameEnd(mem, chains, x);
      var q := mem[x].next.value;
      JoinedMembers(mem, chains, c, t, q);
      ConsAppend(x, chains[q], chains[t]);
    }
  }

  lemma {:induction false} JoinedMembers(mem: Mem, chains: Chains, c: seq<Ptr>, t: Ptr, q: Ptr)
    requires c != [] && t in mem && t in chains && q in mem && q in chains
    ensures q in Joined(mem, c, t) && q in JoinedChains(chains, c, t)
    ensures JoinedChains(chains, c, t)[q] == JoinedChain(chains, c, t, q)
  {
  }

  lemma {:induction false} ConsAppend(x: Ptr, a: seq<Ptr>, b: seq<Ptr>)
    ensures ([x] + a) + b == [x] + (a + b)
  {
  }

  /** Only pbufs of the chain lead into it. */
  ghost predicate Private(mem: Mem, c: seq<Ptr>) {
    forall y | y in mem && mem[y].next.Some? && mem[y].next.value in c :: y in c
  }

  /** pbuf_cat keeps the total lengths exactly if no other chain leads into the one it extends,
      or nothing is added. */
  lemma {:induction false} JoinTotLens(mem: Mem, chains: Chains, h: Ptr, t: Ptr)
    requires Linked(mem, chains) && TotLens(mem) && h in mem && t in mem && chains[h] != []
    requires Apart(chains[h], chains[t]) && mem[h].totLen + mem[t].totLen < M16
    ensures TotLens(Joined(mem, chains[h], t)) <==> mem[t].totLen == 0 || Private(mem, chains[h])
  {
    var c := chains[h];
    var after := Joined(mem, c, t);
    EndOf(mem, chains, h);
    EndIsMember(mem, chains, h, h);
    EndOf(mem, chains, t);
    if mem[t].totLen == 0 || Private(mem, c) {
      forall x | x in after ensures TotAt(after, x) { JoinTotAt(mem, chains, h, t, x); }
    } else {
      var y :| y in mem && mem[y].next.Some? && mem[y].next.value in c && y !in c;
      assert LinkedAt(mem, chains, y) && TotAt(mem, y);
      assert !TotAt(after, y);
    }
  }

  lemma {:induction false} JoinTotAt(mem: Mem, chains: Chains, h: Ptr, t: Ptr, x: Ptr)
    requires Linked(mem, chains) && TotLens(mem) && h in mem && t in mem && chains[h] != [] && x in mem
    requires t !in chains[h] && mem[h].totLen + mem[t].totLen < M16
    requires mem[t].totLen == 0 || Private(mem, chains[h])
    ensures TotAt(Joined(mem, chains[h], t), x)
  {
    var c := chains[h];
    TotStep(mem, x);
    var rest := LinkOf(mem, chains, x);
    if x in c {
      TotAtMost(mem, chains, h, x);
      EndOf(mem, chains, h);
      if x != LastOf(c) {
        InnerHasNext(mem, chains, h, x);
        NextInChain(mem, chains, h, x);
      }
    }
  }

  lemma {:induction false} InnerHasNext(mem: Mem, chains: Chains, h: Ptr, x: Ptr)
    requires Linked(mem, chains) && h in mem && x in mem && chains[h] != [] && x in chains[h] && x != LastOf(chains[h])
    ensures mem[x].next.Some?
  {
    var rest := LinkOf(mem, chains, x);
    EndIsMember(mem, chains, h, x);
  }

  lemma {:induction false} TotAtMost(mem: Mem, chains: Chains, h: Ptr, x: Ptr)
    requires Linked(mem, chains) && TotLens(mem) && h in mem && x in mem && x in chains[h]
    ensures mem[x].totLen <= mem[h].totLen
  {
    var front, rest := Around(mem, chains, h, x);
    AroundContent(mem, chains, h, x, front, rest);
  }

  lemma {:induction false} JoinCounted(mem: Mem, chains: Chains, held: Held, h: Ptr, t: Ptr)
    requires Linked(mem, chains) && Counted(mem, held) && h in mem && t in held && chains[h] != []
    ensures Counted(Joined(mem, chains[h], t), held - multiset{t})
  {
    var c := chains[h];
    var after := Joined(mem, c, t);
    EndOf(mem, chains, h);
    EndIsMember(mem, chains, h, h);
    forall x | x in after ensures CountedAt(after, held - multiset{t}, x) {
      assert CountedAt(mem, held, x);
      JoinPreds(mem, c, t, x);
    }
  }

  lemma {:induction false} JoinPreds(mem: Mem, c: seq<Ptr>, t: Ptr, x: Ptr)
    requires c != [] && t in mem && LastOf(c) in c && LastOf(c) in mem && mem[LastOf(c)].next == None
    ensures |Preds(Joined(mem, c, t), x)| == |Preds(mem, x)| + (if x == t then 1 else 0)
  {
    var after := Joined(mem, c, t);
    assert Preds(after, x) == Preds(mem, x) + (if x == t then {LastOf(c)} else {});
    assert LastOf(c) !in Preds(mem, x);
  }

  /** pbuf_cat: the reference the program held to the tail becomes that of the chain, whoever else
      refers into the chain. */
  lemma {:induction false} CatKeeps(mem: Mem, chains: Chains, held: Held, h: Ptr, t: Ptr)
    requires Tied(mem, chains, held) && h in mem && t in held && h in chains && t in chains && chains[h] != []
    requires Apart(chains[h], chains[t])
    ensures Tied(Joined(mem, chains[h], t), JoinedChains(chains, chains[h], t), held - multiset{t})
  {
    hide Linked, Joined, JoinedChains;
    JoinLinked(mem, chains, h, t);
    JoinCounted(mem, chains, held, h, t);
  }

  /** The packet of h then is the bytes of the two packets one after the other. */
  lemma {:induction false} CatContent(mem: Mem, chains: Chains, h: Ptr, t: Ptr)
    requires Linked(mem, chains) && h in mem && t in mem && h in chains && t in chains
    requires Apart(chains[h], chains[t]) && chains[h] != []
    requires Linked(Joined(mem, chains[h], t), JoinedChains(chains, chains[h], t))
    ensures Content(Joined(mem, chains[h], t), JoinedChains(chains, chains[h], t), Some(h))
         == Content(mem, chains, Some(h)) + Content(mem, chains, Some(t))
  {
    hide Linked, Content, Joined, JoinedChains;
    var c := chains[h];
    var after, chains' := Joined(mem, c, t), JoinedChains(chains, c, t);
    ContentIs(mem, chains, h);
    ContentIs(mem, chains, t);
    JoinedMembers(mem, chains, c, t, h);
    ContentIs(after, chains', h);
    JoinedBytes(mem, c, t, c);
    JoinedBytes(mem, c, t, chains[t]);
    BytesAppend(after, c, chains[t]);
  }

  lemma {:induction false} JoinedBytes(mem: Mem, c: seq<Ptr>, t: Ptr, d: seq<Ptr>)
    requires c != [] && t in mem && forall x | x in d :: x in mem
    ensures (forall x | x in d :: x in Joined(mem, c, t)) && Bytes(Joined(mem, c, t), d) == Bytes(mem, d)
  {
    BytesSame(mem, Joined(mem, c, t), d);
  }

  // ---------------------------------------------------------------------
  // pbuf_chain

  lemma {:induction false} HeldLives(mem: Mem, chains: Chains, held: Held, t: Ptr)
    requires Tied(mem, chains, held) && t in held
    ensures t in mem && t in chains
  {
  }

  /** pbuf_chain is pbuf_cat and a further reference to the tail, so the program's stays. */
  lemma {:induction false} ChainKeeps(mem: Mem, chains: Chains, held: Held, h: Ptr, t: Ptr)
    requires Tied(mem, chains, held) && h in mem && t in held && h in chains && t in chains && chains[h] != []
    requires Apart(chains[h], chains[t])
    ensures t in Joined(mem, chains[h], t)
    ensures Tied(Referenced(Joined(mem, chains[h], t), t), JoinedChains(chains, chains[h], t), held)
  {
    hide Tied, JoinedChains;
    CatKeeps(mem, chains, held, h, t);
    HeldLives(mem, chains, held, t);
    RefKeeps(Joined(mem, chains[h], t), JoinedChains(chains, chains[h], t), held - multiset{t}, t);
    assert held - multiset{t} + multiset{t} == held;
  }

  // ---------------------------------------------------------------------
  // Chains that end earlier

  /** The chains once k is the last pbuf of every chain it is on. */
  function Truncated(chains: Chains, k: Ptr): Chains
    requires k in chains
  {
    map x | x in chains :: TruncatedAt(chains, k, x)
  }

  function TruncatedAt(chains: Chains, k: Ptr, x: Ptr): seq<Ptr>
    requires k in chains && x in chains
  {
    if k in chains[x] && |chains[x]| >= |chains[k]| > 0 then chains[x][..|chains[x]| - |chains[k]| + 1] else chains[x]
  }

  /** Only k's next field is cleared. */
  ghost predicate Severed(mem: Mem, after: Mem, k: Ptr) {
    && after.Keys == mem.Keys
    && forall x | x in mem :: after[x].next == (if x == k then None else mem[x].next) && after[x].refs == mem[x].refs
  }

  lemma {:induction false} SeverLinked(mem: Mem, after: Mem, chains: Chains, k: Ptr)
    requires Linked(mem, chains) && k in mem && k in chains && Severed(mem, after, k)
    ensures Linked(after, Truncated(chains, k))
  {
    var chains' := Truncated(chains, k);
    forall x | x in after ensures LinkedAt(after, chains', x) { SeverLinkedAt(mem, after, chains, k, x); }
  }

  lemma {:induction false} SeverLinkedAt(mem: Mem, after: Mem, chains: Chains, k: Ptr, x: Ptr)
    requires Linked(mem, chains) && chains.Keys == mem.Keys && k in mem && Severed(mem, after, k) && x in mem
    ensures LinkedAt(after, Truncated(chains, k), x)
  {
    var rest := LinkOf(mem, chains, x);
    var r := LinkOf(mem, chains, k);
    if x != k && k in chains[x] { InChain(mem, chains, mem[x].next.value, k); }
    assert after[x].next == if x == k then None else mem[x].next;
    hide Linked, Severed;
    SeverCase(mem, after, chains, k, x, rest);
  }

  lemma {:induction false} SeverCase(mem: Mem, after: Mem, chains: Chains, k: Ptr, x: Ptr, rest: seq<Ptr>)
    requires chains.Keys == mem.Keys == after.Keys && k in mem && x in mem && chains[x] == [x] + rest
    requires chains[k] != [] && chains[k][0] == k
    requires after[x].next == if x == k then None else mem[x].next
    requires match mem[x].next
             case None => rest == []
             case Some(q) => q in mem && rest == chains[q] && (x != k && k in chains[x] ==> |chains[k]| <= |chains[q]|)
    ensures LinkedAt(after, Truncated(chains, k), x)
  {
    KeptUpTo(chains, k, x);
    if x == k {
      assert chains[k][..1] == [k];
    } else if mem[x].next.Some? {
      var q := mem[x].next.value;
      KeptUpTo(chains, k, q);
      hide Truncated;
      assert k in chains[x] <==> k in rest;
      if k in chains[x] {
        TruncCons(x, chains[q], |chains[q]| - |chains[k]| + 1);
      }
    }
  }

  lemma {:induction false} KeptUpTo(chains: Chains, k: Ptr, x: Ptr)
    requires k in chains && x in chains
    ensures x in Truncated(chains, k) && Truncated(chains, k)[x] == TruncatedAt(chains, k, x)
  {
  }

  lemma {:induction false} TruncCons(x: Ptr, c: seq<Ptr>, k: nat)
    requires 0 < k <= |c|
    ensures ([x] + c)[..k + 1] == [x] + c[..k]
  {
  }

  lemma {:induction false} SeverPreds(mem: Mem, after: Mem, k: Ptr, x: Ptr)
    requires k in mem && Severed(mem, after, k)
    ensures |Preds(after, x)| == |Preds(mem, x)| - (if mem[k].next == Some(x) then 1 else 0)
  {
    assert Preds(after, x) == Preds(mem, x) - {k};
  }

  function PlusNext(held: Held, next: Option<Ptr>): Held {
    held + (if next.Some? then multiset{next.value} else multiset{})
  }

  lemma {:induction false} PlusNextCount(held: Held, next: Option<Ptr>, x: Ptr)
    ensures PlusNext(held, next)[x] == held[x] + (if next == Some(x) then 1 else 0)
  {
  }

  /** What k referred to is then up for the program to give up. */
  lemma {:induction false} SeverKeeps(mem: Mem, after: Mem, chains: Chains, held: Held, k: Ptr)
    requires Tied(mem, chains, held) && k in mem && k in chains && Severed(mem, after, k)
    ensures Tied(after, Truncated(chains, k), PlusNext(held, mem[k].next))
  {
    SeverLinked(mem, after, chains, k);
    NoSelfLoop(mem, chains, k);
    hide Linked, Truncated, Severed, Counted;
    SeverCounted(mem, after, held, k);
  }

  lemma {:induction false} SeverCounted(mem: Mem, after: Mem, held: Held, k: Ptr)
    requires Counted(mem, held) && k in mem && Severed(mem, after, k)
    requires mem[k].next.Some? ==> mem[k].next.value in mem
    ensures Counted(after, PlusNext(held, mem[k].next))
  {
    var held' := PlusNext(held, mem[k].next);
    forall x | x in held' ensures x in after {
      PlusNextCount(held, mem[k].next, x);
      assert x in held || mem[k].next == Some(x);
    }
    hide PlusNext;
    forall x | x in after ensures CountedAt(after, held', x) { SeverCountedAt(mem, after, held, k, x); }
  }

  lemma {:induction false} SeverCountedAt(mem: Mem, after: Mem, held: Held, k: Ptr, x: Ptr)
    requires Counted(mem, held) && k in mem && Severed(mem, after, k) && x in mem
    ensures CountedAt(after, PlusNext(held, mem[k].next), x)
  {
    assert CountedAt(mem, held, x);
    SeverPreds(mem, after, k, x);
    PlusNextCount(held, mem[k].next, x);
    hide Counted, Severed, PlusNext, Preds;
  }

  /** Severing and giving up what followed: the program holds what it held before. */
  lemma {:induction false} SeverAndFree(mem: Mem, after: Mem, chains: Chains, held: Held, k: Ptr)
    requires Tied(mem, chains, held) && k in mem && k in chains && Severed(mem, after, k)
    ensures var freed := Released(after, From(chains, mem[k].next));
            Tied(freed, Kept(Truncated(chains, k), freed), held)
  {
    SeverKeeps(mem, after, chains, held, k);
    NextUntouched(mem, chains, held, k);
    SeveredKeys(mem, after, chains, held, k);
    hide *;
    var next := mem[k].next;
    if next.Some? {
      FreeKeeps(after, Truncated(chains, k), PlusNext(held, next), next.value);
      PlusMinus(held, next.value);
    } else {
      PlusNothing(held);
      FromNone(chains);
      ReleasedNone(after);
      KeptAll(Truncated(chains, k), after);
    }
  }

  lemma {:induction false} PlusMinus(held: Held, q: Ptr)
    ensures q in PlusNext(held, Some(q)) && PlusNext(held, Some(q)) - multiset{q} == held
  {
  }

  lemma {:induction false} PlusNothing(held: Held)
    ensures PlusNext(held, None) == held
  {
  }

  /** The chain of what followed does not change. */
  lemma {:induction false} NextUntouched(mem: Mem, chains: Chains, held: Held, k: Ptr)
    requires Tied(mem, chains, held) && k in mem && k in chains
    ensures mem[k].next.Some? ==>
              var q := mem[k].next.value;
              q in chains && q in Truncated(chains, k) && Truncated(chains, k)[q] == chains[q] == From(chains, mem[k].next)
    ensures k !in From(chains, mem[k].next)
  {
    if k in From(chains, mem[k].next) { RestOmits(mem, chains, k, k); }
    NoSelfLoop(mem, chains, k);
  }

  lemma {:induction false} SeveredKeys(mem: Mem, after: Mem, chains: Chains, held: Held, k: Ptr)
    requires Tied(mem, chains, held) && k in mem && k in chains && Severed(mem, after, k)
    ensures Truncated(chains, k).Keys == after.Keys
  {
  }

  // ---------------------------------------------------------------------
  // pbuf_dechain

  /** Memory with p cut off from what follows it; what follows gets the total length that is left,
      in 16 bits. */
  function Cut(mem: Mem, p: Ptr): Mem
    requires p in mem
  {
    map x | x in mem :: CutPbuf(mem, p, x)
  }

  function CutPbuf(mem: Mem, p: Ptr, x: Ptr): Pbuf
    requires p in mem && x in mem
  {
    if x == p && mem[p].next.Some? then mem[p].(next := None, totLen := |mem[p].data|)
    else if mem[p].next == Some(x) then mem[x].(totLen := (mem[p].totLen - |mem[p].data|) % M16)
    else mem[x]
  }

  lemma {:induction false} CutSevers(mem: Mem, chains: Chains, p: Ptr)
    requires Linked(mem, chains) && p in mem
    ensures Severed(mem, Cut(mem, p), p)
  {
    NoSelfLoop(mem, chains, p);
    hide Linked;
  }

  /** pbuf_dechain keeps the total lengths exactly if p heads its chain, or the rest is empty. */
  lemma {:induction false} CutTotLens(mem: Mem, chains: Chains, p: Ptr)
    requires Linked(mem, chains) && TotLens(mem) && p in mem
    ensures TotLens(Cut(mem, p)) <==> Preds(mem, p) == {} || TotOf(mem, mem[p].next) == 0
  {
    CutWhole(mem, chains, p);
    if Preds(mem, p) == {} || TotOf(mem, mem[p].next) == 0 {
      forall x | x in Cut(mem, p) ensures TotAt(Cut(mem, p), x) {
        TotStep(mem, x);
        NoSelfLoop(mem, chains, x);
        assert mem[x].next == Some(p) ==> x in Preds(mem, p);
        hide Linked, TotLens, Preds;
        CutTotAt(mem, p, x);
      }
    } else {
      var x :| x in Preds(mem, p);
      CutBreaks(mem, chains, p, x);
    }
  }

  /** With right total lengths, only p is written. */
  lemma {:induction false} CutWhole(mem: Mem, chains: Chains, p: Ptr)
    requires Linked(mem, chains) && TotLens(mem) && p in mem
    ensures Cut(mem, p) == mem[p := mem[p].(next := None, totLen := |mem[p].data|)]
  {
    NoSelfLoop(mem, chains, p);
    TotStep(mem, p);
    hide Linked, TotLens;
    var after := mem[p := mem[p].(next := None, totLen := |mem[p].data|)];
    forall x | x in mem ensures Cut(mem, p)[x] == after[x] { CutWholeAt(mem, p, x); }
    assert Cut(mem, p).Keys == after.Keys;
    MapSame(Cut(mem, p), after);
  }

  lemma {:induction false} CutWholeAt(mem: Mem, p: Ptr, x: Ptr)
    requires p in mem && x in mem && TotAt(mem, p) && (mem[p].next.Some? ==> mem[p].next.value in mem && mem[p].next.value != p)
    ensures CutPbuf(mem, p, x) == if x == p then mem[p].(next := None, totLen := |mem[p].data|) else mem[x]
  {
    if mem[p].next == Some(x) {
      assert mem[x].(totLen := mem[x].totLen) == mem[x];
      assert mem[x].totLen == mem[p].totLen - |mem[p].data|;
    }
  }

  lemma {:induction false} CutTotAt(mem: Mem, p: Ptr, x: Ptr)
    requires p in mem && x in mem && TotAt(mem, p) && TotAt(mem, x) && (mem[x].next.Some? ==> mem[x].next.value in mem)
    requires mem[x].next == Some(p) ==> TotOf(mem, mem[p].next) == 0
    requires Cut(mem, p) == mem[p := mem[p].(next := None, totLen := |mem[p].data|)]
    ensures TotAt(Cut(mem, p), x)
  {
  }

  lemma {:induction false} CutBreaks(mem: Mem, chains: Chains, p: Ptr, x: Ptr)
    requires Linked(mem, chains) && TotLens(mem) && p in mem && x in Preds(mem, p) && TotOf(mem, mem[p].next) != 0
    requires Cut(mem, p) == mem[p := mem[p].(next := None, totLen := |mem[p].data|)]
    ensures x in mem && x != p && !TotAt(Cut(mem, p), x)
  {
    TotStep(mem, x);
    TotStep(mem, p);
    NoSelfLoop(mem, chains, p);
  }

  function Dechained(mem: Mem, chains: Chains, p: Ptr): Mem
    requires p in mem
  {
    Released(Cut(mem, p), From(chains, mem[p].next))
  }

  /** pbuf_dechain as a whole keeps counts and links right wherever p stands, and the program holds
      what it held before. */
  lemma {:induction false} DechainKeeps(mem: Mem, chains: Chains, held: Held, p: Ptr)
    requires Tied(mem, chains, held) && p in mem && p in chains
    ensures var after := Dechained(mem, chains, p);
            Tied(after, Kept(Truncated(chains, p), after), held)
  {
    CutSevers(mem, chains, p);
    hide Linked, Counted, Truncated, Cut, Kept, Released;
    SeverAndFree(mem, Cut(mem, p), chains, held, p);
  }

  /** A wrong total length off the chain that is given up stays wrong. */
  lemma {:induction false} StillWrong(mem: Mem, c: seq<Ptr>, x: Ptr)
    requires x in mem && x !in c && !TotAt(mem, x)
    requires mem[x].next.Some? ==> mem[x].next.value in mem && mem[x].next.value !in c
    ensures !TotLens(Released(mem, c))
  {
    OffChain(mem, c, x);
    if mem[x].next.Some? { OffChain(mem, c, mem[x].next.value); }
    hide Released;
    assert !TotAt(Released(mem, c), x);
  }

  /** The total lengths stay right exactly if p heads its chain, or what follows has no bytes. */
  lemma {:induction false} DechainTotLens(mem: Mem, chains: Chains, held: Held, p: Ptr)
    requires Tied(mem, chains, held) && TotLens(mem) && p in mem && p in chains
    ensures TotLens(Dechained(mem, chains, p)) <==> Preds(mem, p) == {} || TotOf(mem, mem[p].next) == 0
  {
    CutTotLens(mem, chains, p);
    CutSevers(mem, chains, p);
    if Preds(mem, p) == {} || TotOf(mem, mem[p].next) == 0 {
      SeverKeeps(mem, Cut(mem, p), chains, held, p);
      NextUntouched(mem, chains, held, p);
      hide *;
      FreedTotLens(Cut(mem, p), chains, Truncated(chains, p), held, mem[p].next);
      DechainedIs(mem, chains, p);
    } else {
      var x :| x in Preds(mem, p);
      CutWhole(mem, chains, p);
      CutBreaks(mem, chains, p, x);
      NextUntouched(mem, chains, held, p);
      PredOff(mem, chains, p, x);
      assert Cut(mem, p)[x] == mem[x] && Cut(mem, p).Keys == mem.Keys;
      hide Linked, TotLens, Cut, Preds, Released;
      StillWrong(Cut(mem, p), From(chains, mem[p].next), x);
    }
  }

  lemma {:induction false} DechainedIs(mem: Mem, chains: Chains, p: Ptr)
    requires p in mem
    ensures Dechained(mem, chains, p) == Released(Cut(mem, p), From(chains, mem[p].next))
  {
  }

  lemma {:induction false} PredOff(mem: Mem, chains: Chains, p: Ptr, x: Ptr)
    requires Linked(mem, chains) && p in mem && x in Preds(mem, p) && p !in From(chains, mem[p].next)
    ensures x !in From(chains, mem[p].next) && mem[x].next == Some(p)
  {
    if x in From(chains, mem[p].next) {
      NextInChain(mem, chains, mem[p].next.value, x);
    }
  }

  /** Giving up what followed a severed pbuf keeps right total lengths. */
  lemma {:induction false} FreedTotLens(after: Mem, chains: Chains, chains': Chains, held: Held, next: Option<Ptr>)
    requires Tied(after, chains', PlusNext(held, next)) && TotLens(after)
    requires next.Some? ==> next.value in chains' && chains'[next.value] == From(chains, next)
    ensures TotLens(Released(after, From(chains, next)))
  {
    hide *;
    if next.Some? {
      PlusMinus(held, next.value);
      FreeTotLens(after, chains', PlusNext(held, next), next.value);
    } else {
      FromNone(chains);
      ReleasedNone(after);
    }
  }

  /** pbuf_chain: as pbuf_cat. */
  lemma {:induction false} ChainTotLens(mem: Mem, chains: Chains, h: Ptr, t: Ptr)
    requires Linked(mem, chains) && TotLens(mem) && h in mem && t in mem && h in chains && t in chains && chains[h] != []
    requires Apart(chains[h], chains[t]) && mem[h].totLen + mem[t].totLen < M16
    ensures t in Joined(mem, chains[h], t)
    ensures TotLens(Referenced(Joined(mem, chains[h], t), t)) <==> mem[t].totLen == 0 || Private(mem, chains[h])
  {
    JoinTotLens(mem, chains, h, t);
    var after := Joined(mem, chains[h], t);
    hide Linked, TotLens, Private;
    WithRefsTot(after, t, after[t].refs + 1);
  }
}
