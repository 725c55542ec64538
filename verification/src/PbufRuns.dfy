/**
 Every run of pbuf operations: reference counts stay exact, so that nothing reachable is ever
 freed and nothing unreachable stays allocated; and total lengths stay right exactly as long as
 they are not changed behind the back of another chain.
 */
module PbufRuns {
  import opened Common
  import opened Pbuf
  import opened PbufRefs
  import opened PbufOps
  import opened PbufShape

  // ---------------------------------------------------------------------
  // Where pbuf_realloc cuts

  datatype Cutoff = Cutoff(rest: seq<Ptr>, rem: nat)

  /** The rest of chain c from the pbuf on in which the rem-th byte lies, and the bytes of that
      pbuf up to there. */
  function CutAt(mem: Mem, c: seq<Ptr>, rem: nat): (r: Cutoff)
    requires c != []
    ensures r.rest != [] && r.rest[0] in c
  {
    if |c| == 1 || c[0] !in mem || rem <= |mem[c[0]].data| then Cutoff(c, rem)
    else CutAt(mem, c[1..], rem - |mem[c[0]].data|)
  }

  /** What the walk finds: a pbuf of the chain with the new end of the packet in it. */
  ghost predicate CutsAt(mem: Mem, chains: Chains, p: Ptr, newLen: nat, cut: Cutoff, k: Ptr)
    requires Linked(mem, chains) && p in mem
  {
    && cut.rest != [] && k == cut.rest[0] && k in mem && k in chains && chains[k] == cut.rest
    && NthLast(chains, p, |cut.rest|, k) && cut.rem <= |mem[k].data|
    && |Content(mem, chains, Some(p))| - |Content(mem, chains, Some(k))| + cut.rem == newLen
  }

  lemma {:induction false} CutAtIs(mem: Mem, chains: Chains, p: Ptr, newLen: nat)
    requires Linked(mem, chains) && p in mem && newLen <= |Content(mem, chains, Some(p))|
    ensures p in chains && chains[p] != []
    ensures var cut := CutAt(mem, chains[p], newLen); CutsAt(mem, chains, p, newLen, cut, cut.rest[0])
    decreases |From(chains, Some(p))|
  {
    var rest := LinkOf(mem, chains, p);
    ContentStep(mem, chains, p);
    if newLen > |mem[p].data| {
      NotTheEnd(mem, chains, p, newLen);
      var q := mem[p].next.value;
      var r := LinkOf(mem, chains, q);
      CutAtIs(mem, chains, q, newLen - |mem[p].data|);
      assert chains[p][1..] == chains[q];
      hide Linked, Content;
    } else {
      hide Linked, Content;
      assert CutAt(mem, chains[p], newLen) == Cutoff(chains[p], newLen);
    }
  }

  /** A pbuf with fewer bytes than the packet is not its last. */
  lemma {:induction false} NotTheEnd(mem: Mem, chains: Chains, p: Ptr, newLen: nat)
    requires Linked(mem, chains) && p in mem && |mem[p].data| < newLen <= |Content(mem, chains, Some(p))|
    ensures mem[p].next.Some? && mem[p].next.value in mem && mem[p].next.value in chains
  {
    ContentStep(mem, chains, p);
    assert Content(mem, chains, None) == [];
  }

  // ---------------------------------------------------------------------
  // pbuf_realloc as a whole

  function Realloced(mem: Mem, chains: Chains, p: Ptr, newLen: nat): Mem
    requires p in chains && chains.Keys == mem.Keys && chains[p] != [] && newLen < mem[p].totLen
  {
    var cut := CutAt(mem, chains[p], newLen);
    Released(Ended(mem, chains, p, newLen), cut.rest[1..])
  }

  function ReallocedChains(mem: Mem, chains: Chains, p: Ptr, newLen: nat): Chains
    requires p in chains && chains.Keys == mem.Keys && chains[p] != [] && newLen < mem[p].totLen
  {
    var k := CutAt(mem, chains[p], newLen).rest[0];
    Kept(if k in chains then Truncated(chains, k) else chains, Realloced(mem, chains, p, newLen))
  }

  /** The memory in which the chain ends with k, before what follows is given up. */
  function Ended(mem: Mem, chains: Chains, p: Ptr, newLen: nat): Mem
    requires p in chains && chains.Keys == mem.Keys && chains[p] != [] && newLen < mem[p].totLen
  {
    var cut := CutAt(mem, chains[p], newLen);
    Shrunk(mem, chains, p, |cut.rest|, cut.rem, mem[p].totLen - newLen)
  }

  /** What pbuf_realloc does: it ends the chain in pbuf k and releases what followed. */
  lemma {:induction false} ReallocCut(mem: Mem, chains: Chains, held: Held, p: Ptr, newLen: nat) returns (cut: Cutoff, k: Ptr)
    requires Tied(mem, chains, held) && p in mem && p in chains && chains.Keys == mem.Keys && chains[p] != []
    requires Linked(mem, chains) && newLen < mem[p].totLen && newLen <= |Content(mem, chains, Some(p))|
    ensures cut == CutAt(mem, chains[p], newLen) && CutsAt(mem, chains, p, newLen, cut, k)
    ensures k in mem && k in chains && cut.rest != [] && cut.rest[0] == k && chains[k] == cut.rest && cut.rem <= |mem[k].data|
    ensures NthLast(chains, p, |cut.rest|, k) && cut.rest[1..] == From(chains, mem[k].next)
    ensures |Content(mem, chains, Some(p))| - |Content(mem, chains, Some(k))| + cut.rem == newLen
    ensures Severed(mem, Ended(mem, chains, p, newLen), k)
    ensures Ended(mem, chains, p, newLen) == Shrunk(mem, chains, p, |cut.rest|, cut.rem, mem[p].totLen - newLen)
    ensures Realloced(mem, chains, p, newLen) == Released(Ended(mem, chains, p, newLen), cut.rest[1..])
    ensures ReallocedChains(mem, chains, p, newLen) == Kept(Truncated(chains, k), Realloced(mem, chains, p, newLen))
  {
    hide *;
    CutAtIs(mem, chains, p, newLen);
    cut := CutAt(mem, chains[p], newLen);
    k := cut.rest[0];
    CutParts(mem, chains, p, newLen, cut, k);
    RestIs(mem, chains, k);
    ReallocParts(mem, chains, p, newLen);
    ShrinkSevers(mem, chains, p, |cut.rest|, cut.rem, mem[p].totLen - newLen, k);
  }

  lemma {:induction false} CutParts(mem: Mem, chains: Chains, p: Ptr, newLen: nat, cut: Cutoff, k: Ptr)
    requires Linked(mem, chains) && p in mem && CutsAt(mem, chains, p, newLen, cut, k)
    ensures k in mem && k in chains && cut.rest != [] && chains[k] == cut.rest && cut.rem <= |mem[k].data|
    ensures NthLast(chains, p, |cut.rest|, k)
    ensures |Content(mem, chains, Some(p))| - |Content(mem, chains, Some(k))| + cut.rem == newLen
  {
    hide Content, Linked;
  }

  lemma {:induction false} ReallocParts(mem: Mem, chains: Chains, p: Ptr, newLen: nat)
    requires p in chains && chains.Keys == mem.Keys && chains[p] != [] && newLen < mem[p].totLen
    ensures var cut, ended := CutAt(mem, chains[p], newLen), Ended(mem, chains, p, newLen);
            && ended == Shrunk(mem, chains, p, |cut.rest|, cut.rem, mem[p].totLen - newLen)
            && Realloced(mem, chains, p, newLen) == Released(ended, cut.rest[1..])
    ensures var k := CutAt(mem, chains[p], newLen).rest[0];
            k in chains ==>
              ReallocedChains(mem, chains, p, newLen) == Kept(Truncated(chains, k), Realloced(mem, chains, p, newLen))
  {
    hide CutAt, Shrunk, Released, Kept, Truncated;
  }

  lemma {:induction false} RestIs(mem: Mem, chains: Chains, k: Ptr)
    requires Linked(mem, chains) && k in mem
    ensures k in chains && chains[k] != [] && chains[k][1..] == From(chains, mem[k].next)
  {
    var rest := LinkOf(mem, chains, k);
  }

  /** pbuf_realloc keeps counts and links right, whoever else refers into the chain, and the
      program holds what it held. */
  lemma {:induction false} ReallocKeeps(mem: Mem, chains: Chains, held: Held, p: Ptr, newLen: nat)
    requires Tied(mem, chains, held) && p in mem && p in chains && chains.Keys == mem.Keys && chains[p] != []
    requires Linked(mem, chains) && newLen < mem[p].totLen && newLen <= |Content(mem, chains, Some(p))|
    ensures Tied(Realloced(mem, chains, p, newLen), ReallocedChains(mem, chains, p, newLen), held)
  {
    var cut, k := ReallocCut(mem, chains, held, p, newLen);
    hide Tied, Realloced, ReallocedChains, Ended, CutAt, Content, Linked;
    SeverAndFree(mem, Ended(mem, chains, p, newLen), chains, held, k);
  }

  lemma {:induction false} ReallocLinked(mem: Mem, chains: Chains, held: Held, p: Ptr, newLen: nat)
    requires Tied(mem, chains, held) && p in mem && p in chains && chains.Keys == mem.Keys && chains[p] != []
    requires Linked(mem, chains) && newLen < mem[p].totLen && newLen <= |Content(mem, chains, Some(p))|
    ensures Linked(Realloced(mem, chains, p, newLen), ReallocedChains(mem, chains, p, newLen))
  {
    ReallocKeeps(mem, chains, held, p, newLen);
    hide Realloced, ReallocedChains, Linked, Counted, Content;
  }

  /** With right total lengths, the pbuf cut off counts what the packet loses. */
  lemma {:induction false} CutTotals(mem: Mem, chains: Chains, p: Ptr, newLen: nat, cut: Cutoff, k: Ptr)
    requires Linked(mem, chains) && TotLens(mem) && p in mem && CutsAt(mem, chains, p, newLen, cut, k)
    ensures mem[p].totLen == |Content(mem, chains, Some(p))|
    ensures newLen <= mem[p].totLen ==> mem[k].totLen == cut.rem + (mem[p].totLen - newLen)
  {
    TotLenCounts(mem, chains, Some(p));
    TotLenCounts(mem, chains, Some(k));
  }

  /** pbuf_realloc keeps the total lengths exactly if no other chain leads into the part that stays. */
  lemma {:induction false} ReallocTotLens(mem: Mem, chains: Chains, held: Held, p: Ptr, newLen: nat)
    requires Tied(mem, chains, held) && TotLens(mem) && p in mem && p in chains && chains.Keys == mem.Keys && chains[p] != []
    requires Linked(mem, chains) && newLen < mem[p].totLen && newLen <= |Content(mem, chains, Some(p))|
    ensures TotLens(Realloced(mem, chains, p, newLen)) <==> Owned(mem, chains, p, |CutAt(mem, chains[p], newLen).rest|)
  {
    hide *;
    var cut, k := ReallocCut(mem, chains, held, p, newLen);
    CutTotals(mem, chains, p, newLen, cut, k);
    var n, less, shrunk := |cut.rest|, mem[p].totLen - newLen, Ended(mem, chains, p, newLen);
    ShrinkTotLens(mem, chains, p, n, cut.rem, less, k);
    if Owned(mem, chains, p, n) {
      EndedFreed(mem, shrunk, chains, held, k);
    } else {
      var y := Intruder(mem, chains, p, n);
      ShrinkBreaks(mem, chains, p, n, cut.rem, less, k, y);
      IntruderOff(mem, chains, p, k, y);
      SeveredAt(mem, shrunk, k, y);
      StillWrong(shrunk, From(chains, mem[k].next), y);
    }
  }

  lemma {:induction false} EndedFreed(mem: Mem, after: Mem, chains: Chains, held: Held, k: Ptr)
    requires Tied(mem, chains, held) && k in mem && k in chains && Severed(mem, after, k) && TotLens(after)
    ensures TotLens(Released(after, From(chains, mem[k].next)))
  {
    SeverKeeps(mem, after, chains, held, k);
    NextUntouched(mem, chains, held, k);
    hide *;
    FreedTotLens(after, chains, Truncated(chains, k), held, mem[k].next);
  }

  lemma {:induction false} SeveredAt(mem: Mem, after: Mem, k: Ptr, y: Ptr)
    requires Severed(mem, after, k) && y in mem && y != k
    ensures y in after && after[y].next == mem[y].next && after.Keys == mem.Keys
  {
  }

  /** Who leads into the part that stays, and where to, is not in the part that goes. */
  lemma {:induction false} IntruderOff(mem: Mem, chains: Chains, p: Ptr, k: Ptr, y: Ptr)
    requires Linked(mem, chains) && p in mem && k in mem && k in chains && NthLast(chains, p, |chains[k]|, k)
    requires Intrudes(mem, chains, p, |chains[k]|, y)
    ensures var rest := From(chains, mem[k].next);
            y !in rest && y != k && mem[y].next.value in mem && mem[y].next.value !in rest
  {
    var r := LinkOf(mem, chains, k);
    var rest, z := From(chains, mem[k].next), mem[y].next.value;
    InChain(mem, chains, p, z);
    if y in rest {
      SubChain(mem, chains, p, k, y);
    }
    if z in rest {
      InChain(mem, chains, mem[k].next.value, z);
    }
  }

  lemma {:induction false} SubChain(mem: Mem, chains: Chains, p: Ptr, k: Ptr, y: Ptr)
    requires Linked(mem, chains) && p in mem && k in mem && k in chains[p] && y in From(chains, mem[k].next)
    ensures y in chains[p]
  {
    var front, rest := Around(mem, chains, p, k);
  }

  /** What the packet then holds is its first newLen bytes. */
  lemma {:induction false} ReallocContent(mem: Mem, chains: Chains, held: Held, p: Ptr, newLen: nat)
    requires Tied(mem, chains, held) && p in mem && p in chains && chains.Keys == mem.Keys && chains[p] != []
    requires Linked(mem, chains) && newLen < mem[p].totLen && newLen <= |Content(mem, chains, Some(p))|
    ensures var after, chains' := Realloced(mem, chains, p, newLen), ReallocedChains(mem, chains, p, newLen);
            Linked(after, chains') && p in after
            && Content(after, chains', Some(p)) == Content(mem, chains, Some(p))[..newLen]
  {
    hide *;
    var cut, k := ReallocCut(mem, chains, held, p, newLen);
    ReallocLinked(mem, chains, held, p, newLen);
    var shrunk := Ended(mem, chains, p, newLen);
    SeverLinked(mem, shrunk, chains, k);
    ShrinkContent(mem, chains, p, |cut.rest|, cut.rem, mem[p].totLen - newLen, k);
    RestIsOff(mem, chains, p, |cut.rest|, k);
    ReleaseContent(shrunk, Truncated(chains, k), p, cut.rest[1..]);
  }

  /** What is cut off is not on the chain that stays. */
  lemma {:induction false} RestIsOff(mem: Mem, chains: Chains, p: Ptr, n: nat, k: Ptr)
    requires Linked(mem, chains) && p in mem && k in mem && NthLast(chains, p, n, k) && n > 0
    ensures p in Truncated(chains, k) && chains[k] != []
    ensures forall x | x in chains[k][1..] :: x !in Truncated(chains, k)[p]
    ensures p in Truncated(chains, k)[p]
  {
    var front, rest := Around(mem, chains, p, k);
    TruncatedHead(mem, chains, p, n, k, front, rest);
    RestIs(mem, chains, k);
    ChainsDoNotRepeat(mem, chains, p);
    var s := LinkOf(mem, chains, p);
    hide Linked, Truncated;
    assert (front + [k])[0] == chains[p][0] == p;
    forall x | x in rest ensures x !in front + [k] { NotBefore(front + [k], rest, x); }
  }

  lemma {:induction false} NotBefore(a: seq<Ptr>, b: seq<Ptr>, x: Ptr)
    requires NoRepeat(a + b) && x in b
    ensures x !in a
  {
    var j :| 0 <= j < |b| && b[j] == x;
    forall i | 0 <= i < |a| ensures a[i] != x {
      assert (a + b)[i] == a[i] && (a + b)[|a| + j] == x;
    }
  }

  /** Releasing pbufs off the chain of p does not change the packet of p. */
  lemma {:induction false} ReleaseContent(mem: Mem, chains: Chains, p: Ptr, c: seq<Ptr>)
    requires Linked(mem, chains) && p in mem && p in chains && p in chains[p]
    requires forall x | x in c :: x !in chains[p]
    requires Linked(Released(mem, c), Kept(chains, Released(mem, c)))
    ensures p in Released(mem, c)
    ensures Content(Released(mem, c), Kept(chains, Released(mem, c)), Some(p)) == Content(mem, chains, Some(p))
  {
    var after := Released(mem, c);
    ContentIs(mem, chains, p);
    hide Linked, Content;
    forall x | x in chains[p] ensures x in after && after[x] == mem[x] { OffChain(mem, c, x); }
    ContentIs(after, Kept(chains, after), p);
    BytesSame(mem, after, chains[p]);
  }

  // ---------------------------------------------------------------------
  // Runs

  datatype World = World(mem: Mem, chains: Chains, held: Held)

  datatype Op =
    | Alloc(ids: seq<Ptr>, datas: seq<seq<byte>>)
    | Ref(p: Ptr)
    | Free(p: Ptr)
    | Cat(h: Ptr, t: Ptr)
    | Chain(h: Ptr, t: Ptr)
    | Dechain(p: Ptr)
    | Realloc(p: Ptr, newLen: nat)

  ghost predicate Good(w: World) {
    Tied(w.mem, w.chains, w.held)
  }

  ghost predicate JoinLegal(w: World, h: Ptr, t: Ptr) {
    && h in w.mem && h in w.chains && w.chains[h] != [] && t in w.held && t in w.mem && t in w.chains
    && Apart(w.chains[h], w.chains[t])
    && forall x | x in w.chains[h] && x in w.mem :: w.mem[x].totLen + w.mem[t].totLen < M16
  }

  /** What the operations ask of the program: it gives up only references it holds, does not
      chain a packet to itself or past the 16 bits of tot_len and ref, and does not have a packet
      shortened to more bytes than it has. */
  ghost predicate Legal(w: World, op: Op) {
    match op
    case Alloc(ids, datas) => |ids| == |datas| > 0 && Unused(w.mem, ids) && Total(datas) < M16
    case Ref(p) => p in w.mem && w.mem[p].refs < M16 - 1
    case Free(p) => p in w.held && p in w.chains
    case Cat(h, t) => JoinLegal(w, h, t)
    case Chain(h, t) => JoinLegal(w, h, t) && w.mem[t].refs < M16 - 1
    case Dechain(p) => p in w.mem && p in w.chains
    case Realloc(p, newLen) =>
      && p in w.mem && p in w.chains && w.chains.Keys == w.mem.Keys && w.chains[p] != [] && Linked(w.mem, w.chains)
      && (newLen < w.mem[p].totLen ==> newLen <= |Content(w.mem, w.chains, Some(p))|)
  }

  ghost function Apply(w: World, op: Op): World
    requires Legal(w, op)
  {
    var World(mem, chains, held) := w;
    match op
    case Alloc(ids, datas) =>
      World(Strung(mem, ids, datas, Total(datas)), StrungChains(chains, ids), held + multiset{ids[0]})
    case Ref(p) => World(Referenced(mem, p), chains, held + multiset{p})
    case Free(p) =>
      var after := Released(mem, chains[p]);
      World(after, Kept(chains, after), held - multiset{p})
    case Cat(h, t) => World(Joined(mem, chains[h], t), JoinedChains(chains, chains[h], t), held - multiset{t})
    case Chain(h, t) => World(Referenced(Joined(mem, chains[h], t), t), JoinedChains(chains, chains[h], t), held)
    case Dechain(p) =>
      var after := Dechained(mem, chains, p);
      World(after, Kept(Truncated(chains, p), after), held)
    case Realloc(p, newLen) =>
      if newLen >= mem[p].totLen then w
      else World(Realloced(mem, chains, p, newLen), ReallocedChains(mem, chains, p, newLen), held)
  }

  lemma {:induction false} StepKeeps(w: World, op: Op)
    requires Good(w) && Legal(w, op)
    ensures Good(Apply(w, op))
  {
    var World(mem, chains, held) := w;
    match op
    case Alloc(ids, datas) => AllocKeeps(mem, chains, held, ids, datas);
    case Ref(p) => RefKeeps(mem, chains, held, p);
    case Free(p) => FreeKeeps(mem, chains, held, p);
    case Cat(h, t) => CatKeeps(mem, chains, held, h, t);
    case Chain(h, t) => ChainKeeps(mem, chains, held, h, t);
    case Dechain(p) => DechainKeeps(mem, chains, held, p);
    case Realloc(p, newLen) =>
      if newLen < mem[p].totLen { ReallocKeeps(mem, chains, held, p, newLen); }
  }

  /** No total length is changed that another chain relies on. */
  ghost predicate LengthsSafe(w: World, op: Op)
    requires Legal(w, op)
  {
    match op
    case Alloc(_, _) => true
    case Ref(_) => true
    case Free(_) => true
    case Cat(h, t) => w.mem[t].totLen == 0 || Private(w.mem, w.chains[h])
    case Chain(h, t) => w.mem[t].totLen == 0 || Private(w.mem, w.chains[h])
    case Dechain(p) => Preds(w.mem, p) == {} || TotOf(w.mem, w.mem[p].next) == 0
    case Realloc(p, newLen) =>
      newLen >= w.mem[p].totLen || Owned(w.mem, w.chains, p, |CutAt(w.mem, w.chains[p], newLen).rest|)
  }

  /** Exactly then do all total lengths stay right. */
  lemma {:induction false} StepTotLens(w: World, op: Op)
    requires Good(w) && Legal(w, op) && TotLens(w.mem)
    ensures TotLens(Apply(w, op).mem) <==> LengthsSafe(w, op)
  {
    hide Tied, Linked, TotLens, Private, Owned, Preds, Content, CutAt, Realloced, ReallocedChains, Total, Unused;
    hide Strung, StrungChains, Joined, JoinedChains, Released, Kept, Dechained, Truncated, Referenced, Apart;
    match op
    case Alloc(ids, datas) => AllocTotLens(w.mem, w.chains, w.held, ids, datas);
    case Ref(p) => RefTotLens(w.mem, p);
    case Free(p) => FreeTotLens(w.mem, w.chains, w.held, p);
    case Cat(h, t) => JoinStep(w, h, t);
    case Chain(h, t) => JoinStep(w, h, t);
    case Dechain(p) => DechainTotLens(w.mem, w.chains, w.held, p);
    case Realloc(p, newLen) =>
      if newLen < w.mem[p].totLen { ReallocTotLens(w.mem, w.chains, w.held, p, newLen); }
  }

  lemma {:induction false} RefTotLens(mem: Mem, p: Ptr)
    requires TotLens(mem) && p in mem
    ensures TotLens(Referenced(mem, p))
  {
    hide TotLens;
    WithRefsTot(mem, p, mem[p].refs + 1);
  }

  lemma {:induction false} JoinStep(w: World, h: Ptr, t: Ptr)
    requires Good(w) && JoinLegal(w, h, t) && TotLens(w.mem)
    ensures var safe := w.mem[t].totLen == 0 || Private(w.mem, w.chains[h]);
            && (TotLens(Joined(w.mem, w.chains[h], t)) <==> safe)
            && t in Joined(w.mem, w.chains[h], t)
            && (TotLens(Referenced(Joined(w.mem, w.chains[h], t), t)) <==> safe)
  {
    HeadOnChain(w.mem, w.chains, h);
    JoinTotLens(w.mem, w.chains, h, t);
    ChainTotLens(w.mem, w.chains, h, t);
  }

  lemma {:induction false} HeadOnChain(mem: Mem, chains: Chains, h: Ptr)
    requires Linked(mem, chains) && h in mem
    ensures h in chains && h in chains[h]
  {
    var rest := LinkOf(mem, chains, h);
  }

  // ---------------------------------------------------------------------
  // What operations do to the bytes

  lemma {:induction false} ReleasedData(mem: Mem, c: seq<Ptr>, x: Ptr)
    requires x in Released(mem, c)
    ensures x in mem && Released(mem, c)[x].data == mem[x].data
    decreases |c|
  {
    if c != [] && c[0] in mem && mem[c[0]].refs == 1 { ReleasedData(mem - {c[0]}, c[1..], x); }
  }

  lemma {:induction false} StrungData(mem: Mem, ids: seq<Ptr>, datas: seq<seq<byte>>, tot: nat, x: Ptr)
    requires |ids| == |datas| && x in mem && x !in ids
    ensures x in Strung(mem, ids, datas, tot) && Strung(mem, ids, datas, tot)[x] == mem[x]
    decreases |ids|
  {
    if ids != [] { StrungData(mem, ids[1..], datas[1..], if tot >= |datas[0]| then tot - |datas[0]| else 0, x); }
  }

  lemma {:induction false} ShrunkData(mem: Mem, chains: Chains, p: Ptr, n: nat, rem: nat, less: nat, x: Ptr)
    requires p in chains && chains.Keys == mem.Keys && x in mem
    ensures var after := Shrunk(mem, chains, p, n, rem, less); x in after && after[x].data <= mem[x].data
  {
  }

  /** No operation changes the bytes of a pbuf that was allocated before, except that pbuf_realloc may
      shorten them. */
  lemma {:induction false} DataStays(w: World, op: Op, x: Ptr)
    requires Good(w) && Legal(w, op) && x in w.mem && x in Apply(w, op).mem
    ensures Apply(w, op).mem[x].data <= w.mem[x].data
    ensures !op.Realloc? ==> Apply(w, op).mem[x].data == w.mem[x].data
  {
    var World(mem, chains, held) := w;
    hide Tied, Linked, Content, Released, Strung, Realloced, ReallocedChains, StrungChains, JoinedChains, Truncated, Kept;
    match op
    case Alloc(ids, datas) => StrungData(mem, ids, datas, Total(datas), x);
    case Free(p) => ReleasedData(mem, chains[p], x);
    case Dechain(p) => ReleasedData(Cut(mem, p), From(chains, mem[p].next), x);
    case Realloc(p, newLen) =>
      if newLen < mem[p].totLen { ReallocData(mem, chains, p, newLen, x); }
    case _ =>
  }

  lemma {:induction false} ReallocData(mem: Mem, chains: Chains, p: Ptr, newLen: nat, x: Ptr)
    requires p in chains && chains.Keys == mem.Keys && chains[p] != [] && newLen < mem[p].totLen
    requires x in Realloced(mem, chains, p, newLen)
    ensures x in mem && Realloced(mem, chains, p, newLen)[x].data <= mem[x].data
  {
    hide Released, Shrunk, CutAt;
    var cut := CutAt(mem, chains[p], newLen);
    ReleasedData(Ended(mem, chains, p, newLen), cut.rest[1..], x);
    ShrunkKeys(mem, chains, p, |cut.rest|, cut.rem, mem[p].totLen - newLen);
    ShrunkData(mem, chains, p, |cut.rest|, cut.rem, mem[p].totLen - newLen, x);
  }

  lemma {:induction false} ShrunkKeys(mem: Mem, chains: Chains, p: Ptr, n: nat, rem: nat, less: nat)
    requires p in chains && chains.Keys == mem.Keys
    ensures Shrunk(mem, chains, p, n, rem, less).Keys == mem.Keys
  {
  }

  /** pbuf_dechain splits a packet: the first pbuf keeps its bytes, and the rest, if still referenced,
      is the rest of the packet. */
  lemma {:induction false} DechainContent(mem: Mem, chains: Chains, held: Held, p: Ptr)
    requires Tied(mem, chains, held) && Linked(mem, chains) && p in mem && p in chains
    ensures var after := Dechained(mem, chains, p);
            var chains' := Kept(Truncated(chains, p), after);
            && Linked(after, chains') && p in after && Content(after, chains', Some(p)) == mem[p].data
            && (mem[p].next.Some? ==> mem[p].next.value in mem)
            && Content(mem, chains, Some(p)) == mem[p].data + Content(mem, chains, mem[p].next)
            && (mem[p].next.Some? && mem[p].next.value in after ==>
                  Content(after, chains', mem[p].next) == Content(mem, chains, mem[p].next))
  {
    var after := Dechained(mem, chains, p);
    var chains' := Kept(Truncated(chains, p), after);
    ContentStep(mem, chains, p);
    DechainLinked(mem, chains, held, p);
    HeadAlone(mem, chains, held, p);
    hide Tied, Linked, Content, Truncated, Kept, Dechained;
    SameData(mem, after, chains, p, [p]);
    ContentIs(after, chains', p);
    assert Bytes(after, [p]) == mem[p].data by { OneBytes(after, p); }
    if mem[p].next.Some? && mem[p].next.value in after {
      var q := mem[p].next.value;
      RestUncut(mem, chains, held, p);
      ContentIs(mem, chains, q);
      ContentIs(after, chains', q);
      SameData(mem, after, chains, p, chains[q]);
      BytesSame(mem, after, chains[q]);
    }
  }

  lemma {:induction false} DechainLinked(mem: Mem, chains: Chains, held: Held, p: Ptr)
    requires Tied(mem, chains, held) && p in mem && p in chains
    ensures var after := Dechained(mem, chains, p); Linked(after, Kept(Truncated(chains, p), after))
  {
    hide Linked, Counted, Truncated, Kept, Dechained;
    DechainKeeps(mem, chains, held, p);
  }

  lemma {:induction false} HeadAlone(mem: Mem, chains: Chains, held: Held, p: Ptr)
    requires Tied(mem, chains, held) && p in mem && p in chains
    ensures var after := Dechained(mem, chains, p);
            p in after && p in Kept(Truncated(chains, p), after) && Kept(Truncated(chains, p), after)[p] == [p]
  {
    NextUntouched(mem, chains, held, p);
    var rest := LinkOf(mem, chains, p);
    CutKeys(mem, p);
    hide Linked, Counted;
    OffChain(Cut(mem, p), From(chains, mem[p].next), p);
    assert chains[p][..1] == [p];
  }

  lemma {:induction false} CutKeys(mem: Mem, p: Ptr)
    requires p in mem
    ensures Cut(mem, p).Keys == mem.Keys && forall x | x in mem :: Cut(mem, p)[x].data == mem[x].data
  {
  }

  lemma {:induction false} RestUncut(mem: Mem, chains: Chains, held: Held, p: Ptr)
    requires Tied(mem, chains, held) && p in mem && p in chains && mem[p].next.Some?
    ensures var after, q := Dechained(mem, chains, p), mem[p].next.value;
            && q in mem && q in chains
            && (q in after ==> q in Kept(Truncated(chains, p), after) && Kept(Truncated(chains, p), after)[q] == chains[q])
  {
    var rest := LinkOf(mem, chains, p);
    NextUntouched(mem, chains, held, p);
    hide Linked, Counted, Truncated, Dechained;
  }

  lemma {:induction false} SameData(mem: Mem, after: Mem, chains: Chains, p: Ptr, c: seq<Ptr>)
    requires p in mem && after == Dechained(mem, chains, p)
    ensures forall x | x in c && x in after :: x in mem && after[x].data == mem[x].data
  {
    CutKeys(mem, p);
    hide Cut, Released;
    forall x | x in c && x in after ensures x in mem && after[x].data == mem[x].data {
      ReleasedData(Cut(mem, p), From(chains, mem[p].next), x);
    }
  }

  lemma {:induction false} OneBytes(mem: Mem, p: Ptr)
    requires p in mem
    ensures Bytes(mem, [p]) == mem[p].data
  {
    assert [p][1..] == [];
  }

  const EMPTY := World(map[], map[], multiset{})

  ghost predicate LegalRun(w: World, ops: seq<Op>)
    decreases |ops|
  {
    ops == [] || (Legal(w, ops[0]) && LegalRun(Apply(w, ops[0]), ops[1..]))
  }

  ghost function Run(w: World, ops: seq<Op>): World
    requires LegalRun(w, ops)
    decreases |ops|
  {
    if ops == [] then w else Run(Apply(w, ops[0]), ops[1..])
  }

  lemma {:induction false} RunKeeps(w: World, ops: seq<Op>)
    requires Good(w) && LegalRun(w, ops)
    ensures Good(Run(w, ops))
    decreases |ops|
  {
    if ops != [] {
      hide Good, Legal, Apply;
      StepKeeps(w, ops[0]);
      RunKeeps(Apply(w, ops[0]), ops[1..]);
    }
  }

  ghost predicate Reachable(w: World, x: Ptr) {
    exists h :: h in w.held && h in w.chains && x in w.chains[h]
  }

  /** After any run, a pbuf is allocated exactly if the program can still reach it and counts its
      references exactly; nothing is allocated exactly if the program has given up all its
      references. */
  lemma {:induction false} RunsAreSound(ops: seq<Op>)
    requires LegalRun(EMPTY, ops)
    ensures var w := Run(EMPTY, ops);
            && Good(w)
            && (forall x :: x in w.mem <==> Reachable(w, x))
            && (forall x | x in w.mem :: w.mem[x].refs == w.held[x] + |Preds(w.mem, x)|)
            && (w.held == multiset{} <==> w.mem == map[])
  {
    RunKeeps(EMPTY, ops);
    var w := Run(EMPTY, ops);
    hide Run, LegalRun;
    AllocatedIsReachable(w.mem, w.chains, w.held);
    AllFreed(w.mem, w.chains, w.held);
    forall x | x in w.mem ensures w.mem[x].refs == w.held[x] + |Preds(w.mem, x)| {
      assert CountedAt(w.mem, w.held, x);
    }
  }

  /** Every step of the run leaves the lengths that others rely on. */
  ghost predicate SafeRun(w: World, ops: seq<Op>)
    requires LegalRun(w, ops)
    decreases |ops|
  {
    ops == [] || (LengthsSafe(w, ops[0]) && SafeRun(Apply(w, ops[0]), ops[1..]))
  }

  lemma {:induction false} RunTotLens(w: World, ops: seq<Op>)
    requires Good(w) && LegalRun(w, ops) && TotLens(w.mem) && SafeRun(w, ops)
    ensures TotLens(Run(w, ops).mem)
    decreases |ops|
  {
    if ops != [] {
      hide Good, Legal, Apply, TotLens, LengthsSafe;
      StepKeeps(w, ops[0]);
      StepTotLens(w, ops[0]);
      RunTotLens(Apply(w, ops[0]), ops[1..]);
    }
  }

  /** After such a run, tot_len is the number of bytes of the packet, for every pbuf. */
  lemma {:induction false} RunsKeepTotals(ops: seq<Op>)
    requires LegalRun(EMPTY, ops) && SafeRun(EMPTY, ops)
    ensures var w := Run(EMPTY, ops);
            Linked(w.mem, w.chains) && forall x | x in w.mem :: w.mem[x].totLen == |Content(w.mem, w.chains, Some(x))|
  {
    RunKeeps(EMPTY, ops);
    RunTotLens(EMPTY, ops);
    var w := Run(EMPTY, ops);
    hide Run, LegalRun, SafeRun;
    forall x | x in w.mem ensures w.mem[x].totLen == |Content(w.mem, w.chains, Some(x))| {
      TotLenCounts(w.mem, w.chains, Some(x));
    }
  }
}
