/**
 Reference counts of pbufs: what pbuf_free gives back, and what every operation on chains
 keeps. References held by the rest of the program are a multiset of pbufs.
 */
module PbufRefs {
  import opened Common
  import opened Pbuf

  type Held = multiset<Ptr>

  /** The pbufs whose next field leads to p. */
  function Preds(mem: Mem, p: Ptr): set<Ptr> {
    set q | q in mem && mem[q].next == Some(p)
  }

  ghost predicate CountedAt(mem: Mem, held: Held, p: Ptr)
    requires p in mem
  {
    mem[p].refs >= 1 && mem[p].refs == held[p] + |Preds(mem, p)|
  }

  /** ref counts the references the program holds and the next fields that lead to the pbuf. */
  ghost predicate Counted(mem: Mem, held: Held) {
    && (forall p | p in held :: p in mem)
    && forall p {:trigger CountedAt(mem, held, p)} | p in mem :: CountedAt(mem, held, p)
  }

  /** Links and counts are right. */
  ghost predicate Tied(mem: Mem, chains: Chains, held: Held) {
    Linked(mem, chains) && Counted(mem, held)
  }

  // ---------------------------------------------------------------------
  // pbuf_free

  /** Memory after a reference to the head of chain c is given up. */
  function Released(mem: Mem, c: seq<Ptr>): Mem {
    if c == [] || c[0] !in mem then mem
    else if mem[c[0]].refs == 1 then Released(mem - {c[0]}, c[1..])
    else if mem[c[0]].refs == 0 then mem
    else WithRefs(mem, c[0], mem[c[0]].refs - 1)
  }

  /** How many pbufs that gives back. */
  function Freed(mem: Mem, c: seq<Ptr>): nat {
    if c == [] || c[0] !in mem || mem[c[0]].refs != 1 then 0
    else 1 + Freed(mem - {c[0]}, c[1..])
  }

  /** The pending reference passes on to the next pbuf. */
  function Pass(held: Held, p: Ptr, next: Option<Ptr>): Held {
    held - multiset{p} + (if next.Some? then multiset{next.value} else multiset{})
  }

  lemma {:induction false} PassCount(held: Held, p: Ptr, next: Option<Ptr>, x: Ptr)
    requires p in held
    ensures Pass(held, p, next)[x] == held[x] - (if x == p then 1 else 0) + (if next == Some(x) then 1 else 0)
  {
  }

  lemma {:induction false} PredsOfRemoved(mem: Mem, p: Ptr, x: Ptr)
    requires p in mem
    ensures |Preds(mem - {p}, x)| == |Preds(mem, x)| - (if mem[p].next == Some(x) then 1 else 0)
  {
    assert Preds(mem - {p}, x) == Preds(mem, x) - {p};
  }

  /** Giving up the last reference to a pbuf frees it, and what it refers to is then one
      reference up for the program to give up. */
  lemma {:induction false} DropLast(mem: Mem, chains: Chains, held: Held, p: Ptr)
    requires Tied(mem, chains, held) && p in held && p in mem && mem[p].refs == 1
    ensures Tied(mem - {p}, chains - {p}, Pass(held, p, mem[p].next))
  {
    hide Linked, Pass;
    assert CountedAt(mem, held, p);
    LinkedDrop(mem, chains, p);
    CountedDrop(mem, chains, held, p);
  }

  lemma {:induction false} LinkedDrop(mem: Mem, chains: Chains, p: Ptr)
    requires Linked(mem, chains) && p in mem && Preds(mem, p) == {}
    ensures Linked(mem - {p}, chains - {p})
  {
    forall x | x in mem - {p} ensures LinkedAt(mem - {p}, chains - {p}, x) {
      assert LinkedAt(mem, chains, x);
      assert x !in Preds(mem, p);
    }
  }

  lemma {:induction false} TotDrop(mem: Mem, p: Ptr)
    requires TotLens(mem) && p in mem && Preds(mem, p) == {}
    ensures TotLens(mem - {p})
  {
    forall x | x in mem - {p} ensures TotAt(mem - {p}, x) {
      assert TotAt(mem, x);
      assert x !in Preds(mem, p);
    }
  }

  lemma {:induction false} CountedDrop(mem: Mem, chains: Chains, held: Held, p: Ptr)
    requires Linked(mem, chains) && Counted(mem, held) && p in held && p in mem && mem[p].refs == 1
    ensures Counted(mem - {p}, Pass(held, p, mem[p].next))
  {
    var next := mem[p].next;
    NoSelfLoop(mem, chains, p);
    assert CountedAt(mem, held, p);
    var held' := Pass(held, p, next);
    forall x | x in held' ensures x in mem - {p} { PassCount(held, p, next, x); }
    forall x | x in mem - {p} ensures CountedAt(mem - {p}, held', x) {
      assert CountedAt(mem, held, x);
      PredsOfRemoved(mem, p, x);
      PassCount(held, p, next, x);
    }
  }

  lemma {:induction false} NoSelfLoop(mem: Mem, chains: Chains, p: Ptr)
    requires Linked(mem, chains) && p in mem
    ensures mem[p].next != Some(p) && (mem[p].next.Some? ==> mem[p].next.value in mem)
  {
    assert LinkedAt(mem, chains, p);
  }

  /** Giving up a reference that is not the last only lowers the count. */
  lemma {:induction false} DropOne(mem: Mem, chains: Chains, held: Held, p: Ptr)
    requires Tied(mem, chains, held) && p in held && p in mem && mem[p].refs > 1
    ensures Tied(WithRefs(mem, p, mem[p].refs - 1), chains, held - multiset{p})
  {
    WithRefsKeeps(mem, chains, p, mem[p].refs - 1);
    WithRefsCounted(mem, held, p, mem[p].refs - 1, held - multiset{p});
  }

  function WithRefs(mem: Mem, p: Ptr, refs: nat): Mem
    requires p in mem
  {
    mem[p := mem[p].(refs := refs)]
  }

  lemma {:induction false} WithRefsKeeps(mem: Mem, chains: Chains, p: Ptr, refs: nat)
    requires Linked(mem, chains) && p in mem
    ensures Linked(WithRefs(mem, p, refs), chains) && (TotLens(mem) ==> TotLens(WithRefs(mem, p, refs)))
  {
    RefsOnly(mem, WithRefs(mem, p, refs), chains);
  }

  /** Counts do not matter to total lengths. */
  lemma {:induction false} WithRefsTot(mem: Mem, p: Ptr, refs: nat)
    requires p in mem
    ensures TotLens(WithRefs(mem, p, refs)) <==> TotLens(mem)
  {
    var after := WithRefs(mem, p, refs);
    forall x | x in mem ensures TotAt(after, x) <==> TotAt(mem, x) {}
    if TotLens(after) {
      forall x | x in mem ensures TotAt(mem, x) { assert TotAt(after, x); }
    }
  }

  lemma {:induction false} WithRefsCounted(mem: Mem, held: Held, p: Ptr, refs: nat, held': Held)
    requires Counted(mem, held) && p in mem && refs >= 1 && held'[p] + mem[p].refs == held[p] + refs
    requires forall x | x != p :: held'[x] == held[x]
    ensures Counted(WithRefs(mem, p, refs), held')
  {
    var after := WithRefs(mem, p, refs);
    forall x | x in held' ensures x in after { if x != p { assert held'[x] == held[x]; } }
    forall x | x in after ensures CountedAt(after, held', x) {
      assert CountedAt(mem, held, x);
      SamePreds(mem, after, x);
    }
  }

  lemma {:induction false} SamePreds(mem: Mem, after: Mem, x: Ptr)
    requires after.Keys == mem.Keys && forall y | y in mem :: after[y].next == mem[y].next
    ensures Preds(after, x) == Preds(mem, x)
  {
  }

  lemma {:induction false} RefsOnly(mem: Mem, after: Mem, chains: Chains)
    requires Linked(mem, chains) && after.Keys == mem.Keys
    requires forall x | x in mem :: after[x] == mem[x].(refs := after[x].refs)
    ensures Linked(after, chains) && (TotLens(mem) ==> TotLens(after))
  {
    forall x | x in after ensures LinkedAt(after, chains, x) { assert LinkedAt(mem, chains, x); }
    if TotLens(mem) {
      forall x | x in after ensures TotAt(after, x) { assert TotAt(mem, x) && LinkedAt(mem, chains, x); }
    }
  }

  /** The chains of the pbufs that are left. */
  function Kept(chains: Chains, mem: Mem): Chains {
    map x | x in chains && x in mem :: chains[x]
  }

  /** pbuf_free keeps counts and links right: exactly one reference of the program is gone. */
  lemma {:induction false} FreeKeeps(mem: Mem, chains: Chains, held: Held, p: Ptr)
    requires Tied(mem, chains, held) && p in held && p in chains
    ensures Tied(Released(mem, chains[p]), Kept(chains, Released(mem, chains[p])), held - multiset{p})
    decreases |chains[p]|
  {
    hide Tied, Pass;
    var next := HeadOf(mem, chains, held, p);
    if mem[p].refs == 1 {
      DropLast(mem, chains, held, p);
      var mem', chains', held' := mem - {p}, chains - {p}, Pass(held, p, next);
      if next.Some? {
        PassOn(held, p, next.value);
        FreeKeeps(mem', chains', held', next.value);
        ReleasedShrinks(mem', chains'[next.value]);
        KeptDropped(chains, p, Released(mem', chains'[next.value]));
      } else {
        PassNone(held, p);
        KeptAll(chains', mem');
        KeptDropped(chains, p, mem');
      }
    } else {
      DropOne(mem, chains, held, p);
      KeptAll(chains, Released(mem, chains[p]));
    }
  }

  /** It keeps the total lengths right, too. */
  lemma {:induction false} FreeTotLens(mem: Mem, chains: Chains, held: Held, p: Ptr)
    requires Tied(mem, chains, held) && TotLens(mem) && p in held && p in chains
    ensures TotLens(Released(mem, chains[p]))
    decreases |chains[p]|
  {
    hide *;
    var next := HeadOf(mem, chains, held, p);
    ReleasedHead(mem, chains[p]);
    if mem[p].refs == 1 {
      DropLast(mem, chains, held, p);
      TotDropLast(mem, chains, held, p);
      if next.Some? {
        PassOn(held, p, next.value);
        FreeTotLens(mem - {p}, chains - {p}, Pass(held, p, next), next.value);
      } else {
        FromNone(chains);
        assert chains[p][1..] == [];
        ReleasedNone(mem - {p});
      }
    } else {
      TotKeptRefs(mem, chains, held, p, mem[p].refs - 1);
    }
  }

  lemma {:induction false} FromNone(chains: Chains)
    ensures From(chains, None) == []
  {
  }

  lemma {:induction false} ReleasedHead(mem: Mem, c: seq<Ptr>)
    requires c != [] && c[0] in mem && mem[c[0]].refs >= 1
    ensures Released(mem, c)
         == if mem[c[0]].refs == 1 then Released(mem - {c[0]}, c[1..]) else WithRefs(mem, c[0], mem[c[0]].refs - 1)
  {
  }

  lemma {:induction false} ReleasedNone(mem: Mem)
    ensures Released(mem, []) == mem
  {
  }

  lemma {:induction false} TotDropLast(mem: Mem, chains: Chains, held: Held, p: Ptr)
    requires Tied(mem, chains, held) && TotLens(mem) && p in held && p in mem && mem[p].refs == 1
    ensures TotLens(mem - {p})
  {
    LastHasNoPreds(mem, held, p);
    TotDrop(mem, p);
  }

  lemma {:induction false} TotKeptRefs(mem: Mem, chains: Chains, held: Held, p: Ptr, refs: nat)
    requires Tied(mem, chains, held) && TotLens(mem) && p in mem
    ensures TotLens(WithRefs(mem, p, refs))
  {
    WithRefsKeeps(mem, chains, p, refs);
  }

  lemma {:induction false} LastHasNoPreds(mem: Mem, held: Held, p: Ptr)
    requires Counted(mem, held) && p in held && p in mem && mem[p].refs == 1
    ensures Preds(mem, p) == {}
  {
    assert CountedAt(mem, held, p);
  }

  /** What is not on the chain stays as it is. */
  lemma {:induction false} OffChain(mem: Mem, c: seq<Ptr>, x: Ptr)
    requires x in mem && x !in c
    ensures x in Released(mem, c) && Released(mem, c)[x] == mem[x]
    decreases |c|
  {
    if c != [] && c[0] in mem && mem[c[0]].refs == 1 { OffChain(mem - {c[0]}, c[1..], x); }
  }

  lemma {:induction false} HeadOf(mem: Mem, chains: Chains, held: Held, p: Ptr) returns (next: Option<Ptr>)
    requires Tied(mem, chains, held) && p in held && p in chains
    ensures p in mem && next == mem[p].next && mem[p].refs >= 1 && chains.Keys == mem.Keys
    ensures chains[p] == [p] + From(chains, next)
    ensures next.Some? ==> next.value in chains && next.value != p && chains[p][1..] == chains[next.value]
  {
    assert CountedAt(mem, held, p) && LinkedAt(mem, chains, p);
    next := mem[p].next;
    NoSelfLoop(mem, chains, p);
  }

  lemma {:induction false} PassOn(held: Held, p: Ptr, q: Ptr)
    requires p in held
    ensures q in Pass(held, p, Some(q)) && Pass(held, p, Some(q)) - multiset{q} == held - multiset{p}
  {
  }

  lemma {:induction false} PassNone(held: Held, p: Ptr)
    ensures Pass(held, p, None) == held - multiset{p}
  {
  }

  lemma {:induction false} KeptDropped(chains: Chains, p: Ptr, mem: Mem)
    requires p !in mem
    ensures Kept(chains - {p}, mem) == Kept(chains, mem)
  {
  }

  lemma {:induction false} KeptAll(chains: Chains, mem: Mem)
    requires chains.Keys == mem.Keys
    ensures Kept(chains, mem) == chains
  {
  }

  lemma {:induction false} ReleasedShrinks(mem: Mem, c: seq<Ptr>)
    ensures Released(mem, c).Keys <= mem.Keys
    decreases |c|
  {
    if c != [] && c[0] in mem && mem[c[0]].refs == 1 {
      ReleasedShrinks(mem - {c[0]}, c[1..]);
    }
  }

  ghost predicate NoRepeat(c: seq<Ptr>) {
    forall i, j | 0 <= i < j < |c| :: c[i] != c[j]
  }

  /** What pbuf_free promises: it frees exactly the pbufs from the head of the chain on that
      have a single reference, takes one reference from the first that has more, and changes
      nothing else. */
  lemma {:induction false} ReleasedIs(mem: Mem, c: seq<Ptr>)
    requires NoRepeat(c) && forall x | x in c :: x in mem && mem[x].refs >= 1
    ensures var k := Freed(mem, c);
            k <= |c| && (forall i | 0 <= i < k :: mem[c[i]].refs == 1) && (k < |c| ==> mem[c[k]].refs > 1)
    ensures var k := Freed(mem, c);
            forall x :: x in Released(mem, c) <==> x in mem && x !in c[..k]
    ensures var k := Freed(mem, c);
            forall x | x in Released(mem, c) ::
              Released(mem, c)[x] == if k < |c| && x == c[k] then mem[x].(refs := mem[x].refs - 1) else mem[x]
    decreases |c|
  {
    if c != [] && mem[c[0]].refs == 1 {
      var rest, mem' := c[1..], mem - {c[0]};
      assert forall x | x in rest :: x != c[0];
      ReleasedIs(mem', rest);
      var k := Freed(mem', rest);
      hide NoRepeat;
      assert c[..k + 1] == [c[0]] + rest[..k];
      assert forall i | 0 < i <= k :: mem[c[i]] == mem'[rest[i - 1]];
    }
  }

  lemma {:induction false} ChainsDoNotRepeat(mem: Mem, chains: Chains, p: Ptr)
    requires Linked(mem, chains) && p in mem
    ensures NoRepeat(chains[p])
  {
    forall i, j | 0 <= i < j < |chains[p]| ensures chains[p][i] != chains[p][j] { Distinct(mem, chains, p, i, j); }
  }

  // ---------------------------------------------------------------------
  // Neither leaks nor dangling references

  function Elements(c: seq<Ptr>): set<Ptr> {
    set x | x in c
  }

  lemma {:induction false} ChainFits(mem: Mem, chains: Chains, p: Ptr)
    requires Linked(mem, chains) && p in mem
    ensures Elements(chains[p]) <= mem.Keys && |Elements(chains[p])| == |chains[p]| <= |mem.Keys|
    decreases |chains[p]|
  {
    var rest := LinkOf(mem, chains, p);
    if mem[p].next.Some? {
      ChainFits(mem, chains, mem[p].next.value);
      forall x | x in rest ensures x != p { RestOmits(mem, chains, p, x); }
    }
    assert Elements(chains[p]) == {p} + Elements(rest);
    SubsetSize(Elements(chains[p]), mem.Keys);
  }

  /** Every allocated pbuf is reached from a reference the program holds. */
  lemma {:induction false} NoLeak(mem: Mem, chains: Chains, held: Held, p: Ptr) returns (h: Ptr)
    requires Tied(mem, chains, held) && p in mem
    ensures h in held && h in chains && p in chains[h]
    decreases |mem.Keys| - |chains[p]|
  {
    hide Linked;
    var rest := LinkOf(mem, chains, p);
    assert CountedAt(mem, held, p);
    if p in held {
      h := p;
    } else {
      assert Preds(mem, p) != {};
      var q :| q in Preds(mem, p);
      rest := LinkOf(mem, chains, q);
      ChainFits(mem, chains, q);
      h := NoLeak(mem, chains, held, q);
      NextInChain(mem, chains, h, q);
    }
  }

  lemma {:induction false} NextInChain(mem: Mem, chains: Chains, h: Ptr, q: Ptr)
    requires Linked(mem, chains) && h in chains && q in chains[h] && q in mem && mem[q].next.Some?
    ensures mem[q].next.value in chains[h]
  {
    hide LinkedAt;
    var rest := LinkOf(mem, chains, q);
    var r := LinkOf(mem, chains, mem[q].next.value);
    InChain(mem, chains, h, q);
    SecondOf(chains[h], chains[q]);
  }

  lemma {:induction false} SecondOf(c: seq<Ptr>, d: seq<Ptr>)
    requires 2 <= |d| <= |c| && c[|c| - |d|..] == d
    ensures d[1] in c
  {
    assert c[|c| - |d|..][1] == c[|c| - |d| + 1];
  }

  /** What the program can reach is allocated, and what it cannot reach is not. */
  lemma {:induction false} AllocatedIsReachable(mem: Mem, chains: Chains, held: Held)
    requires Tied(mem, chains, held)
    ensures forall x :: x in mem <==> exists h :: h in held && h in chains && x in chains[h]
  {
    forall x ensures x in mem <==> exists h :: h in held && h in chains && x in chains[h] {
      if x in mem {
        var h := NoLeak(mem, chains, held, x);
      }
      forall h | h in held && h in chains && x in chains[h] ensures x in mem { InChain(mem, chains, h, x); }
    }
  }

  /** Once the program has given up all its references, nothing is allocated. */
  lemma {:induction false} AllFreed(mem: Mem, chains: Chains, held: Held)
    requires Tied(mem, chains, held)
    ensures held == multiset{} <==> mem == map[]
  {
    if held == multiset{} && mem != map[] {
      assert mem.Keys != {};
      var p :| p in mem;
      var h := NoLeak(mem, chains, held, p);
    }
  }
}
