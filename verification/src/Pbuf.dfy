/**
 The packet buffers of pbuf.c: single-linked chains of pbufs that share a packet's bytes
 between them. A pbuf's address stands for the pbuf; what is allocated is what the memory
 maps. len is the length of the data, and the bytes of a payload beyond len are not modelled.
 */
module Pbuf {
  import opened Common

  type Ptr = nat

  datatype Pbuf = Pbuf(next: Option<Ptr>, data: seq<byte>, totLen: nat, refs: nat)

  type Mem = map<Ptr, Pbuf>

  /** The pbufs reached from each pbuf along next, itself first. */
  type Chains = map<Ptr, seq<Ptr>>

  // ---------------------------------------------------------------------
  // Links

  function From(chains: Chains, q: Option<Ptr>): seq<Ptr> {
    if q.Some? && q.value in chains then chains[q.value] else []
  }

  ghost predicate LinkedAt(mem: Mem, chains: Chains, p: Ptr)
    requires p in mem
  {
    var q := mem[p].next;
    (q.Some? ==> q.value in mem && q.value in chains) && p in chains && chains[p] == [p] + From(chains, q)
  }

  /** Every next field leads to an allocated pbuf, and no chain is a cycle. */
  ghost predicate Linked(mem: Mem, chains: Chains) {
    && chains.Keys == mem.Keys
    && forall p {:trigger LinkedAt(mem, chains, p)} | p in mem :: LinkedAt(mem, chains, p)
  }

  /** The i-th pbuf of a chain is allocated and heads the rest of the chain. */
  lemma {:induction false} SuffixOf(mem: Mem, chains: Chains, p: Ptr, i: nat)
    requires Linked(mem, chains) && p in mem && i < |chains[p]|
    ensures chains[p][i] in mem && chains[chains[p][i]] == chains[p][i..]
    decreases i
  {
    hide LinkedAt;
    var rest := LinkOf(mem, chains, p);
    ConsSuffix(p, rest, i);
    if i > 0 {
      SuffixOf(mem, chains, mem[p].next.value, i - 1);
    }
  }

  lemma {:induction false} LinkOf(mem: Mem, chains: Chains, p: Ptr) returns (rest: seq<Ptr>)
    requires Linked(mem, chains) && p in mem
    ensures p in chains && chains[p] == [p] + rest
    ensures match mem[p].next
            case None => rest == []
            case Some(q) => q in mem && q in chains && rest == chains[q]
  {
    assert LinkedAt(mem, chains, p);
    rest := From(chains, mem[p].next);
  }

  lemma {:induction false} ConsSuffix(x: Ptr, rest: seq<Ptr>, i: nat)
    requires i <= |rest|
    ensures ([x] + rest)[i] == (if i == 0 then x else rest[i - 1])
    ensures ([x] + rest)[i..] == (if i == 0 then [x] + rest else rest[i - 1..])
  {
  }

  lemma {:induction false} InChain(mem: Mem, chains: Chains, p: Ptr, x: Ptr)
    requires Linked(mem, chains) && p in mem && x in chains[p]
    ensures x in mem && x in chains && |chains[x]| <= |chains[p]| && chains[p][|chains[p]| - |chains[x]|..] == chains[x]
    ensures chains[x] != [] && chains[x][0] == x
  {
    var i :| 0 <= i < |chains[p]| && chains[p][i] == x;
    SuffixOf(mem, chains, p, i);
  }

  /** No pbuf occurs twice in a chain. */
  lemma {:induction false} Distinct(mem: Mem, chains: Chains, p: Ptr, i: nat, j: nat)
    requires Linked(mem, chains) && p in mem && i < j < |chains[p]|
    ensures chains[p][i] != chains[p][j]
  {
    SuffixOf(mem, chains, p, i);
    SuffixOf(mem, chains, p, j);
  }

  // ---------------------------------------------------------------------
  // Contents

  /** The bytes of the pbufs of a sequence. */
  function Bytes(mem: Mem, c: seq<Ptr>): seq<byte>
    requires forall x | x in c :: x in mem
  {
    if c == [] then [] else mem[c[0]].data + Bytes(mem, c[1..])
  }

  lemma {:induction false} BytesAppend(mem: Mem, a: seq<Ptr>, b: seq<Ptr>)
    requires forall x | x in a + b :: x in mem
    ensures (forall x | x in a :: x in mem) && (forall x | x in b :: x in mem)
    ensures Bytes(mem, a + b) == Bytes(mem, a) + Bytes(mem, b)
  {
    assert forall x | x in a :: x in a + b;
    assert forall x | x in b :: x in a + b;
    if a == [] {
      assert a + b == b;
    } else {
      assert (a + b)[1..] == a[1..] + b;
      BytesAppend(mem, a[1..], b);
    }
  }

  lemma {:induction false} BytesSame(mem: Mem, after: Mem, c: seq<Ptr>)
    requires forall x | x in c :: x in mem && x in after && after[x].data == mem[x].data
    ensures Bytes(after, c) == Bytes(mem, c)
  {
    if c != [] {
      BytesSame(mem, after, c[1..]);
    }
  }

  lemma {:induction false} MembersOf(mem: Mem, chains: Chains, q: Option<Ptr>)
    requires Linked(mem, chains) && (q.Some? ==> q.value in mem)
    ensures forall x | x in From(chains, q) :: x in mem
  {
    if q.Some? {
      forall x | x in chains[q.value] ensures x in mem { InChain(mem, chains, q.value, x); }
    }
  }

  /** The bytes of a packet. */
  ghost function Content(mem: Mem, chains: Chains, q: Option<Ptr>): seq<byte>
    requires Linked(mem, chains) && (q.Some? ==> q.value in mem)
  {
    MembersOf(mem, chains, q);
    Bytes(mem, From(chains, q))
  }

  lemma {:induction false} ContentStep(mem: Mem, chains: Chains, p: Ptr)
    requires Linked(mem, chains) && p in mem
    ensures mem[p].next.Some? ==> mem[p].next.value in mem && mem[p].next.value in chains
    ensures p in chains && From(chains, Some(p)) == [p] + From(chains, mem[p].next)
    ensures Content(mem, chains, Some(p)) == mem[p].data + Content(mem, chains, mem[p].next)
  {
    assert LinkedAt(mem, chains, p);
    MembersOf(mem, chains, mem[p].next);
    MembersOf(mem, chains, Some(p));
    assert chains[p][1..] == From(chains, mem[p].next);
  }

  // ---------------------------------------------------------------------
  // Total lengths

  ghost predicate TotAt(mem: Mem, p: Ptr)
    requires p in mem
  {
    && mem[p].totLen < M16
    && mem[p].totLen == |mem[p].data| + TotOf(mem, mem[p].next)
  }

  function TotOf(mem: Mem, q: Option<Ptr>): nat {
    if q.Some? && q.value in mem then mem[q.value].totLen else 0
  }

  /** The tot_len invariant: own length and the tot_len of the next pbuf. */
  ghost predicate TotLens(mem: Mem) {
    forall p {:trigger TotAt(mem, p)} | p in mem :: TotAt(mem, p)
  }

  lemma {:induction false} TotStep(mem: Mem, p: Ptr)
    requires TotLens(mem) && p in mem
    ensures mem[p].totLen == |mem[p].data| + TotOf(mem, mem[p].next) && mem[p].totLen < M16
  {
    assert TotAt(mem, p);
  }

  /** It makes tot_len the number of bytes of the packet. */
  lemma {:induction false} TotLenCounts(mem: Mem, chains: Chains, q: Option<Ptr>)
    requires Linked(mem, chains) && TotLens(mem) && (q.Some? ==> q.value in mem)
    ensures TotOf(mem, q) == |Content(mem, chains, q)|
    decreases |From(chains, q)|
  {
    if q.Some? {
      var p := q.value;
      assert LinkedAt(mem, chains, p) && TotAt(mem, p);
      TotLenCounts(mem, chains, mem[p].next);
      ContentStep(mem, chains, p);
    }
  }

  // ---------------------------------------------------------------------
  // Writing

  /** The same pbufs, with new bytes of the same lengths. */
  ghost predicate SameShape(mem: Mem, after: Mem) {
    && after.Keys == mem.Keys
    && forall p | p in mem :: after[p] == mem[p].(data := after[p].data) && |after[p].data| == |mem[p].data|
  }

  lemma {:induction false} ShapeKeeps(mem: Mem, after: Mem, chains: Chains)
    requires SameShape(mem, after) && Linked(mem, chains)
    ensures Linked(after, chains)
    ensures TotLens(mem) ==> TotLens(after)
  {
    forall p | p in after ensures LinkedAt(after, chains, p) {
      assert LinkedAt(mem, chains, p);
    }
    if TotLens(mem) {
      forall p | p in after ensures TotAt(after, p) {
        assert TotAt(mem, p) && LinkedAt(mem, chains, p);
      }
    }
  }

  /** Pbufs off the chain keep their bytes. */
  ghost predicate OthersKept(mem: Mem, after: Mem, c: seq<Ptr>) {
    forall x | x in mem && x !in c :: x in after && after[x] == mem[x]
  }

  /** s with w over its bytes from at on. */
  function Written(s: seq<byte>, at: nat, w: seq<byte>): (r: seq<byte>)
    requires at + |w| <= |s|
    ensures |r| == |s|
  {
    s[..at] + w + s[at + |w|..]
  }

  /** Memory with w over the data of pbuf x from at on. */
  function Put(mem: Mem, x: Ptr, at: nat, w: seq<byte>): Mem
    requires x in mem && at + |w| <= |mem[x].data|
  {
    mem[x := mem[x].(data := Written(mem[x].data, at, w))]
  }

  lemma {:induction false} PutKeeps(mem: Mem, chains: Chains, x: Ptr, at: nat, w: seq<byte>)
    requires Linked(mem, chains) && TotLens(mem) && x in mem && at + |w| <= |mem[x].data|
    ensures SameShape(mem, Put(mem, x, at, w))
    ensures Linked(Put(mem, x, at, w), chains) && TotLens(Put(mem, x, at, w))
  {
    ShapeKeeps(mem, Put(mem, x, at, w), chains);
  }

  /** In a packet that x belongs to, that puts w over the bytes where those of x stand. */
  lemma {:induction false} PutContent(mem: Mem, chains: Chains, p: Ptr, x: Ptr, at: nat, w: seq<byte>)
    requires Linked(mem, chains) && TotLens(mem) && p in mem && p in chains && x in chains[p] && x in mem
    requires at + |w| <= |mem[x].data|
    requires Linked(Put(mem, x, at, w), chains)
    ensures var before := Content(mem, chains, Some(p));
            var pos := mem[p].totLen - mem[x].totLen + at;
            0 <= pos && pos + |w| <= |before|
            && Content(Put(mem, x, at, w), chains, Some(p)) == Written(before, pos, w)
  {
    hide Linked, TotLens, Content;
    var after := Put(mem, x, at, w);
    var front, rest := Around(mem, chains, p, x);
    AroundContent(mem, chains, p, x, front, rest);
    ContentIs(after, chains, p);
    BytesSame(mem, after, front);
    BytesSame(mem, after, rest);
    Splits(after, front, x, rest);
    WrittenMiddle(Bytes(mem, front), mem[x].data, Bytes(mem, rest), at, w);
  }

  /** The pbufs before and after one on a chain. */
  lemma {:induction false} Around(mem: Mem, chains: Chains, p: Ptr, x: Ptr) returns (front: seq<Ptr>, rest: seq<Ptr>)
    requires Linked(mem, chains) && p in mem && x in chains[p] && x in mem
    ensures chains[p] == front + [x] + rest && rest == From(chains, mem[x].next)
    ensures forall y | y in front :: y != x && y in mem
    ensures forall y | y in rest :: y != x && y in mem
  {
    InChain(mem, chains, p, x);
    front := chains[p][..|chains[p]| - |chains[x]|];
    rest := From(chains, mem[x].next);
    assert LinkedAt(mem, chains, x);
    forall y | y in front ensures y != x && y in mem {
      FrontOmits(mem, chains, p, x, y);
      assert y in chains[p];
      InChain(mem, chains, p, y);
    }
    forall y | y in rest ensures y != x && y in mem { RestOmits(mem, chains, x, y); }
  }

  lemma {:induction false} AroundContent(mem: Mem, chains: Chains, p: Ptr, x: Ptr, front: seq<Ptr>, rest: seq<Ptr>)
    requires Linked(mem, chains) && TotLens(mem) && p in mem && x in mem
    requires chains[p] == front + [x] + rest && rest == From(chains, mem[x].next)
    requires (forall y | y in front :: y in mem) && forall y | y in rest :: y in mem
    ensures Content(mem, chains, Some(p)) == Bytes(mem, front) + mem[x].data + Bytes(mem, rest)
    ensures |Bytes(mem, front)| == mem[p].totLen - mem[x].totLen
  {
    hide TotLens;
    TotLenCounts(mem, chains, Some(p));
    TotLenCounts(mem, chains, Some(x));
    ContentStep(mem, chains, x);
    Splits(mem, front, x, rest);
  }

  lemma {:induction false} ContentIs(mem: Mem, chains: Chains, p: Ptr)
    requires Linked(mem, chains) && p in mem
    ensures forall y | y in chains[p] :: y in mem
    ensures Content(mem, chains, Some(p)) == Bytes(mem, chains[p])
  {
    MembersOf(mem, chains, Some(p));
  }

  lemma {:induction false} Splits(mem: Mem, front: seq<Ptr>, x: Ptr, rest: seq<Ptr>)
    requires x in mem && (forall y | y in front :: y in mem) && forall y | y in rest :: y in mem
    ensures Bytes(mem, front + [x] + rest) == Bytes(mem, front) + mem[x].data + Bytes(mem, rest)
  {
    BytesAppend(mem, front + [x], rest);
    BytesAppend(mem, front, [x]);
  }

  lemma {:induction false} WrittenMiddle(a: seq<byte>, d: seq<byte>, b: seq<byte>, at: nat, w: seq<byte>)
    requires at + |w| <= |d|
    ensures a + Written(d, at, w) + b == Written(a + d + b, |a| + at, w)
  {
  }

  lemma {:induction false} FrontOmits(mem: Mem, chains: Chains, p: Ptr, x: Ptr, y: Ptr)
    requires Linked(mem, chains) && p in mem && x in mem && |chains[x]| <= |chains[p]|
    requires chains[p][|chains[p]| - |chains[x]|..] == chains[x]
    requires y in chains[p][..|chains[p]| - |chains[x]|]
    ensures y != x
  {
    var front := chains[p][..|chains[p]| - |chains[x]|];
    var i :| 0 <= i < |front| && front[i] == y;
    SuffixOf(mem, chains, p, i);
  }

  lemma {:induction false} RestOmits(mem: Mem, chains: Chains, x: Ptr, y: Ptr)
    requires Linked(mem, chains) && x in mem && y in From(chains, mem[x].next)
    ensures y != x && y in mem
  {
    assert LinkedAt(mem, chains, x);
    InChain(mem, chains, mem[x].next.value, y);
  }

  lemma {:induction false} MapSame(a: Mem, b: Mem)
    requires a.Keys == b.Keys && forall x | x in a :: a[x] == b[x]
    ensures a == b
  {
  }
}
