/**
 The lwIP heap (the third variant of mem.c, with frees protected by the mutex).

 The heap is one region of `size` bytes carved into blocks. Every block starts
 with a header `Mem` holding the offsets of its neighbours; `ram` is the region
 seen as a map from offsets to headers, and headers that have been merged away
 stay behind in it as garbage, as they do in the source.

 The specification side knows nothing of headers and links: the heap is a
 sequence of blocks in address order, each with a start offset and a used flag.
 */
module Heap {
  import opened Common

  /** MEM_ALIGNMENT */
  const ALIGN := 4

  predicate Aligned(n: int) {
    n % ALIGN == 0
  }

  /** The other compile-time constants: SIZEOF_STRUCT_MEM, MIN_SIZE_ALIGNED,
      MEM_SIZE_ALIGNED, and one past the largest mem_size_t (16 or 32 bits). */
  datatype Config = Config(header: nat, minSize: nat, size: nat, width: nat) {

    ghost predicate Valid() {
      && 0 < header && 0 < minSize
      && Aligned(header) && Aligned(minSize) && Aligned(size)
      && (width == 0x1_0000 || width == 0x1_0000_0000)
      && header + minSize <= size < width
    }

    /** LWIP_MEM_ALIGN_SIZE stored into a mem_size_t, so the result is truncated. */
    function AlignSize(n: nat): nat
      requires 0 < width
    {
      (n + ALIGN - 1) / ALIGN * ALIGN % width
    }

    /** The number of data bytes mem_malloc and mem_trim work with for a request of n. */
    function RequestSize(n: nat): (r: nat)
      requires Valid()
      ensures Aligned(r) && minSize <= r
    {
      if AlignSize(n) < minSize then minSize else AlignSize(n)
    }
  }

  /** The size mem_malloc serves covers the size asked for exactly when rounding
      up stays in the range of mem_size_t; any size up to the heap's own is
      served in full. */
  lemma {:induction false} RequestHonoured(c: Config, n: nat)
    requires c.Valid() && n < c.width
    ensures c.RequestSize(n) >= n <==> n + ALIGN <= c.width
    ensures n <= c.size ==> n <= c.RequestSize(n)
    ensures c.RequestSize(n) < n + ALIGN || c.RequestSize(n) == c.minSize
  {
  }

  // ---------------------------------------------------------------------
  // The specification: blocks in address order

  datatype Block = Block(start: nat, used: bool)

  /** Offset one past block i, which is where the next block starts. */
  function End(c: Config, b: seq<Block>, i: nat): nat
    requires i < |b|
  {
    StartOf(c, b, i + 1)
  }

  function StartOf(c: Config, b: seq<Block>, i: nat): nat
    requires i <= |b|
  {
    if i < |b| then b[i].start else c.size
  }

  /** Data bytes available in block i. */
  function Capacity(c: Config, b: seq<Block>, i: nat): int
    requires i < |b|
  {
    End(c, b, i) - b[i].start - c.header
  }

  /** Block i is aligned and has room for a header and the minimum payload
      before the next block starts. */
  ghost predicate Roomy(c: Config, b: seq<Block>, i: nat)
    requires i < |b|
  {
    Aligned(b[i].start) && b[i].start + c.header + c.minSize <= End(c, b, i)
  }

  /** The blocks cover the region from 0 to the end without gap or overlap. */
  ghost predicate Tiled(c: Config, b: seq<Block>) {
    && 0 < |b| && b[0].start == 0
    && (forall i | 0 <= i < |b| :: Roomy(c, b, i))
  }

  /** No two neighbouring blocks are both free, except possibly around block k. */
  ghost predicate CoalescedBut(b: seq<Block>, k: int) {
    forall i, j | 0 <= i < |b| && 0 <= j < |b| && j == i + 1 && i != k && j != k :: b[i].used || b[j].used
  }

  ghost predicate Coalesced(b: seq<Block>) {
    CoalescedBut(b, -1)
  }

  ghost predicate WellFormed(c: Config, b: seq<Block>) {
    Tiled(c, b) && Coalesced(b)
  }

  predicate Fits(c: Config, b: seq<Block>, i: nat, n: nat)
    requires i < |b|
  {
    !b[i].used && Capacity(c, b, i) >= n
  }

  /** Index of the first free block, or |b|. */
  function FirstFree(b: seq<Block>, from: nat): (i: nat)
    requires from <= |b|
    ensures from <= i <= |b|
    ensures i < |b| ==> !b[i].used
    ensures forall j | from <= j < i :: b[j].used
    decreases |b| - from
  {
    if from == |b| || !b[from].used then from else FirstFree(b, from + 1)
  }

  /** Index of the first free block that can hold n data bytes, or |b|. */
  function FirstFit(c: Config, b: seq<Block>, n: nat, from: nat): (i: nat)
    requires from <= |b|
    ensures from <= i <= |b|
    ensures i < |b| ==> Fits(c, b, i, n)
    ensures forall j | from <= j < i :: !Fits(c, b, j, n)
    decreases |b| - from
  {
    if from == |b| || Fits(c, b, from, n) then from else FirstFit(c, b, n, from + 1)
  }

  /** Index of the block starting at offset s, or |b|. */
  function Locate(b: seq<Block>, s: int, from: nat): (i: nat)
    requires from <= |b|
    ensures from <= i <= |b|
    ensures i < |b| ==> b[i].start == s
    ensures forall j | from <= j < i :: b[j].start != s
    decreases |b| - from
  {
    if from == |b| || b[from].start == s then from else Locate(b, s, from + 1)
  }

  /** p points at the data of a used block. */
  predicate IsLive(c: Config, b: seq<Block>, p: int) {
    var k := Locate(b, p - c.header, 0);
    k < |b| && b[k].used
  }

  lemma {:induction false} StartsIncrease(c: Config, b: seq<Block>, i: nat, j: nat)
    requires Tiled(c, b) && i < j <= |b|
    ensures b[i].start + c.header + c.minSize <= StartOf(c, b, j)
    decreases j
  {
    assert Roomy(c, b, j - 1);
    if i < j - 1 {
      StartsIncrease(c, b, i, j - 1);
    }
  }

  lemma {:induction false} LocateStart(c: Config, b: seq<Block>, i: nat)
    requires c.Valid() && Tiled(c, b) && i < |b|
    ensures Locate(b, b[i].start, 0) == i
  {
    var k := Locate(b, b[i].start, 0);
    if k < i { StartsIncrease(c, b, k, i); }
  }

  const INITIAL := [Block(0, false)]

  // The three edits everything else is made of.

  function Insert(b: seq<Block>, i: nat, x: Block): (r: seq<Block>)
    requires i <= |b|
    ensures |r| == |b| + 1
    ensures forall j | 0 <= j < |r| :: r[j] == if j < i then b[j] else if j == i then x else b[j - 1]
  {
    b[..i] + [x] + b[i..]
  }

  function Remove(b: seq<Block>, i: nat): (r: seq<Block>)
    requires i < |b|
    ensures |r| == |b| - 1
    ensures forall j | 0 <= j < |r| :: r[j] == if j < i then b[j] else b[j + 1]
  {
    b[..i] + b[i + 1..]
  }

  function SetUsed(b: seq<Block>, i: nat, used: bool): (r: seq<Block>)
    requires i < |b|
    ensures |r| == |b|
  {
    b[i := Block(b[i].start, used)]
  }

  lemma {:induction false} InsertTiled(c: Config, b: seq<Block>, i: nat, x: Block)
    requires Tiled(c, b) && 0 < i <= |b| && Aligned(x.start)
    requires b[i - 1].start + c.header + c.minSize <= x.start
    requires x.start + c.header + c.minSize <= StartOf(c, b, i)
    ensures Tiled(c, Insert(b, i, x))
  {
    var r := Insert(b, i, x);
    forall j | 0 <= j < |r| ensures Roomy(c, r, j) {
      if j < i { assert Roomy(c, b, j); }
      if j > i { assert Roomy(c, b, j - 1); }
    }
  }

  lemma {:induction false} RemoveTiled(c: Config, b: seq<Block>, i: nat)
    requires Tiled(c, b) && 0 < i < |b|
    ensures Tiled(c, Remove(b, i))
  {
    var r := Remove(b, i);
    forall j | 0 <= j < |r| ensures Roomy(c, r, j) {
      assert Roomy(c, b, if j < i then j else j + 1);
      if j == i - 1 { assert Roomy(c, b, i); }
    }
  }

  lemma {:induction false} SetUsedTiled(c: Config, b: seq<Block>, i: nat, used: bool)
    requires Tiled(c, b) && i < |b|
    ensures Tiled(c, SetUsed(b, i, used))
  {
    var r := SetUsed(b, i, used);
    forall j | 0 <= j < |r| ensures Roomy(c, r, j) {
      assert Roomy(c, b, j);
    }
  }

  /** Block i is taken for n bytes; a remainder big enough to live on its own becomes a free block. */
  function Carve(c: Config, b: seq<Block>, i: nat, n: nat): seq<Block>
    requires i < |b|
  {
    if Capacity(c, b, i) >= n + c.header + c.minSize
    then Insert(SetUsed(b, i, true), i + 1, Block(b[i].start + c.header + n, false))
    else SetUsed(b, i, true)
  }

  function MergeForward(b: seq<Block>, k: nat): seq<Block>
    requires k < |b|
  {
    if k + 1 < |b| && !b[k + 1].used then Remove(b, k + 1) else b
  }

  function MergeBackward(b: seq<Block>, k: nat): seq<Block>
    requires k < |b|
  {
    if 0 < k && !b[k - 1].used then Remove(b, k) else b
  }

  /** Block k is released and swallowed by, or swallows, its free neighbours. */
  function Release(b: seq<Block>, k: nat): seq<Block>
    requires k < |b|
  {
    MergeBackward(MergeForward(SetUsed(b, k, false), k), k)
  }

  /** Used block k is cut down to n data bytes. */
  function Shrink(c: Config, b: seq<Block>, k: nat, n: nat): seq<Block>
    requires k < |b|
  {
    var x := Block(b[k].start + c.header + n, false);
    if n >= Capacity(c, b, k) then b
    else if k + 1 < |b| && !b[k + 1].used then Insert(Remove(b, k + 1), k + 1, x)
    else if n + c.header + c.minSize <= Capacity(c, b, k) then Insert(b, k + 1, x)
    else b
  }

  /** What mem_malloc answers and leaves behind: first fit in address order. */
  datatype Grant = Grant(blocks: seq<Block>, ptr: Option<nat>)

  function Allocate(c: Config, b: seq<Block>, size: nat): Grant
    requires c.Valid()
  {
    var i := FirstFit(c, b, c.RequestSize(size), 0);
    if size == 0 || i == |b| then Grant(b, None)
    else Grant(Carve(c, b, i, c.RequestSize(size)), Some(b[i].start + c.header))
  }

  /** What mem_free leaves behind; null and out-of-range pointers are ignored. */
  function Freed(c: Config, b: seq<Block>, rmem: Option<int>): seq<Block> {
    if rmem.Some? && 0 <= rmem.value < c.size && IsLive(c, b, rmem.value)
    then Release(b, Locate(b, rmem.value - c.header, 0)) else b
  }

  /** mem_trim accepts: the pointer is foreign, or the (aligned) new size fits the block. */
  predicate TrimAccepts(c: Config, b: seq<Block>, rmem: int, newsize: nat)
    requires c.Valid()
  {
    var n, k := c.RequestSize(newsize), Locate(b, rmem - c.header, 0);
    n <= c.size && (!(0 <= rmem < c.size) || (k < |b| && n <= Capacity(c, b, k)))
  }

  function Trimmed(c: Config, b: seq<Block>, rmem: int, newsize: nat): seq<Block>
    requires c.Valid()
  {
    if 0 <= rmem < c.size && IsLive(c, b, rmem) && TrimAccepts(c, b, rmem, newsize)
    then Shrink(c, b, Locate(b, rmem - c.header, 0), c.RequestSize(newsize)) else b
  }

  // The operations keep the heap well formed.

  lemma {:induction false} CarveWellFormed(c: Config, b: seq<Block>, i: nat, n: nat)
    requires c.Valid() && WellFormed(c, b) && i < |b| && Fits(c, b, i, n)
    requires Aligned(n) && c.minSize <= n
    ensures WellFormed(c, Carve(c, b, i, n))
  {
    assert Roomy(c, b, i);
    SetUsedTiled(c, b, i, true);
    var u := SetUsed(b, i, true);
    if Capacity(c, b, i) >= n + c.header + c.minSize {
      InsertTiled(c, u, i + 1, Block(b[i].start + c.header + n, false));
    }
  }

  lemma {:induction false} MergeForwardCoalesced(b: seq<Block>, k: nat)
    requires k < |b| && CoalescedBut(b, k) && !b[k].used
    ensures var f := MergeForward(b, k);
            CoalescedBut(f, k) && (k + 1 < |f| ==> f[k + 1].used)
  {
    var f := MergeForward(b, k);
    if k + 1 < |b| && !b[k + 1].used {
      if k + 2 < |b| { assert b[k + 1].used || b[k + 2].used; }
      forall i, j | 0 <= i < |f| && 0 <= j < |f| && j == i + 1 && i != k && j != k ensures f[i].used || f[j].used {
        if i < k { assert b[i].used || b[j].used; } else { assert b[i + 1].used || b[j + 1].used; }
      }
    }
  }

  lemma {:induction false} MergeBackwardCoalesced(f: seq<Block>, k: nat)
    requires k < |f| && CoalescedBut(f, k) && !f[k].used
    requires k + 1 < |f| ==> f[k + 1].used
    ensures Coalesced(MergeBackward(f, k))
  {
    var d := MergeBackward(f, k);
    forall i, j | 0 <= i < |d| && 0 <= j < |d| && j == i + 1 ensures d[i].used || d[j].used {
      if |d| < |f| && k <= i {
        assert f[i + 1].used || f[j + 1].used;
      } else if i != k && j != k {
        assert f[i].used || f[j].used;
      }
    }
  }

  lemma {:induction false} MergeWellFormed(c: Config, b: seq<Block>, k: nat)
    requires Tiled(c, b) && k < |b| && CoalescedBut(b, k) && !b[k].used
    ensures WellFormed(c, MergeBackward(MergeForward(b, k), k))
  {
    MergeForwardCoalesced(b, k);
    MergeBackwardCoalesced(MergeForward(b, k), k);
    if k + 1 < |b| { RemoveTiled(c, b, k + 1); }
    if 0 < k { RemoveTiled(c, MergeForward(b, k), k); }
  }

  lemma {:induction false} ReleaseWellFormed(c: Config, b: seq<Block>, k: nat)
    requires c.Valid() && WellFormed(c, b) && k < |b|
    ensures WellFormed(c, Release(b, k))
  {
    SetUsedTiled(c, b, k, false);
    MergeWellFormed(c, SetUsed(b, k, false), k);
  }

  lemma {:induction false} RelocateTiled(c: Config, b: seq<Block>, k: nat, x: Block)
    requires Tiled(c, b) && k + 1 < |b| && Aligned(x.start)
    requires b[k].start + c.header + c.minSize <= x.start < b[k + 1].start
    ensures Tiled(c, Insert(Remove(b, k + 1), k + 1, x))
  {
    assert Roomy(c, b, k + 1);
    RemoveTiled(c, b, k + 1);
    InsertTiled(c, Remove(b, k + 1), k + 1, x);
  }

  lemma {:induction false} ShrinkTiled(c: Config, b: seq<Block>, k: nat, n: nat)
    requires c.Valid() && Tiled(c, b) && k < |b| && b[k].used
    requires Aligned(n) && c.minSize <= n
    ensures Tiled(c, Shrink(c, b, k, n))
  {
    assert Roomy(c, b, k);
    var x := Block(b[k].start + c.header + n, false);
    if n < Capacity(c, b, k) {
      if k + 1 < |b| && !b[k + 1].used {
        RelocateTiled(c, b, k, x);
      } else if n + c.header + c.minSize <= Capacity(c, b, k) {
        InsertTiled(c, b, k + 1, x);
      }
    }
  }

  lemma {:induction false} ShrinkCoalesced(c: Config, b: seq<Block>, k: nat, n: nat)
    requires Coalesced(b) && k < |b| && b[k].used
    ensures Coalesced(Shrink(c, b, k, n))
  {
    var r := Shrink(c, b, k, n);
    forall i, j | 0 <= i < |r| && 0 <= j < |r| && j == i + 1 ensures r[i].used || r[j].used {
      if |r| == |b| {
        assert b[i].used || b[j].used;
      } else if i > k + 1 {
        assert b[i - 1].used || b[j - 1].used;
      } else if i < k {
        assert b[i].used || b[j].used;
      }
    }
  }

  lemma {:induction false} ShrinkWellFormed(c: Config, b: seq<Block>, k: nat, n: nat)
    requires c.Valid() && WellFormed(c, b) && k < |b| && b[k].used
    requires Aligned(n) && c.minSize <= n
    ensures WellFormed(c, Shrink(c, b, k, n))
  {
    ShrinkTiled(c, b, k, n);
    ShrinkCoalesced(c, b, k, n);
  }

  // ---------------------------------------------------------------------
  // The implementation: headers linked by offsets

  /** struct mem */
  datatype Mem = Mem(next: nat, prev: nat, used: bool)

  /** The header block i has to have. */
  function Header(c: Config, b: seq<Block>, i: nat): Mem
    requires i < |b|
  {
    Mem(End(c, b, i), if i == 0 then 0 else b[i - 1].start, b[i].used)
  }

  ghost predicate LinkedAt(c: Config, ram: map<nat, Mem>, b: seq<Block>, i: nat)
    requires i < |b|
  {
    b[i].start in ram && ram[b[i].start] == Header(c, b, i)
  }

  /** ram holds the right header for every block, and the end sentinel. The
      sentinel's own prev link is not maintained by every path and is never read. */
  ghost predicate Linked(c: Config, ram: map<nat, Mem>, b: seq<Block>) {
    && (forall i | 0 <= i < |b| :: LinkedAt(c, ram, b, i))
    && c.size in ram && ram[c.size].used && ram[c.size].next == c.size
  }

  lemma {:induction false} SentinelLast(c: Config, b: seq<Block>, i: nat)
    requires c.Valid() && Tiled(c, b) && i < |b|
    ensures b[i].start < c.size
  {
    StartsIncrease(c, b, i, |b|);
  }

  lemma {:induction false} StartsDistinct(c: Config, b: seq<Block>, i: nat, j: nat)
    requires c.Valid() && Tiled(c, b) && i < |b| && j <= |b| && i != j
    ensures b[i].start != StartOf(c, b, j)
  {
    if i < j { StartsIncrease(c, b, i, j); } else { StartsIncrease(c, b, j, i); }
  }

  lemma {:induction false} NextPresent(c: Config, ram: map<nat, Mem>, b: seq<Block>, i: nat)
    requires Linked(c, ram, b) && i < |b|
    ensures End(c, b, i) in ram && LinkedAt(c, ram, b, i)
  {
    if i + 1 < |b| { assert LinkedAt(c, ram, b, i + 1); }
  }

  /** Taking the block after the one at offset m out of the list. */
  function UnlinkNext(ram: map<nat, Mem>, m: nat): map<nat, Mem>
    requires m in ram && ram[m].next in ram && ram[ram[m].next].next in ram
  {
    var after := ram[ram[m].next].next;
    var r := ram[m := ram[m].(next := after)];
    r[after := r[after].(prev := m)]
  }

  lemma {:induction false} UnlinkNextPresent(c: Config, ram: map<nat, Mem>, b: seq<Block>, k: nat)
    requires Linked(c, ram, b) && k + 1 < |b|
    ensures b[k].start in ram && ram[b[k].start].next == b[k + 1].start
    ensures b[k + 1].start in ram && ram[b[k + 1].start].next == StartOf(c, b, k + 2)
    ensures StartOf(c, b, k + 2) in ram
  {
    NextPresent(c, ram, b, k);
    NextPresent(c, ram, b, k + 1);
  }

  lemma {:induction false} UnlinkNextLinked(c: Config, ram: map<nat, Mem>, b: seq<Block>, k: nat)
    requires c.Valid() && Tiled(c, b) && Linked(c, ram, b) && k + 1 < |b|
    requires b[k].start in ram && ram[b[k].start].next in ram && ram[ram[b[k].start].next].next in ram
    ensures Linked(c, UnlinkNext(ram, b[k].start), Remove(b, k + 1))
  {
    UnlinkNextPresent(c, ram, b, k);
    SentinelLast(c, b, k);
    var r, d := UnlinkNext(ram, b[k].start), Remove(b, k + 1);
    forall i | 0 <= i < |d| ensures LinkedAt(c, r, d, i) {
      var j := if i <= k then i else i + 1;
      assert LinkedAt(c, ram, b, j);
      if j != k { StartsDistinct(c, b, j, k); }
      if j != k + 2 { StartsDistinct(c, b, j, k + 2); }
      assert d[i] == b[j];
    }
  }

  lemma {:induction false} SetUsedLinked(c: Config, ram: map<nat, Mem>, b: seq<Block>, i: nat, used: bool)
    requires c.Valid() && Tiled(c, b) && Linked(c, ram, b) && i < |b|
    requires b[i].start in ram
    ensures Linked(c, ram[b[i].start := ram[b[i].start].(used := used)], SetUsed(b, i, used))
  {
    var r, d := ram[b[i].start := ram[b[i].start].(used := used)], SetUsed(b, i, used);
    SentinelLast(c, b, i);
    forall j | 0 <= j < |d| ensures LinkedAt(c, r, d, j) {
      assert LinkedAt(c, ram, b, j);
      if j != i { StartsDistinct(c, b, j, i); }
    }
  }

  /** Putting a new free block at offset p between the block at m and the one at after. */
  function LinkAfter(c: Config, ram: map<nat, Mem>, m: nat, p: nat, after: nat): map<nat, Mem>
    requires m in ram && after in ram
  {
    var r := ram[p := Mem(after, m, false)];
    var r := r[m := r[m].(next := p)];
    if after != c.size then r[after := r[after].(prev := p)] else r
  }

  lemma {:induction false} InsertLinked(c: Config, ram: map<nat, Mem>, b: seq<Block>, k: nat, x: Block)
    requires c.Valid() && Tiled(c, b) && Linked(c, ram, b) && k < |b| && !x.used
    requires b[k].start in ram && End(c, b, k) in ram
    requires Tiled(c, Insert(b, k + 1, x))
    ensures Linked(c, LinkAfter(c, ram, b[k].start, x.start, End(c, b, k)), Insert(b, k + 1, x))
  {
    var r, d := LinkAfter(c, ram, b[k].start, x.start, End(c, b, k)), Insert(b, k + 1, x);
    SentinelLast(c, d, k + 1);
    SentinelLast(c, d, k);
    forall i | 0 <= i < |d| ensures LinkedAt(c, r, d, i) {
      if i != k + 1 {
        var j := if i <= k then i else i - 1;
        assert LinkedAt(c, ram, b, j) && d[i] == b[j];
        if j == k + 1 { SentinelLast(c, b, j); }
        StartsDistinct(c, d, i, k + 1);
      }
      if i != k { StartsDistinct(c, d, i, k); }
      if i != k + 2 { StartsDistinct(c, d, i, k + 2); }
    }
  }

  lemma {:induction false} RelocateLinked(c: Config, ram: map<nat, Mem>, b: seq<Block>, k: nat, x: Block)
    requires c.Valid() && Tiled(c, b) && Linked(c, ram, b) && k + 1 < |b| && !x.used
    requires b[k].start in ram && StartOf(c, b, k + 2) in ram
    requires Tiled(c, Insert(Remove(b, k + 1), k + 1, x))
    ensures Linked(c, LinkAfter(c, ram, b[k].start, x.start, StartOf(c, b, k + 2)),
                   Insert(Remove(b, k + 1), k + 1, x))
  {
    var r := LinkAfter(c, ram, b[k].start, x.start, StartOf(c, b, k + 2));
    var d := Insert(Remove(b, k + 1), k + 1, x);
    SentinelLast(c, d, k + 1);
    SentinelLast(c, d, k);
    forall i | 0 <= i < |d| ensures LinkedAt(c, r, d, i) {
      if i != k + 1 {
        assert LinkedAt(c, ram, b, i) && d[i] == b[i];
        if i == k + 2 { SentinelLast(c, b, i); }
        StartsDistinct(c, d, i, k + 1);
      }
      if i != k { StartsDistinct(c, d, i, k); }
      if i != k + 2 { StartsDistinct(c, d, i, k + 2); }
    }
  }

  /** lfree: the lowest free block, or the end sentinel when there is none. */
  ghost function LowestFree(c: Config, b: seq<Block>): nat {
    StartOf(c, b, FirstFree(b, 0))
  }

  lemma {:induction false} FirstFitIs(c: Config, b: seq<Block>, n: nat, i: nat)
    requires i < |b| && Fits(c, b, i, n)
    requires forall j | 0 <= j < i :: !Fits(c, b, j, n)
    ensures FirstFit(c, b, n, 0) == i
  {
  }

  lemma {:induction false} FirstFreeIs(b: seq<Block>, i: nat)
    requires i <= |b|
    requires i < |b| ==> !b[i].used
    requires forall j | 0 <= j < i :: b[j].used
    ensures FirstFree(b, 0) == i
  {
  }

  /** Merging a free block into the free block k before it leaves lfree alone. */
  lemma {:induction false} LowestFreeMerge(c: Config, b: seq<Block>, k: nat)
    requires c.Valid() && Tiled(c, b) && k + 1 < |b| && !b[k].used && !b[k + 1].used
    ensures LowestFree(c, Remove(b, k + 1)) == LowestFree(c, b) != b[k + 1].start
  {
    var f := FirstFree(b, 0);
    FirstFreeIs(Remove(b, k + 1), f);
    StartsDistinct(c, b, f, k + 1);
  }

  lemma {:induction false} LowestFreeRelease(c: Config, b: seq<Block>, k: nat)
    requires c.Valid() && Tiled(c, b) && k < |b|
    ensures LowestFree(c, SetUsed(b, k, false)) == if b[k].start < LowestFree(c, b) then b[k].start else LowestFree(c, b)
  {
    var f := FirstFree(b, 0);
    if f < k { StartsIncrease(c, b, f, k); }
    if k < f { StartsIncrease(c, b, k, f); }
    FirstFreeIs(SetUsed(b, k, false), if k < f then k else f);
  }

  /** lfree lies below a used block k or beyond it, and not beyond a free successor. */
  lemma {:induction false} LowestFreeAround(c: Config, b: seq<Block>, k: nat)
    requires c.Valid() && Tiled(c, b) && k < |b| && b[k].used
    ensures var l := LowestFree(c, b);
            (l < b[k].start || End(c, b, k) <= l) && (k + 1 < |b| && !b[k + 1].used ==> l <= End(c, b, k))
  {
    var f := FirstFree(b, 0);
    if f < k { StartsIncrease(c, b, f, k); }
    if k + 1 < f { StartsIncrease(c, b, k + 1, f); }
    if f < k + 1 { StartsIncrease(c, b, f, k + 1); }
  }

  lemma {:induction false} LowestFreeShrink(c: Config, b: seq<Block>, k: nat, n: nat)
    requires c.Valid() && Tiled(c, b) && k < |b| && b[k].used && Shrink(c, b, k, n) != b
    ensures LowestFree(c, Shrink(c, b, k, n)) ==
            if LowestFree(c, b) < b[k].start then LowestFree(c, b) else b[k].start + c.header + n
  {
    LowestFreeAround(c, b, k);
    var f := FirstFree(b, 0);
    if k < f { StartsIncrease(c, b, k, f); } else { StartsIncrease(c, b, f, k); }
    FirstFreeIs(Shrink(c, b, k, n), if f < k then f else k + 1);
  }

  /** Handing out a block that is not the lowest free one leaves lfree alone. */
  lemma {:induction false} LowestFreeCarve(c: Config, b: seq<Block>, i: nat, n: nat)
    requires c.Valid() && Tiled(c, b) && i < |b| && !b[i].used && LowestFree(c, b) != b[i].start
    ensures LowestFree(c, Carve(c, b, i, n)) == LowestFree(c, b)
  {
    FirstFreeIs(Carve(c, b, i, n), FirstFree(b, 0));
  }

  lemma {:induction false} EndBound(c: Config, b: seq<Block>, i: nat)
    requires c.Valid() && Tiled(c, b) && i < |b|
    ensures End(c, b, i) <= c.size
  {
    if i + 1 < |b| { SentinelLast(c, b, i + 1); }
  }

  /** A block starting at size - n or later cannot hold n bytes. */
  lemma {:induction false} NoFitBeyond(c: Config, b: seq<Block>, n: nat, i: nat)
    requires c.Valid() && Tiled(c, b) && i <= |b| && c.size - n <= StartOf(c, b, i)
    requires forall j | 0 <= j < i :: !Fits(c, b, j, n)
    ensures FirstFit(c, b, n, 0) == |b|
  {
    var j := FirstFit(c, b, n, 0);
    if j < |b| {
      if i < j { StartsIncrease(c, b, i, j); }
      EndBound(c, b, j);
      assert false;
    }
  }

  /** Where headers are: at the starts of the blocks, and at the end. */
  ghost function Starts(c: Config, b: seq<Block>): set<nat> {
    (set i | 0 <= i < |b| :: b[i].start) + {c.size}
  }

  /** Nothing was written but headers of the blocks b that were, or of the blocks d that are. */
  ghost predicate HeadersOnly(c: Config, was: map<nat, Mem>, b: seq<Block>, ram: map<nat, Mem>, d: seq<Block>) {
    forall x | x in was.Keys + ram.Keys :: Untouched(was, ram, x) || x in Starts(c, b) || x in Starts(c, d)
  }

  ghost predicate Untouched(was: map<nat, Mem>, ram: map<nat, Mem>, x: nat) {
    x in was && x in ram && ram[x] == was[x]
  }

  lemma {:induction false} StartIn(c: Config, b: seq<Block>, i: nat)
    requires i <= |b|
    ensures StartOf(c, b, i) in Starts(c, b)
  {
  }

  lemma {:induction false} HeadersThen(c: Config, r0: map<nat, Mem>, b0: seq<Block>, r1: map<nat, Mem>, b1: seq<Block>,
                    r2: map<nat, Mem>, b2: seq<Block>)
    requires HeadersOnly(c, r0, b0, r1, b1) && HeadersOnly(c, r1, b1, r2, b2) && Starts(c, b1) <= Starts(c, b0)
    ensures HeadersOnly(c, r0, b0, r2, b2)
  {
    hide Starts;
    forall x | x in r0.Keys + r2.Keys
      ensures Untouched(r0, r2, x) || x in Starts(c, b0) || x in Starts(c, b2)
    {
      if x !in Starts(c, b0) && x !in Starts(c, b2) {
        assert x in r0.Keys + r1.Keys || x in r1.Keys + r2.Keys;
        assert Untouched(r0, r1, x) || Untouched(r1, r2, x);
        assert x in r0.Keys + r1.Keys && x in r1.Keys + r2.Keys;
      }
    }
  }

  lemma {:induction false} ShrinkStart(c: Config, b: seq<Block>, k: nat, n: nat)
    requires k < |b| && Shrink(c, b, k, n) != b
    ensures b[k].start in Starts(c, b) && b[k].start + c.header + n in Starts(c, Shrink(c, b, k, n))
  {
    var d := Shrink(c, b, k, n);
    assert d[k + 1].start == b[k].start + c.header + n;
  }

  lemma {:induction false} LinkHeaders(c: Config, was: map<nat, Mem>, b: seq<Block>, d: seq<Block>, m: nat, p: nat, after: nat)
    requires m in was && after in was && m in Starts(c, b) && after in Starts(c, b) && p in Starts(c, d)
    ensures HeadersOnly(c, was, b, LinkAfter(c, was, m, p, after), d)
  {
    hide Starts;
  }

  /** What mem_trim writes. */
  lemma {:induction false} TrimHeaders(c: Config, was: map<nat, Mem>, b: seq<Block>, k: nat, n: nat, j: nat)
    requires k < |b| && j <= |b| && Shrink(c, b, k, n) != b && b[k].start in was && StartOf(c, b, j) in was
    ensures HeadersOnly(c, was, b, LinkAfter(c, was, b[k].start, b[k].start + c.header + n, StartOf(c, b, j)), Shrink(c, b, k, n))
  {
    ShrinkStart(c, b, k, n);
    StartIn(c, b, j);
    hide *;
    LinkHeaders(c, was, b, Shrink(c, b, k, n), b[k].start, b[k].start + c.header + n, StartOf(c, b, j));
  }

  lemma {:induction false} UnlinkHeaders(c: Config, was: map<nat, Mem>, b: seq<Block>, k: nat)
    requires c.Valid() && Tiled(c, b) && Linked(c, was, b) && k + 1 < |b|
    requires b[k].start in was && was[b[k].start].next in was && was[was[b[k].start].next].next in was
    ensures HeadersOnly(c, was, b, UnlinkNext(was, b[k].start), Remove(b, k + 1))
  {
    UnlinkNextPresent(c, was, b, k);
    StartIn(c, b, k);
    StartIn(c, b, k + 2);
    hide Starts, Linked, Tiled, Remove;
  }

  lemma {:induction false} MarkHeaders(c: Config, was: map<nat, Mem>, b: seq<Block>, k: nat, m: Mem, d: seq<Block>)
    requires k < |b|
    ensures HeadersOnly(c, was, b, was[b[k].start := m], d)
  {
    StartIn(c, b, k);
    hide Starts;
  }

  /** What mem_malloc writes when it splits a block. */
  lemma {:induction false} CarveHeaders(c: Config, was: map<nat, Mem>, b: seq<Block>, i: nat, n: nat)
    requires i < |b| && b[i].start in was && End(c, b, i) in was && Capacity(c, b, i) >= n + c.header + c.minSize
    ensures var marked := was[b[i].start := was[b[i].start].(used := true)];
            HeadersOnly(c, was, b, LinkAfter(c, marked, b[i].start, b[i].start + c.header + n, End(c, b, i)), Carve(c, b, i, n))
  {
    var marked, d := was[b[i].start := was[b[i].start].(used := true)], Carve(c, b, i, n);
    StartIn(c, b, i);
    StartIn(c, b, i + 1);
    assert d[i + 1].start == b[i].start + c.header + n;
    MarkHeaders(c, was, b, i, was[b[i].start].(used := true), b);
    LinkHeaders(c, marked, b, d, b[i].start, b[i].start + c.header + n, End(c, b, i));
    hide *;
    HeadersThen(c, was, b, marked, b, LinkAfter(c, marked, b[i].start, b[i].start + c.header + n, End(c, b, i)), d);
  }

  lemma {:induction false} SameHeaders(c: Config, was: map<nat, Mem>, b: seq<Block>)
    ensures HeadersOnly(c, was, b, was, b)
  {
  }

  /** Marking a block first changes nothing about where writes go. */
  lemma {:induction false} MarkedHeaders(c: Config, r0: map<nat, Mem>, b: seq<Block>, r1: map<nat, Mem>, k: nat, used: bool,
                      r2: map<nat, Mem>, d: seq<Block>)
    requires k < |b| && HeadersOnly(c, r0, b, r1, b) && HeadersOnly(c, r1, SetUsed(b, k, used), r2, d)
    ensures HeadersOnly(c, r0, b, r2, d)
  {
    SameStarts(c, b, k, used);
    var b1 := SetUsed(b, k, used);
    assert HeadersOnly(c, r0, b, r1, b1);
    hide SetUsed, HeadersOnly;
    HeadersThen(c, r0, b, r1, b1, r2, d);
  }

  lemma {:induction false} RemoveStarts(c: Config, b: seq<Block>, k: nat)
    requires k < |b|
    ensures Starts(c, Remove(b, k)) <= Starts(c, b)
  {
    var d := Remove(b, k);
    forall i | 0 <= i < |d| ensures d[i].start in Starts(c, b) {
      assert d[i] == b[if i < k then i else i + 1];
    }
  }

  lemma {:induction false} ForwardStarts(c: Config, b: seq<Block>, k: nat)
    requires k < |b|
    ensures Starts(c, MergeForward(b, k)) <= Starts(c, b)
  {
    if k + 1 < |b| { RemoveStarts(c, b, k + 1); }
  }

  lemma {:induction false} SameStarts(c: Config, b: seq<Block>, k: nat, used: bool)
    requires k < |b|
    ensures Starts(c, SetUsed(b, k, used)) == Starts(c, b)
  {
    var d := SetUsed(b, k, used);
    assert |d| == |b| && forall i | 0 <= i < |b| :: d[i].start == b[i].start;
    assert forall i | 0 <= i < |b| :: b[i].start in Starts(c, d);
    assert forall i | 0 <= i < |b| :: d[i].start in Starts(c, b);
  }

  class MemHeap {
    const c: Config
    var ram: map<nat, Mem>
    var lfree: nat
    ghost var blocks: seq<Block>

    ghost predicate Consistent()
      reads this
    {
      && c.Valid()
      && Tiled(c, blocks)
      && Linked(c, ram, blocks)
      && lfree == LowestFree(c, blocks)
    }

    ghost predicate Valid()
      reads this
    {
      Consistent() && Coalesced(blocks)
    }

    /** mem_init */
    constructor (c: Config)
      requires c.Valid()
      ensures Valid() && this.c == c
      ensures blocks == INITIAL
    {
      this.c := c;
      ram := map[0 := Mem(c.size, 0, false), c.size := Mem(c.size, c.size, true)];
      lfree := 0;
      blocks := INITIAL;
      new;
      assert Roomy(c, blocks, 0);
    }

    /** plug_holes: block k, at offset mem, has just been marked free. */
    method PlugHoles(mem: nat, ghost k: nat)
      requires Consistent() && k < |blocks| && CoalescedBut(blocks, k)
      requires blocks[k] == Block(mem, false)
      modifies this
      ensures Valid()
      ensures blocks == MergeBackward(MergeForward(old(blocks), k), k)
      ensures HeadersOnly(c, old(ram), old(blocks), ram, blocks)
    {
      hide HeadersOnly, Starts;
      MergeWellFormed(c, blocks, k);
      PlugForward(mem, k);
      ghost var r, b := ram, blocks;
      PlugBackward(mem, k);
      ForwardStarts(c, old(blocks), k);
      HeadersThen(c, old(ram), old(blocks), r, b, ram, blocks);
    }

    method PlugForward(mem: nat, ghost k: nat)
      requires Consistent() && k < |blocks| && blocks[k] == Block(mem, false)
      modifies this
      ensures Consistent()
      ensures blocks == MergeForward(old(blocks), k)
      ensures HeadersOnly(c, old(ram), old(blocks), ram, blocks)
    {
      hide HeadersOnly;
      ghost var b, was := blocks, ram;
      SameHeaders(c, ram, b);
      NextPresent(c, ram, b, k);
      SentinelLast(c, b, k);
      if k + 1 < |b| {
        SentinelLast(c, b, k + 1);
        StartsDistinct(c, b, k, k + 1);
        UnlinkNextPresent(c, ram, b, k);
        NextPresent(c, ram, b, k + 1);
      }
      var nmem := ram[mem].next;
      if mem != nmem && !ram[nmem].used && nmem != c.size {
        if lfree == nmem {
          lfree := mem;
        }
        var after := ram[nmem].next;
        ram := ram[mem := ram[mem].(next := after)];
        ram := ram[after := ram[after].(prev := mem)];
        RemoveTiled(c, b, k + 1);
        UnlinkNextLinked(c, was, b, k);
        UnlinkHeaders(c, was, b, k);
        LowestFreeMerge(c, b, k);
        blocks := Remove(b, k + 1);
      }
    }

    method PlugBackward(mem: nat, ghost k: nat)
      requires Consistent() && k < |blocks| && blocks[k] == Block(mem, false)
      modifies this
      ensures Consistent()
      ensures blocks == MergeBackward(old(blocks), k)
      ensures HeadersOnly(c, old(ram), old(blocks), ram, blocks)
    {
      hide HeadersOnly;
      ghost var b, was := blocks, ram;
      SameHeaders(c, ram, b);
      NextPresent(c, ram, b, k);
      if 0 < k {
        StartsIncrease(c, b, k - 1, k);
        UnlinkNextPresent(c, ram, b, k - 1);
        NextPresent(c, ram, b, k - 1);
      }
      var pmem := ram[mem].prev;
      if pmem != mem && !ram[pmem].used {
        if lfree == mem {
          lfree := pmem;
        }
        var after := ram[mem].next;
        ram := ram[pmem := ram[pmem].(next := after)];
        ram := ram[after := ram[after].(prev := pmem)];
        RemoveTiled(c, b, k);
        UnlinkNextLinked(c, was, b, k - 1);
        UnlinkHeaders(c, was, b, k - 1);
        LowestFreeMerge(c, b, k - 1);
        blocks := Remove(b, k);
      }
    }

    /** mem_free; null is None. */
    method Free(rmem: Option<int>)
      requires Valid()
      requires rmem.Some? && 0 <= rmem.value < c.size ==> IsLive(c, blocks, rmem.value)
      modifies this
      ensures Valid()
      ensures blocks == Freed(c, old(blocks), rmem)
      ensures HeadersOnly(c, old(ram), old(blocks), ram, blocks)
    {
      hide HeadersOnly, Starts;
      SameHeaders(c, ram, blocks);
      if rmem == None {
        return;
      }
      if rmem.value < 0 || rmem.value >= c.size {
        return;
      }
      ghost var b := blocks;
      ghost var k := Locate(b, rmem.value - c.header, 0);
      var mem := rmem.value - c.header;
      assert LinkedAt(c, ram, b, k);
      SetUsedTiled(c, b, k, false);
      SetUsedLinked(c, ram, b, k, false);
      LowestFreeRelease(c, b, k);
      MarkHeaders(c, ram, b, k, ram[mem].(used := false), b);
      ram := ram[mem := ram[mem].(used := false)];
      ghost var marked := ram;
      if mem < lfree {
        lfree := mem;
      }
      blocks := SetUsed(b, k, false);
      PlugHoles(mem, k);
      MarkedHeaders(c, old(ram), b, marked, k, false, ram, blocks);
    }

    /** mem_trim; the result is rmem itself, or None for NULL. */
    method Trim(rmem: int, newsize: nat) returns (r: Option<int>)
      requires Valid() && newsize < c.width
      requires 0 <= rmem < c.size ==> IsLive(c, blocks, rmem)
      modifies this
      ensures Valid()
      ensures blocks == Trimmed(c, old(blocks), rmem, newsize)
      ensures r == if TrimAccepts(c, old(blocks), rmem, newsize) then Some(rmem) else None
      ensures HeadersOnly(c, old(ram), old(blocks), ram, blocks)
    {
      hide HeadersOnly;
      SameHeaders(c, ram, blocks);
      var n := c.AlignSize(newsize);
      if n < c.minSize {
        n := c.minSize;
      }
      if n > c.size {
        return None;
      }
      if rmem < 0 || rmem >= c.size {
        return Some(rmem);
      }
      assert n == c.RequestSize(newsize);
      r := TrimBlock(rmem, n);
    }

    /** mem_trim once the new size n is aligned and the pointer known to be in the heap. */
    method TrimBlock(rmem: int, n: nat) returns (r: Option<int>)
      requires Valid() && Aligned(n) && c.minSize <= n
      requires 0 <= rmem < c.size && IsLive(c, blocks, rmem)
      modifies this
      ensures Valid()
      ensures var b := old(blocks); var k := Locate(b, rmem - c.header, 0);
              if n <= Capacity(c, b, k) then r == Some(rmem) && blocks == Shrink(c, b, k, n)
              else r == None && blocks == b
      ensures HeadersOnly(c, old(ram), old(blocks), ram, blocks)
    {
      hide HeadersOnly;
      SameHeaders(c, ram, blocks);
      ghost var k := Locate(blocks, rmem - c.header, 0);
      var ptr := rmem - c.header;
      NextPresent(c, ram, blocks, k);
      assert Roomy(c, blocks, k);
      var size := ram[ptr].next - ptr - c.header;
      if n > size {
        return None;
      }
      if n == size {
        return Some(rmem);
      }
      ShrinkWellFormed(c, blocks, k, n);
      TrimTo(ptr, n, k);
      return Some(rmem);
    }

    /** The critical section of mem_trim: block k at offset ptr shrinks to n data bytes. */
    method TrimTo(ptr: nat, n: nat, ghost k: nat)
      requires Valid() && k < |blocks| && blocks[k] == Block(ptr, true)
      requires c.minSize <= n < Capacity(c, blocks, k)
      requires WellFormed(c, Shrink(c, blocks, k, n))
      modifies this
      ensures Valid()
      ensures blocks == Shrink(c, old(blocks), k, n)
      ensures HeadersOnly(c, old(ram), old(blocks), ram, blocks)
    {
      hide HeadersOnly;
      ghost var b, was := blocks, ram;
      SameHeaders(c, ram, b);
      NextPresent(c, ram, b, k);
      LowestFreeAround(c, b, k);
      if Shrink(c, b, k, n) != b { LowestFreeShrink(c, b, k, n); }
      if k + 1 < |b| { NextPresent(c, ram, b, k + 1); }
      assert Roomy(c, b, k);
      hide Tiled, Linked, LowestFree, Coalesced, LinkAfter;
      var mem2 := ram[ptr].next;
      var size := ram[ptr].next - ptr - c.header;
      var ptr2 := ptr + c.header + n;
      if !ram[mem2].used {
        var next := ram[mem2].next;
        if lfree == mem2 {
          lfree := ptr2;
        }
        LinkFree(ptr, ptr2, next);
        RelocateLinked(c, was, b, k, Block(ptr2, false));
        TrimHeaders(c, was, b, k, n, k + 2);
      } else if n + c.header + c.minSize <= size {
        if ptr2 < lfree {
          lfree := ptr2;
        }
        LinkFree(ptr, ptr2, mem2);
        InsertLinked(c, was, b, k, Block(ptr2, false));
        TrimHeaders(c, was, b, k, n, k + 1);
      }
      blocks := Shrink(c, b, k, n);
    }

    /** The writes that put a free block at p between those at m and after. */
    method LinkFree(m: nat, p: nat, after: nat)
      requires m in ram && after in ram
      modifies this`ram
      ensures ram == LinkAfter(c, old(ram), m, p, after)
    {
      ram := ram[p := Mem(after, m, false)];
      ram := ram[m := ram[m].(next := p)];
      if after != c.size {
        ram := ram[after := ram[after].(prev := p)];
      }
    }

    /** mem_malloc; None is NULL, and otherwise the result is the offset of the data. */
    method Malloc(size: nat) returns (r: Option<nat>)
      requires Valid() && size < c.width
      modifies this
      ensures Valid()
      ensures Grant(blocks, r) == Allocate(c, old(blocks), size)
      ensures r == None <==> size == 0 || forall i | 0 <= i < |old(blocks)| :: !Fits(c, old(blocks), i, c.RequestSize(size))
      ensures HeadersOnly(c, old(ram), old(blocks), ram, blocks)
    {
      hide HeadersOnly;
      SameHeaders(c, ram, blocks);
      if size == 0 {
        return None;
      }
      var n := c.AlignSize(size);
      if n < c.minSize {
        n := c.minSize;
      }
      assert n == c.RequestSize(size);
      if n > c.size {
        forall j | 0 <= j < |blocks| ensures !Fits(c, blocks, j, n) { EndBound(c, blocks, j); }
        return None;
      }
      r := Search(n);
    }

    /** The critical section of mem_malloc, for an aligned size n: scan from the
        lowest free block and take the first block that fits. */
    method Search(n: nat) returns (r: Option<nat>)
      requires Valid() && Aligned(n) && c.minSize <= n <= c.size
      modifies this
      ensures Valid()
      ensures var b := old(blocks); var i := FirstFit(c, b, n, 0);
              if i == |b| then r == None && blocks == b
              else r == Some(b[i].start + c.header) && blocks == Carve(c, b, i, n)
      ensures HeadersOnly(c, old(ram), old(blocks), ram, blocks)
    {
      hide HeadersOnly;
      SameHeaders(c, ram, blocks);
      ghost var b := blocks;
      ghost var i := FirstFree(b, 0);
      var ptr := lfree;
      while ptr < c.size - n
        invariant i <= |b| && ptr == StartOf(c, b, i)
        invariant blocks == b && ram == old(ram) && Valid()
        invariant forall j | 0 <= j < i :: !Fits(c, b, j, n)
        decreases |b| - i
      {
        NextPresent(c, ram, b, i);
        var mem := ram[ptr];
        if !mem.used && mem.next - (ptr + c.header) >= n {
          FirstFitIs(c, b, n, i);
          Take(ptr, n, i);
          return Some(ptr + c.header);
        }
        i := i + 1;
        ptr := mem.next;
      }
      NoFitBeyond(c, b, n, i);
      return None;
    }

    /** The tail of mem_malloc: free block i at offset ptr is handed out for n bytes. */
    method Take(ptr: nat, n: nat, ghost i: nat)
      requires Valid() && i < |blocks| && blocks[i].start == ptr
      requires Fits(c, blocks, i, n) && Aligned(n) && c.minSize <= n
      modifies this
      ensures Valid()
      ensures blocks == Carve(c, old(blocks), i, n)
      ensures HeadersOnly(c, old(ram), old(blocks), ram, blocks)
    {
      hide HeadersOnly;
      ghost var b, was := blocks, ram;
      NextPresent(c, ram, b, i);
      var mem := ram[ptr];
      CarveWellFormed(c, b, i, n);
      SetUsedLinked(c, was, b, i, true);
      SetUsedTiled(c, b, i, true);
      if mem.next - (ptr + c.header) >= n + c.header + c.minSize {
        var ptr2 := ptr + c.header + n;
        ram := ram[ptr := mem.(used := true)];
        ghost var marked := ram;
        LinkFree(ptr, ptr2, mem.next);
        InsertLinked(c, marked, SetUsed(b, i, true), i, Block(ptr2, false));
        CarveHeaders(c, was, b, i, n);
      } else {
        MarkHeaders(c, was, b, i, mem.(used := true), Carve(c, b, i, n));
        ram := ram[ptr := mem.(used := true)];
      }
      blocks := Carve(c, b, i, n);
      if ptr == lfree {
        if FirstFree(b, 0) < i { StartsIncrease(c, b, FirstFree(b, 0), i); }
        FindFree(ptr, i);
      } else {
        LowestFreeCarve(c, b, i, n);
      }
    }

    /** The loop that moves lfree on to the next free block after i. */
    method FindFree(mem: nat, ghost i: nat)
      requires c.Valid() && Tiled(c, blocks) && Linked(c, ram, blocks)
      requires i < |blocks| && blocks[i].start == mem && forall j | 0 <= j < i :: blocks[j].used
      modifies this`lfree
      ensures lfree == LowestFree(c, blocks)
    {
      var cur := mem;
      ghost var k := i;
      NextPresent(c, ram, blocks, i);
      while ram[cur].used && cur != c.size
        invariant i <= k <= |blocks| && cur == StartOf(c, blocks, k) && cur in ram
        invariant k < |blocks| ==> LinkedAt(c, ram, blocks, k)
        invariant forall j | 0 <= j < k :: blocks[j].used
        decreases |blocks| - k
      {
        NextPresent(c, ram, blocks, k);
        if k + 1 < |blocks| { NextPresent(c, ram, blocks, k + 1); }
        cur := ram[cur].next;
        k := k + 1;
      }
      if k < |blocks| { SentinelLast(c, blocks, k); }
      FirstFreeIs(blocks, k);
      lfree := cur;
    }
  }
}
