/**
 Whole runs of the heap, seen by its client.

 The client keeps its own books: which pointers it holds and how many bytes it
 was promised for each. Nothing in the books mentions blocks or headers. The
 theorems say that after any run of allocations, frees and trims from mem_init
 the books and the heap agree.
 */
module HeapRuns {
  import opened Common
  import opened Heap

  /** Data bytes behind a live pointer. */
  function Room(c: Config, b: seq<Block>, p: int): int
    requires IsLive(c, b, p)
  {
    Capacity(c, b, Locate(b, p - c.header, 0))
  }

  // How each edit of the block sequence shows through one pointer p.

  lemma {:induction false} InsertKeeps(c: Config, b: seq<Block>, i: nat, x: Block, p: int)
    requires c.Valid() && Tiled(c, b) && 0 < i <= |b| && !x.used && Tiled(c, Insert(b, i, x))
    ensures IsLive(c, Insert(b, i, x), p) <==> IsLive(c, b, p)
    ensures IsLive(c, b, p) ==>
      Room(c, Insert(b, i, x), p) == if p - c.header == b[i - 1].start then x.start - p else Room(c, b, p)
  {
    var d := Insert(b, i, x);
    var k, m := Locate(b, p - c.header, 0), Locate(d, p - c.header, 0);
    if k < |b| {
      LocateStart(c, d, if k < i then k else k + 1);
      if k == i - 1 {} else if b[k].start == b[i - 1].start { StartsDistinct(c, b, k, i - 1); }
    }
  }

  lemma {:induction false} RemoveKeeps(c: Config, b: seq<Block>, i: nat, p: int)
    requires c.Valid() && Tiled(c, b) && 0 < i < |b| && !b[i].used
    ensures IsLive(c, Remove(b, i), p) <==> IsLive(c, b, p)
    ensures IsLive(c, b, p) ==> Room(c, b, p) <= Room(c, Remove(b, i), p)
    ensures IsLive(c, b, p) && p - c.header != b[i - 1].start ==> Room(c, Remove(b, i), p) == Room(c, b, p)
  {
    var d := Remove(b, i);
    RemoveTiled(c, b, i);
    var k, m := Locate(b, p - c.header, 0), Locate(d, p - c.header, 0);
    assert Roomy(c, b, i);
    if k < |b| && k != i {
      LocateStart(c, d, if k < i then k else k - 1);
      hide Tiled, Locate;
    } else if m < |d| {
      assert d[m] == b[if m < i then m else m + 1];
      LocateStart(c, b, if m < i then m else m + 1);
      hide Tiled, Locate;
    }
  }

  lemma {:induction false} SetUsedKeeps(c: Config, b: seq<Block>, i: nat, used: bool, p: int)
    requires c.Valid() && Tiled(c, b) && i < |b|
    ensures p - c.header != b[i].start ==>
      && (IsLive(c, SetUsed(b, i, used), p) <==> IsLive(c, b, p))
      && (IsLive(c, b, p) ==> Room(c, SetUsed(b, i, used), p) == Room(c, b, p))
    ensures p - c.header == b[i].start ==>
      && IsLive(c, SetUsed(b, i, used), p) == used
      && (used ==> Room(c, SetUsed(b, i, used), p) == Capacity(c, b, i))
  {
    var d := SetUsed(b, i, used);
    SetUsedTiled(c, b, i, used);
    var k, m := Locate(b, p - c.header, 0), Locate(d, p - c.header, 0);
    LocateStart(c, d, i);
    if k < |b| { LocateStart(c, d, k); }
    if m < |d| { LocateStart(c, b, m); }
  }

  lemma {:induction false} HandedOut(c: Config, b: seq<Block>, i: nat, p: int)
    requires c.Valid() && Tiled(c, b) && i < |b| && !b[i].used
    ensures var u := SetUsed(b, i, true);
            && (IsLive(c, u, p) <==> IsLive(c, b, p) || p - c.header == b[i].start)
            && (IsLive(c, b, p) ==> p - c.header != b[i].start && Room(c, u, p) == Room(c, b, p))
            && (p - c.header == b[i].start ==> Room(c, u, p) == Capacity(c, b, i))
  {
    LocateStart(c, b, i);
    assert p - c.header == b[i].start ==> !IsLive(c, b, p);
    hide Tiled, SetUsed, Locate;
    SetUsedKeeps(c, b, i, true, p);
  }

  lemma {:induction false} CarveKeeps(c: Config, b: seq<Block>, i: nat, n: nat, p: int)
    requires c.Valid() && WellFormed(c, b) && i < |b| && Fits(c, b, i, n) && Aligned(n) && c.minSize <= n
    ensures IsLive(c, Carve(c, b, i, n), p) <==> IsLive(c, b, p) || p - c.header == b[i].start
    ensures IsLive(c, b, p) ==> p - c.header != b[i].start && Room(c, Carve(c, b, i, n), p) == Room(c, b, p)
    ensures p - c.header == b[i].start ==> n <= Room(c, Carve(c, b, i, n), p)
  {
    var u, d, x := SetUsed(b, i, true), Carve(c, b, i, n), Block(b[i].start + c.header + n, false);
    SetUsedTiled(c, b, i, true);
    CarveWellFormed(c, b, i, n);
    assert Tiled(c, d) && u[i].start == b[i].start && Capacity(c, b, i) >= n && !b[i].used;
    assert d == Insert(u, i + 1, x) || d == u;
    hide *;
    HandedOut(c, b, i, p);
    if d == Insert(u, i + 1, x) {
      InsertKeeps(c, u, i + 1, x, p);
    }
  }

  lemma {:induction false} ReleaseKeeps(c: Config, b: seq<Block>, k: nat, p: int)
    requires c.Valid() && WellFormed(c, b) && k < |b| && b[k].used
    ensures IsLive(c, Release(b, k), p) <==> IsLive(c, b, p) && p - c.header != b[k].start
    ensures IsLive(c, Release(b, k), p) ==> Room(c, b, p) <= Room(c, Release(b, k), p)
  {
    LocateStart(c, b, k);
    var u := SetUsed(b, k, false);
    SetUsedKeeps(c, b, k, false, p);
    SetUsedTiled(c, b, k, false);
    if k + 1 < |u| && !u[k + 1].used {
      RemoveKeeps(c, u, k + 1, p);
      RemoveTiled(c, u, k + 1);
    }
    var f := MergeForward(u, k);
    if 0 < k && !f[k - 1].used {
      RemoveKeeps(c, f, k, p);
    }
  }

  /** The free block after k moves down to x. */
  lemma {:induction false} RelocateKeeps(c: Config, b: seq<Block>, k: nat, x: Block, p: int)
    requires c.Valid() && Tiled(c, b) && k + 1 < |b| && !b[k + 1].used && !x.used
    requires Tiled(c, Insert(Remove(b, k + 1), k + 1, x))
    ensures var d := Insert(Remove(b, k + 1), k + 1, x);
      && (IsLive(c, d, p) <==> IsLive(c, b, p))
      && (IsLive(c, b, p) ==> Room(c, d, p) == if p - c.header == b[k].start then x.start - p else Room(c, b, p))
  {
    RemoveKeeps(c, b, k + 1, p);
    RemoveTiled(c, b, k + 1);
    InsertKeeps(c, Remove(b, k + 1), k + 1, x, p);
  }

  lemma {:induction false} ShrinkKeeps(c: Config, b: seq<Block>, k: nat, n: nat, p: int)
    requires c.Valid() && WellFormed(c, b) && k < |b| && b[k].used
    requires Aligned(n) && c.minSize <= n <= Capacity(c, b, k)
    ensures IsLive(c, Shrink(c, b, k, n), p) <==> IsLive(c, b, p)
    ensures IsLive(c, b, p) && p - c.header != b[k].start ==> Room(c, Shrink(c, b, k, n), p) == Room(c, b, p)
    ensures IsLive(c, b, p) && p - c.header == b[k].start ==> n <= Room(c, Shrink(c, b, k, n), p)
  {
    LocateStart(c, b, k);
    ShrinkTiled(c, b, k, n);
    var x := Block(b[k].start + c.header + n, false);
    if n < Capacity(c, b, k) {
      if k + 1 < |b| && !b[k + 1].used {
        RelocateKeeps(c, b, k, x, p);
      } else if n + c.header + c.minSize <= Capacity(c, b, k) {
        InsertKeeps(c, b, k + 1, x, p);
      }
    }
  }

  // ---------------------------------------------------------------------
  // Runs

  datatype Op = DoMalloc(size: nat) | DoFree(p: nat) | DoTrim(p: nat, newsize: nat)

  /** The heap and the client's books: bytes promised for each pointer it holds. */
  datatype World = World(blocks: seq<Block>, held: map<nat, nat>)

  /** A client only frees and trims what it holds. */
  predicate Legal(w: World, op: Op) {
    match op
    case DoMalloc(_) => true
    case DoFree(p) => p in w.held
    case DoTrim(p, _) => p in w.held
  }

  /** One call. The blocks change as the heap's methods are proved to change them;
      the books record only what the client sees: arguments and results. */
  function Step(c: Config, w: World, op: Op): World
    requires c.Valid()
  {
    match op
    case DoMalloc(size) =>
      var g := Allocate(c, w.blocks, size);
      World(g.blocks, if g.ptr.Some? then w.held[g.ptr.value := c.RequestSize(size)] else w.held)
    case DoFree(p) =>
      World(Freed(c, w.blocks, Some(p)), w.held - {p})
    case DoTrim(p, newsize) =>
      World(Trimmed(c, w.blocks, p, newsize),
            if TrimAccepts(c, w.blocks, p, newsize) then w.held[p := c.RequestSize(newsize)] else w.held)
  }

  function Run(c: Config, ops: seq<Op>): World
    requires c.Valid()
  {
    if ops == [] then World(INITIAL, map[])
    else Step(c, Run(c, ops[..|ops| - 1]), ops[|ops| - 1])
  }

  ghost predicate LegalRun(c: Config, ops: seq<Op>)
    requires c.Valid()
  {
    forall i | 0 <= i < |ops| :: Legal(Run(c, ops[..i]), ops[i])
  }

  /** The books agree with the heap. */
  ghost predicate Agree(c: Config, w: World) {
    WellFormed(c, w.blocks) && forall p: nat :: AgreeAt(c, w, p)
  }

  /** The client holds p exactly when p is live, and p has the bytes promised for it. */
  predicate AgreeAt(c: Config, w: World, p: nat) {
    && (p in w.held <==> IsLive(c, w.blocks, p))
    && (p in w.held ==> w.held[p] <= Room(c, w.blocks, p))
  }

  lemma {:induction false} LivePointer(c: Config, b: seq<Block>, p: int)
    requires c.Valid() && Tiled(c, b) && IsLive(c, b, p)
    ensures c.header <= p && Aligned(p) && p + Room(c, b, p) <= c.size && p < c.size
  {
    var k := Locate(b, p - c.header, 0);
    assert Roomy(c, b, k);
    EndBound(c, b, k);
  }

  lemma {:induction false} MallocAgrees(c: Config, w: World, size: nat)
    requires c.Valid() && Agree(c, w)
    ensures Agree(c, Step(c, w, DoMalloc(size)))
    ensures var g := Allocate(c, w.blocks, size); g.ptr.Some? ==> g.ptr.value !in w.held
  {
    var n := c.RequestSize(size);
    var i := FirstFit(c, w.blocks, n, 0);
    if size != 0 && i < |w.blocks| {
      CarveWellFormed(c, w.blocks, i, n);
      LocateStart(c, w.blocks, i);
      assert AgreeAt(c, w, w.blocks[i].start + c.header);
      forall p: nat ensures AgreeAt(c, Step(c, w, DoMalloc(size)), p) {
        assert AgreeAt(c, w, p);
        CarveKeeps(c, w.blocks, i, n, p);
      }
    }
  }

  lemma {:induction false} FreeAgrees(c: Config, w: World, q: nat)
    requires c.Valid() && Agree(c, w) && q in w.held
    ensures Agree(c, Step(c, w, DoFree(q)))
  {
    assert AgreeAt(c, w, q);
    LivePointer(c, w.blocks, q);
    var k := Locate(w.blocks, q - c.header, 0);
    FreeStep(c, w, q);
    ReleaseWellFormed(c, w.blocks, k);
    assert Agree(c, w) && WellFormed(c, w.blocks);
    forall p: nat ensures AgreeAt(c, Step(c, w, DoFree(q)), p) {
      assert AgreeAt(c, w, p);
      hide *;
      FreeAgreesAt(c, w, q, k, p);
    }
    hide Step;
  }

  lemma {:induction false} FreeAgreesAt(c: Config, w: World, q: nat, k: nat, p: nat)
    requires c.Valid() && WellFormed(c, w.blocks) && k < |w.blocks| && w.blocks[k].used
    requires w.blocks[k].start == q - c.header && AgreeAt(c, w, p)
    ensures AgreeAt(c, World(Release(w.blocks, k), w.held - {q}), p)
  {
    ReleaseKeeps(c, w.blocks, k, p);
    hide WellFormed, Release, IsLive, Room;
  }

  lemma {:induction false} FreeStep(c: Config, w: World, q: nat)
    requires c.Valid() && IsLive(c, w.blocks, q) && q < c.size
    ensures var k := Locate(w.blocks, q - c.header, 0);
            && k < |w.blocks| && w.blocks[k].used && w.blocks[k].start == q - c.header
            && Step(c, w, DoFree(q)) == World(Release(w.blocks, k), w.held - {q})
  {
    hide Release;
  }

  lemma {:induction false} TrimAgrees(c: Config, w: World, q: nat, newsize: nat)
    requires c.Valid() && Agree(c, w) && q in w.held
    ensures Agree(c, Step(c, w, DoTrim(q, newsize)))
  {
    assert AgreeAt(c, w, q);
    LivePointer(c, w.blocks, q);
    if TrimAccepts(c, w.blocks, q, newsize) {
      var k, n := Locate(w.blocks, q - c.header, 0), c.RequestSize(newsize);
      ShrinkWellFormed(c, w.blocks, k, n);
      hide Locate, Shrink, WellFormed, IsLive, Room;
      forall p: nat ensures AgreeAt(c, Step(c, w, DoTrim(q, newsize)), p) {
        assert AgreeAt(c, w, p);
        ShrinkKeeps(c, w.blocks, k, n, p);
      }
    }
  }

  lemma {:induction false} RunAgrees(c: Config, ops: seq<Op>)
    requires c.Valid() && LegalRun(c, ops)
    ensures Agree(c, Run(c, ops))
  {
    if ops == [] {
      assert Roomy(c, INITIAL, 0);
    } else {
      var before := ops[..|ops| - 1];
      assert forall i | 0 <= i < |before| :: before[..i] == ops[..i];
      RunAgrees(c, before);
      var w := Run(c, before);
      hide Agree, Step;
      assert Legal(w, ops[|ops| - 1]);
      StepAgrees(c, w, ops[|ops| - 1]);
    }
  }

  lemma {:induction false} LiveDisjoint(c: Config, b: seq<Block>, p: nat, q: nat)
    requires c.Valid() && Tiled(c, b) && IsLive(c, b, p) && IsLive(c, b, q) && p < q
    ensures p + Room(c, b, p) <= q - c.header
  {
    var i, j := Locate(b, p - c.header, 0), Locate(b, q - c.header, 0);
    if j < i { StartsIncrease(c, b, j, i); }
    if i + 1 < j { StartsIncrease(c, b, i + 1, j); }
  }

  /** Two pointers the client holds never share a byte, headers included. */
  lemma {:induction false} HeldDisjoint(c: Config, ops: seq<Op>, p: nat, q: nat)
    requires c.Valid() && LegalRun(c, ops)
    requires p in Run(c, ops).held && q in Run(c, ops).held && p < q
    ensures var held := Run(c, ops).held;
            && c.header <= p && Aligned(p) && p + held[p] <= q - c.header
            && Aligned(q) && q + held[q] <= c.size
  {
    RunAgrees(c, ops);
    var w := Run(c, ops);
    assert AgreeAt(c, w, p) && AgreeAt(c, w, q);
    LivePointer(c, w.blocks, p);
    LivePointer(c, w.blocks, q);
    LiveDisjoint(c, w.blocks, p, q);
  }

  /** When the client holds nothing the heap is the single block of mem_init again. */
  lemma {:induction false} AllFreedIsInitial(c: Config, ops: seq<Op>)
    requires c.Valid() && LegalRun(c, ops)
    ensures Run(c, ops).held == map[] <==> Run(c, ops).blocks == INITIAL
  {
    RunAgrees(c, ops);
    hide *;
    NothingHeld(c, Run(c, ops));
  }

  lemma {:induction false} NothingHeld(c: Config, w: World)
    requires c.Valid() && Agree(c, w)
    ensures w.held == map[] <==> w.blocks == INITIAL
  {
    if w.held == map[] {
      forall i | 0 <= i < |w.blocks| ensures !w.blocks[i].used { FreeUnlessHeld(c, w, i); }
      AllFreeIsInitial(c, w.blocks);
    } else {
      var p :| p in w.held;
      assert AgreeAt(c, w, p);
      hide Agree, AgreeAt;
      InitialIsFree(c, p);
    }
  }

  lemma {:induction false} FreeUnlessHeld(c: Config, w: World, i: nat)
    requires c.Valid() && Agree(c, w) && i < |w.blocks| && w.held == map[]
    ensures !w.blocks[i].used
  {
    LocateStart(c, w.blocks, i);
    assert AgreeAt(c, w, w.blocks[i].start + c.header);
  }

  lemma {:induction false} AllFreeIsInitial(c: Config, b: seq<Block>)
    requires WellFormed(c, b) && forall i | 0 <= i < |b| :: !b[i].used
    ensures b == INITIAL
  {
    if |b| > 1 {
      Neighbours(b, 0);
      assert false;
    }
  }

  lemma {:induction false} Neighbours(b: seq<Block>, i: nat)
    requires Coalesced(b) && i + 1 < |b|
    ensures b[i].used || b[i + 1].used
  {
  }

  lemma {:induction false} InitialIsFree(c: Config, p: int)
    ensures !IsLive(c, INITIAL, p)
  {
  }

  // ---------------------------------------------------------------------
  // What trimming gives back and splitting keeps

  /** The block right behind the one of p is free. */
  ghost predicate FreeBehind(c: Config, b: seq<Block>, p: int)
    requires IsLive(c, b, p)
  {
    exists i :: 0 <= i < |b| && b[i].start == p + Room(c, b, p) && !b[i].used
  }

  lemma {:induction false} BehindIs(c: Config, b: seq<Block>, p: int)
    requires c.Valid() && Tiled(c, b) && IsLive(c, b, p)
    ensures var k := Locate(b, p - c.header, 0); FreeBehind(c, b, p) <==> k + 1 < |b| && !b[k + 1].used
  {
    var k := Locate(b, p - c.header, 0);
    if i :| 0 <= i < |b| && b[i].start == p + Room(c, b, p) && !b[i].used {
      if k + 1 < |b| {
        if i != k + 1 { StartsDistinct(c, b, i, k + 1); }
      } else {
        assert Roomy(c, b, i);
        EndBound(c, b, i);
      }
    }
  }

  /** Whether the bytes behind the first n of the old ones can be a block of their own. */
  ghost predicate Separable(c: Config, b: seq<Block>, p: int, n: nat)
    requires IsLive(c, b, p)
  {
    n < Room(c, b, p) && (FreeBehind(c, b, p) || n + c.header + c.minSize <= Room(c, b, p))
  }

  /** A trim leaves the pointer exactly the aligned size if the rest can be a block of its own or go
      to the free block behind; otherwise its room stays. */
  lemma {:induction false} TrimRoom(c: Config, b: seq<Block>, p: nat, newsize: nat)
    requires c.Valid() && WellFormed(c, b) && IsLive(c, b, p) && TrimAccepts(c, b, p, newsize)
    ensures var d, n := Trimmed(c, b, p, newsize), c.RequestSize(newsize);
            IsLive(c, d, p) && Room(c, d, p) == if Separable(c, b, p, n) then n else Room(c, b, p)
  {
    LivePointer(c, b, p);
    BehindIs(c, b, p);
    var k, n := Locate(b, p - c.header, 0), c.RequestSize(newsize);
    ShrinkTiled(c, b, k, n);
    var d := Shrink(c, b, k, n);
    ShrunkBlock(c, b, k, n);
    assert Trimmed(c, b, p, newsize) == d;
    hide Shrink, Tiled, Coalesced;
    LocateStart(c, d, k);
  }

  /** Block k after it was shrunk to n bytes, and the one split off. */
  lemma {:induction false} ShrunkBlock(c: Config, b: seq<Block>, k: nat, n: nat)
    requires k < |b| && n <= Capacity(c, b, k)
    ensures var d := Shrink(c, b, k, n);
            var split := n < Capacity(c, b, k)
                         && ((k + 1 < |b| && !b[k + 1].used) || n + c.header + c.minSize <= Capacity(c, b, k));
            && |d| > k && d[k] == b[k] && Capacity(c, d, k) == (if split then n else Capacity(c, b, k))
            && (split ==> |d| > k + 1 && d[k + 1] == Block(b[k].start + c.header + n, false)
                          && End(c, d, k + 1) == if k + 1 < |b| && !b[k + 1].used then End(c, b, k + 1) else End(c, b, k))
  {
  }

  /** A trim of a live pointer is refused exactly if the aligned size is more than its room. */
  lemma {:induction false} TrimRefused(c: Config, b: seq<Block>, p: nat, newsize: nat)
    requires c.Valid() && Tiled(c, b) && IsLive(c, b, p)
    ensures TrimAccepts(c, b, p, newsize) <==> c.RequestSize(newsize) <= Room(c, b, p)
  {
    LivePointer(c, b, p);
  }

  /** What it loses can be allocated again. */
  lemma {:induction false} TrimGivesBack(c: Config, b: seq<Block>, p: nat, newsize: nat, size: nat)
    requires c.Valid() && WellFormed(c, b) && IsLive(c, b, p) && TrimAccepts(c, b, p, newsize)
    requires size > 0 && c.RequestSize(newsize) + c.header + c.RequestSize(size) <= Room(c, b, p)
    ensures Allocate(c, Trimmed(c, b, p, newsize), size).ptr.Some?
  {
    LivePointer(c, b, p);
    var k, n := Locate(b, p - c.header, 0), c.RequestSize(newsize);
    var d := Shrink(c, b, k, n);
    assert Trimmed(c, b, p, newsize) == d;
    if k + 1 < |b| { assert Roomy(c, b, k + 1); }
    ShrunkBlock(c, b, k, n);
    hide Shrink, Tiled, Coalesced, Trimmed, IsLive, Locate;
    assert Fits(c, d, k + 1, c.RequestSize(size));
  }

  /** A malloc takes the lowest block that is large enough, and leaves the pointer exactly the aligned
      size if the rest can be a block of its own; otherwise the whole block. */
  lemma {:induction false} MallocRoom(c: Config, b: seq<Block>, size: nat)
    requires c.Valid() && WellFormed(c, b) && Allocate(c, b, size).ptr.Some?
    ensures var g, n := Allocate(c, b, size), c.RequestSize(size);
            var i := Locate(b, g.ptr.value - c.header, 0);
            && i < |b| && !b[i].used && n <= Capacity(c, b, i)
            && (forall j | 0 <= j < |b| && b[j].start < b[i].start :: b[j].used || Capacity(c, b, j) < n)
            && IsLive(c, g.blocks, g.ptr.value)
            && Room(c, g.blocks, g.ptr.value) ==
               if Capacity(c, b, i) >= n + c.header + c.minSize then n else Capacity(c, b, i)
  {
    var n := c.RequestSize(size);
    var i := FirstFit(c, b, n, 0);
    LocateStart(c, b, i);
    CarveWellFormed(c, b, i, n);
    var d := Carve(c, b, i, n);
    assert d[i] == Block(b[i].start, true);
    LocateStart(c, d, i);
    forall j | 0 <= j < |b| && b[j].start < b[i].start ensures b[j].used || Capacity(c, b, j) < n {
      if j > i { StartsIncrease(c, b, i, j); }
      assert !Fits(c, b, j, n);
    }
  }

  /** The rest of a block that was split can be allocated again. */
  lemma {:induction false} MallocLeavesRest(c: Config, b: seq<Block>, size: nat, more: nat)
    requires c.Valid() && WellFormed(c, b) && Allocate(c, b, size).ptr.Some? && more > 0
    requires var i := Locate(b, Allocate(c, b, size).ptr.value - c.header, 0);
             i < |b| && c.RequestSize(size) + c.header + c.RequestSize(more) <= Capacity(c, b, i)
    ensures Allocate(c, Allocate(c, b, size).blocks, more).ptr.Some?
  {
    var n := c.RequestSize(size);
    var i := FirstFit(c, b, n, 0);
    LocateStart(c, b, i);
    var d := Carve(c, b, i, n);
    assert d[i + 1] == Block(b[i].start + c.header + n, false);
    assert Fits(c, d, i + 1, c.RequestSize(more));
  }

  /** In every run: after an accepted trim, what the pointer lost can be allocated again. */
  lemma {:induction false} TrimmedThenMalloc(c: Config, ops: seq<Op>, p: nat, newsize: nat, size: nat)
    requires c.Valid() && LegalRun(c, ops) && p in Run(c, ops).held && TrimAccepts(c, Run(c, ops).blocks, p, newsize)
    requires size > 0 && IsLive(c, Run(c, ops).blocks, p)
    requires c.RequestSize(newsize) + c.header + c.RequestSize(size) <= Room(c, Run(c, ops).blocks, p)
    ensures Allocate(c, Step(c, Run(c, ops), DoTrim(p, newsize)).blocks, size).ptr.Some?
  {
    RunAgrees(c, ops);
    hide Run, LegalRun, Allocate, Trimmed;
    TrimGivesBack(c, Run(c, ops).blocks, p, newsize, size);
  }

  /** A header of a block, or the end, has no byte in common with a region the client holds. */
  lemma {:induction false} HeadersClear(c: Config, w: World, p: nat, x: nat)
    requires c.Valid() && Agree(c, w) && p in w.held && x in Starts(c, w.blocks)
    ensures x + c.header <= p || p + w.held[p] <= x
  {
    var b := w.blocks;
    assert AgreeAt(c, w, p);
    LivePointer(c, b, p);
    var k := Locate(b, p - c.header, 0);
    if x != c.size {
      var i :| 0 <= i < |b| && b[i].start == x;
      if i < k { StartsIncrease(c, b, i, k); }
      if k + 1 < i { StartsIncrease(c, b, k + 1, i); }
    }
  }

  /** A call writes no header into a region that the client holds before and after it. */
  lemma {:induction false} CallClear(c: Config, w: World, op: Op, p: nat, x: nat)
    requires c.Valid() && Agree(c, w) && Legal(w, op) && p in w.held
    requires op != DoFree(p) && !(op.DoTrim? && op.p == p)
    requires x in Starts(c, w.blocks) || x in Starts(c, Step(c, w, op).blocks)
    ensures x + c.header <= p || p + w.held[p] <= x
  {
    hide Agree, Step, Starts;
    StillHeld(c, w, op, p);
    StepAgrees(c, w, op);
    if x in Starts(c, w.blocks) { HeadersClear(c, w, p, x); }
    else { HeadersClear(c, Step(c, w, op), p, x); }
  }

  lemma {:induction false} StepAgrees(c: Config, w: World, op: Op)
    requires c.Valid() && Agree(c, w) && Legal(w, op)
    ensures Agree(c, Step(c, w, op))
  {
    hide Agree, Step;
    match op
    case DoMalloc(size) => MallocAgrees(c, w, size);
    case DoFree(p) => FreeAgrees(c, w, p);
    case DoTrim(p, newsize) => TrimAgrees(c, w, p, newsize);
  }

  /** A pointer keeps its bytes through every later call that is not about it: it stays live with
      as much room, and no header is ever there. */
  lemma {:induction false} HeldUnmoved(c: Config, ops: seq<Op>, more: seq<Op>, p: nat)
    requires c.Valid() && LegalRun(c, ops + more) && p in Run(c, ops).held
    requires forall i | 0 <= i < |more| :: more[i] != DoFree(p) && !(more[i].DoTrim? && more[i].p == p)
    ensures var w := Run(c, ops + more);
            && p in w.held && w.held[p] == Run(c, ops).held[p]
            && IsLive(c, w.blocks, p) && w.held[p] <= Room(c, w.blocks, p)
            && forall x | x in Starts(c, w.blocks) :: x + c.header <= p || p + w.held[p] <= x
  {
    hide Starts, IsLive, Room, Agree, Step;
    RunClear(c, ops + more, p);
    if more == [] {
      assert ops + more == ops;
    } else {
      var most, op := more[..|more| - 1], more[|more| - 1];
      assert ops + more == (ops + most) + [op];
      LastCall(c, ops + most, op);
      HeldUnmoved(c, ops, most, p);
      hide LegalRun, Run;
      RunAgrees(c, ops + most);
      StillHeld(c, Run(c, ops + most), op, p);
    }
  }

  lemma {:induction false} RunClear(c: Config, ops: seq<Op>, p: nat)
    requires c.Valid() && LegalRun(c, ops)
    ensures var w := Run(c, ops);
            p in w.held ==>
              && IsLive(c, w.blocks, p) && w.held[p] <= Room(c, w.blocks, p)
              && forall x | x in Starts(c, w.blocks) :: x + c.header <= p || p + w.held[p] <= x
  {
    RunAgrees(c, ops);
    var w := Run(c, ops);
    hide Run, LegalRun, Starts;
    if p in w.held {
      assert AgreeAt(c, w, p);
      hide Agree;
      forall x | x in Starts(c, w.blocks) ensures x + c.header <= p || p + w.held[p] <= x { HeadersClear(c, w, p, x); }
    }
  }

  lemma {:induction false} LastCall(c: Config, run: seq<Op>, op: Op)
    requires c.Valid() && LegalRun(c, run + [op])
    ensures LegalRun(c, run) && Run(c, run + [op]) == Step(c, Run(c, run), op)
  {
    hide Step, Legal;
    assert (run + [op])[..|run|] == run;
    forall i | 0 <= i < |run| ensures Legal(Run(c, run[..i]), run[i]) {
      assert (run + [op])[..i] == run[..i] && (run + [op])[i] == run[i];
    }
  }

  lemma {:induction false} StillHeld(c: Config, w: World, op: Op, p: nat)
    requires c.Valid() && Agree(c, w) && p in w.held && op != DoFree(p) && !(op.DoTrim? && op.p == p)
    ensures p in Step(c, w, op).held && Step(c, w, op).held[p] == w.held[p]
  {
    hide Agree, Allocate, Freed, Trimmed, TrimAccepts;
    if op.DoMalloc? { MallocAgrees(c, w, op.size); }
  }
}
