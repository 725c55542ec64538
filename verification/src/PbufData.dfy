/**
 Reading and writing the bytes of packets: each operation of pbuf.c walks the chain, and is
 proved against the packet's bytes taken together.
 */
module PbufData {
  import opened Common
  import opened Pbuf
  import opened PbufCopy

  datatype Err = Ok | ErrMem | ErrArg | ErrVal

  /** Where w occurs in s. */
  predicate OccursAt(s: seq<byte>, w: seq<byte>, i: nat) {
    i + |w| <= |s| && s[i..i + |w|] == w
  }

  lemma {:induction false} Occurrences(s: seq<byte>, w: seq<byte>)
    ensures forall i: nat | OccursAt(s, w, i) :: i + |w| <= |s|
    ensures w == [] ==> forall i: nat | i <= |s| :: OccursAt(s, w, i)
  {
  }

  /** What can be copied from an offset on. */
  function Part(s: seq<byte>, offset: nat, len: nat): seq<byte> {
    if offset >= |s| then [] else s[offset..offset + Min(len, |s| - offset)]
  }

  /** A buffer with a over its front. */
  function OverFront(s: seq<byte>, a: seq<byte>): (r: seq<byte>)
    requires |a| <= |s|
    ensures |r| == |s|
  {
    a + s[|a|..]
  }

  /** What pbuf_take_at writes is what pbuf_copy_partial reads back, and the rest stays. */
  lemma {:induction false} TakeThenCopy(s: seq<byte>, at: nat, w: seq<byte>, offset: nat, len: nat)
    requires at + |w| <= |s|
    ensures Part(Written(s, at, w), at, |w|) == w
    ensures offset + len <= at || at + |w| <= offset ==> Part(Written(s, at, w), offset, len) == Part(s, offset, len)
  {
    var t := Written(s, at, w);
    assert t[at..at + |w|] == w;
    if offset + len <= at {
      assert t[offset..offset + len] == s[offset..offset + len];
    } else if at + |w| <= offset {
      assert t[at + |w|..] == s[at + |w|..];
      if offset < |s| {
        var n := Min(len, |s| - offset);
        SliceOfRest(s, at + |w|, offset, n);
        SliceOfRest(t, at + |w|, offset, n);
      }
    }
  }

  lemma {:induction false} SliceOfRest(s: seq<byte>, from: nat, offset: nat, n: nat)
    requires from <= offset && offset + n <= |s|
    ensures s[offset..offset + n] == s[from..][offset - from..offset - from + n]
  {
  }

  /** The first i bytes of w stand at an offset. */
  ghost predicate Agrees(s: seq<byte>, offset: nat, w: seq<byte>, i: nat)
    requires i <= |w| && offset + |w| <= |s|
  {
    forall k | 0 <= k < i :: s[offset + k] == w[k]
  }

  /** The bytes at an offset differ from w at i, and at no earlier place. */
  ghost predicate FirstDifference(s: seq<byte>, offset: nat, w: seq<byte>, i: int) {
    0 <= i < |w| && offset + |w| <= |s| && s[offset + i] != w[i] && Agrees(s, offset, w, i)
  }

  lemma {:induction false} Differs(s: seq<byte>, w: seq<byte>, offset: nat, i: nat)
    requires i < |w| && offset + |w| <= |s| && s[offset + i] != w[i]
    ensures !OccursAt(s, w, offset)
  {
    assert s[offset..offset + |w|][i] != w[i];
  }

  lemma {:induction false} DropFront(s: seq<byte>, at: nat, a: seq<byte>, b: seq<byte>)
    requires at <= |s| && s[at..] == a + b
    ensures at + |a| <= |s| && s[at + |a|..] == b
  {
    assert s[at..][|a|..] == s[at + |a|..];
  }

  lemma {:induction false} ContentNone(mem: Mem, chains: Chains)
    requires Linked(mem, chains)
    ensures Content(mem, chains, None) == [] && From(chains, None) == []
  {
  }

  /** After is before with w over its bytes from pos on. */
  ghost predicate OverwrittenAt(before: seq<byte>, after: seq<byte>, pos: int, w: seq<byte>) {
    0 <= pos && pos + |w| <= |before| && after == Written(before, pos, w)
  }

  class Packets {
    var mem: Mem
    ghost var chains: Chains

    ghost predicate Valid()
      reads this
    {
      Linked(mem, chains) && TotLens(mem)
    }

    ghost predicate Has(p: Option<Ptr>)
      reads this
    {
      p.Some? ==> p.value in mem
    }

    ghost function Of(p: Option<Ptr>): seq<byte>
      requires Valid() && Has(p)
      reads this
    {
      Content(mem, chains, p)
    }

    /** pbuf_skip: the pbuf that holds the byte at an offset, and where in it. */
    method Skip(p: Option<Ptr>, inOffset: nat) returns (q: Option<Ptr>, left: nat, ghost front: seq<Ptr>)
      requires Valid() && Has(p)
      ensures Has(q) && (q.None? <==> inOffset >= |Of(p)|)
      ensures q.Some? ==> left < |mem[q.value].data|
      ensures left <= inOffset && inOffset - left <= |Of(p)| && Of(p)[inOffset - left..] == Of(q)
      ensures From(chains, p) == front + From(chains, q)
    {
      hide Linked, TotLens, Content, From;
      q, left, front := p, inOffset, [];
      while q.Some? && |mem[q.value].data| <= left
        invariant Has(q) && left <= inOffset && inOffset - left <= |Of(p)|
        invariant Of(p)[inOffset - left..] == Of(q)
        invariant From(chains, p) == front + From(chains, q)
        decreases if q.Some? then |From(chains, q)| + 1 else 0
      {
        ContentStep(mem, chains, q.value);
        DropFront(Of(p), inOffset - left, mem[q.value].data, Of(mem[q.value].next));
        assert front + ([q.value] + From(chains, mem[q.value].next)) == (front + [q.value]) + From(chains, mem[q.value].next);
        left := left - |mem[q.value].data|;
        front := front + [q.value];
        q := mem[q.value].next;
      }
      if q.Some? { ContentStep(mem, chains, q.value); } else { ContentNone(mem, chains); }
    }

    /** pbuf_try_get_at */
    method TryGetAt(p: Option<Ptr>, offset: nat) returns (r: int)
      requires Valid() && Has(p)
      ensures r == if offset < |Of(p)| then Of(p)[offset] as int else -1
    {
      var q, i, _ := Skip(p, offset);
      if q.Some? && |mem[q.value].data| > i {
        ContentStep(mem, chains, q.value);
        assert Of(q)[i] == Of(p)[offset];
        r := mem[q.value].data[i] as int;
      } else {
        r := -1;
      }
    }

    /** pbuf_get_at */
    method GetAt(p: Option<Ptr>, offset: nat) returns (r: byte)
      requires Valid() && Has(p)
      ensures r == if offset < |Of(p)| then Of(p)[offset] else 0
    {
      var ret := TryGetAt(p, offset);
      r := if ret >= 0 then ret as byte else 0;
    }

    /** pbuf_memcmp: 0 exactly if the bytes at the offset are s2, else the position of the first
        difference plus one; 0xffff if the packet is too short. */
    method MemCmp(p: Ptr, offset: nat, s2: seq<byte>) returns (r: nat)
      requires Valid() && p in mem && offset < M16 && |s2| < M16
      ensures r == 0 <==> OccursAt(Of(Some(p)), s2, offset)
      ensures offset + |s2| > |Of(Some(p))| ==> r == 0xffff
      ensures offset + |s2| <= |Of(Some(p))| && r != 0 ==> FirstDifference(Of(Some(p)), offset, s2, r - 1)
    {
      hide Linked, TotLens, Content, From;
      TotLenCounts(mem, chains, Some(p));
      if mem[p].totLen < offset + |s2| {
        return 0xffff;
      }
      ghost var s := Of(Some(p));
      var q, start, _ := Skip(Some(p), offset);
      var i := 0;
      while i < |s2|
        invariant i <= |s2| && s == Of(Some(p)) && Agrees(s, offset, s2, i)
      {
        var a := GetAt(q, start + i);
        assert Of(q)[start + i] == s[offset + i];
        if a != s2[i] {
          Differs(s, s2, offset, i);
          return i + 1;
        }
        i := i + 1;
      }
      r := 0;
    }

    /** pbuf_memfind: the first occurrence from startOffset on, or 0xffff. */
    method MemFind(p: Ptr, pattern: seq<byte>, startOffset: nat) returns (r: nat)
      requires Valid() && p in mem && startOffset < M16 && |pattern| < M16
      ensures (startOffset <= r && OccursAt(Of(Some(p)), pattern, r)) || r == 0xffff
      ensures forall i | startOffset <= i < r :: !OccursAt(Of(Some(p)), pattern, i)
      ensures |Of(Some(p))| < 0xffff ==>
                (r == 0xffff <==> forall i | startOffset <= i :: !OccursAt(Of(Some(p)), pattern, i))
    {
      hide Linked, TotLens, Content, OccursAt;
      TotLenCounts(mem, chains, Some(p));
      TotStep(mem, p);
      Occurrences(Of(Some(p)), pattern);
      var max := (mem[p].totLen + M16 - |pattern|) % M16;
      if mem[p].totLen >= |pattern| + startOffset {
        var i := startOffset;
        while i <= max
          invariant startOffset <= i < M16
          invariant forall j | startOffset <= j < i :: !OccursAt(Of(Some(p)), pattern, j)
          decreases M16 - i
        {
          var plus := MemCmp(p, i, pattern);
          if plus == 0 {
            return i;
          }
          assert i < 0xffff;
          i := (i + 1) % M16;
        }
      }
      r := 0xffff;
    }

    /** pbuf_copy_partial: copies the packet's bytes from the offset on into the front of a
        buffer, as many as there are up to len. */
    method CopyPartial(p: Option<Ptr>, dst: array<byte>, len: nat, offset: nat) returns (copied: nat)
      requires Valid() && Has(p) && len <= dst.Length
      modifies dst
      ensures copied == |Part(Of(p), offset, len)| <= dst.Length
      ensures dst[..] == OverFront(old(dst[..]), Part(Of(p), offset, len))
    {
      hide Linked, TotLens, Content, From, Part, OverFront, Written;
      NothingOver(dst[..]);
      var q, left: nat, off: nat := p, len, offset;
      copied := 0;
      ghost var out: seq<byte> := [];
      while left != 0 && q.Some?
        invariant Has(q) && copied == |out| && copied + left == len <= dst.Length
        invariant Part(Of(p), offset, len) == out + Part(Of(q), off, left)
        invariant dst[..] == OverFront(old(dst[..]), out)
        decreases if q.Some? then |From(chains, q)| + 1 else 0
      {
        ContentStep(mem, chains, q.value);
        var data := mem[q.value].data;
        if off != 0 && off >= |data| {
          PartSkip(data, Of(mem[q.value].next), off, left);
          off := off - |data|;
        } else {
          var n := |data| - off;
          if n > left { n := left; }
          PartTake(out, data, Of(mem[q.value].next), off, left, n);
          MemCopy(dst, copied, data[off..off + n]);
          FrontGrows(old(dst[..]), out, data[off..off + n]);
          out := out + data[off..off + n];
          copied, left, off := copied + n, left - n, 0;
        }
        q := mem[q.value].next;
      }
      if q.None? { ContentNone(mem, chains); }
      PartNone(Of(q), off, left);
      assert out + [] == out;
    }

    /** Overwrites some bytes of one pbuf of a packet. */
    method Poke(ghost p: Ptr, x: Ptr, at: nat, w: seq<byte>)
      requires Valid() && p in mem && x in From(chains, Some(p)) && x in mem && at + |w| <= |mem[x].data|
      modifies this`mem
      ensures Valid() && SameShape(old(mem), mem) && OthersKept(old(mem), mem, From(chains, Some(p)))
      ensures var pos := mem[p].totLen - mem[x].totLen + at;
              0 <= pos && pos + |w| <= |old(Of(Some(p)))| && Of(Some(p)) == Written(old(Of(Some(p))), pos, w)
    {
      PutKeeps(mem, chains, x, at, w);
      PutContent(mem, chains, p, x, at, w);
      mem := mem[x := mem[x].(data := Written(mem[x].data, at, w))];
    }

    /** pbuf_put_at: writes one byte, or nothing beyond the end. */
    method PutAt(p: Ptr, offset: nat, b: byte)
      requires Valid() && p in mem
      modifies this`mem
      ensures Valid() && SameShape(old(mem), mem) && OthersKept(old(mem), mem, From(chains, Some(p)))
      ensures Of(Some(p)) == if offset < |old(Of(Some(p)))| then old(Of(Some(p)))[offset := b] else old(Of(Some(p)))
    {
      hide Linked, TotLens, Content;
      var q, i, front := Skip(Some(p), offset);
      if q.Some? && |mem[q.value].data| > i {
        AtPlace(p, q.value, offset, i, front);
        Poke(p, q.value, i, [b]);
      }
    }

    lemma {:induction false} AtPlace(p: Ptr, x: Ptr, offset: nat, left: nat, front: seq<Ptr>)
      requires Valid() && p in mem && x in mem && left <= offset && offset - left <= |Of(Some(p))|
      requires Of(Some(p))[offset - left..] == Of(Some(x))
      requires From(chains, Some(p)) == front + From(chains, Some(x))
      ensures x in From(chains, Some(p)) && mem[p].totLen - mem[x].totLen + left == offset
      ensures mem[p].totLen == |Of(Some(p))| && mem[x].totLen == |Of(Some(x))|
    {
      TotLenCounts(mem, chains, Some(p));
      TotLenCounts(mem, chains, Some(x));
      assert LinkedAt(mem, chains, x);
      assert From(chains, Some(p))[|front|] == x;
    }

    /** pbuf_take: puts src over the bytes from q on if there are enough. The packet that q is
        the rest of is whole; it may be q itself. */
    method Take(q: Option<Ptr>, src: seq<byte>, ghost whole: Ptr) returns (err: Err)
      requires Valid() && Has(q) && whole in mem && (q.Some? ==> q.value in From(chains, Some(whole)))
      modifies this`mem
      ensures Valid() && SameShape(old(mem), mem) && OthersKept(old(mem), mem, From(chains, Some(whole)))
      ensures err == if q.None? then ErrArg else if |src| > |old(Of(q))| then ErrMem else Ok
      ensures err == Ok ==> OverwrittenAt(old(Of(Some(whole))), Of(Some(whole)), mem[whole].totLen - TotOf(mem, q), src)
      ensures err != Ok ==> mem == old(mem)
    {
      if q.None? {
        return ErrArg;
      }
      TotLenCounts(mem, chains, q);
      if mem[q.value].totLen < |src| {
        return ErrMem;
      }
      TakeAll(q.value, src, whole);
      err := Ok;
    }

    method TakeAll(start: Ptr, src: seq<byte>, ghost whole: Ptr)
      requires Valid() && whole in mem && start in mem && start in From(chains, Some(whole))
      requires |src| <= mem[start].totLen
      modifies this`mem
      ensures Valid() && SameShape(old(mem), mem) && OthersKept(old(mem), mem, From(chains, Some(whole)))
      ensures OverwrittenAt(old(Of(Some(whole))), Of(Some(whole)), mem[whole].totLen - mem[start].totLen, src)
    {
      hide Linked, TotLens, Content, From, Written;
      var q, copied: nat := Some(start), 0;
      ghost var orig := Of(Some(whole));
      ghost var pos: nat := Place(whole, start);
      ghost var front := FrontOf(mem, chains, whole, start);
      NothingWritten(orig, pos);
      assert src[..0] == [];
      while copied != |src|
        invariant Valid() && Has(q) && whole in mem && copied <= |src| && pos + |src| <= |orig| == mem[whole].totLen
        invariant start in mem && mem[start].totLen == old(mem)[start].totLen
        invariant SameShape(old(mem), mem) && OthersKept(old(mem), mem, From(chains, Some(whole)))
        invariant Of(Some(whole)) == Written(orig, pos, src[..copied])
        invariant From(chains, Some(whole)) == front + From(chains, q)
        invariant copied != |src| ==> mem[whole].totLen - TotOf(mem, q) == pos + copied
        decreases if q.Some? then |From(chains, q)| + 1 else 0
      {
        var x := q.value;
        TotStep(mem, x);
        ContentStep(mem, chains, x);
        front := Forward(front, x, From(chains, Some(whole)), From(chains, mem[x].next));
        var n := |src| - copied;
        if n > |mem[x].data| {
          n := |mem[x].data|;
        }
        Poke(whole, x, 0, src[copied..copied + n]);
        WrittenOn(orig, pos, src, copied, n);
        copied := copied + n;
        q := mem[x].next;
      }
      assert src[..copied] == src;
    }

    lemma {:induction false} Place(p: Ptr, x: Ptr) returns (pos: nat)
      requires Valid() && p in mem && x in mem && x in From(chains, Some(p))
      ensures pos == mem[p].totLen - mem[x].totLen && |Of(Some(p))| == mem[p].totLen
    {
      TotLenCounts(mem, chains, Some(p));
      var front, rest := Around(mem, chains, p, x);
      AroundContent(mem, chains, p, x, front, rest);
      pos := mem[p].totLen - mem[x].totLen;
    }

    /** pbuf_take_at: puts src over the bytes from the offset on, provided the packet goes that
        far. An offset at the very end is refused even if there is nothing to write. */
    method TakeAt(p: Ptr, src: seq<byte>, offset: nat) returns (err: Err)
      requires Valid() && p in mem
      modifies this`mem
      ensures Valid() && SameShape(old(mem), mem) && OthersKept(old(mem), mem, From(chains, Some(p)))
      ensures err == if offset < |old(Of(Some(p)))| && offset + |src| <= |old(Of(Some(p)))| then Ok else ErrMem
      ensures err == Ok ==> OverwrittenAt(old(Of(Some(p))), Of(Some(p)), offset, src)
      ensures err != Ok ==> mem == old(mem)
    {
      hide Linked, TotLens, Content, From;
      var q, i, front := Skip(Some(p), offset);
      if q.Some? {
        var x := q.value;
        AtPlace(p, x, offset, i, front);
        if mem[x].totLen >= i + |src| {
          TotStep(mem, x);
          ContentStep(mem, chains, x);
          var first := Min(|mem[x].data| - i, |src|);
          TakeParts(p, x, i, src, first, offset);
          return Ok;
        }
      }
      err := ErrMem;
    }

    /** What pbuf_take_at wrote is what pbuf_copy_partial then reads at the same place. */
    method WriteThenRead(p: Ptr, src: seq<byte>, offset: nat, dst: array<byte>) returns (err: Err, copied: nat)
      requires Valid() && p in mem && |src| <= dst.Length
      modifies this`mem, dst
      ensures Valid() && (err == Ok <==> offset < |old(Of(Some(p)))| && offset + |src| <= |old(Of(Some(p)))|)
      ensures err == Ok ==> copied == |src| && dst[..] == OverFront(old(dst[..]), src)
    {
      hide Linked, TotLens, Content, From, Part, OverFront;
      err := TakeAt(p, src, offset);
      ghost var orig := old(Of(Some(p)));
      if err == Ok { TakeThenCopy(orig, offset, src, 0, 0); }
      copied := CopyPartial(Some(p), dst, |src|, offset);
    }

    /** The part that goes into pbuf x, and then the rest. */
    method TakeParts(ghost p: Ptr, x: Ptr, i: nat, src: seq<byte>, first: nat, ghost offset: nat)
      requires Valid() && p in mem && x in mem && x in From(chains, Some(p))
      requires mem[p].totLen - mem[x].totLen + i == offset
      requires i < |mem[x].data| && i + |src| <= mem[x].totLen && first == Min(|mem[x].data| - i, |src|)
      modifies this`mem
      ensures Valid() && SameShape(old(mem), mem) && OthersKept(old(mem), mem, From(chains, Some(p)))
      ensures OverwrittenAt(old(Of(Some(p))), Of(Some(p)), offset, src)
    {
      hide Linked, TotLens, Content, From;
      ghost var orig := Of(Some(p));
      ghost var pos := Place(p, x);
      TotStep(mem, x);
      Poke(p, x, i, src[..first]);
      if |src| - first > 0 {
        TotStep(mem, x);
        NextOnChain(p, x);
        var _ := Take(mem[x].next, src[first..], p);
        WrittenTwice(orig, offset, src, first);
      } else {
        assert src[..first] == src;
      }
    }

    lemma {:induction false} NextOnChain(p: Ptr, x: Ptr)
      requires Valid() && p in mem && x in mem && x in From(chains, Some(p)) && mem[x].totLen > |mem[x].data|
      ensures mem[x].next.Some? && Has(mem[x].next) && mem[x].next.value in From(chains, Some(p))
      ensures |Of(mem[x].next)| == TotOf(mem, mem[x].next)
    {
      TotStep(mem, x);
      ContentStep(mem, chains, x);
      var front, rest := Around(mem, chains, p, x);
      assert LinkedAt(mem, chains, mem[x].next.value);
      assert chains[p][|front| + 1] == rest[0] == mem[x].next.value;
      TotLenCounts(mem, chains, mem[x].next);
    }

    // --- pbuf_copy ------------------------------------------------------

    /** pbuf_copy */
    method Copy(pTo: Option<Ptr>, pFrom: Option<Ptr>) returns (err: Err)
      requires Valid() && Has(pTo) && Has(pFrom)
      requires forall x | x in From(chains, pFrom) :: x !in From(chains, pTo)
      modifies this`mem
      ensures Valid() && SameShape(old(mem), mem) && OthersKept(old(mem), mem, From(chains, pTo))
      ensures pTo.None? || pFrom.None? || |old(Of(pTo))| < |old(Of(pFrom))| ==> err == ErrArg && mem == old(mem)
      ensures err == Ok ==> OverwrittenAt(old(Of(pTo)), Of(pTo), 0, old(Of(pFrom)))
      ensures pTo.Some? && pFrom.Some? && |old(Of(pFrom))| <= |old(Of(pTo))| ==>
                (err == Ok <==> CopySucceeds(old(mem), chains, pTo.value, pFrom.value))
    {
      if pTo.None? || pFrom.None? {
        return ErrArg;
      }
      TotLenCounts(mem, chains, pTo);
      TotLenCounts(mem, chains, pFrom);
      if mem[pTo.value].totLen < mem[pFrom.value].totLen {
        return ErrArg;
      }
      err := CopyLoop(pTo.value, pFrom.value);
    }

    /** One round of the loop: len bytes from one pbuf of the source into one of the target. */
    method CopyPiece(ghost to: Ptr, ghost from: Ptr, x: Ptr, offTo: nat, y: Ptr, offFrom: nat, len: nat, ghost n: nat)
      requires Valid() && to in mem && from in mem && x in mem && y in mem
      requires x in From(chains, Some(to)) && y in From(chains, Some(from))
      requires forall z | z in From(chains, Some(from)) :: z !in From(chains, Some(to))
      requires offTo + len <= |mem[x].data| && offFrom + len <= |mem[y].data|
      requires n == mem[to].totLen - mem[x].totLen + offTo == mem[from].totLen - mem[y].totLen + offFrom
      modifies this`mem
      ensures Valid() && SameShape(old(mem), mem) && OthersKept(old(mem), mem, From(chains, Some(to)))
      ensures Of(Some(from)) == old(Of(Some(from)))
      ensures n + len <= |Of(Some(from))|
      ensures OverwrittenAt(old(Of(Some(to))), Of(Some(to)), n, Of(Some(from))[n..n + len])
    {
      hide Linked, TotLens;
      SliceAt(mem, chains, from, y, offFrom, len);
      ContentIs(mem, chains, from);
      Poke(to, x, offTo, mem[y].data[offFrom..offFrom + len]);
      ContentIs(mem, chains, from);
      BytesSame(old(mem), mem, From(chains, Some(from)));
    }

    /** The end of a round: both cursors move on, and the loop goes on or is left. */
    method Move(ghost m: Mem, ghost to: Ptr, ghost from: Ptr, x: Ptr, offTo: nat, y: Ptr, offFrom: nat,
                ghost n: nat, ghost start: bool, len: nat)
      returns (exit: Option<Err>, t: Option<Ptr>, offTo': nat, f: Option<Ptr>, offFrom': nat)
      requires Linked(m, chains) && TotLens(m) && SameShape(m, mem)
      requires OnWay(m, chains, to, from, Pos(Some(x), offTo), Pos(Some(y), offFrom), n, start)
      requires x in m && y in m && len == Min(|m[x].data| - offTo, |m[y].data| - offFrom)
      ensures exit != Some(Ok) && (exit.Some? ==> !CopySucceeds(m, chains, to, from))
      ensures exit.None? ==> OnWay(m, chains, to, from, Pos(t, offTo'), Pos(f, offFrom'), n + len, false)
      ensures exit.None? ==> (f.Some? ==> t.Some?)
      ensures |From(chains, t)| + |From(chains, f)| < |From(chains, Some(x))| + |From(chains, Some(y))|
    {
      ghost var a, b := Pos(Some(x), offTo), Pos(Some(y), offFrom);
      RoundMoves(m, chains, to, from, a, b, n, start, len);
      ghost var a', b' := Ahead(m, x, offTo + len), Ahead(m, y, offFrom + len);
      hide Linked, TotLens, Walk, Landing, From, CopySucceeds;
      t, offTo', f, offFrom' := Some(x), offTo + len, Some(y), offFrom + len;
      if offFrom' >= |mem[y].data| {
        f, offFrom' := mem[y].next, 0;
      }
      assert b' == Pos(f, offFrom');
      if offTo' == |mem[x].data| {
        t, offTo' := mem[x].next, 0;
        if t.None? && f.Some? {
          ShortExit(m, chains, to, from, a, b, n, start, len, a', b');
          return Some(ErrArg), t, offTo', f, offFrom';
        }
      }
      assert a' == Pos(t, offTo');
      if f.Some? && |mem[f.value].data| == mem[f.value].totLen && mem[f.value].next.Some? {
        SourceExit(m, chains, to, from, a, b, n, start, len, a', b');
        NoSource(m, chains, to, from);
        return Some(ErrVal), t, offTo', f, offFrom';
      }
      if t.Some? && |mem[t.value].data| == mem[t.value].totLen && mem[t.value].next.Some? {
        TargetExit(m, chains, to, from, a, b, n, start, len, a', b');
        return Some(ErrVal), t, offTo', f, offFrom';
      }
      Onward(m, chains, to, from, a, b, n, start, len, a', b');
      LandingOn(m, chains, to, from, a, b, n, start, len, a', b');
      exit := None;
    }

    /** The first n bytes of the source packet src stand in the target packet, formerly orig. */
    ghost predicate Copied(m: Mem, to: Ptr, from: Ptr, orig: seq<byte>, src: seq<byte>, n: nat)
      reads this
    {
      && Valid() && SameShape(m, mem) && OthersKept(m, mem, From(chains, Some(to)))
      && to in mem && from in mem && Of(Some(from)) == src
      && n <= |src| <= |orig| && Of(Some(to)) == Written(orig, 0, src[..n])
    }

    lemma {:induction false} NoneCopied(to: Ptr, from: Ptr)
      requires Valid() && to in mem && from in mem && mem[from].totLen <= mem[to].totLen
      ensures Copied(mem, to, from, Of(Some(to)), Of(Some(from)), 0)
    {
      TotLenCounts(mem, chains, Some(to));
      TotLenCounts(mem, chains, Some(from));
    }

    lemma {:induction false} AllCopied(m: Mem, to: Ptr, from: Ptr, orig: seq<byte>, src: seq<byte>, n: nat)
      requires Copied(m, to, from, orig, src, n) && from in m && n == m[from].totLen
      ensures OverwrittenAt(orig, Of(Some(to)), 0, src)
    {
      TotLenCounts(mem, chains, Some(from));
      assert src[..n] == src;
    }

    /** One round of the loop. */
    method CopyRound(ghost m: Mem, ghost to: Ptr, ghost from: Ptr, ghost orig: seq<byte>, ghost src: seq<byte>,
                     x: Ptr, offTo: nat, y: Ptr, offFrom: nat, ghost n: nat, ghost start: bool)
      returns (exit: Option<Err>, t: Option<Ptr>, offTo': nat, f: Option<Ptr>, offFrom': nat, ghost n': nat)
      requires Linked(m, chains) && TotLens(m) && Copied(m, to, from, orig, src, n)
      requires forall z | z in From(chains, Some(from)) :: z !in From(chains, Some(to))
      requires OnWay(m, chains, to, from, Pos(Some(x), offTo), Pos(Some(y), offFrom), n, start)
      modifies this`mem
      ensures Copied(m, to, from, orig, src, n')
      ensures exit != Some(Ok) && (exit.Some? ==> !CopySucceeds(m, chains, to, from))
      ensures exit.None? ==> OnWay(m, chains, to, from, Pos(t, offTo'), Pos(f, offFrom'), n', false)
      ensures exit.None? ==> (f.Some? ==> t.Some?)
      ensures |From(chains, t)| + |From(chains, f)| < |From(chains, Some(x))| + |From(chains, Some(y))|
    {
      hide Linked, TotLens, Content, From, OnWay, CopySucceeds;
      OnWayAt(m, chains, to, from, Pos(Some(x), offTo), Pos(Some(y), offFrom), n, start);
      var len: nat := if |mem[x].data| - offTo >= |mem[y].data| - offFrom then |mem[y].data| - offFrom
                      else |mem[x].data| - offTo;
      CopyPiece(to, from, x, offTo, y, offFrom, len, n);
      WrittenOn(orig, 0, src, n, len);
      exit, t, offTo', f, offFrom' := Move(m, to, from, x, offTo, y, offFrom, n, start, len);
      n' := n + len;
    }

    method CopyLoop(to: Ptr, from: Ptr) returns (err: Err)
      requires Valid() && to in mem && from in mem && mem[from].totLen <= mem[to].totLen
      requires forall z | z in From(chains, Some(from)) :: z !in From(chains, Some(to))
      modifies this`mem
      ensures Valid() && SameShape(old(mem), mem) && OthersKept(old(mem), mem, From(chains, Some(to)))
      ensures err == Ok ==> OverwrittenAt(old(Of(Some(to))), Of(Some(to)), 0, old(Of(Some(from))))
      ensures err == Ok <==> CopySucceeds(old(mem), chains, to, from)
    {
      hide Linked, TotLens, Content, From, OnWay, CopySucceeds;
      ghost var m, orig, src := mem, Of(Some(to)), Of(Some(from));
      var t, f, offTo: nat, offFrom: nat := Some(to), Some(from), 0, 0;
      ghost var n: nat, start := 0, true;
      OnWayStarts(m, chains, to, from);
      NoneCopied(to, from);
      while f.Some?
        invariant Copied(m, to, from, orig, src, n)
        invariant f.Some? ==> t.Some?
        invariant OnWay(m, chains, to, from, Pos(t, offTo), Pos(f, offFrom), n, start) && (f.None? ==> !start)
        decreases |From(chains, t)| + |From(chains, f)|
      {
        var exit;
        exit, t, offTo, f, offFrom, n := CopyRound(m, to, from, orig, src, t.value, offTo, f.value, offFrom, n, start);
        if exit.Some? {
          return exit.value;
        }
        start := false;
      }
      OnWayEnds(m, chains, to, from, Pos(t, offTo), Pos(f, offFrom), n);
      AllCopied(m, to, from, orig, src, n);
      err := Ok;
    }
  }

  lemma {:induction false} PartNone(s: seq<byte>, off: nat, left: nat)
    requires s == [] || left == 0
    ensures Part(s, off, left) == []
  {
  }

  lemma {:induction false} NothingOver(s: seq<byte>)
    ensures OverFront(s, []) == s
  {
  }

  lemma {:induction false} FrontGrows(s: seq<byte>, a: seq<byte>, b: seq<byte>)
    requires |a| + |b| <= |s|
    ensures Written(OverFront(s, a), |a|, b) == OverFront(s, a + b)
  {
  }

  lemma {:induction false} Regroup(a: seq<byte>, b: seq<byte>, c: seq<byte>)
    ensures a + (b + c) == (a + b) + c
  {
  }

  lemma {:induction false} Forward(front: seq<Ptr>, x: Ptr, whole: seq<Ptr>, rest: seq<Ptr>) returns (next: seq<Ptr>)
    requires whole == front + ([x] + rest)
    ensures x in whole && whole == next + rest
  {
    next := front + [x];
    assert whole[|front|] == x;
  }

  lemma {:induction false} WrittenOn(s: seq<byte>, pos: nat, w: seq<byte>, i: nat, n: nat)
    requires i + n <= |w| && pos + |w| <= |s|
    ensures Written(Written(s, pos, w[..i]), pos + i, w[i..i + n]) == Written(s, pos, w[..i + n])
  {
  }

  lemma {:induction false} NothingWritten(s: seq<byte>, pos: nat)
    requires pos <= |s|
    ensures Written(s, pos, []) == s
  {
  }

  lemma {:induction false} WrittenTwice(s: seq<byte>, pos: nat, w: seq<byte>, i: nat)
    requires i <= |w| && pos + |w| <= |s|
    ensures Written(Written(s, pos, w[..i]), pos + i, w[i..]) == Written(s, pos, w)
  {
  }

  lemma {:induction false} FrontOf(mem: Mem, chains: Chains, p: Ptr, x: Ptr) returns (front: seq<Ptr>)
    requires Linked(mem, chains) && p in mem && x in mem && x in From(chains, Some(p))
    ensures From(chains, Some(p)) == front + From(chains, Some(x))
  {
    InChain(mem, chains, p, x);
    front := chains[p][..|chains[p]| - |chains[x]|];
  }

  lemma {:induction false} PartSkip(a: seq<byte>, b: seq<byte>, off: nat, left: nat)
    requires off >= |a|
    ensures Part(a + b, off, left) == Part(b, off - |a|, left)
  {
  }

  lemma {:induction false} PartTake(out: seq<byte>, a: seq<byte>, b: seq<byte>, off: nat, left: nat, n: nat)
    requires off <= |a| && n == Min(|a| - off, left)
    ensures out + Part(a + b, off, left) == (out + a[off..off + n]) + Part(b, 0, left - n)
  {
    PartSplit(a, b, off, left, n);
    Regroup(out, a[off..off + n], Part(b, 0, left - n));
  }

  lemma {:induction false} PartSplit(a: seq<byte>, b: seq<byte>, off: nat, left: nat, n: nat)
    requires off <= |a| && n == Min(|a| - off, left)
    ensures Part(a + b, off, left) == a[off..off + n] + Part(b, 0, left - n)
  {
  }

  /** MEMCPY */
  method MemCopy(dst: array<byte>, at: nat, src: seq<byte>)
    requires at + |src| <= dst.Length
    modifies dst
    ensures dst[..] == Written(old(dst[..]), at, src)
  {
    forall i | 0 <= i < |src| {
      dst[at + i] := src[i];
    }
  }
}
