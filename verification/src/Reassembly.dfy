/**
 The receiver's side of the relay: the table of partly received packets.

 Process says what one fragment does to the table, as a value; the class
 Receiver is the code, with its scans over the slots; and Arrive is what the
 table is for, in terms of packets and the parts of them seen so far.
 */
module Reassembly {
  import opened Common
  import opened Relay

  /** struct lan_client_fragment; part is the bit mask of received parts. */
  datatype Slot = Slot(localId: nat, src: seq<byte>, id: nat, part: bv8, used: bool, totalLen: nat, buffer: seq<byte>)

  predicate SlotOk(s: Slot) {
    |s.buffer| == ETHER_MTU && s.totalLen <= ETHER_MTU
  }

  ghost predicate TableOk(t: seq<Slot>) {
    |t| == LC_FRAG_COUNT && forall i | 0 <= i < |t| :: SlotOk(t[i])
  }

  /** A fragment that stays inside the slot's buffer and the mask. */
  predicate Fits(h: Header, payload: seq<byte>) {
    Start(h.pmtu, h.part) + h.len <= ETHER_MTU && h.len <= |payload| && h.part < 8 && h.total <= 8
  }

  predicate Holds(s: Slot, h: Header) {
    s.used && s.id == h.id && s.src == h.src
  }

  /** The first slot collecting the fragment's packet, or |t|. */
  function FindKey(t: seq<Slot>, h: Header, from: nat): (i: nat)
    requires from <= |t|
    ensures from <= i <= |t|
    ensures i < |t| ==> Holds(t[i], h)
    ensures forall j | from <= j < i :: !Holds(t[j], h)
    decreases |t| - from
  {
    if from == |t| || Holds(t[from], h) then from else FindKey(t, h, from + 1)
  }

  /** The first unused slot, or |t|. */
  function FindFree(t: seq<Slot>, from: nat): (i: nat)
    requires from <= |t|
    ensures from <= i <= |t|
    ensures i < |t| ==> !t[i].used
    ensures forall j | from <= j < i :: t[j].used
    decreases |t| - from
  {
    if from == |t| || !t[from].used then from else FindFree(t, from + 1)
  }

  /** How far a slot's 16-bit stamp is from the counter. */
  function Age(s: Slot, localId: nat): nat {
    if s.localId < localId then localId - s.localId else s.localId - localId
  }

  /** Of the first n slots the first used one with the greatest age, or |t| if all ages are 0. */
  function Oldest(t: seq<Slot>, localId: nat, n: nat): (i: nat)
    requires n <= |t|
    ensures i < n || i == |t|
    ensures i < |t| ==> t[i].used && Age(t[i], localId) > 0
    ensures forall j | 0 <= j < n && t[j].used :: Age(t[j], localId) <= if i < |t| then Age(t[i], localId) else 0
  {
    if n == 0 then |t|
    else
      var i := Oldest(t, localId, n - 1);
      if t[n - 1].used && Age(t[n - 1], localId) > (if i < |t| then Age(t[i], localId) else 0) then n - 1 else i
  }

  /** A slot started afresh for the fragment's packet. */
  function Opened(s: Slot, h: Header, localId: nat): Slot {
    s.(used := true, id := h.id, localId := localId % 0x1_0000, src := h.src, part := 0)
  }

  /** The slot for the fragment (|table| when there is none), and the table and counter after finding it. */
  datatype Claimed = Claimed(table: seq<Slot>, localId: nat, slot: nat)

  function Claim(t: seq<Slot>, localId: nat, h: Header): (c: Claimed)
    ensures |c.table| == |t| && c.slot <= |t|
  {
    var k, f, o := FindKey(t, h, 0), FindFree(t, 0), Oldest(t, localId, |t|);
    if k < |t| then Claimed(t, localId, k)
    else if f < |t| then Claimed(t[f := Opened(t[f], h, localId)], localId + 1, f)
    else if o < |t| && Age(t[o], localId) > LC_FRAG_COUNT then Claimed(t[o := Opened(t[o], h, localId)], localId + 1, o)
    else Claimed(t, localId, |t|)
  }

  function Bit(p: nat): bv8
    requires p < 8
  {
    (1 as bv8) << p
  }

  function SetBit(mask: bv8, p: nat): bv8
    requires p < 8
  {
    mask | Bit(p)
  }

  /** ~(~0 << total) */
  function FullMask(total: nat): bv8
    requires total <= 8
  {
    if total == 8 then 255 else Bit(total) - 1
  }

  function Overwrite(buf: seq<byte>, off: nat, data: seq<byte>): (r: seq<byte>)
    requires off + |data| <= |buf|
    ensures |r| == |buf|
    ensures forall i | 0 <= i < |r| :: r[i] == if off <= i < off + |data| then data[i - off] else buf[i]
  {
    buf[..off] + data + buf[off + |data|..]
  }

  function Store(s: Slot, h: Header, payload: seq<byte>): (r: Slot)
    requires SlotOk(s) && Fits(h, payload)
    ensures SlotOk(r)
  {
    s.(part := SetBit(s.part, h.part),
       buffer := Overwrite(s.buffer, Start(h.pmtu, h.part), payload[..h.len]),
       totalLen := if h.part == h.total - 1 then Start(h.pmtu, h.total - 1) + h.len else s.totalLen)
  }

  /** The table and counter after a fragment, and the packet it completed, if any. */
  datatype Outcome = Outcome(table: seq<Slot>, localId: nat, packet: Option<seq<byte>>)

  function Process(t: seq<Slot>, localId: nat, h: Header, payload: seq<byte>): (r: Outcome)
    requires TableOk(t) && Fits(h, payload)
    ensures TableOk(r.table)
  {
    var c := Claim(t, localId, h);
    if c.slot == |t| then Outcome(c.table, c.localId, None)
    else
      var s := Store(c.table[c.slot], h, payload);
      if FullMask(h.total) == s.part
      then Outcome(c.table[c.slot := s.(used := false)], c.localId, Some(s.buffer[..s.totalLen]))
      else Outcome(c.table[c.slot := s], c.localId, None)
  }

  // ---------------------------------------------------------------------
  // The code

  class Receiver {
    var frags: array<Slot>
    var localId: nat

    ghost predicate Valid()
      reads this, frags
    {
      TableOk(frags[..])
    }

    /** The part of lan_client_init that clears the table. */
    constructor ()
      ensures Valid() && localId == 0 && fresh(frags)
      ensures forall i | 0 <= i < frags.Length :: !frags[i].used
    {
      var empty := Slot(0, [0, 0, 0, 0], 0, 0, false, 0, seq(ETHER_MTU, _ => 0));
      frags := new Slot[LC_FRAG_COUNT](_ => empty);
      localId := 0;
    }

    /** lan_client_process_frag; the result is the packet handed to lan_client_process. */
    method ProcessFrag(packet: seq<byte>) returns (out: Option<seq<byte>>)
      requires Valid() && HEADER_LEN <= |packet|
      requires Fits(DecodeHeader(packet), packet[HEADER_LEN..])
      modifies this`localId, frags
      ensures Valid()
      ensures var r := Process(old(frags[..]), old(localId), DecodeHeader(packet), packet[HEADER_LEN..]);
              frags[..] == r.table && localId == r.localId && out == r.packet
    {
      hide Claim, Bit, FullMask, Read16;
      var h := DecodeHeader(packet);
      var i := FindSlot(h);
      if i == frags.Length {
        return None;
      }
      out := StoreAt(i, h, packet[HEADER_LEN..]);
    }

    /** The fragment goes into slot i. */
    method StoreAt(i: nat, h: Header, payload: seq<byte>) returns (out: Option<seq<byte>>)
      requires Valid() && i < frags.Length && Fits(h, payload)
      modifies frags
      ensures Valid()
      ensures var s := Store(old(frags[i]), h, payload);
        if FullMask(h.total) == s.part
        then frags[..] == old(frags[..])[i := s.(used := false)] && out == Some(s.buffer[..s.totalLen])
        else frags[..] == old(frags[..])[i := s] && out == None
    {
      hide Bit, FullMask, Store;
      var s := Fill(frags[i], h, payload);
      if FullMask(h.total) == s.part {
        frags[i] := s.(used := false);
        return Some(s.buffer[..s.totalLen]);
      }
      frags[i] := s;
      return None;
    }

    /** Mask, bytes and, for the last part, the total length. */
    static method Fill(slot: Slot, h: Header, payload: seq<byte>) returns (s: Slot)
      requires SlotOk(slot) && Fits(h, payload)
      ensures s == Store(slot, h, payload)
    {
      hide SetBit, Overwrite, Start;
      s := slot.(part := SetBit(slot.part, h.part));
      s := s.(buffer := Overwrite(s.buffer, Start(h.pmtu, h.part), payload[..h.len]));
      if h.part == h.total - 1 {
        s := s.(totalLen := Start(h.pmtu, h.total - 1) + h.len);
      }
    }

    /** The three scans: the packet's slot, a free slot, or one to evict. */
    method FindSlot(h: Header) returns (i: nat)
      requires Valid()
      modifies this`localId, frags
      ensures Valid()
      ensures Claimed(frags[..], localId, i) == Claim(old(frags[..]), old(localId), h)
    {
      ghost var t := frags[..];
      i := 0;
      while i < frags.Length
        invariant i <= frags.Length && frags[..] == t && FindKey(t, h, 0) == FindKey(t, h, i)
      {
        if frags[i].used && frags[i].id == h.id && frags[i].src == h.src {
          return;
        }
        i := i + 1;
      }
      i := 0;
      while i < frags.Length
        invariant i <= frags.Length && frags[..] == t && FindFree(t, 0) == FindFree(t, i)
      {
        if !frags[i].used {
          Open(i, h);
          return;
        }
        i := i + 1;
      }
      var maxDif, toDelete := FindOldest();
      i := frags.Length;
      if maxDif > LC_FRAG_COUNT {
        i := toDelete;
        Open(i, h);
      }
    }

    method Open(i: nat, h: Header)
      requires Valid() && i < frags.Length
      modifies this`localId, frags
      ensures Valid() && localId == old(localId) + 1
      ensures frags[..] == old(frags[..])[i := Opened(old(frags[i]), h, old(localId))]
    {
      frags[i] := frags[i].(used := true, id := h.id, localId := localId % 0x1_0000, src := h.src, part := 0);
      localId := localId + 1;
    }

    method FindOldest() returns (maxDif: nat, toDelete: nat)
      requires Valid()
      ensures toDelete == Oldest(frags[..], localId, frags.Length)
      ensures maxDif == if toDelete < frags.Length then Age(frags[toDelete], localId) else 0
    {
      maxDif, toDelete := 0, frags.Length;
      for i := 0 to frags.Length
        invariant toDelete == Oldest(frags[..], localId, i)
        invariant maxDif == if toDelete < frags.Length then Age(frags[toDelete], localId) else 0
      {
        if frags[i].used {
          var dif := if frags[i].localId < localId then localId - frags[i].localId else frags[i].localId - localId;
          if dif > maxDif {
            maxDif, toDelete := dif, i;
          }
        }
      }
    }
  }
}
