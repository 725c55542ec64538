/**
 What the table of partly received packets is for: whatever the order and the
 interleaving in which fragments arrive, every packet comes out once, whole.
 */
module RelayRuns {
  import opened Common
  import opened Relay
  import opened Reassembly

  type Key = (seq<byte>, nat)

  function KeyOf(s: Slot): Key {
    (s.src, s.id)
  }

  function MsgKey(m: Msg): Key
    requires Fragmentable(m)
  {
    (m.packet[SRC_OFFSET..SRC_OFFSET + 4], m.id)
  }

  /** No packet is being collected in two slots. */
  ghost predicate DistinctKeys(t: seq<Slot>) {
    forall i, j | 0 <= i < j < |t| && t[i].used && t[j].used :: KeyOf(t[i]) != KeyOf(t[j])
  }

  /** Whatever the fragment, eviction included. */
  lemma {:induction false} ProcessKeepsDistinct(t: seq<Slot>, localId: nat, h: Header, payload: seq<byte>)
    requires TableOk(t) && Reassembly.Fits(h, payload) && DistinctKeys(t)
    ensures DistinctKeys(Process(t, localId, h, payload).table)
  {
    hide SetBit, FullMask, Overwrite;
    var c := Claim(t, localId, h);
    assert DistinctKeys(c.table) by {
      forall i, j | 0 <= i < j < |t| && c.table[i].used && c.table[j].used
        ensures KeyOf(c.table[i]) != KeyOf(c.table[j])
      {
        assert forall k | 0 <= k < |t| && FindKey(t, h, 0) == |t| :: !Holds(t[k], h);
      }
    }
  }

  // ---------------------------------------------------------------------
  // What is received, as packets and parts

  /** A packet of which the parts in got have arrived. */
  datatype Partial = Partial(msg: Msg, got: set<nat>)

  function Total(m: Msg): nat
    requires Fragmentable(m)
  {
    Parts(|m.packet|, m.pmtu)
  }

  function AllParts(m: Msg): set<nat>
    requires Fragmentable(m)
  {
    UpTo(Total(m))
  }

  datatype Arrived = Arrived(pending: map<Key, Partial>, packet: Option<seq<byte>>)

  /** Part p of m arrives: the packet is complete, or one part less is missing. */
  function Arrive(pending: map<Key, Partial>, m: Msg, p: nat): Arrived
    requires Fragmentable(m)
  {
    var k := MsgKey(m);
    var got := (if k in pending then pending[k].got else {}) + {p};
    if got == AllParts(m) then Arrived(pending - {k}, Some(m.packet))
    else Arrived(pending[k := Partial(m, got)], None)
  }

  /** The part byte j of the packet travels in. */
  function PartOf(m: Msg, j: nat): nat
    requires 0 < m.pmtu
  {
    j / m.pmtu
  }

  lemma {:induction false} PieceBounds(m: Msg, p: nat)
    requires Fragmentable(m) && p < Total(m)
    ensures Start(m.pmtu, p) < |m.packet|
    ensures Start(m.pmtu, p) + |Piece(m, p)| <= |m.packet|
    ensures p == Total(m) - 1 ==> Start(m.pmtu, p) + |Piece(m, p)| == |m.packet|
  {
    hide Start, Parts;
    PartsCover(|m.packet|, m.pmtu, p);
    PartsCover(|m.packet|, m.pmtu, p + 1);
    StartStep(m.pmtu, p);
  }

  lemma {:induction false} FragmentFits(m: Msg, p: nat)
    requires Fragmentable(m) && p < Total(m)
    ensures Start(m.pmtu, p) <= |m.packet|
    ensures HeaderOf(m, p).Valid() && Reassembly.Fits(HeaderOf(m, p), Piece(m, p))
  {
    hide Start, Parts;
    PartsCount(m);
    PieceBounds(m, p);
    PartsCover(|m.packet|, m.pmtu, p);
  }

  lemma {:induction false} PartOfInterval(m: Msg, p: nat, j: nat)
    requires Fragmentable(m) && p < Total(m) && j < |m.packet|
    ensures PartOf(m, j) == p <==> Start(m.pmtu, p) <= j < Start(m.pmtu, p) + |Piece(m, p)|
    ensures PartOf(m, j) < Total(m)
  {
    hide Start;
    PartsCover(|m.packet|, m.pmtu, p);
    var q := PartOf(m, j);
    WholeParts(j, m.pmtu);
    PartsCover(|m.packet|, m.pmtu, q);
    StartStep(m.pmtu, p);
    if q < p { StartMonotone(m.pmtu, q + 1, p); }
    if p < q { StartMonotone(m.pmtu, p + 1, q); }
  }

  function MaskOf(got: set<nat>): bv8 {
    (if 0 in got then 1 else 0) | (if 1 in got then 2 else 0) | (if 2 in got then 4 else 0)
  }

  lemma {:induction false} MaskAdd(got: set<nat>, p: nat)
    requires p < 3
    ensures SetBit(MaskOf(got), p) == MaskOf(got + {p})
  {
    assert Bit(0) == 1 && Bit(1) == 2 && Bit(2) == 4;
  }

  lemma {:induction false} MaskFull(m: Msg, got: set<nat>)
    requires Fragmentable(m) && got <= AllParts(m)
    ensures Total(m) <= 8
    ensures FullMask(Total(m)) == MaskOf(got) <==> got == AllParts(m)
  {
    PartsCount(m);
    assert Bit(2) == 4 && Bit(3) == 8;
    var n := Total(m);
    assert got == AllParts(m) <==> 0 in got && 1 in got && (n == 3 ==> 2 in got);
  }

  /** The slot holds exactly what has been received of m. */
  ghost predicate Collects(s: Slot, m: Msg, got: set<nat>)
    requires Fragmentable(m)
  {
    && SlotOk(s) && s.used && KeyOf(s) == MsgKey(m) && s.part == MaskOf(got)
    && (forall j | 0 <= j < |m.packet| && PartOf(m, j) in got :: s.buffer[j] == m.packet[j])
    && (Total(m) - 1 in got ==> s.totalLen == |m.packet|)
  }

  lemma {:induction false} OpenedCollects(s: Slot, m: Msg, p: nat, localId: nat)
    requires Fragmentable(m) && SlotOk(s) && p < Total(m) && Start(m.pmtu, p) <= |m.packet|
    ensures Collects(Opened(s, HeaderOf(m, p), localId), m, {})
  {
  }

  lemma {:induction false} StoreCollects(s: Slot, m: Msg, got: set<nat>, p: nat)
    requires Fragmentable(m) && p < Total(m) && Collects(s, m, got)
    ensures Start(m.pmtu, p) <= |m.packet| && Reassembly.Fits(HeaderOf(m, p), Piece(m, p))
    ensures Collects(Store(s, HeaderOf(m, p), Piece(m, p)), m, got + {p})
  {
    hide SetBit, MaskOf, Start, Parts;
    FragmentFits(m, p);
    PieceBounds(m, p);
    PartsCount(m);
    MaskAdd(got, p);
    var h := HeaderOf(m, p);
    var r := Store(s, h, Piece(m, p));
    forall j | 0 <= j < |m.packet| && PartOf(m, j) in got + {p} ensures r.buffer[j] == m.packet[j] {
      PartOfInterval(m, p, j);
    }
  }

  /** All parts received: the buffer is the packet. */
  lemma {:induction false} CollectedAll(s: Slot, m: Msg)
    requires Fragmentable(m) && Collects(s, m, AllParts(m))
    ensures s.buffer[..s.totalLen] == m.packet
  {
    PartsCount(m);
    forall j | 0 <= j < |m.packet| ensures s.buffer[j] == m.packet[j] {
      PartOfInterval(m, 0, j);
    }
  }

  // ---------------------------------------------------------------------
  // The table represents the pending packets

  /** A packet of which something, but not everything, has arrived. */
  ghost predicate Underway(k: Key, p: Partial) {
    Fragmentable(p.msg) && MsgKey(p.msg) == k && p.got != {} && p.got < AllParts(p.msg)
  }

  ghost predicate InSlot(t: seq<Slot>, i: nat, k: Key, p: Partial) {
    i < |t| && Fragmentable(p.msg) && t[i].used && KeyOf(t[i]) == k && Collects(t[i], p.msg, p.got)
  }

  ghost predicate Represents(t: seq<Slot>, pending: map<Key, Partial>) {
    && TableOk(t) && DistinctKeys(t)
    && (forall i | 0 <= i < |t| && t[i].used :: KeyOf(t[i]) in pending)
    && (forall k | k in pending :: Underway(k, pending[k]) && exists i :: InSlot(t, i, k, pending[k]))
  }

  function Keys(t: seq<Slot>): set<Key> {
    if t == [] then {} else Keys(t[..|t| - 1]) + {KeyOf(t[|t| - 1])}
  }

  /** With all slots used, as many packets are pending as there are slots. */
  lemma {:induction false} AllUsedCount(t: seq<Slot>, keys: set<Key>)
    requires DistinctKeys(t) && forall i | 0 <= i < |t| :: t[i].used && KeyOf(t[i]) in keys
    ensures Keys(t) <= keys && |Keys(t)| == |t|
    ensures forall k | k in Keys(t) :: exists i | 0 <= i < |t| :: KeyOf(t[i]) == k
  {
    if t != [] {
      var n := |t| - 1;
      AllUsedCount(t[..n], keys);
      forall k | k in Keys(t[..n]) ensures k != KeyOf(t[n]) && exists i | 0 <= i < |t| :: KeyOf(t[i]) == k {
        var i :| 0 <= i < |t[..n]| && KeyOf(t[..n][i]) == k;
        assert t[..n][i] == t[i];
      }
      hide DistinctKeys;
      assert KeyOf(t[n]) !in Keys(t[..n]);
    }
  }

  lemma {:induction false} FreeSlotExists(t: seq<Slot>, pending: map<Key, Partial>)
    requires Represents(t, pending) && |pending| < LC_FRAG_COUNT
    ensures FindFree(t, 0) < |t|
  {
    if FindFree(t, 0) == |t| {
      AllUsedCount(t, pending.Keys);
      SubsetSize(Keys(t), pending.Keys);
    }
  }

  lemma {:induction false} HoldsIsKey(s: Slot, m: Msg, p: nat)
    requires Fragmentable(m) && Start(m.pmtu, p) <= |m.packet|
    ensures Holds(s, HeaderOf(m, p)) <==> s.used && KeyOf(s) == MsgKey(m)
  {
  }

  lemma {:induction false} OnlySlot(t: seq<Slot>, i: nat)
    requires DistinctKeys(t) && i < |t| && t[i].used
    ensures forall j | 0 <= j < |t| && j != i && t[j].used :: KeyOf(t[j]) != KeyOf(t[i])
  {
  }

  /** The packet has a slot: that one is found. */
  lemma {:induction false} FindKeyPending(t: seq<Slot>, pending: map<Key, Partial>, m: Msg, p: nat)
    requires Represents(t, pending) && Fragmentable(m) && Start(m.pmtu, p) <= |m.packet|
    requires MsgKey(m) in pending && pending[MsgKey(m)].msg == m
    ensures var f := FindKey(t, HeaderOf(m, p), 0);
      && f < |t| && Collects(t[f], m, pending[MsgKey(m)].got)
      && (forall j | 0 <= j < |t| && j != f && t[j].used :: KeyOf(t[j]) != MsgKey(m))
  {
    hide Collects, Start, Underway, Holds, SlotOk;
    var k := MsgKey(m);
    var i: nat :| InSlot(t, i, k, pending[k]);
    HoldsIsKey(t[i], m, p);
    var f := FindKey(t, HeaderOf(m, p), 0);
    assert f < |t|;
    HoldsIsKey(t[f], m, p);
    OnlySlot(t, i);
    assert f == i;
  }

  /** The packet has no slot: none is found for it. */
  lemma {:induction false} FindKeyNew(t: seq<Slot>, pending: map<Key, Partial>, m: Msg, p: nat)
    requires Represents(t, pending) && Fragmentable(m) && Start(m.pmtu, p) <= |m.packet|
    requires MsgKey(m) !in pending
    ensures FindKey(t, HeaderOf(m, p), 0) == |t|
    ensures forall j | 0 <= j < |t| && t[j].used :: KeyOf(t[j]) != MsgKey(m)
  {
    hide Start;
    var f := FindKey(t, HeaderOf(m, p), 0);
    if f < |t| { HoldsIsKey(t[f], m, p); }
  }

  /** The slot found for the packet holds what has been received of it so far. */
  lemma {:induction false} ClaimCollects(t: seq<Slot>, localId: nat, pending: map<Key, Partial>, m: Msg, p: nat)
    requires Represents(t, pending) && Fragmentable(m) && p < Total(m) && Start(m.pmtu, p) <= |m.packet|
    requires if MsgKey(m) in pending then pending[MsgKey(m)].msg == m else |pending| < LC_FRAG_COUNT
    ensures var c := Claim(t, localId, HeaderOf(m, p)); var k := MsgKey(m);
      && c.slot < |t| && Collects(c.table[c.slot], m, if k in pending then pending[k].got else {})
      && (forall j | 0 <= j < |t| && j != c.slot :: c.table[j] == t[j] && (t[j].used ==> KeyOf(t[j]) != k))
      && (t[c.slot].used ==> KeyOf(t[c.slot]) == k)
      && (k in pending ==> pending[k].got <= AllParts(m))
  {
    hide Collects, Start;
    if MsgKey(m) in pending {
      FindKeyPending(t, pending, m, p);
      CollectsKey(t[FindKey(t, HeaderOf(m, p), 0)], m, pending[MsgKey(m)].got);
    } else {
      FindKeyNew(t, pending, m, p);
      FreeSlotExists(t, pending);
      OpenedCollects(t[FindFree(t, 0)], m, p, localId);
    }
  }

  /** Putting slot i to a state that collects got of m, or giving it up, with all else as before. */
  lemma {:induction false} SlotUpdated(t: seq<Slot>, pending: map<Key, Partial>, i: nat, s: Slot, m: Msg, got: set<nat>)
    requires Represents(t, pending) && Fragmentable(m) && i < |t| && SlotOk(s)
    requires forall j | 0 <= j < |t| && j != i && t[j].used :: KeyOf(t[j]) != MsgKey(m)
    requires t[i].used ==> KeyOf(t[i]) == MsgKey(m)
    ensures Collects(s, m, got) && Underway(MsgKey(m), Partial(m, got)) ==>
      Represents(t[i := s], pending[MsgKey(m) := Partial(m, got)])
    ensures !s.used ==> Represents(t[i := s], pending - {MsgKey(m)})
  {
    hide Collects;
    var k, t' := MsgKey(m), t[i := s];
    forall q | q in pending && q != k ensures exists j :: InSlot(t', j, q, pending[q]) {
      var j :| InSlot(t, j, q, pending[q]);
      assert InSlot(t', j, q, pending[q]);
    }
    if Collects(s, m, got) && Underway(k, Partial(m, got)) {
      CollectsKey(s, m, got);
      assert InSlot(t', i, k, Partial(m, got));
    }
  }

  lemma {:induction false} CollectsKey(s: Slot, m: Msg, got: set<nat>)
    requires Fragmentable(m) && Collects(s, m, got)
    ensures s.used && KeyOf(s) == MsgKey(m) && SlotOk(s)
  {
  }

  /** One fragment does to the table what its arrival means for the pending packets. */
  lemma {:induction false} ProcessArrives(t: seq<Slot>, localId: nat, pending: map<Key, Partial>, m: Msg, p: nat)
    requires Represents(t, pending) && Fragmentable(m) && p < Total(m)
    requires if MsgKey(m) in pending then pending[MsgKey(m)].msg == m else |pending| < LC_FRAG_COUNT
    ensures Start(m.pmtu, p) <= |m.packet| && Reassembly.Fits(HeaderOf(m, p), Piece(m, p))
    ensures var r := Process(t, localId, HeaderOf(m, p), Piece(m, p)); var a := Arrive(pending, m, p);
      r.packet == a.packet && Represents(r.table, a.pending)
  {
    hide Collects, Start, Represents, Claim, FullMask, MaskOf, Store;
    FragmentFits(m, p);
    ClaimCollects(t, localId, pending, m, p);
    var h, k := HeaderOf(m, p), MsgKey(m);
    var c := Claim(t, localId, h);
    var got := if k in pending then pending[k].got else {};
    CollectsKey(c.table[c.slot], m, got);
    StoreCollects(c.table[c.slot], m, got, p);
    StoredResult(t, pending, c, m, got, p, Store(c.table[c.slot], h, Piece(m, p)));
  }

  lemma {:induction false} StoredResult(t: seq<Slot>, pending: map<Key, Partial>, c: Claimed, m: Msg, got: set<nat>, p: nat, s: Slot)
    requires Represents(t, pending) && Fragmentable(m) && p < Total(m)
    requires |c.table| == |t| && c.slot < |t|
    requires forall j | 0 <= j < |t| && j != c.slot :: c.table[j] == t[j] && (t[j].used ==> KeyOf(t[j]) != MsgKey(m))
    requires t[c.slot].used ==> KeyOf(t[c.slot]) == MsgKey(m)
    requires Collects(s, m, got + {p}) && got <= AllParts(m)
    ensures Total(m) <= 8
    ensures FullMask(Total(m)) == s.part <==> got + {p} == AllParts(m)
    ensures got + {p} == AllParts(m) ==>
      s.buffer[..s.totalLen] == m.packet && Represents(c.table[c.slot := s.(used := false)], pending - {MsgKey(m)})
    ensures got + {p} != AllParts(m) ==> Represents(c.table[c.slot := s], pending[MsgKey(m) := Partial(m, got + {p})])
  {
    MaskFull(m, got + {p});
    CollectsKey(s, m, got + {p});
    assert c.table[c.slot := s] == t[c.slot := s];
    assert c.table[c.slot := s.(used := false)] == t[c.slot := s.(used := false)];
    SlotUpdated(t, pending, c.slot, s, m, got + {p});
    SlotUpdated(t, pending, c.slot, s.(used := false), m, got + {p});
    if got + {p} == AllParts(m) { CollectedAll(s, m); }
  }

  // ---------------------------------------------------------------------
  // Runs

  /** Part `part` of the packet of a transmission reaches the receiver. Transmissions are numbered
      for the sake of the argument; their fragments carry no such number. */
  datatype Arrival = Arrival(tx: nat, msg: Msg, part: nat)

  ghost predicate Legit(a: Arrival) {
    Fragmentable(a.msg) && a.part < Total(a.msg)
  }

  ghost predicate AllLegit(arrivals: seq<Arrival>) {
    forall a | a in arrivals :: Legit(a)
  }

  /** The packets incomplete after these arrivals. */
  ghost function PendingAfter(arrivals: seq<Arrival>): map<Key, Partial>
    requires AllLegit(arrivals)
  {
    if arrivals == [] then map[]
    else
      var last := arrivals[|arrivals| - 1];
      assert Legit(last);
      Arrive(PendingAfter(arrivals[..|arrivals| - 1]), last.msg, last.part).pending
  }

  lemma {:induction false} PendingStep(before: seq<Arrival>, a: Arrival)
    requires AllLegit(before) && Legit(a)
    ensures AllLegit(before + [a])
    ensures PendingAfter(before + [a]) == Arrive(PendingAfter(before), a.msg, a.part).pending
  {
    assert (before + [a])[..|before|] == before;
  }

  /** What the next arrival completes. */
  ghost function Completed(before: seq<Arrival>, a: Arrival): Option<seq<byte>>
    requires Legit(a)
  {
    if AllLegit(before) then Arrive(PendingAfter(before), a.msg, a.part).packet else None
  }

  /** A fragment belongs to the incomplete packet with its key, or there is none and a slot is
      free. */
  ghost predicate Welcome(pending: map<Key, Partial>, a: Arrival) {
    Legit(a) && if MsgKey(a.msg) in pending then pending[MsgKey(a.msg)].msg == a.msg else |pending| < LC_FRAG_COUNT
  }

  /** So it is for every arrival: packets that are incomplete at the same time have different
      (source, id) and are not more than there are slots. Fragments may be repeated, and a
      (source, id) may be used again. */
  ghost predicate Steady(arrivals: seq<Arrival>) {
    AllLegit(arrivals) && forall n | 0 <= n < |arrivals| :: SteadyAt(arrivals, n)
  }

  ghost predicate SteadyAt(arrivals: seq<Arrival>, n: nat)
    requires AllLegit(arrivals) && n < |arrivals|
  {
    AllLegit(arrivals[..n]) && Welcome(PendingAfter(arrivals[..n]), arrivals[n])
  }

  /** Table and counter, and what each arrival so far handed on. */
  datatype Feed = Feed(table: seq<Slot>, localId: nat, out: seq<Option<seq<byte>>>)

  /** The receiver fed with the bytes of the fragments, one after the other. */
  ghost predicate IsFeed(run: seq<Feed>, arrivals: seq<Arrival>) {
    && |run| == |arrivals| + 1 && TableOk(run[0].table) && run[0].out == []
    && (forall i | 0 <= i < |run[0].table| :: !run[0].table[i].used)
    && forall n | 0 <= n < |arrivals| :: FeedStep(run[n], arrivals[n], run[n + 1])
  }

  ghost predicate FeedStep(f: Feed, a: Arrival, g: Feed) {
    Legit(a) && TableOk(f.table) ==>
      && Start(a.msg.pmtu, a.part) <= |a.msg.packet|
      && var datagram := Fragment(a.msg, a.part);
         var h, payload := DecodeHeader(datagram), datagram[HEADER_LEN..];
         && Reassembly.Fits(h, payload)
         && var r := Process(f.table, f.localId, h, payload);
            g == Feed(r.table, r.localId, f.out + [r.packet])
  }

  lemma {:induction false} EmptyRepresents(t: seq<Slot>)
    requires TableOk(t) && forall i | 0 <= i < |t| :: !t[i].used
    ensures Represents(t, map[])
  {
  }

  lemma {:induction false} FeedArrives(f: Feed, a: Arrival, g: Feed, pending: map<Key, Partial>)
    requires FeedStep(f, a, g) && Represents(f.table, pending) && Welcome(pending, a)
    ensures var r := Arrive(pending, a.msg, a.part);
      g.out == f.out + [r.packet] && Represents(g.table, r.pending)
  {
    FragmentFits(a.msg, a.part);
    HeaderRoundTrip(HeaderOf(a.msg, a.part), Piece(a.msg, a.part));
    ProcessArrives(f.table, f.localId, pending, a.msg, a.part);
  }

  /** After n arrivals the table represents exactly the packets that are incomplete, and the last
      of them handed on what it completed. */
  lemma {:induction false} FeedRepresents(run: seq<Feed>, arrivals: seq<Arrival>, n: nat)
    requires IsFeed(run, arrivals) && Steady(arrivals) && n <= |arrivals|
    ensures AllLegit(arrivals[..n]) && |run[n].out| == n
    ensures Represents(run[n].table, PendingAfter(arrivals[..n]))
    ensures n > 0 ==> Legit(arrivals[n - 1]) && run[n].out[n - 1] == Completed(arrivals[..n - 1], arrivals[n - 1])
  {
    if n == 0 {
      EmptyRepresents(run[0].table);
    } else {
      FeedRepresents(run, arrivals, n - 1);
      hide *;
      SteadyNext(run, arrivals, n - 1);
      FeedNext(run[n - 1], arrivals[..n - 1], arrivals[n - 1], run[n]);
    }
  }

  lemma {:induction false} SteadyNext(run: seq<Feed>, arrivals: seq<Arrival>, n: nat)
    requires IsFeed(run, arrivals) && Steady(arrivals) && n < |arrivals|
    ensures AllLegit(arrivals[..n]) && Welcome(PendingAfter(arrivals[..n]), arrivals[n])
    ensures FeedStep(run[n], arrivals[n], run[n + 1]) && arrivals[..n + 1] == arrivals[..n] + [arrivals[n]]
  {
    hide AllLegit, Welcome, PendingAfter, FeedStep;
    assert SteadyAt(arrivals, n);
  }

  lemma {:induction false} FeedNext(f: Feed, before: seq<Arrival>, a: Arrival, g: Feed)
    requires AllLegit(before) && Welcome(PendingAfter(before), a) && FeedStep(f, a, g)
    requires Represents(f.table, PendingAfter(before))
    ensures AllLegit(before + [a]) && Represents(g.table, PendingAfter(before + [a]))
    ensures Legit(a) && g.out == f.out + [Completed(before, a)]
  {
    hide AllLegit, PendingAfter, FeedStep, Represents, Arrive;
    PendingStep(before, a);
    FeedArrives(f, a, g, PendingAfter(before));
  }

  // ---------------------------------------------------------------------
  // Transmissions

  /** The parts of a transmission among these arrivals. */
  ghost function Seen(arrivals: seq<Arrival>, a: Arrival): (r: set<nat>)
    requires Legit(a)
    ensures forall p :: p in r <==> p in AllParts(a.msg) && a.(part := p) in arrivals
  {
    set p | p in AllParts(a.msg) && a.(part := p) in arrivals
  }

  /** Some but not all of its parts have arrived. */
  ghost predicate Open(arrivals: seq<Arrival>, a: Arrival)
    requires Legit(a)
  {
    Seen(arrivals, a) != {} && Seen(arrivals, a) != AllParts(a.msg)
  }

  /** The next fragment is of a transmission that is not complete, possibly once more, and no other
      transmission with its (source, id) is under way. */
  ghost predicate Orderly(before: seq<Arrival>, a: Arrival)
    requires AllLegit(before)
  {
    && Legit(a) && Seen(before, a) != AllParts(a.msg)
    && (forall b | b in before :: b.tx == a.tx ==> b.msg == a.msg)
    && forall b | b in before && Legit(b) && b.tx != a.tx && MsgKey(b.msg) == MsgKey(a.msg) :: !Open(before, b)
  }

  /** Any interleaving, in any order, of the fragments of transmissions of which at most as many as
      there are slots are under way at a time, with different (source, id). */
  ghost predicate Traffic(arrivals: seq<Arrival>) {
    && AllLegit(arrivals)
    && forall n | 0 <= n < |arrivals| :: TrafficAt(arrivals, n)
  }

  ghost predicate TrafficAt(arrivals: seq<Arrival>, n: nat)
    requires n < |arrivals|
  {
    && AllLegit(arrivals[..n]) && Orderly(arrivals[..n], arrivals[n])
    && AllLegit(arrivals[..n + 1]) && |UnderWay(arrivals[..n + 1])| <= LC_FRAG_COUNT
  }

  /** The keys of the transmissions under way. */
  ghost function UnderWay(arrivals: seq<Arrival>): set<Key>
    requires AllLegit(arrivals)
  {
    set a | a in arrivals && Legit(a) && Open(arrivals, a) :: MsgKey(a.msg)
  }

  /** The incomplete packets are those of the transmissions under way, with the parts seen. */
  ghost predicate Mirrors(pending: map<Key, Partial>, arrivals: seq<Arrival>)
    requires AllLegit(arrivals)
  {
    && (forall a | a in arrivals && Legit(a) && Open(arrivals, a) ::
          MsgKey(a.msg) in pending && pending[MsgKey(a.msg)] == Partial(a.msg, Seen(arrivals, a)))
    && forall k | k in pending :: exists a :: a in arrivals && Legit(a) && MsgKey(a.msg) == k && Open(arrivals, a)
  }

  lemma {:induction false} SeenStep(before: seq<Arrival>, a: Arrival, b: Arrival)
    requires Legit(a) && Legit(b)
    ensures Seen(before + [a], b) == Seen(before, b) + (if a.tx == b.tx && a.msg == b.msg then {a.part} else {})
  {
    assert a.tx == b.tx && a.msg == b.msg ==> b.(part := a.part) == a;
  }

  lemma {:induction false} SeenAlike(arrivals: seq<Arrival>, a: Arrival, b: Arrival)
    requires Legit(a) && Legit(b) && a.tx == b.tx && a.msg == b.msg
    ensures Seen(arrivals, a) == Seen(arrivals, b)
  {
    assert forall p :: a.(part := p) == b.(part := p);
  }

  /** Before an orderly arrival, its packet is incomplete exactly if a part of it has arrived. */
  lemma {:induction false} BeforeArrival(before: seq<Arrival>, a: Arrival, pending: map<Key, Partial>)
    requires AllLegit(before) && Orderly(before, a) && Mirrors(pending, before)
    ensures var s := Seen(before, a);
            if s == {} then MsgKey(a.msg) !in pending
            else MsgKey(a.msg) in pending && pending[MsgKey(a.msg)] == Partial(a.msg, s)
  {
    var s, k := Seen(before, a), MsgKey(a.msg);
    if s != {} {
      var p :| p in s;
      var b := a.(part := p);
      assert b in before && Legit(b);
      SeenAlike(before, a, b);
      assert Open(before, b);
    } else if k in pending {
      KeyIsOwn(before, a, pending);
    }
  }

  lemma {:induction false} KeyIsOwn(before: seq<Arrival>, a: Arrival, pending: map<Key, Partial>)
    requires AllLegit(before) && Orderly(before, a) && Mirrors(pending, before) && MsgKey(a.msg) in pending
    ensures Seen(before, a) != {}
  {
    var b :| b in before && Legit(b) && MsgKey(b.msg) == MsgKey(a.msg) && Open(before, b);
    SeenAlike(before, a, b);
  }

  /** What is left of a transmission under way other than that of the arrival. */
  lemma {:induction false} OtherOpen(before: seq<Arrival>, a: Arrival, c: Arrival)
    requires AllLegit(before) && Orderly(before, a) && c in before && Legit(c) && c.tx != a.tx
    ensures Seen(before + [a], c) == Seen(before, c)
    ensures Open(before, c) ==> MsgKey(c.msg) != MsgKey(a.msg)
  {
    SeenStep(before, a, c);
  }

  lemma {:induction false} MirrorsOpen(before: seq<Arrival>, a: Arrival, pending: map<Key, Partial>, c: Arrival)
    requires AllLegit(before) && Orderly(before, a) && Mirrors(pending, before)
    requires c in before + [a] && Legit(c) && Open(before + [a], c)
    ensures var after := Arrive(pending, a.msg, a.part).pending;
            MsgKey(c.msg) in after && after[MsgKey(c.msg)] == Partial(c.msg, Seen(before + [a], c))
  {
    if c.tx == a.tx {
      SameTx(before, a, c);
      OwnOpen(before, a, pending, c);
    } else {
      OtherOpen(before, a, c);
      assert c in before && Open(before, c);
      assert MsgKey(c.msg) in pending && pending[MsgKey(c.msg)] == Partial(c.msg, Seen(before, c));
      hide Mirrors, Orderly, Open, Seen;
    }
  }

  lemma {:induction false} SameTx(before: seq<Arrival>, a: Arrival, c: Arrival)
    requires AllLegit(before) && Orderly(before, a) && c in before + [a] && c.tx == a.tx
    ensures c.msg == a.msg
  {
  }

  lemma {:induction false} OwnOpen(before: seq<Arrival>, a: Arrival, pending: map<Key, Partial>, c: Arrival)
    requires AllLegit(before) && Orderly(before, a) && Mirrors(pending, before)
    requires Legit(c) && c.tx == a.tx && c.msg == a.msg && Open(before + [a], c)
    ensures var after := Arrive(pending, a.msg, a.part).pending;
            MsgKey(c.msg) in after && after[MsgKey(c.msg)] == Partial(c.msg, Seen(before + [a], c))
  {
    BeforeArrival(before, a, pending);
    SeenStep(before, a, c);
    SeenAlike(before, a, c);
    hide Mirrors, Orderly;
  }

  lemma {:induction false} MirrorsKeys(before: seq<Arrival>, a: Arrival, pending: map<Key, Partial>, k: Key) returns (b: Arrival)
    requires AllLegit(before) && Orderly(before, a) && Mirrors(pending, before)
    requires k in Arrive(pending, a.msg, a.part).pending
    ensures b in before + [a] && Legit(b) && MsgKey(b.msg) == k && Open(before + [a], b)
  {
    if k == MsgKey(a.msg) {
      b := a;
      BeforeArrival(before, a, pending);
      SeenStep(before, a, a);
      hide Mirrors, Orderly;
    } else {
      assert k in pending;
      b := KeyOpen(before, pending, k);
      if b.tx == a.tx { SameTx(before, a, b); } else { OtherOpen(before, a, b); }
      hide Mirrors, Orderly, Arrive;
    }
  }

  lemma {:induction false} KeyOpen(before: seq<Arrival>, pending: map<Key, Partial>, k: Key) returns (b: Arrival)
    requires AllLegit(before) && Mirrors(pending, before) && k in pending
    ensures b in before && Legit(b) && MsgKey(b.msg) == k && Open(before, b)
  {
    b :| b in before && Legit(b) && MsgKey(b.msg) == k && Open(before, b);
  }

  /** An orderly arrival hands on its packet exactly if it brings the last missing part. */
  lemma {:induction false} MirrorsStep(before: seq<Arrival>, a: Arrival, pending: map<Key, Partial>)
    requires AllLegit(before) && Orderly(before, a) && Mirrors(pending, before)
    ensures var r := Arrive(pending, a.msg, a.part);
            && AllLegit(before + [a]) && Mirrors(r.pending, before + [a])
            && r.packet == if Seen(before + [a], a) == AllParts(a.msg) then Some(a.msg.packet) else None
  {
    BeforeArrival(before, a, pending);
    SeenStep(before, a, a);
    var after, arrivals := Arrive(pending, a.msg, a.part).pending, before + [a];
    hide Arrive, Open;
    forall c | c in arrivals && Legit(c) && Open(arrivals, c)
      ensures MsgKey(c.msg) in after && after[MsgKey(c.msg)] == Partial(c.msg, Seen(arrivals, c))
    {
      MirrorsOpen(before, a, pending, c);
    }
    forall k | k in after ensures exists b :: b in arrivals && Legit(b) && MsgKey(b.msg) == k && Open(arrivals, b) {
      var b := MirrorsKeys(before, a, pending, k);
    }
  }

  lemma {:induction false} MirrorsCount(pending: map<Key, Partial>, arrivals: seq<Arrival>)
    requires AllLegit(arrivals) && Mirrors(pending, arrivals)
    ensures pending.Keys == UnderWay(arrivals)
  {
    hide Open;
  }

  /** Opening a packet adds one to the number of incomplete ones. */
  lemma {:induction false} OpeningCounts(pending: map<Key, Partial>, m: Msg, p: nat)
    requires Fragmentable(m) && MsgKey(m) !in pending
    ensures |Arrive(pending, m, p).pending| == |pending| + 1
  {
    PartsCount(m);
    assert AllParts(m) != {p} by { assert 0 in AllParts(m) && 1 in AllParts(m); }
    var after := pending[MsgKey(m) := Partial(m, {} + {p})];
    assert after.Keys == pending.Keys + {MsgKey(m)};
    assert |after.Keys| == |pending.Keys| + 1;
  }

  lemma {:induction false} NothingUnderWay()
    ensures Mirrors(map[], [])
  {
  }

  lemma {:induction false} TrafficMirrors(arrivals: seq<Arrival>, n: nat)
    requires Traffic(arrivals) && n <= |arrivals|
    ensures AllLegit(arrivals[..n]) && Mirrors(PendingAfter(arrivals[..n]), arrivals[..n])
  {
    if n == 0 {
      NothingUnderWay();
      assert arrivals[..n] == [];
    } else {
      TrafficMirrors(arrivals, n - 1);
      hide *;
      var before, a := arrivals[..n - 1], arrivals[n - 1];
      TrafficNext(arrivals, n - 1);
      OrderlyLegit(before, a);
      PendingStep(before, a);
      MirrorsStep(before, a, PendingAfter(before));
    }
  }

  lemma {:induction false} OrderlyLegit(before: seq<Arrival>, a: Arrival)
    requires AllLegit(before) && Orderly(before, a)
    ensures Legit(a)
  {
  }

  /** Such traffic is welcome throughout. */
  lemma {:induction false} TrafficIsSteady(arrivals: seq<Arrival>)
    requires Traffic(arrivals)
    ensures Steady(arrivals)
  {
    forall n | 0 <= n < |arrivals| ensures SteadyAt(arrivals, n) {
      hide SteadyAt, TrafficAt;
      TrafficWelcome(arrivals, n);
    }
  }

  lemma {:induction false} TrafficWelcome(arrivals: seq<Arrival>, n: nat)
    requires Traffic(arrivals) && n < |arrivals|
    ensures SteadyAt(arrivals, n)
  {
    hide *;
    TrafficNext(arrivals, n);
    TrafficMirrors(arrivals, n);
    TrafficMirrors(arrivals, n + 1);
    WelcomeAt(arrivals[..n], arrivals[n], arrivals[..n + 1]);
    SteadyIs(arrivals, n);
  }

  lemma {:induction false} TrafficNext(arrivals: seq<Arrival>, n: nat)
    requires Traffic(arrivals) && n < |arrivals|
    ensures AllLegit(arrivals) && AllLegit(arrivals[..n]) && Orderly(arrivals[..n], arrivals[n])
    ensures AllLegit(arrivals[..n + 1]) && arrivals[..n + 1] == arrivals[..n] + [arrivals[n]]
    ensures |UnderWay(arrivals[..n + 1])| <= LC_FRAG_COUNT
  {
    hide Orderly, UnderWay, AllLegit;
    assert TrafficAt(arrivals, n);
  }

  lemma {:induction false} SteadyIs(arrivals: seq<Arrival>, n: nat)
    requires AllLegit(arrivals) && n < |arrivals| && AllLegit(arrivals[..n])
    requires Welcome(PendingAfter(arrivals[..n]), arrivals[n])
    ensures SteadyAt(arrivals, n)
  {
  }

  lemma {:induction false} WelcomeAt(before: seq<Arrival>, a: Arrival, after: seq<Arrival>)
    requires AllLegit(before) && Orderly(before, a) && AllLegit(after) && after == before + [a]
    requires Mirrors(PendingAfter(before), before) && Mirrors(PendingAfter(after), after)
    requires |UnderWay(after)| <= LC_FRAG_COUNT
    ensures Welcome(PendingAfter(before), a)
  {
    var pending := PendingAfter(before);
    BeforeArrival(before, a, pending);
    PendingStep(before, a);
    MirrorsCount(PendingAfter(after), after);
    if MsgKey(a.msg) !in pending { OpeningCounts(pending, a.msg, a.part); }
  }

  /** The point of the table. For every interleaving and order of the fragments of transmissions,
      at most a table-full of them under way at any time, with different (source, id) at that
      time: an arrival hands on its whole packet, byte for byte, if it is the last missing
      fragment of its transmission, and otherwise nothing. */
  lemma {:induction false} EveryPacketOnceWhole(run: seq<Feed>, arrivals: seq<Arrival>, n: nat)
    requires IsFeed(run, arrivals) && Traffic(arrivals) && n < |arrivals|
    ensures Legit(arrivals[n]) && |run[n + 1].out| == n + 1
    ensures run[n + 1].out[n] ==
      if Seen(arrivals[..n + 1], arrivals[n]) == AllParts(arrivals[n].msg) then Some(arrivals[n].msg.packet) else None
    ensures DistinctKeys(run[n + 1].table)
  {
    TrafficIsSteady(arrivals);
    FeedRepresents(run, arrivals, n + 1);
    TrafficMirrors(arrivals, n);
    hide IsFeed, Steady, Traffic, Mirrors, PendingAfter, Orderly, Arrive, AllLegit;
    TrafficNext(arrivals, n);
    MirrorsStep(arrivals[..n], arrivals[n], PendingAfter(arrivals[..n]));
  }

  /** A transmission all of whose parts have arrived was handed on by exactly one of its arrivals. */
  lemma {:induction false} DeliveredOnce(run: seq<Feed>, arrivals: seq<Arrival>, a: Arrival) returns (n: nat)
    requires IsFeed(run, arrivals) && Traffic(arrivals) && Legit(a) && Seen(arrivals, a) == AllParts(a.msg)
    ensures n < |arrivals| && Brings(arrivals[n], a) && |run[n + 1].out| == n + 1
    ensures run[n + 1].out[n] == Some(a.msg.packet)
    ensures forall k | 0 <= k < |arrivals| && k != n && Brings(arrivals[k], a) :: |run[k + 1].out| == k + 1 && run[k + 1].out[k] == None
  {
    n := LastOf(arrivals, a);
    forall k | 0 <= k < |arrivals| && Brings(arrivals[k], a)
      ensures |run[k + 1].out| == k + 1 && run[k + 1].out[k] == if k == n then Some(a.msg.packet) else None
    {
      EveryPacketOnceWhole(run, arrivals, k);
      SeenAlike(arrivals[..k + 1], a, arrivals[k]);
      if k < n { NotYetAll(arrivals, a, k, n); }
    }
  }

  /** An arrival of a part of the same transmission. */
  ghost predicate Brings(b: Arrival, a: Arrival) {
    b.tx == a.tx && b.msg == a.msg
  }

  /** The last arrival of a complete transmission completes it. */
  lemma {:induction false} LastOf(arrivals: seq<Arrival>, a: Arrival) returns (n: nat)
    requires Traffic(arrivals) && Legit(a) && Seen(arrivals, a) == AllParts(a.msg)
    ensures n < |arrivals| && Brings(arrivals[n], a) && Seen(arrivals[..n + 1], a) == AllParts(a.msg)
    ensures forall k | n < k < |arrivals| :: !Brings(arrivals[k], a)
  {
    PartsCount(a.msg);
    assert 0 in Seen(arrivals, a);
    n := |arrivals|;
    while n > 0 && !Brings(arrivals[n - 1], a)
      invariant 0 <= n <= |arrivals| && Seen(arrivals[..n], a) == AllParts(a.msg)
      invariant forall k | n <= k < |arrivals| :: !Brings(arrivals[k], a)
    {
      assert arrivals[n - 1] in arrivals;
      assert arrivals[..n] == arrivals[..n - 1] + [arrivals[n - 1]];
      SeenStep(arrivals[..n - 1], arrivals[n - 1], a);
      n := n - 1;
    }
    n := n - 1;
  }

  /** Before it, the transmission was not complete. */
  lemma {:induction false} NotYetAll(arrivals: seq<Arrival>, a: Arrival, k: nat, n: nat)
    requires Traffic(arrivals) && Legit(a) && k < n < |arrivals| && Brings(arrivals[n], a)
    ensures Seen(arrivals[..k + 1], a) != AllParts(a.msg)
  {
    assert TrafficAt(arrivals, n);
    SeenAlike(arrivals[..n], a, arrivals[n]);
    assert Seen(arrivals[..k + 1], a) <= Seen(arrivals[..n], a) <= AllParts(a.msg);
  }
}
