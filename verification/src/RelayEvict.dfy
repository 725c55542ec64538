/**
 A full table of partly received packets: which fragment is refused, which packet gives way, and
 how long a packet may count on its slot.
 */
module RelayEvict {
  import opened Common
  import opened Relay
  import opened Reassembly
  import opened RelayRuns

  /** How far a slot's stamp is from the counter. */
  function Gap(s: Slot, counter: nat): nat {
    if s.localId <= counter then counter - s.localId else s.localId - counter
  }

  /** All slots are taken, none of them by the packet. */
  ghost predicate FullFor(t: seq<Slot>, m: Msg)
    requires Fragmentable(m)
  {
    TableOk(t) && forall j | 0 <= j < |t| :: t[j].used && KeyOf(t[j]) != MsgKey(m)
  }

  lemma {:induction false} NoSlot(t: seq<Slot>, m: Msg, p: nat)
    requires Fragmentable(m) && FullFor(t, m) && Start(m.pmtu, p) <= |m.packet|
    ensures FindKey(t, HeaderOf(m, p), 0) == |t| && FindFree(t, 0) == |t|
  {
    hide Start;
    var f := FindKey(t, HeaderOf(m, p), 0);
    if f < |t| { HoldsIsKey(t[f], m, p); }
  }

  /** The slot found has a greater gap than any before it, and no smaller one than any. */
  lemma {:induction false} OldestIs(t: seq<Slot>, counter: nat, n: nat)
    requires n <= |t| && forall j | 0 <= j < |t| :: t[j].used
    ensures var i := Oldest(t, counter, n);
            if i < |t| then
              && i < n && Gap(t[i], counter) == Age(t[i], counter) > 0
              && (forall j | 0 <= j < n :: Gap(t[j], counter) <= Gap(t[i], counter))
              && (forall j | 0 <= j < i :: Gap(t[j], counter) < Gap(t[i], counter))
            else forall j | 0 <= j < n :: Gap(t[j], counter) == 0
  {
    if n > 0 { OldestIs(t, counter, n - 1); }
  }

  lemma {:induction false} FullClaim(t: seq<Slot>, counter: nat, m: Msg, p: nat)
    requires Fragmentable(m) && FullFor(t, m) && p < Total(m) && Start(m.pmtu, p) <= |m.packet|
    ensures var h, o := HeaderOf(m, p), Oldest(t, counter, |t|);
            Claim(t, counter, h) ==
              if o < |t| && Gap(t[o], counter) > LC_FRAG_COUNT then Claimed(t[o := Opened(t[o], h, counter)], counter + 1, o)
              else Claimed(t, counter, |t|)
  {
    hide Start, Opened, FullFor;
    assert forall j | 0 <= j < |t| :: t[j].used by { hide *; AllUsed(t, m); }
    NoSlot(t, m, p);
    OldestIs(t, counter, |t|);
  }

  lemma {:induction false} AllUsed(t: seq<Slot>, m: Msg)
    requires Fragmentable(m) && FullFor(t, m)
    ensures TableOk(t) && forall j | 0 <= j < |t| :: t[j].used
  {
  }

  /** A single part does not complete a packet. */
  lemma {:induction false} FirstPart(s: Slot, m: Msg, p: nat, counter: nat)
    requires Fragmentable(m) && p < Total(m) && SlotOk(s) && Start(m.pmtu, p) <= |m.packet|
    ensures Reassembly.Fits(HeaderOf(m, p), Piece(m, p)) && HeaderOf(m, p).total <= 8
    ensures var o := Opened(s, HeaderOf(m, p), counter); var r := Store(o, HeaderOf(m, p), Piece(m, p));
            && SlotOk(o) && Collects(r, m, {p}) && FullMask(HeaderOf(m, p).total) != r.part
            && r.localId == counter % 0x1_0000
  {
    hide Collects, Start, FullMask, MaskOf;
    OpenedCollects(s, m, p, counter);
    var o := Opened(s, HeaderOf(m, p), counter);
    StoreCollects(o, m, {}, p);
    assert {} + {p} == {p};
    MaskFull(m, {p});
    PartsCount(m);
    CollectsMask(Store(o, HeaderOf(m, p), Piece(m, p)), m, {p});
    NotAllParts(m, p);
  }

  lemma {:induction false} CollectsMask(s: Slot, m: Msg, got: set<nat>)
    requires Fragmentable(m) && Collects(s, m, got)
    ensures s.part == MaskOf(got)
  {
  }

  lemma {:induction false} NotAllParts(m: Msg, p: nat)
    requires Fragmentable(m)
    ensures {p} != AllParts(m)
  {
    PartsCount(m);
    assert 0 in AllParts(m) && 1 in AllParts(m);
  }

  /** A fragment of a new packet finds the table full: it changes nothing, counter included, exactly
      if every stamp is within LC_FRAG_COUNT of the counter. */
  lemma {:induction false} FullRefuses(t: seq<Slot>, counter: nat, m: Msg, p: nat)
    requires Fragmentable(m) && FullFor(t, m) && p < Total(m)
    ensures Start(m.pmtu, p) <= |m.packet| && Reassembly.Fits(HeaderOf(m, p), Piece(m, p)) && TableOk(t)
    ensures Process(t, counter, HeaderOf(m, p), Piece(m, p)) == Outcome(t, counter, None) <==>
            forall j | 0 <= j < |t| :: Gap(t[j], counter) <= LC_FRAG_COUNT
  {
    hide Start, Claim, FullMask, Store;
    FragmentFits(m, p);
    FullClaim(t, counter, m, p);
    AllUsed(t, m);
    OldestIs(t, counter, |t|);
  }

  /** Otherwise one packet gives way, the first of those whose stamps are farthest from the counter,
      and its slot then holds just that part of the new packet. */
  lemma {:induction false} FullEvicts(t: seq<Slot>, counter: nat, m: Msg, p: nat) returns (i: nat)
    requires Fragmentable(m) && FullFor(t, m) && p < Total(m)
    requires exists j | 0 <= j < |t| :: Gap(t[j], counter) > LC_FRAG_COUNT
    ensures Start(m.pmtu, p) <= |m.packet| && Reassembly.Fits(HeaderOf(m, p), Piece(m, p)) && TableOk(t) && i < |t|
    ensures forall j | 0 <= j < |t| :: Gap(t[j], counter) <= Gap(t[i], counter)
    ensures forall j | 0 <= j < i :: Gap(t[j], counter) < Gap(t[i], counter)
    ensures var r := Process(t, counter, HeaderOf(m, p), Piece(m, p));
            && |r.table| == |t| && (forall j | 0 <= j < |t| && j != i :: r.table[j] == t[j])
            && Collects(r.table[i], m, {p}) && r.table[i].localId == counter % 0x1_0000
            && r.localId == counter + 1 && r.packet == None
  {
    hide Start, Claim, FullMask, Store, Collects, Opened;
    FragmentFits(m, p);
    FullClaim(t, counter, m, p);
    AllUsed(t, m);
    OldestIs(t, counter, |t|);
    i := Oldest(t, counter, |t|);
    FirstPart(t[i], m, p, counter);
  }

  // ---------------------------------------------------------------------
  // Runs

  /** Between the two, slot i has been given to a packet. */
  ghost predicate GivenAt(f: Feed, g: Feed, i: nat) {
    && i < |f.table| == |g.table| && g.table[i].used
    && (!f.table[i].used || KeyOf(g.table[i]) != KeyOf(f.table[i]))
  }

  ghost predicate Opens(f: Feed, g: Feed) {
    exists i :: GivenAt(f, g, i)
  }

  /** The packets given a slot in the first n steps. */
  ghost function Openings(run: seq<Feed>, n: nat): nat
    requires n < |run|
  {
    if n == 0 then 0 else Openings(run, n - 1) + if Opens(run[n - 1], run[n]) then 1 else 0
  }

  /** What a step does to slot i, its stamp and the counter. */
  ghost predicate StepAt(f: Feed, g: Feed, i: nat) {
    && i < |f.table| == |g.table|
    && (GivenAt(f, g, i) ==> g.localId == f.localId + 1 && g.table[i].localId == f.localId % 0x1_0000)
    && (GivenAt(f, g, i) && f.table[i].used ==> Gap(f.table[i], f.localId) > LC_FRAG_COUNT)
    && (!GivenAt(f, g, i) && g.table[i].used ==> f.table[i].used && g.table[i].localId == f.table[i].localId)
    && (f.table[i].used && !g.table[i].used ==> |g.out| == |f.out| + 1 && g.out[|f.out|].Some?)
  }

  lemma {:induction false} StepSlots(f: Feed, a: Arrival, g: Feed)
    requires FeedStep(f, a, g) && Legit(a) && TableOk(f.table)
    ensures TableOk(g.table) && (forall i | 0 <= i < |f.table| :: StepAt(f, g, i))
    ensures g.localId == f.localId + if Opens(f, g) then 1 else 0
  {
    var m, p := a.msg, a.part;
    FragmentFits(m, p);
    HeaderRoundTrip(HeaderOf(m, p), Piece(m, p));
    var h := HeaderOf(m, p);
    var k, free := FindKey(f.table, h, 0), FindFree(f.table, 0);
    hide FullMask, Start, SetBit, Overwrite;
    if k < |f.table| {
      KnownSlot(f, m, p, k, g);
    } else if free < |f.table| {
      FreeSlot(f, m, p, free, g);
    } else {
      FullTable(f, m, p, g);
    }
  }

  ghost predicate Processed(f: Feed, m: Msg, p: nat, g: Feed)
    requires Fragmentable(m) && p < Total(m) && Start(m.pmtu, p) <= |m.packet|
  {
    && TableOk(f.table) && Reassembly.Fits(HeaderOf(m, p), Piece(m, p))
    && var r := Process(f.table, f.localId, HeaderOf(m, p), Piece(m, p));
       g == Feed(r.table, r.localId, f.out + [r.packet])
  }

  lemma {:induction false} KnownSlot(f: Feed, m: Msg, p: nat, k: nat, g: Feed)
    requires Fragmentable(m) && p < Total(m) && Start(m.pmtu, p) <= |m.packet| && Processed(f, m, p, g)
    requires k == FindKey(f.table, HeaderOf(m, p), 0) < |f.table|
    ensures TableOk(g.table) && (forall i | 0 <= i < |f.table| :: StepAt(f, g, i))
    ensures g.localId == f.localId && !Opens(f, g)
  {
    hide FullMask, Start, SetBit, Overwrite;
    assert forall i | 0 <= i < |f.table| :: !GivenAt(f, g, i);
  }

  lemma {:induction false} FreeSlot(f: Feed, m: Msg, p: nat, k: nat, g: Feed)
    requires Fragmentable(m) && p < Total(m) && Start(m.pmtu, p) <= |m.packet| && Processed(f, m, p, g)
    requires FindKey(f.table, HeaderOf(m, p), 0) == |f.table| && k == FindFree(f.table, 0) < |f.table|
    ensures TableOk(g.table) && (forall i | 0 <= i < |f.table| :: StepAt(f, g, i))
    ensures g.localId == f.localId + 1 && Opens(f, g)
  {
    hide FullMask, Start, Store, Collects, Opened;
    FirstPart(f.table[k], m, p, f.localId);
    CollectsKey(g.table[k], m, {p});
    assert GivenAt(f, g, k);
  }

  lemma {:induction false} FullTable(f: Feed, m: Msg, p: nat, g: Feed)
    requires Fragmentable(m) && p < Total(m) && Start(m.pmtu, p) <= |m.packet| && Processed(f, m, p, g)
    requires FindKey(f.table, HeaderOf(m, p), 0) == |f.table| && FindFree(f.table, 0) == |f.table|
    ensures TableOk(g.table) && (forall i | 0 <= i < |f.table| :: StepAt(f, g, i))
    ensures g.localId == f.localId + if Opens(f, g) then 1 else 0
  {
    IsFull(f.table, m, p);
    FullRefuses(f.table, f.localId, m, p);
    hide Start, Process, Collects, FullFor;
    if j :| 0 <= j < |f.table| && Gap(f.table[j], f.localId) > LC_FRAG_COUNT {
      var i := FullEvicts(f.table, f.localId, m, p);
      CollectsKey(g.table[i], m, {p});
      OtherKey(f.table, m, i);
      assert GivenAt(f, g, i);
    } else {
      assert forall i | 0 <= i < |f.table| :: !GivenAt(f, g, i);
    }
  }

  lemma {:induction false} IsFull(t: seq<Slot>, m: Msg, p: nat)
    requires Fragmentable(m) && TableOk(t) && Start(m.pmtu, p) <= |m.packet|
    requires FindKey(t, HeaderOf(m, p), 0) == |t| && FindFree(t, 0) == |t|
    ensures FullFor(t, m)
  {
    forall j | 0 <= j < |t| ensures t[j].used && KeyOf(t[j]) != MsgKey(m) { HoldsIsKey(t[j], m, p); }
  }

  lemma {:induction false} OtherKey(t: seq<Slot>, m: Msg, i: nat)
    requires Fragmentable(m) && FullFor(t, m) && i < |t|
    ensures KeyOf(t[i]) != MsgKey(m)
  {
  }

  /** A receiver that starts empty, fed with fragments of packets. */
  ghost predicate FromNew(run: seq<Feed>, arrivals: seq<Arrival>) {
    IsFeed(run, arrivals) && AllLegit(arrivals) && run[0].localId == 0
  }

  lemma {:induction false} CounterCounts(run: seq<Feed>, arrivals: seq<Arrival>, n: nat)
    requires FromNew(run, arrivals) && n < |run|
    ensures TableOk(run[n].table) && run[n].localId == Openings(run, n)
  {
    if n > 0 {
      CounterCounts(run, arrivals, n - 1);
      assert arrivals[n - 1] in arrivals && FeedStep(run[n - 1], arrivals[n - 1], run[n]);
      hide FeedStep, StepAt, Opens, TableOk;
      StepSlots(run[n - 1], arrivals[n - 1], run[n]);
    }
  }

  lemma {:induction false} RunStepAt(run: seq<Feed>, arrivals: seq<Arrival>, n: nat, i: nat)
    requires FromNew(run, arrivals) && n < |arrivals| && i < LC_FRAG_COUNT
    ensures n + 1 < |run| && StepAt(run[n], run[n + 1], i) && run[n].localId == Openings(run, n)
  {
    CounterCounts(run, arrivals, n);
    assert arrivals[n] in arrivals && FeedStep(run[n], arrivals[n], run[n + 1]);
    hide FeedStep, StepAt, Opens;
    StepSlots(run[n], arrivals[n], run[n + 1]);
  }

  /** Slot i was given away in step m and has been used for that packet up to step n. */
  ghost predicate HeldSince(run: seq<Feed>, m: nat, n: nat, i: nat) {
    && m < n < |run| && GivenAt(run[m], run[m + 1], i)
    && forall j | m < j < n :: KeptAt(run, j, i)
  }

  ghost predicate KeptAt(run: seq<Feed>, j: nat, i: nat) {
    && j + 1 < |run| && !GivenAt(run[j], run[j + 1], i)
    && i < |run[j + 1].table| && run[j + 1].table[i].used
  }

  lemma {:induction false} OpeningsGrow(run: seq<Feed>, m: nat, n: nat)
    requires m <= n < |run|
    ensures Openings(run, m) <= Openings(run, n)
    decreases n
  {
    if m < n { OpeningsGrow(run, m, n - 1); }
  }

  lemma {:induction false} StampHeld(run: seq<Feed>, arrivals: seq<Arrival>, m: nat, n: nat, i: nat)
    requires FromNew(run, arrivals) && HeldSince(run, m, n, i) && i < LC_FRAG_COUNT
    ensures i < |run[n].table| && run[n].table[i].localId == Openings(run, m) % 0x1_0000
    decreases n
  {
    RunStepAt(run, arrivals, n - 1, i);
    if m + 1 < n {
      StampHeld(run, arrivals, m, n - 1, i);
      assert KeptAt(run, n - 1, i);
    }
  }

  /** As long as fewer than 65536 packets have been given a slot, a packet loses its slot to another
      one only when more than LC_FRAG_COUNT packets, itself included, were given one since. */
  lemma {:induction false} LosesSlotOnlyIfOld(run: seq<Feed>, arrivals: seq<Arrival>, m: nat, n: nat, i: nat)
    requires FromNew(run, arrivals) && HeldSince(run, m, n, i) && n < |arrivals| && i < LC_FRAG_COUNT
    requires Openings(run, n) <= 0x1_0000 && GivenAt(run[n], run[n + 1], i) && i < |run[n].table| && run[n].table[i].used
    ensures Openings(run, n) - Openings(run, m) > LC_FRAG_COUNT
  {
    assert Opens(run[m], run[m + 1]);
    assert Openings(run, m + 1) == Openings(run, m) + 1;
    hide IsFeed, AllLegit, HeldSince, Openings, Opens, GivenAt;
    StampHeld(run, arrivals, m, n, i);
    RunStepAt(run, arrivals, n, i);
    OpeningsGrow(run, m + 1, n);
  }

  /** It gives its slot up without such a loss only by being delivered. */
  lemma {:induction false} FreedMeansDelivered(run: seq<Feed>, arrivals: seq<Arrival>, n: nat, i: nat)
    requires FromNew(run, arrivals) && n < |arrivals| && i < LC_FRAG_COUNT
    requires i < |run[n].table| && i < |run[n + 1].table| && run[n].table[i].used && !run[n + 1].table[i].used
    ensures |run[n + 1].out| == |run[n].out| + 1 && run[n + 1].out[|run[n].out|].Some?
  {
    RunStepAt(run, arrivals, n, i);
  }
}
