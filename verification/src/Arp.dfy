/**
 The ARP cache of arp.c: a fixed array searched from the front, against the map it stands for.
 */
module Arp {
  import opened Common

  const ARP_CACHE_LEN: nat := 100

  type Ip = nat
  type Mac = nat

  const NONE_IP: Ip := 0

  datatype Item = Item(ip: Ip, mac: Mac, expireAt: nat)

  // ---------------------------------------------------------------------
  // The array

  /** Whether a slot may be given to ip. */
  predicate Usable(item: Item, ip: Ip, now: nat) {
    item.ip == NONE_IP || item.ip == ip || item.expireAt < now
  }

  /** Whether a slot answers for ip. */
  predicate Answers(item: Item, ip: Ip, now: nat) {
    item.ip == ip && item.expireAt > now
  }

  /** The first slot that may be given to ip, or the length. */
  function SlotFor(list: seq<Item>, ip: Ip, now: nat): (i: nat)
    ensures i <= |list| && (i < |list| ==> Usable(list[i], ip, now))
    ensures forall k | 0 <= k < i :: !Usable(list[k], ip, now)
  {
    if list == [] || Usable(list[0], ip, now) then 0
    else
      assert forall k | 0 < k < |list| :: list[1..][k - 1] == list[k];
      1 + SlotFor(list[1..], ip, now)
  }

  /** The first slot that answers for ip, or the length. */
  function Found(list: seq<Item>, ip: Ip, now: nat): (i: nat)
    ensures i <= |list| && (i < |list| ==> Answers(list[i], ip, now))
    ensures forall k | 0 <= k < i :: !Answers(list[k], ip, now)
  {
    if list == [] || Answers(list[0], ip, now) then 0
    else
      assert forall k | 0 < k < |list| :: list[1..][k - 1] == list[k];
      1 + Found(list[1..], ip, now)
  }

  function Get(list: seq<Item>, ip: Ip, now: nat): Option<Mac> {
    var i := Found(list, ip, now);
    if i < |list| then Some(list[i].mac) else None
  }

  function Set(list: seq<Item>, mac: Mac, ip: Ip, now: nat, ttl: nat): seq<Item> {
    var i := SlotFor(list, ip, now);
    if i < |list| then list[i := Item(ip, mac, now + ttl)] else list
  }

  // ---------------------------------------------------------------------
  // The map

  datatype Stamp = Stamp(mac: Mac, time: nat)

  /** The last address stored for each IP address, and when. */
  type Latest = map<Ip, Stamp>

  function Recorded(latest: Latest, done: bool, mac: Mac, ip: Ip, now: nat): Latest {
    if done then latest[ip := Stamp(mac, now)] else latest
  }

  /** What a lookup should say: the last address stored, for ttl seconds. */
  function Lookup(latest: Latest, ip: Ip, now: nat, ttl: nat): Option<Mac> {
    if ip in latest && latest[ip].time + ttl > now then Some(latest[ip].mac) else None
  }

  /** The first slot for ip holds what was last stored for it. */
  ghost predicate Front(list: seq<Item>, ip: Ip, stamp: Stamp, ttl: nat) {
    exists i :: 0 <= i < |list| && list[i] == Item(ip, stamp.mac, stamp.time + ttl)
                && forall k | 0 <= k < i :: list[k].ip != ip
  }

  /** Slots hold nothing that was not stored, and nothing newer than the last; what is not
      outdated at time clock is at the front. */
  ghost predicate Reflects(list: seq<Item>, latest: Latest, clock: nat, ttl: nat) {
    && (forall i | 0 <= i < |list| && list[i].ip != NONE_IP ::
          list[i].ip in latest && list[i].expireAt <= latest[list[i].ip].time + ttl)
    && (forall ip | ip in latest && ip != NONE_IP && latest[ip].time + ttl >= clock :: Front(list, ip, latest[ip], ttl))
    && (forall ip | ip in latest :: latest[ip].time <= clock)
  }

  lemma {:induction false} EmptyReflects(list: seq<Item>, clock: nat, ttl: nat)
    requires forall i | 0 <= i < |list| :: list[i].ip == NONE_IP
    ensures Reflects(list, map[], clock, ttl)
  {
  }

  /** Storing keeps that, whether it finds a slot or not. */
  lemma {:induction false} SetReflects(list: seq<Item>, latest: Latest, clock: nat, ttl: nat, mac: Mac, ip: Ip, now: nat)
    requires Reflects(list, latest, clock, ttl) && clock <= now
    ensures var done := SlotFor(list, ip, now) < |list|;
            Reflects(Set(list, mac, ip, now, ttl), Recorded(latest, done, mac, ip, now), now, ttl)
  {
    var i := SlotFor(list, ip, now);
    if i < |list| {
      var list', latest' := list[i := Item(ip, mac, now + ttl)], latest[ip := Stamp(mac, now)];
      forall x | x in latest' && x != NONE_IP && latest'[x].time + ttl >= now ensures Front(list', x, latest'[x], ttl) {
        if x == ip {
          assert list'[i] == Item(ip, mac, now + ttl) && forall k | 0 <= k < i :: list'[k].ip != ip;
        } else {
          OtherFront(list, latest[x], ttl, mac, ip, now, x);
        }
      }
    }
  }

  /** Storing for another address does not touch a front slot that is not outdated. */
  lemma {:induction false} OtherFront(list: seq<Item>, stamp: Stamp, ttl: nat, mac: Mac, ip: Ip, now: nat, x: Ip)
    requires SlotFor(list, ip, now) < |list| && x != ip && x != NONE_IP && stamp.time + ttl >= now
    requires Front(list, x, stamp, ttl)
    ensures Front(list[SlotFor(list, ip, now) := Item(ip, mac, now + ttl)], x, stamp, ttl)
  {
    var i := SlotFor(list, ip, now);
    var j :| 0 <= j < |list| && list[j] == Item(x, stamp.mac, stamp.time + ttl)
             && forall k | 0 <= k < j :: list[k].ip != x;
    assert i != j;
    var list' := list[i := Item(ip, mac, now + ttl)];
    assert list'[j] == Item(x, stamp.mac, stamp.time + ttl) && forall k | 0 <= k < j :: list'[k].ip != x;
  }

  /** A lookup for a real address then says what the map says. */
  lemma {:induction false} GetIsLookup(list: seq<Item>, latest: Latest, clock: nat, ttl: nat, ip: Ip, now: nat)
    requires Reflects(list, latest, clock, ttl) && clock <= now && ip != NONE_IP
    ensures Get(list, ip, now) == Lookup(latest, ip, now, ttl)
  {
    var i := Found(list, ip, now);
    if ip in latest && latest[ip].time + ttl > now {
      assert Front(list, ip, latest[ip], ttl);
      var j :| 0 <= j < |list| && list[j] == Item(ip, latest[ip].mac, latest[ip].time + ttl)
               && forall k | 0 <= k < j :: list[k].ip != ip;
      assert Answers(list[j], ip, now);
      assert i == j;
    }
  }

  // ---------------------------------------------------------------------
  // Runs

  datatype Store = Store(mac: Mac, ip: Ip, now: nat)

  /** Time does not run backwards. */
  ghost predicate InOrder(run: seq<Store>, from: nat) {
    run == [] || (from <= run[0].now && InOrder(run[1..], run[0].now))
  }

  function RunList(list: seq<Item>, run: seq<Store>, ttl: nat): seq<Item>
    decreases |run|
  {
    if run == [] then list else RunList(Set(list, run[0].mac, run[0].ip, run[0].now, ttl), run[1..], ttl)
  }

  function RunLatest(list: seq<Item>, latest: Latest, run: seq<Store>, ttl: nat): Latest
    decreases |run|
  {
    if run == [] then latest
    else
      var e := run[0];
      RunLatest(Set(list, e.mac, e.ip, e.now, ttl),
                Recorded(latest, SlotFor(list, e.ip, e.now) < |list|, e.mac, e.ip, e.now), run[1..], ttl)
  }

  function Clock(run: seq<Store>, from: nat): nat {
    if run == [] then from else Clock(run[1..], run[0].now)
  }

  lemma {:induction false} RunReflects(list: seq<Item>, latest: Latest, run: seq<Store>, clock: nat, ttl: nat)
    requires Reflects(list, latest, clock, ttl) && InOrder(run, clock)
    ensures Reflects(RunList(list, run, ttl), RunLatest(list, latest, run, ttl), Clock(run, clock), ttl)
    decreases |run|
  {
    if run != [] {
      var e := run[0];
      SetReflects(list, latest, clock, ttl, e.mac, e.ip, e.now);
      hide Reflects;
      RunReflects(Set(list, e.mac, e.ip, e.now, ttl),
                  Recorded(latest, SlotFor(list, e.ip, e.now) < |list|, e.mac, e.ip, e.now), run[1..], e.now, ttl);
    }
  }

  /** After any stores, a lookup for an address other than 0.0.0.0 finds just the last address
      that was stored for it, until ttl seconds after. */
  lemma {:induction false} LookupIsLast(list: seq<Item>, run: seq<Store>, ttl: nat, ip: Ip, now: nat)
    requires (forall i | 0 <= i < |list| :: list[i].ip == NONE_IP) && InOrder(run, 0)
    requires ip != NONE_IP && Clock(run, 0) <= now
    ensures Get(RunList(list, run, ttl), ip, now) == Lookup(RunLatest(list, map[], run, ttl), ip, now, ttl)
  {
    EmptyReflects(list, 0, ttl);
    RunReflects(list, map[], run, 0, ttl);
    GetIsLookup(RunList(list, run, ttl), RunLatest(list, map[], run, ttl), Clock(run, 0), ttl, ip, now);
  }

  // --- stores that find a slot ---

  /** The slots that hold something not outdated. */
  function Busy(list: seq<Item>, now: nat): (n: nat)
    ensures n <= |list|
  {
    if list == [] then 0
    else Busy(list[1..], now) + if list[0].ip != NONE_IP && list[0].expireAt >= now then 1 else 0
  }

  /** The stores of the last ttl seconds. */
  function Recent(run: seq<Store>, now: nat, ttl: nat): nat {
    if run == [] then 0 else Recent(run[1..], now, ttl) + if run[0].now + ttl >= now then 1 else 0
  }

  lemma {:induction false} BusyOneMore(list: seq<Item>, i: nat, item: Item, now: nat)
    requires i < |list|
    ensures Busy(list[i := item], now) <= Busy(list, now) + if item.expireAt >= now then 1 else 0
  {
    if i > 0 {
      BusyOneMore(list[1..], i - 1, item, now);
      assert list[i := item][1..] == list[1..][i - 1 := item];
    } else {
      assert list[i := item][1..] == list[1..];
    }
  }

  lemma {:induction false} BusyRecent(list: seq<Item>, run: seq<Store>, now: nat, ttl: nat)
    ensures |RunList(list, run, ttl)| == |list|
    ensures Busy(RunList(list, run, ttl), now) <= Busy(list, now) + Recent(run, now, ttl)
    decreases |run|
  {
    if run != [] {
      var e := run[0];
      var i, next := SlotFor(list, e.ip, e.now), Set(list, e.mac, e.ip, e.now, ttl);
      if i < |list| { BusyOneMore(list, i, Item(e.ip, e.mac, e.now + ttl), now); }
      BusyRecent(next, run[1..], now, ttl);
    }
  }

  lemma {:induction false} NotBusy(list: seq<Item>, now: nat) returns (i: nat)
    requires Busy(list, now) < |list|
    ensures i < |list| && (list[i].ip == NONE_IP || list[i].expireAt < now)
  {
    i := 0;
    if list[0].ip != NONE_IP && list[0].expireAt >= now {
      i := NotBusy(list[1..], now);
      i := i + 1;
    }
  }

  /** A store is taken up, and can be looked up, unless as many stores as there are slots were made
      in the ttl seconds before it. */
  lemma {:induction false} StoreTakenUp(list: seq<Item>, run: seq<Store>, ttl: nat, mac: Mac, ip: Ip, now: nat)
    requires (forall i | 0 <= i < |list| :: list[i].ip == NONE_IP) && InOrder(run, 0)
    requires Clock(run, 0) <= now && Recent(run, now, ttl) < |list| && ttl > 0 && ip != NONE_IP
    ensures Get(Set(RunList(list, run, ttl), mac, ip, now, ttl), ip, now) == Some(mac)
  {
    var full := RunList(list, run, ttl);
    NoneBusy(list, now);
    BusyRecent(list, run, now, ttl);
    var i := NotBusy(full, now);
    assert Usable(full[i], ip, now);
    EmptyReflects(list, 0, ttl);
    RunReflects(list, map[], run, 0, ttl);
    var latest := RunLatest(list, map[], run, ttl);
    SetReflects(full, latest, Clock(run, 0), ttl, mac, ip, now);
    hide Reflects;
    GetIsLookup(Set(full, mac, ip, now, ttl), latest[ip := Stamp(mac, now)], now, ttl, ip, now);
  }

  lemma {:induction false} NoneBusy(list: seq<Item>, now: nat)
    requires forall i | 0 <= i < |list| :: list[i].ip == NONE_IP
    ensures Busy(list, now) == 0
  {
    if list != [] { NoneBusy(list[1..], now); }
  }

  /** A store is refused only if every slot is another address's whose last store is not outdated;
      so an address with such a store is always renewed. */
  lemma {:induction false} RefusedMeans(list: seq<Item>, latest: Latest, clock: nat, ttl: nat, ip: Ip, now: nat)
    requires Reflects(list, latest, clock, ttl) && clock <= now && SlotFor(list, ip, now) == |list|
    ensures forall i | 0 <= i < |list| ::
              list[i].ip != ip && list[i].ip in latest && latest[list[i].ip].time + ttl >= now
    ensures ip in latest && ip != NONE_IP ==> latest[ip].time + ttl < clock
  {
    assert forall i | 0 <= i < |list| :: !Usable(list[i], ip, now);
    if ip in latest && ip != NONE_IP && latest[ip].time + ttl >= clock {
      assert false;
    }
  }

  /** For 0.0.0.0 this fails, because its slot counts as unused: a store for another address takes
      the slot exactly if no earlier one is unused, over or for that address. */
  lemma {:induction false} NoneIsLost(list: seq<Item>, ttl: nat, now: nat, mac: Mac, ip: Ip, k: nat)
    requires k < |list| && Answers(list[k], NONE_IP, now) && ip != NONE_IP
    ensures var after := Set(list, mac, ip, now, ttl);
            |after| == |list| && (after[k] != list[k] <==> forall j | 0 <= j < k :: !Usable(list[j], ip, now))
    ensures (forall j | 0 <= j < |list| && j != k :: !Answers(list[j], NONE_IP, now)) ==>
              (Get(Set(list, mac, ip, now, ttl), NONE_IP, now) == None <==>
               forall j | 0 <= j < k :: !Usable(list[j], ip, now))
  {
    var i, after := SlotFor(list, ip, now), Set(list, mac, ip, now, ttl);
    assert Usable(list[k], ip, now);
    var f := Found(after, NONE_IP, now);
    if forall j | 0 <= j < |list| && j != k :: !Answers(list[j], NONE_IP, now) {
      if i == k {
        assert forall j | 0 <= j < |after| :: !Answers(after[j], NONE_IP, now);
      } else {
        assert Answers(after[k], NONE_IP, now);
      }
    }
  }

  /** In a new cache that is with the next store. */
  lemma {:induction false} NoneLostAtOnce(list: seq<Item>, ttl: nat, now: nat, mac: Mac, ip: Ip)
    requires (forall i | 0 <= i < |list| :: list[i] == Item(NONE_IP, 0, 0)) && list != []
    requires ttl > 0 && ip != NONE_IP
    ensures var list1 := Set(list, mac, NONE_IP, now, ttl);
            && Get(list1, NONE_IP, now) == Some(mac)
            && Get(Set(list1, mac, ip, now, ttl), NONE_IP, now) == None
  {
    var list1 := list[0 := Item(NONE_IP, mac, now + ttl)];
    assert SlotFor(list, NONE_IP, now) == 0 && Set(list, mac, NONE_IP, now, ttl) == list1;
    assert Answers(list1[0], NONE_IP, now);
    var list2 := list1[0 := Item(ip, mac, now + ttl)];
    assert SlotFor(list1, ip, now) == 0 && Set(list1, mac, ip, now, ttl) == list2;
    assert forall k | 0 <= k < |list2| :: !Answers(list2[k], NONE_IP, now);
  }

  // ---------------------------------------------------------------------
  // The code

  class Cache {
    const list: array<Item>
    const ttl: nat
    ghost var latest: Latest
    ghost var clock: nat

    ghost predicate Valid()
      reads this, list
    {
      list.Length == ARP_CACHE_LEN && Reflects(list[..], latest, clock, ttl)
    }

    /** arp_list_init */
    constructor (ttl: nat)
      ensures Valid() && fresh(list) && latest == map[] && clock == 0 && this.ttl == ttl
    {
      list := new Item[ARP_CACHE_LEN](_ => Item(NONE_IP, 0, 0));
      this.ttl := ttl;
      latest, clock := map[], 0;
      new;
      EmptyReflects(list[..], 0, ttl);
    }

    /** arp_get_mac_by_ip; a miss also asks the network. */
    method GetMac(ip: Ip, now: nat) returns (mac: Option<Mac>)
      requires Valid() && clock <= now
      ensures mac == Get(list[..], ip, now)
      ensures ip != NONE_IP ==> mac == Lookup(latest, ip, now, ttl)
    {
      if ip != NONE_IP { GetIsLookup(list[..], latest, clock, ttl, ip, now); }
      ghost var at := Found(list[..], ip, now);
      for i := 0 to list.Length
        invariant at >= i
      {
        if Answers(list[i], ip, now) {
          assert list[..][i] == list[i];
          return Some(list[i].mac);
        }
        assert at != i;
      }
      mac := None;
    }

    /** arp_has_ip */
    method HasIp(ip: Ip, now: nat) returns (has: bool)
      requires Valid() && clock <= now
      ensures ip != NONE_IP ==> (has <==> Lookup(latest, ip, now, ttl).Some?)
    {
      var mac := GetMac(ip, now);
      has := mac.Some?;
    }

    /** arp_set: fails exactly if every slot holds another address that is not outdated. */
    method SetMac(mac: Mac, ip: Ip, now: nat) returns (done: bool)
      requires Valid() && clock <= now
      modifies this, list
      ensures Valid() && clock == now && latest == Recorded(old(latest), done, mac, ip, now)
      ensures list[..] == Set(old(list[..]), mac, ip, now, ttl)
      ensures done <==> exists i :: 0 <= i < |old(list[..])| && Usable(old(list[..])[i], ip, now)
      ensures !done ==> forall i | 0 <= i < |old(list[..])| ::
                var x := old(list[..])[i].ip; x != ip && x in old(latest) && old(latest)[x].time + ttl >= now
      ensures ip != NONE_IP && ip in old(latest) && old(latest)[ip].time + ttl >= now ==> done
    {
      hide Reflects, SlotFor;
      ghost var before := list[..];
      ghost var at := SlotFor(before, ip, now);
      SetReflects(before, latest, clock, ttl, mac, ip, now);
      if at == |before| { RefusedMeans(before, latest, clock, ttl, ip, now); }
      for i := 0 to list.Length
        invariant at >= i && list[..] == before && clock == old(clock) && latest == old(latest)
      {
        if list[i].ip == NONE_IP || list[i].ip == ip || list[i].expireAt < now {
          assert before[i] == list[i] && Usable(before[i], ip, now);
          list[i] := Item(ip, mac, now + ttl);
          assert list[..] == before[i := Item(ip, mac, now + ttl)];
          latest, clock := latest[ip := Stamp(mac, now)], now;
          return true;
        }
        assert before[i] == list[i];
      }
      clock := now;
      done := false;
    }
  }
}
