/**
 The functions of dns.c on the global tables, in place: each does to the tables what the
 events of the runs say.
 */
module DnsTable {
  import opened Common
  import opened Dns
  import opened DnsRuns

  /** The transaction ids of the queries under way. */
  function UsedIds(table: seq<Entry>): set<nat> {
    if table == [] then {}
    else UsedIds(table[1..]) + (if table[0].state == ASKING then {table[0].txid} else {})
  }

  lemma {:induction false} UsedIdsAre(table: seq<Entry>, x: nat)
    ensures x in UsedIds(table) <==> exists i :: 0 <= i < |table| && table[i].state == ASKING && table[i].txid == x
  {
    if table != [] {
      UsedIdsAre(table[1..], x);
      if x in UsedIds(table[1..]) {
        var i :| 0 <= i < |table[1..]| && table[1..][i].state == ASKING && table[1..][i].txid == x;
        assert table[i + 1].txid == x;
      }
      forall i | 0 <= i < |table| && table[i].state == ASKING && table[i].txid == x ensures x in UsedIds(table) {
        if i > 0 { assert table[1..][i - 1] == table[i]; }
      }
    }
  }

  lemma {:induction false} UsedIdsFew(table: seq<Entry>)
    ensures |UsedIds(table)| <= |table|
  {
    if table != [] {
      UsedIdsFew(table[1..]);
      var one := if table[0].state == ASKING then {table[0].txid} else {};
      assert |UsedIds(table[1..]) + one| <= |UsedIds(table[1..])| + |one|;
    }
  }

  /** The k ids after start, in the 16 bits of dns_txid. */
  ghost predicate Tried(tried: set<nat>, start: nat, k: nat) {
    |tried| == k && forall x | x in tried :: exists j :: 1 <= j <= k && x == Later(start, j)
  }

  function Later(start: nat, j: nat): nat {
    (start + j) % M16
  }

  lemma {:induction false} NotTried(tried: set<nat>, start: nat, k: nat)
    requires Tried(tried, start, k) && k + 1 < M16
    ensures Later(start, k + 1) !in tried && Tried(tried + {Later(start, k + 1)}, start, k + 1)
  {
    forall j | 1 <= j <= k ensures Later(start, j) != Later(start, k + 1) { Apart(start + j, k + 1 - j); }
  }

  lemma {:induction false} Apart(a: nat, n: nat)
    requires 0 < n < M16
    ensures a % M16 != (a + n) % M16
  {
  }

  /** How long ago an entry was enqueued, in the 8 bits of dns_seqno. */
  function Age(seqno: nat, e: Entry): nat {
    (seqno + 256 - e.seqno % 256) % 256
  }

  class Resolver {
    const servers: Servers
    var table: seq<Entry>
    var reqs: seq<Option<Request>>
    var seqno: nat
    var lastId: nat
    ghost var fired: seq<Request>

    /** dns_init */
    constructor (servers: Servers, size: nat)
      ensures Fresh(D()) && Sound(D(), servers) && |table| == size && this.servers == servers && seqno == lastId == 0
    {
      this.servers := servers;
      table := seq(size, _ => Entry(UNUSED, 0, 0, 0, 0, 0, 0, V4, 0));
      reqs := seq(size, _ => None);
      fired, seqno, lastId := [], 0, 0;
    }

    ghost function D(): Tables
      reads this
    {
      Tables(table, reqs, fired)
    }

    /** dns_create_txid: counts on until an id is not in use; there always is one. */
    method CreateTxid() returns (txid: nat)
      requires |table| <= 255 && lastId < M16
      modifies this`lastId
      ensures Free(table, txid) && txid == lastId < M16
    {
      ghost var start, used, tried, k: nat := lastId, UsedIds(table), {}, 0;
      UsedIdsFew(table);
      while true
        invariant Tried(tried, start, k) && tried <= used && lastId == Later(start, k)
        decreases used - tried
      {
        SubsetSize(tried, used);
        NotTried(tried, start, k);
        CountOn(start, k);
        lastId := (lastId + 1) % M16;
        txid := lastId;
        var clash := Clashes(txid);
        if !clash {
          return;
        }
        UsedIdsAre(table, txid);
        tried := tried + {txid};
        k := k + 1;
      }
    }

    method Clashes(txid: nat) returns (clash: bool)
      ensures clash <==> !Free(table, txid)
      ensures clash ==> exists i :: 0 <= i < |table| && table[i].state == ASKING && table[i].txid == txid
    {
      for i := 0 to |table|
        invariant forall k | 0 <= k < i :: table[k].state == ASKING ==> table[k].txid != txid
      {
        if table[i].state == ASKING && table[i].txid == txid {
          return true;
        }
      }
      clash := false;
    }

    /** dns_call_found */
    method Found(i: nat)
      requires Indexed(D(), i)
      modifies this`reqs, this`fired
      ensures D() == CallFound(old(D()), i)
    {
      if reqs[i].Some? {
        fired := fired + [reqs[i].value];
      }
      reqs := reqs[i := None];
    }

    /** dns_send, without the packet */
    method Send(i: nat)
      requires Indexed(D(), i)
      modifies this`table, this`reqs, this`fired
      ensures D() == Sent(old(D()), servers, i)
    {
      if table[i].serverIdx >= |servers| || !servers[table[i].serverIdx] {
        Found(i);
        table := table[i := table[i].(state := UNUSED)];
      }
    }

    /** dns_check_entry; an entry that is new starts its query under an id not in use. */
    method CheckEntry(i: nat)
      requires Indexed(D(), i) && |table| <= 255 && lastId < M16
      modifies this
      ensures old(table)[i].state != NEW ==> D() == Checked(old(D()), servers, i) && lastId == old(lastId)
      ensures old(table)[i].state == NEW ==> Free(old(table), lastId) && D() == Started(old(D()), servers, i, lastId)
      ensures lastId < M16 && seqno == old(seqno)
    {
      var e := table[i];
      match e.state {
        case NEW =>
          var txid := CreateTxid();
          table := table[i := e.(state := ASKING, txid := txid, serverIdx := 0, tmr := 1, retries := 0)];
          Send(i);
        case ASKING =>
          e := e.(tmr := if e.tmr == 0 then 255 else e.tmr - 1);
          if e.tmr == 0 {
            e := e.(retries := e.retries + 1);
            if e.retries == DNS_MAX_RETRIES {
              if HasNext(servers, e.serverIdx) {
                e := e.(serverIdx := e.serverIdx + 1, tmr := 1, retries := 0);
              } else {
                table := table[i := e];
                Found(i);
                table := table[i := table[i].(state := UNUSED)];
                return;
              }
            } else {
              e := e.(tmr := e.retries);
            }
            table := table[i := e];
            Send(i);
          } else {
            table := table[i := e];
          }
        case DONE =>
          e := if e.ttl == 0 then e else e.(ttl := e.ttl - 1);
          table := table[i := if e.ttl == 0 then e.(state := UNUSED) else e];
        case UNUSED =>
      }
    }

    /** dns_tmr */
    method Timer()
      requires Sound(D(), servers) && |table| <= 255 && lastId < M16
      modifies this
      ensures D() == Apply(old(D()), servers, Tick) && Sound(D(), servers) && |table| == |old(table)|
      ensures lastId == old(lastId) && seqno == old(seqno)
    {
      hide Sound, Checked;
      ghost var d := D();
      Sizes(d, servers);
      for i := 0 to |table|
        invariant Sound(D(), servers) && |table| == |d.table| == |reqs| && lastId == old(lastId) && seqno == old(seqno)
        invariant CheckedFrom(D(), servers, i) == CheckedFrom(d, servers, 0)
      {
        NotNew(D(), servers, i);
        CheckedSound(D(), servers, i);
        CheckEntry(i);
        Sizes(D(), servers);
      }
    }

    /** dns_correct_response */
    method CorrectResponse(i: nat, ttl: nat, addr: nat)
      requires Indexed(D(), i)
      modifies this`table, this`reqs, this`fired
      ensures D() == Answered(old(D()), i, ttl, addr, WantsV6(old(table)[i].addrType))
    {
      var v6 := WantsV6(table[i].addrType);
      table := table[i := table[i].(state := DONE, ipaddr := addr, ttl := ttl)];
      if table[i].ttl > DNS_MAX_TTL {
        table := table[i := table[i].(ttl := DNS_MAX_TTL)];
      }
      table := table[i := table[i].(addrType := if v6 then V6 else V4)];
      Found(i);
      if table[i].ttl == 0 {
        if table[i].state == DONE {
          table := table[i := table[i].(state := UNUSED)];
        }
      }
    }

    /** The query under way with an id: there is at most one. */
    method FindQuery(txid: nat) returns (i: nat)
      requires Sound(D(), servers)
      ensures i <= |table|
      ensures i < |table| ==> table[i].state == ASKING && table[i].txid == txid
      ensures forall k | 0 <= k < |table| && k != i :: table[k].state == ASKING ==> table[k].txid != txid
    {
      i := 0;
      while i < |table|
        invariant 0 <= i <= |table|
        invariant forall k | 0 <= k < i :: table[k].state == ASKING ==> table[k].txid != txid
      {
        if table[i].state == ASKING && table[i].txid == txid {
          return;
        }
        i := i + 1;
      }
    }

    /** dns_recv, for a message with an id of which the checks and the answers make out a verdict.
        It is the event of the one query with that id, and nothing if there is none. */
    method Receive(txid: nat, verdict: Verdict) returns (ghost event: Option<Event>)
      requires Sound(D(), servers) && |table| <= 255 && lastId < M16
      modifies this
      ensures event.None? ==> D() == old(D())
      ensures event.Some? ==> Possible(old(D()), event.value) && D() == Apply(old(D()), servers, event.value)
      ensures event.None? <==> verdict == Ignored || Free(old(table), txid)
      ensures event.Some? ==> Concerns(old(D()), txid, verdict, event.value)
      ensures Sound(D(), servers) && lastId < M16 && seqno == old(seqno)
    {
      var i := FindQuery(txid);
      if i == |table| || verdict == Ignored {
        return None;
      }
      ghost var e := Handle(i, verdict);
      event := Some(e);
    }

    /** What a verdict does to query i. */
    method Handle(i: nat, verdict: Verdict) returns (ghost event: Event)
      requires Sound(D(), servers) && |table| <= 255 && lastId < M16 && verdict != Ignored
      requires i < |table| && table[i].state == ASKING
      modifies this
      ensures Possible(old(D()), event) && D() == Apply(old(D()), servers, event)
      ensures Concerns(old(D()), old(table)[i].txid, verdict, event)
      ensures Sound(D(), servers) && lastId < M16 && seqno == old(seqno)
    {
      AsksWaits(D(), servers, i);
      hide Sound, Answered, Closed, Started, Dual;
      match verdict {
        case Address(ttl, addr) =>
          event := Answer(i, ttl, addr, WantsV6(table[i].addrType));
          EventSound(D(), servers, event);
          CorrectResponse(i, ttl, addr);
        case Error =>
          event := Failure(i);
          EventSound(D(), servers, event);
          Close(i);
        case NoAddress =>
          event := HandleNone(i);
        case Ignored =>
      }
    }

    method HandleNone(i: nat) returns (ghost event: Event)
      requires Sound(D(), servers) && |table| <= 255 && lastId < M16
      requires i < |table| && table[i].state == ASKING
      modifies this
      ensures event.NoAnswer? && event.i == i
      ensures Possible(old(D()), event) && D() == Apply(old(D()), servers, event)
      ensures Sound(D(), servers) && lastId < M16 && seqno == old(seqno)
    {
      AsksWaits(D(), servers, i);
      hide Sound, Closed, Started;
      if Dual(table[i].addrType) {
        event := Restart(i);
      } else {
        event := NoAnswer(i, 0);
        EventSound(D(), servers, event);
        Close(i);
      }
    }

    method Close(i: nat)
      requires Indexed(D(), i)
      modifies this`table, this`reqs, this`fired
      ensures D() == Closed(old(D()), i)
    {
      Found(i);
      table := table[i := table[i].(state := UNUSED)];
    }

    /** The other kind of address is asked for, as a new query. */
    method Restart(i: nat) returns (ghost event: Event)
      requires Sound(D(), servers) && |table| <= 255 && lastId < M16 && i < |table|
      requires table[i].state == ASKING && Dual(table[i].addrType)
      modifies this
      ensures event.NoAnswer? && event.i == i
      ensures Possible(old(D()), event) && D() == Apply(old(D()), servers, event)
      ensures Sound(D(), servers) && lastId < M16 && seqno == old(seqno)
    {
      AsksWaits(D(), servers, i);
      ghost var d := D();
      table := table[i := table[i].(addrType := Fallback(table[i].addrType), state := NEW)];
      ghost var before := table;
      CheckEntry(i);
      event := NoAnswer(i, lastId);
      FreeElsewhere(d.table, before, i, lastId);
      hide Sound, Started;
      EventSound(d, servers, event);
    }

    /** dns_enqueue: the first unused entry, or else the completed one that is oldest, gets the
        request. It is refused exactly if there is no unused entry and each completed one was
        enqueued a multiple of 256 requests ago. */
    method Enqueue(req: Request, addrType: AddrType) returns (ok: bool, ghost event: Option<Event>)
      requires Sound(D(), servers) && |table| <= 255 && lastId < M16 && seqno < 256
      modifies this
      ensures ok <==> exists k :: 0 <= k < |old(table)| && Takes(old(table)[k], old(seqno))
      ensures !ok ==> D() == old(D()) && seqno == old(seqno)
      ensures ok ==> event.Some? && event.value.Enqueue? && event.value.req == req && event.value.addrType == addrType
      ensures ok ==> Possible(old(D()), event.value) && D() == Apply(old(D()), servers, event.value)
      ensures ok ==> Chosen(old(table), event.value.i, old(seqno)) && seqno == (old(seqno) + 1) % 256
      ensures Sound(D(), servers) && lastId < M16 && seqno < 256
    {
      var i := FindEntry();
      if i == |table| {
        return false, None;
      }
      ghost var d := D();
      Sizes(d, servers);
      table := table[i := table[i].(state := NEW, seqno := seqno, addrType := addrType)];
      reqs := reqs[i := Some(req)];
      ghost var before := table;
      seqno := (seqno + 1) % 256;
      CheckEntry(i);
      event := Some(Event.Enqueue(i, req, addrType, old(seqno), lastId));
      FreeElsewhere(d.table, before, i, lastId);
      hide Sound, Started;
      EventSound(d, servers, event.value);
      ok := true;
    }

    /** The search of dns_enqueue */
    method FindEntry() returns (i: nat)
      requires |table| <= 255
      ensures i <= |table| && (i < |table| ==> Chosen(table, i, seqno))
      ensures i == |table| ==> forall k | 0 <= k < |table| :: !Takes(table[k], seqno)
    {
      var lseq: nat, lseqi: nat := 0, |table|;
      i := 0;
      while i < |table|
        invariant i <= |table| && forall k | 0 <= k < i :: table[k].state != UNUSED
        invariant lseqi == |table| ==> lseq == 0
        invariant lseqi < |table| ==> lseqi < i && table[lseqi].state == DONE && lseq == Age(seqno, table[lseqi]) > 0
        invariant lseqi <= |table| && forall k | 0 <= k < i :: table[k].state == DONE ==> Age(seqno, table[k]) <= lseq
      {
        if table[i].state == UNUSED {
          return;
        }
        if table[i].state == DONE {
          var age := Age(seqno, table[i]);
          if age > lseq {
            lseq, lseqi := age, i;
          }
        }
        i := i + 1;
      }
      i := lseqi;
    }
  }

  /** An entry that a request may take. */
  ghost predicate Takes(e: Entry, seqno: nat) {
    e.state == UNUSED || (e.state == DONE && Age(seqno, e) > 0)
  }

  /** The first unused entry; if there is none, a completed one of the greatest age. */
  ghost predicate Chosen(table: seq<Entry>, i: nat, seqno: nat) {
    && i < |table| && Takes(table[i], seqno)
    && (table[i].state == UNUSED ==> forall k | 0 <= k < i :: table[k].state != UNUSED)
    && (table[i].state == DONE ==>
          && (forall k | 0 <= k < |table| :: table[k].state != UNUSED)
          && forall k | 0 <= k < |table| :: table[k].state == DONE ==> Age(seqno, table[k]) <= Age(seqno, table[i]))
  }

  lemma {:induction false} FreeElsewhere(table: seq<Entry>, before: seq<Entry>, i: nat, txid: nat)
    requires i < |table| == |before| && (forall j | 0 <= j < |table| && j != i :: before[j] == table[j])
    requires Free(before, txid)
    ensures FreeBut(table, i, txid)
  {
  }

  /** A table may hold a completed entry and still refuse a request: after 256 requests to the
      other entry, the completed one looks as if it were new. */
  lemma {:induction false} CompletedButRefused(servers: Servers, req: Request) returns (d: Tables, seqno: nat)
    requires Configured(servers, 0)
    ensures Sound(d, servers) && seqno < 256 && |d.table| == 2 && d.table[0].state == DONE
    ensures forall k | 0 <= k < |d.table| :: !Takes(d.table[k], seqno)
  {
    d := Tables([Entry(DONE, 0, 0, 0, 0, 8, 100, V4, 0), Entry(ASKING, 1, 0, 1, 0, 7, 0, V4, 0)], [None, Some(req)], []);
    seqno := (8 + 256) % 256;
  }

  datatype Verdict = Ignored | Error | Address(ttl: nat, addr: nat) | NoAddress

  /** LWIP_DNS_ADDRTYPE_IS_IPV6 */
  predicate WantsV6(t: AddrType) {
    t == V6 || t == V6ThenV4
  }

  /** The event is for the query with the id, and of the kind of the verdict. */
  ghost predicate Concerns(d: Tables, txid: nat, verdict: Verdict, e: Event) {
    match verdict
    case Ignored => false
    case Error => e.Failure? && Has(d, e.i, txid)
    case Address(ttl, addr) => e.Answer? && Has(d, e.i, txid) && e.ttl == ttl && e.addr == addr
    case NoAddress => e.NoAnswer? && Has(d, e.i, txid)
  }

  ghost predicate Has(d: Tables, i: nat, txid: nat) {
    i < |d.table| && d.table[i].state == ASKING && d.table[i].txid == txid
  }

  lemma {:induction false} NotNew(d: Tables, servers: Servers, i: nat)
    requires Sound(d, servers) && i < |d.table|
    ensures d.table[i].state != NEW && Indexed(d, i)
  {
    assert EntryOk(d.table[i], servers);
  }

  lemma {:induction false} CountOn(start: nat, k: nat)
    ensures (Later(start, k) + 1) % M16 == Later(start, k + 1)
  {
  }
}
