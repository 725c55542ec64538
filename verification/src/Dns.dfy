/**
 The table of DNS queries of dns.c, without the options for random source ports and for
 merging requests, and with callbacks that do not call back into the resolver. Which packets
 answer a query is not modelled; what the answers do to the table is.
 */
module Dns {
  import opened Common

  const DNS_MAX_RETRIES: nat := 4
  const DNS_MAX_TTL: nat := 604800

  datatype State = UNUSED | NEW | ASKING | DONE

  /** Which kinds of address a request is for; with two, the second is the fallback. */
  datatype AddrType = V4 | V6 | V4ThenV6 | V6ThenV4

  datatype Entry = Entry(state: State, txid: nat, serverIdx: nat, tmr: nat, retries: nat, seqno: nat, ttl: nat,
                         addrType: AddrType, ipaddr: nat)

  type Request = nat

  /** Servers that are configured; the others are set to the any address. */
  type Servers = seq<bool>

  /** dns_table, the callbacks waiting in dns_requests, and those called so far. */
  datatype Tables = Tables(table: seq<Entry>, reqs: seq<Option<Request>>, fired: seq<Request>)

  predicate Indexed(d: Tables, i: nat) {
    i < |d.table| == |d.reqs|
  }

  // ---------------------------------------------------------------------
  // Steps

  function Put(d: Tables, i: nat, e: Entry): Tables
    requires Indexed(d, i)
  {
    d.(table := d.table[i := e])
  }

  /** dns_call_found */
  function CallFound(d: Tables, i: nat): Tables
    requires Indexed(d, i)
  {
    Tables(d.table, d.reqs[i := None], if d.reqs[i].Some? then d.fired + [d.reqs[i].value] else d.fired)
  }

  /** The callback is called and the entry is free again. */
  function Closed(d: Tables, i: nat): Tables
    requires Indexed(d, i)
  {
    Put(CallFound(d, i), i, d.table[i].(state := UNUSED))
  }

  /** dns_send, as far as the table goes. */
  function Sent(d: Tables, servers: Servers, i: nat): Tables
    requires Indexed(d, i)
  {
    if d.table[i].serverIdx < |servers| && servers[d.table[i].serverIdx] then d else Closed(d, i)
  }

  /** A new query goes out under a transaction id. */
  function Started(d: Tables, servers: Servers, i: nat, txid: nat): Tables
    requires Indexed(d, i)
  {
    Sent(Put(d, i, d.table[i].(state := ASKING, txid := txid, serverIdx := 0, tmr := 1, retries := 0)), servers, i)
  }

  /** There is another server to ask. */
  predicate HasNext(servers: Servers, idx: nat) {
    idx + 1 < |servers| && servers[idx + 1]
  }

  /** dns_check_entry for an entry that is not new. */
  function Checked(d: Tables, servers: Servers, i: nat): Tables
    requires Indexed(d, i)
  {
    var e := d.table[i];
    match e.state
    case ASKING =>
      if e.tmr != 1 then Put(d, i, e.(tmr := if e.tmr == 0 then 255 else e.tmr - 1))
      else if e.retries + 1 == DNS_MAX_RETRIES then
        if HasNext(servers, e.serverIdx)
        then Sent(Put(d, i, e.(serverIdx := e.serverIdx + 1, tmr := 1, retries := 0)), servers, i)
        else Closed(Put(d, i, e.(tmr := 0, retries := e.retries + 1)), i)
      else Sent(Put(d, i, e.(tmr := e.retries + 1, retries := e.retries + 1)), servers, i)
    case DONE =>
      if e.ttl <= 1 then Put(d, i, e.(state := UNUSED, ttl := 0)) else Put(d, i, e.(ttl := e.ttl - 1))
    case _ => d
  }

  /** dns_check_entries from entry i on */
  function CheckedFrom(d: Tables, servers: Servers, i: nat): Tables
    requires |d.table| == |d.reqs| && i <= |d.table|
    decreases |d.table| - i
  {
    if i == |d.table| then d else CheckedFrom(Checked(d, servers, i), servers, i + 1)
  }

  /** dns_correct_response */
  function Answered(d: Tables, i: nat, ttl: nat, addr: nat, v6: bool): Tables
    requires Indexed(d, i)
  {
    var kept := Min(ttl, DNS_MAX_TTL);
    var e := d.table[i].(state := if kept == 0 then UNUSED else DONE, ttl := kept, ipaddr := addr,
                         addrType := if v6 then V6 else V4);
    Put(CallFound(d, i), i, e)
  }

  predicate Dual(t: AddrType) {
    t == V4ThenV6 || t == V6ThenV4
  }

  function Fallback(t: AddrType): AddrType {
    if t == V4ThenV6 then V6 else V4
  }

  /** A reply without an address of the right kind: the other kind is tried, if there is one. */
  function Unanswered(d: Tables, servers: Servers, i: nat, txid: nat): Tables
    requires Indexed(d, i)
  {
    var e := d.table[i];
    if Dual(e.addrType) then Started(Put(d, i, e.(addrType := Fallback(e.addrType), state := NEW)), servers, i, txid)
    else Closed(d, i)
  }

  /** The part of dns_enqueue that fills entry i and sends its query. */
  function Enqueued(d: Tables, servers: Servers, i: nat, req: Request, addrType: AddrType, seqno: nat, txid: nat): Tables
    requires Indexed(d, i)
  {
    var e := d.table[i].(state := NEW, seqno := seqno, addrType := addrType);
    Started(Put(d.(reqs := d.reqs[i := Some(req)]), i, e), servers, i, txid)
  }

  // ---------------------------------------------------------------------
  // Invariants

  ghost predicate Free(table: seq<Entry>, txid: nat) {
    forall i | 0 <= i < |table| :: table[i].state == ASKING ==> table[i].txid != txid
  }

  /** No other query than that of entry i has the id. */
  ghost predicate FreeBut(table: seq<Entry>, i: nat, txid: nat) {
    forall j | 0 <= j < |table| && j != i :: table[j].state == ASKING ==> table[j].txid != txid
  }

  /** No two queries under way have the same transaction id. */
  ghost predicate DistinctIds(table: seq<Entry>) {
    forall i, j | 0 <= i < |table| && 0 <= j < |table| && i != j ::
      table[i].state == ASKING && table[j].state == ASKING ==> table[i].txid != table[j].txid
  }

  /** The servers up to and including idx are configured. */
  ghost predicate Configured(servers: Servers, idx: nat) {
    idx < |servers| && forall k | 0 <= k <= idx :: servers[k]
  }

  /** A query under way asks a configured server and waits for as many ticks as it was sent
      again, or one. */
  ghost predicate EntryOk(e: Entry, servers: Servers) {
    && e.state != NEW
    && (e.state == ASKING ==>
          Configured(servers, e.serverIdx) && e.retries < DNS_MAX_RETRIES
          && 1 <= e.tmr <= (if e.retries == 0 then 1 else e.retries))
  }

  /** A callback is waiting exactly where a query is under way. */
  ghost predicate Sound(d: Tables, servers: Servers) {
    && |d.table| == |d.reqs|
    && (forall i | 0 <= i < |d.table| :: EntryOk(d.table[i], servers))
    && (forall i | 0 <= i < |d.table| :: d.reqs[i].Some? <==> d.table[i].state == ASKING)
    && DistinctIds(d.table)
  }

  /** The requests that wait for their callback. */
  function Waiting(reqs: seq<Option<Request>>): multiset<Request> {
    if reqs == [] then multiset{}
    else Waiting(reqs[1..]) + One(reqs[0])
  }

  /** Requests whose callback was called, once each, and those that wait for it. */
  function Accounted(d: Tables): multiset<Request> {
    multiset(d.fired) + Waiting(d.reqs)
  }

  function One(r: Option<Request>): multiset<Request> {
    if r.Some? then multiset{r.value} else multiset{}
  }

  lemma {:induction false} WaitingPut(reqs: seq<Option<Request>>, i: nat, r: Option<Request>)
    requires i < |reqs|
    ensures Waiting(reqs[i := r]) + One(reqs[i]) == Waiting(reqs) + One(r)
  {
    hide One;
    if i > 0 {
      WaitingPut(reqs[1..], i - 1, r);
      assert reqs[i := r][1..] == reqs[1..][i - 1 := r];
      Regroup(Waiting(reqs[1..][i - 1 := r]), One(reqs[i]), Waiting(reqs[1..]), One(r), One(reqs[0]));
    } else {
      assert reqs[i := r][1..] == reqs[1..];
    }
  }

  lemma {:induction false} Regroup(a: multiset<Request>, b: multiset<Request>, c: multiset<Request>, e: multiset<Request>, h: multiset<Request>)
    requires a + b == c + e
    ensures (a + h) + b == (c + h) + e
  {
    assert (a + h) + b == (a + b) + h && (c + h) + e == (c + e) + h;
  }

  // ---------------------------------------------------------------------
  // Every callback exactly once

  /** Calling a callback moves it from waiting to called. */
  lemma {:induction false} CallFoundAccounts(d: Tables, i: nat)
    requires Indexed(d, i)
    ensures Accounted(CallFound(d, i)) == Accounted(d)
  {
    WaitingPut(d.reqs, i, None);
    hide Waiting;
    if d.reqs[i].Some? {
      Moved(d.fired, d.reqs[i].value, Waiting(d.reqs[i := None]), Waiting(d.reqs));
    } else {
      assert Waiting(d.reqs) + multiset{} == Waiting(d.reqs);
      assert Waiting(d.reqs[i := None]) + multiset{} == Waiting(d.reqs[i := None]);
    }
  }

  /** One more called, and one fewer waiting. */
  lemma {:induction false} Moved(fired: seq<Request>, x: Request, after: multiset<Request>, before: multiset<Request>)
    requires after + multiset{x} == before + multiset{}
    ensures multiset(fired + [x]) + after == multiset(fired) + before
  {
    assert multiset(fired + [x]) == multiset(fired) + multiset{x};
    assert (multiset(fired) + multiset{x}) + after == multiset(fired) + (after + multiset{x});
    assert before + multiset{} == before;
  }

  lemma {:induction false} SentAccounts(d: Tables, servers: Servers, i: nat)
    requires Indexed(d, i)
    ensures Accounted(Sent(d, servers, i)) == Accounted(d) && Accounted(Closed(d, i)) == Accounted(d)
  {
    CallFoundAccounts(d, i);
  }

  lemma {:induction false} CheckedAccounts(d: Tables, servers: Servers, i: nat)
    requires Indexed(d, i)
    ensures Accounted(Checked(d, servers, i)) == Accounted(d)
  {
    hide Sent, Closed;
    var e := d.table[i];
    SentAccounts(Put(d, i, e.(serverIdx := e.serverIdx + 1, tmr := 1, retries := 0)), servers, i);
    SentAccounts(Put(d, i, e.(tmr := 0, retries := e.retries + 1)), servers, i);
    SentAccounts(Put(d, i, e.(tmr := e.retries + 1, retries := e.retries + 1)), servers, i);
  }

  lemma {:induction false} StartedAccounts(d: Tables, servers: Servers, i: nat, txid: nat)
    requires Indexed(d, i)
    ensures Accounted(Started(d, servers, i, txid)) == Accounted(d)
  {
    hide Sent;
    SentAccounts(Put(d, i, d.table[i].(state := ASKING, txid := txid, serverIdx := 0, tmr := 1, retries := 0)), servers, i);
  }

  /** A request that is accepted waits for its callback, unless it is called at once. */
  lemma {:induction false} EnqueuedAccounts(d: Tables, servers: Servers, i: nat, req: Request, addrType: AddrType, seqno: nat, txid: nat)
    requires Indexed(d, i) && d.reqs[i].None?
    ensures Accounted(Enqueued(d, servers, i, req, addrType, seqno, txid)) == Accounted(d) + multiset{req}
  {
    hide Started;
    WaitingPut(d.reqs, i, Some(req));
    assert multiset(d.fired) + (Waiting(d.reqs) + multiset{req}) == (multiset(d.fired) + Waiting(d.reqs)) + multiset{req};
    var e := d.table[i].(state := NEW, seqno := seqno, addrType := addrType);
    StartedAccounts(Put(d.(reqs := d.reqs[i := Some(req)]), i, e), servers, i, txid);
  }

  // ---------------------------------------------------------------------
  // The steps keep the table sound

  /** The table at entry i, with its callback waiting or not, and free of clashes of ids. */
  ghost predicate SoundAt(d: Tables, servers: Servers, i: nat)
    requires Indexed(d, i)
  {
    && EntryOk(d.table[i], servers)
    && (d.reqs[i].Some? <==> d.table[i].state == ASKING)
    && (d.table[i].state == ASKING ==>
          forall j | 0 <= j < |d.table| && j != i :: d.table[j].state == ASKING ==> d.table[j].txid != d.table[i].txid)
  }

  /** Only entry i may be different. */
  ghost predicate OnlyAt(d: Tables, after: Tables, i: nat) {
    && |after.table| == |d.table| && |after.reqs| == |d.reqs|
    && forall j | 0 <= j < |d.table| && j != i && j < |d.reqs| :: after.table[j] == d.table[j] && after.reqs[j] == d.reqs[j]
  }

  lemma {:induction false} SoundElsewhere(d: Tables, after: Tables, servers: Servers, i: nat)
    requires Sound(d, servers) && Indexed(d, i) && OnlyAt(d, after, i) && SoundAt(after, servers, i)
    ensures Sound(after, servers)
  {
    forall j, k | 0 <= j < |after.table| && 0 <= k < |after.table| && j != k && after.table[j].state == ASKING
                  && after.table[k].state == ASKING
      ensures after.table[j].txid != after.table[k].txid
    {
      if j != i && k != i { assert d.table[j] == after.table[j] && d.table[k] == after.table[k]; }
    }
    forall j | 0 <= j < |after.table| ensures EntryOk(after.table[j], servers) {
      if j != i { assert after.table[j] == d.table[j]; }
    }
  }

  lemma {:induction false} CheckedSound(d: Tables, servers: Servers, i: nat)
    requires Sound(d, servers) && Indexed(d, i)
    ensures Sound(Checked(d, servers, i), servers) && OnlyAt(d, Checked(d, servers, i), i)
  {
    var after := Checked(d, servers, i);
    assert EntryOk(d.table[i], servers);
    assert SoundAt(d, servers, i);
    SoundElsewhere(d, after, servers, i);
  }

  /** A query may start where none is under way, or in place of the one there. */
  lemma {:induction false} StartedSound(d: Tables, before: Tables, servers: Servers, i: nat, txid: nat)
    requires Sound(d, servers) && Indexed(d, i) && Indexed(before, i) && OnlyAt(d, before, i)
    requires before.reqs[i].Some? && FreeBut(d.table, i, txid)
    ensures Sound(Started(before, servers, i, txid), servers) && OnlyAt(d, Started(before, servers, i, txid), i)
  {
    var after := Started(before, servers, i, txid);
    forall j | 0 <= j < |after.table| && j != i && after.table[j].state == ASKING ensures after.table[j].txid != txid {
      assert after.table[j] == d.table[j];
    }
    SoundElsewhere(d, after, servers, i);
  }

  lemma {:induction false} AnsweredSound(d: Tables, servers: Servers, i: nat, ttl: nat, addr: nat, v6: bool)
    requires Sound(d, servers) && Indexed(d, i)
    ensures Sound(Answered(d, i, ttl, addr, v6), servers) && Sound(Closed(d, i), servers)
  {
    SoundElsewhere(d, Answered(d, i, ttl, addr, v6), servers, i);
    ClosedSound(d, servers, i);
  }

  lemma {:induction false} ClosedSound(d: Tables, servers: Servers, i: nat)
    requires Sound(d, servers) && Indexed(d, i)
    ensures Sound(Closed(d, i), servers)
  {
    SoundElsewhere(d, Closed(d, i), servers, i);
  }

  // ---------------------------------------------------------------------
  // Runs

  datatype Event =
    | Enqueue(i: nat, req: Request, addrType: AddrType, seqno: nat, txid: nat)
    | Tick
    | Answer(i: nat, ttl: nat, addr: nat, v6: bool)
    | Failure(i: nat)
    | NoAnswer(i: nat, txid: nat)

  /** Replies are to queries under way; a request goes to an entry that is not in use, or done;
      new transaction ids are not those of another query under way. */
  ghost predicate Possible(d: Tables, e: Event) {
    match e
    case Enqueue(i, _, _, _, txid) =>
      Indexed(d, i) && (d.table[i].state == UNUSED || d.table[i].state == DONE) && FreeBut(d.table, i, txid)
    case Tick => |d.table| == |d.reqs|
    case Answer(i, _, _, _) => Indexed(d, i) && d.table[i].state == ASKING
    case Failure(i) => Indexed(d, i) && d.table[i].state == ASKING
    case NoAnswer(i, txid) =>
      Indexed(d, i) && d.table[i].state == ASKING && (Dual(d.table[i].addrType) ==> FreeBut(d.table, i, txid))
  }

  ghost function Apply(d: Tables, servers: Servers, e: Event): Tables
    requires Possible(d, e)
  {
    match e
    case Enqueue(i, req, addrType, seqno, txid) => Enqueued(d, servers, i, req, addrType, seqno, txid)
    case Tick => CheckedFrom(d, servers, 0)
    case Answer(i, ttl, addr, v6) => Answered(d, i, ttl, addr, v6)
    case Failure(i) => Closed(d, i)
    case NoAnswer(i, txid) => Unanswered(d, servers, i, txid)
  }

  function Submitted(e: Event): multiset<Request> {
    if e.Enqueue? then multiset{e.req} else multiset{}
  }

  lemma {:induction false} TickKeeps(d: Tables, servers: Servers, i: nat)
    requires Sound(d, servers) && i <= |d.table|
    ensures Sound(CheckedFrom(d, servers, i), servers) && Accounted(CheckedFrom(d, servers, i)) == Accounted(d)
    decreases |d.table| - i
  {
    if i < |d.table| {
      hide Sound, Accounted, Checked;
      Sizes(d, servers);
      CheckedSound(d, servers, i);
      CheckedAccounts(d, servers, i);
      TickKeeps(Checked(d, servers, i), servers, i + 1);
    }
  }

  lemma {:induction false} Sizes(d: Tables, servers: Servers)
    requires Sound(d, servers)
    ensures |d.table| == |d.reqs|
  {
  }

  lemma {:induction false} EventKeeps(d: Tables, servers: Servers, e: Event)
    requires Sound(d, servers) && Possible(d, e)
    ensures Sound(Apply(d, servers, e), servers)
    ensures Accounted(Apply(d, servers, e)) == Accounted(d) + Submitted(e)
  {
    hide Sound, Started, CheckedFrom, Accounted, Unanswered, Closed, Answered, Enqueued;
    match e
    case Enqueue(i, req, addrType, seqno, txid) => EnqueuedKeeps(d, servers, i, req, addrType, seqno, txid);
    case Tick => TickKeeps(d, servers, 0);
    case Answer(i, ttl, addr, v6) => AnsweredKeeps(d, servers, i, ttl, addr, v6);
    case Failure(i) => SentAccounts(d, servers, i); ClosedSound(d, servers, i);
    case NoAnswer(i, txid) => UnansweredKeeps(d, servers, i, txid);
    hide Apply;
    assert Accounted(d) + multiset{} == Accounted(d);
  }

  lemma {:induction false} EnqueuedKeeps(d: Tables, servers: Servers, i: nat, req: Request, addrType: AddrType, seqno: nat, txid: nat)
    requires Sound(d, servers) && Possible(d, Enqueue(i, req, addrType, seqno, txid))
    ensures d.reqs[i].None? && Sound(Enqueued(d, servers, i, req, addrType, seqno, txid), servers)
    ensures Accounted(Enqueued(d, servers, i, req, addrType, seqno, txid)) == Accounted(d) + multiset{req}
  {
    EnqueuedAccounts(d, servers, i, req, addrType, seqno, txid);
    var before := Put(d.(reqs := d.reqs[i := Some(req)]), i, d.table[i].(state := NEW, seqno := seqno, addrType := addrType));
    hide Sound, Started, Accounted;
    StartedSound(d, before, servers, i, txid);
  }

  lemma {:induction false} AnsweredKeeps(d: Tables, servers: Servers, i: nat, ttl: nat, addr: nat, v6: bool)
    requires Sound(d, servers) && Indexed(d, i)
    ensures Sound(Answered(d, i, ttl, addr, v6), servers) && Accounted(Answered(d, i, ttl, addr, v6)) == Accounted(d)
  {
    hide Sound, Waiting, CallFound;
    CallFoundAccounts(d, i);
    AnsweredSound(d, servers, i, ttl, addr, v6);
  }

  lemma {:induction false} EventSound(d: Tables, servers: Servers, e: Event)
    requires Sound(d, servers) && Possible(d, e)
    ensures Sound(Apply(d, servers, e), servers)
  {
    hide *;
    EventKeeps(d, servers, e);
  }

  lemma {:induction false} UnansweredKeeps(d: Tables, servers: Servers, i: nat, txid: nat)
    requires Sound(d, servers) && Indexed(d, i) && d.table[i].state == ASKING
    requires Dual(d.table[i].addrType) ==> FreeBut(d.table, i, txid)
    ensures Sound(Unanswered(d, servers, i, txid), servers)
    ensures Accounted(Unanswered(d, servers, i, txid)) == Accounted(d)
  {
    var e := d.table[i];
    var before := Put(d, i, e.(addrType := Fallback(e.addrType), state := NEW));
    assert d.reqs[i].Some?;
    hide Sound, Started, Closed;
    if Dual(e.addrType) {
      StartedSound(d, before, servers, i, txid);
      StartedAccounts(before, servers, i, txid);
    } else {
      SentAccounts(d, servers, i);
      ClosedSound(d, servers, i);
    }
  }
}
