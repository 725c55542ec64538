/**
 What holds over whole runs of the resolver: every callback is called once, queries that get
 no reply end after a fixed number of ticks, and the fallback address type is tried once.
 */
module DnsRuns {
  import opened Common
  import opened Dns

  // ---------------------------------------------------------------------
  // Callbacks and transaction ids

  ghost predicate PossibleRun(d: Tables, servers: Servers, run: seq<Event>)
    decreases |run|
  {
    run == [] || (Possible(d, run[0]) && PossibleRun(Apply(d, servers, run[0]), servers, run[1..]))
  }

  ghost function Run(d: Tables, servers: Servers, run: seq<Event>): Tables
    requires PossibleRun(d, servers, run)
    decreases |run|
  {
    if run == [] then d else Run(Apply(d, servers, run[0]), servers, run[1..])
  }

  function AllSubmitted(run: seq<Event>): multiset<Request> {
    if run == [] then multiset{} else Submitted(run[0]) + AllSubmitted(run[1..])
  }

  lemma {:induction false} RunKeeps(d: Tables, servers: Servers, run: seq<Event>)
    requires Sound(d, servers) && PossibleRun(d, servers, run)
    ensures Sound(Run(d, servers, run), servers)
    ensures Accounted(Run(d, servers, run)) == Accounted(d) + AllSubmitted(run)
    decreases |run|
  {
    if run != [] {
      hide Sound, Apply, Accounted, Possible;
      EventKeeps(d, servers, run[0]);
      RunKeeps(Apply(d, servers, run[0]), servers, run[1..]);
      Shift(Accounted(d), Submitted(run[0]), AllSubmitted(run[1..]));
    }
  }

  lemma {:induction false} Shift(a: multiset<Request>, b: multiset<Request>, c: multiset<Request>)
    ensures (a + b) + c == a + (b + c)
  {
  }

  /** Nothing asked and nothing called yet. */
  ghost predicate Fresh(d: Tables) {
    && |d.table| == |d.reqs| && d.fired == []
    && (forall i | 0 <= i < |d.table| :: d.table[i].state == UNUSED)
    && (forall i | 0 <= i < |d.reqs| :: d.reqs[i].None?)
  }

  lemma {:induction false} NobodyWaits(reqs: seq<Option<Request>>)
    requires forall i | 0 <= i < |reqs| :: reqs[i].None?
    ensures Waiting(reqs) == multiset{}
  {
    if reqs != [] { NobodyWaits(reqs[1..]); }
  }

  /** In every run, queries under way have different transaction ids, and the callbacks called
      together with those of the queries under way are just those submitted. */
  lemma {:induction false} CallbacksOnce(d: Tables, servers: Servers, run: seq<Event>)
    requires Fresh(d) && PossibleRun(d, servers, run)
    ensures var after := Run(d, servers, run);
            && DistinctIds(after.table)
            && multiset(after.fired) + Waiting(after.reqs) == AllSubmitted(run)
            && forall i | 0 <= i < |after.table| && i < |after.reqs| ::
                 after.reqs[i].Some? <==> after.table[i].state == ASKING
  {
    NobodyWaits(d.reqs);
    RunKeeps(d, servers, run);
  }

  // ---------------------------------------------------------------------
  // Timeouts

  /** What a tick makes of an entry. */
  function Ticked(e: Entry, servers: Servers): Entry {
    match e.state
    case ASKING =>
      if e.tmr != 1 then e.(tmr := if e.tmr == 0 then 255 else e.tmr - 1)
      else if e.retries + 1 == DNS_MAX_RETRIES then
        if HasNext(servers, e.serverIdx) then e.(serverIdx := e.serverIdx + 1, tmr := 1, retries := 0)
        else e.(tmr := 0, retries := e.retries + 1, state := UNUSED)
      else e.(tmr := e.retries + 1, retries := e.retries + 1)
    case DONE => if e.ttl <= 1 then e.(state := UNUSED, ttl := 0) else e.(ttl := e.ttl - 1)
    case _ => e
  }

  lemma {:induction false} CheckedIsTicked(d: Tables, servers: Servers, i: nat)
    requires Sound(d, servers) && Indexed(d, i)
    ensures var after := Checked(d, servers, i);
            && Indexed(after, i) && after.table[i] == Ticked(d.table[i], servers)
            && (d.table[i].state == ASKING && after.table[i].state != ASKING ==> after.fired == d.fired + [d.reqs[i].value])
            && d.fired <= after.fired
  {
    assert EntryOk(d.table[i], servers);
  }

  /** A tick does that to every entry. */
  lemma {:induction false} TickTicks(d: Tables, servers: Servers, i: nat, j: nat)
    requires Sound(d, servers) && i <= |d.table| && j < |d.table|
    ensures var after := CheckedFrom(d, servers, i);
            && |after.table| == |d.table| == |after.reqs| && d.fired <= after.fired
            && after.table[j] == (if i <= j then Ticked(d.table[j], servers) else d.table[j])
            && (i <= j && d.table[j].state == ASKING && after.table[j].state != ASKING ==> d.reqs[j].value in after.fired)
    decreases |d.table| - i
  {
    if i < |d.table| {
      hide Sound, Checked, Ticked;
      Sizes(d, servers);
      var next := Checked(d, servers, i);
      CheckedSound(d, servers, i);
      CheckedIsTicked(d, servers, i);
      TickTicks(next, servers, i + 1, j);
      var after := CheckedFrom(next, servers, i + 1);
      assert CheckedFrom(d, servers, i) == after;
      if j == i && d.table[j].state == ASKING && after.table[j].state != ASKING {
        AsksWaits(d, servers, j);
        assert d.reqs[j].value in next.fired;
        InPrefix(next.fired, after.fired, d.reqs[j].value);
      }
    }
  }

  lemma {:induction false} InPrefix(a: seq<Request>, b: seq<Request>, x: Request)
    requires a <= b && x in a
    ensures x in b
  {
  }

  lemma {:induction false} AsksWaits(d: Tables, servers: Servers, i: nat)
    requires Sound(d, servers) && i < |d.table| && d.table[i].state == ASKING
    ensures i < |d.reqs| && d.reqs[i].Some? && EntryOk(d.table[i], servers)
  {
  }

  /** How many more servers there are to ask after idx. */
  function More(servers: Servers, idx: nat): nat
    decreases |servers| - idx
  {
    if HasNext(servers, idx) then 1 + More(servers, idx + 1) else 0
  }

  /** How many ticks a query goes on without a reply. */
  function TicksLeft(e: Entry, servers: Servers): nat
    requires e.retries < DNS_MAX_RETRIES
  {
    e.tmr + [6, 5, 3, 0][e.retries] + 7 * More(servers, e.serverIdx)
  }

  /** Each tick is one less, and with the last the query ends. */
  lemma {:induction false} TickedCounts(e: Entry, servers: Servers)
    requires EntryOk(e, servers) && e.state == ASKING
    ensures TicksLeft(e, servers) >= 1
    ensures TicksLeft(e, servers) == 1 ==> Ticked(e, servers).state == UNUSED
    ensures TicksLeft(e, servers) > 1 ==>
              var e' := Ticked(e, servers);
              e'.state == ASKING && e'.retries < DNS_MAX_RETRIES && TicksLeft(e', servers) == TicksLeft(e, servers) - 1
  {
  }

  /** A query under way keeps its callback. */
  lemma {:induction false} SameRequest(d: Tables, servers: Servers, i: nat, j: nat)
    requires Sound(d, servers) && i <= |d.table| && j < |d.table|
    ensures var after := CheckedFrom(d, servers, i);
            j < |after.reqs| && j < |d.reqs| && j < |after.table| && (after.reqs[j].Some? ==> after.reqs[j] == d.reqs[j])
            && (after.table[j].state == ASKING ==> after.reqs[j].Some?)
    decreases |d.table| - i
  {
    hide Ticked, Accounted;
    TickKeeps(d, servers, i);
    TickTicks(d, servers, i, j);
    if i < |d.table| {
      var next := Checked(d, servers, i);
      CheckedSound(d, servers, i);
      assert |d.reqs| == |d.table| == |next.reqs| == |next.table| && (next.reqs[j].Some? ==> next.reqs[j] == d.reqs[j]);
      hide Sound, Checked;
      SameRequest(next, servers, i + 1, j);
    }
  }

  /** No request and no reply is for entry i. */
  ghost predicate Quiet(run: seq<Event>, i: nat) {
    forall e | e in run :: !e.Tick? ==> e.i != i
  }

  function TickCount(run: seq<Event>): nat {
    if run == [] then 0 else (if run[0].Tick? then 1 else 0) + TickCount(run[1..])
  }

  /** What is for other entries leaves entry i alone. */
  lemma {:induction false} ElsewhereKeeps(d: Tables, servers: Servers, e: Event, i: nat)
    requires Sound(d, servers) && Possible(d, e) && !e.Tick? && e.i != i && i < |d.table|
    ensures var after := Apply(d, servers, e);
            && i < |after.table| && i < |after.reqs| && i < |d.reqs| && d.fired <= after.fired
            && after.table[i] == d.table[i] && after.reqs[i] == d.reqs[i]
  {
  }

  /** A tick on a query under way. */
  lemma {:induction false} TickOn(d: Tables, servers: Servers, i: nat)
    requires Sound(d, servers) && i < |d.table| && d.table[i].state == ASKING && d.table[i].retries < DNS_MAX_RETRIES
    ensures var left, after := TicksLeft(d.table[i], servers), CheckedFrom(d, servers, 0);
            && left >= 1 && i < |after.table| && i < |after.reqs| && i < |d.reqs| && d.reqs[i].Some?
            && (left > 1 ==> after.table[i].state == ASKING && after.table[i].retries < DNS_MAX_RETRIES
                             && TicksLeft(after.table[i], servers) == left - 1 && after.reqs[i] == d.reqs[i])
            && (left == 1 ==> after.table[i].state == UNUSED && d.reqs[i].value in after.fired)
  {
    hide Sound, TicksLeft, Ticked, CheckedFrom;
    AsksWaits(d, servers, i);
    TickedCounts(d.table[i], servers);
    TickTicks(d, servers, 0, i);
    SameRequest(d, servers, 0, i);
  }

  /** A tick on an entry that is not in use. */
  lemma {:induction false} TickOff(d: Tables, servers: Servers, i: nat)
    requires Sound(d, servers) && i < |d.table| && d.table[i].state == UNUSED
    ensures var after := CheckedFrom(d, servers, 0);
            i < |after.table| && after.table[i].state == UNUSED && d.fired <= after.fired
  {
    TickTicks(d, servers, 0, i);
  }

  lemma {:induction false} StaysUnused(d: Tables, servers: Servers, run: seq<Event>, i: nat)
    requires Sound(d, servers) && PossibleRun(d, servers, run) && Quiet(run, i)
    requires i < |d.table| && d.table[i].state == UNUSED
    ensures var after := Run(d, servers, run);
            i < |after.table| && after.table[i].state == UNUSED && d.fired <= after.fired
    decreases |run|
  {
    if run != [] {
      var e, next := run[0], Apply(d, servers, run[0]);
      EventSound(d, servers, e);
      if e.Tick? { TickOff(d, servers, i); } else { ElsewhereKeeps(d, servers, e, i); }
      hide Sound, Apply, Possible;
      StaysUnused(next, servers, run[1..], i);
    }
  }

  /** Where a query is after a run without a request or reply for its entry: under way exactly as
      long as there were fewer ticks than it has left, and then its callback has been called and
      its entry is free. */
  ghost predicate OnTime(d: Tables, after: Tables, servers: Servers, i: nat, ticks: nat)
    requires i < |d.table| && d.table[i].retries < DNS_MAX_RETRIES
  {
    var left := TicksLeft(d.table[i], servers);
    && i < |after.table| && i < |d.reqs| && d.reqs[i].Some?
    && (ticks < left ==> after.table[i].state == ASKING && after.table[i].retries < DNS_MAX_RETRIES
                         && TicksLeft(after.table[i], servers) == left - ticks
                         && i < |after.reqs| && after.reqs[i] == d.reqs[i])
    && (ticks >= left ==> after.table[i].state == UNUSED && d.reqs[i].value in after.fired)
  }

  /** So it is in every run, whatever happens to the other entries. */
  lemma {:induction false} TimesOut(d: Tables, servers: Servers, run: seq<Event>, i: nat)
    requires Sound(d, servers) && PossibleRun(d, servers, run) && Quiet(run, i)
    requires i < |d.table| && d.table[i].state == ASKING && d.table[i].retries < DNS_MAX_RETRIES
    ensures OnTime(d, Run(d, servers, run), servers, i, TickCount(run))
    decreases |run|
  {
    AsksWaits(d, servers, i);
    TickedCounts(d.table[i], servers);
    if run != [] {
      var e, next := run[0], Apply(d, servers, run[0]);
      EventSound(d, servers, e);
      if e.Tick? {
        TickOn(d, servers, i);
        hide Sound, TicksLeft, Apply, Possible, EntryOk;
        if TicksLeft(d.table[i], servers) == 1 {
          StaysUnused(next, servers, run[1..], i);
          InPrefix(next.fired, Run(d, servers, run).fired, d.reqs[i].value);
        } else {
          TimesOut(next, servers, run[1..], i);
        }
      } else {
        ElsewhereKeeps(d, servers, e, i);
        hide Sound, TicksLeft, Apply, Possible, EntryOk;
        TimesOut(next, servers, run[1..], i);
      }
    }
  }

  /** A new query asks each configured server for seven ticks. */
  lemma {:induction false} NewQueryTicks(d: Tables, servers: Servers, i: nat, txid: nat)
    requires Indexed(d, i)
    ensures var e := Started(d, servers, i, txid).table[i];
            && e.state == (if 0 < |servers| && servers[0] then ASKING else UNUSED)
            && (e.state == ASKING ==> e.retries < DNS_MAX_RETRIES && TicksLeft(e, servers) == 7 * (1 + More(servers, 0)))
  {
  }

  // ---------------------------------------------------------------------
  // Beginning and end of a query

  /** A request is asked for at once, as wanted and with its callback waiting; without a server its
      callback is called at once. */
  lemma {:induction false} EnqueueAsks(d: Tables, servers: Servers, i: nat, req: Request, addrType: AddrType, seqno: nat, txid: nat)
    requires Sound(d, servers) && Possible(d, Enqueue(i, req, addrType, seqno, txid))
    ensures var after := Apply(d, servers, Enqueue(i, req, addrType, seqno, txid));
            && i < |after.table| && i < |after.reqs|
            && var e := after.table[i];
               if |servers| > 0 && servers[0] then
                 && e.state == ASKING && e.addrType == addrType && e.txid == txid && e.seqno == seqno && e.serverIdx == 0
                 && after.reqs[i] == Some(req) && after.fired == d.fired
               else e.state == UNUSED && after.fired == d.fired + [req]
  {
  }

  /** An error reply ends a query with its callback, and so does a reply without an address when there
      is no other kind to ask for. */
  lemma {:induction false} FailureEnds(d: Tables, servers: Servers, e: Event)
    requires Sound(d, servers) && Possible(d, e)
    requires e.Failure? || (e.NoAnswer? && (d.table[e.i].addrType == V4 || d.table[e.i].addrType == V6))
    ensures var after := Apply(d, servers, e);
            && e.i < |after.table| && after.table[e.i].state == UNUSED
            && e.i < |d.reqs| && d.reqs[e.i].Some? && after.fired == d.fired + [d.reqs[e.i].value]
  {
    AsksWaits(d, servers, e.i);
  }

  // ---------------------------------------------------------------------
  // Answers

  /** The entry holds the answer for ttl ticks, less those that have passed, and is free then. */
  ghost predicate Serves(after: Tables, i: nat, addr: nat, kind: AddrType, ttl: nat, ticks: nat) {
    && i < |after.table|
    && var e := after.table[i];
       if ticks < ttl then e.state == DONE && e.ipaddr == addr && e.addrType == kind && e.ttl == ttl - ticks
       else e.state == UNUSED
  }

  lemma {:induction false} AnswerLasts(d: Tables, servers: Servers, run: seq<Event>, i: nat)
    requires Sound(d, servers) && PossibleRun(d, servers, run) && Quiet(run, i)
    requires i < |d.table| && d.table[i].state == DONE && d.table[i].ttl > 0
    ensures var e := d.table[i]; Serves(Run(d, servers, run), i, e.ipaddr, e.addrType, e.ttl, TickCount(run))
    decreases |run|
  {
    if run != [] {
      var e, next := run[0], Apply(d, servers, run[0]);
      EventSound(d, servers, e);
      if e.Tick? {
        TickTicks(d, servers, 0, i);
        hide Sound, Apply, Possible;
        if d.table[i].ttl == 1 {
          StaysUnused(next, servers, run[1..], i);
        } else {
          AnswerLasts(next, servers, run[1..], i);
        }
      } else {
        ElsewhereKeeps(d, servers, e, i);
        hide Sound, Apply, Possible;
        AnswerLasts(next, servers, run[1..], i);
      }
    }
  }

  /** In every run with no other event for its entry, an answer calls the callback and is then held,
      with its address, for its time to live in ticks, but no longer than DNS_MAX_TTL. */
  lemma {:induction false} AnswerServed(d: Tables, servers: Servers, i: nat, ttl: nat, addr: nat, v6: bool, run: seq<Event>)
    requires Sound(d, servers) && Possible(d, Answer(i, ttl, addr, v6)) && Quiet(run, i)
    requires PossibleRun(Apply(d, servers, Answer(i, ttl, addr, v6)), servers, run)
    ensures d.reqs[i].Some? && d.reqs[i].value in Apply(d, servers, Answer(i, ttl, addr, v6)).fired
    ensures Serves(Run(Apply(d, servers, Answer(i, ttl, addr, v6)), servers, run), i, addr, if v6 then V6 else V4,
                   Min(ttl, DNS_MAX_TTL), TickCount(run))
  {
    var e := Answer(i, ttl, addr, v6);
    AsksWaits(d, servers, i);
    EventSound(d, servers, e);
    var next := Apply(d, servers, e);
    assert next.fired[|next.fired| - 1] == d.reqs[i].value;
    if ttl == 0 {
      hide Sound, Apply, Possible;
      StaysUnused(next, servers, run, i);
    } else {
      assert next.table[i].state == DONE;
      hide Sound, Apply, Possible;
      AnswerLasts(next, servers, run, i);
    }
  }

  // ---------------------------------------------------------------------
  // Fallback

  /** The query of entry i, if any, is for one kind of address. */
  ghost predicate Single(d: Tables, i: nat) {
    i < |d.table| && (d.table[i].state == ASKING ==> !Dual(d.table[i].addrType))
  }

  /** Without a new request for the entry it stays so; a reply without an address makes it so,
      and ends a query that is so. */
  lemma {:induction false} FallbackStep(d: Tables, servers: Servers, e: Event, i: nat)
    requires Sound(d, servers) && Possible(d, e) && i < |d.table|
    ensures i < |Apply(d, servers, e).table|
    ensures e.NoAnswer? && e.i == i ==> Single(Apply(d, servers, e), i)
    ensures e.NoAnswer? && e.i == i && Single(d, i) ==> Apply(d, servers, e) == Closed(d, i)
    ensures Single(d, i) && !(e.Enqueue? && e.i == i) ==> Single(Apply(d, servers, e), i)
  {
    if e.Tick? {
      TickTicks(d, servers, 0, i);
    }
  }

  /** A query for both kinds of address asks for the second kind when a reply has none of the first,
      from the first server on, under the new id, and its callback still waits. */
  lemma {:induction false} FallbackAsks(d: Tables, servers: Servers, i: nat, txid: nat)
    requires Sound(d, servers) && Possible(d, NoAnswer(i, txid))
    requires d.table[i].addrType == V4ThenV6 || d.table[i].addrType == V6ThenV4
    ensures var after := Apply(d, servers, NoAnswer(i, txid));
            && i < |after.table| && i < |after.reqs| && after.reqs[i] == d.reqs[i] && d.reqs[i].Some?
            && var e := after.table[i];
               && e.addrType == (if d.table[i].addrType == V4ThenV6 then V6 else V4)
               && e.state == ASKING && e.txid == txid && e.serverIdx == 0
               && e.retries < DNS_MAX_RETRIES && TicksLeft(e, servers) == 7 * (1 + More(servers, 0))
  {
    assert EntryOk(d.table[i], servers);
    assert servers[0];
    assert d.reqs[i].Some?;
  }

  /** A reply without an address makes entry i ask again. */
  ghost predicate Restarted(d: Tables, e: Event, i: nat) {
    e.NoAnswer? && e.i == i && i < |d.table| && Dual(d.table[i].addrType)
  }

  /** How often that happens in a run. */
  ghost function Restarts(d: Tables, servers: Servers, run: seq<Event>, i: nat): nat
    requires PossibleRun(d, servers, run)
    decreases |run|
  {
    if run == [] then 0
    else (if Restarted(d, run[0], i) then 1 else 0) + Restarts(Apply(d, servers, run[0]), servers, run[1..], i)
  }

  /** Nothing new is requested of entry i. */
  ghost predicate SameQuery(run: seq<Event>, i: nat) {
    forall e | e in run :: !(e.Enqueue? && e.i == i)
  }

  lemma {:induction false} NoMoreRestarts(d: Tables, servers: Servers, run: seq<Event>, i: nat)
    requires Sound(d, servers) && PossibleRun(d, servers, run) && SameQuery(run, i) && i < |d.table| && Single(d, i)
    ensures Restarts(d, servers, run, i) == 0
    decreases |run|
  {
    if run != [] {
      EventSound(d, servers, run[0]);
      FallbackStep(d, servers, run[0], i);
      hide Sound, Apply, Dual;
      NoMoreRestarts(Apply(d, servers, run[0]), servers, run[1..], i);
    }
  }

  /** Between two requests for an entry, in every run, its query is restarted at most once. */
  lemma {:induction false} FallbackOnce(d: Tables, servers: Servers, run: seq<Event>, i: nat)
    requires Sound(d, servers) && PossibleRun(d, servers, run) && SameQuery(run, i) && i < |d.table|
    ensures Restarts(d, servers, run, i) <= 1
    decreases |run|
  {
    if run != [] {
      var next := Apply(d, servers, run[0]);
      EventSound(d, servers, run[0]);
      FallbackStep(d, servers, run[0], i);
      hide Sound, Apply, Dual, Possible;
      if Restarted(d, run[0], i) {
        NoMoreRestarts(next, servers, run[1..], i);
      } else {
        FallbackOnce(next, servers, run[1..], i);
      }
    }
  }
}
