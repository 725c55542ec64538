/**
 The objects behind the write queue: uvl_write_t requests linked through their
 next pointers, and the uvl_tcp_t that holds the head and the tail. Each method
 is the function of the same name in uv_lwip.c, and is proved to do to the
 linked objects what WriteQueue and WriteRuns say is done to the queue.
 */
module UvTcp {
  import opened Common
  import opened WriteQueue
  import opened WriteRuns

  /** uvl_write_t */
  class Request {
    const id: nat
    var bufs: seq<seq<byte>>
    var sentBufs: nat
    var sent: nat
    var pending: nat
    var totalSent: nat
    var totalLen: nat
    var next: Request?

    constructor (id: nat)
      ensures this.id == id
    {
      this.id := id;
      bufs, sentBufs, sent, pending, totalSent, totalLen, next := [], 0, 0, 0, 0, 0, null;
    }

    ghost function View(): Item
      reads this
    {
      Item(id, bufs, sentBufs, sent, pending, totalSent)
    }
  }

  /** uvl_tcp_t, as far as writing is concerned; log records the calls of write_cb. */
  class Client {
    var curWrite: Request?
    var tailWrite: Request?
    var tcp: Tcp
    var recvBytes: nat
    var sentBytes: nat
    var closed: bool
    var log: seq<Callback>
    ghost var queue: seq<Request>
    ghost var view: Conn

    /** The request at position i is the one view says, and leads to the one after it. */
    ghost predicate LinkedAt(i: nat)
      requires i < |queue|
      reads this`queue, this`view, queue
    {
      && i < |view.queue| && queue[i].View() == view.queue[i]
      && queue[i].totalLen == TotalLen(queue[i].bufs)
      && queue[i].next == Following(i)
    }

    ghost function Following(i: nat): Request?
      reads this`queue
    {
      if i + 1 < |queue| then queue[i + 1] else null
    }

    ghost predicate Linked()
      reads this`queue, this`view, queue
    {
      && |queue| == |view.queue|
      && (forall i, j | 0 <= i < j < |queue| :: queue[i] != queue[j])
      && (forall i | 0 <= i < |queue| :: LinkedAt(i))
    }

    ghost predicate Valid()
      reads this, queue
    {
      && Linked()
      && curWrite == (if queue == [] then null else queue[0])
      && tailWrite == (if queue == [] then null else queue[|queue| - 1])
      && Mirrors()
    }

    ghost predicate Mirrors()
      reads this
    {
      view.tcp == tcp && view.recvBytes == recvBytes < WORD && view.sentBytes == sentBytes < WORD
      && view.closed == closed && view.log == log
    }

    constructor ()
      ensures Valid() && IsStart(view) && Inv(view)
    {
      hide Inv;
      curWrite, tailWrite, recvBytes, sentBytes, closed, log := null, null, 0, 0, false, [];
      tcp := Tcp(0, [], []);
      queue := [];
      view := Conn([], Tcp(0, [], []), 0, 0, false, false, [], [], 0);
      new;
      StartInv(view);
    }

    /** uvl_write */
    method Write(req: Request, newBufs: seq<seq<byte>>)
      requires Valid() && Inv(view) && Possible(view, Submit(newBufs))
      requires req !in queue && req.id == |view.reqs| && TotalLen(newBufs) < WORD
      modifies this, req, queue
      ensures Valid() && Inv(view)
      ensures queue == old(queue) + [req] && view == Apply(old(view), Submit(newBufs))
    {
      hide Inv, Concat, CompleteAll, CancelAll, Pump, Credit;
      SubmitKeeps(view, newBufs);
      req.bufs := newBufs;
      req.sent, req.pending, req.sentBufs, req.totalSent := 0, 0, 0, 0;
      CountLen(req);
      forall i | 0 <= i < |queue| ensures LinkedAt(i) { assert old(LinkedAt(i)); }
      Append(req, newBufs);
    }

    /** total_len, from zero, as the sum of the buffer lengths. */
    static method CountLen(req: Request)
      modifies req`totalLen
      ensures req.totalLen == TotalLen(req.bufs)
    {
      hide Concat;
      req.totalLen := 0;
      NoLen(req.bufs);
      for i := 0 to |req.bufs|
        invariant req.totalLen == TotalLen(req.bufs[..i])
      {
        TotalLenStep(req.bufs, i);
        req.totalLen := req.totalLen + |req.bufs[i]|;
      }
      assert req.bufs[..|req.bufs|] == req.bufs;
    }

    /** Linking a request in behind the tail. */
    method Append(req: Request, ghost newBufs: seq<seq<byte>>)
      requires Valid() && req !in queue && req.totalLen == TotalLen(req.bufs)
      modifies this`curWrite, this`tailWrite, this`queue, this`view, req`next, queue`next
      ensures Valid() && queue == old(queue) + [req]
      ensures view == old(view).(queue := old(view).queue + [req.View()], reqs := old(view).reqs + [newBufs])
    {
      hide Concat;
      req.next := null;
      if tailWrite != null {
        tailWrite.next := req;
      }
      tailWrite := req;
      if curWrite == null {
        curWrite := req;
      }
      queue := queue + [req];
      view := view.(queue := view.queue + [req.View()], reqs := view.reqs + [newBufs]);
      forall i | 0 <= i < |queue| ensures LinkedAt(i) {
        if i < |queue| - 1 { assert old(LinkedAt(i)); }
      }
    }

    /** uvl_imp_write_buf_to_tcp; the result is its return value. */
    method WriteBufToTcp(req: Request) returns (more: bool)
      requires Sane(req.View()) && req.sentBufs < |req.bufs| && recvBytes < WORD
      modifies this`tcp, this`recvBytes, req`sent, req`sentBufs, req`pending, req`totalSent
      ensures var p := PutBuf(old(req.View()), old(tcp));
              && more == p.more && req.View() == p.item && tcp == p.tcp
              && |old(tcp).wire| <= |tcp.wire|
              && recvBytes == (old(recvBytes) + (|tcp.wire| - |old(tcp).wire|)) % WORD
    {
      hide Concat, Rest, PutBuf;
      ghost var x, t := req.View(), tcp;
      PutBufOnce(x, t);
      var buf := req.bufs[req.sentBufs];
      while true
        invariant |t.wire| <= |tcp.wire| && recvBytes == (old(recvBytes) + (|tcp.wire| - |t.wire|)) % WORD
        invariant || (req.View() == x && tcp == t)
                  || (0 < t.sndbuf < |buf| - x.sent && !Refuses(t) && req.View() == Advanced(x, t.sndbuf)
                      && tcp == TcpWrite(t, buf[x.sent..x.sent + t.sndbuf]))
        decreases |buf| - req.sent
      {
        var toWrite := Min(|buf| - req.sent, tcp.sndbuf);
        if toWrite == 0 {
          break;
        }
        var refused := Refuses(tcp);
        tcp := TcpWrite(tcp, buf[req.sent..req.sent + toWrite]);
        if refused {
          return false;
        }
        Count(req, toWrite);
        if !(req.sent < |buf|) {
          break;
        }
      }
      if tcp.sndbuf == 0 {
        return false;
      }
      req.sent := 0;
      req.sentBufs := req.sentBufs + 1;
      return true;
    }

    /** The four counters after a successful tcp_write of n bytes. */
    method Count(req: Request, n: nat)
      modifies this`recvBytes, req`sent, req`pending, req`totalSent
      ensures req.View() == Advanced(old(req.View()), n)
      ensures recvBytes == (old(recvBytes) + n) % WORD
    {
      req.sent := req.sent + n;
      req.pending := req.pending + n;
      req.totalSent := req.totalSent + n;
      recvBytes := (recvBytes + n) % WORD;
    }

    /** One round of the second loop of uvl_imp_write_to_tcp, on the request at position k. */
    method WriteNextBuf(req: Request, ghost k: nat) returns (more: bool)
      requires Linked() && Mirrors() && k < |queue| && queue[k] == req
      requires Sane(view.queue[k]) && view.queue[k].sentBufs < |view.queue[k].bufs|
      modifies this`tcp, this`recvBytes, this`view, queue
      ensures Linked() && Mirrors()
      ensures var p := PutBuf(old(view.queue[k]), old(tcp));
              && more == p.more && |old(tcp).wire| <= |p.tcp.wire|
              && view == AfterPut(old(view), k, p.item, p.tcp)
    {
      hide Concat, Rest, PutBuf;
      assert LinkedAt(k);
      more := WriteBufToTcp(req);
      view := view.(queue := view.queue[k := req.View()], tcp := tcp, recvBytes := recvBytes);
      forall i | 0 <= i < |queue| ensures LinkedAt(i) {
        assert old(LinkedAt(i));
        assert i != k ==> queue[i] != queue[k];
      }
    }

    /** uvl_imp_write_to_tcp; tcp_output succeeds. */
    method WriteToTcp()
      requires Linked() && Mirrors() && queue != [] && curWrite == queue[0]
      requires Ordered(view.queue) && NoneEmptyBehind(view.queue)
      modifies this`tcp, this`recvBytes, this`view, queue
      ensures Linked() && Mirrors()
      ensures var p := Pump(old(view).queue, FirstUnsent(old(view).queue), old(tcp));
              |old(tcp).wire| <= |p.tcp.wire| && view == AfterPump(old(view), p)
    {
      hide Concat, Rest, PutBuf, RestAll, SumPending, Pump, Sane;
      ghost var c := view;
      PumpEnter(c);
      var req: Request?;
      ghost var k;
      req, k := SkipFinished();
      while req != null
        invariant Linked() && Mirrors() && k <= |queue| && Pumping(c, view, k)
        invariant req == if k < |queue| then queue[k] else null
        decreases |queue| - k, if k < |queue| then |view.queue[k].bufs| - view.queue[k].sentBufs else 0
      {
        PumpRound(c, view, k);
        var more := WriteNextBuf(req, k);
        assert LinkedAt(k);
        if !more {
          return;
        }
        if req.sentBufs == |req.bufs| {
          req := req.next;
          k := k + 1;
        }
      }
      PumpLeave(c, view);
    }

    /** The first loop of uvl_imp_write_to_tcp: past the requests with nothing left to hand over. */
    method SkipFinished() returns (req: Request?, ghost k: nat)
      requires Linked() && queue != [] && curWrite == queue[0]
      ensures k == FirstUnsent(view.queue)
      ensures req == if FirstUnsent(view.queue) < |queue| then queue[FirstUnsent(view.queue)] else null
    {
      hide Concat, Rest;
      req, k := curWrite, 0;
      while req != null
        invariant k <= |queue| && req == if k < |queue| then queue[k] else null
        invariant forall i | 0 <= i < k :: view.queue[i].sentBufs >= |view.queue[i].bufs|
        decreases |queue| - k
      {
        assert LinkedAt(k);
        if req.sentBufs < |req.bufs| {
          break;
        }
        req := req.next;
        k := k + 1;
      }
    }

    /** uvl_client_sent_func */
    method Sent(len: nat)
      requires Valid() && Inv(view) && Possible(view, Ack(len))
      modifies this`sentBytes, this`view, queue
      ensures Valid() && Inv(view)
      ensures Safe(old(view), Ack(len)) && view == Apply(old(view), Ack(len))
    {
      hide Inv, Concat, Rest, RestAll, CompleteAll, CancelAll, Pump;
      EventKeeps(view, Ack(len));
      ghost var c := view;
      sentBytes := (sentBytes + len) % WORD;
      view := view.(sentBytes := sentBytes, acked := view.acked + len);
      forall i | 0 <= i < |queue| ensures LinkedAt(i) { assert old(LinkedAt(i)); }
      CreditQueue(len);
    }

    /** The loop that credits an acknowledgement, from the head of the queue. */
    method CreditQueue(amount: nat)
      requires Linked() && amount <= SumPending(view.queue) && curWrite == if queue == [] then null else queue[0]
      modifies this`view, queue
      ensures Linked() && view == old(view).(queue := Credit(old(view).queue, amount))
    {
      hide Concat, Rest, RestAll, Credit, SumPending;
      var len: nat := amount;
      var req := curWrite;
      ghost var q, k := view.queue, 0;
      CreditEnter(q, amount);
      while len > 0
        invariant Linked() && k <= |queue| && view == old(view).(queue := view.queue)
        invariant req == if k < |queue| then queue[k] else null
        invariant Crediting(q, amount, view.queue, k, len)
        decreases len, |q| - k
      {
        CreditRound(q, amount, view.queue, k, len);
        assert LinkedAt(k);
        var toSub := Min(req.pending, len);
        CreditOne(req, toSub, k);
        assert LinkedAt(k);
        len := len - toSub;
        req := req.next;
        k := k + 1;
      }
      CreditLeave(q, amount, view.queue, k);
    }

    /** One request gives up n pending bytes. */
    method CreditOne(req: Request, n: nat, ghost k: nat)
      requires Linked() && k < |queue| && queue[k] == req && n <= view.queue[k].pending
      modifies this`view, req`pending
      ensures Linked() && req.next == old(req.next)
      ensures var x := old(view).queue[k];
              view == old(view).(queue := old(view).queue[k := x.(pending := x.pending - n)])
    {
      hide Concat;
      assert LinkedAt(k);
      req.pending := req.pending - n;
      view := view.(queue := view.queue[k := req.View()]);
      forall i | 0 <= i < |queue| ensures LinkedAt(i) {
        assert old(LinkedAt(i));
        assert i != k ==> queue[i] != queue[k];
      }
    }

    /** The head of the queue leaves it. */
    method Pop(req: Request, ok: bool) returns (next: Request?)
      requires Linked() && Mirrors() && queue != [] && queue[0] == req
      modifies this`log, this`queue, this`view
      ensures Linked() && Mirrors() && queue == old(queue)[1..] && view == Fire(old(view), ok)
      ensures next == if queue == [] then null else queue[0]
    {
      hide Concat;
      assert LinkedAt(0);
      next := req.next;
      log := log + [Callback(req.id, ok)];
      queue := queue[1..];
      view := Fire(view, ok);
      forall i | 0 <= i < |queue| ensures LinkedAt(i) { assert old(LinkedAt(i + 1)); }
    }

    /** uvl_cancel_reqs, as far as writes are concerned. */
    method CancelReqs()
      requires Linked() && Mirrors() && curWrite == if queue == [] then null else queue[0]
      modifies this`curWrite, this`tailWrite, this`log, this`queue, this`view
      ensures Valid() && view == CancelAll(old(view))
    {
      hide Concat;
      var req := curWrite;
      while req != null
        invariant Linked() && Mirrors() && CancelAll(view) == CancelAll(old(view))
        invariant req == if queue == [] then null else queue[0]
        decreases |queue|
      {
        req := Pop(req, false);
      }
      view := CancelAll(view);
      curWrite := null;
      tailWrite := null;
    }

    /** uvl_async_tcp_write_cb */
    method AsyncWriteCb()
      requires Valid() && Inv(view)
      modifies this, queue
      ensures Valid() && Inv(view)
      ensures Safe(old(view), WriteCb) && view == Apply(old(view), WriteCb)
    {
      hide Inv, Concat, Rest, RestAll, Pump, CancelAll, Ordered, NoneEmptyBehind, CompleteAll;
      EventKeeps(view, WriteCb);
      ghost var c := view;
      CompleteAllKeeps(c);
      CompleteAllOrdered(c);
      CompleteReqs();
      if closed {
        CancelReqs();
        return;
      }
      if curWrite != null {
        InvBasics(view);
        WriteToTcp();
      }
    }

    /** The loop of uvl_async_tcp_write_cb that reports finished requests. */
    method CompleteReqs()
      requires Valid()
      modifies this`curWrite, this`tailWrite, this`log, this`queue, this`view
      ensures Valid() && view == CompleteAll(old(view))
      ensures |queue| <= |old(queue)| && queue == old(queue)[|old(queue)| - |queue|..]
    {
      hide Concat;
      var req := curWrite;
      while req != null && req.totalSent == req.totalLen && req.pending == 0
        invariant Linked() && Mirrors() && CompleteAll(view) == CompleteAll(old(view))
        invariant req == curWrite == (if queue == [] then null else queue[0])
        invariant tailWrite == if old(queue) == [] then null else old(queue)[|old(queue)| - 1]
        invariant |queue| <= |old(queue)| && queue == old(queue)[|old(queue)| - |queue|..]
        decreases |queue|
      {
        assert LinkedAt(0);
        req := Pop(req, true);
        curWrite := req;
      }
      if req != null { assert LinkedAt(0); }
      if curWrite == null {
        tailWrite := null;
      }
    }
  }

  lemma {:induction false} InvBasics(c: Conn)
    requires Inv(c)
    ensures Ordered(c.queue) && NoneEmptyBehind(c.queue)
  {
  }

  /** The crediting loop has come from q to r: positions before k are done, len is left. */
  ghost predicate Crediting(q: seq<Item>, amount: nat, r: seq<Item>, k: nat, len: nat) {
    && amount <= SumPending(q) && |r| == |q| && k <= |q| && r[k..] == q[k..] && len <= SumPending(q[k..])
    && Credit(q, amount) == r[..k] + Credit(q[k..], len)
  }

  lemma {:induction false} CreditEnter(q: seq<Item>, amount: nat)
    requires amount <= SumPending(q)
    ensures Crediting(q, amount, q, 0, amount)
  {
    assert q[0..] == q;
  }

  lemma {:induction false} CreditLeave(q: seq<Item>, amount: nat, r: seq<Item>, k: nat)
    requires Crediting(q, amount, r, k, 0)
    ensures r == Credit(q, amount)
  {
    assert Credit(q[k..], 0) == r[k..];
    assert r == r[..k] + r[k..];
  }

  lemma {:induction false} CreditUnfold(q: seq<Item>, len: nat)
    requires 0 < len <= SumPending(q)
    ensures q != []
    ensures var d := Min(q[0].pending, len);
            len - d <= SumPending(q[1..]) && Credit(q, len) == [q[0].(pending := q[0].pending - d)] + Credit(q[1..], len - d)
  {
  }

  lemma {:induction false} CreditRound(q: seq<Item>, amount: nat, r: seq<Item>, k: nat, len: nat)
    requires Crediting(q, amount, r, k, len) && 0 < len
    ensures k < |r|
    ensures var d := Min(r[k].pending, len);
            Crediting(q, amount, r[k := r[k].(pending := r[k].pending - d)], k + 1, len - d)
  {
    hide Credit, SumPending;
    CreditUnfold(q[k..], len);
    assert r[k] == r[k..][0] == q[k];
    assert q[k..][1..] == q[k + 1..];
    var d := Min(r[k].pending, len);
    var x := r[k].(pending := r[k].pending - d);
    var r' := r[k := x];
    assert r'[..k + 1] == r[..k] + [x];
    assert r'[k + 1..] == r[k..][1..];
    assert r[..k] + ([x] + Credit(q[k + 1..], len - d)) == r[..k] + [x] + Credit(q[k + 1..], len - d);
  }

  /** Everything but the queue, TCP and recv_bytes is the same, and recv_bytes has grown by what TCP took. */
  ghost predicate SameButPumped(c: Conn, d: Conn) {
    && |c.queue| == |d.queue| && |c.tcp.wire| <= |d.tcp.wire|
    && d == c.(queue := d.queue, tcp := d.tcp, recvBytes := (c.recvBytes + (|d.tcp.wire| - |c.tcp.wire|)) % WORD)
  }

  /** The second loop has come from c to v and is about to treat request k. */
  ghost predicate Pumping(c: Conn, v: Conn, k: nat) {
    && Ordered(c.queue) && NoneEmptyBehind(c.queue) && c.recvBytes < WORD
    && SameButPumped(c, v) && Ordered(v.queue) && k <= |v.queue|
    && (forall i | 0 <= i < k :: Finished(v.queue[i]))
    && Pump(c.queue, FirstUnsent(c.queue), c.tcp) == Pump(v.queue, k, v.tcp)
  }

  lemma {:induction false} PumpEnter(c: Conn)
    requires Ordered(c.queue) && NoneEmptyBehind(c.queue) && c.recvBytes < WORD
    ensures Pumping(c, c, FirstUnsent(c.queue))
    ensures |c.tcp.wire| <= |Pump(c.queue, FirstUnsent(c.queue), c.tcp).tcp.wire|
  {
    hide Pump, PutBuf, Rest, Concat;
    PumpGrows(c.queue, c.tcp);
  }

  lemma {:induction false} PumpLeave(c: Conn, v: Conn)
    requires Pumping(c, v, |v.queue|)
    ensures v == AfterPump(c, Pump(c.queue, FirstUnsent(c.queue), c.tcp))
  {
    hide Ordered, NoneEmptyBehind;
    assert Pump(v.queue, |v.queue|, v.tcp) == Pumped(v.queue, v.tcp, false);
  }

  lemma {:induction false} PutRecv(c: Conn, v: Conn, k: nat, x: Item, t: Tcp)
    requires SameButPumped(c, v) && k < |v.queue| && |v.tcp.wire| <= |t.wire|
    ensures SameButPumped(c, AfterPut(v, k, x, t))
  {
    AddModulo(c.recvBytes + (|v.tcp.wire| - |c.tcp.wire|), |t.wire| - |v.tcp.wire|, WORD);
  }

  lemma {:induction false} PumpRound(c: Conn, v: Conn, k: nat)
    requires Pumping(c, v, k) && k < |v.queue|
    ensures Sane(v.queue[k]) && v.queue[k].sentBufs < |v.queue[k].bufs|
    ensures var p := PutBuf(v.queue[k], v.tcp);
      && |v.tcp.wire| <= |p.tcp.wire| && p.item.bufs == v.queue[k].bufs
      && p.item.sentBufs == v.queue[k].sentBufs + (if p.more then 1 else 0)
      && var w := AfterPut(v, k, p.item, p.tcp);
         if p.more then Pumping(c, w, if p.item.sentBufs == |p.item.bufs| then k + 1 else k)
         else |c.tcp.wire| <= |p.tcp.wire| && w == AfterPump(c, Pump(c.queue, FirstUnsent(c.queue), c.tcp))
  {
    hide PutBuf, Rest, Concat, RestAll;
    NoFault(c);
    assert v.queue[k].sentBufs < |v.queue[k].bufs|;
    PutBufStream(v.queue[k], v.tcp);
    PutBufStops(v.queue[k], v.tcp);
    PutOrdered(v.queue, k, v.tcp);
    var p := PutBuf(v.queue[k], v.tcp);
    PutRecv(c, v, k, p.item, p.tcp);
  }

  /** Request k has become x and TCP t; what TCP has taken is added to recv_bytes. */
  ghost function AfterPut(c: Conn, k: nat, x: Item, t: Tcp): Conn
    requires k < |c.queue| && |c.tcp.wire| <= |t.wire|
  {
    c.(queue := c.queue[k := x], tcp := t, recvBytes := (c.recvBytes + (|t.wire| - |c.tcp.wire|)) % WORD)
  }

  lemma {:induction false} ConcatAppend(bufs: seq<seq<byte>>, b: seq<byte>)
    ensures Concat(bufs + [b]) == Concat(bufs) + b
  {
    if bufs == [] {
      assert [b][1..] == [];
      assert bufs + [b] == [b];
    } else {
      ConcatAppend(bufs[1..], b);
      assert (bufs + [b])[1..] == bufs[1..] + [b];
    }
  }

  lemma {:induction false} NoLen(bufs: seq<seq<byte>>)
    ensures TotalLen(bufs[..0]) == 0
  {
  }

  lemma {:induction false} TotalLenStep(bufs: seq<seq<byte>>, i: nat)
    requires i < |bufs|
    ensures TotalLen(bufs[..i + 1]) == TotalLen(bufs[..i]) + |bufs[i]|
  {
    assert bufs[..i + 1] == bufs[..i] + [bufs[i]];
    ConcatAppend(bufs[..i], bufs[i]);
  }
}
