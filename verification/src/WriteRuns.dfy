/**
 Whole runs of one connection's write queue: submissions, the write callback,
 acknowledgements, a send buffer that changes as TCP pleases, closing and
 cancelling, in any order. Callbacks do not re-enter the queue, and tcp_write
 fails only with ERR_MEM.
 */
module WriteRuns {
  import opened Common
  import opened WriteQueue

  /** write_cb(req, status): ok is status 0, otherwise UV_ECANCELED. */
  datatype Callback = Callback(id: nat, ok: bool)

  /** The connection, and the history the theorems are about: all requests ever submitted,
      in order, and the number of bytes TCP has acknowledged. */
  datatype Conn = Conn(queue: seq<Item>, tcp: Tcp, recvBytes: nat, sentBytes: nat, closed: bool, cancelled: bool,
                       log: seq<Callback>, reqs: seq<seq<seq<byte>>>, acked: nat)

  datatype Event =
    | Submit(bufs: seq<seq<byte>>)
    | WriteCb
    | Ack(len: nat)
    | TcpChanges(sndbuf: nat, refuse: seq<bool>)
    | Close
    | CloseHandle

  const WORD := 0x1_0000_0000

  /** A connection just accepted. */
  predicate IsStart(c: Conn) {
    && c.queue == [] && c.tcp.wire == [] && c.recvBytes == 0 && c.sentBytes == 0
    && !c.closed && !c.cancelled && c.log == [] && c.reqs == [] && c.acked == 0
  }

  /** The stream the client asked for: every buffer of every request, in order. */
  function Stream(reqs: seq<seq<seq<byte>>>): seq<byte> {
    if reqs == [] then [] else Stream(reqs[..|reqs| - 1]) + Concat(reqs[|reqs| - 1])
  }

  /** Where request k starts in the stream. */
  function Offset(reqs: seq<seq<seq<byte>>>, k: nat): nat
    requires k <= |reqs|
  {
    |Stream(reqs[..k])|
  }

  function Fire(c: Conn, ok: bool): Conn
    requires c.queue != []
  {
    c.(queue := c.queue[1..], log := c.log + [Callback(c.queue[0].id, ok)])
  }

  /** The loop of uvl_async_tcp_write_cb that completes requests. */
  function CompleteAll(c: Conn): Conn
    decreases |c.queue|
  {
    if c.queue != [] && Complete(c.queue[0]) then CompleteAll(Fire(c, true)) else c
  }

  /** uvl_cancel_reqs, as far as writes are concerned. */
  function CancelAll(c: Conn): Conn
    decreases |c.queue|
  {
    if c.queue != [] then CancelAll(Fire(c, false)) else c.(cancelled := true)
  }

  function AfterPump(c: Conn, p: Pumped): Conn
    requires |c.tcp.wire| <= |p.tcp.wire|
  {
    c.(queue := p.queue, tcp := p.tcp, recvBytes := (c.recvBytes + (|p.tcp.wire| - |c.tcp.wire|)) % WORD)
  }

  /** What the outside world may do: the client does not queue a request without buffers behind
      one that is not handed over yet, and TCP acknowledges only bytes it was given, on an open
      connection. */
  predicate Possible(c: Conn, e: Event) {
    match e
    case Submit(bufs) => bufs != [] || FirstUnsent(c.queue) == |c.queue|
    case Ack(len) => !c.closed && 0 < len && c.acked + len <= |c.tcp.wire|
    case _ => true
  }

  /** What the code needs in order not to leave the queue or the buffer arrays. */
  ghost predicate Safe(c: Conn, e: Event) {
    match e
    case WriteCb => Ordered(c.queue) && !Pump(c.queue, FirstUnsent(c.queue), c.tcp).fault
    case Ack(len) => len <= SumPending(c.queue)
    case _ => true
  }

  function Apply(c: Conn, e: Event): Conn
    requires Safe(c, e)
  {
    match e
    case Submit(bufs) =>
      c.(queue := c.queue + [Item(|c.reqs|, bufs, 0, 0, 0, 0)], reqs := c.reqs + [bufs])
    case WriteCb =>
      var d := CompleteAll(c);
      if d.closed then CancelAll(d)
      else if d.queue == [] then d
      else
        CompleteAllOrdered(c);
        PumpGrows(d.queue, d.tcp);
        AfterPump(d, Pump(d.queue, FirstUnsent(d.queue), d.tcp))
    case Ack(len) =>
      c.(queue := Credit(c.queue, len), sentBytes := (c.sentBytes + len) % WORD, acked := c.acked + len)
    case TcpChanges(sndbuf, refuse) => c.(tcp := c.tcp.(sndbuf := sndbuf, refuse := refuse))
    case Close => c.(closed := true)
    case CloseHandle => CancelAll(c.(closed := true))
  }

  lemma {:induction false} TailOrdered(q: seq<Item>)
    requires Ordered(q) && q != []
    ensures Ordered(q[1..])
  {
  }

  lemma {:induction false} CompleteAllOrdered(c: Conn)
    requires Ordered(c.queue)
    ensures Ordered(CompleteAll(c).queue)
    decreases |c.queue|
  {
    if c.queue != [] && Complete(c.queue[0]) {
      TailOrdered(c.queue);
      CompleteAllOrdered(Fire(c, true));
    }
  }

  // ---------------------------------------------------------------------
  // What every event keeps

  /** Callbacks go out once per request and in submission order. */
  ghost predicate Fifo(log: seq<Callback>, q: seq<Item>, reqs: seq<seq<seq<byte>>>) {
    && |log| + |q| == |reqs|
    && (forall i | 0 <= i < |log| :: log[i].id == i)
    && (forall i | 0 <= i < |q| :: q[i].id == |log| + i && q[i].bufs == reqs[|log| + i])
  }

  /** What TCP has and what is queued make up the stream. */
  ghost predicate Whole(wire: seq<byte>, q: seq<Item>, reqs: seq<seq<seq<byte>>>) {
    wire + RestAll(q) == Stream(reqs)
  }

  /** Pending and acknowledged bytes account for all that TCP has, in order; the first done
      requests are acknowledged entirely. */
  ghost predicate Accounted(wire: nat, q: seq<Item>, reqs: seq<seq<seq<byte>>>, done: nat, acked: nat) {
    && Ordered(q) && AckOrdered(q)
    && acked + SumPending(q) == wire
    && done <= |reqs| && acked == Offset(reqs, done) + SumAcked(q)
  }

  ghost predicate AllFresh(q: seq<Item>) {
    forall i | 0 <= i < |q| :: Sane(q[i]) && Fresh(q[i])
  }

  /** No request without buffers is behind one that is not handed over yet. */
  ghost predicate NoneEmptyBehind(q: seq<Item>) {
    forall i, j | 0 <= i < j < |q| :: q[i].sentBufs >= |q[i].bufs| || q[j].bufs != []
  }

  /** A request reported as written has been acknowledged to its last byte. */
  ghost predicate WrittenMeansAcked(log: seq<Callback>, reqs: seq<seq<seq<byte>>>, acked: nat) {
    forall i | 0 <= i < |log| && i < |reqs| && log[i].ok :: TotalLen(reqs[i]) == 0 || Offset(reqs, i + 1) <= acked
  }

  ghost predicate IsPrefix(wire: seq<byte>, reqs: seq<seq<seq<byte>>>) {
    wire <= Stream(reqs)
  }

  /** The 32-bit counters: recv_bytes counts what TCP was given, sent_bytes what it acknowledged. */
  ghost predicate Counters(wire: nat, acked: nat, recvBytes: nat, sentBytes: nat) {
    acked <= wire && recvBytes == wire % WORD && sentBytes == acked % WORD
  }

  /** Until the connection is cancelled. */
  ghost predicate Alive(c: Conn) {
    && Whole(c.tcp.wire, c.queue, c.reqs)
    && Accounted(|c.tcp.wire|, c.queue, c.reqs, |c.log|, c.acked)
  }

  ghost predicate Inv(c: Conn) {
    && Fifo(c.log, c.queue, c.reqs)
    && IsPrefix(c.tcp.wire, c.reqs)
    && (if c.cancelled then c.closed && AllFresh(c.queue) else Alive(c))
    && NoneEmptyBehind(c.queue)
    && WrittenMeansAcked(c.log, c.reqs, c.acked)
    && Counters(|c.tcp.wire|, c.acked, c.recvBytes, c.sentBytes)
  }

  lemma {:induction false} StreamAppend(reqs: seq<seq<seq<byte>>>, bufs: seq<seq<byte>>)
    ensures Stream(reqs + [bufs]) == Stream(reqs) + Concat(bufs)
  {
    assert (reqs + [bufs])[..|reqs|] == reqs;
  }

  lemma {:induction false} OffsetStep(reqs: seq<seq<seq<byte>>>, k: nat)
    requires k < |reqs|
    ensures Offset(reqs, k + 1) == Offset(reqs, k) + TotalLen(reqs[k])
  {
    assert reqs[..k + 1] == reqs[..k] + [reqs[k]];
    StreamAppend(reqs[..k], reqs[k]);
  }

  lemma {:induction false} OffsetAppend(reqs: seq<seq<seq<byte>>>, bufs: seq<seq<byte>>, k: nat)
    requires k <= |reqs|
    ensures Offset(reqs + [bufs], k) == Offset(reqs, k)
  {
    assert (reqs + [bufs])[..k] == reqs[..k];
  }

  // --- Submit ---

  lemma {:induction false} SumsAppend(q: seq<Item>, x: Item)
    ensures SumPending(q + [x]) == SumPending(q) + x.pending
    ensures SumAcked(q + [x]) == SumAcked(q) + Acked(x)
  {
    if q != [] {
      SumsAppend(q[1..], x);
      assert (q + [x])[1..] == q[1..] + [x];
    }
  }

  lemma {:induction false} AppendAssociates(a: seq<byte>, b: seq<byte>, c: seq<byte>)
    ensures a + (b + c) == (a + b) + c
  {
  }

  lemma {:induction false} RestAppend(q: seq<Item>, x: Item)
    ensures RestAll(q + [x]) == RestAll(q) + Rest(x)
  {
    if q == [] {
      assert q + [x] == [x];
      assert RestAll([x]) == Rest(x) + RestAll([]);
    } else {
      RestAppend(q[1..], x);
      assert (q + [x])[1..] == q[1..] + [x];
      assert RestAll(q + [x]) == Rest(q[0]) + RestAll(q[1..] + [x]);
      AppendAssociates(Rest(q[0]), RestAll(q[1..]), Rest(x));
    }
  }

  lemma {:induction false} FreshItem(id: nat, bufs: seq<seq<byte>>)
    ensures var x := Item(id, bufs, 0, 0, 0, 0); Rest(x) == Concat(bufs) && Sane(x) && Fresh(x)
  {
    var x := Item(id, bufs, 0, 0, 0, 0);
    assert Rest(x) == Concat(bufs) by {
      if bufs != [] { assert bufs[0][0..] == bufs[0]; }
    }
  }

  lemma {:induction false} SubmitOrdered(q: seq<Item>, x: Item)
    requires Ordered(q) && AckOrdered(q) && Sane(x) && Fresh(x)
    ensures Ordered(q + [x]) && AckOrdered(q + [x])
  {
    hide Sane;
  }

  lemma {:induction false} AppendBoth(a: seq<byte>, b: seq<byte>, c: seq<byte>, tail: seq<byte>)
    requires a + b == c
    ensures a + (b + tail) == c + tail
  {
    assert a + (b + tail) == (a + b) + tail;
  }

  lemma {:induction false} SubmitWhole(wire: seq<byte>, q: seq<Item>, reqs: seq<seq<seq<byte>>>, x: Item)
    requires Whole(wire, q, reqs) && Rest(x) == Concat(x.bufs)
    ensures Whole(wire, q + [x], reqs + [x.bufs])
  {
    var r, s := RestAll(q), Stream(reqs);
    AppendBoth(wire, r, s, Concat(x.bufs));
    assert RestAll(q + [x]) == r + Concat(x.bufs) by { RestAppend(q, x); }
    assert Stream(reqs + [x.bufs]) == s + Concat(x.bufs) by { StreamAppend(reqs, x.bufs); }
  }

  lemma {:induction false} SubmitAccounted(wire: nat, q: seq<Item>, reqs: seq<seq<seq<byte>>>, done: nat, acked: nat, x: Item)
    requires Accounted(wire, q, reqs, done, acked) && Sane(x) && Fresh(x)
    ensures Accounted(wire, q + [x], reqs + [x.bufs], done, acked)
  {
    SubmitOrdered(q, x);
    SumsAppend(q, x);
    OffsetAppend(reqs, x.bufs, done);
  }

  lemma {:induction false} SubmitWritten(log: seq<Callback>, reqs: seq<seq<seq<byte>>>, acked: nat, bufs: seq<seq<byte>>)
    requires WrittenMeansAcked(log, reqs, acked) && |log| <= |reqs|
    ensures WrittenMeansAcked(log, reqs + [bufs], acked)
  {
    forall i | 0 <= i < |log| && log[i].ok
      ensures TotalLen((reqs + [bufs])[i]) == 0 || Offset(reqs + [bufs], i + 1) <= acked
    {
      OffsetAppend(reqs, bufs, i + 1);
      assert (reqs + [bufs])[i] == reqs[i];
    }
  }

  lemma {:induction false} SubmitPrefix(wire: seq<byte>, reqs: seq<seq<seq<byte>>>, bufs: seq<seq<byte>>)
    requires IsPrefix(wire, reqs)
    ensures IsPrefix(wire, reqs + [bufs])
  {
    StreamAppend(reqs, bufs);
  }

  lemma {:induction false} SubmitFifo(log: seq<Callback>, q: seq<Item>, reqs: seq<seq<seq<byte>>>, x: Item)
    requires Fifo(log, q, reqs) && x.id == |reqs|
    ensures Fifo(log, q + [x], reqs + [x.bufs])
  {
  }

  lemma {:induction false} SubmitTail(q: seq<Item>, x: Item)
    requires Sane(x) && Fresh(x)
    ensures AllFresh(q) ==> AllFresh(q + [x])
    ensures NoneEmptyBehind(q) && (x.bufs != [] || FirstUnsent(q) == |q|) ==> NoneEmptyBehind(q + [x])
  {
    hide Sane;
  }

  lemma {:induction false} SubmitKeeps(c: Conn, bufs: seq<seq<byte>>)
    requires Inv(c) && Possible(c, Submit(bufs))
    ensures Inv(Apply(c, Submit(bufs)))
  {
    var x := Item(|c.reqs|, bufs, 0, 0, 0, 0);
    FreshItem(|c.reqs|, bufs);
    SubmitTail(c.queue, x);
    hide Whole, Accounted, Fifo, WrittenMeansAcked, IsPrefix, Counters, NoneEmptyBehind, AllFresh;
    if !c.cancelled {
      SubmitWhole(c.tcp.wire, c.queue, c.reqs, x);
      SubmitAccounted(|c.tcp.wire|, c.queue, c.reqs, |c.log|, c.acked, x);
    }
    SubmitFifo(c.log, c.queue, c.reqs, x);
    SubmitWritten(c.log, c.reqs, c.acked, bufs);
    SubmitPrefix(c.tcp.wire, c.reqs, bufs);
  }

  // --- completing ---

  lemma {:induction false} AckedNonNegative(q: seq<Item>)
    requires forall i | 0 <= i < |q| :: Sane(q[i])
    ensures SumAcked(q) >= 0
  {
    if q != [] { AckedNonNegative(q[1..]); }
  }

  lemma {:induction false} CompleteRest(x: Item)
    requires Sane(x) && Complete(x)
    ensures Rest(x) == [] && Acked(x) == TotalLen(x.bufs)
  {
  }

  lemma {:induction false} FireAccounted(wire: nat, q: seq<Item>, reqs: seq<seq<seq<byte>>>, done: nat, acked: nat)
    requires Accounted(wire, q, reqs, done, acked)
    requires q != [] && Complete(q[0]) && done < |reqs| && q[0].bufs == reqs[done]
    ensures Accounted(wire, q[1..], reqs, done + 1, acked)
    ensures Offset(reqs, done + 1) <= acked
  {
    OffsetStep(reqs, done);
    CompleteRest(q[0]);
    TailOrdered(q);
    AckedNonNegative(q[1..]);
  }

  lemma {:induction false} EmptyPrepend(b: seq<byte>)
    ensures [] + b == b
  {
  }

  lemma {:induction false} FireWhole(wire: seq<byte>, q: seq<Item>, reqs: seq<seq<seq<byte>>>)
    requires Whole(wire, q, reqs) && q != [] && Sane(q[0]) && Complete(q[0])
    ensures Whole(wire, q[1..], reqs)
  {
    CompleteRest(q[0]);
    EmptyPrepend(RestAll(q[1..]));
  }

  lemma {:induction false} FireFifo(c: Conn, ok: bool)
    requires Fifo(c.log, c.queue, c.reqs) && c.queue != []
    ensures Fifo(Fire(c, ok).log, Fire(c, ok).queue, c.reqs)
  {
  }

  lemma {:induction false} FireWritten(log: seq<Callback>, reqs: seq<seq<seq<byte>>>, acked: nat, x: Callback)
    requires WrittenMeansAcked(log, reqs, acked) && |log| < |reqs|
    requires x.ok ==> TotalLen(reqs[|log|]) == 0 || Offset(reqs, |log| + 1) <= acked
    ensures WrittenMeansAcked(log + [x], reqs, acked)
  {
  }

  lemma {:induction false} FireTail(q: seq<Item>)
    requires q != []
    ensures AllFresh(q) ==> AllFresh(q[1..])
    ensures NoneEmptyBehind(q) ==> NoneEmptyBehind(q[1..])
  {
  }

  lemma {:induction false} FireAlive(c: Conn)
    requires Alive(c) && Fifo(c.log, c.queue, c.reqs) && c.queue != [] && Complete(c.queue[0])
    ensures Alive(Fire(c, true)) && Offset(c.reqs, |c.log| + 1) <= c.acked
  {
    hide Whole, RestAll, Stream, WrittenMeansAcked, IsPrefix;
    assert c.queue[0].bufs == c.reqs[|c.log|];
    FireAccounted(|c.tcp.wire|, c.queue, c.reqs, |c.log|, c.acked);
    FireWhole(c.tcp.wire, c.queue, c.reqs);
  }

  lemma {:induction false} FireKeeps(c: Conn)
    requires Inv(c) && c.queue != [] && Complete(c.queue[0])
    ensures Inv(Fire(c, true))
  {
    FireTail(c.queue);
    FireFifo(c, true);
    assert c.queue[0].bufs == c.reqs[|c.log|];
    if c.cancelled {
      assert Fresh(c.queue[0]) && Complete(c.queue[0]);
    } else {
      FireAlive(c);
    }
    hide Fifo, IsPrefix, Alive, AllFresh, NoneEmptyBehind, Counters, Offset, Stream, Concat;
    FireWritten(c.log, c.reqs, c.acked, Callback(c.queue[0].id, true));
  }

  lemma {:induction false} CompleteAllKeeps(c: Conn)
    requires Inv(c)
    ensures Inv(CompleteAll(c))
    ensures CompleteAll(c).tcp == c.tcp && CompleteAll(c).closed == c.closed && CompleteAll(c).acked == c.acked
    ensures CompleteAll(c).queue != [] ==> !Complete(CompleteAll(c).queue[0])
    decreases |c.queue|
  {
    if c.queue != [] && Complete(c.queue[0]) {
      FireKeeps(c);
      CompleteAllKeeps(Fire(c, true));
    }
  }

  // --- cancelling ---

  lemma {:induction false} CancelAllKeeps(c: Conn)
    requires Fifo(c.log, c.queue, c.reqs) && WrittenMeansAcked(c.log, c.reqs, c.acked)
    ensures var d := CancelAll(c);
      && Fifo(d.log, [], d.reqs) && WrittenMeansAcked(d.log, d.reqs, d.acked)
      && d == c.(queue := [], cancelled := true, log := d.log)
    decreases |c.queue|
  {
    if c.queue != [] {
      FireFifo(c, false);
      FireWritten(c.log, c.reqs, c.acked, Callback(c.queue[0].id, false));
      CancelAllKeeps(Fire(c, false));
    }
  }

  // --- pumping ---

  lemma {:induction false} PumpKeepsFront(q: seq<Item>, k: nat, t: Tcp, i: nat)
    requires Ordered(q) && k <= |q| && (forall j | 0 <= j < k :: Finished(q[j])) && i < k
    ensures |Pump(q, k, t).queue| == |q| && Pump(q, k, t).queue[i] == q[i]
    decreases |q| - k, if k < |q| then |q[k].bufs| - q[k].sentBufs else 0
  {
    if k < |q| && !Finished(q[k]) {
      PutOrdered(q, k, t);
      PutBufStream(q[k], t);
      PutBufStops(q[k], t);
      var b := PutBuf(q[k], t);
      if b.more {
        PumpKeepsFront(q[k := b.item], if Finished(b.item) then k + 1 else k, b.tcp, i);
      }
    }
  }

  lemma {:induction false} PumpAckOrdered(q: seq<Item>, t: Tcp)
    requires Ordered(q) && AckOrdered(q)
    ensures AckOrdered(Pump(q, FirstUnsent(q), t).queue)
  {
    var k := FirstUnsent(q);
    var r := Pump(q, k, t).queue;
    PumpFlow(q, k, t);
    forall i, j | 0 <= i < j < |r| ensures Acked(r[j]) == 0 || (Finished(r[i]) && r[i].pending == 0) {
      assert Acked(r[j]) == Acked(q[j]);
      if Acked(q[j]) != 0 {
        assert Finished(q[i]) && q[i].pending == 0;
        PumpKeepsFront(q, k, t, i);
      }
    }
  }

  lemma {:induction false} SumAckedSame(q: seq<Item>, r: seq<Item>)
    requires |q| == |r| && forall i | 0 <= i < |q| :: Acked(q[i]) == Acked(r[i])
    ensures SumAcked(q) == SumAcked(r)
  {
    if q != [] { SumAckedSame(q[1..], r[1..]); }
  }

  lemma {:induction false} PumpAccounted(q: seq<Item>, t: Tcp, reqs: seq<seq<seq<byte>>>, done: nat, acked: nat)
    requires Accounted(|t.wire|, q, reqs, done, acked)
    ensures var p := Pump(q, FirstUnsent(q), t); Accounted(|p.tcp.wire|, p.queue, reqs, done, acked)
  {
    var k := FirstUnsent(q);
    PumpFlow(q, k, t);
    PumpAckOrdered(q, t);
    SumAckedSame(q, Pump(q, k, t).queue);
  }

  lemma {:induction false} PumpWhole(q: seq<Item>, t: Tcp, reqs: seq<seq<seq<byte>>>)
    requires Ordered(q) && Whole(t.wire, q, reqs)
    ensures var p := Pump(q, FirstUnsent(q), t); Whole(p.tcp.wire, p.queue, reqs) && IsPrefix(p.tcp.wire, reqs)
  {
    PumpFlow(q, FirstUnsent(q), t);
    var p := Pump(q, FirstUnsent(q), t);
    PrefixOfWhole(p.tcp.wire, RestAll(p.queue), Stream(reqs));
  }

  lemma {:induction false} PumpFifo(log: seq<Callback>, q: seq<Item>, t: Tcp, reqs: seq<seq<seq<byte>>>)
    requires Fifo(log, q, reqs) && Ordered(q) && NoneEmptyBehind(q)
    ensures var p := Pump(q, FirstUnsent(q), t); Fifo(log, p.queue, reqs) && NoneEmptyBehind(p.queue)
  {
    var k, r := FirstUnsent(q), Pump(q, FirstUnsent(q), t).queue;
    PumpFlow(q, k, t);
    assert SameRequests(q, r);
    forall i, j | 0 <= i < j < |r| ensures r[i].sentBufs >= |r[i].bufs| || r[j].bufs != [] {
      assert q[i].sentBufs >= |q[i].bufs| || q[j].bufs != [];
      if i < k { PumpKeepsFront(q, k, t, i); }
    }
  }

  lemma {:induction false} PrefixOfWhole(a: seq<byte>, b: seq<byte>, c: seq<byte>)
    requires a + b == c
    ensures a <= c
  {
  }

  lemma {:induction false} PumpGrows(q: seq<Item>, t: Tcp)
    requires Ordered(q)
    ensures |t.wire| <= |Pump(q, FirstUnsent(q), t).tcp.wire|
  {
    PumpFlow(q, FirstUnsent(q), t);
  }

  lemma {:induction false} AfterPumpKeeps(c: Conn, p: Pumped)
    requires Inv(c) && !c.cancelled && |c.tcp.wire| <= |p.tcp.wire|
    requires Accounted(|p.tcp.wire|, p.queue, c.reqs, |c.log|, c.acked)
    requires Whole(p.tcp.wire, p.queue, c.reqs) && IsPrefix(p.tcp.wire, c.reqs)
    requires Fifo(c.log, p.queue, c.reqs) && NoneEmptyBehind(p.queue)
    ensures Inv(AfterPump(c, p))
  {
    hide Whole, Accounted, Fifo, NoneEmptyBehind, WrittenMeansAcked, IsPrefix, Counters;
    PumpCounters(|c.tcp.wire|, |p.tcp.wire|, c.acked, c.recvBytes, c.sentBytes);
  }

  lemma {:induction false} PumpKeeps(c: Conn)
    requires Inv(c) && !c.cancelled && |c.tcp.wire| <= |Pump(c.queue, FirstUnsent(c.queue), c.tcp).tcp.wire|
    ensures Inv(AfterPump(c, Pump(c.queue, FirstUnsent(c.queue), c.tcp)))
  {
    hide Whole, Fifo, WrittenMeansAcked, IsPrefix, Counters, Pump, RestAll, Stream;
    PumpAccounted(c.queue, c.tcp, c.reqs, |c.log|, c.acked);
    PumpWhole(c.queue, c.tcp, c.reqs);
    PumpFifo(c.log, c.queue, c.tcp, c.reqs);
    AfterPumpKeeps(c, Pump(c.queue, FirstUnsent(c.queue), c.tcp));
  }

  lemma {:induction false} PumpCounters(wire: nat, wire': nat, acked: nat, recvBytes: nat, sentBytes: nat)
    requires Counters(wire, acked, recvBytes, sentBytes) && wire <= wire'
    ensures Counters(wire', acked, (recvBytes + (wire' - wire)) % WORD, sentBytes)
  {
    AddModulo(wire, wire' - wire, WORD);
  }

  lemma {:induction false} NoFault(c: Conn)
    requires Ordered(c.queue) && NoneEmptyBehind(c.queue)
    ensures !Pump(c.queue, FirstUnsent(c.queue), c.tcp).fault
  {
    var q, k := c.queue, FirstUnsent(c.queue);
    forall j | k < j < |q| ensures Fresh(q[j]) && q[j].bufs != [] { assert Finished(q[k]) || Fresh(q[j]); }
    PumpSafe(q, k, c.tcp);
  }

  // --- acknowledgements ---

  lemma {:induction false} AckAccounted(wire: nat, q: seq<Item>, reqs: seq<seq<seq<byte>>>, done: nat, acked: nat, len: nat)
    requires Accounted(wire, q, reqs, done, acked) && len <= SumPending(q)
    ensures Accounted(wire, Credit(q, len), reqs, done, acked + len)
  {
    CreditCounts(q, len);
    CreditOrdered(q, len);
    CreditAckOrdered(q, len);
  }

  lemma {:induction false} AckFifo(log: seq<Callback>, q: seq<Item>, reqs: seq<seq<seq<byte>>>, len: nat)
    requires Fifo(log, q, reqs) && NoneEmptyBehind(q) && len <= SumPending(q)
    ensures Fifo(log, Credit(q, len), reqs) && NoneEmptyBehind(Credit(q, len))
  {
    CreditShape(q, len);
  }

  lemma {:induction false} AckWhole(wire: seq<byte>, q: seq<Item>, reqs: seq<seq<seq<byte>>>, len: nat)
    requires Whole(wire, q, reqs) && len <= SumPending(q)
    ensures Whole(wire, Credit(q, len), reqs)
  {
    CreditRest(q, len);
  }

  lemma {:induction false} AfterAckKeeps(c: Conn, q: seq<Item>, len: nat)
    requires Inv(c) && !c.cancelled && c.acked + len <= |c.tcp.wire|
    requires Accounted(|c.tcp.wire|, q, c.reqs, |c.log|, c.acked + len)
    requires Whole(c.tcp.wire, q, c.reqs) && Fifo(c.log, q, c.reqs) && NoneEmptyBehind(q)
    ensures Inv(c.(queue := q, sentBytes := (c.sentBytes + len) % WORD, acked := c.acked + len))
  {
    hide Whole, Accounted, Fifo, IsPrefix, RestAll, Stream;
    AddModulo(c.acked, len, WORD);
  }

  lemma {:induction false} AckKeeps(c: Conn, len: nat)
    requires Inv(c) && !c.cancelled && 0 < len && c.acked + len <= |c.tcp.wire|
    ensures Safe(c, Ack(len)) && Inv(Apply(c, Ack(len)))
  {
    hide Whole, Fifo, WrittenMeansAcked, IsPrefix, Credit, RestAll, Stream, NoneEmptyBehind, Ordered, AckOrdered, Counters;
    AckAccounted(|c.tcp.wire|, c.queue, c.reqs, |c.log|, c.acked, len);
    AckWhole(c.tcp.wire, c.queue, c.reqs, len);
    AckFifo(c.log, c.queue, c.reqs, len);
    AfterAckKeeps(c, Credit(c.queue, len), len);
  }

  // --- all events ---

  lemma {:induction false} WriteCbSafe(c: Conn)
    requires Inv(c)
    ensures Safe(c, WriteCb)
  {
    NoFault(c);
  }

  lemma {:induction false} WriteCbKeeps(c: Conn)
    requires Inv(c) && Safe(c, WriteCb)
    ensures Inv(Apply(c, WriteCb))
  {
    hide Whole, Fifo, WrittenMeansAcked, IsPrefix, Counters, Pump, RestAll, Stream;
    CompleteAllKeeps(c);
    CompleteAllOrdered(c);
    var d := CompleteAll(c);
    if d.closed {
      CancelAllKeeps(d);
    } else if d.queue != [] {
      PumpGrows(d.queue, d.tcp);
      PumpKeeps(d);
    }
  }

  lemma {:induction false} TcpChangesKeeps(c: Conn, sndbuf: nat, refuse: seq<bool>)
    requires Inv(c)
    ensures Inv(Apply(c, TcpChanges(sndbuf, refuse)))
  {
    hide Whole, Accounted, Fifo, NoneEmptyBehind, WrittenMeansAcked, IsPrefix, Counters;
  }

  lemma {:induction false} CloseKeeps(c: Conn)
    requires Inv(c)
    ensures Inv(c.(closed := true))
  {
    hide Whole, Accounted, Fifo, NoneEmptyBehind, WrittenMeansAcked, IsPrefix, Counters;
  }

  lemma {:induction false} CloseHandleKeeps(c: Conn)
    requires Inv(c)
    ensures Inv(Apply(c, CloseHandle))
  {
    CloseKeeps(c);
    CancelAllKeeps(c.(closed := true));
  }

  /** Without that care a run of three events reads past a buffer array: a byte, a request without
      buffers behind it, and a send buffer with room. */
  lemma {:induction false} EmptyRequestFaults(c: Conn)
    requires IsStart(c) && c.tcp.refuse == [] && c.tcp.sndbuf > 1
    ensures var d := Apply(c, Submit([[0]]));
            Possible(c, Submit([[0]])) && !Possible(d, Submit([])) && !Safe(Apply(d, Submit([])), WriteCb)
  {
    var d := Apply(Apply(c, Submit([[0]])), Submit([]));
    var x, y := Item(0, [[0]], 0, 0, 0, 0), Item(1, [], 0, 0, 0, 0);
    FreshItem(0, [[0]]);
    FreshItem(1, []);
    assert d.queue == [x, y];
    hide Pump;
    OneByte(x, y);
    PumpFaults(d.queue, 0, d.tcp, 1);
    assert FirstUnsent(d.queue) == 0;
  }

  lemma {:induction false} OneByte(x: Item, y: Item)
    requires x == Item(0, [[0]], 0, 0, 0, 0) && y == Item(1, [], 0, 0, 0, 0)
    ensures |RestAll([x, y])| == 1 && Ordered([x, y])
  {
    FreshItem(0, [[0]]);
    FreshItem(1, []);
    var one: seq<seq<byte>> := [[0]];
    assert one[1..] == [] && |Concat(one)| == |one[0] + Concat([])| == 1;
    assert [x, y][1..] == [y] && [y][1..] == [];
    assert |RestAll([x, y])| == |Rest(x) + RestAll([y])|;
    assert |RestAll([y])| == |Rest(y) + RestAll([])| == 0;
  }

  /** Every event the outside world may cause is handled without leaving the queue or the
      buffer arrays, and keeps the invariant. */
  lemma {:induction false} EventKeeps(c: Conn, e: Event)
    requires Inv(c) && Possible(c, e)
    ensures Safe(c, e) && Inv(Apply(c, e))
  {
    match e
    case Submit(bufs) => SubmitKeeps(c, bufs);
    case WriteCb => WriteCbSafe(c); WriteCbKeeps(c);
    case Ack(len) => AckKeeps(c, len);
    case TcpChanges(sndbuf, refuse) => TcpChangesKeeps(c, sndbuf, refuse);
    case Close => CloseKeeps(c);
    case CloseHandle => CloseHandleKeeps(c);
  }

  // ---------------------------------------------------------------------
  // Runs

  ghost predicate IsRun(run: seq<Conn>, events: seq<Event>) {
    && |run| == |events| + 1 && IsStart(run[0])
    && forall i | 0 <= i < |events| ::
         Possible(run[i], events[i]) && (Safe(run[i], events[i]) ==> run[i + 1] == Apply(run[i], events[i]))
  }

  lemma {:induction false} StartInv(c: Conn)
    requires IsStart(c)
    ensures Inv(c)
  {
    assert c.reqs[..0] == c.reqs;
  }

  lemma {:induction false} RunInv(run: seq<Conn>, events: seq<Event>, n: nat)
    requires IsRun(run, events) && n < |run|
    ensures Inv(run[n])
    ensures n < |events| ==> Safe(run[n], events[n])
  {
    hide Inv;
    if n == 0 {
      StartInv(run[0]);
    } else {
      RunInv(run, events, n - 1);
      EventKeeps(run[n - 1], events[n - 1]);
    }
    if n < |events| { EventKeeps(run[n], events[n]); }
  }

  /** The bytes handed to tcp_write are a prefix of the submitted stream, and while the
      connection lives nothing is missing: the rest is exactly what the queue still holds. */
  lemma {:induction false} WireIsPrefix(run: seq<Conn>, events: seq<Event>, n: nat)
    requires IsRun(run, events) && n < |run|
    ensures run[n].tcp.wire <= Stream(run[n].reqs)
    ensures !run[n].cancelled ==> run[n].tcp.wire + RestAll(run[n].queue) == Stream(run[n].reqs)
  {
    RunInv(run, events, n);
  }

  lemma {:induction false} CompleteAllLeaves(c: Conn)
    requires Inv(c) && !c.cancelled
    ensures var d := CompleteAll(c); !d.cancelled && |RestAll(d.queue)| == |RestAll(c.queue)|
  {
    CompleteAllKeeps(c);
    CompleteAllReqs(c);
    CompleteAllCloses(c);
    var d := CompleteAll(c);
    hide CompleteAll, RestAll, Stream, Fifo, Accounted, WrittenMeansAcked, IsPrefix, Counters, NoneEmptyBehind;
    assert |c.tcp.wire + RestAll(c.queue)| == |d.tcp.wire + RestAll(d.queue)|;
  }

  lemma {:induction false} WriteCbStops(c: Conn)
    requires Inv(c) && !c.closed && Safe(c, WriteCb)
    ensures var d := Apply(c, WriteCb);
            && (RestAll(d.queue) == [] || d.tcp.sndbuf == 0 || Refused(c.tcp, d.tcp))
            && (c.tcp.refuse == [] && |RestAll(c.queue)| < c.tcp.sndbuf ==> RestAll(d.queue) == [])
  {
    CompleteAllKeeps(c);
    CompleteAllOrdered(c);
    CompleteAllLeaves(c);
    var d := CompleteAll(c);
    hide CompleteAll, RestAll, Whole, Fifo, WrittenMeansAcked, IsPrefix, Counters, Pump, Stream;
    if d.queue == [] {
      NoRest();
    } else {
      var k := FirstUnsent(d.queue);
      PumpGrows(d.queue, d.tcp);
      NoFault(d);
      PumpStops(d.queue, k, d.tcp);
      if c.tcp.refuse == [] && |RestAll(c.queue)| < c.tcp.sndbuf { PumpRoomy(d.queue, k, d.tcp); }
    }
  }

  /** The write callback of an open connection hands over everything, unless the send buffer is
      full or TCP refused. */
  lemma {:induction false} WriteCbPumps(run: seq<Conn>, events: seq<Event>, n: nat)
    requires IsRun(run, events) && n < |events| && events[n] == WriteCb && !run[n].closed
    ensures var c, d := run[n], run[n + 1];
            RestAll(d.queue) == [] || d.tcp.sndbuf == 0 || Refused(c.tcp, d.tcp)
  {
    RunInv(run, events, n);
    hide *;
    RunStep(run, events, n);
    WriteCbStops(run[n]);
  }

  /** With room in the send buffer and no refusal, TCP then has all that was ever submitted. */
  lemma {:induction false} WriteCbSendsAll(run: seq<Conn>, events: seq<Event>, n: nat)
    requires IsRun(run, events) && n < |events| && events[n] == WriteCb && !run[n].closed
    requires run[n].tcp.refuse == [] && |RestAll(run[n].queue)| < run[n].tcp.sndbuf
    ensures run[n + 1].tcp.wire == Stream(run[n + 1].reqs)
  {
    RunInv(run, events, n);
    RunInv(run, events, n + 1);
    OpenStays(run[n]);
    hide *;
    RunStep(run, events, n);
    WriteCbStops(run[n]);
    WireIsPrefix(run, events, n + 1);
    NothingMore(run[n + 1].tcp.wire);
  }

  lemma {:induction false} NothingMore(wire: seq<byte>)
    ensures wire + [] == wire
  {
  }

  lemma {:induction false} RunStep(run: seq<Conn>, events: seq<Event>, n: nat)
    requires IsRun(run, events) && n < |events| && Safe(run[n], events[n])
    ensures |run| == |events| + 1 && run[n + 1] == Apply(run[n], events[n])
  {
  }

  lemma {:induction false} OpenStays(c: Conn)
    requires Inv(c) && !c.closed && Safe(c, WriteCb)
    ensures !c.cancelled && !Apply(c, WriteCb).cancelled
  {
    CompleteAllCloses(c);
    hide Pump;
  }

  // --- what the client hears ---

  /** The first request in line is not acknowledged in full. */
  lemma {:induction false} HeadUnacked(c: Conn)
    requires Inv(c) && !c.cancelled && c.queue != [] && !Complete(c.queue[0])
    ensures |c.log| < |c.reqs| && c.acked < Offset(c.reqs, |c.log| + 1)
  {
    var q := c.queue;
    hide Whole, WrittenMeansAcked, IsPrefix, Counters, NoneEmptyBehind;
    assert q[0].bufs == c.reqs[|c.log|] && Sane(q[0]);
    OffsetStep(c.reqs, |c.log|);
    forall j | 0 < j < |q| ensures Acked(q[j]) == 0 {
      if Acked(q[j]) != 0 {
        assert Finished(q[0]) && q[0].pending == 0;
        FinishedComplete(q[0]);
        assert false;
      }
    }
    NoneAcked(q[1..]);
  }

  lemma {:induction false} FinishedComplete(x: Item)
    requires Sane(x) && Finished(x) && x.pending == 0
    ensures Complete(x)
  {
  }

  lemma {:induction false} NoneAcked(q: seq<Item>)
    requires forall j | 0 <= j < |q| :: Acked(q[j]) == 0
    ensures SumAcked(q) == 0
  {
    if q != [] { NoneAcked(q[1..]); }
  }

  lemma {:induction false} OffsetMonotone(reqs: seq<seq<seq<byte>>>, i: nat, j: nat)
    requires i <= j <= |reqs|
    ensures Offset(reqs, i) <= Offset(reqs, j)
    decreases j
  {
    hide Offset;
    if i < j {
      OffsetMonotone(reqs, i, j - 1);
      OffsetStep(reqs, j - 1);
    }
  }

  /** After the write callback, every request that TCP had acknowledged in full has been reported. */
  lemma {:induction false} CallbacksPrompt(run: seq<Conn>, events: seq<Event>, n: nat, i: nat)
    requires IsRun(run, events) && n < |events| && events[n] == WriteCb && !run[n].cancelled
    requires i < |run[n].reqs| && Offset(run[n].reqs, i + 1) <= run[n].acked
    ensures i < |run[n + 1].log|
  {
    RunInv(run, events, n);
    hide *;
    RunStep(run, events, n);
    Reported(run[n], i);
  }

  lemma {:induction false} Reported(c: Conn, i: nat)
    requires Inv(c) && Safe(c, WriteCb) && !c.cancelled && i < |c.reqs| && Offset(c.reqs, i + 1) <= c.acked
    ensures i < |Apply(c, WriteCb).log|
  {
    hide *;
    CompleteAllKeeps(c);
    CompleteAllReqs(c);
    CompleteAllCloses(c);
    ReportedAll(CompleteAll(c), i);
    WriteCbLogs(c);
  }

  /** With nothing to report in front, all that is acknowledged in full has been reported. */
  lemma {:induction false} ReportedAll(d: Conn, i: nat)
    requires Inv(d) && !d.cancelled && (d.queue != [] ==> !Complete(d.queue[0]))
    requires i < |d.reqs| && Offset(d.reqs, i + 1) <= d.acked
    ensures i < |d.log|
  {
    assert |d.log| + |d.queue| == |d.reqs|;
    hide Inv, Offset, Complete;
    if d.queue != [] {
      HeadUnacked(d);
      if i >= |d.log| { OffsetMonotone(d.reqs, |d.log| + 1, i + 1); }
    }
  }

  lemma {:induction false} WriteCbLogs(c: Conn)
    requires Safe(c, WriteCb)
    ensures |Apply(c, WriteCb).log| >= |CompleteAll(c).log|
  {
    CancelAllLogs(CompleteAll(c));
    hide CompleteAll, CancelAll, Pump;
  }

  lemma {:induction false} CancelAllLogs(c: Conn)
    ensures |CancelAll(c).log| >= |c.log|
    decreases |c.queue|
  {
    if c.queue != [] { CancelAllLogs(Fire(c, false)); }
  }

  ghost predicate AllWritten(log: seq<Callback>) {
    forall i | 0 <= i < |log| :: log[i].ok
  }

  lemma {:induction false} CompleteAllWritten(c: Conn)
    requires AllWritten(c.log)
    ensures AllWritten(CompleteAll(c).log) && CompleteAll(c).closed == c.closed
    decreases |c.queue|
  {
    if c.queue != [] && Complete(c.queue[0]) { CompleteAllWritten(Fire(c, true)); }
  }

  lemma {:induction false} CancelAllCloses(c: Conn)
    ensures CancelAll(c).closed == c.closed
    decreases |c.queue|
  {
    if c.queue != [] { CancelAllCloses(Fire(c, false)); }
  }

  lemma {:induction false} EventWritten(c: Conn, e: Event)
    requires Safe(c, e)
    ensures c.closed || e == Close || e == CloseHandle ==> Apply(c, e).closed
    ensures !Apply(c, e).closed && AllWritten(c.log) ==> AllWritten(Apply(c, e).log)
  {
    hide Pump, Credit, CompleteAll, CancelAll, AllWritten;
    if e == WriteCb {
      CompleteAllCloses(c);
      CancelAllCloses(CompleteAll(c));
      if AllWritten(c.log) { CompleteAllWritten(c); }
    }
    CancelAllCloses(c.(closed := true));
  }

  lemma {:induction false} CompleteAllCloses(c: Conn)
    ensures CompleteAll(c).closed == c.closed && CompleteAll(c).cancelled == c.cancelled
    decreases |c.queue|
  {
    if c.queue != [] && Complete(c.queue[0]) { CompleteAllCloses(Fire(c, true)); }
  }

  /** As long as the connection is open, every callback so far reported success; once closed, it
      stays so. */
  lemma {:induction false} OpenMeansWritten(run: seq<Conn>, events: seq<Event>, n: nat)
    requires IsRun(run, events) && n < |run|
    ensures !run[n].closed ==> forall i | 0 <= i < |run[n].log| :: run[n].log[i].ok
    ensures (exists m | 0 <= m < n :: events[m] == Close || events[m] == CloseHandle) ==> run[n].closed
  {
    if n > 0 {
      OpenMeansWritten(run, events, n - 1);
      RunInv(run, events, n - 1);
      assert AllWritten(run[n - 1].log) || run[n - 1].closed;
      hide Safe, Inv, Apply, Possible, IsRun, RestAll, Stream;
      RunStep(run, events, n - 1);
      EventWritten(run[n - 1], events[n - 1]);
      assert !run[n].closed ==> AllWritten(run[n].log);
    }
  }

  /** The pending counters of the queue add up to recv_bytes - sent_bytes, in 32-bit arithmetic,
      and an acknowledgement of anything outstanding fits the queue. */
  lemma {:induction false} PendingAccounts(run: seq<Conn>, events: seq<Event>, n: nat)
    requires IsRun(run, events) && n < |run| && !run[n].cancelled
    ensures SumPending(run[n].queue) == |run[n].tcp.wire| - run[n].acked
    ensures SumPending(run[n].queue) % WORD == (run[n].recvBytes - run[n].sentBytes) % WORD
  {
    hide Whole, Fifo, RestAll, Stream, WrittenMeansAcked, IsPrefix;
    RunInv(run, events, n);
    var c := run[n];
    CountersModulo(|c.tcp.wire|, c.acked, c.recvBytes, c.sentBytes);
  }

  lemma {:induction false} CountersModulo(wire: nat, acked: nat, recvBytes: nat, sentBytes: nat)
    requires Counters(wire, acked, recvBytes, sentBytes)
    ensures (wire - acked) % WORD == (recvBytes - sentBytes) % WORD
  {
  }

  /** Each request gets exactly one callback, in submission order: callback i is for request i,
      the requests without one are exactly those queued, and status 0 means that all the
      request's bytes have been acknowledged. */
  lemma {:induction false} CallbacksExactlyOnce(run: seq<Conn>, events: seq<Event>, n: nat)
    requires IsRun(run, events) && n < |run|
    ensures var c := run[n];
      && |c.log| + |c.queue| == |c.reqs|
      && (forall i | 0 <= i < |c.log| :: c.log[i].id == i)
      && (forall i | 0 <= i < |c.queue| :: c.queue[i].id == |c.log| + i)
      && (forall i | 0 <= i < |c.log| && c.log[i].ok ::
            TotalLen(c.reqs[i]) == 0 || Offset(c.reqs, i + 1) <= c.acked <= |c.tcp.wire|)
  {
    RunInv(run, events, n);
  }

  lemma {:induction false} CompleteAllReqs(c: Conn)
    ensures CompleteAll(c).reqs == c.reqs
    decreases |c.queue|
  {
    if c.queue != [] && Complete(c.queue[0]) { CompleteAllReqs(Fire(c, true)); }
  }

  lemma {:induction false} ClosingEmpties(c: Conn, e: Event)
    requires Inv(c) && Safe(c, e) && (e == CloseHandle || (e == WriteCb && c.closed))
    ensures Apply(c, e).queue == [] && Apply(c, e).reqs == c.reqs
  {
    if e == CloseHandle {
      CancelAllKeeps(c.(closed := true));
    } else {
      CompleteAllKeeps(c);
      CompleteAllReqs(c);
      CancelAllKeeps(CompleteAll(c));
    }
  }

  /** Closing leaves no request without its callback. */
  lemma {:induction false} CloseAnswersAll(run: seq<Conn>, events: seq<Event>, n: nat)
    requires IsRun(run, events) && n < |events|
    requires events[n] == CloseHandle || (events[n] == WriteCb && run[n].closed)
    ensures |run[n + 1].log| == |run[n + 1].reqs| == |run[n].reqs|
  {
    RunInv(run, events, n);
    EventKeeps(run[n], events[n]);
    ClosingEmpties(run[n], events[n]);
  }
}
