/**
 The TCP write queue of uv_lwip: requests made of several buffers are pushed in
 order through a bounded TCP send buffer and credited back as TCP acknowledges.

 This module says what each piece of the code does to the queue as a value, and
 what that means for the byte stream; UvTcp has the linked objects themselves.
 */
module WriteQueue {
  import opened Common

  /** One uvl_write_t: its buffers and its progress. The id stands for its address. */
  datatype Item = Item(id: nat, bufs: seq<seq<byte>>, sentBufs: nat, sent: nat, pending: nat, totalSent: nat)

  /** The TCP side: free send buffer, the bytes tcp_write has accepted, and which of the
      coming tcp_write calls will be refused with ERR_MEM. */
  datatype Tcp = Tcp(sndbuf: nat, refuse: seq<bool>, wire: seq<byte>)

  function Refuses(t: Tcp): bool {
    t.refuse != [] && t.refuse[0]
  }

  /** tcp_write with the copy flag: all of data is taken, or nothing. */
  function TcpWrite(t: Tcp, data: seq<byte>): Tcp
    requires |data| <= t.sndbuf
  {
    var rest := if t.refuse == [] then [] else t.refuse[1..];
    if Refuses(t) then t.(refuse := rest)
    else Tcp(t.sndbuf - |data|, rest, t.wire + data)
  }

  /** One of the tcp_write calls that led from t to u was refused. */
  ghost predicate Refused(t: Tcp, u: Tcp) {
    |u.refuse| <= |t.refuse| && exists i | 0 <= i < |t.refuse| - |u.refuse| :: t.refuse[i]
  }

  ghost predicate Later(t: Tcp, u: Tcp) {
    |u.refuse| <= |t.refuse| && u.refuse == t.refuse[|t.refuse| - |u.refuse|..]
  }

  lemma {:induction false} RefusedLater(t: Tcp, b: Tcp, u: Tcp)
    requires Later(t, b) && Refused(b, u)
    ensures Refused(t, u)
  {
    var i :| 0 <= i < |b.refuse| - |u.refuse| && b.refuse[i];
    assert t.refuse[|t.refuse| - |b.refuse| + i];
  }

  // ---------------------------------------------------------------------
  // The queue as a byte stream

  function Concat(bufs: seq<seq<byte>>): seq<byte> {
    if bufs == [] then [] else bufs[0] + Concat(bufs[1..])
  }

  function TotalLen(bufs: seq<seq<byte>>): nat {
    |Concat(bufs)|
  }

  /** Progress that is possible at all: inside the buffers, and counted right. */
  ghost predicate Sane(x: Item) {
    && x.sentBufs <= |x.bufs|
    && (x.sentBufs < |x.bufs| ==> x.sent <= |x.bufs[x.sentBufs]|)
    && (x.sentBufs == |x.bufs| ==> x.sent == 0)
    && x.pending <= x.totalSent
    && x.totalSent + |Rest(x)| == TotalLen(x.bufs)
  }

  /** The bytes of the request not yet handed to TCP. */
  function Rest(x: Item): seq<byte> {
    if x.sentBufs < |x.bufs| && x.sent <= |x.bufs[x.sentBufs]|
    then x.bufs[x.sentBufs][x.sent..] + Concat(x.bufs[x.sentBufs + 1..])
    else []
  }

  function RestAll(q: seq<Item>): seq<byte> {
    if q == [] then [] else Rest(q[0]) + RestAll(q[1..])
  }

  function SumPending(q: seq<Item>): nat {
    if q == [] then 0 else q[0].pending + SumPending(q[1..])
  }

  /** Bytes of the request that TCP has acknowledged. */
  function Acked(x: Item): int {
    x.totalSent - x.pending
  }

  // ---------------------------------------------------------------------
  // uvl_imp_write_buf_to_tcp

  /** What one call leaves: the request, TCP, and whether to go on (the return value 1). */
  datatype Put = Put(item: Item, tcp: Tcp, more: bool)

  function MayNext(x: Item, t: Tcp): Put {
    if t.sndbuf == 0 then Put(x, t, false)
    else Put(x.(sent := 0, sentBufs := x.sentBufs + 1), t, true)
  }

  function Advanced(x: Item, n: nat): Item {
    x.(sent := x.sent + n, pending := x.pending + n, totalSent := x.totalSent + n)
  }

  function PutBuf(x: Item, t: Tcp): Put
    requires x.sentBufs < |x.bufs| && x.sent <= |x.bufs[x.sentBufs]|
    decreases |x.bufs[x.sentBufs]| - x.sent
  {
    var buf := x.bufs[x.sentBufs];
    var n := Min(|buf| - x.sent, t.sndbuf);
    if n == 0 then MayNext(x, t)
    else
      var t' := TcpWrite(t, buf[x.sent..x.sent + n]);
      if Refuses(t) then Put(x, t', false)
      else
        var x' := Advanced(x, n);
        if x'.sent < |buf| then PutBuf(x', t') else MayNext(x', t')
  }

  lemma {:induction false} ConcatTail(bufs: seq<seq<byte>>, k: nat)
    requires k < |bufs|
    ensures Concat(bufs[k..]) == bufs[k] + Concat(bufs[k + 1..])
  {
    assert bufs[k..][1..] == bufs[k + 1..];
  }

  /** Moving on to the next buffer when this one is used up drops nothing. */
  lemma {:induction false} MayNextRest(x: Item, t: Tcp)
    requires Sane(x) && x.sentBufs < |x.bufs| && (x.sent == |x.bufs[x.sentBufs]| || t.sndbuf == 0)
    ensures Sane(MayNext(x, t).item) && Rest(MayNext(x, t).item) == Rest(x)
  {
    if t.sndbuf != 0 {
      var k := x.sentBufs;
      NothingLeft(x.bufs[k], x.sent, Concat(x.bufs[k + 1..]));
      if k + 1 < |x.bufs| {
        ConcatTail(x.bufs, k + 1);
        hide Concat;
        assert x.bufs[k + 1][0..] == x.bufs[k + 1];
      } else {
        assert x.bufs[k + 1..] == [];
      }
    }
  }

  lemma {:induction false} NothingLeft(buf: seq<byte>, n: nat, rest: seq<byte>)
    requires n == |buf|
    ensures buf[n..] + rest == rest
  {
  }

  /** The bytes that leave the request are the bytes that reach TCP, in order, and they are
      all counted as pending. */
  ghost predicate Progress(x: Item, t: Tcp, x': Item, t': Tcp) {
    && Sane(x') && x'.id == x.id && x'.bufs == x.bufs
    && t'.wire + Rest(x') == t.wire + Rest(x)
    && t.wire <= t'.wire
    && x'.pending - x.pending == x'.totalSent - x.totalSent == |t'.wire| - |t.wire|
    && |t'.refuse| <= |t.refuse|
  }

  lemma {:induction false} AcceptedProgress(x: Item, t: Tcp, n: nat)
    requires Sane(x) && x.sentBufs < |x.bufs| && x.sent + n <= |x.bufs[x.sentBufs]| && n <= t.sndbuf && !Refuses(t)
    ensures Progress(x, t, Advanced(x, n),
                     TcpWrite(t, x.bufs[x.sentBufs][x.sent..x.sent + n]))
  {
    hide Concat;
    var buf, rest, x' := x.bufs[x.sentBufs], Concat(x.bufs[x.sentBufs + 1..]), Advanced(x, n);
    HandedOver(t.wire, buf, x.sent, n, rest);
    assert Rest(x) == buf[x.sent..] + rest && Rest(x') == buf[x.sent + n..] + rest;
    assert TcpWrite(t, buf[x.sent..x.sent + n]).wire == t.wire + buf[x.sent..x.sent + n];
    hide Rest;
    assert Sane(x');
  }

  lemma {:induction false} HandedOver(wire: seq<byte>, buf: seq<byte>, sent: nat, n: nat, rest: seq<byte>)
    requires sent + n <= |buf|
    ensures (wire + buf[sent..sent + n]) + (buf[sent + n..] + rest) == wire + (buf[sent..] + rest)
    ensures |buf[sent..] + rest| == n + |buf[sent + n..] + rest|
    ensures wire <= wire + buf[sent..sent + n] && |wire + buf[sent..sent + n]| == |wire| + n
  {
    assert buf[sent..] == buf[sent..sent + n] + buf[sent + n..];
  }

  /** Moving on to the next buffer keeps whatever progress has been made. */
  lemma {:induction false} MayNextProgress(x: Item, t: Tcp, y: Item, u: Tcp)
    requires Progress(x, t, y, u) && y.sentBufs < |y.bufs| && (y.sent == |y.bufs[y.sentBufs]| || u.sndbuf == 0)
    ensures MayNext(y, u).tcp == u && Progress(x, t, MayNext(y, u).item, u)
  {
    MayNextRest(y, u);
  }

  /** The do-while loop gets at most one write accepted: that write finishes the buffer or
      fills the send buffer. */
  lemma {:induction false} PutBufOnce(x: Item, t: Tcp)
    requires x.sentBufs < |x.bufs| && x.sent <= |x.bufs[x.sentBufs]|
    ensures var buf := x.bufs[x.sentBufs];
            var n := Min(|buf| - x.sent, t.sndbuf);
            var t' := TcpWrite(t, buf[x.sent..x.sent + n]);
            PutBuf(x, t) == if n == 0 then MayNext(x, t)
                            else if Refuses(t) then Put(x, t', false)
                            else MayNext(Advanced(x, n), t')
  {
  }

  lemma {:induction false} PutBufAccepted(x: Item, t: Tcp, n: nat)
    requires Sane(x) && x.sentBufs < |x.bufs| && n == Min(|x.bufs[x.sentBufs]| - x.sent, t.sndbuf) && !Refuses(t)
    ensures var t' := TcpWrite(t, x.bufs[x.sentBufs][x.sent..x.sent + n]);
            Progress(x, t, MayNext(Advanced(x, n), t').item, t')
  {
    AcceptedProgress(x, t, n);
    MayNextProgress(x, t, Advanced(x, n), TcpWrite(t, x.bufs[x.sentBufs][x.sent..x.sent + n]));
  }

  lemma {:induction false} PutBufIdle(x: Item, t: Tcp)
    requires Sane(x) && x.sentBufs < |x.bufs| && (x.sent == |x.bufs[x.sentBufs]| || t.sndbuf == 0)
    ensures Progress(x, t, MayNext(x, t).item, t)
  {
    assert Progress(x, t, x, t);
    MayNextProgress(x, t, x, t);
  }

  lemma {:induction false} PutBufRefused(x: Item, t: Tcp)
    requires Sane(x) && Refuses(t)
    ensures Progress(x, t, x, t.(refuse := t.refuse[1..]))
  {
  }

  /** One call makes progress. */
  lemma {:induction false} PutBufStream(x: Item, t: Tcp)
    requires Sane(x) && x.sentBufs < |x.bufs|
    ensures Progress(x, t, PutBuf(x, t).item, PutBuf(x, t).tcp)
  {
    var n := Min(|x.bufs[x.sentBufs]| - x.sent, t.sndbuf);
    PutBufOnce(x, t);
    var p := PutBuf(x, t);
    hide Rest, Concat, PutBuf;
    if n == 0 {
      PutBufIdle(x, t);
      assert p.item == MayNext(x, t).item && p.tcp == t;
    } else if Refuses(t) {
      PutBufRefused(x, t);
      assert p.item == x && p.tcp == t.(refuse := t.refuse[1..]);
    } else {
      PutBufAccepted(x, t, n);
      var t' := TcpWrite(t, x.bufs[x.sentBufs][x.sent..x.sent + n]);
      assert p.item == MayNext(Advanced(x, n), t').item && p.tcp == t';
    }
  }

  /** One call returns 1 exactly when it has finished a buffer, and returns 0 only because
      the send buffer is full or TCP refused. */
  lemma {:induction false} PutBufStops(x: Item, t: Tcp)
    requires x.sentBufs < |x.bufs| && x.sent <= |x.bufs[x.sentBufs]|
    ensures var p := PutBuf(x, t);
      && p.item.sentBufs == x.sentBufs + (if p.more then 1 else 0)
      && (!p.more ==> p.tcp.sndbuf == 0 || Refuses(t))
  {
    PutBufOnce(x, t);
  }

  lemma {:induction false} PutBufLater(x: Item, t: Tcp)
    requires x.sentBufs < |x.bufs| && x.sent <= |x.bufs[x.sentBufs]|
    ensures Later(t, PutBuf(x, t).tcp)
    ensures !PutBuf(x, t).more ==> PutBuf(x, t).tcp.sndbuf == 0 || Refused(t, PutBuf(x, t).tcp)
  {
    PutBufOnce(x, t);
    PutBufStops(x, t);
    var u := PutBuf(x, t).tcp;
    assert u.refuse == t.refuse || (t.refuse != [] && u.refuse == t.refuse[1..]);
    assert Refuses(t) && !PutBuf(x, t).more ==> u.sndbuf == 0 || u.refuse == t.refuse[1..];
    hide PutBuf;
    OneCall(t, u);
  }

  lemma {:induction false} OneCall(t: Tcp, u: Tcp)
    requires u.refuse == t.refuse || (t.refuse != [] && u.refuse == t.refuse[1..])
    ensures Later(t, u)
    ensures Refuses(t) && u.refuse == t.refuse[1..] ==> Refused(t, u)
  {
    assert t.refuse[0..] == t.refuse;
    if Refuses(t) { assert t.refuse[0]; }
  }

  // ---------------------------------------------------------------------
  // uvl_imp_write_to_tcp

  /** Index of the first request that still has buffers to hand over, or |q|. */
  function FirstUnsent(q: seq<Item>): (k: nat)
    ensures k <= |q|
    ensures k < |q| ==> q[k].sentBufs < |q[k].bufs|
    ensures forall i | 0 <= i < k :: q[i].sentBufs >= |q[i].bufs|
  {
    if q == [] then 0 else if q[0].sentBufs < |q[0].bufs| then 0 else 1 + FirstUnsent(q[1..])
  }

  /** fault: the code has gone on to a request without buffers and reads past its empty array. */
  datatype Pumped = Pumped(queue: seq<Item>, tcp: Tcp, fault: bool)

  /** The second loop, from request k on. */
  function Pump(q: seq<Item>, k: nat, t: Tcp): Pumped
    requires k <= |q|
    requires forall i | k <= i < |q| :: Sane(q[i])
    decreases |q| - k, if k < |q| then |q[k].bufs| - q[k].sentBufs else 0
  {
    if k == |q| then Pumped(q, t, false)
    else if q[k].sentBufs == |q[k].bufs| then Pumped(q, t, true)
    else
      PutBufStream(q[k], t);
      PutBufStops(q[k], t);
      var p := PutBuf(q[k], t);
      var q' := q[k := p.item];
      if !p.more then Pumped(q', p.tcp, false)
      else Pump(q', if p.item.sentBufs == |p.item.bufs| then k + 1 else k, p.tcp)
  }

  predicate Fresh(x: Item) {
    x.sentBufs == 0 && x.sent == 0 && x.pending == 0 && x.totalSent == 0
  }

  predicate Finished(x: Item) {
    x.sentBufs == |x.bufs|
  }

  /** Requests are handed over one after the other. */
  ghost predicate Ordered(q: seq<Item>) {
    && (forall i | 0 <= i < |q| :: Sane(q[i]))
    && (forall i, j | 0 <= i < j < |q| :: Finished(q[i]) || Fresh(q[j]))
  }

  /** Acknowledgements are credited one request after the other. */
  ghost predicate AckOrdered(q: seq<Item>) {
    forall i, j | 0 <= i < j < |q| :: Acked(q[j]) == 0 || (Finished(q[i]) && q[i].pending == 0)
  }

  lemma {:induction false} RestSkip(q: seq<Item>, k: nat)
    requires k <= |q| && forall i | 0 <= i < k :: Finished(q[i])
    ensures RestAll(q) == RestAll(q[k..])
  {
    if k > 0 {
      RestSkip(q[1..], k - 1);
      assert q[1..][k - 1..] == q[k..];
      assert Rest(q[0]) == [];
    } else {
      assert q[0..] == q;
    }
  }

  lemma {:induction false} RestUpdate(q: seq<Item>, k: nat, x: Item)
    requires k < |q| && forall i | 0 <= i < k :: Finished(q[i])
    ensures RestAll(q) == Rest(q[k]) + RestAll(q[k + 1..])
    ensures RestAll(q[k := x]) == Rest(x) + RestAll(q[k + 1..])
  {
    RestSkip(q, k);
    assert q[k..][1..] == q[k + 1..];
    RestSkip(q[k := x], k);
    assert q[k := x][k..][1..] == q[k + 1..];
  }

  lemma {:induction false} SumUpdate(q: seq<Item>, k: nat, x: Item)
    requires k < |q|
    ensures SumPending(q[k := x]) == SumPending(q) - q[k].pending + x.pending
  {
    if k == 0 {
      assert q[0 := x][1..] == q[1..];
    } else {
      SumUpdate(q[1..], k - 1, x);
      assert q[k := x][1..] == q[1..][k - 1 := x];
    }
  }

  /** What the requests are, whatever their progress. */
  ghost predicate SameRequests(q: seq<Item>, r: seq<Item>) {
    |q| == |r| && forall i | 0 <= i < |q| :: r[i].id == q[i].id && r[i].bufs == q[i].bufs
  }

  /** The queue and TCP before and after: the stream is unchanged, only the boundary between
      what TCP has and what is left has moved; every byte moved is pending; nothing acknowledged
      is touched. */
  ghost predicate Flow(q: seq<Item>, t: Tcp, r: seq<Item>, u: Tcp) {
    && SameRequests(q, r)
    && u.wire + RestAll(r) == t.wire + RestAll(q)
    && t.wire <= u.wire
    && SumPending(r) - SumPending(q) == |u.wire| - |t.wire|
    && (forall i | 0 <= i < |q| :: Acked(r[i]) == Acked(q[i]))
    && |u.refuse| <= |t.refuse|
  }

  lemma {:induction false} FlowTransitive(q: seq<Item>, t: Tcp, r: seq<Item>, u: Tcp, s: seq<Item>, v: Tcp)
    requires Flow(q, t, r, u) && Flow(r, u, s, v)
    ensures Flow(q, t, s, v)
  {
  }

  lemma {:induction false} SameWithTail(a: seq<byte>, b: seq<byte>, c: seq<byte>, d: seq<byte>, tail: seq<byte>)
    requires a + b == c + d
    ensures a + (b + tail) == c + (d + tail)
  {
    assert a + (b + tail) == (a + b) + tail;
    assert c + (d + tail) == (c + d) + tail;
  }

  lemma {:induction false} UpdateStream(q: seq<Item>, k: nat, t: Tcp, x: Item, u: Tcp)
    requires k < |q| && u.wire + Rest(x) == t.wire + Rest(q[k])
    requires forall i | 0 <= i < k :: Finished(q[i])
    ensures u.wire + RestAll(q[k := x]) == t.wire + RestAll(q)
  {
    RestUpdate(q, k, x);
    SameWithTail(u.wire, Rest(x), t.wire, Rest(q[k]), RestAll(q[k + 1..]));
  }

  lemma {:induction false} UpdateFlow(q: seq<Item>, k: nat, t: Tcp, x: Item, u: Tcp)
    requires k < |q| && Progress(q[k], t, x, u)
    requires forall i | 0 <= i < k :: Finished(q[i])
    ensures Flow(q, t, q[k := x], u)
  {
    UpdateStream(q, k, t, x, u);
    SumUpdate(q, k, x);
    assert x.id == q[k].id && x.bufs == q[k].bufs && Acked(x) == Acked(q[k]);
    assert t.wire <= u.wire && |u.refuse| <= |t.refuse| && x.pending - q[k].pending == |u.wire| - |t.wire|;
    hide *;
    OneChanged(q, k, t, x, u);
  }

  lemma {:induction false} OneChanged(q: seq<Item>, k: nat, t: Tcp, x: Item, u: Tcp)
    requires k < |q| && x.id == q[k].id && x.bufs == q[k].bufs && Acked(x) == Acked(q[k])
    requires t.wire <= u.wire && |u.refuse| <= |t.refuse|
    requires u.wire + RestAll(q[k := x]) == t.wire + RestAll(q)
    requires SumPending(q[k := x]) - SumPending(q) == |u.wire| - |t.wire|
    ensures Flow(q, t, q[k := x], u)
  {
    hide RestAll, SumPending, Acked;
  }

  /** One buffer of request k, with all requests before it finished. */
  lemma {:induction false} PutFlow(q: seq<Item>, k: nat, t: Tcp)
    requires Ordered(q) && k < |q| && q[k].sentBufs < |q[k].bufs|
    requires forall i | 0 <= i < k :: Finished(q[i])
    ensures var p := PutBuf(q[k], t); Flow(q, t, q[k := p.item], p.tcp)
  {
    PutBufStream(q[k], t);
    UpdateFlow(q, k, t, PutBuf(q[k], t).item, PutBuf(q[k], t).tcp);
  }

  lemma {:induction false} PutOrdered(q: seq<Item>, k: nat, t: Tcp)
    requires Ordered(q) && k < |q| && q[k].sentBufs < |q[k].bufs|
    requires forall i | 0 <= i < k :: Finished(q[i])
    ensures Ordered(q[k := PutBuf(q[k], t).item])
  {
    PutBufStream(q[k], t);
    var r := q[k := PutBuf(q[k], t).item];
    forall i, j | 0 <= i < j < |r| ensures Finished(r[i]) || Fresh(r[j]) {
      assert Finished(q[i]) || Fresh(q[j]);
    }
  }

  /** The whole of uvl_imp_write_to_tcp, from the first unfinished request. */
  lemma {:induction false} PumpFlow(q: seq<Item>, k: nat, t: Tcp)
    requires Ordered(q) && k <= |q| && forall i | 0 <= i < k :: Finished(q[i])
    ensures var p := Pump(q, k, t); Flow(q, t, p.queue, p.tcp) && Ordered(p.queue)
    decreases |q| - k, if k < |q| then |q[k].bufs| - q[k].sentBufs else 0
  {
    if k < |q| && q[k].sentBufs < |q[k].bufs| {
      PutFlow(q, k, t);
      PutOrdered(q, k, t);
      PutBufStream(q[k], t);
      PutBufStops(q[k], t);
      var b := PutBuf(q[k], t);
      if b.more {
        var q' := q[k := b.item];
        var k' := if Finished(b.item) then k + 1 else k;
        PumpFlow(q', k', b.tcp);
        var p := Pump(q', k', b.tcp);
        FlowTransitive(q, t, q', b.tcp, p.queue, p.tcp);
      }
    }
  }

  /** Work is only left behind for a reason. */
  lemma {:induction false} PumpStops(q: seq<Item>, k: nat, t: Tcp)
    requires Ordered(q) && k <= |q| && forall i | 0 <= i < k :: Finished(q[i])
    ensures var p := Pump(q, k, t);
      p.fault || RestAll(p.queue) == [] || p.tcp.sndbuf == 0 || Refused(t, p.tcp)
    decreases |q| - k, if k < |q| then |q[k].bufs| - q[k].sentBufs else 0
  {
    if k == |q| {
      RestSkip(q, k);
    } else if q[k].sentBufs < |q[k].bufs| {
      PutOrdered(q, k, t);
      PutBufStream(q[k], t);
      PutBufStops(q[k], t);
      PutBufLater(q[k], t);
      var b := PutBuf(q[k], t);
      hide PutBuf, Refused, Later;
      if b.more {
        var k' := if Finished(b.item) then k + 1 else k;
        PumpStops(q[k := b.item], k', b.tcp);
        var u := Pump(q[k := b.item], k', b.tcp).tcp;
        if Refused(b.tcp, u) { RefusedLater(t, b.tcp, u); }
      }
    }
  }

  /** With room for everything and no refusal, everything is handed over. */
  lemma {:induction false} PumpRoomy(q: seq<Item>, k: nat, t: Tcp)
    requires Ordered(q) && k <= |q| && forall i | 0 <= i < k :: Finished(q[i])
    requires t.refuse == [] && |RestAll(q)| < t.sndbuf && !Pump(q, k, t).fault
    ensures RestAll(Pump(q, k, t).queue) == []
    decreases |q| - k, if k < |q| then |q[k].bufs| - q[k].sentBufs else 0
  {
    hide Rest, RestAll, Concat, PutBuf;
    if k == |q| {
      RestSkip(q, k);
      assert q[k..] == [];
      NoRest();
    } else {
      PutBufRoomy(q, k, t);
      PutOrdered(q, k, t);
      PutBufStream(q[k], t);
      PutBufStops(q[k], t);
      var b := PutBuf(q[k], t);
      PumpRoomy(q[k := b.item], if Finished(b.item) then k + 1 else k, b.tcp);
    }
  }

  lemma {:induction false} NoRest()
    ensures RestAll([]) == []
  {
  }

  // A request without buffers that is not first in line makes the loop read past an empty
  // array as soon as TCP takes everything before it; nothing else can.

  lemma {:induction false} PumpSafe(q: seq<Item>, k: nat, t: Tcp)
    requires Ordered(q) && k <= |q| && forall i | 0 <= i < k :: Finished(q[i])
    requires k < |q| ==> !Finished(q[k])
    requires forall j | k < j < |q| :: Fresh(q[j]) && q[j].bufs != []
    ensures !Pump(q, k, t).fault
    decreases |q| - k, if k < |q| then |q[k].bufs| - q[k].sentBufs else 0
  {
    if k < |q| {
      PutOrdered(q, k, t);
      PutBufStream(q[k], t);
      PutBufStops(q[k], t);
      var b := PutBuf(q[k], t);
      if b.more {
        PumpSafe(q[k := b.item], if Finished(b.item) then k + 1 else k, b.tcp);
      }
    }
  }

  /** With room for everything, one call finishes a buffer and leaves room for the rest. */
  lemma {:induction false} PutBufRoomy(q: seq<Item>, k: nat, t: Tcp)
    requires Ordered(q) && k < |q| && !Finished(q[k]) && forall i | 0 <= i < k :: Finished(q[i])
    requires t.refuse == [] && |RestAll(q)| < t.sndbuf
    ensures var b := PutBuf(q[k], t);
      b.more && b.tcp.refuse == [] && |RestAll(q[k := b.item])| < b.tcp.sndbuf
  {
    PutBufOnce(q[k], t);
    RestUpdate(q, k, PutBuf(q[k], t).item);
    PutFlow(q, k, t);
  }

  lemma {:induction false} PumpFaults(q: seq<Item>, k: nat, t: Tcp, j: nat)
    requires Ordered(q) && k <= j < |q| && q[j].bufs == []
    requires forall i | 0 <= i < k :: Finished(q[i])
    requires t.refuse == [] && |RestAll(q)| < t.sndbuf
    ensures Pump(q, k, t).fault
    decreases |q| - k, |q[k].bufs| - q[k].sentBufs
  {
    hide Rest, RestAll, Concat, PutBuf;
    if !Finished(q[k]) {
      PutBufRoomy(q, k, t);
      PutOrdered(q, k, t);
      PutBufStream(q[k], t);
      PutBufStops(q[k], t);
      var b := PutBuf(q[k], t);
      PumpFaults(q[k := b.item], if Finished(b.item) then k + 1 else k, b.tcp, j);
    }
  }

  /** The exact condition for uvl_imp_write_to_tcp to stay inside the buffer arrays however
      TCP behaves: no request behind the first unfinished one has an empty buffer array. */
  lemma {:induction false} FaultExact(q: seq<Item>)
    requires Ordered(q)
    ensures (exists t: Tcp :: Pump(q, FirstUnsent(q), t).fault) <==>
            (exists j :: FirstUnsent(q) < j < |q| && q[j].bufs == [])
  {
    var k := FirstUnsent(q);
    if j :| k < j < |q| && q[j].bufs == [] {
      var t := Tcp(|RestAll(q)| + 1, [], []);
      PumpFaults(q, k, t, j);
      assert Pump(q, k, t).fault;
    } else {
      forall t: Tcp ensures !Pump(q, k, t).fault {
        PumpSafe(q, k, t);
      }
    }
  }

  // ---------------------------------------------------------------------
  // uvl_client_sent_func

  /** An acknowledgement of len bytes, credited from the front of the queue. */
  function Credit(q: seq<Item>, len: nat): seq<Item>
    requires len <= SumPending(q)
  {
    if len == 0 then q
    else
      var d := Min(q[0].pending, len);
      [q[0].(pending := q[0].pending - d)] + Credit(q[1..], len - d)
  }

  function SumAcked(q: seq<Item>): int {
    if q == [] then 0 else Acked(q[0]) + SumAcked(q[1..])
  }

  /** The credit leaves everything but pending alone. */
  lemma {:induction false} CreditShape(q: seq<Item>, len: nat)
    requires len <= SumPending(q)
    ensures var r := Credit(q, len);
      && |r| == |q|
      && forall i | 0 <= i < |q| :: r[i].pending <= q[i].pending && r[i] == q[i].(pending := r[i].pending)
  {
    if len > 0 {
      CreditShape(q[1..], len - Min(q[0].pending, len));
    }
  }

  /** The credit is all used up. */
  lemma {:induction false} CreditCounts(q: seq<Item>, len: nat)
    requires len <= SumPending(q)
    ensures SumPending(Credit(q, len)) == SumPending(q) - len
    ensures SumAcked(Credit(q, len)) == SumAcked(q) + len
  {
    if len > 0 {
      var d := Min(q[0].pending, len);
      CreditCounts(q[1..], len - d);
      assert Credit(q, len)[1..] == Credit(q[1..], len - d);
    }
  }

  lemma {:induction false} CreditRest(q: seq<Item>, len: nat)
    requires len <= SumPending(q)
    ensures RestAll(Credit(q, len)) == RestAll(q)
  {
    if len > 0 {
      var d := Min(q[0].pending, len);
      CreditRest(q[1..], len - d);
      assert Credit(q, len)[1..] == Credit(q[1..], len - d);
      assert Rest(Credit(q, len)[0]) == Rest(q[0]);
      hide Rest, Credit;
    }
  }

  /** A request is credited only once everything before it has nothing pending. */
  lemma {:induction false} CreditInOrder(q: seq<Item>, len: nat, i: nat, j: nat)
    requires len <= SumPending(q) && i < j < |q|
    ensures |Credit(q, len)| == |q|
    ensures Credit(q, len)[j] == q[j] || Credit(q, len)[i].pending == 0
  {
    CreditShape(q, len);
    if len > 0 {
      var d := Min(q[0].pending, len);
      assert Credit(q, len)[j] == Credit(q[1..], len - d)[j - 1];
      if i > 0 {
        CreditInOrder(q[1..], len - d, i - 1, j - 1);
        assert Credit(q, len)[i] == Credit(q[1..], len - d)[i - 1];
      }
    }
  }

  lemma {:induction false} CreditSane(x: Item, pending: nat)
    requires Sane(x) && pending <= x.pending
    ensures Sane(x.(pending := pending))
  {
    assert Rest(x.(pending := pending)) == Rest(x);
  }

  lemma {:induction false} CreditOrdered(q: seq<Item>, len: nat)
    requires Ordered(q) && len <= SumPending(q)
    ensures Ordered(Credit(q, len))
  {
    var r := Credit(q, len);
    CreditShape(q, len);
    forall i | 0 <= i < |r| ensures Sane(r[i]) { CreditSane(q[i], r[i].pending); }
    forall i, j | 0 <= i < j < |r| ensures Finished(r[i]) || Fresh(r[j]) {
      assert Finished(q[i]) || Fresh(q[j]);
    }
  }

  lemma {:induction false} CreditAckOrdered(q: seq<Item>, len: nat)
    requires Ordered(q) && AckOrdered(q) && len <= SumPending(q)
    ensures AckOrdered(Credit(q, len))
  {
    var r := Credit(q, len);
    CreditShape(q, len);
    forall i, j | 0 <= i < j < |r| ensures Acked(r[j]) == 0 || (Finished(r[i]) && r[i].pending == 0) {
      CreditInOrder(q, len, i, j);
      assert Finished(q[i]) || Fresh(q[j]);
      assert Acked(q[j]) == 0 || (Finished(q[i]) && q[i].pending == 0);
    }
  }

  // ---------------------------------------------------------------------
  // uvl_async_tcp_write_cb

  predicate Complete(x: Item) {
    x.totalSent == TotalLen(x.bufs) && x.pending == 0
  }
}
