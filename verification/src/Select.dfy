/**
 The select / event_callback wake-up protocol of the sockets layer.

 Any number of threads sit in lwip_select while any number of threads deliver
 events through event_callback. Every stretch of code between SYS_ARCH_PROTECT
 and SYS_ARCH_UNPROTECT is one atomic step; a run is any sequence of steps, so a
 theorem about runs is a theorem about all interleavings. Sockets stay open,
 and the counters select_cb_ctr and select_waiting do not wrap.
 */
module Select {
  import opened Common

  /** The part of struct lwip_sock the protocol uses. */
  datatype Sock = Sock(rcvevent: int, sendevent: bool, errevent: bool, lastdata: bool, waiting: nat)

  /** The arguments of one lwip_select call; an absent set is an empty one. */
  datatype Sets = Sets(maxfdp1: nat, read: set<nat>, write: set<nat>, except: set<nat>)

  /** Where a thread is inside lwip_select. Scan passes are 1, 2 and 3. */
  datatype Pc =
    | Scan(pass: nat, i: nat)
    | Register
    | CountUp(i: nat)
    | Blocked
    | CountDown(i: nat)
    | Unlink

  /** A thread in lwip_select with its select_cb and its locals. */
  datatype Selector = Selector(pc: Pc, sets: Sets, poll: bool, nready: int, maxfdp2: nat,
                               timedOut: bool, signalled: bool, sem: nat)

  /** A thread in event_callback for socket s, between two critical sections:
      it has just dealt with scb and remembers the list's change counter. */
  datatype Walker = Walker(s: nat, scb: nat, last: nat)

  datatype State = State(socks: map<nat, Sock>, list: seq<nat>, ctr: nat,
                         sels: map<nat, Selector>, evs: map<nat, Walker>)

  datatype Event = RcvPlus | RcvMinus | SendPlus | SendMinus | Error

  datatype Step =
    | SelectEnter(t: nat, sets: Sets, poll: bool)
    | SelectStep(t: nat)
    | SelectTimeout(t: nat)
    | EventEnter(e: nat, s: nat, evt: Event)
    | EventStep(e: nat)
    | SetLastData(s: nat, lastdata: bool)

  // ---------------------------------------------------------------------
  // The code

  predicate Watched(sets: Sets, s: nat) {
    s < sets.maxfdp1 && (s in sets.read || s in sets.write || s in sets.except)
  }

  /** event_callback's test whether the socket's state concerns this select call. */
  predicate Fires(k: Sock, sets: Sets, s: nat) {
    || (k.rcvevent > 0 && s in sets.read)
    || (k.sendevent && s in sets.write)
    || (k.errevent && s in sets.except)
  }

  /** lwip_selscan's contribution of descriptor i to nready. */
  function ReadyCount(socks: map<nat, Sock>, sets: Sets, i: nat): nat {
    if i !in socks then 0 else
      var k := socks[i];
      (if i in sets.read && (k.lastdata || k.rcvevent > 0) then 1 else 0)
      + (if i in sets.write && k.sendevent then 1 else 0)
      + (if i in sets.except && k.errevent then 1 else 0)
  }

  function Post(k: Sock, evt: Event): Sock {
    match evt
    case RcvPlus => k.(rcvevent := k.rcvevent + 1)
    case RcvMinus => k.(rcvevent := k.rcvevent - 1)
    case SendPlus => k.(sendevent := true)
    case SendMinus => k.(sendevent := false)
    case Error => k.(errevent := true)
  }

  /** Position of t in the list, or |list|. */
  function Pos(list: seq<nat>, t: nat): (p: nat)
    ensures p <= |list|
    ensures p < |list| ==> list[p] == t
    ensures forall j | 0 <= j < p :: list[j] != t
    ensures t in list <==> p < |list|
  {
    if list == [] then 0 else if list[0] == t then 0 else 1 + Pos(list[1..], t)
  }

  /** One thread's select_cb examined for socket s inside a critical section. */
  function Examine(st: State, s: nat, t: nat): State
    requires s in st.socks && t in st.sels
  {
    var sel := st.sels[t];
    if !sel.signalled && Fires(st.socks[s], sel.sets, s)
    then st.(sels := st.sels[t := sel.(signalled := true, sem := sel.sem + 1)])
    else st
  }

  /** event_callback goes on at list position p: examine that entry, or leave. */
  function Visit(st: State, e: nat, s: nat, p: nat): State
    requires s in st.socks
  {
    if p >= |st.list| || st.list[p] !in st.sels then st.(evs := st.evs - {e})
    else Examine(st, s, st.list[p]).(evs := st.evs[e := Walker(s, st.list[p], st.ctr)])
  }

  /** The thread's own state after its next step inside lwip_select, or None when it returns. */
  function NextSelector(socks: map<nat, Sock>, sel: Selector): Option<Selector> {
    match sel.pc
    case Scan(pass, i) =>
      if i < sel.sets.maxfdp1 then
        Some(sel.(pc := Scan(pass, i + 1), nready := sel.nready + ReadyCount(socks, sel.sets, i)))
      else if pass == 1 then
        if sel.nready != 0 || sel.poll then None else Some(sel.(pc := Register))
      else if pass == 2 then
        Some(sel.(pc := if sel.nready == 0 then Blocked else CountDown(0)))
      else None
    case Register =>
      Some(sel.(pc := CountUp(0), maxfdp2 := sel.sets.maxfdp1, signalled := false, sem := 0))
    case CountUp(i) =>
      if i >= sel.sets.maxfdp1 then Some(sel.(pc := Scan(2, 0), nready := 0))
      else if Watched(sel.sets, i) && i !in socks then Some(sel.(pc := CountDown(0), nready := -1, maxfdp2 := i))
      else Some(sel.(pc := CountUp(i + 1)))
    case Blocked =>
      if sel.sem > 0 then Some(sel.(pc := CountDown(0), sem := sel.sem - 1)) else Some(sel)
    case CountDown(i) =>
      Some(sel.(pc := if i >= sel.maxfdp2 then Unlink else CountDown(i + 1)))
    case Unlink =>
      if sel.nready < 0 || sel.timedOut then None else Some(sel.(pc := Scan(3, 0), nready := 0))
  }

  /** The sockets after that step: only select_waiting changes, up then down. */
  function NextSocks(socks: map<nat, Sock>, sel: Selector): map<nat, Sock> {
    match sel.pc
    case CountUp(i) =>
      if Watched(sel.sets, i) && i in socks
      then socks[i := socks[i].(waiting := socks[i].waiting + 1)] else socks
    case CountDown(i) =>
      if i < sel.maxfdp2 && Watched(sel.sets, i) && i in socks && socks[i].waiting > 0
      then socks[i := socks[i].(waiting := socks[i].waiting - 1)] else socks
    case _ => socks
  }

  function Without(list: seq<nat>, t: nat): seq<nat> {
    var p := Pos(list, t);
    if p < |list| then list[..p] + list[p + 1..] else list
  }

  /** One step of the thread t inside lwip_select. Register and Unlink change the list and count it. */
  function Advance(st: State, t: nat): State
    requires t in st.sels
  {
    var sel := st.sels[t];
    var next := NextSelector(st.socks, sel);
    State(NextSocks(st.socks, sel),
          if sel.pc.Register? then [t] + st.list else if sel.pc.Unlink? then Without(st.list, t) else st.list,
          if sel.pc.Register? || sel.pc.Unlink? then st.ctr + 1 else st.ctr,
          if next.Some? then st.sels[t := next.value] else st.sels - {t},
          st.evs)
  }

  predicate Enabled(st: State, step: Step) {
    match step
    case SelectEnter(t, _, _) => t !in st.sels
    case SelectStep(t) => t in st.sels && (st.sels[t].pc == Blocked ==> st.sels[t].sem > 0)
    case SelectTimeout(t) => t in st.sels && st.sels[t].pc == Blocked
    case EventEnter(e, s, _) => e !in st.evs && s in st.socks
    case EventStep(e) => e in st.evs && st.evs[e].s in st.socks
    case SetLastData(s, _) => s in st.socks
  }

  function Apply(st: State, step: Step): State
    requires Enabled(st, step)
  {
    match step
    case SelectEnter(t, sets, poll) =>
      st.(sels := st.sels[t := Selector(Scan(1, 0), sets, poll, 0, 0, false, false, 0)])
    case SelectStep(t) => Advance(st, t)
    case SelectTimeout(t) =>
      st.(sels := st.sels[t := st.sels[t].(pc := CountDown(0), timedOut := true)])
    case EventEnter(e, s, evt) =>
      var st1 := st.(socks := st.socks[s := Post(st.socks[s], evt)]);
      if st1.socks[s].waiting == 0 then st1 else Visit(st1, e, s, 0)
    case EventStep(e) =>
      var w := st.evs[e];
      if w.last != st.ctr then Visit(st, e, w.s, 0)
      else Visit(st, e, w.s, Pos(st.list, w.scb) + 1)
    case SetLastData(s, v) =>
      st.(socks := st.socks[s := st.socks[s].(lastdata := v)])
  }

  // ---------------------------------------------------------------------
  // What every step keeps

  predicate OnList(pc: Pc) {
    pc.CountUp? || (pc.Scan? && pc.pass == 2) || pc.Blocked? || pc.CountDown? || pc.Unlink?
  }

  ghost predicate NoDuplicates(list: seq<nat>) {
    forall i, j | 0 <= i < j < |list| :: list[i] != list[j]
  }

  /** The list holds exactly the select_cbs of threads between Register and Unlink. */
  ghost predicate ListInv(st: State) {
    NoDuplicates(st.list) && forall t :: t in st.list <==> t in st.sels && OnList(st.sels[t].pc)
  }

  /** An event_callback that sees an unchanged counter holds a select_cb that is still listed. */
  ghost predicate WalkInv(st: State) {
    forall e | e in st.evs ::
      && st.evs[e].s in st.socks && st.evs[e].last <= st.ctr
      && (st.evs[e].last == st.ctr ==> st.evs[e].scb in st.list)
  }

  /** The selector has incremented select_waiting of s and not yet decremented it. */
  predicate Counts(sel: Selector, s: nat) {
    Watched(sel.sets, s) &&
    match sel.pc
    case CountUp(i) => s < i
    case Scan(pass, _) => pass == 2
    case Blocked => true
    case CountDown(i) => i <= s < sel.maxfdp2
    case _ => false
  }

  /** A selector's own bookkeeping. */
  ghost predicate LocalInv(socks: map<nat, Sock>, sel: Selector) {
    && (forall s | Counts(sel, s) :: s in socks)
    && (sel.pc.CountUp? ==> sel.pc.i <= sel.sets.maxfdp1)
    && (sel.pc.Scan? ==> sel.nready >= 0 && sel.pc.i <= sel.sets.maxfdp1)
    && (OnList(sel.pc) && !sel.pc.CountDown? && !sel.pc.Unlink? ==>
          sel.maxfdp2 == sel.sets.maxfdp1 && sel.sem == if sel.signalled then 1 else 0)
    && (sel.pc.CountDown? ==> sel.maxfdp2 <= sel.sets.maxfdp1)
  }

  ghost predicate LocalsInv(st: State) {
    forall t | t in st.sels :: LocalInv(st.socks, st.sels[t])
  }

  ghost function Counted(sels: map<nat, Selector>, s: nat): set<nat> {
    set t | t in sels && Counts(sels[t], s)
  }

  /** select_waiting is exactly the number of select calls counted on the socket. */
  ghost predicate CountInv(st: State) {
    forall s | s in st.socks :: st.socks[s].waiting == |Counted(st.sels, s)|
  }

  /** The walker still has t in front of it: it will restart, or t comes later in the list. */
  predicate Ahead(st: State, w: Walker, t: nat) {
    w.last != st.ctr || Pos(st.list, w.scb) < Pos(st.list, t)
  }

  /** The selector relies on being woken for s: its second scan has passed s finding nothing. */
  predicate Waits(sel: Selector, s: nat) {
    Watched(sel.sets, s) &&
    match sel.pc
    case Scan(pass, i) => pass == 2 && s < i && sel.nready == 0
    case Blocked => true
    case _ => false
  }

  ghost predicate Pending(st: State, t: nat, s: nat) {
    exists e :: e in st.evs && st.evs[e].s == s && Ahead(st, st.evs[e], t)
  }

  ghost predicate Covered(st: State, t: nat, s: nat)
    requires t in st.sels && s in st.socks
  {
    Waits(st.sels[t], s) && !st.sels[t].signalled && Fires(st.socks[s], st.sels[t].sets, s) ==> Pending(st, t, s)
  }

  ghost predicate WakeInv(st: State) {
    forall t, s | t in st.sels && s in st.socks :: Covered(st, t, s)
  }

  ghost predicate Inv(st: State) {
    ListInv(st) && WalkInv(st) && LocalsInv(st) && CountInv(st) && WakeInv(st)
  }

  ghost predicate Initial(st: State) {
    && st.list == [] && st.sels == map[] && st.evs == map[]
    && forall s | s in st.socks :: st.socks[s].waiting == 0
  }

  lemma {:induction false} InitialInv(st: State)
    requires Initial(st)
    ensures Inv(st)
  {
    forall s | s in st.socks ensures st.socks[s].waiting == |Counted(st.sels, s)| {
      assert Counted(st.sels, s) == {};
    }
  }

  lemma {:induction false} PosIs(list: seq<nat>, p: nat)
    requires NoDuplicates(list) && p < |list|
    ensures Pos(list, list[p]) == p
  {
  }

  // --- counting ---

  lemma {:induction false} CardWithout(a: set<nat>, t: nat)
    ensures |a| == |a - {t}| + (if t in a then 1 else 0)
  {
    if t in a { assert a == (a - {t}) + {t}; } else { assert a - {t} == a; }
  }

  /** Thread t's entry is replaced or removed: the number counted on s changes accordingly. */
  lemma {:induction false} CountedUpdate(m: map<nat, Selector>, t: nat, x: Option<Selector>, s: nat)
    requires t in m
    ensures var n := if x.Some? then m[t := x.value] else m - {t};
            |Counted(n, s)| == |Counted(m, s)| + (if x.Some? && Counts(x.value, s) then 1 else 0)
                                               - (if Counts(m[t], s) then 1 else 0)
  {
    var n := if x.Some? then m[t := x.value] else m - {t};
    var a, b := Counted(m, s), Counted(n, s);
    CardWithout(a, t);
    CardWithout(b, t);
    forall u | u != t ensures u in a <==> u in b { assert u in m <==> u in n; }
    assert a - {t} == b - {t};
  }

  lemma {:induction false} CountedPositive(st: State, t: nat, s: nat)
    requires CountInv(st) && t in st.sels && s in st.socks && Counts(st.sels[t], s)
    ensures st.socks[s].waiting > 0
  {
    assert t in Counted(st.sels, s);
  }

  /** The thread's step moves select_waiting of s as it moves in and out of being counted. */
  lemma {:induction false} TallyMatches(socks: map<nat, Sock>, sel: Selector, s: nat)
    requires s in socks && LocalInv(socks, sel) && (Counts(sel, s) ==> socks[s].waiting > 0)
    ensures s in NextSocks(socks, sel)
    ensures var x := NextSelector(socks, sel);
            NextSocks(socks, sel)[s].waiting ==
              socks[s].waiting + (if x.Some? && Counts(x.value, s) then 1 else 0) - (if Counts(sel, s) then 1 else 0)
  {
  }

  lemma {:induction false} AdvanceCounts(st: State, t: nat)
    requires CountInv(st) && LocalsInv(st) && t in st.sels
    ensures CountInv(Advance(st, t))
  {
    var st' := Advance(st, t);
    var sel := st.sels[t];
    forall s | s in st'.socks ensures st'.socks[s].waiting == |Counted(st'.sels, s)| {
      CountedUpdate(st.sels, t, NextSelector(st.socks, sel), s);
      if Counts(sel, s) { CountedPositive(st, t, s); }
      TallyMatches(st.socks, sel, s);
    }
  }

  lemma {:induction false} NextLocal(socks: map<nat, Sock>, sel: Selector)
    requires LocalInv(socks, sel)
    ensures NextSelector(socks, sel).Some? ==> LocalInv(socks, NextSelector(socks, sel).value)
  {
    var x := NextSelector(socks, sel);
    if x.Some? {
      forall s | Counts(x.value, s) ensures s in socks {
        if Counts(sel, s) {}
      }
    }
  }

  lemma {:induction false} AdvanceLocals(st: State, t: nat)
    requires LocalsInv(st) && t in st.sels
    ensures LocalsInv(Advance(st, t))
  {
    var st' := Advance(st, t);
    assert st'.socks.Keys == st.socks.Keys;
    NextLocal(st.socks, st.sels[t]);
    forall u | u in st'.sels ensures LocalInv(st'.socks, st'.sels[u]) {
      if u != t { assert LocalInv(st.socks, st.sels[u]); }
      assert LocalInv(st.socks, st'.sels[u]);
      forall s | Counts(st'.sels[u], s) ensures s in st'.socks { assert s in st.socks; }
    }
  }

  lemma {:induction false} WithoutIs(list: seq<nat>, t: nat)
    requires NoDuplicates(list)
    ensures NoDuplicates(Without(list, t))
    ensures forall u :: u in Without(list, t) <==> u in list && u != t
  {
    var p, r := Pos(list, t), Without(list, t);
    if p < |list| {
      assert forall i | 0 <= i < |r| :: r[i] == list[if i < p then i else i + 1];
      hide Without;
      forall i, j | 0 <= i < j < |r| ensures r[i] != r[j] {
        assert list[if i < p then i else i + 1] != list[if j < p then j else j + 1];
      }
      forall u ensures u in r <==> u in list && u != t { Remains(list, t, p, r, u); }
    }
  }

  lemma {:induction false} Remains(list: seq<nat>, t: nat, p: nat, r: seq<nat>, u: nat)
    requires NoDuplicates(list) && p < |list| && list[p] == t && |r| == |list| - 1
    requires forall i | 0 <= i < |r| :: r[i] == list[if i < p then i else i + 1]
    ensures u in r <==> u in list && u != t
  {
    if u in list && u != t {
      var i :| 0 <= i < |list| && list[i] == u;
      assert r[if i < p then i else i - 1] == u;
    }
    if u in r {
      var i :| 0 <= i < |r| && r[i] == u;
      var j := if i < p then i else i + 1;
      assert list[j] == u;
      if j < p { assert list[j] != list[p]; } else { assert list[p] != list[j]; }
    }
  }

  lemma {:induction false} AdvanceList(st: State, t: nat)
    requires ListInv(st) && t in st.sels
    ensures ListInv(Advance(st, t))
  {
    NextOnList(st.socks, st.sels[t]);
    hide NextSelector, NextSocks, OnList, Without;
    var pc, list := st.sels[t].pc, st.list;
    if pc.Unlink? {
      WithoutIs(list, t);
    } else if pc.Register? {
      assert t !in list;
      InFront(list, t);
    }
  }

  lemma {:induction false} InFront(list: seq<nat>, t: nat)
    requires NoDuplicates(list) && t !in list
    ensures NoDuplicates([t] + list) && forall u :: u in [t] + list <==> u == t || u in list
  {
  }

  /** A thread comes onto the list with Register and leaves it with Unlink. */
  lemma {:induction false} NextOnList(socks: map<nat, Sock>, sel: Selector)
    ensures var next := NextSelector(socks, sel);
            var stays := next.Some? && OnList(next.value.pc);
            && (sel.pc.Register? ==> !OnList(sel.pc) && stays)
            && (sel.pc.Unlink? ==> OnList(sel.pc) && !stays)
            && (!sel.pc.Register? && !sel.pc.Unlink? ==> (stays <==> OnList(sel.pc)))
  {
  }

  lemma {:induction false} AdvanceWalk(st: State, t: nat)
    requires WalkInv(st) && t in st.sels
    ensures WalkInv(Advance(st, t))
  {
  }

  /** A thread's own step never makes it rely on a wake-up it did not rely on before. */
  lemma {:induction false} NextWaits(socks: map<nat, Sock>, sel: Selector, s: nat)
    requires LocalInv(socks, sel) && s in socks
    ensures var x := NextSelector(socks, sel);
            x.Some? && Waits(x.value, s) && Fires(socks[s], x.value.sets, s) ==>
              Waits(sel, s) && x.value.sets == sel.sets && x.value.signalled == sel.signalled
  {
  }

  lemma {:induction false} AdvanceWake(st: State, t: nat)
    requires WakeInv(st) && WalkInv(st) && LocalsInv(st) && t in st.sels
    ensures WakeInv(Advance(st, t))
  {
    var st' := Advance(st, t);
    forall u, s | u in st'.sels && s in st'.socks ensures Covered(st', u, s) {
      if u == t { NextWaits(st.socks, st.sels[t], s); }
      assert Covered(st, u, s);
      if Pending(st, u, s) {
        var e :| e in st.evs && st.evs[e].s == s && Ahead(st, st.evs[e], u);
        assert Ahead(st', st'.evs[e], u);
      }
    }
  }

  // --- event_callback ---

  lemma {:induction false} ExamineKeeps(st: State, s: nat, t: nat)
    requires s in st.socks && t in st.sels && LocalsInv(st) && CountInv(st) && ListInv(st)
    ensures LocalsInv(Examine(st, s, t)) && CountInv(Examine(st, s, t)) && ListInv(Examine(st, s, t))
  {
    var st' := Examine(st, s, t);
    forall u | u in st'.sels ensures LocalInv(st'.socks, st'.sels[u]) {
      assert LocalInv(st.socks, st.sels[u]);
      forall k | Counts(st'.sels[u], k) ensures k in st'.socks { assert Counts(st.sels[u], k); }
    }
    forall k | k in st'.socks ensures st'.socks[k].waiting == |Counted(st'.sels, k)| {
      assert Counted(st'.sels, k) == Counted(st.sels, k);
    }
  }

  /** Apart from what the walk e is about to reach from position p on, everyone is covered. */
  ghost predicate CoveredBut(st: State, e: nat, s: nat, p: nat) {
    forall t, k | t in st.sels && k in st.socks ::
      Waits(st.sels[t], k) && !st.sels[t].signalled && Fires(st.socks[k], st.sels[t].sets, k) ==>
        (k == s && p <= Pos(st.list, t)) || PendingBut(st, e, t, k)
  }

  ghost predicate PendingBut(st: State, e: nat, t: nat, s: nat) {
    exists f :: f in st.evs && f != e && st.evs[f].s == s && Ahead(st, st.evs[f], t)
  }

  lemma {:induction false} WaitingListed(st: State, t: nat, s: nat)
    requires ListInv(st) && t in st.sels && Waits(st.sels[t], s)
    ensures t in st.list && Pos(st.list, t) < |st.list|
  {
  }

  /** The selector the walk has just examined is signalled if the socket concerns it. */
  lemma {:induction false} VisitExamined(st: State, e: nat, s: nat, p: nat)
    requires s in st.socks && p < |st.list| && st.list[p] in st.sels
    ensures var t := st.list[p]; var st' := Visit(st, e, s, p);
            t in st'.sels && (st'.sels[t].signalled || !Fires(st'.socks[s], st'.sels[t].sets, s))
  {
  }

  lemma {:induction false} VisitKeepsPending(st: State, e: nat, s: nat, p: nat, t: nat, k: nat)
    requires s in st.socks && PendingBut(st, e, t, k)
    ensures Pending(Visit(st, e, s, p), t, k)
  {
    var st' := Visit(st, e, s, p);
    var f :| f in st.evs && f != e && st.evs[f].s == k && Ahead(st, st.evs[f], t);
    assert f in st'.evs && st'.evs[f] == st.evs[f];
    assert Ahead(st', st'.evs[f], t);
  }

  /** After a visit at p the callback is pending for everyone listed later. */
  lemma {:induction false} VisitPendingLater(st: State, e: nat, s: nat, p: nat, t: nat)
    requires NoDuplicates(st.list) && s in st.socks && p < Pos(st.list, t) && st.list[p] in st.sels
    ensures Pending(Visit(st, e, s, p), t, s)
  {
    var st' := Visit(st, e, s, p);
    PosIs(st.list, p);
    assert st'.evs[e] == Walker(s, st.list[p], st.ctr);
    assert Ahead(st', st'.evs[e], t);
  }

  /** A thread not signalled after a visit was in the same position before. */
  lemma {:induction false} VisitBefore(st: State, e: nat, s: nat, p: nat, t: nat, k: nat)
    requires s in st.socks
    requires var st' := Visit(st, e, s, p);
             && t in st'.sels && k in st'.socks && Waits(st'.sels[t], k)
             && !st'.sels[t].signalled && Fires(st'.socks[k], st'.sels[t].sets, k)
    ensures t in st.sels && k in st.socks && Waits(st.sels[t], k) && !st.sels[t].signalled
    ensures Fires(st.socks[k], st.sels[t].sets, k)
  {
  }

  lemma {:induction false} VisitCovers(st: State, e: nat, s: nat, p: nat, t: nat, k: nat)
    requires ListInv(st) && s in st.socks && CoveredBut(st, e, s, p)
    requires var st' := Visit(st, e, s, p);
             && t in st'.sels && k in st'.socks && Waits(st'.sels[t], k)
             && !st'.sels[t].signalled && Fires(st'.socks[k], st'.sels[t].sets, k)
    ensures Pending(Visit(st, e, s, p), t, k)
  {
    VisitBefore(st, e, s, p, t, k);
    WaitingListed(st, t, k);
    hide Pending, Visit, Waits, Fires;
    if PendingBut(st, e, t, k) {
      VisitKeepsPending(st, e, s, p, t, k);
    } else {
      assert st.list[p] in st.list;
      VisitExamined(st, e, s, p);
      VisitPendingLater(st, e, s, p, t);
    }
  }

  lemma {:induction false} VisitWake(st: State, e: nat, s: nat, p: nat)
    requires ListInv(st) && s in st.socks && CoveredBut(st, e, s, p)
    ensures WakeInv(Visit(st, e, s, p))
  {
    var st' := Visit(st, e, s, p);
    forall t, k | t in st'.sels && k in st'.socks ensures Covered(st', t, k) {
      if Waits(st'.sels[t], k) && !st'.sels[t].signalled && Fires(st'.socks[k], st'.sels[t].sets, k) {
        VisitCovers(st, e, s, p, t, k);
      }
    }
  }

  lemma {:induction false} VisitKeeps(st: State, e: nat, s: nat, p: nat)
    requires ListInv(st) && WalkInv(st) && LocalsInv(st) && CountInv(st)
    requires s in st.socks && CoveredBut(st, e, s, p)
    ensures Inv(Visit(st, e, s, p))
  {
    VisitWake(st, e, s, p);
    if p < |st.list| && st.list[p] in st.sels {
      ExamineKeeps(st, s, st.list[p]);
    }
  }

  lemma {:induction false} PostKeepsLocals(st: State, s: nat, evt: Event)
    requires LocalsInv(st) && CountInv(st) && s in st.socks
    ensures var st1 := st.(socks := st.socks[s := Post(st.socks[s], evt)]); LocalsInv(st1) && CountInv(st1)
  {
    var st1 := st.(socks := st.socks[s := Post(st.socks[s], evt)]);
    assert st1.socks.Keys == st.socks.Keys;
    forall u | u in st1.sels ensures LocalInv(st1.socks, st1.sels[u]) { assert LocalInv(st.socks, st.sels[u]); }
  }

  /** Posting an event can only uncover waiters for that very socket, and these are counted. */
  lemma {:induction false} PostUncovers(st: State, e: nat, s: nat, evt: Event, t: nat, k: nat)
    requires Inv(st) && e !in st.evs && s in st.socks && t in st.sels && k in st.socks
    requires Waits(st.sels[t], k) && !st.sels[t].signalled
    requires k != s ==> Fires(st.socks[k], st.sels[t].sets, k)
    ensures var st1 := st.(socks := st.socks[s := Post(st.socks[s], evt)]); k == s || PendingBut(st1, e, t, k)
    ensures st.socks[k].waiting > 0
  {
    var st1 := st.(socks := st.socks[s := Post(st.socks[s], evt)]);
    assert LocalInv(st.socks, st.sels[t]);
    CountedPositive(st, t, k);
    assert Covered(st, t, k);
    if k != s {
      var f :| f in st.evs && st.evs[f].s == k && Ahead(st, st.evs[f], t);
      assert f != e && Ahead(st1, st1.evs[f], t);
    }
  }

  lemma {:induction false} EventEnterKeeps(st: State, e: nat, s: nat, evt: Event)
    requires Inv(st) && Enabled(st, EventEnter(e, s, evt))
    ensures Inv(Apply(st, EventEnter(e, s, evt)))
  {
    var st1 := st.(socks := st.socks[s := Post(st.socks[s], evt)]);
    PostKeepsLocals(st, s, evt);
    PostCovers(st, e, s, evt);
    hide LocalsInv, CountInv, ListInv, WalkInv, WakeInv, CoveredBut, Post, Visit;
    if st1.socks[s].waiting != 0 {
      VisitKeeps(st1, e, s, 0);
    }
  }

  /** After the update of the socket only its own waiters may lack a callback, and there are none
      if nobody is counted. */
  lemma {:induction false} PostCovers(st: State, e: nat, s: nat, evt: Event)
    requires Inv(st) && e !in st.evs && s in st.socks
    ensures var st1 := st.(socks := st.socks[s := Post(st.socks[s], evt)]);
            && ListInv(st1) && WalkInv(st1) && CoveredBut(st1, e, s, 0)
            && (st1.socks[s].waiting == 0 ==> WakeInv(st1))
  {
    var st1 := st.(socks := st.socks[s := Post(st.socks[s], evt)]);
    assert st1.socks.Keys == st.socks.Keys;
    forall t, k | t in st1.sels && k in st1.socks && Waits(st1.sels[t], k) && !st1.sels[t].signalled
                  && Fires(st1.socks[k], st1.sels[t].sets, k)
      ensures (k == s && st1.socks[s].waiting > 0) || PendingBut(st1, e, t, k)
      ensures Covered(st1, t, k) || st1.socks[s].waiting > 0
    {
      hide Inv;
      PostUncovers(st, e, s, evt, t, k);
    }
    hide Inv, Pending, PendingBut;
    forall t, k | t in st1.sels && k in st1.socks && st1.socks[s].waiting == 0 ensures Covered(st1, t, k) {}
  }

  lemma {:induction false} EventStepKeeps(st: State, e: nat)
    requires Inv(st) && Enabled(st, EventStep(e))
    ensures Inv(Apply(st, EventStep(e)))
  {
    var w := st.evs[e];
    var p := if w.last != st.ctr then 0 else Pos(st.list, w.scb) + 1;
    hide ListInv, WalkInv, LocalsInv, CountInv, Pending, Covered;
    forall t, k | t in st.sels && k in st.socks && Waits(st.sels[t], k) && !st.sels[t].signalled
                  && Fires(st.socks[k], st.sels[t].sets, k)
      ensures (k == w.s && p <= Pos(st.list, t)) || PendingBut(st, e, t, k)
    {
      assert Covered(st, t, k);
      StepUncovers(st, e, t, k);
    }
    hide WakeInv, PendingBut, Waits, Fires;
    VisitKeeps(st, e, w.s, p);
  }

  lemma {:induction false} StepUncovers(st: State, e: nat, t: nat, k: nat)
    requires e in st.evs && t in st.sels && k in st.socks && Covered(st, t, k)
    requires Waits(st.sels[t], k) && !st.sels[t].signalled && Fires(st.socks[k], st.sels[t].sets, k)
    ensures var w := st.evs[e];
            var p := if w.last != st.ctr then 0 else Pos(st.list, w.scb) + 1;
            (k == w.s && p <= Pos(st.list, t)) || PendingBut(st, e, t, k)
  {
    var f :| f in st.evs && st.evs[f].s == k && Ahead(st, st.evs[f], t);
  }

  lemma {:induction false} SelectEnterKeeps(st: State, t: nat, sets: Sets, poll: bool)
    requires Inv(st) && t !in st.sels
    ensures Inv(Apply(st, SelectEnter(t, sets, poll)))
  {
    var st' := Apply(st, SelectEnter(t, sets, poll));
    forall s | s in st'.socks ensures st'.socks[s].waiting == |Counted(st'.sels, s)| {
      assert Counted(st'.sels, s) == Counted(st.sels, s);
    }
    assert st' == st.(sels := st.sels[t := st'.sels[t]]);
    SelectorsOnlyKeeps(st, st', t);
  }

  /** Only t's own record changes, to one that waits for nothing. */
  lemma {:induction false} SelectorsOnlyKeeps(st: State, st': State, t: nat)
    requires WakeInv(st) && t in st'.sels && st' == st.(sels := st.sels[t := st'.sels[t]])
    requires forall s :: !Waits(st'.sels[t], s)
    ensures WakeInv(st')
  {
    forall u, s | u in st'.sels && s in st'.socks ensures Covered(st', u, s) {
      if u != t {
        assert Covered(st, u, s);
        if Pending(st, u, s) {
          var e :| e in st.evs && st.evs[e].s == s && Ahead(st, st.evs[e], u);
          assert Ahead(st', st'.evs[e], u);
        }
      }
    }
  }

  lemma {:induction false} SelectTimeoutKeeps(st: State, t: nat)
    requires Inv(st) && Enabled(st, SelectTimeout(t))
    ensures Inv(Apply(st, SelectTimeout(t)))
  {
    var st' := Apply(st, SelectTimeout(t));
    var sel, sel' := st.sels[t], st'.sels[t];
    assert LocalInv(st.socks, sel);
    assert forall s :: Counts(sel', s) <==> Counts(sel, s);
    forall s | s in st'.socks ensures st'.socks[s].waiting == |Counted(st'.sels, s)| {
      assert Counted(st'.sels, s) == Counted(st.sels, s);
    }
    SelectorsOnlyKeeps(st, st', t);
  }

  lemma {:induction false} SetLastDataKeeps(st: State, s: nat, v: bool)
    requires Inv(st) && s in st.socks
    ensures Inv(Apply(st, SetLastData(s, v)))
  {
    var st' := Apply(st, SetLastData(s, v));
    assert st'.socks.Keys == st.socks.Keys;
    forall u | u in st'.sels ensures LocalInv(st'.socks, st'.sels[u]) { assert LocalInv(st.socks, st.sels[u]); }
    forall u, k | u in st'.sels && k in st'.socks ensures Covered(st', u, k) {
      assert Covered(st, u, k);
      if Pending(st, u, k) {
        var e :| e in st.evs && st.evs[e].s == k && Ahead(st, st.evs[e], u);
        assert Ahead(st', st'.evs[e], u);
      }
    }
  }

  lemma {:induction false} StepKeeps(st: State, step: Step)
    requires Inv(st) && Enabled(st, step)
    ensures Inv(Apply(st, step))
  {
    match step
    case SelectEnter(t, sets, poll) => SelectEnterKeeps(st, t, sets, poll);
    case SelectStep(t) =>
      AdvanceList(st, t);
      AdvanceWalk(st, t);
      AdvanceLocals(st, t);
      AdvanceCounts(st, t);
      AdvanceWake(st, t);
    case SelectTimeout(t) => SelectTimeoutKeeps(st, t);
    case EventEnter(e, s, evt) => EventEnterKeeps(st, e, s, evt);
    case EventStep(e) => EventStepKeeps(st, e);
    case SetLastData(s, v) => SetLastDataKeeps(st, s, v);
  }

  // ---------------------------------------------------------------------
  // Whole runs

  /** run is a sequence of states, each one step after the one before it. */
  ghost predicate IsRun(run: seq<State>, steps: seq<Step>) {
    && |run| == |steps| + 1 && Initial(run[0])
    && forall i | 0 <= i < |steps| :: Enabled(run[i], steps[i]) && run[i + 1] == Apply(run[i], steps[i])
  }

  lemma {:induction false} RunInv(run: seq<State>, steps: seq<Step>, n: nat)
    requires IsRun(run, steps) && n < |run|
    ensures Inv(run[n])
  {
    if n == 0 {
      InitialInv(run[0]);
    } else {
      RunInv(run, steps, n - 1);
      StepKeeps(run[n - 1], steps[n - 1]);
    }
  }

  /** No lost wake-up. In every interleaving, a thread blocked in lwip_select with an event
      on a watched socket has its semaphore signalled already, or some event_callback for
      that socket still has it ahead, on its way or after a restart. */
  lemma {:induction false} NoLostWakeup(run: seq<State>, steps: seq<Step>, n: nat, t: nat, s: nat)
    requires IsRun(run, steps) && n < |run|
    requires t in run[n].sels && run[n].sels[t].pc == Blocked
    requires Watched(run[n].sels[t].sets, s) && s in run[n].socks
    requires Fires(run[n].socks[s], run[n].sels[t].sets, s)
    ensures run[n].sels[t].sem > 0 || Pending(run[n], t, s)
  {
    RunInv(run, steps, n);
    assert LocalInv(run[n].socks, run[n].sels[t]);
    assert Covered(run[n], t, s);
  }

  /** event_callback only ever follows links of a select_cb that is still on the list,
      and everything on the list belongs to a thread still inside lwip_select. */
  lemma {:induction false} WalkersSafe(run: seq<State>, steps: seq<Step>, n: nat)
    requires IsRun(run, steps) && n < |run|
    ensures forall t | t in run[n].list :: t in run[n].sels && OnList(run[n].sels[t].pc)
    ensures forall e | e in run[n].evs && run[n].evs[e].last == run[n].ctr :: run[n].evs[e].scb in run[n].list
  {
    RunInv(run, steps, n);
  }

  /** select_waiting is exact, and back at zero once nobody is between Register and Unlink. */
  lemma {:induction false} WaitingExact(run: seq<State>, steps: seq<Step>, n: nat, s: nat)
    requires IsRun(run, steps) && n < |run| && s in run[n].socks
    ensures run[n].socks[s].waiting == |Counted(run[n].sels, s)|
    ensures run[n].list == [] ==> run[n].socks[s].waiting == 0
  {
    RunInv(run, steps, n);
    if run[n].list == [] {
      forall t | t in run[n].sels ensures !Counts(run[n].sels[t], s) { assert t !in run[n].list; }
      assert Counted(run[n].sels, s) == {};
    }
  }

  // ---------------------------------------------------------------------
  // A pending callback delivers

  /** The state after the callback e has taken n steps with nothing else happening. */
  function Walk(st: State, e: nat, n: nat): State
    decreases n
  {
    if n == 0 || !Enabled(st, EventStep(e)) then st else Walk(Apply(st, EventStep(e)), e, n - 1)
  }

  /** t sleeps although an event on s concerns it. */
  predicate Sleeping(st: State, t: nat, s: nat) {
    && t in st.sels && Waits(st.sels[t], s) && !st.sels[t].signalled
    && s in st.socks && Fires(st.socks[s], st.sels[t].sets, s)
  }

  /** The list position the callback examines next. */
  function NextPos(st: State, e: nat): nat
    requires e in st.evs
  {
    if st.evs[e].last != st.ctr then 0 else Pos(st.list, st.evs[e].scb) + 1
  }

  /** A visit at t's position signals t; one before it leaves the callback right there. */
  lemma {:induction false} VisitSleeping(st: State, e: nat, t: nat, s: nat, p: nat)
    requires ListInv(st) && Sleeping(st, t, s) && p <= Pos(st.list, t)
    ensures var st' := Visit(st, e, s, p);
            && st'.list == st.list && ListInv(st')
            && if p == Pos(st.list, t) then t in st'.sels && st'.sels[t].signalled
               else Sleeping(st', t, s) && e in st'.evs && st'.evs[e].s == s && NextPos(st', e) == p + 1
  {
    WaitingListed(st, t, s);
    PosIs(st.list, p);
    assert st.list[p] in st.list;
  }

  /** The callback e is n entries before the thread t, which waits for its socket. */
  ghost predicate Ready(st: State, e: nat, t: nat, s: nat, n: nat) {
    && ListInv(st) && Sleeping(st, t, s) && e in st.evs && st.evs[e].s == s
    && n + NextPos(st, e) == Pos(st.list, t)
  }

  lemma {:induction false} ReadyStep(st: State, e: nat, t: nat, s: nat, n: nat)
    requires Ready(st, e, t, s, n)
    ensures e in st.evs && st.evs[e].s == s && s in st.socks
    ensures var st' := Visit(st, e, s, NextPos(st, e));
            if n == 0 then t in st'.sels && st'.sels[t].signalled else Ready(st', e, t, s, n - 1)
  {
    VisitSleeping(st, e, t, s, NextPos(st, e));
    hide Visit, ListInv, Waits, Fires;
  }

  lemma {:induction false} WalkOn(st: State, e: nat, t: nat, s: nat, n: nat)
    requires Ready(st, e, t, s, n)
    ensures t in Walk(st, e, n + 1).sels && Walk(st, e, n + 1).sels[t].signalled
    decreases n
  {
    hide *;
    ReadyStep(st, e, t, s, n);
    WalkStep(st, e, s, n);
    var st' := Visit(st, e, s, NextPos(st, e));
    if n > 0 {
      WalkOn(st', e, t, s, n - 1);
    } else {
      WalkNone(st', e);
    }
  }

  /** Letting a callback that has t ahead run alone signals t, after exactly as many steps
      as there are list entries up to and including t. */
  lemma {:induction false} WalkDelivers(st: State, e: nat, t: nat, s: nat, n: nat)
    requires ListInv(st) && Sleeping(st, t, s) && e in st.evs && st.evs[e].s == s
    requires n + NextPos(st, e) == Pos(st.list, t)
    ensures t in Walk(st, e, n + 1).sels && Walk(st, e, n + 1).sels[t].signalled
  {
    assert Ready(st, e, t, s, n);
    hide *;
    WalkOn(st, e, t, s, n);
  }

  lemma {:induction false} WalkNone(st: State, e: nat)
    ensures Walk(st, e, 0) == st
  {
  }

  lemma {:induction false} WalkStep(st: State, e: nat, s: nat, n: nat)
    requires e in st.evs && st.evs[e].s == s && s in st.socks
    ensures Walk(st, e, n + 1) == Walk(Visit(st, e, s, NextPos(st, e)), e, n)
  {
    hide Visit;
  }

  /** In every run: a blocked thread with an event on a watched socket is signalled already,
      or there is a callback in progress that signals it if left to run. */
  lemma {:induction false} WakeupDelivered(run: seq<State>, steps: seq<Step>, n: nat, t: nat, s: nat)
    requires IsRun(run, steps) && n < |run|
    requires t in run[n].sels && run[n].sels[t].pc == Blocked
    requires Watched(run[n].sels[t].sets, s) && s in run[n].socks
    requires Fires(run[n].socks[s], run[n].sels[t].sets, s)
    ensures run[n].sels[t].signalled ||
      exists e, k: nat | e in run[n].evs && k <= |run[n].list| ::
        var end := Walk(run[n], e, k); t in end.sels && end.sels[t].signalled
  {
    var st := run[n];
    RunInv(run, steps, n);
    assert Covered(st, t, s);
    if !st.sels[t].signalled {
      var e :| e in st.evs && st.evs[e].s == s && Ahead(st, st.evs[e], t);
      WaitingListed(st, t, s);
      var k := Pos(st.list, t) - NextPos(st, e);
      WalkDelivers(st, e, t, s, k);
      assert k + 1 <= |st.list|;
    }
  }
}
