/**
 What callers of lwip_select may rely on, in terms of the events delivered rather than of the
 socket fields: events wake the threads that wait for them, a thread blocks only after seeing
 nothing ready, reports only what was ready, and leaves once signalled.
 */
module SelectRuns {
  import opened Common
  import opened Select

  // ---------------------------------------------------------------------
  // The events of a socket

  ghost predicate Delivers(step: Step, s: nat, evt: Event) {
    step.EventEnter? && step.s == s && step.evt == evt
  }

  /** Arrivals minus departures. */
  ghost function Balance(steps: seq<Step>, s: nat): int {
    if steps == [] then 0
    else
      var last := steps[|steps| - 1];
      Balance(steps[..|steps| - 1], s)
      + (if Delivers(last, s, RcvPlus) then 1 else if Delivers(last, s, RcvMinus) then -1 else 0)
  }

  /** What the last of the events about sending said. */
  ghost predicate Sendable(steps: seq<Step>, s: nat, before: bool) {
    if steps == [] then before
    else
      var last := steps[|steps| - 1];
      Delivers(last, s, SendPlus) || (!Delivers(last, s, SendMinus) && Sendable(steps[..|steps| - 1], s, before))
  }

  ghost predicate Failed(steps: seq<Step>, s: nat, before: bool) {
    before || exists i :: 0 <= i < |steps| && Delivers(steps[i], s, Error)
  }

  /** The fields of a socket after some steps. */
  ghost predicate Tallied(k: Sock, first: Sock, steps: seq<Step>, s: nat) {
    && k.rcvevent == first.rcvevent + Balance(steps, s)
    && (k.sendevent <==> Sendable(steps, s, first.sendevent))
    && (k.errevent <==> Failed(steps, s, first.errevent))
  }

  /** A step changes the fields of a socket just as the event it delivers says. */
  lemma {:induction false} StepSocket(st: State, step: Step, s: nat)
    requires Enabled(st, step) && s in st.socks
    ensures s in Apply(st, step).socks
    ensures var k, k' := st.socks[s], Apply(st, step).socks[s];
            && k'.rcvevent == k.rcvevent + (if Delivers(step, s, RcvPlus) then 1 else if Delivers(step, s, RcvMinus) then -1 else 0)
            && (k'.sendevent <==> Delivers(step, s, SendPlus) || (!Delivers(step, s, SendMinus) && k.sendevent))
            && (k'.errevent <==> Delivers(step, s, Error) || k.errevent)
  {
    match step
    case SelectStep(t) => AdvanceSocket(st, t, s);
    case EventEnter(e, s', evt) =>
      var st1 := st.(socks := st.socks[s' := Post(st.socks[s'], evt)]);
      VisitSockets(st1, e, s', 0);
      hide Visit;
    case EventStep(e) =>
      var w := st.evs[e];
      VisitSockets(st, e, w.s, if w.last != st.ctr then 0 else Pos(st.list, w.scb) + 1);
      hide Visit;
    case _ =>
  }

  lemma {:induction false} AdvanceSocket(st: State, t: nat, s: nat)
    requires t in st.sels && s in st.socks
    ensures s in Advance(st, t).socks
    ensures Advance(st, t).socks[s] == st.socks[s].(waiting := Advance(st, t).socks[s].waiting)
  {
    hide NextSelector, Without;
  }

  lemma {:induction false} VisitSockets(st: State, e: nat, s: nat, p: nat)
    requires s in st.socks
    ensures Visit(st, e, s, p).socks == st.socks
  {
  }

  lemma {:induction false} SocketsTally(run: seq<State>, steps: seq<Step>, n: nat, s: nat)
    requires IsRun(run, steps) && n < |run| && s in run[0].socks
    ensures s in run[n].socks && Tallied(run[n].socks[s], run[0].socks[s], steps[..n], s)
  {
    if n == 0 {
      assert steps[..0] == [];
    } else {
      SocketsTally(run, steps, n - 1, s);
      StepSocket(run[n - 1], steps[n - 1], s);
      assert steps[..n][..n - 1] == steps[..n - 1] && steps[..n][n - 1] == steps[n - 1];
      FailedNext(steps[..n - 1], steps[n - 1], s, run[0].socks[s].errevent);
      assert steps[..n - 1] + [steps[n - 1]] == steps[..n];
    }
  }

  lemma {:induction false} FailedNext(steps: seq<Step>, step: Step, s: nat, before: bool)
    ensures Failed(steps + [step], s, before) <==> Failed(steps, s, before) || Delivers(step, s, Error)
  {
    var all := steps + [step];
    if i :| 0 <= i < |steps| && Delivers(steps[i], s, Error) { assert Delivers(all[i], s, Error); }
    assert all[|steps|] == step;
  }

  /** In every run: a thread blocked with s in its read set, on which more has arrived than was
      taken, or in its write set with SendPlus the last word on it, or in its except set after an
      error, is signalled already, or a callback in progress signals it if left to run. */
  lemma {:induction false} EventsWake(run: seq<State>, steps: seq<Step>, n: nat, t: nat, s: nat)
    requires IsRun(run, steps) && n < |run| && s in run[0].socks
    requires t in run[n].sels && run[n].sels[t].pc == Blocked && s < run[n].sels[t].sets.maxfdp1
    requires var sets, first := run[n].sels[t].sets, run[0].socks[s];
             || (s in sets.read && first.rcvevent + Balance(steps[..n], s) > 0)
             || (s in sets.write && Sendable(steps[..n], s, first.sendevent))
             || (s in sets.except && Failed(steps[..n], s, first.errevent))
    ensures run[n].sels[t].signalled ||
      exists e, k: nat | e in run[n].evs && k <= |run[n].list| ::
        var end := Walk(run[n], e, k); t in end.sels && end.sels[t].signalled
  {
    SocketsTally(run, steps, n, s);
    hide Balance, Sendable, Failed, IsRun, Walk;
    WakeupDelivered(run, steps, n, t, s);
  }

  // ---------------------------------------------------------------------
  // Scanning

  /** A descriptor that the call asks about and that has something to report. */
  ghost predicate ReadyAt(socks: map<nat, Sock>, sets: Sets, i: nat) {
    && i in socks
    && (|| (i in sets.read && (socks[i].lastdata || socks[i].rcvevent > 0))
        || (i in sets.write && socks[i].sendevent)
        || (i in sets.except && socks[i].errevent))
  }

  /** Step m is the call's look at descriptor i in scan number pass. */
  ghost predicate LooksAt(run: seq<State>, steps: seq<Step>, m: nat, t: nat, sets: Sets, pass: nat, i: nat) {
    && m < |steps| && m < |run| && steps[m] == SelectStep(t) && t in run[m].sels
    && run[m].sels[t].sets == sets && run[m].sels[t].pc == Scan(pass, i) && i < sets.maxfdp1
  }

  /** Before step n the second scan has looked at i, and it was not ready. */
  ghost predicate SeenIdle(run: seq<State>, steps: seq<Step>, n: nat, t: nat, sets: Sets, i: nat) {
    exists m :: 0 <= m < n && LooksAt(run, steps, m, t, sets, 2, i) && !ReadyAt(run[m].socks, sets, i)
  }

  ghost predicate AllIdle(run: seq<State>, steps: seq<Step>, n: nat, t: nat, sets: Sets, upTo: nat) {
    forall i | 0 <= i < upTo :: SeenIdle(run, steps, n, t, sets, i)
  }

  /** Before step n some scan of the call has looked at a descriptor that was ready. */
  ghost predicate SeenReady(run: seq<State>, steps: seq<Step>, n: nat, t: nat, sets: Sets) {
    exists m, pass, i :: 0 <= m < n && LooksAt(run, steps, m, t, sets, pass, i) && ReadyAt(run[m].socks, sets, i)
  }

  /** What a thread's position says about what its scans have seen. */
  ghost predicate Seen(run: seq<State>, steps: seq<Step>, n: nat, t: nat)
    requires n < |run| && t in run[n].sels
  {
    var sel := run[n].sels[t];
    && (sel.pc.Scan? && sel.nready > 0 ==> SeenReady(run, steps, n, t, sel.sets))
    && (sel.pc.Scan? && sel.pc.pass == 2 && sel.nready == 0 ==>
          sel.pc.i <= sel.sets.maxfdp1 && AllIdle(run, steps, n, t, sel.sets, sel.pc.i))
    && (sel.pc == Blocked ==> AllIdle(run, steps, n, t, sel.sets, sel.sets.maxfdp1))
    && (sel.pc.Scan? ==> sel.nready >= 0)
  }

  lemma {:induction false} IdleLater(run: seq<State>, steps: seq<Step>, n: nat, n': nat, t: nat, sets: Sets, upTo: nat)
    requires AllIdle(run, steps, n, t, sets, upTo) && n <= n'
    ensures AllIdle(run, steps, n', t, sets, upTo)
  {
    forall i | 0 <= i < upTo ensures SeenIdle(run, steps, n', t, sets, i) {
      assert SeenIdle(run, steps, n, t, sets, i);
    }
  }

  lemma {:induction false} ReadyCounted(socks: map<nat, Sock>, sets: Sets, i: nat)
    ensures ReadyCount(socks, sets, i) > 0 <==> ReadyAt(socks, sets, i)
  {
  }

  /** The scan of t makes its look at i. */
  lemma {:induction false} ScanSeen(run: seq<State>, steps: seq<Step>, n: nat, t: nat, pass: nat, i: nat)
    requires IsRun(run, steps) && n + 1 < |run| && t in run[n].sels && Seen(run, steps, n, t)
    requires steps[n] == SelectStep(t) && run[n].sels[t].pc == Scan(pass, i) && i < run[n].sels[t].sets.maxfdp1
    ensures t in run[n + 1].sels && Seen(run, steps, n + 1, t)
  {
    var sel := run[n].sels[t];
    assert run[n + 1] == Advance(run[n], t);
    ReadyCounted(run[n].socks, sel.sets, i);
    hide ReadyCount, ReadyAt;
    assert LooksAt(run, steps, n, t, sel.sets, pass, i);
    assert run[n + 1].sels[t].sets == sel.sets && run[n + 1].sels[t].pc == Scan(pass, i + 1);
    if pass == 2 && run[n + 1].sels[t].nready == 0 {
      IdleLater(run, steps, n, n + 1, t, sel.sets, i);
      assert SeenIdle(run, steps, n + 1, t, sel.sets, i);
    }
    if sel.nready > 0 { ReadyLater(run, steps, n, t, sel.sets); }
  }

  lemma {:induction false} ReadyLater(run: seq<State>, steps: seq<Step>, n: nat, t: nat, sets: Sets)
    requires SeenReady(run, steps, n, t, sets)
    ensures SeenReady(run, steps, n + 1, t, sets)
  {
  }

  /** Any other step of t. */
  lemma {:induction false} OtherSeen(run: seq<State>, steps: seq<Step>, n: nat, t: nat)
    requires IsRun(run, steps) && n + 1 < |run| && t in run[n].sels && Seen(run, steps, n, t)
    requires steps[n] == SelectStep(t) && t in run[n + 1].sels
    requires run[n].sels[t].pc.Scan? ==> run[n].sels[t].pc.i >= run[n].sels[t].sets.maxfdp1
    ensures Seen(run, steps, n + 1, t)
  {
    var sel, sel' := run[n].sels[t], run[n + 1].sels[t];
    assert run[n + 1] == Advance(run[n], t) && sel'.sets == sel.sets;
    hide AllIdle, SeenReady, IsRun;
    if sel.pc.Scan? && sel.pc.pass == 2 && sel.nready == 0 {
      IdleLater(run, steps, n, n + 1, t, sel.sets, sel.pc.i);
    }
    if sel.pc == Blocked {
      IdleLater(run, steps, n, n + 1, t, sel.sets, sel.sets.maxfdp1);
    }
    if sel'.pc == Scan(2, 0) || sel'.pc == Scan(1, 0) || sel'.pc == Scan(3, 0) { NothingYet(run, steps, n + 1, t, sel'.sets); }
  }

  lemma {:induction false} NothingYet(run: seq<State>, steps: seq<Step>, n: nat, t: nat, sets: Sets)
    ensures AllIdle(run, steps, n, t, sets, 0)
  {
  }

  /** Steps of others leave the thread where it is, or signal it. */
  lemma {:induction false} ElsewhereSeen(st: State, step: Step, t: nat)
    requires Enabled(st, step) && t in st.sels && t in Apply(st, step).sels
    requires !(step.SelectStep? && step.t == t)
    ensures var sel, sel' := st.sels[t], Apply(st, step).sels[t];
            && sel'.sets == sel.sets && sel'.nready == sel.nready
            && (sel'.pc == sel.pc || (sel.pc == Blocked && sel'.pc == CountDown(0)))
  {
  }

  lemma {:induction false} StepSeen(run: seq<State>, steps: seq<Step>, n: nat, t: nat)
    requires IsRun(run, steps) && n + 1 < |run| && t in run[n + 1].sels
    requires t in run[n].sels ==> Seen(run, steps, n, t)
    ensures Seen(run, steps, n + 1, t)
  {
    if t !in run[n].sels {
      EnteredSeen(run[n], steps[n], t);
      NothingYet(run, steps, n + 1, t, run[n + 1].sels[t].sets);
    } else if steps[n] == SelectStep(t) {
      var pc := run[n].sels[t].pc;
      hide Seen;
      if pc.Scan? && pc.i < run[n].sels[t].sets.maxfdp1 {
        ScanSeen(run, steps, n, t, pc.pass, pc.i);
      } else {
        OtherSeen(run, steps, n, t);
      }
    } else {
      ElsewhereSeen(run[n], steps[n], t);
      KeptSeen(run, steps, n, t);
    }
  }

  lemma {:induction false} KeptSeen(run: seq<State>, steps: seq<Step>, n: nat, t: nat)
    requires n + 1 < |run| && t in run[n].sels && t in run[n + 1].sels && Seen(run, steps, n, t)
    requires var sel, sel' := run[n].sels[t], run[n + 1].sels[t];
             && sel'.sets == sel.sets && sel'.nready == sel.nready
             && (sel'.pc == sel.pc || (sel.pc == Blocked && sel'.pc == CountDown(0)))
    ensures Seen(run, steps, n + 1, t)
  {
    var sel := run[n].sels[t];
    hide AllIdle, SeenReady;
    if sel.pc.Scan? && sel.nready > 0 { ReadyLater(run, steps, n, t, sel.sets); }
    if sel.pc.Scan? && sel.pc.pass == 2 && sel.nready == 0 { IdleLater(run, steps, n, n + 1, t, sel.sets, sel.pc.i); }
    if sel.pc == Blocked { IdleLater(run, steps, n, n + 1, t, sel.sets, sel.sets.maxfdp1); }
  }

  lemma {:induction false} EnteredSeen(st: State, step: Step, t: nat)
    requires Enabled(st, step) && t !in st.sels && t in Apply(st, step).sels
    ensures Apply(st, step).sels[t].pc == Scan(1, 0) && Apply(st, step).sels[t].nready == 0
  {
  }

  lemma {:induction false} RunSeen(run: seq<State>, steps: seq<Step>, n: nat, t: nat)
    requires IsRun(run, steps) && n < |run|
    ensures t in run[n].sels ==> Seen(run, steps, n, t)
  {
    hide *;
    if n == 0 {
      StartEmpty(run, steps);
    } else {
      RunSeen(run, steps, n - 1, t);
      if t in run[n].sels { StepSeen(run, steps, n - 1, t); }
    }
  }

  lemma {:induction false} StartEmpty(run: seq<State>, steps: seq<Step>)
    requires IsRun(run, steps)
    ensures |run| > 0 && run[0].sels == map[]
  {
  }

  /** In every run a thread blocks only after its second scan found each descriptor not ready, and
      a scan counts something as ready only if it saw something ready. */
  lemma {:induction false} ScansRight(run: seq<State>, steps: seq<Step>, n: nat, t: nat)
    requires IsRun(run, steps) && n < |run| && t in run[n].sels
    ensures var sel := run[n].sels[t];
            && (sel.pc == Blocked ==> forall i | 0 <= i < sel.sets.maxfdp1 :: SeenIdle(run, steps, n, t, sel.sets, i))
            && (sel.pc.Scan? && sel.nready > 0 ==> SeenReady(run, steps, n, t, sel.sets))
  {
    RunSeen(run, steps, n, t);
  }

  /** A call that only polls never blocks, nor registers. */
  lemma {:induction false} PollReturns(run: seq<State>, steps: seq<Step>, n: nat, t: nat)
    requires IsRun(run, steps) && n < |run| && t in run[n].sels && run[n].sels[t].poll
    ensures run[n].sels[t].pc.Scan? && run[n].sels[t].pc.pass == 1
  {
    if n > 0 {
      var st, step := run[n - 1], steps[n - 1];
      if t in st.sels && !(step.SelectEnter? && step.t == t) {
        PollKept(st, step, t);
        PollReturns(run, steps, n - 1, t);
        PollStep(st, step, t);
      } else {
        EnteredSeen(st, step, t);
      }
    }
  }

  lemma {:induction false} PollKept(st: State, step: Step, t: nat)
    requires Enabled(st, step) && t in st.sels && t in Apply(st, step).sels
    ensures Apply(st, step).sels[t].poll == st.sels[t].poll
  {
    NextPoll(st.socks, st.sels[t]);
    hide NextSelector, NextSocks, Without, Post, Fires;
  }

  lemma {:induction false} NextPoll(socks: map<nat, Sock>, sel: Selector)
    ensures NextSelector(socks, sel).Some? ==> NextSelector(socks, sel).value.poll == sel.poll
  {
    hide ReadyCount, Watched;
  }

  lemma {:induction false} PollStep(st: State, step: Step, t: nat)
    requires Enabled(st, step) && t in st.sels && t in Apply(st, step).sels
    requires st.sels[t].poll && st.sels[t].pc.Scan? && st.sels[t].pc.pass == 1
    ensures Apply(st, step).sels[t].pc.Scan? && Apply(st, step).sels[t].pc.pass == 1
  {
  }

  // ---------------------------------------------------------------------
  // Threads with a reason to return do

  /** The state after n steps of thread t with nothing else happening. */
  function Alone(st: State, t: nat, n: nat): State
    decreases n
  {
    if n == 0 || !Enabled(st, SelectStep(t)) then st else Alone(Apply(st, SelectStep(t)), t, n - 1)
  }

  /** On the way out of lwip_select. */
  predicate Leaving(sel: Selector) {
    || (sel.pc == Blocked && sel.sem > 0) || sel.pc.CountDown? || sel.pc.Unlink?
    || (sel.pc.Scan? && (sel.nready > 0 || sel.pc.pass == 3 || (sel.pc.pass == 1 && sel.poll)))
  }

  /** The steps that takes at most. */
  function ToGo(sel: Selector): nat {
    match sel.pc
    case Blocked => sel.maxfdp2 + sel.sets.maxfdp1 + 4
    case CountDown(i) => (if i < sel.maxfdp2 then sel.maxfdp2 - i else 0) + sel.sets.maxfdp1 + 3
    case Unlink => sel.sets.maxfdp1 + 2
    case Scan(pass, i) =>
      (if i < sel.sets.maxfdp1 then sel.sets.maxfdp1 - i else 0) + 1
      + (if pass == 2 then sel.maxfdp2 + sel.sets.maxfdp1 + 3 else 0)
    case _ => 0
  }

  lemma {:induction false} LeavingStep(st: State, t: nat)
    requires t in st.sels && Leaving(st.sels[t])
    ensures Enabled(st, SelectStep(t))
    ensures var st' := Apply(st, SelectStep(t));
            t in st'.sels ==> Leaving(st'.sels[t]) && ToGo(st'.sels[t]) < ToGo(st.sels[t])
    ensures ToGo(st.sels[t]) > 0
  {
  }

  lemma {:induction false} LeavesWithin(st: State, t: nat, n: nat)
    requires t in st.sels ==> Leaving(st.sels[t]) && ToGo(st.sels[t]) <= n
    ensures t !in Alone(st, t, n).sels
    decreases n
  {
    hide Leaving, ToGo, Apply, Advance;
    if t in st.sels {
      LeavingStep(st, t);
      LeavesWithin(Apply(st, SelectStep(t)), t, n - 1);
    }
  }

  lemma {:induction false} TimedOutLeaves(run: seq<State>, steps: seq<Step>, n: nat, t: nat)
    requires IsRun(run, steps) && n < |run| && t in run[n].sels && run[n].sels[t].timedOut
    ensures run[n].sels[t].pc.CountDown? || run[n].sels[t].pc.Unlink?
  {
    if n > 0 {
      var st, step := run[n - 1], steps[n - 1];
      if t in st.sels && st.sels[t].timedOut { TimedOutLeaves(run, steps, n - 1, t); }
      TimedOutStep(st, step, t);
    }
  }

  lemma {:induction false} TimedOutStep(st: State, step: Step, t: nat)
    requires Enabled(st, step) && t in Apply(st, step).sels && Apply(st, step).sels[t].timedOut
    requires t in st.sels && st.sels[t].timedOut ==> st.sels[t].pc.CountDown? || st.sels[t].pc.Unlink?
    ensures Apply(st, step).sels[t].pc.CountDown? || Apply(st, step).sels[t].pc.Unlink?
  {
    hide NextSocks, Without, Post, Fires, ReadyCount, Watched;
  }

  /** In every run a thread that was signalled while blocked, or timed out, or has seen something
      ready in its scan, or only polls, returns after at most that many steps of its own. */
  lemma {:induction false} Returns(run: seq<State>, steps: seq<Step>, n: nat, t: nat)
    requires IsRun(run, steps) && n < |run| && t in run[n].sels
    requires var sel := run[n].sels[t];
             || (sel.pc == Blocked && sel.signalled) || sel.timedOut
             || (sel.pc.Scan? && sel.nready > 0) || sel.poll
    ensures t !in Alone(run[n], t, 3 * run[n].sels[t].sets.maxfdp1 + 4).sels
  {
    var sel := run[n].sels[t];
    RunInv(run, steps, n);
    assert LocalInv(run[n].socks, sel);
    if sel.timedOut { TimedOutLeaves(run, steps, n, t); }
    if sel.poll { PollReturns(run, steps, n, t); }
    assert Leaving(sel) && ToGo(sel) <= 3 * sel.sets.maxfdp1 + 4;
    hide *;
    LeavesWithin(run[n], t, 3 * run[n].sels[t].sets.maxfdp1 + 4);
  }
}
