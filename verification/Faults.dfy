/**
 * When a descriptor ends a socket, in terms of what the kernel answers: for one step, and over
 * whole runs. Loss-free closing is restated in these terms.
 */
module Faults {
  import opened Basics
  import opened Sockets
  import opened Streams
  import opened Multiplex

  /** The bytes a callback has queued in front of it; there is at most one packet. */
  function Waiting(s: Socket): nat {
    if s.queue == [] then 0 else |s.queue[0]|
  }

  /** The read half runs: alone, or after the write half emptied the queue of a live socket. */
  predicate Reads(s: Socket, wcalls: seq<WriteCall>) {
    && Read in s.fde.pending
    && (Write in s.fde.pending ==> s.status.Live? && Drain(s.queue, wcalls, true).end.Finished?)
  }

  /** The answers of the kernel to the event handler end the socket. */
  predicate EventFault(s: Socket, wcalls: seq<WriteCall>, rcalls: seq<ReadCall>) {
    || (Write in s.fde.pending && Breaks(Waiting(s), wcalls, true))
    || (Reads(s, wcalls) && Listen(rcalls).ended && |Listen(rcalls).bytes| < MAX_PAYLOAD)
  }

  /** The answers of the kernel to enqueue end the socket; an interrupted write is among them. */
  predicate PacketFault(s: Socket, p: Packet, wcalls: seq<WriteCall>) {
    s.status.Live? && p.Wrte? && s.queue == [] && Breaks(|p.data|, wcalls, false)
  }

  lemma QueueOfOne(s: Socket, calls: seq<WriteCall>)
    requires SocketOk(s)
    ensures Drain(s.queue, calls, true).end.Broken? <==> Breaks(Waiting(s), calls, true)
  {
    if s.queue != [] {
      assert s.queue == [s.queue[0]];
      DrainBreaksIff(s.queue[0], calls, true);
    }
  }

  /** A live receiver ends on a WRTE exactly if a write breaks, be it by an interrupt. */
  lemma WrteEndsIff(s: Socket, p: Packet, wcalls: seq<WriteCall>)
    requires s.status.Live? && p.Wrte?
    ensures OnPacket(s, p, wcalls).s.status.Live? <==> !(s.queue == [] && Breaks(|p.data|, wcalls, false))
  {
    DrainBreaksIff(p.data, wcalls, false);
  }

  lemma ReadHalfFault(s: Socket, t: Taken)
    ensures OnReadable(s, t).s.Faulted() <==> s.Faulted() || t.eof
  {
  }

  lemma WriteHalfFault(s: Socket, d: Drained)
    requires SocketOk(s)
    ensures var e := OnWritable(s, d);
            && (e.s.Faulted() <==> s.Faulted() || d.end.Broken?)
            && (e.s.status.Live? && e.s.queue == [] <==> s.status.Live? && !d.end.Broken? && d.rest == [])
  {
  }

  lemma CallbackFault(s: Socket, ev: set<Event>, d: Drained, t: Taken)
    requires SocketOk(s) && (d.end.Finished? <==> d.rest == [])
    ensures Callback(s, ev, d, t).s.Faulted() <==>
            || s.Faulted() || (Write in ev && d.end.Broken?)
            || (Read in ev && (Write in ev ==> s.status.Live? && d.end.Finished?) && t.eof)
  {
    WriteHalfFault(s, d);
    ReadHalfFault(s, t);
    ReadHalfFault(OnWritable(s, d).s, t);
    hide OnReadable, OnWritable, SocketOk;
  }

  lemma EventFaultIff(s: Socket, wcalls: seq<WriteCall>, rcalls: seq<ReadCall>)
    requires SocketOk(s)
    ensures OnEvent(s, wcalls, rcalls).s.Faulted() <==> s.Faulted() || EventFault(s, wcalls, rcalls)
  {
    QueueOfOne(s, wcalls);
    TakeHears(MAX_PAYLOAD, rcalls);
    var d, t := Drain(s.queue, wcalls, true), Take(MAX_PAYLOAD, rcalls);
    CallbackFault(s.(fde := s.fde.(pending := {})), s.fde.pending, d, t);
    hide Drain, Take, Breaks, Listen, Flatten, Callback, SocketOk;
  }

  lemma DeliverFaultIff(s: Socket, p: Packet, wcalls: seq<WriteCall>)
    requires SocketOk(s) && !p.Open?
    ensures Deliver(s, p, wcalls).s.Faulted() <==> s.Faulted() || PacketFault(s, p, wcalls)
  {
    if p.Wrte? {
      DrainBreaksIff(p.data, wcalls, false);
    }
    hide Drain, Breaks, Flatten;
  }

  // Steps and runs of the two processes, for the sockets of process a.

  /** The kernel's answers in a step of process a end its socket k. */
  predicate FaultsA(n: Net, act: Action, k: nat) {
    k in n.a.socks &&
    match act
    case Fire(id, wcalls, rcalls) => id == k && n.a.socks[k].fde.pending != {} && EventFault(n.a.socks[k], wcalls, rcalls)
    case Receive(wcalls, _) => n.toA != [] && IsFor(n.toA[0], k) && PacketFault(n.a.socks[k], n.toA[0], wcalls)
    case _ => false
  }

  lemma EverySocketOk(n: Net, k: nat)
    requires Inv(n) && k in n.a.socks
    ensures SocketOk(n.a.socks[k])
  {
    if d :| Partner(n, k, d) {
      assert LinkInv(View(n, k, d));
    } else {
      assert Lonely(n, k);
    }
  }

  lemma StepFaultIff(n: Net, act: Action, k: nat)
    requires Inv(n) && k in StepA(n, act).a.socks
    ensures StepA(n, act).a.socks[k].Faulted() <==> (k in n.a.socks && n.a.socks[k].Faulted()) || FaultsA(n, act, k)
  {
    hide Inv, EventFault, PacketFault, OnEvent, OnPacket;
    IdsAreOk(n);
    match act {
      case Connect =>
        if k in n.a.socks {
          NewIsNew(n, k);
        }
      case Select(id, ready) =>
      case Fire(id, wcalls, rcalls) =>
        if id == k && k in n.a.socks {
          EverySocketOk(n, k);
          EventFaultIff(n.a.socks[k], wcalls, rcalls);
        }
      case Receive(wcalls, accepted) =>
        if n.toA != [] && n.toA[0].Open? {
          if k in n.a.socks {
            NewIsNew(n, k);
          }
        } else if n.toA != [] && n.toA[0].arg1 == k && k in n.a.socks {
          EverySocketOk(n, k);
          DeliverFaultIff(n.a.socks[k], n.toA[0], wcalls);
        }
    }
  }

  lemma NewIsNew(n: Net, k: nat)
    requires IdsOk(n.a) && k in n.a.socks
    ensures k != NextId(n.a.installed)
  {
  }

  lemma IdsAreOk(n: Net)
    requires Inv(n)
    ensures IdsOk(n.a)
  {
  }

  lemma MoveFaultIff(n: Net, m: Move, k: nat)
    requires Inv(n) && k in Step(n, m).a.socks
    ensures Step(n, m).a.socks[k].Faulted() <==>
            (k in n.a.socks && n.a.socks[k].Faulted()) || (m.byA && FaultsA(n, m.act, k))
  {
    hide Inv, FaultsA;
    if m.byA {
      StepFaultIff(n, m.act, k);
    } else {
      OtherHostStays(n.Flip(), m.act);
    }
  }

  lemma OtherHostStays(n: Net, act: Action)
    ensures StepA(n, act).b == n.b
  {
  }

  /** In some step of the run the kernel's answers end socket k of process a. */
  ghost predicate FaultedIn(run: seq<Net>, k: nat) {
    exists i, act :: 0 <= i < |run| - 1 && FaultsA(run[i], act, k) && run[i + 1] == StepA(run[i], act)
  }

  lemma StepKeepsSockets(n: Net, n': Net, k: nat)
    requires Moves(n, n') && k in n.a.socks
    ensures k in n'.a.socks
  {
  }

  lemma {:induction false} SocketsStay(run: seq<Net>, i: nat, k: nat)
    requires IsRun(run) && i < |run| && k in run[i].a.socks
    ensures k in run[|run| - 1].a.socks
    decreases |run| - i
  {
    if i < |run| - 1 {
      assert Moves(run[i], run[i + 1]);
      StepKeepsSockets(run[i], run[i + 1], k);
      SocketsStay(run, i + 1, k);
    }
  }

  lemma Prefix(run: seq<Net>)
    requires IsRun(run) && |run| > 1 && Bounded(run[|run| - 1])
    ensures IsRun(run[..|run| - 1]) && Bounded(run[|run| - 2]) && Inv(run[|run| - 2])
  {
    hide Inv;
    var init, last := run[..|run| - 1], |run| - 2;
    assert Moves(run[last], run[last + 1]);
    var m :| run[last + 1] == Step(run[last], m);
    InstalledGrows(run[last], m);
    forall k | 0 <= k < |init| - 1 ensures Moves(init[k], init[k + 1]) {
      assert Moves(run[k], run[k + 1]);
    }
    assert init[|init| - 1] == run[last];
    RunKeepsInv(init);
  }

  /** A socket was ended by its descriptor exactly if in some step of the run the kernel's answers did it. */
  lemma {:induction false} FaultedIff(run: seq<Net>, k: nat)
    requires IsRun(run) && Bounded(run[|run| - 1]) && k in run[|run| - 1].a.socks
    ensures run[|run| - 1].a.socks[k].Faulted() <==> FaultedIn(run, k)
    decreases |run|
  {
    hide Inv, FaultsA;
    if |run| > 1 {
      var init, before, after := run[..|run| - 1], run[|run| - 2], run[|run| - 1];
      Prefix(run);
      assert init[|init| - 1] == before;
      if k in before.a.socks {
        FaultedIff(init, k);
      }
      FaultedBefore(run, k);
      if after.a.socks[k].Faulted() && !(k in before.a.socks && before.a.socks[k].Faulted()) {
        NewFault(run, k);
      }
    }
  }

  /** The step that ends a socket. */
  lemma NewFault(run: seq<Net>, k: nat)
    requires IsRun(run) && |run| > 1 && Inv(run[|run| - 2]) && k in run[|run| - 1].a.socks
    requires run[|run| - 1].a.socks[k].Faulted()
    requires k in run[|run| - 2].a.socks ==> !run[|run| - 2].a.socks[k].Faulted()
    ensures FaultedIn(run, k)
  {
    hide Inv, FaultsA, StepA;
    var i := |run| - 2;
    assert Moves(run[i], run[i + 1]);
    var m :| run[i + 1] == Step(run[i], m);
    MoveFaultIff(run[i], m, k);
    assert FaultsA(run[i], m.act, k);
  }

  /** A fault in the run shows at its end. */
  lemma FaultedBefore(run: seq<Net>, k: nat)
    requires IsRun(run) && |run| > 1 && Bounded(run[|run| - 1]) && k in run[|run| - 1].a.socks
    requires k in run[|run| - 2].a.socks ==>
               (run[|run| - 2].a.socks[k].Faulted() <==> FaultedIn(run[..|run| - 1], k))
    ensures FaultedIn(run, k) ==> run[|run| - 1].a.socks[k].Faulted()
    ensures FaultedIn(run[..|run| - 1], k) ==> FaultedIn(run, k)
  {
    hide Inv, StepA;
    var init, last := run[..|run| - 1], |run| - 2;
    if FaultedIn(init, k) {
      var i, act :| 0 <= i < |init| - 1 && FaultsA(init[i], act, k) && init[i + 1] == StepA(init[i], act);
      assert FaultsA(run[i], act, k) && run[i + 1] == StepA(run[i], act);
    }
    if FaultedIn(run, k) {
      var i, act :| 0 <= i < |run| - 1 && FaultsA(run[i], act, k) && run[i + 1] == StepA(run[i], act);
      Prefix(run);
      if i == last {
        StepFaultIff(run[i], act, k);
      } else {
        assert init[i] == run[i] && init[i + 1] == run[i + 1];
        assert FaultsA(init[i], act, k);
        assert k in init[i].a.socks;
        SocketsStay(init, i, k);
        FaultStays(run, k);
      }
    }
  }

  lemma FaultStays(run: seq<Net>, k: nat)
    requires IsRun(run) && |run| > 1 && Inv(run[|run| - 2])
    requires k in run[|run| - 2].a.socks && run[|run| - 2].a.socks[k].Faulted()
    ensures k in run[|run| - 1].a.socks && run[|run| - 1].a.socks[k].Faulted()
  {
    hide Inv, FaultsA, StepA;
    var i := |run| - 2;
    assert Moves(run[i], run[i + 1]);
    StepKeepsSockets(run[i], run[i + 1], k);
    var m :| run[i + 1] == Step(run[i], m);
    MoveFaultIff(run[i], m, k);
  }

  /**
   * Graceful close by the kernel's answers alone: if the sender's own descriptor ended it, and in no
   * step of the run the answers to the receiver's reads and writes ended that one, the receiver is
   * destroyed only after writing every byte the sender read.
   */
  lemma GracefulCloseByAnswers(run: seq<Net>, k: nat, d: nat)
    requires IsRun(run) && Bounded(run[|run| - 1]) && Partner(run[|run| - 1], k, d)
    requires run[|run| - 1].b.socks[d].cause.OwnFd? && run[|run| - 1].a.socks[k].status.Dead?
    requires !FaultedIn(run, k)
    ensures run[|run| - 1].a.socks[k].written == run[|run| - 1].b.socks[d].taken
  {
    hide Inv, FaultedIn;
    FaultedIff(run, k);
    GracefulClose(run[|run| - 1], k, d);
  }

  /** The two processes are alike, so the same holds of the other direction. */
  lemma RunFlips(run: seq<Net>)
    requires IsRun(run)
    ensures IsRun(seq(|run|, i requires 0 <= i < |run| => run[i].Flip()))
  {
    var flipped := seq(|run|, i requires 0 <= i < |run| => run[i].Flip());
    forall k | 0 <= k < |flipped| - 1 ensures Moves(flipped[k], flipped[k + 1]) {
      assert Moves(run[k], run[k + 1]);
      var m :| run[k + 1] == Step(run[k], m);
      assert flipped[k + 1] == Step(flipped[k], Move(!m.byA, m.act));
    }
  }
}
