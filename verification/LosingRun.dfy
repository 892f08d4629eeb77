/**
 * Two concrete runs that lose a byte although no descriptor fails. In the first the receiver
 * has the byte queued and READ pending when CLSE arrives; fdevent_set keeps that stale event,
 * and the callback it causes reads end of file and destroys the socket, backlog and all. In
 * the second the first write of the byte is interrupted, which enqueue takes for an error.
 */
module LosingRun {
  import opened Basics
  import opened Sockets
  import opened Streams
  import opened Multiplex

  // The two sockets as the run changes them: sender x and receiver y.

  const X0 := NewSocket(1, true, None)
  const X1 := X0.(remote := Some(1), fde := Fde({Read}, {}))
  const X2 := X1.(fde := Fde({Read}, {Read}))
  const X3 := X1.(taken := [7], sent := [7], status := Dead, fde := IDLE, cause := OwnFd)
  const Y0 := Acceptor(1, 1)
  const Y1 := Y0.(queue := [[7]], fde := Fde({Read, Write}, {}))
  const Y2 := Y1.(fde := Fde({Read, Write}, {Read}))
  const Y3 := Y2.(status := Closing, fde := Fde({Write}, {Read}), cause := PeerClosed)
  const Z1 := Y0.(status := Dead, fde := IDLE, cause := OwnFd)
  const Y4 := Y3.(status := Dead, fde := IDLE, queue := [], aborted := true)

  function Pair(x: Socket, y: Socket, toA: seq<Packet>, toB: seq<Packet>): Net {
    Net(Host(1, map[1 := x]), Host(1, map[1 := y]), toA, toB)
  }

  /** One move more. */
  lemma ReachStep(n: Net, m: Move)
    requires Reachable(n)
    ensures Reachable(Step(n, m))
  {
    var run :| IsRun(run) && run[|run| - 1] == n;
    var run' := run + [Step(n, m)];
    forall k | 0 <= k < |run'| - 1
      ensures Moves(run'[k], run'[k + 1])
    {
      if k < |run| - 1 {
        assert Moves(run[k], run[k + 1]);
      }
    }
    assert IsRun(run');
  }

  // Moves of one pair.

  lemma PairOfA(x: Socket, y: Socket, toA: seq<Packet>, toB: seq<Packet>, e: Effect, rest: seq<Packet>)
    ensures Update(Pair(x, y, toA, toB), 1, e, rest) == Pair(e.s, y, rest, toB + e.Out())
  {
    assert map[1 := x][1 := e.s] == map[1 := e.s];
  }

  lemma SelectOfA(x: Socket, y: Socket, x': Socket)
    requires OnSelect(x, {Read}).s == x'
    ensures Step(Pair(x, y, [], []), Move(true, Select(1, {Read}))) == Pair(x', y, [], [])
  {
    PairOfA(x, y, [], [], OnSelect(x, {Read}), []);
  }

  lemma FireOfA(x: Socket, y: Socket, rcalls: seq<ReadCall>, e: Effect)
    requires x.fde.pending != {} && OnEvent(x, [], rcalls) == e
    ensures Step(Pair(x, y, [], []), Move(true, Fire(1, [], rcalls))) == Pair(e.s, y, [], [] + e.Out())
  {
    PairOfA(x, y, [], [], e, []);
  }

  /** The same moves by the other process. */
  lemma ByB(x: Socket, y: Socket, toA: seq<Packet>, toB: seq<Packet>, act: Action)
    ensures Step(Pair(x, y, toA, toB), Move(false, act)) == StepA(Pair(y, x, toB, toA), act).Flip()
  {
  }

  lemma DeliverToB(x: Socket, y: Socket, p: Packet, rest: seq<Packet>, wcalls: seq<WriteCall>, e: Effect)
    requires IsFor(p, 1) && y.status.Live? && OnPacket(y, p, wcalls) == e
    ensures Step(Pair(x, y, [], [p] + rest), Move(false, Receive(wcalls, true))) == Pair(x, e.s, [] + e.Out(), rest)
  {
    ByB(x, y, [], [p] + rest, Receive(wcalls, true));
    assert ([p] + rest)[1..] == rest;
    PairOfA(y, x, [p] + rest, [], e, rest);
  }

  // The run.

  lemma Accepting()
    ensures Reachable(Pair(X0, Y0, [Okay(1, 1)], []))
  {
    assert IsRun([START]);
    ReachStep(START, Move(true, Connect));
    var n1 := Net(Host(1, map[1 := X0]), Host(0, map[]), [], [Open(1)]);
    assert Step(START, Move(true, Connect)) == n1;
    ReachStep(n1, Move(false, Receive([], true)));
    assert Step(n1, Move(false, Receive([], true))) == Pair(X0, Y0, [Okay(1, 1)], []);
  }

  lemma Opening()
    ensures Reachable(Pair(X1, Y0, [], []))
  {
    Accepting();
    ReachStep(Pair(X0, Y0, [Okay(1, 1)], []), Move(true, Receive([], true)));
    assert {} + {Read} == {Read};
    assert OnOkay(X0, 1) == Quiet(X1);
    PairOfA(X0, Y0, [Okay(1, 1)], [], Quiet(X1), []);
  }

  lemma SenderReadsAndEnds()
    ensures OnEvent(X2, [], [Got([7]), Got([])]) == Effect(X3, 1, false, [7], true)
  {
    var calls := [Got([7]), Got([])];
    assert calls[1..] == [Got([])];
    assert Take(MAX_PAYLOAD - 1, calls[1..]) == Taken([], true);
    assert Take(MAX_PAYLOAD, calls) == Taken([7], true);
  }

  lemma Sending()
    ensures Reachable(Pair(X3, Y0, [], [Wrte(1, 1, [7]), Clse(0, 1)]))
  {
    Opening();
    ReachStep(Pair(X1, Y0, [], []), Move(true, Select(1, {Read})));
    assert {} + {Read} * {Read} == {Read};
    SelectOfA(X1, Y0, X2);
    ReachStep(Pair(X2, Y0, [], []), Move(true, Fire(1, [], [Got([7]), Got([])])));
    SenderReadsAndEnds();
    FireOfA(X2, Y0, [Got([7]), Got([])], Effect(X3, 1, false, [7], true));
    assert [] + Effect(X3, 1, false, [7], true).Out() == [Wrte(1, 1, [7]), Clse(0, 1)];
  }

  lemma ReceiverBlocks()
    ensures OnData(Y0, 1, [7], []) == Quiet(Y1)
  {
    assert {Read} + {Write} == {Read, Write} && {} - {Read, Write} == {};
  }

  lemma Queueing()
    ensures Reachable(Pair(X3, Y1, [], [Clse(0, 1)]))
  {
    Sending();
    ReachStep(Pair(X3, Y0, [], [Wrte(1, 1, [7]), Clse(0, 1)]), Move(false, Receive([], true)));
    ReceiverBlocks();
    assert [Wrte(1, 1, [7]), Clse(0, 1)] == [Wrte(1, 1, [7])] + [Clse(0, 1)];
    DeliverToB(X3, Y0, Wrte(1, 1, [7]), [Clse(0, 1)], [], Quiet(Y1));
    assert [] + Quiet(Y1).Out() == [];
  }

  lemma ReceiverCloses()
    ensures OnPacket(Y2, Clse(0, 1), []) == Quiet(Y3).(clse := true)
  {
    assert {Read, Write} - {Read} == {Write} && {Read} - {Write} == {Read};
  }

  lemma ClosingWithStaleRead()
    ensures Reachable(Pair(X3, Y3, [Clse(0, 1)], []))
  {
    Queueing();
    ReachStep(Pair(X3, Y1, [], [Clse(0, 1)]), Move(false, Select(1, {Read})));
    assert {} + {Read} * {Read, Write} == {Read};
    ByB(X3, Y1, [], [Clse(0, 1)], Select(1, {Read}));
    PairOfA(Y1, X3, [Clse(0, 1)], [], OnSelect(Y1, {Read}), [Clse(0, 1)]);
    assert [Clse(0, 1)] + [] == [Clse(0, 1)];
    ReachStep(Pair(X3, Y2, [], [Clse(0, 1)]), Move(false, Receive([], true)));
    ReceiverCloses();
    DeliverToB(X3, Y2, Clse(0, 1), [], [], Quiet(Y3).(clse := true));
  }

  /** The sender read one byte and ended; the receiver, closed by it, wrote nothing. */
  lemma ClosingCanLose() returns (n: Net)
    ensures Reachable(n) && Bounded(n) && Partner(n, 1, 1)
    ensures n.a.socks[1].cause.OwnFd? && n.a.socks[1].taken == [7]
    ensures n.b.socks[1].cause.PeerClosed? && n.b.socks[1].status.Dead? && n.b.socks[1].written == []
  {
    ClosingWithStaleRead();
    ReachStep(Pair(X3, Y3, [Clse(0, 1)], []), Move(false, Fire(1, [], [Got([])])));
    assert Take(MAX_PAYLOAD, [Got([])]) == Taken([], true);
    assert OnEvent(Y3, [], [Got([])]) == Quiet(Y4);
    ByB(X3, Y3, [Clse(0, 1)], [], Fire(1, [], [Got([])]));
    PairOfA(Y3, X3, [], [Clse(0, 1)], Quiet(Y4), []);
    n := Pair(X3, Y4, [Clse(0, 1)], []);
  }

  /** The sender read one byte; a receiver in good health is destroyed by an interrupted write of it. */
  lemma InterruptedWriteLoses() returns (before: Net, n: Net)
    ensures Reachable(before) && n == Step(before, Move(false, Receive([WriteIntr], true)))
    ensures Reachable(n) && Bounded(n) && Partner(n, 1, 1)
    ensures 1 in before.b.socks && before.b.socks[1].status.Live? && n.a.socks[1].taken == [7]
    ensures n.b.socks[1].status.Dead? && n.b.socks[1].written == []
  {
    Sending();
    before := Pair(X3, Y0, [], [Wrte(1, 1, [7]), Clse(0, 1)]);
    n := Pair(X3, Z1, [Clse(0, 1)], [Clse(0, 1)]);
    ReachStep(before, Move(false, Receive([WriteIntr], true)));
    var e := Quiet(Z1).(clse := true);
    assert OnData(Y0, 1, [7], [WriteIntr]) == e;
    assert [Wrte(1, 1, [7]), Clse(0, 1)] == [Wrte(1, 1, [7])] + [Clse(0, 1)];
    DeliverToB(X3, Y0, Wrte(1, 1, [7]), [Clse(0, 1)], [WriteIntr], e);
    assert [] + e.Out() == [Clse(0, 1)];
  }
}
