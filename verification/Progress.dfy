/**
 * Progress over the transport: a descriptor that select reports ready moves the bytes it can, and
 * from any quiet state of a live stream any text goes through, chunk by chunk. The invariants say
 * that nothing wrong happens; these say that the right thing does.
 */
module Progress {
  import opened Basics
  import opened Sockets
  import opened Streams
  import opened Multiplex
  import opened LosingRun
  import opened Faults

  lemma SocketKnown(n: Net, k: nat)
    requires Reachable(n) && Bounded(n) && k in n.a.socks
    ensures SocketOk(n.a.socks[k]) && n.a.socks[k].id == k
  {
    ReachableInv(n);
    EverySocketOk(n, k);
  }

  /** One socket is reported ready for something and the event loop calls it back. */
  function Polled(n: Net, k: nat, ready: Event, wcalls: seq<WriteCall>, rcalls: seq<ReadCall>): Net {
    StepA(StepA(n, Select(k, {ready})), Fire(k, wcalls, rcalls))
  }

  function Reported(s: Socket, ready: Event): Socket {
    s.(fde := Fde(s.fde.wants, {ready}))
  }

  lemma PolledIs(n: Net, k: nat, ready: Event, wcalls: seq<WriteCall>, rcalls: seq<ReadCall>)
    requires k in n.a.socks && ready in n.a.socks[k].fde.wants
    requires forall e :: e in n.a.socks[k].fde.pending ==> e == ready
    ensures var s := n.a.socks[k];
            Polled(n, k, ready, wcalls, rcalls) == Update(n, k, OnEvent(Reported(s, ready), wcalls, rcalls), n.toA)
  {
    hide Callback, Drain, Take;
    var s := n.a.socks[k];
    var s1 := Reported(s, ready);
    assert s.fde.pending + {ready} * s.fde.wants == {ready};
    assert OnSelect(s, {ready}).s == s1;
    var n1 := StepA(n, Select(k, {ready}));
    assert n1.a.socks[k] == s1 && n1.toB == n.toB + [] == n.toB;
    var e := OnEvent(s1, wcalls, rcalls);
    assert n1.a.socks[k := e.s] == n.a.socks[k := e.s];
  }

  lemma DrainOne(data: seq<byte>, m: nat)
    requires data != [] && m > 0
    ensures var c := Min(m, |data|);
            Drain([data], [Wrote(m)], true) ==
            if c < |data| then Drained(data[..c], [data[c..]], Blocked) else Drained(data, [], Finished)
  {
  }

  lemma FlattenOne(data: seq<byte>)
    ensures Flatten([data]) == data
  {
    assert [data][1..] == [];
  }

  /** Only socket k of process a changed, and a sent these packets. */
  predicate OnlyAt(n: Net, n': Net, k: nat, sent: seq<Packet>) {
    && n'.b == n.b && n'.toA == n.toA && n'.toB == n.toB + sent
    && n'.a.installed == n.a.installed && n'.a.socks.Keys == n.a.socks.Keys
    && forall j :: j in n.a.socks && j != k ==> n'.a.socks[j] == n.a.socks[j]
  }

  lemma UpdateOnly(n: Net, k: nat, e: Effect)
    requires k in n.a.socks
    ensures OnlyAt(n, Update(n, k, e, n.toA), k, e.Out()) && Update(n, k, e, n.toA).a.socks[k] == e.s
  {
  }

  lemma WriteOnly(s: Socket, wcalls: seq<WriteCall>)
    ensures OnEvent(Reported(s, Write), wcalls, []) ==
            OnWritable(s.(fde := Fde(s.fde.wants, {})), Drain(s.queue, wcalls, true))
  {
    hide OnWritable, OnReadable, Drain, Take;
  }

  /** What the callback does to a socket with the backlog `data`. */
  lemma WriteEffect(s: Socket, data: seq<byte>, m: nat)
    requires s.queue == [data] && data != [] && m > 0 && !s.status.Dead? && Write in s.fde.wants
    ensures var e := OnEvent(Reported(s, Write), [Wrote(m)], []);
            && e.s.taken == s.taken && e.s.written == s.written + data[..Min(m, |data|)]
            && (m < |data| ==>
                  e.s.queue == [data[m..]] && e.s.status == s.status && Write in e.s.fde.wants && e.Out() == [])
            && (m >= |data| ==> e.s.queue == [])
            && (m >= |data| && s.status.Closing? ==> e.s.status.Dead? && e.Out() == [])
            && (m >= |data| && s.status.Live? && s.remote.Some? ==>
                  && e.s.status.Live? && e.s.fde.wants == s.fde.wants - {Write}
                  && e.Out() == [Okay(s.id, s.remote.value)])
  {
    DrainOne(data, m);
    WriteOnly(s, [Wrote(m)]);
    hide Drain, OnEvent;
  }

  lemma TakeOneRead(bytes: seq<byte>)
    ensures Take(4096, [Got(bytes)]) == if |bytes| <= 4096 then Taken(bytes, bytes == []) else Taken(bytes[..4096], false)
  {
    assert [Got(bytes)][1..] == [];
  }

  lemma ReadEffect(s: Socket, bytes: seq<byte>)
    requires s.HasPeer() && bytes != [] && Read in s.fde.wants
    ensures var e := OnEvent(Reported(s, Read), [], [Got(bytes)]);
            var data := if |bytes| <= 4096 then bytes else bytes[..4096];
            && e.Out() == [Wrte(s.id, s.remote.value, data)]
            && e.s == s.(taken := s.taken + data, sent := s.sent + data, fde := Fde(s.fde.wants - {Read}, {}))
  {
    TakeOneRead(bytes);
    hide Drain, Take;
  }

  lemma EofEffect(s: Socket)
    requires s.HasPeer()
    ensures var e := OnEvent(Reported(s, Read), [], [Got([])]);
            && e.Out() == [Clse(0, s.remote.value)]
            && e.s.taken == s.taken && e.s.written == s.written && e.s.queue == s.queue && e.s.cause.OwnFd?
            && e.s.status == (if s.queue == [] then Dead else Closing)
  {
    TakeOneRead([]);
    hide Drain, Take;
  }

  /**
   * A socket with a backlog whose descriptor is writable and takes m bytes writes exactly the next m
   * of the backlog, or all of it. When all is written, a live socket sends OKAY and a closing one is
   * destroyed.
   */
  lemma WriteProgress(n: Net, k: nat, m: nat)
    requires Reachable(n) && Bounded(n) && k in n.a.socks && m > 0
    requires n.a.socks[k].queue != [] && Read !in n.a.socks[k].fde.pending
    ensures var s, n' := n.a.socks[k], StepA(StepA(n, Select(k, {Write})), Fire(k, [Wrote(m)], []));
            var todo := Flatten(s.queue);
            && k in n'.a.socks
            && var s' := n'.a.socks[k];
            && s'.taken == s.taken
            && (m < |todo| ==>
                  && s'.written == s.written + todo[..m] && Flatten(s'.queue) == todo[m..]
                  && s'.status == s.status && Write in s'.fde.wants && OnlyAt(n, n', k, []))
            && (m >= |todo| ==> s'.written == s.written + todo && s'.queue == [])
            && (m >= |todo| && s.status.Closing? ==> s'.status.Dead? && OnlyAt(n, n', k, []))
            && (m >= |todo| && s.status.Live? ==>
                  && s'.status.Live? && s.remote.Some? && s'.fde.wants == s.fde.wants - {Write}
                  && OnlyAt(n, n', k, [Okay(k, s.remote.value)]))
  {
    SocketKnown(n, k);
    hide StepA, Update, OnEvent, Reachable;
    var s := n.a.socks[k];
    var data := s.queue[0];
    assert s.queue == [data] && s.queue[1..] == [];
    FlattenOne(data);
    FlattenOne(data[Min(m, |data|)..]);
    WriteEffect(s, data, m);
    PolledIs(n, k, Write, [Wrote(m)], []);
    UpdateOnly(n, k, OnEvent(Reported(s, Write), [Wrote(m)], []));
  }

  /**
   * A live socket that waits for input and whose descriptor is readable takes what it gives, at most
   * 4096 bytes, sends them in one WRTE to its peer, and waits for the OKAY.
   */
  lemma ReadProgress(n: Net, k: nat, bytes: seq<byte>)
    requires Reachable(n) && Bounded(n) && k in n.a.socks && bytes != []
    requires n.a.socks[k].status.Live? && Read in n.a.socks[k].fde.wants && Write !in n.a.socks[k].fde.pending
    ensures var s, n' := n.a.socks[k], StepA(StepA(n, Select(k, {Read})), Fire(k, [], [Got(bytes)]));
            var data := if |bytes| <= 4096 then bytes else bytes[..4096];
            && s.remote.Some? && OnlyAt(n, n', k, [Wrte(k, s.remote.value, data)])
            && n'.a.socks[k] == s.(taken := s.taken + data, sent := s.sent + data, fde := Fde(s.fde.wants - {Read}, {}))
  {
    SocketKnown(n, k);
    hide StepA, Update, OnEvent, Reachable;
    var s := n.a.socks[k];
    ReadEffect(s, bytes);
    PolledIs(n, k, Read, [], [Got(bytes)]);
    UpdateOnly(n, k, OnEvent(Reported(s, Read), [], [Got(bytes)]));
  }

  /** At end of file it tells its peer, and is destroyed unless it has a backlog to write. */
  lemma EofProgress(n: Net, k: nat)
    requires Reachable(n) && Bounded(n) && k in n.a.socks
    requires n.a.socks[k].status.Live? && Read in n.a.socks[k].fde.wants && Write !in n.a.socks[k].fde.pending
    ensures var s, n' := n.a.socks[k], StepA(StepA(n, Select(k, {Read})), Fire(k, [], [Got([])]));
            && s.remote.Some? && OnlyAt(n, n', k, [Clse(0, s.remote.value)])
            && var s' := n'.a.socks[k];
            && s'.taken == s.taken && s'.written == s.written && s'.queue == s.queue && s'.cause.OwnFd?
            && s'.status == (if s.queue == [] then Dead else Closing)
  {
    SocketKnown(n, k);
    hide StepA, Update, OnEvent, Reachable;
    var s := n.a.socks[k];
    EofEffect(s);
    PolledIs(n, k, Read, [], [Got([])]);
    UpdateOnly(n, k, OnEvent(Reported(s, Read), [], [Got([])]));
  }

  /** A packet under way is always consumed, whatever has become of the socket it is for; an ended one says nothing. */
  lemma ReceiveConsumes(n: Net, wcalls: seq<WriteCall>, accepted: bool)
    requires n.toA != []
    ensures var n' := StepA(n, Receive(wcalls, accepted));
            && n'.toA == n.toA[1..] && n'.b == n.b && n.toB <= n'.toB
            && (!n.toA[0].Open? && (n.toA[0].arg1 in n.a.socks ==> !n.a.socks[n.toA[0].arg1].status.Live?) ==>
                  n'.a == n.a && n'.toB == n.toB)
  {
    hide OnPacket;
  }

  // A stream carries any text.

  /** Both ends live, nothing is under way, and k waits for its descriptor. */
  ghost predicate Idle(n: Net, k: nat, d: nat) {
    && Reachable(n) && Bounded(n) && Partner(n, k, d)
    && n.a.socks[k].status.Live? && n.b.socks[d].status.Live? && n.toA == [] && n.toB == []
    && Read in n.a.socks[k].fde.wants && Write !in n.a.socks[k].fde.pending
  }

  /** k reads a chunk and sends it, the other process writes it and answers, and k has its credit back. */
  function Carried(n: Net, k: nat, data: seq<byte>): Net {
    var n1 := Step(n, Move(true, Select(k, {Read})));
    var n2 := Step(n1, Move(true, Fire(k, [], [Got(data)])));
    var n3 := Step(n2, Move(false, Receive([Wrote(|data|)], false)));
    Step(n3, Move(true, Receive([], false)))
  }

  lemma CarriedReachable(n: Net, k: nat, data: seq<byte>)
    requires Reachable(n)
    ensures Reachable(Carried(n, k, data))
  {
    hide Step, Reachable;
    var n1 := Step(n, Move(true, Select(k, {Read})));
    var n2 := Step(n1, Move(true, Fire(k, [], [Got(data)])));
    var n3 := Step(n2, Move(false, Receive([Wrote(|data|)], false)));
    ReachStep(n, Move(true, Select(k, {Read})));
    ReachStep(n1, Move(true, Fire(k, [], [Got(data)])));
    ReachStep(n2, Move(false, Receive([Wrote(|data|)], false)));
    ReachStep(n3, Move(true, Receive([], false)));
  }

  /** What the invariant says of an idle stream: k knows its peer, which has nothing to write. */
  lemma IdleEnds(n: Net, k: nat, d: nat)
    requires Idle(n, k, d)
    ensures n.a.socks[k].remote == Some(d) && n.a.socks[k].id == k && n.b.socks[d].id == d && n.b.socks[d].queue == []
  {
    ReachableInv(n);
    assert LinkInv(View(n, k, d));
  }

  lemma WrteArrives(n: Net, k: nat, d: nat, data: seq<byte>)
    requires d in n.a.socks && n.a.socks[d].status.Live? && n.a.socks[d].id == d && n.a.socks[d].queue == []
    requires data != [] && n.toA == [Wrte(k, d, data)]
    ensures var s, n' := n.a.socks[d], StepA(n, Receive([Wrote(|data|)], false));
            n' == Net(n.a.(socks := n.a.socks[d := s.(written := s.written + data)]), n.b, [], n.toB + [Okay(d, k)])
  {
    assert [Wrote(|data|)][1..] == [] && [data][1..] == [];
    assert Drain([data], [Wrote(|data|)], false) == Drained(data, [], Finished);
    hide Drain;
  }

  lemma OkayArrives(n: Net, k: nat, d: nat)
    requires k in n.a.socks && n.a.socks[k].status.Live? && n.a.socks[k].remote.Some? && n.toA == [Okay(d, k)]
    requires Read !in n.a.socks[k].fde.wants && n.a.socks[k].fde.pending == {}
    ensures var s, n' := n.a.socks[k], StepA(n, Receive([], false));
            n' == Net(n.a.(socks := n.a.socks[k := s.(fde := Fde(s.fde.wants + {Read}, {}))]), n.b, [], n.toB)
  {
    var s := n.a.socks[k];
    assert {} - (s.fde.wants + {Read}) == {};
    assert n.toB + [] == n.toB;
  }

  /** The chunk goes through, and the stream is idle again. */
  lemma ChunkGoesThrough(n: Net, k: nat, d: nat, data: seq<byte>)
    requires Idle(n, k, d) && 0 < |data| <= 4096
    ensures var n', x, y := Carried(n, k, data), n.a.socks[k], n.b.socks[d];
            && Idle(n', k, d)
            && n'.a.socks[k].taken == x.taken + data && n'.b.socks[d].written == y.written + data
            && n'.a.socks[k].written == x.written && n'.b.socks[d].taken == y.taken
  {
    IdleEnds(n, k, d);
    CarriedReachable(n, k, data);
    ReadProgress(n, k, data);
    var n2 := StepA(StepA(n, Select(k, {Read})), Fire(k, [], [Got(data)]));
    assert n2.toB == [Wrte(k, d, data)];
    hide StepA, Reachable;
    WrteArrives(n2.Flip(), k, d, data);
    var n3 := StepA(n2.Flip(), Receive([Wrote(|data|)], false)).Flip();
    assert n3.toA == [] + [Okay(d, k)] == [Okay(d, k)];
    OkayArrives(n3, k, d);
  }

  /** a connects, b accepts, a hears of it. */
  function Opened(n: Net): Net {
    Step(Step(Step(n, Move(true, Connect)), Move(false, Receive([], true))), Move(true, Receive([], false)))
  }

  lemma OpenSteps(n: Net)
    requires n.toA == [] && n.toB == [] && n.a.installed < 0xFFFF_FFFF && n.b.installed < 0xFFFF_FFFF
    ensures var k, d := n.a.installed + 1, n.b.installed + 1;
            var x, y := NewSocket(k, true, Some(d)).(fde := Fde({Read}, {})), Acceptor(d, k);
            Opened(n) == Net(Host(k, n.a.socks[k := x]), Host(d, n.b.socks[d := y]), [], [])
  {
    var k, d := n.a.installed + 1, n.b.installed + 1;
    var n1 := Step(n, Move(true, Connect));
    assert n1 == Net(Install(n.a, NewSocket(k, true, None)), n.b, [], [Open(k)]);
    var n2 := Step(n1, Move(false, Receive([], true)));
    assert n2 == Net(n1.a, Install(n.b, Acceptor(d, k)), [Okay(d, k)], []);
    assert {} - ({} + {Read}) == {} && {} + {Read} == {Read};
    assert Opened(n).a.socks == n.a.socks[k := NewSocket(k, true, Some(d)).(fde := Fde({Read}, {}))];
  }

  lemma OpenedReachable(n: Net)
    requires Reachable(n)
    ensures Reachable(Opened(n))
  {
    hide Step, Reachable;
    var n1 := Step(n, Move(true, Connect));
    ReachStep(n, Move(true, Connect));
    ReachStep(n1, Move(false, Receive([], true)));
    ReachStep(Step(n1, Move(false, Receive([], true))), Move(true, Receive([], false)));
  }

  /** From a state with nothing under way a new stream is opened, on the next id of each process, and is idle. */
  lemma OpenGoesThrough(n: Net)
    requires Reachable(n) && n.toA == [] && n.toB == []
    requires n.a.installed < 0xFFFF_FFFF && n.b.installed < 0xFFFF_FFFF
    ensures var n', k, d := Opened(n), n.a.installed + 1, n.b.installed + 1;
            && k !in n.a.socks && d !in n.b.socks && Idle(n', k, d)
            && n'.a.socks[k].taken == [] && n'.b.socks[d].written == []
            && n'.b.socks[d].taken == [] && n'.a.socks[k].written == []
  {
    ReachableInv(n);
    OpenSteps(n);
    OpenedReachable(n);
    hide Reachable, Opened;
  }

  function CarriedAll(n: Net, k: nat, chunks: seq<seq<byte>>): Net
    decreases |chunks|
  {
    if chunks == [] then n else CarriedAll(Carried(n, k, chunks[0]), k, chunks[1..])
  }

  /** Any text goes through, whatever chunks of at most 4096 bytes it is read in. */
  lemma {:induction false} TextGoesThrough(n: Net, k: nat, d: nat, chunks: seq<seq<byte>>)
    requires Idle(n, k, d) && forall i :: 0 <= i < |chunks| ==> 0 < |chunks[i]| <= 4096
    ensures var n', x, y := CarriedAll(n, k, chunks), n.a.socks[k], n.b.socks[d];
            && Idle(n', k, d)
            && n'.a.socks[k].taken == x.taken + Flatten(chunks) && n'.b.socks[d].written == y.written + Flatten(chunks)
            && n'.a.socks[k].written == x.written && n'.b.socks[d].taken == y.taken
    decreases |chunks|
  {
    if chunks != [] {
      ChunkGoesThrough(n, k, d, chunks[0]);
      hide Carried, Idle;
      TextGoesThrough(Carried(n, k, chunks[0]), k, d, chunks[1..]);
      Assoc(n.a.socks[k].taken, chunks[0], Flatten(chunks[1..]));
      Assoc(n.b.socks[d].written, chunks[0], Flatten(chunks[1..]));
    }
  }
}
