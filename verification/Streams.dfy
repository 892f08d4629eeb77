/**
 * One stream: two local sockets, one in each process, and the packets under way
 * between them. Every callback of a socket obeys `Law`; whatever obeys it keeps
 * `LinkInv`, the invariant that gives stop-and-wait flow control, byte-for-byte
 * delivery and loss-free closing.
 */
module Streams {
  import opened Basics
  import opened Sockets

  function Data(ps: seq<Packet>): seq<byte> {
    if ps == [] then [] else (if ps[0].Wrte? then ps[0].data else []) + Data(ps[1..])
  }

  function Wrtes(ps: seq<Packet>): nat {
    if ps == [] then 0 else (if ps[0].Wrte? then 1 else 0) + Wrtes(ps[1..])
  }

  function Okays(ps: seq<Packet>): nat {
    if ps == [] then 0 else (if ps[0].Okay? then 1 else 0) + Okays(ps[1..])
  }

  lemma {:induction false} TrafficConcat(ps: seq<Packet>, qs: seq<Packet>)
    ensures Data(ps + qs) == Data(ps) + Data(qs)
    ensures Wrtes(ps + qs) == Wrtes(ps) + Wrtes(qs)
    ensures Okays(ps + qs) == Okays(ps) + Okays(qs)
  {
    if ps == [] {
      assert ps + qs == qs;
    } else {
      assert (ps + qs)[1..] == ps[1..] + qs;
      TrafficConcat(ps[1..], qs);
    }
  }

  /** A packet the socket `from` may send to the socket `to`. */
  predicate Addressed(p: Packet, from: nat, to: nat) {
    && !p.Open?
    && p.arg1 == to
    && (p.Clse? || p.arg0 == from)
    && (p.Wrte? ==> 0 < |p.data| <= MAX_PAYLOAD)
  }

  predicate AllAddressed(ps: seq<Packet>, from: nat, to: nat) {
    forall p :: p in ps ==> Addressed(p, from, to)
  }

  /** CLSE is the last packet, if there at all. */
  predicate ClseLast(ps: seq<Packet>) {
    forall k :: 0 <= k < |ps| - 1 ==> !ps[k].Clse?
  }

  predicate NoClse(ps: seq<Packet>) {
    forall k :: 0 <= k < |ps| ==> !ps[k].Clse?
  }

  predicate EndsWithClse(ps: seq<Packet>) {
    ps != [] && ps[|ps| - 1].Clse?
  }

  function Flag(b: bool): nat {
    if b then 1 else 0
  }

  /** The credit held by a sender: it still watches its descriptor for input. */
  function SendCredit(s: Socket): nat {
    Flag(s.status.Live? && Read in s.fde.wants)
  }

  /** The credit held by a receiver: it has not drained what it got. */
  function Backlog(s: Socket): nat {
    Flag(s.queue != [])
  }

  /** Where the credit of the direction a -> b is: with a, in a WRTE, with b, or in an OKAY. */
  function Tokens(a: Socket, b: Socket, toA: seq<Packet>, toB: seq<Packet>): nat {
    SendCredit(a) + Wrtes(toB) + Backlog(b) + Okays(toA)
  }

  /** All that a received and has not lost: written, then queued. */
  function Received(s: Socket): seq<byte> {
    s.written + Flatten(s.queue)
  }

  /** What holds of one socket by itself. */
  predicate SocketOk(s: Socket) {
    && (s.status.Live? <==> s.cause.NotEnded?)
    && (s.status.Live? ==>
          && s.fde.pending <= s.fde.wants
          && (Write in s.fde.wants <==> s.queue != [])
          && (s.fde.wants != {} ==> s.remote.Some?))
    && (s.status.Closing? ==>
          && s.queue != []
          && s.fde.wants == {Write}
          && (s.cause.OwnFd? ==> s.fde.pending <= {Write}))
    && (s.status.Dead? ==> s.queue == [] && s.fde == IDLE)
    && (s.aborted ==> s.status.Dead?)
    && |s.queue| <= 1 && (s.queue != [] ==> s.queue[0] != [])
    && s.sent <= s.taken && (s.taken != s.sent ==> s.cause.PeerClosed?)
  }

  /** What a callback was given: a packet, or none when it is an event. */
  function InData(p: Option<Packet>): seq<byte> {
    if p.Some? && p.value.Wrte? then p.value.data else []
  }

  /** Bytes go out as they came in; only a failing descriptor loses some. */
  predicate BytesLaw(s: Socket, p: Option<Packet>, e: Effect) {
    && e.s.sent == s.sent + e.data
    && |e.data| <= MAX_PAYLOAD
    && s.written <= e.s.written
    && Received(e.s) <= (if s.status.Live? then Received(s) + InData(p) else Received(s))
    && (!e.s.Faulted() ==> Received(e.s) == Received(s) + InData(p))
  }

  /** Credits go out as they came in; only an ending socket drops one. */
  predicate CreditLaw(s: Socket, p: Option<Packet>, e: Effect) {
    var sendIn := SendCredit(s) + Flag(p.Some? && p.value.Okay?);
    var backIn := Backlog(s) + Flag(p.Some? && p.value.Wrte?);
    var sendOut := SendCredit(e.s) + Flag(e.data != []);
    var backOut := Backlog(e.s) + Flag(e.okay);
    && sendOut <= sendIn
    && backOut <= backIn
    && (e.s.status.Live? ==> sendOut == sendIn && backOut == backIn)
  }

  /** CLSE is sent exactly when the socket ends; CLSE or the descriptor ends it. */
  predicate EndingLaw(s: Socket, p: Option<Packet>, e: Effect) {
    var closeIn := p.Some? && p.value.Clse?;
    && e.s.id == s.id && e.s.opener == s.opener
    && (e.s.status.Live? ==> s.status.Live? && !e.clse && !closeIn)
    && (s.status.Live? && !e.s.status.Live? ==>
          (s.remote.Some? ==> e.clse) && (e.s.Faulted() || closeIn))
    && (!s.status.Live? ==>
          !e.okay && e.data == [] && !e.clse && (p.Some? ==> e.s.Faulted()))
    && (s.Faulted() ==> e.s.Faulted())
    && (e.s.cause.PeerClosed? ==> s.cause.PeerClosed? || closeIn)
  }

  /** The account of one callback, given the packet `p` or none. */
  predicate Law(s: Socket, p: Option<Packet>, e: Effect) {
    BytesLaw(s, p, e) && CreditLaw(s, p, e) && EndingLaw(s, p, e)
  }

  // Every callback obeys the law.

  lemma MaskWithoutRead(s: Socket)
    requires SocketOk(s) && s.status.Live? && s.queue != []
    ensures s.fde.wants - {Read} == {Write}
  {
    assert forall e: Event :: e in s.fde.wants - {Read} <==> e == Write;
  }

  /** The read half, on a socket that holds the read credit or is closing. */
  lemma ReadableLaw(s: Socket, t: Taken)
    requires SocketOk(s) && s.fde.pending == {} && |t.data| <= MAX_PAYLOAD
    requires s.status.Live? ==> Read in s.fde.wants
    requires !s.status.Live? ==> s.cause.PeerClosed?
    ensures var e := OnReadable(s, t);
            SocketOk(e.s) && Law(s, None, e) && e.s.remote == s.remote && e.to == PeerId(s)
  {
    hide BytesLaw, CreditLaw, EndingLaw;
    if s.status.Live? && s.queue != [] {
      MaskWithoutRead(s);
    }
    ReadableBytes(s, t);
    ReadableCredit(s, t);
  }

  lemma ReadableBytes(s: Socket, t: Taken)
    requires SocketOk(s) && |t.data| <= MAX_PAYLOAD
    ensures BytesLaw(s, None, OnReadable(s, t))
  {
  }

  lemma ReadableCredit(s: Socket, t: Taken)
    requires SocketOk(s) && s.fde.pending == {}
    requires s.status.Live? ==> Read in s.fde.wants
    requires !s.status.Live? ==> s.cause.PeerClosed?
    ensures var e := OnReadable(s, t); CreditLaw(s, None, e) && EndingLaw(s, None, e)
  {
    hide Flatten;
    if s.status.Live? && s.queue != [] {
      MaskWithoutRead(s);
    }
  }

  /** What Drain promises. */
  predicate DrainOk(queue: seq<seq<byte>>, d: Drained) {
    && Flatten(queue) == d.wrote + Flatten(d.rest)
    && (d.end.Finished? <==> d.rest == [])
    && |d.rest| <= |queue|
    && (d.rest != [] ==> d.rest[0] != [])
  }

  /** The write half, on a socket with a backlog. */
  lemma WritableLaw(s: Socket, d: Drained)
    requires SocketOk(s) && s.fde.pending == {} && s.queue != []
    requires DrainOk(s.queue, d)
    ensures var e := OnWritable(s, d);
            SocketOk(e.s) && Law(s, None, e) && e.s.remote == s.remote && e.to == PeerId(s)
    ensures var e := OnWritable(s, d);
            e.data == [] && (e.s.status.Live? ==> e.s.fde.pending == {} && e.s.fde.wants >= s.fde.wants - {Write})
  {
    hide BytesLaw, CreditLaw, EndingLaw, Flatten;
    if s.status.Live? {
      MaskWithoutRead(s);
    }
    WritableBytes(s, d);
    WritableCredit(s, d);
  }

  lemma WritableBytes(s: Socket, d: Drained)
    requires SocketOk(s) && s.queue != [] && DrainOk(s.queue, d)
    ensures BytesLaw(s, None, OnWritable(s, d))
  {
    assert s.written + d.wrote + Flatten(d.rest) == Received(s);
    assert Flatten<byte>([]) == [];
    hide Flatten;
  }

  lemma WritableCredit(s: Socket, d: Drained)
    requires SocketOk(s) && s.fde.pending == {} && s.queue != [] && DrainOk(s.queue, d)
    ensures var e := OnWritable(s, d); CreditLaw(s, None, e) && EndingLaw(s, None, e)
  {
    hide Flatten;
    if s.status.Live? {
      MaskWithoutRead(s);
    }
  }

  lemma BothHalvesLaw(s: Socket, w: Effect, r: Effect)
    requires Law(s, None, w) && Law(w.s, None, r)
    requires w.s.status.Live? && !w.s.Faulted() && w.s.remote == s.remote && w.data == [] && !r.okay
    ensures Law(s, None, r.(okay := w.okay))
  {
  }

  lemma CallbackLaw(s: Socket, ev: set<Event>, d: Drained, t: Taken)
    requires SocketOk(s) && s.fde.pending == {} && |t.data| <= MAX_PAYLOAD
    requires DrainOk(s.queue, d)
    requires if s.status.Live? then ev <= s.fde.wants else Read in ev ==> s.cause.PeerClosed?
    requires Write in ev ==> s.queue != []
    ensures var e := Callback(s, ev, d, t);
            SocketOk(e.s) && Law(s, None, e) && e.s.remote == s.remote && e.to == PeerId(s)
  {
    if Write !in ev {
      if Read in ev {
        ReadableLaw(s, t);
      }
    } else {
      WritableLaw(s, d);
      var w := OnWritable(s, d);
      if Read in ev && w.s.status.Live? && w.s.queue == [] {
        ReadableLaw(w.s, t);
        BothHalvesLaw(s, w, OnReadable(w.s, t));
      }
    }
  }

  lemma EventLaw(s: Socket, wcalls: seq<WriteCall>, rcalls: seq<ReadCall>)
    requires SocketOk(s)
    ensures var e := OnEvent(s, wcalls, rcalls);
            SocketOk(e.s) && Law(s, None, e) && e.s.remote == s.remote && e.to == PeerId(s)
  {
    var s0 := s.(fde := s.fde.(pending := {}));
    var d, t := Drain(s.queue, wcalls, true), Take(MAX_PAYLOAD, rcalls);
    CallbackLaw(s0, s.fde.pending, d, t);
    SameLaw(s0, s, Callback(s0, s.fde.pending, d, t));
  }

  /** The law does not look at pending events. */
  lemma SameLaw(s: Socket, s': Socket, e: Effect)
    requires Law(s, None, e) && s == s'.(fde := s'.fde.(pending := {}))
    ensures Law(s', None, e)
  {
  }

  lemma SelectLaw(s: Socket, ready: set<Event>)
    requires SocketOk(s)
    ensures SocketOk(OnSelect(s, ready).s) && Law(s, None, OnSelect(s, ready))
  {
  }

  lemma FirstLaw(s: Socket, from: nat, data: seq<byte>, d: Drained)
    requires SocketOk(s) && s.status.Live? && s.remote == Some(from) && s.queue == []
    requires DrainOk([data], d)
    ensures var e := OnFirst(s, from, d);
            && SocketOk(e.s) && Law(s, Some(Wrte(from, s.id, data)), e)
            && e.s.remote == s.remote && e.to == from
  {
    assert Flatten([data]) == data by {
      FlattenSnoc([], data);
      assert [] + [data] == [data];
    }
    assert Received(s) == s.written;
    assert s.written + d.wrote + Flatten(d.rest) == Received(s) + data;
  }

  lemma PacketLaw(s: Socket, p: Packet, wcalls: seq<WriteCall>, to: nat)
    requires SocketOk(s) && s.status.Live?
    requires Addressed(p, to, s.id)
    requires if s.remote.Some? then s.remote.value == to else p.Okay?
    requires SendCredit(s) + Flag(p.Okay?) <= 1 && Backlog(s) + Flag(p.Wrte?) <= 1
    ensures var e := OnPacket(s, p, wcalls);
            SocketOk(e.s) && Law(s, Some(p), e) && e.s.remote == Some(to) && e.to == to
  {
    if p.Clse? {
      if s.queue != [] {
        MaskWithoutRead(s);
      }
    } else if p.Wrte? {
      FirstLaw(s, to, p.data, Drain([p.data], wcalls, false));
    }
  }

  // Two sockets and what is under way between them.

  datatype Link = Link(x: Socket, y: Socket, toX: seq<Packet>, toY: seq<Packet>)
  {
    function Flip(): Link {
      Link(y, x, toY, toX)
    }
  }

  // The direction a -> b, where `toB` is under way to b and `toA` back.

  /** a sends CLSE last, when it ends; b is closed by that and by nothing before it. */
  predicate HalfShape(a: Socket, b: Socket, toB: seq<Packet>) {
    && AllAddressed(toB, a.id, b.id)
    && ClseLast(toB)
    && (a.status.Live? ==> NoClse(toB))
    && (!a.status.Live? && b.status.Live? ==> EndsWithClse(toB))
    && (!b.status.Live? && !b.Faulted() ==> !a.status.Live? && toB == [])
    && (b.cause.PeerClosed? ==> !a.status.Live?)
  }

  /** What a sent is what b has, then what is under way; a failed b has a prefix. */
  predicate HalfBytes(a: Socket, b: Socket, toB: seq<Packet>) {
    && (b.status.Live? ==> a.sent == Received(b) + Data(toB))
    && (!b.status.Live? && !b.Faulted() ==> a.sent == Received(b))
    && Received(b) <= a.sent
  }

  predicate HalfTokens(a: Socket, b: Socket, toA: seq<Packet>, toB: seq<Packet>) {
    && Tokens(a, b, toA, toB) <= 1
    && (a.status.Live? && b.status.Live? ==> Tokens(a, b, toA, toB) == 1)
  }

  predicate Half(a: Socket, b: Socket, toA: seq<Packet>, toB: seq<Packet>) {
    HalfShape(a, b, toB) && HalfBytes(a, b, toB) && HalfTokens(a, b, toA, toB)
  }

  /** An opener that has not heard from its acceptor: the first packet to it is the OKAY. */
  predicate Waiting(l: Link) {
    && l.x == NewSocket(l.x.id, true, None)
    && l.toX != [] && l.toX[0].Okay?
    && l.toY == []
  }

  predicate LinkInv(l: Link) {
    && SocketOk(l.x) && SocketOk(l.y)
    && (l.x.remote == Some(l.y.id) || (l.x.remote == None && Waiting(l)))
    && (l.y.remote == Some(l.x.id) || (l.y.remote == None && Waiting(l.Flip())))
    && Half(l.x, l.y, l.toX, l.toY)
    && Half(l.y, l.x, l.toY, l.toX)
  }

  lemma OutTraffic(e: Effect)
    ensures Data(e.Out()) == e.data
    ensures Wrtes(e.Out()) == Flag(e.data != [])
    ensures Okays(e.Out()) == Flag(e.okay)
  {
    var okay := if e.okay then [Okay(e.s.id, e.to)] else [];
    var wrte := if e.data != [] then [Wrte(e.s.id, e.to, e.data)] else [];
    var clse := if e.clse then [Clse(0, e.to)] else [];
    assert okay != [] ==> okay[1..] == [];
    assert wrte != [] ==> wrte[1..] == [];
    assert clse != [] ==> clse[1..] == [];
    TrafficConcat(okay, wrte);
    TrafficConcat(okay + wrte, clse);
  }

  lemma OutShape(e: Effect)
    requires |e.data| <= MAX_PAYLOAD
    ensures AllAddressed(e.Out(), e.s.id, e.to)
    ensures ClseLast(e.Out())
    ensures e.clse ==> EndsWithClse(e.Out())
    ensures !e.clse ==> NoClse(e.Out())
  {
  }

  /** The packets under way to a socket, after it took the first one or none. */
  function Remaining(ps: seq<Packet>, p: Option<Packet>): seq<Packet>
    requires p.Some? ==> ps != []
  {
    if p.Some? then ps[1..] else ps
  }

  predicate Takes(ps: seq<Packet>, p: Option<Packet>) {
    p.Some? ==> ps != [] && ps[0] == p.value
  }

  lemma SenderBytes(a: Socket, b: Socket, toB: seq<Packet>, p: Option<Packet>, e: Effect)
    requires HalfShape(a, b, toB) && HalfBytes(a, b, toB) && BytesLaw(a, p, e) && EndingLaw(a, p, e)
    ensures HalfBytes(e.s, b, toB + e.Out())
  {
    OutTraffic(e);
    TrafficConcat(toB, e.Out());
    assert b.status.Live? ==> a.sent + e.data == Received(b) + (Data(toB) + e.data);
  }

  lemma SenderShape(a: Socket, b: Socket, toB: seq<Packet>, p: Option<Packet>, e: Effect)
    requires HalfShape(a, b, toB) && Law(a, p, e)
    requires a.status.Live? && !e.s.status.Live? ==> a.remote.Some?
    requires e.Out() != [] ==> e.to == b.id
    ensures HalfShape(e.s, b, toB + e.Out())
  {
    OutShape(e);
    assert !a.status.Live? ==> toB + e.Out() == toB;
  }

  lemma SenderTokens(a: Socket, b: Socket, toA: seq<Packet>, toB: seq<Packet>, p: Option<Packet>, e: Effect)
    requires HalfTokens(a, b, toA, toB) && Takes(toA, p)
    requires CreditLaw(a, p, e) && EndingLaw(a, p, e)
    ensures HalfTokens(e.s, b, Remaining(toA, p), toB + e.Out())
  {
    OutTraffic(e);
    TrafficConcat(toB, e.Out());
  }

  lemma ReceiverBytes(a: Socket, b: Socket, toB: seq<Packet>, p: Option<Packet>, e: Effect)
    requires HalfShape(a, b, toB) && HalfBytes(a, b, toB) && Takes(toB, p)
    requires BytesLaw(b, p, e) && EndingLaw(b, p, e) && SocketOk(e.s)
    ensures HalfBytes(a, e.s, Remaining(toB, p))
  {
    if b.status.Live? {
      Shift(a.sent, Received(b), InData(p), Data(Remaining(toB, p)), Received(e.s));
    }
  }

  lemma Shift(sent: seq<byte>, had: seq<byte>, next: seq<byte>, rest: seq<byte>, has: seq<byte>)
    requires sent == had + (next + rest) && has <= had + next
    ensures has <= sent
    ensures has == had + next ==> sent == has + rest
  {
  }

  lemma ReceiverShape(a: Socket, b: Socket, toB: seq<Packet>, p: Option<Packet>, e: Effect)
    requires HalfShape(a, b, toB) && Takes(toB, p)
    requires EndingLaw(b, p, e)
    ensures HalfShape(a, e.s, Remaining(toB, p))
  {
  }

  lemma ReceiverTokens(a: Socket, b: Socket, toA: seq<Packet>, toB: seq<Packet>, p: Option<Packet>, e: Effect)
    requires HalfTokens(a, b, toA, toB) && Takes(toB, p)
    requires CreditLaw(b, p, e) && EndingLaw(b, p, e)
    ensures HalfTokens(a, e.s, toA + e.Out(), Remaining(toB, p))
  {
    OutTraffic(e);
    TrafficConcat(toA, e.Out());
  }

  /** Whatever obeys the law keeps the invariant of the stream. */
  lemma StepKeepsLink(l: Link, p: Option<Packet>, e: Effect)
    requires LinkInv(l) && Takes(l.toX, p)
    requires Law(l.x, p, e) && SocketOk(e.s)
    requires e.s.remote == if p.Some? && p.value.Okay? && l.x.remote == None then Some(l.y.id) else l.x.remote
    requires e.s.remote == None ==> e.s == l.x && e.Out() == []
    requires l.x.remote == None ==> e.s.status.Live?
    requires e.Out() != [] ==> e.to == l.y.id
    ensures LinkInv(Link(e.s, l.y, Remaining(l.toX, p), l.toY + e.Out()))
  {
    SenderBytes(l.x, l.y, l.toY, p, e);
    SenderShape(l.x, l.y, l.toY, p, e);
    SenderTokens(l.x, l.y, l.toX, l.toY, p, e);
    ReceiverBytes(l.y, l.x, l.toX, p, e);
    ReceiverShape(l.y, l.x, l.toX, p, e);
    ReceiverTokens(l.y, l.x, l.toY, l.toX, p, e);
  }

  // The four things that can happen to a stream, seen from the side of x.

  function EventLink(l: Link, wcalls: seq<WriteCall>, rcalls: seq<ReadCall>): Link {
    var e := OnEvent(l.x, wcalls, rcalls);
    l.(x := e.s, toY := l.toY + e.Out())
  }

  function SelectLink(l: Link, ready: set<Event>): Link {
    l.(x := OnSelect(l.x, ready).s)
  }

  /** handle_packet on a packet for x; find_local_socket misses a socket that is not live. */
  function Deliver(s: Socket, p: Packet, wcalls: seq<WriteCall>): Effect
    requires !p.Open?
  {
    if s.status.Live? then OnPacket(s, p, wcalls) else Quiet(s)
  }

  function DeliverLink(l: Link, wcalls: seq<WriteCall>): Link
    requires l.toX != [] && !l.toX[0].Open?
  {
    var e := Deliver(l.x, l.toX[0], wcalls);
    Link(e.s, l.y, l.toX[1..], l.toY + e.Out())
  }

  /** What OPEN creates: the acceptor reads at once, and its OKAY is under way. */
  function Acceptor(id: nat, remote: nat): Socket {
    NewSocket(id, false, Some(remote)).(fde := Fde({Read}, {}))
  }

  lemma EventKeepsLink(l: Link, wcalls: seq<WriteCall>, rcalls: seq<ReadCall>)
    requires LinkInv(l)
    ensures LinkInv(EventLink(l, wcalls, rcalls))
  {
    EventLaw(l.x, wcalls, rcalls);
    StepKeepsLink(l, None, OnEvent(l.x, wcalls, rcalls));
  }

  lemma SelectKeepsLink(l: Link, ready: set<Event>)
    requires LinkInv(l)
    ensures LinkInv(SelectLink(l, ready))
  {
    var e := OnSelect(l.x, ready);
    SelectLaw(l.x, ready);
    assert l.x.fde.wants == {} ==> l.x.fde.pending + ready * l.x.fde.wants == l.x.fde.pending;
    StepKeepsLink(l, None, e);
    assert l.toY + e.Out() == l.toY;
  }

  lemma DeliverKeepsLink(l: Link, wcalls: seq<WriteCall>)
    requires LinkInv(l) && l.toX != []
    ensures Addressed(l.toX[0], l.y.id, l.x.id)
    ensures LinkInv(DeliverLink(l, wcalls))
  {
    var p := l.toX[0];
    assert p in l.toX;
    if l.x.status.Live? {
      PacketLaw(l.x, p, wcalls, l.y.id);
    }
    StepKeepsLink(l, Some(p), Deliver(l.x, p, wcalls));
  }

  lemma AcceptedLink(i: nat, j: nat)
    ensures LinkInv(Link(NewSocket(i, true, None), Acceptor(j, i), [Okay(j, i)], []))
  {
    var toX := [Okay(j, i)];
    assert toX[1..] == [];
    assert Okays(toX) == 1 + Okays(toX[1..]) && Wrtes(toX) == Wrtes(toX[1..]) && Data(toX) == Data(toX[1..]);
  }

  // Closing with a backlog.

  lemma BacklogIsNotEmpty(s: Socket)
    requires SocketOk(s) && s.queue != []
    ensures Flatten(s.queue) != []
  {
  }

  /**
   * A closing socket is destroyed with bytes unwritten exactly when its descriptor
   * breaks under a write, or when a READ event left over from before the close, alone,
   * finds the descriptor at its end.
   */
  lemma ClosingLosesIff(s: Socket, wcalls: seq<WriteCall>, rcalls: seq<ReadCall>)
    requires SocketOk(s) && s.status.Closing?
    ensures var e := OnEvent(s, wcalls, rcalls);
            e.s.status.Dead? && e.s.written != Received(s) <==>
            if Write in s.fde.pending then Drain(s.queue, wcalls, true).end.Broken?
            else Read in s.fde.pending && Take(MAX_PAYLOAD, rcalls).eof
  {
    BacklogIsNotEmpty(s);
    var d := Drain(s.queue, wcalls, true);
    assert d.rest != [] ==> Flatten(d.rest) != [];
    assert Received(s) == s.written + d.wrote + Flatten(d.rest);
    if d.end.Finished? {
      assert s.written + d.wrote == Received(s);
    }
  }
}
