/**
 * The local sockets of core/adb/sockets.c and the packet dispatch of core/adb/adb.c.
 *
 * The functions give the effect of each callback on one socket; `LocalSockets` runs
 * the same callbacks in place, loop by loop, and `Endpoints` on the lists of one process.
 * What the kernel answers to each read and write is an argument, so a statement
 * for all arguments is a statement for every short read, short write and error.
 */
module Sockets {
  import opened Basics

  datatype Packet =
    | Open(arg0: nat)
    | Okay(arg0: nat, arg1: nat)
    | Wrte(arg0: nat, arg1: nat, data: seq<byte>)
    | Clse(arg0: nat, arg1: nat)

  datatype Event = Read | Write

  /** The part of an fdevent a socket uses: the mask and the events not yet delivered. */
  datatype Fde = Fde(wants: set<Event>, pending: set<Event>)

  const IDLE := Fde({}, {})

  /** fdevent_set: a changed mask clears from the pending events those in the NEW mask. */
  function FdeSet(f: Fde, events: set<Event>): Fde {
    if f.wants == events then f else Fde(events, f.pending - events)
  }

  datatype Status = Live | Closing | Dead

  /** Why a socket stopped being live: its own descriptor ended, or CLSE arrived. */
  datatype Cause = NotEnded | OwnFd | PeerClosed

  /**
   * A local socket. `remote` is the id its peer answers to. The last five fields
   * are history: all bytes read from the descriptor, those handed to the peer,
   * all bytes written to the descriptor, why the socket ended, and whether its
   * descriptor ended it while it was still draining.
   */
  datatype Socket = Socket(
    id: nat,
    opener: bool,
    remote: Option<nat>,
    status: Status,
    fde: Fde,
    queue: seq<seq<byte>>,
    taken: seq<byte>,
    sent: seq<byte>,
    written: seq<byte>,
    cause: Cause,
    aborted: bool)
  {
    /** The peer pointer; a socket that is closing has none. */
    predicate HasPeer() {
      status.Live? && remote.Some?
    }

    /** The descriptor of this socket ended it, now or while it was draining. */
    predicate Faulted() {
      cause.OwnFd? || aborted
    }
  }

  function NewSocket(id: nat, opener: bool, remote: Option<nat>): Socket {
    Socket(id, opener, remote, Live, IDLE, [], [], [], [], NotEnded, false)
  }

  // What the kernel answers.

  /** One adb_write: a count (cut to the request), or one of the three errors the code tells apart. */
  datatype WriteCall = Wrote(n: nat) | WriteAgain | WriteIntr | WriteFail

  /** One adb_read: bytes (none means end of file), or an error. */
  datatype ReadCall = Got(bytes: seq<byte>) | ReadAgain | ReadIntr | ReadFail

  datatype WriteEnd = Finished | Blocked | Broken

  datatype Drained = Drained(wrote: seq<byte>, rest: seq<seq<byte>>, end: WriteEnd)

  /**
   * Write out queued packets until all are gone, the descriptor blocks, or it breaks.
   * The event handler retries an interrupted write; enqueue does not.
   */
  function Drain(queue: seq<seq<byte>>, calls: seq<WriteCall>, retry: bool): (d: Drained)
    ensures Flatten(queue) == d.wrote + Flatten(d.rest)
    ensures d.end.Finished? <==> d.rest == []
    ensures |d.rest| <= |queue|
    ensures d.rest != [] ==> d.rest[0] != []
    decreases |calls|, |queue|
  {
    if queue == [] then Drained([], [], Finished)
    else if queue[0] == [] then Drain(queue[1..], calls, retry)
    else if calls == [] then Drained([], queue, Blocked)
    else
      match calls[0]
      case Wrote(n) =>
        var k := Min(n, |queue[0]|);
        if k == 0 then Drained([], queue, Broken)
        else
          var next := [queue[0][k..]] + queue[1..];
          assert Flatten(queue) == queue[0][..k] + Flatten(next) by {
            assert next[1..] == queue[1..];
          }
          var d := Drain(next, calls[1..], retry);
          d.(wrote := queue[0][..k] + d.wrote)
      case WriteAgain => Drained([], queue, Blocked)
      case WriteIntr =>
        if retry then Drain(queue, calls[1..], retry) else Drained([], queue, Broken)
      case WriteFail => Drained([], queue, Broken)
  }

  datatype Taken = Taken(data: seq<byte>, eof: bool)

  /** Read until `room` bytes are in, the descriptor blocks, or it ends. */
  function Take(room: nat, calls: seq<ReadCall>): (t: Taken)
    ensures |t.data| <= room
    decreases |calls|
  {
    if room == 0 || calls == [] then Taken([], false)
    else
      match calls[0]
      case Got(bytes) =>
        if bytes == [] then Taken([], true)
        else
          var k := Min(|bytes|, room);
          var t := Take(room - k, calls[1..]);
          t.(data := bytes[..k] + t.data)
      case ReadAgain => Taken([], false)
      case ReadIntr => Take(room, calls[1..])
      case ReadFail => Taken([], true)
  }

  /** All that a sequence of reads delivers, and whether end of file or an error ends it. */
  datatype Heard = Heard(bytes: seq<byte>, ended: bool)

  function Listen(calls: seq<ReadCall>): Heard {
    if calls == [] then Heard([], false)
    else
      match calls[0]
      case Got(bytes) =>
        if bytes == [] then Heard([], true)
        else var h := Listen(calls[1..]); h.(bytes := bytes + h.bytes)
      case ReadAgain => Heard([], false)
      case ReadIntr => Listen(calls[1..])
      case ReadFail => Heard([], true)
  }

  /** The packet holds the first bytes delivered, in order; the end is seen exactly if it comes before the packet is full. */
  lemma {:induction false} TakeHears(room: nat, calls: seq<ReadCall>)
    ensures var t, h := Take(room, calls), Listen(calls);
            t.data == h.bytes[..Min(room, |h.bytes|)] && (t.eof <==> h.ended && |h.bytes| < room)
    decreases |calls|
  {
    if calls != [] && room > 0 {
      if calls[0].ReadIntr? {
        TakeHears(room, calls[1..]);
      } else if calls[0].Got? && calls[0].bytes != [] {
        TakeHears(room - Min(|calls[0].bytes|, room), calls[1..]);
      }
    }
  }

  /** Writing some bytes meets an error: a zero count, a failure, or an interrupt that is not retried. */
  predicate Breaks(len: nat, calls: seq<WriteCall>, retry: bool) {
    len > 0 && calls != [] &&
    match calls[0]
    case Wrote(n) => n == 0 || Breaks(len - Min(n, len), calls[1..], retry)
    case WriteAgain => false
    case WriteIntr => !retry || Breaks(len, calls[1..], retry)
    case WriteFail => true
  }

  lemma {:induction false} DrainBreaksIff(data: seq<byte>, calls: seq<WriteCall>, retry: bool)
    ensures Drain([data], calls, retry).end.Broken? <==> Breaks(|data|, calls, retry)
    decreases |calls|
  {
    assert [data][1..] == [];
    if data != [] && calls != [] {
      match calls[0] {
        case Wrote(n) =>
          DrainBreaksIff(data[Min(n, |data|)..], calls[1..], retry);
          assert [data[Min(n, |data|)..]] + [] == [data[Min(n, |data|)..]];
        case WriteIntr =>
          DrainBreaksIff(data, calls[1..], retry);
        case _ =>
      }
    }
  }

  // The callbacks of one socket.

  /**
   * The outcome of a callback: the new socket and what it sends to the socket `to`,
   * in this order: an OKAY, a WRTE when `data` is not empty, a CLSE.
   */
  datatype Effect = Effect(s: Socket, to: nat, okay: bool, data: seq<byte>, clse: bool)
  {
    function Out(): seq<Packet> {
      (if okay then [Okay(s.id, to)] else []) +
      (if data != [] then [Wrte(s.id, to, data)] else []) +
      (if clse then [Clse(0, to)] else [])
    }
  }

  function PeerId(s: Socket): nat {
    if s.remote.Some? then s.remote.value else 0
  }

  function Quiet(s: Socket): Effect {
    Effect(s, PeerId(s), false, [], false)
  }

  /**
   * local_socket_close: tell the peer, then destroy the socket, unless packets are
   * queued on a socket that was not closing yet: those are kept for draining.
   */
  function Close(s: Socket, cause: Cause): Effect {
    var ended := if s.status.Live? then s.(cause := cause) else s.(aborted := s.aborted || cause.OwnFd?);
    var s' := if s.status.Live? && s.queue != []
              then ended.(status := Closing, fde := FdeSet(s.fde, s.fde.wants - {Read}))
              else ended.(status := Dead, fde := IDLE, queue := []);
    Quiet(s').(clse := s.HasPeer())
  }

  /** The FDE_READ half of local_socket_event_func. */
  function OnReadable(s: Socket, t: Taken): Effect {
    var s1 := s.(taken := s.taken + t.data);
    var s2 := if t.data != [] && s.HasPeer()
              then s1.(sent := s1.sent + t.data, fde := FdeSet(s1.fde, s1.fde.wants - {Read}))
              else s1;
    var e := if t.eof then Close(s2, OwnFd) else Quiet(s2);
    e.(data := if s.HasPeer() then t.data else [])
  }

  /** The FDE_WRITE half of local_socket_event_func. */
  function OnWritable(s: Socket, d: Drained): Effect {
    var s1 := s.(written := s.written + d.wrote, queue := d.rest);
    if d.end.Blocked? then Quiet(s1)
    else if d.end.Broken? then Close(s1, OwnFd)
    else if s1.status.Closing? then Close(s1, PeerClosed)
    else Quiet(s1.(fde := FdeSet(s1.fde, s1.fde.wants - {Write}))).(okay := s1.HasPeer())
  }

  /**
   * local_socket_event_func. The read half follows the write half only if that
   * emptied the queue of a live socket.
   */
  function Callback(s: Socket, ev: set<Event>, d: Drained, t: Taken): Effect {
    if Write !in ev then
      if Read in ev then OnReadable(s, t) else Quiet(s)
    else
      var w := OnWritable(s, d);
      if Read in ev && w.s.status.Live? && w.s.queue == []
      then OnReadable(w.s, t).(okay := w.okay)
      else w
  }

  /** The event loop takes the pending events of the socket and calls back with them. */
  function OnEvent(s: Socket, wcalls: seq<WriteCall>, rcalls: seq<ReadCall>): Effect {
    Callback(s.(fde := s.fde.(pending := {})), s.fde.pending,
             Drain(s.queue, wcalls, true), Take(MAX_PAYLOAD, rcalls))
  }

  /** select marks some of the wanted events as pending. */
  function OnSelect(s: Socket, ready: set<Event>): Effect {
    Quiet(s.(fde := s.fde.(pending := s.fde.pending + ready * s.fde.wants)))
  }

  /** local_socket_enqueue on a WRTE payload, with the OKAY that handle_packet adds. */
  function OnData(s: Socket, from: nat, data: seq<byte>, wcalls: seq<WriteCall>): Effect {
    if s.queue != [] then
      Quiet(s.(queue := s.queue + [data], fde := FdeSet(s.fde, s.fde.wants + {Write})))
    else
      OnFirst(s, from, Drain([data], wcalls, false))
  }

  /** The same when nothing is queued: the packet is written at once, as far as it goes. */
  function OnFirst(s: Socket, from: nat, d: Drained): Effect {
    var s1 := s.(written := s.written + d.wrote);
    if d.end.Broken? then Close(s1, OwnFd)
    else if d.end.Finished? then Effect(s1, from, true, [], false)
    else Quiet(s1.(queue := d.rest, fde := FdeSet(s.fde, s.fde.wants + {Write})))
  }

  /** The READY branch of handle_packet: the first one also names the peer. */
  function OnOkay(s: Socket, from: nat): Effect {
    Quiet(s.(remote := if s.remote.Some? then s.remote else Some(from),
             fde := FdeSet(s.fde, s.fde.wants + {Read})))
  }

  /** handle_packet for a packet addressed to a socket of this process. */
  function OnPacket(s: Socket, p: Packet, wcalls: seq<WriteCall>): Effect
    requires !p.Open?
  {
    match p
    case Okay(from, _) => OnOkay(s, from)
    case Wrte(from, _, data) => OnData(s, from, data, wcalls)
    case Clse(_, _) => Close(s, PeerClosed)
  }
}
