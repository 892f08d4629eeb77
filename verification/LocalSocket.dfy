/**
 * The local sockets of core/adb/sockets.c in place: the callbacks move packets along the chain of
 * a socket, change its descriptor's mask, part it from its peer and send packets. Each is proved to
 * do what `Sockets` says.
 */
module LocalSockets {
  import opened Basics
  import opened Sockets
  import opened PacketQueues
  import opened SocketRings

  /** The read loop: fill one packet until the descriptor blocks or ends. */
  method ReadPacket(rcalls: seq<ReadCall>) returns (t: Taken)
    ensures t == Take(MAX_PAYLOAD, rcalls)
  {
    var data, avail, i := [], MAX_PAYLOAD, 0;
    while avail > 0 && i < |rcalls|
      invariant i <= |rcalls| && 0 <= avail
      invariant var todo := Take(avail, rcalls[i..]);
                Take(MAX_PAYLOAD, rcalls) == Taken(data + todo.data, todo.eof)
      decreases |rcalls| - i
    {
      match rcalls[i] {
        case Got(bytes) =>
          if bytes == [] {
            return Taken(data, true);
          }
          var k := Min(|bytes|, avail);
          data, avail := data + bytes[..k], avail - k;
        case ReadAgain =>
          return Taken(data, false);
        case ReadIntr =>
        case ReadFail =>
          return Taken(data, true);
      }
      i := i + 1;
    }
    t := Taken(data, false);
  }

  /** When both halves of the event handler run, the packets of the write half go first. */
  lemma OutOfBoth(s: Socket, d: Drained, t: Taken)
    requires d.end.Finished? <==> d.rest == []
    requires var w := OnWritable(s, d); w.s.status.Live? && w.s.queue == []
    ensures var w := OnWritable(s, d);
            var r := OnReadable(w.s, t);
            w.Out() + r.Out() == r.(okay := w.okay).Out()
  {
    var w := OnWritable(s, d);
    var r := OnReadable(w.s, t);
    assert w.data == [] && !w.clse && !r.okay && r.s.id == w.s.id && (w.okay ==> r.to == w.to);
  }

  lemma CallbackParts(s: Socket, ev: set<Event>, d: Drained, t: Taken)
    requires d.end.Finished? <==> d.rest == []
    ensures var e := Callback(s, ev, d, t);
            var w := if Write in ev then OnWritable(s, d) else Quiet(s);
            if Read in ev && (Write in ev ==> w.s.status.Live? && w.s.queue == [])
            then e.s == OnReadable(w.s, t).s && e.Out() == w.Out() + OnReadable(w.s, t).Out()
            else e.s == w.s && e.Out() == w.Out()
  {
    if Write in ev && OnWritable(s, d).s.status.Live? && OnWritable(s, d).s.queue == [] {
      OutOfBoth(s, d, t);
    }
  }

  /** The socket as `Sockets` sees it. */
  ghost function Value(s: ASocket): Socket
    requires s.queue.Valid()
    reads s`book, s`fde, s.queue, s.queue.packets
  {
    s.book.(fde := s.fde, queue := s.queue.Contents())
  }

  lemma ValueIs(s: ASocket)
    requires s.queue.Valid()
    ensures var v := Value(s);
            && v.id == s.book.id && v.remote == s.book.remote && v.status == s.book.status
            && v.fde == s.fde && v.queue == s.queue.Contents()
            && v.HasPeer() == s.book.HasPeer()
  {
  }

  /** The pointers and flags of a local socket whose peer, if any, is remote. */
  ghost predicate SocketFits(s: ASocket)
    reads s`peer, s`book, s`closing, s`freed, s`id, Peers(s)`id
  {
    && s.local && (s.freed <==> s.book.status.Dead?)
    && (s.peer != null ==> !s.peer.local && s.book.remote == Some(s.peer.id))
    && (s.peer != null <==> s.book.HasPeer())
    && (s.book.status.Live? ==> !s.closing && s.id == s.book.id)
    && (s.book.status.Closing? ==> s.closing)
  }

  lemma EmptyQueue(q: PacketQueue)
    requires q.Valid()
    ensures q.first == null <==> q.Contents() == []
  {
  }

  /** Tell the peer, if there is one, and forget it. */
  method PartFromPeer(s: ASocket) returns (out: seq<Packet>)
    requires s.peer != s
    modifies s`peer, Peers(s)`peer
    ensures s.peer == null && out == if old(s.peer) == null then [] else [Clse(0, old(s.peer.id))]
  {
    out := [];
    if s.peer != null {
      s.peer.peer := null;
      out := [Clse(0, s.peer.id)];
      s.peer := null;
    }
  }

  /** What the history says of a socket that ends. */
  function Ended(v: Socket, cause: Cause): Socket {
    if v.status.Live? then v.(cause := cause) else v.(aborted := v.aborted || cause.OwnFd?)
  }

  lemma CloseIs(v: Socket, cause: Cause)
    ensures var e := Close(v, cause);
            && e.Out() == (if v.HasPeer() then [Clse(0, v.remote.value)] else [])
            && e.s == if v.status.Live? && v.queue != []
                      then Ended(v, cause).(status := Closing, fde := FdeSet(v.fde, v.fde.wants - {Read}))
                      else Ended(v, cause).(status := Dead, fde := IDLE, queue := [])
  {
  }

  /** local_socket_destroy */
  method Destroy(s: ASocket, ghost cause: Cause)
    requires s.queue.Valid()
    modifies s`freed, s`fde, s`book, s.queue
    ensures s.queue.Valid() && s.queue.packets == [] && s.freed
    ensures s.book == Ended(old(s.book), cause).(status := Dead)
    ensures Value(s) == Ended(old(Value(s)), cause).(status := Dead, fde := IDLE, queue := [])
  {
    hide PacketQueue.Valid, PacketQueue.Contents;
    s.fde := IDLE;
    s.queue.Discard();
    s.freed := true;
    s.book := Ended(s.book, cause).(status := Dead);
  }

  /** The other end of local_socket_close_locked: keep the socket for draining. */
  method Linger(s: ASocket, ghost cause: Cause)
    requires s.queue.Valid()
    modifies s`closing, s`fde, s`book
    ensures s.closing && s.book == Ended(old(s.book), cause).(status := Closing)
    ensures Value(s) == Ended(old(Value(s)), cause).(status := Closing, fde := FdeSet(old(s.fde), old(s.fde).wants - {Read}))
  {
    hide PacketQueue.Valid, PacketQueue.Contents;
    s.closing := true;
    s.fde := FdeSet(s.fde, s.fde.wants - {Read});
    s.book := Ended(s.book, cause).(status := Closing);
  }

  /** local_socket_close_locked, up to the lists. */
  method CloseSocket(s: ASocket, ghost cause: Cause) returns (out: seq<Packet>)
    requires SocketFits(s) && s.queue.Valid() && !s.book.status.Dead?
    modifies s`peer, Peers(s)`peer, s`closing, s`freed, s`fde, s`book, s.queue
    ensures SocketFits(s) && s.queue.Valid() && (forall p :: p in s.queue.packets ==> p in old(s.queue.packets))
    ensures Value(s) == Close(old(Value(s)), cause).s && out == Close(old(Value(s)), cause).Out()
    ensures !s.book.status.Live? && s.peer == null
  {
    hide PacketQueue.Valid, PacketQueue.Contents, Close, Value, FdeSet;
    ValueIs(s);
    CloseIs(Value(s), cause);
    EmptyQueue(s.queue);
    out := PartFromPeer(s);
    if s.closing || s.queue.first == null {
      Destroy(s, cause);
    } else {
      Linger(s, cause);
    }
  }

  // Enqueueing.

  /** What OnData comes to, case by case. */
  lemma DataIs(v: Socket, data: seq<byte>, wcalls: seq<WriteCall>, d: Drained)
    requires d == Drain([data], wcalls, false)
    ensures var e := OnData(v, 0, data, wcalls);
            var w := v.(written := v.written + d.wrote);
            if v.queue != [] then
              e.s == v.(queue := v.queue + [data], fde := FdeSet(v.fde, v.fde.wants + {Write})) && !e.okay && e.Out() == []
            else if d.end.Broken? then
              e.s == Close(w, OwnFd).s && !e.okay && e.Out() == Close(w, OwnFd).Out()
            else if d.end.Finished? then e.s == w && e.okay && e.(okay := false).Out() == []
            else e.s == w.(queue := d.rest, fde := FdeSet(v.fde, v.fde.wants + {Write})) && !e.okay && e.Out() == []
    ensures var e := OnData(v, 0, data, wcalls); !e.okay ==> e.(okay := false).Out() == e.Out()
  {
    hide Drain;
  }

  /** The write loop of local_socket_enqueue on a packet that is not queued. */
  method TryWrite(s: ASocket, p: APacket, wcalls: seq<WriteCall>) returns (stop: Option<WriteEnd>)
    requires s.queue.Valid() && p !in s.queue.packets && p.Fits()
    modifies s`book, p`ptr, p`len
    ensures s.queue.Valid() && p.Fits()
    ensures var d := Drain([old(p.Rest())], wcalls, false);
            && Value(s) == old(Value(s)).(written := old(Value(s)).written + d.wrote)
            && s.book == old(s.book).(written := s.book.written)
            && (if stop.None? then d.end.Finished? else d.rest == [p.Rest()] && d.end == stop.value && !d.end.Finished?)
  {
    hide Drain, PacketQueue.Valid;
    assert wcalls[0..] == wcalls && [p.Rest()] + [] == [p.Rest()];
    ghost var wrote;
    var i;
    i, wrote, stop := WritePacket(p, wcalls, 0, false, []);
    NothingToDrain(wcalls[i..], false);
    assert wrote + [] == wrote && [p.Rest()] + [] == [p.Rest()];
    s.book := s.book.(written := s.book.written + wrote);
  }

  /** The end of local_socket_enqueue: queue the packet and wait until the descriptor can be written. */
  method QueueUp(s: ASocket, p: APacket)
    requires s.queue.Valid() && p !in s.queue.packets && p.Fits()
    modifies s`fde, s.queue, s.queue.packets`next, p`next
    ensures s.queue.Valid() && s.queue.packets == old(s.queue.packets) + [p]
    ensures var v := old(Value(s));
            Value(s) == v.(queue := v.queue + [old(p.Rest())], fde := FdeSet(v.fde, v.fde.wants + {Write}))
  {
    hide PacketQueue.Valid, PacketQueue.Contents;
    s.queue.Append(p);
    s.fde := FdeSet(s.fde, s.fde.wants + {Write});
  }

  /** local_socket_enqueue; true means ready for more. */
  method EnqueuePacket(s: ASocket, p: APacket, wcalls: seq<WriteCall>) returns (ready: bool, out: seq<Packet>)
    requires SocketFits(s) && s.queue.Valid() && s.book.status.Live? && p !in s.queue.packets && p.Fits()
    modifies s`peer, Peers(s)`peer, s`closing, s`freed, s`fde, s`book, s.queue, s.queue.packets`next, p`next, p`ptr, p`len
    ensures SocketFits(s) && s.queue.Valid() && (forall q :: q in s.queue.packets ==> q in old(s.queue.packets) || q == p)
    ensures var e := OnData(old(Value(s)), 0, old(p.Rest()), wcalls);
            Value(s) == e.s && ready == e.okay && out == e.(okay := false).Out()
    ensures s.peer == null || s.peer == old(s.peer)
  {
    hide Drain, PacketQueue.Valid, PacketQueue.Contents, OnData, Value, Close, FdeSet;
    ValueIs(s);
    EmptyQueue(s.queue);
    ghost var v, data := Value(s), p.Rest();
    DataIs(v, data, wcalls, Drain([data], wcalls, false));
    ready, out := false, [];
    if s.queue.first == null {
      assert [] + [data] == [data];
      var stop := TryWrite(s, p, wcalls);
      if stop == Some(Broken) {
        out := CloseSocket(s, OwnFd);
        return;
      }
      if stop.None? {
        return true, [];
      }
      ValueIs(s);
      assert v.queue + [p.Rest()] == [p.Rest()];
    }
    QueueUp(s, p);
  }

  // The event handler.

  lemma WritableIs(v: Socket, d: Drained)
    ensures var e := OnWritable(v, d);
            var w := v.(written := v.written + d.wrote, queue := d.rest);
            if d.end.Blocked? then e.s == w && e.Out() == []
            else if d.end.Broken? then e.s == Close(w, OwnFd).s && e.Out() == Close(w, OwnFd).Out()
            else if w.status.Closing? then e.s == Close(w, PeerClosed).s && e.Out() == Close(w, PeerClosed).Out()
            else
              && e.s == w.(fde := FdeSet(w.fde, w.fde.wants - {Write}))
              && e.Out() == if w.HasPeer() then [Okay(w.id, w.remote.value)] else []
  {
  }

  /** The write loop of the event handler. */
  method Flush(s: ASocket, wcalls: seq<WriteCall>) returns (end: WriteEnd)
    requires s.queue.Valid()
    modifies s`book, s.queue, s.queue.packets`ptr, s.queue.packets`len
    ensures s.queue.Valid() && forall p :: p in s.queue.packets ==> p in old(s.queue.packets)
    ensures var v := old(Value(s));
            var d := Drain(v.queue, wcalls, true);
            && Value(s) == v.(written := v.written + d.wrote, queue := d.rest) && end == d.end
            && s.book == old(s.book).(written := s.book.written)
  {
    hide Drain, PacketQueue.Valid, PacketQueue.Contents;
    ghost var wrote;
    wrote, end := s.queue.WriteOut(wcalls);
    s.book := s.book.(written := s.book.written + wrote);
  }

  /** No more packets: stop watching the descriptor for writing, and tell the peer to go on. */
  method Resume(s: ASocket) returns (out: seq<Packet>)
    requires SocketFits(s) && s.queue.Valid() && s.book.status.Live?
    modifies s`fde
    ensures Value(s) == old(Value(s)).(fde := FdeSet(old(s.fde), old(s.fde).wants - {Write}))
    ensures out == if s.book.HasPeer() then [Okay(s.book.id, s.book.remote.value)] else []
  {
    hide PacketQueue.Valid, PacketQueue.Contents;
    s.fde := FdeSet(s.fde, s.fde.wants - {Write});
    out := [];
    if s.peer != null {
      out := [Okay(s.id, s.peer.id)];
    }
  }

  /** The FDE_WRITE half of local_socket_event_func; true means the read half goes on. */
  method WriteEvent(s: ASocket, wcalls: seq<WriteCall>) returns (goOn: bool, out: seq<Packet>)
    requires SocketFits(s) && s.queue.Valid() && !s.book.status.Dead?
    modifies s`peer, Peers(s)`peer, s`closing, s`freed, s`fde, s`book, s.queue, s.queue.packets`ptr, s.queue.packets`len
    ensures SocketFits(s) && s.queue.Valid() && (forall p :: p in s.queue.packets ==> p in old(s.queue.packets))
    ensures var v := old(Value(s));
            var e := OnWritable(v, Drain(v.queue, wcalls, true));
            Value(s) == e.s && out == e.Out() && goOn == (e.s.status.Live? && e.s.queue == [])
    ensures s.peer == null || s.peer == old(s.peer)
    ensures goOn ==> !s.book.status.Dead? && s.peer == old(s.peer)
  {
    hide Drain, PacketQueue.Valid, PacketQueue.Contents, OnWritable, Value, Close, FdeSet;
    ghost var v := Value(s);
    ghost var d := Drain(v.queue, wcalls, true);
    WritableIs(v, d);
    var end := Flush(s, wcalls);
    ValueIs(s);
    goOn, out := false, [];
    if end.Broken? {
      out := CloseSocket(s, OwnFd);
      ValueIs(s);
    } else if end.Finished? {
      if s.closing {
        out := CloseSocket(s, PeerClosed);
        ValueIs(s);
      } else {
        out := Resume(s);
        goOn := true;
      }
    } else {
      assert d.rest != [];
    }
  }

  lemma ReadableIs(v: Socket, t: Taken)
    ensures var e := OnReadable(v, t);
            var w := v.(taken := v.taken + t.data);
            var sends := t.data != [] && v.HasPeer();
            var u := if sends then w.(sent := w.sent + t.data, fde := FdeSet(w.fde, w.fde.wants - {Read})) else w;
            && e.s == (if t.eof then Close(u, OwnFd).s else u)
            && e.Out() == (if sends then [Wrte(v.id, v.remote.value, t.data)] else []) +
                          (if t.eof then Close(u, OwnFd).Out() else [])
  {
  }

  /** Hand what was read to the peer. */
  method HandOver(s: ASocket, data: seq<byte>) returns (out: seq<Packet>)
    requires SocketFits(s) && s.queue.Valid()
    modifies s`fde, s`book
    ensures SocketFits(s) && s.book.status == old(s.book.status)
    ensures var v := old(Value(s));
            var w := v.(taken := v.taken + data);
            if data != [] && v.HasPeer()
            then && Value(s) == w.(sent := w.sent + data, fde := FdeSet(w.fde, w.fde.wants - {Read}))
                 && out == [Wrte(v.id, v.remote.value, data)]
            else Value(s) == w && out == []
  {
    hide PacketQueue.Valid, PacketQueue.Contents;
    out := [];
    s.book := s.book.(taken := s.book.taken + data);
    if data != [] && s.peer != null {
      out := [Wrte(s.id, s.peer.id, data)];
      s.book := s.book.(sent := s.book.sent + data);
      s.fde := FdeSet(s.fde, s.fde.wants - {Read});
    }
  }

  /** The FDE_READ half of local_socket_event_func. */
  method ReadEvent(s: ASocket, rcalls: seq<ReadCall>) returns (out: seq<Packet>)
    requires SocketFits(s) && s.queue.Valid() && !s.book.status.Dead?
    modifies s`peer, Peers(s)`peer, s`closing, s`freed, s`fde, s`book, s.queue
    ensures SocketFits(s) && s.queue.Valid() && (forall p :: p in s.queue.packets ==> p in old(s.queue.packets))
    ensures var e := OnReadable(old(Value(s)), Take(MAX_PAYLOAD, rcalls)); Value(s) == e.s && out == e.Out()
    ensures s.peer == null || s.peer == old(s.peer)
  {
    hide Take, PacketQueue.Valid, PacketQueue.Contents, OnReadable, Value, Close, FdeSet;
    var t := ReadPacket(rcalls);
    ReadableIs(Value(s), t);
    out := HandOver(s, t.data);
    if t.eof {
      var clse := CloseSocket(s, OwnFd);
      out := out + clse;
    }
  }

  /** local_socket_event_func, called by the event loop with the pending events. */
  method EventFunc(s: ASocket, wcalls: seq<WriteCall>, rcalls: seq<ReadCall>) returns (out: seq<Packet>)
    requires SocketFits(s) && s.queue.Valid() && !s.book.status.Dead?
    modifies s`peer, Peers(s)`peer, s`closing, s`freed, s`fde, s`book, s.queue, s.queue.packets`ptr, s.queue.packets`len
    ensures SocketFits(s) && s.queue.Valid() && (forall p :: p in s.queue.packets ==> p in old(s.queue.packets))
    ensures var e := OnEvent(old(Value(s)), wcalls, rcalls); Value(s) == e.s && out == e.Out()
    ensures s.peer == null || s.peer == old(s.peer)
  {
    hide Drain, Take, PacketQueue.Valid, PacketQueue.Contents, OnReadable, OnWritable, Callback, Close;
    var ev := s.fde.pending;
    ghost var v := Value(s).(fde := s.fde.(pending := {}));
    CallbackParts(v, ev, Drain(v.queue, wcalls, true), Take(MAX_PAYLOAD, rcalls));
    s.fde := s.fde.(pending := {});
    assert Value(s) == v;
    out := [];
    var goOn := true;
    if Write in ev {
      goOn, out := WriteEvent(s, wcalls);
    }
    if Read in ev && goOn {
      ghost var w := Value(s);
      var more := ReadEvent(s, rcalls);
      out := out + more;
    }
  }

  /** The READY branch of handle_packet, with create_remote_socket for the first one. */
  method ReadySocket(s: ASocket, from: nat)
    requires SocketFits(s) && s.queue.Valid() && s.book.status.Live?
    modifies s`peer, s`fde, s`book
    ensures SocketFits(s) && (s.peer == old(s.peer) || fresh(s.peer))
    ensures Value(s) == OnOkay(old(Value(s)), from).s
  {
    hide PacketQueue.Valid, PacketQueue.Contents;
    if s.peer == null {
      var p := new ASocket(from, false, 1);
      p.peer := s;
      s.peer := p;
      s.book := s.book.(remote := Some(from));
    }
    s.fde := FdeSet(s.fde, s.fde.wants + {Read});
  }
}
