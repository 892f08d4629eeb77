/**
 * One adb process in place: its two rings of local sockets, the search by id, the packet dispatch
 * and the event handler. Each step is proved to be a step of the transition system of `Multiplex`.
 */
module Endpoints {
  import opened Basics
  import opened Lists
  import opened Sockets
  import opened Streams
  import opened Multiplex
  import opened Processes
  import opened PacketQueues
  import opened SocketRings
  import opened SocketList
  import opened LocalSockets

  /** The packets and the peer of a socket are its own. */
  ghost predicate Owns(s: ASocket)
    reads s`owned, s`peer, s.queue`packets
  {
    (forall p :: p in s.queue.packets ==> p in s.owned) && (s.peer != null ==> s.peer in s.owned)
  }

  /** A socket in memory, with all it owns, is what the transition system has under its id. */
  ghost predicate SocketAt(id: nat, s: ASocket, v: Socket)
    reads s`book, s`fde, s`peer, s`closing, s`freed, s`id, s`owned, s.owned
  {
    && s !in s.owned && s.queue in s.owned && Owns(s)
    && s.queue.Valid() && SocketFits(s) && s.book.id == id && Value(s) == v
  }

  lemma AtMeans(id: nat, s: ASocket, v: Socket)
    requires SocketAt(id, s, v)
    ensures s.book.id == id && s.book.status == v.status && (v.status.Live? ==> s.id == id)
  {
  }

  // The callbacks, on a socket and what it owns.

  method EventOn(s: ASocket, wcalls: seq<WriteCall>, rcalls: seq<ReadCall>, ghost k: nat, ghost v: Socket)
    returns (sent: seq<Packet>)
    requires SocketAt(k, s, v) && !v.status.Dead?
    modifies s`peer, s`closing, s`freed, s`fde, s`book, s.owned
    ensures var e := OnEvent(v, wcalls, rcalls); SocketAt(k, s, e.s) && sent == e.Out() && s.owned == old(s.owned)
  {
    hide PacketQueue.Valid, Value, OnEvent, SocketAt;
    AtFits(k, s, v);
    AtMeans(k, s, v);
    ValueHasId(s);
    KeepsId(v, wcalls, rcalls);
    sent := EventFunc(s, wcalls, rcalls);
    ValueHasId(s);
    FitsAt(k, s, OnEvent(v, wcalls, rcalls).s);
  }

  lemma ValueHasId(s: ASocket)
    requires s.queue.Valid()
    ensures Value(s).id == s.book.id
  {
  }

  lemma KeepsId(v: Socket, wcalls: seq<WriteCall>, rcalls: seq<ReadCall>)
    ensures OnEvent(v, wcalls, rcalls).s.id == v.id
    ensures OnEvent(v, wcalls, rcalls).s.status.Live? ==> v.status.Live?
  {
    hide Drain, Take;
    var w := v.(fde := v.fde.(pending := {}));
    var d, t := Drain(v.queue, wcalls, true), Take(MAX_PAYLOAD, rcalls);
    WriteKeepsId(w, d);
    ReadKeepsId(w, t);
    ReadKeepsId(OnWritable(w, d).s, t);
    hide OnReadable, OnWritable;
  }

  lemma WriteKeepsId(v: Socket, d: Drained)
    ensures OnWritable(v, d).s.id == v.id && (OnWritable(v, d).s.status.Live? ==> v.status.Live?)
  {
  }

  lemma ReadKeepsId(v: Socket, t: Taken)
    ensures OnReadable(v, t).s.id == v.id && (OnReadable(v, t).s.status.Live? ==> v.status.Live?)
  {
  }

  lemma DataWithAnswer(s: Socket, from: nat, data: seq<byte>, wcalls: seq<WriteCall>)
    ensures var e, e0 := OnData(s, from, data, wcalls), OnData(s, 0, data, wcalls);
            && e.s == e0.s && e.okay == e0.okay && e.s.id == s.id
            && (e0.okay ==> e0.s.status == s.status)
            && e.Out() == e0.(okay := false).Out() + (if e0.okay then [Okay(s.id, from)] else [])
  {
    hide Drain;
  }

  /** The WRTE branch of handle_packet. */
  method DataOn(s: ASocket, from: nat, data: seq<byte>, wcalls: seq<WriteCall>, ghost k: nat, ghost v: Socket)
    returns (sent: seq<Packet>)
    requires SocketAt(k, s, v) && v.status.Live?
    modifies s`peer, s`closing, s`freed, s`fde, s`book, s`owned, s.owned
    ensures var e := OnData(v, from, data, wcalls); SocketAt(k, s, e.s) && sent == e.Out()
    ensures fresh(s.owned - old(s.owned))
  {
    hide PacketQueue.Valid, Value, OnData, SocketAt;
    AtFits(k, s, v);
    AtMeans(k, s, v);
    ValueHasId(s);
    DataWithAnswer(v, from, data, wcalls);
    var p := new APacket(data);
    s.owned := s.owned + {p};
    assert p.Rest() == data;
    var ready;
    ready, sent := EnqueuePacket(s, p, wcalls);
    ValueHasId(s);
    FitsAt(k, s, OnData(v, from, data, wcalls).s);
    AtMeans(k, s, OnData(v, from, data, wcalls).s);
    if ready {
      sent := sent + [Okay(s.id, from)];
    }
  }

  /** The CLSE branch. */
  method CloseOn(s: ASocket, ghost k: nat, ghost v: Socket) returns (sent: seq<Packet>)
    requires SocketAt(k, s, v) && v.status.Live?
    modifies s`peer, s`closing, s`freed, s`fde, s`book, s.owned
    ensures var e := Close(v, PeerClosed); SocketAt(k, s, e.s) && sent == e.Out() && s.owned == old(s.owned)
  {
    hide PacketQueue.Valid, Value, SocketAt;
    AtFits(k, s, v);
    AtMeans(k, s, v);
    ValueHasId(s);
    sent := CloseSocket(s, PeerClosed);
    ValueHasId(s);
    FitsAt(k, s, Close(v, PeerClosed).s);
  }

  /** The OKAY branch. */
  method ReadyOn(s: ASocket, from: nat, ghost k: nat, ghost v: Socket)
    requires SocketAt(k, s, v) && v.status.Live?
    modifies s`peer, s`fde, s`book, s`owned
    ensures SocketAt(k, s, OnOkay(v, from).s) && fresh(s.owned - old(s.owned))
  {
    hide PacketQueue.Valid, Value, SocketAt;
    AtFits(k, s, v);
    AtMeans(k, s, v);
    ValueHasId(s);
    ReadySocket(s, from);
    s.owned := s.owned + Peers(s);
    ValueHasId(s);
    FitsAt(k, s, OnOkay(v, from).s);
  }

  /** handle_packet for a packet addressed to a live socket. */
  method PacketOn(s: ASocket, p: Packet, wcalls: seq<WriteCall>, ghost k: nat, ghost v: Socket)
    returns (sent: seq<Packet>)
    requires SocketAt(k, s, v) && v.status.Live? && !p.Open?
    modifies s`peer, s`closing, s`freed, s`fde, s`book, s`owned, s.owned
    ensures var e := OnPacket(v, p, wcalls); SocketAt(k, s, e.s) && sent == e.Out()
    ensures fresh(s.owned - old(s.owned))
  {
    hide SocketAt, OnData, Close;
    match p
    case Okay(from, _) =>
      ReadyOn(s, from, k, v);
      sent := [];
    case Wrte(from, _, data) =>
      sent := DataOn(s, from, data, wcalls, k, v);
    case Clse(_, _) =>
      sent := CloseOn(s, k, v);
  }

  /** fdevent_process marks what select found ready. */
  method SelectOn(s: ASocket, ready: set<Event>, ghost k: nat, ghost v: Socket)
    requires SocketAt(k, s, v)
    modifies s`fde
    ensures SocketAt(k, s, OnSelect(v, ready).s)
  {
    hide PacketQueue.Valid, PacketQueue.Contents, SocketAt;
    AtFits(k, s, v);
    s.fde := s.fde.(pending := s.fde.pending + ready * s.fde.wants);
    FitsAt(k, s, OnSelect(v, ready).s);
  }

  /** create_local_socket for a stream to a transport, with the id that install_local_socket gives it. */
  method CreateLocal(id: nat) returns (s: ASocket)
    ensures SocketAt(id, s, NewSocket(id, true, None)) && s.id == id && s.ident == id
    ensures fresh(s) && fresh(s.owned) && s !in s.owned
  {
    s := new ASocket(id, true, 1);
    s.book, s.ident, s.owned := NewSocket(id, true, None), id, {s.queue};
    NewFits(s, NewSocket(id, true, None));
  }

  /** The socket of a service, with a remote peer, that reads at once. */
  method CreateService(id: nat, from: nat) returns (s: ASocket)
    ensures SocketAt(id, s, Acceptor(id, from)) && s.id == id && s.ident == id && s.peer != null && s.peer.id == from
    ensures fresh(s) && fresh(s.owned) && s !in s.owned
  {
    hide SocketAt, PacketQueue.Valid, PacketQueue.Contents;
    s := new ASocket(id, true, 0);
    var p := new ASocket(from, false, 1);
    p.peer := s;
    s.peer := p;
    s.fde := FdeSet(s.fde, s.fde.wants + {Read});
    s.book, s.ident, s.owned := Acceptor(id, from), id, {s.queue, p};
    assert s.fde == Fde({Read}, {});
    NewFits(s, Acceptor(id, from));
  }

  /** A socket without packets is what its book says. */
  lemma NewFits(s: ASocket, v: Socket)
    requires s.queue.Valid() && s.queue.packets == [] && s.book == v && s.fde == v.fde && v.queue == [] && SocketFits(s)
    requires s !in s.owned && s.queue in s.owned && (s.peer != null ==> s.peer in s.owned)
    ensures SocketAt(v.id, s, v)
  {
    assert s.queue.Contents() == [];
  }

  /** A list after something happened to one of its sockets. */
  ghost function Others(items: seq<ASocket>, s: ASocket, stays: bool): seq<ASocket> {
    if stays then items else Without(items, {s})
  }

  /** The ids of the sockets that close_all_sockets(t) is to close, in the order of the list. */
  ghost function BoundIds(items: seq<ASocket>, t: nat): seq<nat>
    reads items`peer, items`ident
  {
    if items == [] then [] else (if Bound(items[0], t) then [items[0].ident] else []) + BoundIds(items[1..], t)
  }

  /** They are those of the sockets bound to t, directly or through the peer. */
  lemma {:induction false} BoundIdsIff(items: seq<ASocket>, t: nat, k: nat)
    ensures k in BoundIds(items, t) <==>
            exists s :: s in items && s.ident == k && (s.transport == t || (s.peer != null && s.peer.transport == t))
  {
    if items != [] {
      BoundIdsIff(items[1..], t, k);
      assert items == [items[0]] + items[1..];
    }
  }

  lemma BoundSplit(a: seq<ASocket>, b: seq<ASocket>, t: nat)
    requires forall k :: 0 <= k < |a| ==> !Bound(a[k], t)
    ensures BoundIds(a + b, t) == BoundIds(b, t)
    decreases |a|
  {
    if a == [] {
      assert a + b == b;
    } else {
      assert (a + b)[1..] == a[1..] + b;
      BoundSplit(a[1..], b, t);
    }
  }

  /** Without the first bound socket, the others are left. */
  lemma BoundFirst(items: seq<ASocket>, i: nat, t: nat)
    requires i < |items| && Distinct(items) && Bound(items[i], t) && forall k :: 0 <= k < i ==> !Bound(items[k], t)
    ensures BoundIds(items, t) == [items[i].ident] + BoundIds(Without(items, {items[i]}), t)
  {
    hide Without, Distinct;
    var a, b := items[..i], items[i + 1..];
    WithoutAt(items, i);
    assert items == a + ([items[i]] + b) && ([items[i]] + b)[1..] == b;
    BoundSplit(a, [items[i]] + b, t);
    BoundSplit(a, b, t);
  }

  lemma {:induction false} NoneBound(items: seq<ASocket>, t: nat)
    requires forall k :: 0 <= k < |items| ==> !Bound(items[k], t)
    ensures BoundIds(items, t) == []
  {
    if items != [] {
      NoneBound(items[1..], t);
    }
  }

  /** Each socket is closed once, no other one changes, and each says so in its turn. */
  lemma {:induction false} CloseEachIs(c: Closed, ids: seq<nat>)
    requires Distinct(ids) && forall k :: 0 <= k < |ids| ==> ids[k] in c.socks
    ensures var r := CloseEach(c, ids);
            && r.socks.Keys == c.socks.Keys
            && (forall id :: id in c.socks ==> r.socks[id] == if id in ids then Close(c.socks[id], PeerClosed).s else c.socks[id])
            && r.out == c.out + Flatten(seq(|ids|, k requires 0 <= k < |ids| => Close(c.socks[ids[k]], PeerClosed).Out()))
    decreases |ids|
  {
    hide Close;
    if ids != [] {
      var e, rest := Close(c.socks[ids[0]], PeerClosed), ids[1..];
      var next := Closed(c.socks[ids[0] := e.s], c.out + e.Out());
      assert ids[0] !in rest;
      CloseEachIs(next, rest);
      var outs := seq(|ids|, k requires 0 <= k < |ids| => Close(c.socks[ids[k]], PeerClosed).Out());
      assert outs[1..] == seq(|rest|, k requires 0 <= k < |rest| => Close(next.socks[rest[k]], PeerClosed).Out());
      Assoc(c.out, e.Out(), Flatten(outs[1..]));
    }
  }

  /** Sockets closed one after the other, and the packets that are sent. */
  datatype Closed = Closed(socks: map<nat, Socket>, out: seq<Packet>)

  function CloseEach(c: Closed, ids: seq<nat>): Closed
    decreases |ids|
  {
    if ids == [] || ids[0] !in c.socks then c
    else
      var e := Close(c.socks[ids[0]], PeerClosed);
      CloseEach(Closed(c.socks[ids[0] := e.s], c.out + e.Out()), ids[1..])
  }

  class Endpoint {
    /** local_socket_list and local_socket_closing_list */
    const lists: SocketLists
    var installed: nat
    /** The packets given to send_packet, in order. */
    var out: seq<Packet>
    /** Every socket ever installed, and what it is for the transition system. */
    ghost var all: map<nat, ASocket>
    ghost var socks: map<nat, Socket>

    constructor ()
      ensures Valid() && installed == 0 && socks == map[] && out == []
    {
      lists := new SocketLists();
      installed, out, all, socks := 0, [], map[], map[];
    }

    ghost predicate Table()
      reads *
    {
      all.Keys == socks.Keys && forall id :: id in all ==> 0 < id <= installed && SocketAt(id, all[id], socks[id])
    }

    /** What a socket owns is on no list. */
    ghost predicate Outside(s: ASocket)
      reads s`owned, lists`repr
    {
      OutsideOf(s, lists.repr)
    }

    ghost predicate OutsideOf(s: ASocket, repr: set<ASocket>)
      reads s`owned
    {
      && s.owned !! repr
      && s.owned !! {this, lists, lists.active, lists.draining, lists.active.head, lists.draining.head}
    }

    /** No two sockets share anything, and none shares anything with the lists. */
    ghost predicate Apart()
      reads this`all, lists`repr, all.Values`owned
    {
      ApartOf(all, lists.repr)
    }

    ghost predicate ApartOf(m: map<nat, ASocket>, repr: set<ASocket>)
      reads m.Values`owned
    {
      && (forall i, j :: i in m && j in m && i != j ==> m[i].owned !! m[j].owned)
      && (forall id :: id in m ==> OutsideOf(m[id], repr))
    }

    /** The lists know exactly the sockets of the table. */
    ghost predicate Known()
      reads this`all, lists`repr, all.Values`ident, lists.repr`ident
    {
      KnownOf(all, lists.repr)
    }

    static ghost predicate KnownOf(m: map<nat, ASocket>, repr: set<ASocket>)
      reads m.Values`ident, repr`ident
    {
      && (forall id :: id in m ==> m[id] in repr && m[id].ident == id)
      && (forall s :: s in repr ==> s.ident in m && m[s.ident] == s)
    }

    /** A live socket is on the one list, a closing one on the other, an ended one on none. */
    ghost predicate Placed(id: nat)
      requires id in all && id in socks
      reads this`all, this`socks, lists.active`items, lists.draining`items
    {
      && (all[id] in lists.active.items <==> socks[id].status.Live?)
      && (all[id] in lists.draining.items <==> socks[id].status.Closing?)
    }

    ghost predicate Members()
      requires all.Keys == socks.Keys
      reads this`all, this`socks, lists.active`items, lists.draining`items
    {
      forall id :: id in all ==> Placed(id)
    }

    /** The same but for one socket, whose place is to be looked at again. */
    ghost predicate MembersBut(k: nat)
      requires all.Keys == socks.Keys
      reads this`all, this`socks, lists.active`items, lists.draining`items
    {
      forall id :: id in all && id != k ==> Placed(id)
    }

    ghost predicate Valid()
      reads *
    {
      Table() && Apart() && Known() && Members() && lists.Rings()
    }

    /** What there is to know of this process. */
    ghost function Look(): View
      reads this
    {
      View(installed, socks, out)
    }

    /** This process with `packets` under way to it. */
    ghost function Seen(packets: seq<Packet>): Net
      reads this
    {
      Alone(Look(), packets)
    }

    /** The state after a step of the transition system is the state of this process. */
    ghost predicate Agrees(n: Net)
      reads this
    {
      Look() == ViewOf(n)
    }

    /** find_local_socket finds exactly the live socket that the id names. */
    method FindLocal(id: nat) returns (s: ASocket?)
      requires Valid()
      ensures s != null <==> id in socks && socks[id].status.Live?
      ensures s != null ==> id in all && all[id] == s
    {
      hide SocketAt, Apart, SocketRing.Valid;
      forall k | k in all ensures all[k].book.id == k && all[k].book.status == socks[k].status
                                  && (socks[k].status.Live? ==> all[k].id == k) {
        AtMeans(k, all[k], socks[k]);
      }
      s := lists.active.Find(id);
    }

    /** The list work of local_socket_close_locked and local_socket_destroy, after a callback on s. */
    method MoveSocket(s: ASocket, was: bool)
      requires lists.Rings() && s in lists.repr
      requires (s in lists.active.items <==> !was) && (s in lists.draining.items <==> was)
      modifies lists.active`items, lists.draining`items, lists.repr`next, lists.repr`prev, s`id
      modifies lists.active.head`next, lists.active.head`prev, lists.draining.head`next, lists.draining.head`prev
      ensures lists.Rings()
      ensures s in lists.active.items <==> !was && !s.freed && !s.closing
      ensures s in lists.draining.items <==> !s.freed && (was || s.closing)
      ensures forall x :: x in lists.repr && x != s ==> (x in lists.active.items <==> x in old(lists.active.items))
      ensures forall x :: x in lists.repr && x != s ==> (x in lists.draining.items <==> x in old(lists.draining.items))
      ensures !s.freed && (was || !s.closing) ==> s.id == old(s.id)
      ensures !was ==> lists.active.items == Others(old(lists.active.items), s, !s.freed && !s.closing)
    {
      hide SocketLists.Rings, Without;
      if s.freed {
        if was {
          lists.Finish(s);
        } else {
          lists.TakeOff(s);
        }
      } else if s.closing && !was {
        lists.TakeOff(s);
        lists.Keep(s);
      }
    }

    /** The same, seen from the socket: it does not change but for its id, if it ended. */
    method MoveOne(s: ASocket, was: bool, ghost k: nat, ghost v: Socket)
      requires SocketAt(k, s, v) && Outside(s) && lists.Rings() && s in lists.repr
      requires (s in lists.active.items <==> !was) && (s in lists.draining.items <==> was)
      requires v.status.Live? ==> !was
      modifies lists.active`items, lists.draining`items, lists.repr`next, lists.repr`prev, s`id
      modifies lists.active.head`next, lists.active.head`prev, lists.draining.head`next, lists.draining.head`prev
      ensures SocketAt(k, s, v) && lists.Rings()
      ensures (s in lists.active.items <==> v.status.Live?) && (s in lists.draining.items <==> v.status.Closing?)
      ensures !was ==> lists.active.items == Others(old(lists.active.items), s, v.status.Live?)
      ensures forall x :: x in lists.repr && x != s ==> (x in lists.active.items <==> x in old(lists.active.items))
      ensures forall x :: x in lists.repr && x != s ==> (x in lists.draining.items <==> x in old(lists.draining.items))
    {
      hide SocketLists.Rings, SocketAt, PacketQueue.Valid, Value;
      AtFits(k, s, v);
      AtMeans(k, s, v);
      MoveSocket(s, was);
      FitsAt(k, s, v);
    }

    /** The same, seen from the table: no socket changes but for the id of one that ended. */
    method MoveInTable(s: ASocket, was: bool, ghost k: nat)
      requires Table() && Apart() && lists.Rings() && s in lists.repr && k in all && all[k] == s
      requires forall id :: id in all && id != k ==> all[id] != s
      requires (s in lists.active.items <==> !was) && (s in lists.draining.items <==> was)
      requires socks[k].status.Live? ==> !was
      modifies lists.active`items, lists.draining`items, lists.repr`next, lists.repr`prev, s`id
      modifies lists.active.head`next, lists.active.head`prev, lists.draining.head`next, lists.draining.head`prev
      ensures Table() && lists.Rings() && Placed(k)
      ensures !was ==> lists.active.items == Others(old(lists.active.items), s, socks[k].status.Live?)
      ensures forall x :: x in lists.repr && x != s ==> (x in lists.active.items <==> x in old(lists.active.items))
      ensures forall x :: x in lists.repr && x != s ==> (x in lists.draining.items <==> x in old(lists.draining.items))
    {
      hide SocketLists.Rings, SocketAt;
      AtMeans(k, s, socks[k]);
      MoveOne(s, was, k, socks[k]);
      assert forall id :: id in all && id != k ==> SocketAt(id, all[id], socks[id]);
    }

    /** After a callback on the socket k: put it where it belongs. */
    method Settle(s: ASocket, was: bool, ghost k: nat)
      requires Table() && Apart() && Known() && MembersBut(k) && lists.Rings() && k in all && all[k] == s
      requires (s in lists.active.items <==> !was) && (s in lists.draining.items <==> was)
      requires socks[k].status.Live? ==> !was
      modifies lists.active`items, lists.draining`items, lists.repr`next, lists.repr`prev, s`id
      modifies lists.active.head`next, lists.active.head`prev, lists.draining.head`next, lists.draining.head`prev
      ensures Valid()
      ensures !was ==> lists.active.items == Others(old(lists.active.items), s, socks[k].status.Live?)
    {
      hide SocketLists.Rings, Table, SocketAt;
      MoveInTable(s, was, k);
    }

    /** What the socket k owns is its own. */
    lemma Separate(k: nat)
      requires Apart() && Known() && k in all
      ensures Outside(all[k]) && all[k] in lists.repr && this !in all[k].owned && lists !in all[k].owned
      ensures forall id :: id in all ==> all[id] !in all[k].owned
      ensures forall id :: id in all && id != k ==>
                && all[id] != all[k] && all[id] in lists.repr && all[id].owned !! all[k].owned
                && all[k] !in all[id].owned && this !in all[id].owned
    {
    }

    /** An event on one socket changes no list. */
    method EventHere(s: ASocket, wcalls: seq<WriteCall>, rcalls: seq<ReadCall>, ghost k: nat, ghost v: Socket)
      returns (sent: seq<Packet>)
      requires SocketAt(k, s, v) && !v.status.Dead? && Outside(s) && s in lists.repr && lists.Rings()
      modifies s`peer, s`closing, s`freed, s`fde, s`book, s.owned
      ensures var e := OnEvent(v, wcalls, rcalls); SocketAt(k, s, e.s) && sent == e.Out() && s.owned == old(s.owned)
      ensures lists.Rings() && lists.repr == old(lists.repr)
      ensures lists.active.items == old(lists.active.items) && lists.draining.items == old(lists.draining.items)
    {
      hide SocketAt, OnEvent, SocketLists.Rings;
      sent := EventOn(s, wcalls, rcalls, k, v);
    }

    /** An event on one socket, seen from the table. */
    method EventAtSocket(s: ASocket, wcalls: seq<WriteCall>, rcalls: seq<ReadCall>, ghost k: nat)
      requires Table() && Apart() && Known() && lists.Rings() && k in all && all[k] == s && !socks[k].status.Dead?
      modifies this`socks, this`out, s`peer, s`closing, s`freed, s`fde, s`book, s.owned
      ensures Table() && lists.Rings() && s.owned == old(s.owned)
      ensures var e := OnEvent(old(socks[k]), wcalls, rcalls); socks == old(socks)[k := e.s] && out == old(out) + e.Out()
      ensures all == old(all) && installed == old(installed) && lists.repr == old(lists.repr)
      ensures lists.active.items == old(lists.active.items) && lists.draining.items == old(lists.draining.items)
    {
      hide SocketAt, OnEvent, Apart, Known, SocketLists.Rings;
      ghost var v := socks[k];
      Separate(k);
      socks := socks[k := OnEvent(v, wcalls, rcalls).s];
      var sent := EventHere(s, wcalls, rcalls, k, v);
      out := out + sent;
      assert forall id :: id in all && id != k ==> SocketAt(id, all[id], socks[id]);
    }

    /** The same; what the sockets own stays apart. */
    method EventInTable(s: ASocket, wcalls: seq<WriteCall>, rcalls: seq<ReadCall>, ghost k: nat)
      requires Table() && Apart() && Known() && lists.Rings() && k in all && all[k] == s && k in socks && !socks[k].status.Dead?
      modifies this`socks, this`out, s`peer, s`closing, s`freed, s`fde, s`book, s.owned
      ensures Table() && Apart() && Known() && lists.Rings()
      ensures var e := OnEvent(old(socks[k]), wcalls, rcalls); socks == old(socks)[k := e.s] && out == old(out) + e.Out()
      ensures socks[k].status.Live? ==> old(socks)[k].status.Live?
      ensures all == old(all) && installed == old(installed) && lists.repr == old(lists.repr)
      ensures lists.active.items == old(lists.active.items) && lists.draining.items == old(lists.draining.items)
    {
      hide SocketAt, OnEvent, SocketLists.Rings, Table, ApartOf, KnownOf;
      KeepsId(socks[k], wcalls, rcalls);
      Separate(k);
      EventAtSocket(s, wcalls, rcalls, k);
    }

    /** Marking a socket, seen from the table. */
    method SelectInTable(s: ASocket, ready: set<Event>, ghost k: nat)
      requires Table() && Apart() && Known() && k in all && all[k] == s
      modifies this`socks, s`fde
      ensures Table() && socks == old(socks)[k := OnSelect(old(socks[k]), ready).s]
    {
      hide SocketAt, Apart, Known, OnSelect;
      ghost var v := socks[k];
      Separate(k);
      socks := socks[k := OnSelect(v, ready).s];
      SelectOn(s, ready, k, v);
      assert forall id :: id in all && id != k ==> SocketAt(id, all[id], socks[id]);
    }

    /** The Select step. */
    method MarkReady(s: ASocket, ready: set<Event>)
      requires Valid() && s in lists.repr
      modifies this`socks, s`fde
      ensures Valid() && Agrees(StepA(old(Seen([])), Select(old(s.ident), ready)))
    {
      hide SocketLists.Rings, SocketAt, Apart, Table, Known;
      ghost var k := s.ident;
      Has(s, k);
      SelectInTable(s, ready, k);
    }

    /** The event loop calls local_socket_event_func: the Fire step of the transition system. */
    method HandleEvent(s: ASocket, wcalls: seq<WriteCall>, rcalls: seq<ReadCall>)
      requires Valid() && s in lists.repr && s.fde.pending != {} && !s.freed
      modifies this`socks, this`out, s`peer, s`closing, s`freed, s`fde, s`book, s.owned
      modifies lists.active`items, lists.draining`items, lists.repr`next, lists.repr`prev, s`id
      modifies lists.active.head`next, lists.active.head`prev, lists.draining.head`next, lists.draining.head`prev
      ensures Valid() && Agrees(StepA(old(Seen([])), Fire(old(s.ident), wcalls, rcalls)))
    {
      hide SocketLists.Rings, SocketAt, OnEvent, Apart, Table, Known;
      ghost var k := s.ident;
      Has(s, k);
      var was := s.closing;
      EventInTable(s, wcalls, rcalls, k);
      Settle(s, was, k);
    }

    /** A packet for one live socket changes no list. */
    method PacketHere(s: ASocket, p: Packet, wcalls: seq<WriteCall>, ghost k: nat, ghost v: Socket)
      returns (sent: seq<Packet>)
      requires SocketAt(k, s, v) && v.status.Live? && !p.Open? && Outside(s) && s in lists.repr && lists.Rings()
      modifies s`peer, s`closing, s`freed, s`fde, s`book, s`owned, s.owned
      ensures var e := OnPacket(v, p, wcalls); SocketAt(k, s, e.s) && sent == e.Out()
      ensures fresh(s.owned - old(s.owned)) && lists.Rings() && lists.repr == old(lists.repr)
      ensures lists.active.items == old(lists.active.items) && lists.draining.items == old(lists.draining.items)
    {
      hide SocketAt, OnPacket, SocketLists.Rings;
      sent := PacketOn(s, p, wcalls, k, v);
    }

    /** A packet for one live socket, seen from the table; what the socket owns may grow. */
    method PacketAtSocket(s: ASocket, p: Packet, wcalls: seq<WriteCall>, ghost k: nat)
      requires Table() && Apart() && Known() && lists.Rings() && k in all && all[k] == s && socks[k].status.Live? && !p.Open?
      modifies this`socks, this`out, s`peer, s`closing, s`freed, s`fde, s`book, s`owned, s.owned
      ensures Table() && lists.Rings() && fresh(s.owned - old(s.owned))
      ensures var e := OnPacket(old(socks[k]), p, wcalls); socks == old(socks)[k := e.s] && out == old(out) + e.Out()
      ensures all == old(all) && installed == old(installed) && lists.repr == old(lists.repr)
      ensures lists.active.items == old(lists.active.items) && lists.draining.items == old(lists.draining.items)
    {
      hide SocketAt, OnPacket, Apart, Known, SocketLists.Rings;
      ghost var v := socks[k];
      Separate(k);
      socks := socks[k := OnPacket(v, p, wcalls).s];
      var sent := PacketHere(s, p, wcalls, k, v);
      out := out + sent;
      assert forall id :: id in all && id != k ==> SocketAt(id, all[id], socks[id]);
    }

    /** The same; what the sockets own stays apart. */
    method PacketInTable(s: ASocket, p: Packet, wcalls: seq<WriteCall>, ghost k: nat)
      requires Table() && Apart() && Known() && lists.Rings() && k in all && all[k] == s && socks[k].status.Live? && !p.Open?
      modifies this`socks, this`out, s`peer, s`closing, s`freed, s`fde, s`book, s`owned, s.owned
      ensures Table() && Apart() && Known() && lists.Rings()
      ensures var e := OnPacket(old(socks[k]), p, wcalls); socks == old(socks)[k := e.s] && out == old(out) + e.Out()
      ensures all == old(all) && installed == old(installed) && lists.repr == old(lists.repr)
      ensures lists.active.items == old(lists.active.items) && lists.draining.items == old(lists.draining.items)
    {
      hide SocketAt, OnPacket, SocketLists.Rings, Table, KnownOf;
      Separate(k);
      PacketAtSocket(s, p, wcalls, k);
      assert forall id :: id in all && id != k ==> all[id].owned == old(all[id].owned);
    }

    /** Nothing of the socket is in use by another one or by the lists. */
    ghost predicate Unused(s: ASocket)
      reads this`all, lists`repr, s`owned, all.Values`owned
    {
      && s !in lists.repr && s != lists.active.head && s != lists.draining.head && s !in s.owned && Outside(s)
      && forall id :: id in all ==> all[id] !in s.owned && all[id].owned !! s.owned && s !in all[id].owned
    }

    lemma GrowsApart(s: ASocket, k: nat)
      requires Apart() && Unused(s) && k !in all
      ensures ApartOf(all[k := s], lists.repr + {s})
    {
    }

    lemma GrowsKnown(s: ASocket, k: nat)
      requires Known() && Unused(s) && s.ident == k && k !in all
      ensures KnownOf(all[k := s], lists.repr + {s}) && forall id :: id in all ==> all[id] != s
    {
    }

    /** insert_local_socket, seen from the table. */
    method Enter(s: ASocket)
      requires Table() && Apart() && Known() && lists.Rings() && Unused(s)
      modifies lists`repr, lists.active`items
      modifies lists.active.head`next, lists.active.head`prev, lists.repr`next, lists.repr`prev, s`next, s`prev
      ensures Table() && lists.Rings()
      ensures lists.repr == old(lists.repr) + {s} && lists.active.items == old(lists.active.items) + [s]
    {
      hide SocketAt, SocketLists.Rings;
      lists.Enlist(s);
      assert forall id :: id in all ==> SocketAt(id, all[id], socks[id]);
    }

    /** The same, seen from the socket. */
    method EnterOne(s: ASocket, ghost k: nat, ghost v: Socket)
      requires Table() && Apart() && Known() && lists.Rings() && Unused(s) && SocketAt(k, s, v) && k !in all && s.ident == k
      modifies lists`repr, lists.active`items
      modifies lists.active.head`next, lists.active.head`prev, lists.repr`next, lists.repr`prev, s`next, s`prev
      ensures Table() && lists.Rings()
      ensures lists.repr == old(lists.repr) + {s} && lists.active.items == old(lists.active.items) + [s]
      ensures SocketAt(k, s, v) && ApartOf(all[k := s], lists.repr) && KnownOf(all[k := s], lists.repr)
    {
      hide SocketAt, SocketLists.Rings, Table, ApartOf, KnownOf;
      GrowsApart(s, k);
      GrowsKnown(s, k);
      Enter(s);
    }

    /** The table with one more socket. */
    method Record(s: ASocket, ghost v: Socket, sent: seq<Packet>)
      requires Table() && SocketAt(installed + 1, s, v) && ApartOf(all[installed + 1 := s], lists.repr)
      modifies this`installed, this`all, this`socks, this`out
      ensures Table() && installed == old(installed) + 1
      ensures all == old(all)[installed := s] && socks == old(socks)[installed := v] && out == old(out) + sent
    {
      hide SocketAt, ApartOf;
      var k := installed + 1;
      Excluded(all[k := s], lists.repr);
      forall id | id in all ensures this !in all[id].owned {
        assert id in all[k := s] && all[k := s][id] == all[id];
      }
      assert k in all[k := s] && all[k := s][k] == s;
      installed, all, socks, out := k, all[k := s], socks[k := v], out + sent;
      assert forall id :: id in all ==> SocketAt(id, all[id], socks[id]);
    }

    lemma Excluded(m: map<nat, ASocket>, repr: set<ASocket>)
      requires ApartOf(m, repr)
      ensures forall id :: id in m ==> this !in m[id].owned
    {
    }

    /** install_local_socket, seen from the table. */
    method AdmitInTable(s: ASocket, ghost v: Socket, sent: seq<Packet>)
      requires Table() && Apart() && Known() && lists.Rings() && installed + 1 !in all
      requires SocketAt(installed + 1, s, v) && s.ident == installed + 1 && Unused(s)
      modifies this`installed, this`all, this`socks, this`out, lists`repr, lists.active`items
      modifies lists.active.head`next, lists.active.head`prev, lists.repr`next, lists.repr`prev, s`next, s`prev
      ensures Table() && Apart() && Known() && lists.Rings()
      ensures installed == old(installed) + 1
      ensures all == old(all)[installed := s] && socks == old(socks)[installed := v] && out == old(out) + sent
      ensures lists.active.items == old(lists.active.items) + [s]
    {
      hide SocketAt, SocketLists.Rings, ApartOf, KnownOf, Unused, Outside, Table;
      EnterOne(s, installed + 1, v);
      Record(s, v, sent);
    }

    /** install_local_socket, and the packets that announce the socket. */
    method Admit(s: ASocket, ghost v: Socket, sent: seq<Packet>)
      requires Valid() && SocketAt(installed + 1, s, v) && v.status.Live? && s.ident == installed + 1
      requires Unused(s)
      modifies this`installed, this`all, this`socks, this`out, lists`repr, lists.active`items
      modifies lists.active.head`next, lists.active.head`prev, lists.repr`next, lists.repr`prev, s`next, s`prev
      ensures Valid() && installed == old(installed) + 1 && socks == old(socks)[installed := v] && out == old(out) + sent
    {
      hide SocketAt, SocketLists.Rings, ApartOf, KnownOf, Unused, Outside;
      ghost var k := installed + 1;
      GrowsKnown(s, k);
      AdmitInTable(s, v, sent);
      lists.Members();
      forall id | id in all ensures Placed(id) {
      }
    }

    /** A socket was installed after the ids had wrapped: it is last on the list, under an id that may be in use. */
    ghost predicate Reused(items: seq<ASocket>, count: nat, sent: seq<Packet>)
      reads *
    {
      && lists.Rings() && installed == count + 1 && out == sent
      && |lists.active.items| == |items| + 1 && lists.active.items[..|items|] == items
      && lists.active.items[|items|].id == NextId(count)
    }

    /** install_local_socket then; the steps are the same. */
    method InstallReused(s: ASocket, sent: seq<Packet>)
      requires lists.Rings() && s !in lists.repr && s != lists.active.head && s != lists.draining.head
      requires s.id == NextId(installed)
      modifies this`installed, this`out, lists`repr, lists.active`items
      modifies lists.active.head`next, lists.active.head`prev, lists.repr`next, lists.repr`prev, s`next, s`prev
      ensures Reused(old(lists.active.items), old(installed), old(out) + sent)
    {
      hide SocketLists.Rings;
      lists.Enlist(s);
      installed, out := installed + 1, out + sent;
    }

    /** connect_to_remote for a new local socket: the Connect step, as long as ids are not used up. */
    method ConnectToRemote()
      requires Valid()
      modifies this`installed, this`all, this`socks, this`out, lists`repr, lists.active`items
      modifies lists.active.head`next, lists.active.head`prev, lists.repr`next, lists.repr`prev
      ensures if old(installed) + 1 < ID_SPACE then Valid() && Agrees(StepA(old(Seen([])), Connect))
              else Reused(old(lists.active.items), old(installed), old(out) + [Open(NextId(old(installed)))])
    {
      hide SocketAt, SocketLists.Rings, Apart, Known, Table, Members, Reused;
      var s := CreateLocal(NextId(installed));
      if installed + 1 < ID_SPACE {
        assert Unused(s);
        Admit(s, NewSocket(installed + 1, true, None), [Open(s.id)]);
      } else {
        InstallReused(s, [Open(s.id)]);
      }
    }

    /** send_packet */
    method SendPacket(p: Packet)
      requires Valid()
      modifies this`out
      ensures Valid() && out == old(out) + [p]
    {
      hide SocketAt, SocketLists.Rings, ApartOf, KnownOf, Placed;
      Excluded(all, lists.repr);
      out := out + [p];
      assert forall id :: id in all ==> SocketAt(id, all[id], socks[id]);
    }

    /** The OPEN branch of handle_packet; `accepted` says whether the service starts. */
    method HandleOpen(p: Packet, wcalls: seq<WriteCall>, accepted: bool)
      requires Valid() && p.Open?
      modifies this`installed, this`all, this`socks, this`out, lists`repr, lists.active`items
      modifies lists.active.head`next, lists.active.head`prev, lists.repr`next, lists.repr`prev
      ensures if accepted ==> old(installed) + 1 < ID_SPACE
              then Valid() && Agrees(StepA(old(Seen([p])), Receive(wcalls, accepted)))
              else Reused(old(lists.active.items), old(installed), old(out) + [Okay(NextId(old(installed)), p.arg0)])
    {
      hide SocketAt, SocketLists.Rings, Apart, Known, Table, Members, Reused;
      if !accepted {
        SendPacket(Clse(0, p.arg0));
        return;
      }
      var s := CreateService(NextId(installed), p.arg0);
      if installed + 1 < ID_SPACE {
        assert Unused(s);
        Admit(s, Acceptor(installed + 1, p.arg0), [Okay(s.id, s.peer.id)]);
      } else {
        InstallReused(s, [Okay(s.id, s.peer.id)]);
      }
    }

    lemma LiveIs(k: nat)
      requires Valid() && k in all && socks[k].status.Live?
      ensures all.Keys == socks.Keys && all[k] in lists.repr && all[k] in lists.active.items && all[k] !in lists.draining.items
    {
    }

    /** The other branches, for a packet that finds its socket. */
    method HandleFound(s: ASocket, p: Packet, wcalls: seq<WriteCall>)
      requires Valid() && !p.Open? && p.arg1 in all && all[p.arg1] == s && socks[p.arg1].status.Live?
      modifies this`socks, this`out, s`peer, s`closing, s`freed, s`fde, s`book, s`owned, s.owned
      modifies lists.active`items, lists.draining`items, lists.repr`next, lists.repr`prev, s`id
      modifies lists.active.head`next, lists.active.head`prev, lists.draining.head`next, lists.draining.head`prev
      ensures Valid()
      ensures var e := OnPacket(old(socks[p.arg1]), p, wcalls); socks == old(socks)[p.arg1 := e.s] && out == old(out) + e.Out()
      ensures installed == old(installed) && all == old(all)
      ensures lists.active.items == Others(old(lists.active.items), s, socks[p.arg1].status.Live?)
      ensures forall x :: x in lists.repr && x != s ==>
                x.peer == old(x.peer) && x.ident == old(x.ident) && x.owned == old(x.owned)
      ensures lists.repr == old(lists.repr)
    {
      hide SocketLists.Rings, SocketAt, OnPacket, Apart, Table, Known;
      LiveIs(p.arg1);
      Separate(p.arg1);
      PacketInTable(s, p, wcalls, p.arg1);
      Settle(s, false, p.arg1);
    }

    /** handle_packet, on an online transport: the Receive step, as long as ids are not used up. */
    method HandlePacket(p: Packet, wcalls: seq<WriteCall>, accepted: bool)
      requires Valid()
      modifies this, lists, lists.active, lists.draining, lists.active.head, lists.draining.head
      modifies lists.repr, set s, o | s in lists.repr && o in s.owned :: o
      ensures if p.Open? && accepted ==> old(installed) + 1 < ID_SPACE
              then Valid() && Agrees(StepA(old(Seen([p])), Receive(wcalls, accepted)))
              else Reused(old(lists.active.items), old(installed), old(out) + [Okay(NextId(old(installed)), p.arg0)])
    {
      hide SocketLists.Rings, SocketAt, OnPacket, Apart, Table, Known, Reused;
      if p.Open? {
        HandleOpen(p, wcalls, accepted);
      } else {
        var s := FindLocal(p.arg1);
        if s != null {
          LiveIs(p.arg1);
          HandleFound(s, p, wcalls);
        } else {
          assert p.arg1 in socks ==> socks == socks[p.arg1 := socks[p.arg1]];
          assert out + [] == out;
        }
      }
    }

    /** Close the first socket of the list that is bound to t, at position i. */
    method CloseBound(s: ASocket, t: nat, ghost i: nat)
      requires Valid() && i < |lists.active.items| && lists.active.items[i] == s && Bound(s, t)
      requires forall k :: 0 <= k < i ==> !Bound(lists.active.items[k], t)
      modifies this`socks, this`out, s`peer, s`closing, s`freed, s`fde, s`book, s`owned, s.owned
      modifies lists.active`items, lists.draining`items, lists.repr`next, lists.repr`prev, s`id
      modifies lists.active.head`next, lists.active.head`prev, lists.draining.head`next, lists.draining.head`prev
      ensures Valid() && installed == old(installed) && all == old(all) && lists.repr == old(lists.repr)
      ensures lists.active.items == Without(old(lists.active.items), {s}) && |lists.active.items| < |old(lists.active.items)|
      ensures CloseEach(Closed(socks, out), BoundIds(lists.active.items, t)) ==
              CloseEach(Closed(old(socks), old(out)), old(BoundIds(lists.active.items, t)))
      ensures forall x :: x in lists.active.items ==> x in old(lists.active.items) && x.owned == old(x.owned)
    {
      hide SocketLists.Rings, SocketAt, Apart, Table, Known, Close, Bound, BoundIds;
      ghost var k, items := s.ident, lists.active.items;
      lists.Members();
      Has(s, k);
      Separate(k);
      Ordered();
      WithoutFacts(items, {s});
      BoundFirst(items, i, t);
      ghost var rest := BoundIds(Without(items, {s}), t);
      CloseEnds(socks[k]);
      HandleFound(s, Clse(0, s.id), []);
      assert BoundIds(lists.active.items, t) == rest;
    }

    lemma Ordered()
      requires lists.Rings()
      ensures Distinct(lists.active.items)
    {
      DistinctTail(lists.active.head, lists.active.items);
    }

    /**
     * close_all_sockets: exactly the live sockets bound to the transport are closed, one after the
     * other in the order of the list, though the scan starts over after each.
     */
    method CloseAll(t: nat)
      requires Valid()
      modifies this, lists, lists.active, lists.draining, lists.active.head, lists.draining.head
      modifies lists.repr, set s, o | s in lists.repr && o in s.owned :: o
      ensures Valid() && installed == old(installed)
      ensures Closed(socks, out) == CloseEach(Closed(old(socks), old(out)), old(BoundIds(lists.active.items, t)))
      ensures forall s :: s in lists.active.items ==> s.transport != t && (s.peer == null || s.peer.transport != t)
    {
      hide SocketLists.Rings, SocketAt, Apart, Table, Known, Close, CloseEach, BoundIds, Without, Distinct, Members;
      lists.Members();
      lists.FirstIsAt();
      var s: ASocket := lists.active.head.next;
      ghost var i := 0;
      while s != lists.active.head
        invariant Valid() && lists.At(s, i) && installed == old(installed) && lists.repr == old(lists.repr)
        invariant forall x :: x in lists.active.items ==> x in lists.repr && x.owned == old(x.owned)
        invariant forall k :: 0 <= k < i ==> !Bound(lists.active.items[k], t)
        invariant CloseEach(Closed(socks, out), BoundIds(lists.active.items, t)) ==
                  CloseEach(Closed(old(socks), old(out)), old(BoundIds(lists.active.items, t)))
        decreases |lists.active.items|, |lists.active.items| - i
      {
        lists.NextIsAt(s, i);
        if Bound(s, t) {
          CloseBound(s, t, i);
          lists.FirstIsAt();
          s, i := lists.active.head.next, 0;
        } else {
          s, i := s.next, i + 1;
        }
      }
      lists.EndIsHead(i);
      NoneBound(lists.active.items, t);
      assert CloseEach(Closed(socks, out), []) == Closed(socks, out) by { NothingClosed(Closed(socks, out)); }
    }

    /** The two rings of a process, with connected streams or without, are what `SocketLists` works on. */
    lemma ListsAreValid()
      requires Valid()
      ensures lists.Valid()
    {
      hide SocketLists.Rings, Apart, SocketAt;
      lists.Members();
      forall s | s in lists.repr
        ensures s.local && (s.peer != null ==> !s.peer.local)
        ensures s in lists.active.items ==> !s.closing
        ensures s in lists.draining.items ==> s.closing && s.peer == null
      {
        PeerIsRemote(s.ident, s, socks[s.ident]);
      }
    }

    lemma Has(s: ASocket, k: nat)
      requires Known() && Table() && s in lists.repr && k == s.ident
      ensures all.Keys == socks.Keys && k in all && all[k] == s
      ensures socks[k].fde == s.fde && (s.freed <==> socks[k].status.Dead?)
      ensures !s.freed ==> (s.closing <==> socks[k].status.Closing?)
      ensures socks[k].status.Live? ==> s.id == k
    {
      hide SocketAt;
      AtSocket(k, s, socks[k]);
      AtMeans(k, s, socks[k]);
    }
  }

  lemma PeerIsRemote(id: nat, s: ASocket, v: Socket)
    requires SocketAt(id, s, v)
    ensures s.local && (s.peer != null ==> !s.peer.local)
    ensures (v.status.Live? ==> !s.closing) && (v.status.Closing? ==> s.closing && s.peer == null)
  {
  }

  lemma CloseEnds(v: Socket)
    ensures !Close(v, PeerClosed).s.status.Live?
  {
  }

  lemma NothingClosed(c: Closed)
    ensures CloseEach(c, []) == c
  {
  }

  lemma AtSocket(id: nat, s: ASocket, v: Socket)
    requires SocketAt(id, s, v)
    ensures v.fde == s.fde && v.status == s.book.status && (s.freed <==> v.status.Dead?)
    ensures !s.freed ==> (s.closing <==> v.status.Closing?)
  {
  }

  lemma FitsAt(id: nat, s: ASocket, v: Socket)
    requires s !in s.owned && s.queue in s.owned && Owns(s)
    requires s.queue.Valid() && SocketFits(s) && s.book.id == id && Value(s) == v
    ensures SocketAt(id, s, v)
  {
  }

  lemma AtFits(id: nat, s: ASocket, v: Socket)
    requires SocketAt(id, s, v)
    ensures s !in s.owned && s.queue in s.owned && Owns(s)
    ensures s.queue.Valid() && SocketFits(s) && s.book.id == id && Value(s) == v
  {
  }

  /** The bytes that a socket in memory has still to write. */
  ghost function Unwritten(s: ASocket): seq<byte>
    requires s.queue.Valid()
    reads s.queue, s.queue.packets
  {
    Flatten(s.queue.Contents())
  }

  lemma AtBook(id: nat, s: ASocket, v: Socket)
    requires SocketAt(id, s, v)
    ensures s.queue.Valid() && v.taken == s.book.taken && v.written == s.book.written && Flatten(v.queue) == Unwritten(s)
  {
  }

  /**
   * Two processes in memory that came about together: in any stream with a live receiver, the bytes
   * read at one end are those written at the other, then those in its packets, then those under way.
   */
  lemma MemoryFidelity(e: Endpoint, f: Endpoint, js: seq<Joint>, k: nat, d: nat)
    requires IsHistory(js) && e.Valid() && f.Valid()
    requires var j := js[|js| - 1]; j.a == e.Look() && j.b == f.Look() && j.Fits() && Bounded(NetOf(j)) && Partner(NetOf(j), k, d)
    requires d in f.all && f.all[d] in f.lists.active.items
    ensures k in e.all && f.all[d].queue.Valid()
    ensures var j, s, r := js[|js| - 1], e.all[k], f.all[d];
            s.book.taken == r.book.written + Unwritten(r) + Data(Inbox(e.out[j.tookB..], d))
  {
    hide SocketAt, SocketLists.Rings, Endpoint.Apart, Endpoint.Known;
    var j := js[|js| - 1];
    HistoryIsRun(js);
    StreamFidelity(NetOf(j), k, d);
    AtBook(k, e.all[k], e.socks[k]);
    AtBook(d, f.all[d], f.socks[d]);
  }
}
