/**
 * close_all_sockets of core/adb/sockets.c on the two socket rings: closing a socket
 * takes its local peer along and changes the ring under the scan, which restarts.
 */
module SocketList {
  import opened Lists
  import opened PacketQueues
  import opened SocketRings
  import opened Sockets

  /** The test of close_all_sockets: bound to t directly or through the peer. */
  predicate Bound(s: ASocket, t: nat)
    reads s`peer
  {
    s.transport == t || (s.peer != null && s.peer.transport == t)
  }

  /** Packets are queued for the descriptor. */
  predicate Backlog(s: ASocket)
    reads s.queue`first
  {
    s.queue.first != null
  }

  class SocketLists {
    /** local_socket_list and local_socket_closing_list */
    const active: SocketRing
    const draining: SocketRing
    /** The peers that are not local and were told to close, in order. */
    var told: seq<ASocket>
    ghost var repr: set<ASocket>

    constructor ()
      ensures Valid() && active.items == [] && draining.items == [] && told == [] && repr == {}
      ensures fresh(active) && fresh(draining) && fresh(active.head) && fresh(draining.head)
    {
      active := new SocketRing();
      draining := new SocketRing();
      told, repr := [], {};
    }

    ghost predicate Rings()
      reads this`repr, active`items, draining`items, active.head`next, active.head`prev, draining.head`next, draining.head`prev
      reads repr`next, repr`prev
    {
      && active != draining && active.head != draining.head
      && active.head !in repr && draining.head !in repr
      && (forall s :: s in active.items ==> s in repr && s !in draining.items)
      && (forall s :: s in draining.items ==> s in repr)
      && active.Valid() && draining.Valid()
    }

    /** A peer that is local is active too, and points back. A peer that is remote is on no list. */
    ghost predicate ActiveOk()
      reads this`repr, active`items, active.items, repr
    {
      forall s :: s in active.items ==>
        && s in repr && s.local && !s.closing && s.peer != s
        && (s.peer != null && s.peer.local ==> s.peer in active.items && s.peer in repr && s.peer.peer == s)
    }

    ghost predicate DrainingOk()
      reads this`repr, draining`items, draining.items
    {
      forall s :: s in draining.items ==> s.closing && s.peer == null
    }

    /** The closing sockets have something to write. */
    ghost predicate Waiting()
      reads draining`items, set s | s in draining.items :: s.queue
    {
      forall s :: s in draining.items ==> Backlog(s)
    }

    ghost predicate Valid()
      reads this, active, draining, active.head, draining.head, repr, active.items, draining.items
    {
      Rings() && ActiveOk() && DrainingOk()
    }

    /** What closing s takes off the active ring. */
    ghost function Doomed(s: ASocket): set<ASocket>
      reads s`peer
    {
      {s} + if s.peer != null && s.peer.local then {s.peer} else {}
    }

    /** remove_socket on an active socket. */
    method TakeOff(s: ASocket)
      requires Rings() && s in active.items
      modifies active`items, active.head`next, active.head`prev, repr`next, repr`prev, s`id
      ensures Rings() && active.items == Without(old(active.items), {s})
      ensures forall x :: x in active.items <==> x in old(active.items) && x != s
    {
      ghost var was := active.items;
      WithoutFacts(was, {s});
      active.Remove(s);
      assert forall x :: x in draining.items ==> x.next == old(x.next) && x.prev == old(x.prev);
      assert draining.head.next == old(draining.head.next) && draining.head.prev == old(draining.head.prev);
    }

    /** insert_local_socket on the closing list. */
    method Keep(s: ASocket)
      requires Rings() && s in repr && s !in active.items && s !in draining.items
      modifies draining`items, draining.head`next, draining.head`prev, repr`next, repr`prev
      ensures Rings() && draining.items == old(draining.items) + [s]
    {
      draining.Insert(s);
      assert forall x :: x in active.items ==> x.next == old(x.next) && x.prev == old(x.prev);
      assert active.head.next == old(active.head.next) && active.head.prev == old(active.head.prev);
    }

    /** remove_socket on a closing socket. */
    method Finish(s: ASocket)
      requires Rings() && s in draining.items
      modifies draining`items, draining.head`next, draining.head`prev, repr`next, repr`prev, s`id
      ensures Rings() && draining.items == Without(old(draining.items), {s})
      ensures forall x :: x in draining.items <==> x in old(draining.items) && x != s
    {
      ghost var was := draining.items;
      WithoutFacts(was, {s});
      draining.Remove(s);
      assert forall x :: x in active.items ==> x.next == old(x.next) && x.prev == old(x.prev);
      assert active.head.next == old(active.head.next) && active.head.prev == old(active.head.prev);
    }

    /** install_local_socket on a socket that is on no list. */
    method Enlist(s: ASocket)
      requires Rings() && s !in repr && s != active.head && s != draining.head
      modifies this`repr, active`items, active.head`next, active.head`prev, repr`next, repr`prev, s`next, s`prev
      ensures Rings() && repr == old(repr) + {s} && active.items == old(active.items) + [s]
    {
      active.Insert(s);
      repr := repr + {s};
      assert forall x :: x in draining.items ==> x.next == old(x.next) && x.prev == old(x.prev);
      assert draining.head.next == old(draining.head.next) && draining.head.prev == old(draining.head.prev);
    }

    /** Destroy a socket without a peer, or keep it for draining if packets are queued. */
    method Retire(s: ASocket)
      requires Valid() && s in active.items && s.peer == null
      modifies active`items, draining`items, active.head`next, active.head`prev, draining.head`next, draining.head`prev
      modifies repr`next, repr`prev, s`id, s`closing, s`fde
      ensures Valid()
      ensures active.items == Without(old(active.items), {s})
      ensures draining.items == old(draining.items) + (if Backlog(s) then [s] else [])
      ensures old(Waiting()) ==> Waiting()
    {
      hide Rings, Without, SocketRing.Valid;
      Members();
      TakeOff(s);
      if s.queue.first != null {
        s.closing := true;
        s.fde := FdeSet(s.fde, s.fde.wants - {Read});
        Keep(s);
      }
    }

    lemma Members()
      requires Rings()
      ensures forall s :: s in active.items ==> s in repr && s !in draining.items
      ensures forall s :: s in draining.items ==> s in repr
    {
    }

    /** Part a socket from its peer. */
    method Part(s: ASocket) returns (p: ASocket)
      requires Valid() && s in active.items && s.peer != null
      modifies s`peer, s.peer`peer
      ensures Valid() && p == old(s.peer) && p != s && s.peer == null && p.peer == null
      ensures p.local ==> p in active.items
    {
      hide Rings;
      Members();
      p := s.peer;
      p.peer := null;
      s.peer := null;
    }

    /** local_socket_close_locked, for a socket that is not closing yet. */
    method CloseLocked(s: ASocket)
      requires Valid() && s in active.items
      modifies this`told, active`items, draining`items, active.head`next, active.head`prev, draining.head`next, draining.head`prev
      modifies repr`next, repr`prev, repr`id, repr`closing, repr`fde, repr`peer
      modifies Peers(s)`peer
      ensures Valid()
      ensures active.items == Without(old(active.items), old(Doomed(s)))
      ensures draining.items == old(draining.items) +
                (if old(s.peer != null && s.peer.local && Backlog(s.peer)) then [old(s.peer)] else []) +
                (if Backlog(s) then [s] else [])
      ensures told == old(told) + (if old(s.peer != null && !s.peer.local) then [old(s.peer)] else [])
      ensures forall x :: x in repr && x !in old(Doomed(s)) && x != old(s.peer) ==> x.peer == old(x.peer)
      ensures old(Waiting()) ==> Waiting()
      decreases s.peer != null
    {
      hide Rings, DrainingOk, Without, SocketRing.Valid;
      ghost var doomed := Doomed(s);
      if s.peer != null {
        var p := Part(s);
        if p.local {
          assert Doomed(p) == {p};
          WithoutFacts(active.items, {p});
          CloseLocked(p);
          WithoutTwice(old(active.items), {p}, {s});
          assert doomed == {p} + {s};
        } else {
          assert doomed == {s};
          told := told + [p];
        }
      } else {
        assert doomed == {s};
      }
      Retire(s);
    }

    /** The sockets on the active ring that close_all_sockets(t) is to close. */
    ghost function BoundTo(t: nat): set<ASocket>
      reads active`items, active.items`peer
    {
      set s | s in active.items && Bound(s, t)
    }

    /** The peers of all sockets on the active ring. */
    ghost function AllPeers(): set<ASocket>
      reads active`items, active.items`peer
    {
      set s, p | s in active.items && p in Peers(s) :: p
    }

    /** A closed socket is kept if it has a backlog, and its remote peer, if any, was told. */
    ghost predicate Handled(s: ASocket, peer: ASocket?)
      reads this`told, draining`items, s.queue`first
    {
      && (Backlog(s) ==> s in draining.items)
      && (peer != null && !peer.local ==> peer in told)
    }

    /** A peer that goes along is bound itself. */
    lemma DoomedAreBound(s: ASocket, t: nat)
      requires ActiveOk() && s in active.items && Bound(s, t)
      ensures forall x :: x in Doomed(s) ==> x in active.items && Bound(x, t)
    {
    }

    /** Close a bound socket found by the scan. */
    method CloseFound(s: ASocket, t: nat) returns (ghost doomed: set<ASocket>)
      requires Valid() && s in active.items && Bound(s, t)
      modifies this`told, active`items, draining`items, active.head`next, active.head`prev, draining.head`next, draining.head`prev
      modifies repr`next, repr`prev, repr`id, repr`closing, repr`fde, repr`peer
      modifies Peers(s)`peer
      ensures Valid()
      ensures doomed <= old(BoundTo(t)) && active.items == Without(old(active.items), doomed)
      ensures |active.items| < |old(active.items)|
      ensures forall x :: x in active.items ==> x in old(active.items) && x.peer == old(x.peer)
      ensures old(draining.items) <= draining.items && old(told) <= told
      ensures forall x :: x in doomed ==> Handled(x, old(x.peer))
      ensures old(Waiting()) ==> Waiting()
    {
      hide Rings, DrainingOk;
      doomed := Doomed(s);
      DoomedAreBound(s, t);
      WithoutFacts(active.items, doomed);
      assert s in doomed;
      CloseLocked(s);
    }

    /** The socket at position i of the ring, or the sentinel at its end. */
    ghost predicate At(s: ASocket, i: nat)
      reads active`items
    {
      i <= |active.items| && s == if i < |active.items| then active.items[i] else active.head
    }

    lemma FirstIsAt()
      requires Rings()
      ensures active.head.next != null && At(active.head.next, 0)
    {
      var ring := [active.head] + active.items;
      assert active.head.next == if |ring| == 1 then ring[0] else ring[1];
    }

    lemma NextIsAt(s: ASocket, i: nat)
      requires Rings() && i < |active.items| && At(s, i)
      ensures s != active.head && s in active.items && s.next != null && At(s.next, i + 1)
    {
      var ring := [active.head] + active.items;
      assert ring[i + 1] == s && s.next == if i + 2 < |ring| then ring[i + 2] else ring[0];
    }

    lemma EndIsHead(i: nat)
      requires Rings() && At(active.head, i)
      ensures i == |active.items|
    {
      if i < |active.items| {
        NextIsAt(active.head, i);
      }
    }

    /**
     * close_all_sockets: exactly the sockets bound to t leave the active ring, the
     * others keep their order and their peers. The scan starts over after each close.
     */
    method CloseAll(t: nat)
      requires Valid()
      modifies this`told, active`items, draining`items, active.head`next, active.head`prev, draining.head`next, draining.head`prev
      modifies repr`next, repr`prev, repr`id, repr`closing, repr`fde, repr`peer
      modifies AllPeers()`peer
      ensures Valid()
      ensures active.items == Without(old(active.items), old(BoundTo(t)))
      ensures forall s :: s in active.items ==> s.peer == old(s.peer)
      ensures forall s :: s in old(active.items) ==>
                (s in active.items <==> s.transport != t && (old(s.peer) == null || old(s.peer).transport != t))
      ensures forall s :: s in old(BoundTo(t)) ==> Handled(s, old(s.peer))
      ensures old(Waiting()) ==> Waiting()
    {
      hide Rings, DrainingOk, ActiveOk, Without, Distinct, SocketRing.Valid;
      ghost var gone: set<ASocket> := {};
      WithoutFacts(active.items, {});
      FirstIsAt();
      var s: ASocket := active.head.next;
      ghost var i := 0;
      while s != active.head
        invariant Valid() && At(s, i)
        invariant gone <= old(BoundTo(t)) && active.items == Without(old(active.items), gone)
        invariant forall x :: x in active.items ==> x in old(active.items) && x.peer == old(x.peer)
        invariant forall k :: 0 <= k < i ==> !Bound(active.items[k], t)
        invariant forall x :: x in gone ==> Handled(x, old(x.peer))
        invariant old(Waiting()) ==> Waiting()
        decreases |active.items|, |active.items| - i
      {
        NextIsAt(s, i);
        if Bound(s, t) {
          ghost var doomed := CloseFound(s, t);
          WithoutTwice(old(active.items), gone, doomed);
          gone := gone + doomed;
          FirstIsAt();
          s, i := active.head.next, 0;
        } else {
          s, i := s.next, i + 1;
        }
      }
      EndIsHead(i);
      WithoutFacts(old(active.items), gone);
      assert gone == old(BoundTo(t));
    }
  }
}
