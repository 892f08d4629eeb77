/**
 * The asocket of core/adb/adb.h and the rings of sockets in core/adb/sockets.c, doubly linked
 * through the sockets themselves around a sentinel.
 */
module SocketRings {
  import opened Lists
  import opened PacketQueues
  import opened Sockets

  class ASocket {
    var next: ASocket?
    var prev: ASocket?
    var id: nat
    var closing: bool
    /** The memory was given back; no later step looks at the socket. */
    var freed: bool
    var peer: ASocket?
    var fde: Fde
    /** pkt_first and pkt_last */
    const queue: PacketQueue
    /** A local socket has a descriptor and is on one of the lists; a remote or smart one is not. */
    const local: bool
    /** 0 is no transport. */
    const transport: nat
    /** What `Sockets.Socket` says of a local socket beyond the fields above; the queue is that of the packets. */
    ghost var book: Socket
    /** The id it was installed with. */
    ghost var ident: nat
    /** The objects that belong to the socket: its queue, its packets and its peer. */
    ghost var owned: set<object>

    constructor (id: nat, local: bool, transport: nat)
      ensures this.id == id && this.local == local && this.transport == transport
      ensures next == null && prev == null && peer == null && !closing && !freed && fde == IDLE
      ensures fresh(queue) && queue.Valid() && queue.packets == []
    {
      this.id, this.local, this.transport := id, local, transport;
      next, prev, peer, closing, freed, fde := null, null, null, false, false, IDLE;
      queue := new PacketQueue();
    }
  }

  /** The peer of a socket, if any. */
  ghost function Peers(s: ASocket): set<ASocket>
    reads s`peer
  {
    if s.peer == null then {} else {s.peer}
  }

  class SocketRing {
    const head: ASocket
    ghost var items: seq<ASocket>

    ghost predicate Valid()
      reads this`items, head`next, head`prev, items`next, items`prev
    {
      Linked([head] + items)
    }

    /** Each socket points to the next one and back, the last one to the first. */
    static ghost predicate Linked(ring: seq<ASocket>)
      reads ring`next, ring`prev
    {
      && ring != [] && Distinct(ring)
      && (forall i :: 0 <= i < |ring| - 1 ==> ring[i].next == ring[i + 1])
      && (forall i :: 1 <= i < |ring| ==> ring[i].prev == ring[i - 1])
      && ring[|ring| - 1].next == ring[0]
      && ring[0].prev == ring[|ring| - 1]
    }

    constructor ()
      ensures Valid() && items == [] && fresh(head)
    {
      var h := new ASocket(0, false, 0);
      head, items := h, [];
      new;
      head.next, head.prev := head, head;
    }

    static method Link(s: ASocket, head: ASocket, ghost ring: seq<ASocket>)
      requires ring != [] && ring[0] == head && s !in ring && Linked(ring)
      modifies ring`next, ring`prev, s`next, s`prev
      ensures Linked(ring + [s])
    {
      s.next := head;
      s.prev := s.next.prev;
      s.prev.next := s;
      s.next.prev := s;
    }

    static method Unlink(s: ASocket, ghost ring: seq<ASocket>, ghost k: nat)
      requires 0 < k < |ring| && ring[k] == s && Linked(ring)
      modifies ring`next, ring`prev
      ensures Linked(ring[..k] + ring[k + 1..]) && s.next == null && s.prev == null
    {
      ghost var after := if k + 1 < |ring| then ring[k + 1] else ring[0];
      assert s.prev == ring[k - 1] && s.next == after;
      s.prev.next := s.next;
      s.next.prev := s.prev;
      s.next := null;
      s.prev := null;
      ghost var rest := ring[..k] + ring[k + 1..];
      assert forall i :: 0 <= i < k ==> rest[i] == ring[i];
      assert forall i :: k <= i < |rest| ==> rest[i] == ring[i + 1];
    }

    /** insert_local_socket */
    method Insert(s: ASocket)
      requires Valid() && s !in items && s != head
      modifies this`items, s`next, s`prev, head`next, head`prev, items`next, items`prev
      ensures Valid() && items == old(items) + [s]
    {
      Link(s, head, [head] + items);
      assert [head] + items + [s] == [head] + (items + [s]);
      items := items + [s];
    }

    /** remove_socket, on a socket of this ring. */
    method Remove(s: ASocket)
      requires Valid() && s in items
      modifies this`items, s`id, head`next, head`prev, items`next, items`prev
      ensures Valid() && items == Without(old(items), {s})
      ensures s.id == 0 && s.next == null && s.prev == null
    {
      ghost var k := Position(head, items, s);
      Unlink(s, [head] + items, k);
      items := Without(items, {s});
      s.id := 0;
    }

    /** find_local_socket: the first socket of the list with this id. */
    method Find(id: nat) returns (s: ASocket?)
      requires Valid()
      ensures s == null <==> forall x :: x in items ==> x.id != id
      ensures s != null ==> s in items && s.id == id
      ensures s != null ==> exists i :: 0 <= i < |items| && items[i] == s && forall k :: 0 <= k < i ==> items[k].id != id
    {
      ghost var ring, i := [head] + items, 1;
      assert head.next == if |ring| == 1 then ring[0] else ring[1];
      s := head.next;
      while s != head
        invariant 1 <= i <= |ring| && s == if i < |ring| then ring[i] else head
        invariant forall k :: 1 <= k < i ==> ring[k].id != id
        decreases |ring| - i
      {
        if s.id == id {
          assert items[i - 1] == s && forall k :: 0 <= k < i - 1 ==> items[k] == ring[k + 1];
          return;
        }
        assert ring[i].next == if i + 1 < |ring| then ring[i + 1] else ring[0];
        s := s.next;
        i := i + 1;
      }
      assert i == |ring|;
      forall x | x in items ensures x.id != id {
        var k :| 0 <= k < |items| && items[k] == x;
        assert ring[k + 1] == x;
      }
      s := null;
    }
  }
}
