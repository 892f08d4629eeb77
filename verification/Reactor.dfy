/**
 * The select-based event loop of core/adb/fdevent.c: descriptor table, select sets,
 * select_n and the intrusive list of pending fdevents, all kept in agreement.
 * The low byte of an fdevent's state and its events word are sets of flags here.
 */
module Reactor {
  import opened Basics
  import opened Lists

  /** The flags of fdevent.h. FDE_DONT_CLOSE lies within FDE_EVENTMASK. */
  datatype Flag = Read | Write | Error | Timeout | DontClose

  class FdEvent {
    var next: FdEvent?
    var prev: FdEvent?
    var fd: int
    /** state & FDE_EVENTMASK */
    var mask: set<Flag>
    var active: bool
    var pending: bool
    var events: set<Flag>

    constructor ()
    {
      next, prev, fd, mask, active, pending, events := null, null, 0, {}, false, false, {};
    }
  }

  /** list_pending: a circular doubly linked list through the fdevents themselves. */
  class PendingList {
    const head: FdEvent
    ghost var items: seq<FdEvent>

    ghost predicate Valid()
      reads this`items, head`next, head`prev, items`next, items`prev
    {
      Linked([head] + items)
    }

    /** Each node points to the next one and back, the last one to the first. */
    static ghost predicate Linked(ring: seq<FdEvent>)
      reads ring`next, ring`prev
    {
      && ring != [] && Distinct(ring)
      && (forall i :: 0 <= i < |ring| - 1 ==> ring[i].next == ring[i + 1])
      && (forall i :: 1 <= i < |ring| ==> ring[i].prev == ring[i - 1])
      && ring[|ring| - 1].next == ring[0]
      && ring[0].prev == ring[|ring| - 1]
    }

    /** Take the node at position k out of a ring. */
    static method Unlink(node: FdEvent, ghost ring: seq<FdEvent>, ghost k: nat)
      requires 0 < k < |ring| && ring[k] == node && Linked(ring)
      modifies ring`next, ring`prev
      ensures Linked(ring[..k] + ring[k + 1..])
    {
      ghost var after := if k + 1 < |ring| then ring[k + 1] else ring[0];
      assert node.prev == ring[k - 1] && node.next == after;
      node.prev.next := node.next;
      node.next.prev := node.prev;
      node.next := null;
      node.prev := null;
      ghost var rest := ring[..k] + ring[k + 1..];
      assert forall i :: 0 <= i < k ==> rest[i] == ring[i];
      assert forall i :: k <= i < |rest| ==> rest[i] == ring[i + 1];
    }

    /** Take out the node after the head, through the head's own pointer. */
    static method UnlinkFirst(head: FdEvent, ghost ring: seq<FdEvent>) returns (node: FdEvent)
      requires |ring| > 1 && ring[0] == head && Linked(ring)
      modifies ring`next, ring`prev
      ensures node == ring[1] && Linked(ring[..1] + ring[2..])
    {
      assert ring[0].next == ring[1];
      node := head.next;
      assert node.next == if 2 < |ring| then ring[2] else ring[0];
      head.next := node.next;
      head.next.prev := head;
      node.next := null;
      node.prev := null;
      ghost var rest := ring[..1] + ring[2..];
      assert forall i :: 1 <= i < |rest| ==> rest[i] == ring[i + 1];
    }

    /** Put a node in at the end of a ring. */
    static method Append(node: FdEvent, head: FdEvent, ghost ring: seq<FdEvent>)
      requires ring != [] && ring[0] == head && node !in ring && Linked(ring)
      modifies ring`next, ring`prev, node`next, node`prev
      ensures Linked(ring + [node])
    {
      node.next := head;
      node.prev := head.prev;
      node.prev.next := node;
      head.prev := node;
    }

    constructor ()
      ensures Valid() && items == [] && fresh(head)
    {
      var h := new FdEvent();
      head, items := h, [];
      new;
      head.next, head.prev := head, head;
    }

    /** fdevent_plist_enqueue */
    method Enqueue(node: FdEvent)
      requires Valid() && node !in items && node != head
      modifies this`items, node`next, node`prev, head`next, head`prev, items`next, items`prev
      ensures Valid() && items == old(items) + [node]
    {
      Append(node, head, [head] + items);
      assert [head] + items + [node] == [head] + (items + [node]);
      items := items + [node];
    }

    /** fdevent_plist_remove */
    method Remove(node: FdEvent)
      requires Valid() && node in items
      modifies this`items, head`next, head`prev, items`next, items`prev
      ensures Valid()
      ensures items == Without(old(items), {node})
    {
      ghost var k := Position(head, items, node);
      Unlink(node, [head] + items, k);
      items := Without(items, {node});
    }

    /** fdevent_plist_dequeue */
    method Dequeue() returns (node: FdEvent?)
      requires Valid()
      modifies this`items, head`next, head`prev, items`next, items`prev
      ensures Valid()
      ensures if old(items) == [] then node == null && items == [] else node == old(items)[0] && items == old(items)[1..]
    {
      ghost var ring := [head] + items;
      assert items != [] ==> ring[0].next == ring[1];
      if head.next == head {
        return null;
      }
      assert ring[..1] + ring[2..] == [head] + items[1..];
      node := UnlinkFirst(head, ring);
      items := items[1..];
    }
  }

  const FIRST_TABLE := 256
  const HUGE_FD := 32000

  class EventLoop {
    const list: PendingList
    /** fd_table; its length is fd_table_max. */
    var table: seq<FdEvent?>
    var readFds: set<int>
    var writeFds: set<int>
    var errorFds: set<int>
    var selectN: nat
    /** The fdevents installed now. */
    ghost var nodes: set<FdEvent>

    constructor ()
      ensures Valid() && nodes == {} && fresh(list) && fresh(list.head) && list.items == []
    {
      list := new PendingList();
      table, readFds, writeFds, errorFds, selectN, nodes := [], {}, {}, {}, 0, {};
    }

    ghost predicate Registered(f: int)
      reads this`table
    {
      0 <= f < |table| && table[f] != null
    }

    ghost predicate Wants(f: int, flag: Flag)
      reads this`table, this`nodes, nodes`fd, nodes`active, nodes`mask
      requires TableOk()
    {
      Registered(f) && flag in table[f].mask
    }

    /** The table holds exactly the installed fdevents, each at its descriptor. */
    ghost predicate TableOk()
      reads this`table, this`nodes, nodes`fd, nodes`active
    {
      && (forall n :: n in nodes ==> Registered(n.fd) && table[n.fd] == n && n.active)
      && (forall f :: Registered(f) ==> table[f] in nodes && table[f].fd == f)
    }

    /** A select bit is set exactly for the descriptors whose fdevent wants that event. */
    ghost predicate SetsOk()
      reads this`table, this`nodes, this`readFds, this`writeFds, this`errorFds
      reads nodes`fd, nodes`active, nodes`mask
      requires TableOk()
    {
      && (forall f :: f in readFds <==> Wants(f, Read))
      && (forall f :: f in writeFds <==> Wants(f, Write))
      && (forall f :: f in errorFds <==> Wants(f, Error))
    }

    ghost predicate BoundOk()
      reads this`table, this`selectN
    {
      selectN <= |table| && forall f :: Registered(f) ==> f < selectN
    }

    /** On the list, marked pending and having undelivered events are the same. */
    ghost predicate PendingOk()
      reads this`nodes, list`items, nodes`pending, nodes`events
    {
      && (forall x :: x in list.items ==> x in nodes)
      && (forall n :: n in nodes ==> (n.pending <==> n in list.items) && (n.pending <==> n.events != {}))
    }

    ghost predicate Valid()
      reads this, list, list.head, list.items, nodes
    {
      && list.Valid() && list.head !in nodes
      && TableOk() && SetsOk() && BoundOk() && PendingOk()
    }

    /** fdevent_update on the select sets. */
    method UpdateSets(fd: int, events: set<Flag>)
      modifies this`readFds, this`writeFds, this`errorFds
      ensures readFds == if Read in events then old(readFds) + {fd} else old(readFds) - {fd}
      ensures writeFds == if Write in events then old(writeFds) + {fd} else old(writeFds) - {fd}
      ensures errorFds == if Error in events then old(errorFds) + {fd} else old(errorFds) - {fd}
    {
      readFds := if Read in events then readFds + {fd} else readFds - {fd};
      writeFds := if Write in events then writeFds + {fd} else writeFds - {fd};
      errorFds := if Error in events then errorFds + {fd} else errorFds - {fd};
    }

    /** fdevent_update: the select sets and the mask change together. */
    method Update(fde: FdEvent, events: set<Flag>)
      requires TableOk() && SetsOk() && fde in nodes
      modifies this`readFds, this`writeFds, this`errorFds, fde`mask
      ensures TableOk() && SetsOk() && fde.mask == events
    {
      UpdateSets(fde.fd, events);
      fde.mask := events;
      assert forall f :: Registered(f) && f != fde.fd ==> table[f] != fde;
    }

    /** The tail of fdevent_set: take events away from an fdevent, and it off the list if none is left. */
    method TakeAway(fde: FdEvent, events: set<Flag>)
      requires list.Valid() && list.head !in nodes && PendingOk() && fde in nodes
      modifies list`items, list.head`next, list.head`prev, nodes`next, nodes`prev, fde`events, fde`pending
      ensures list.Valid() && PendingOk()
      ensures fde.events == old(fde.events) - events
      ensures list.items == if fde.pending == old(fde.pending) then old(list.items) else Without(old(list.items), {fde})
    {
      hide PendingList.Linked;
      if fde.pending {
        fde.events := fde.events - events;
        if fde.events == {} {
          ghost var was := list.items;
          list.Remove(fde);
          assert list.items == Without(was, {fde});
          WithoutFacts(was, {fde});
          fde.pending := false;
        }
      }
    }

    /** What the select sets say about one fdevent. */
    lemma SetsSay(fde: FdEvent)
      requires TableOk() && SetsOk() && fde in nodes
      ensures fde.fd in readFds <==> Read in fde.mask
      ensures fde.fd in writeFds <==> Write in fde.mask
      ensures fde.fd in errorFds <==> Error in fde.mask
    {
    }

    /** fdevent_set: change the wanted events; pending ones that are now wanted are dropped. */
    method Set(fde: FdEvent, events: set<Flag>)
      requires Valid() && fde in nodes
      modifies this`readFds, this`writeFds, this`errorFds
      modifies list`items, list.head`next, list.head`prev, nodes`next, nodes`prev
      modifies fde`mask, fde`events, fde`pending
      ensures Valid() && fde.mask == events
      ensures (fde.fd in readFds <==> Read in events) && (fde.fd in writeFds <==> Write in events)
      ensures fde.fd in errorFds <==> Error in events
      ensures fde.events == if events == old(fde.mask) then old(fde.events) else old(fde.events) - events
      ensures list.items == if fde.pending == old(fde.pending) then old(list.items) else Without(old(list.items), {fde})
    {
      hide PendingList.Valid, PendingOk, TableOk, SetsOk, BoundOk;
      if fde.mask == events {
        SetsSay(fde);
        return;
      }
      Update(fde, events);
      TakeAway(fde, events);
      SetsSay(fde);
    }

    /** fdevent_add */
    method Add(fde: FdEvent, events: set<Flag>)
      requires Valid() && fde in nodes
      modifies this`readFds, this`writeFds, this`errorFds
      modifies list`items, list.head`next, list.head`prev, nodes`next, nodes`prev
      modifies fde`mask, fde`events, fde`pending
      ensures Valid() && fde.mask == old(fde.mask) + events
      ensures fde.events == if events <= old(fde.mask) then old(fde.events) else old(fde.events) - (old(fde.mask) + events)
      ensures list.items == if fde.pending == old(fde.pending) then old(list.items) else Without(old(list.items), {fde})
    {
      assert events <= fde.mask <==> fde.mask + events == fde.mask;
      Set(fde, fde.mask + events);
    }

    /** fdevent_del */
    method Del(fde: FdEvent, events: set<Flag>)
      requires Valid() && fde in nodes
      modifies this`readFds, this`writeFds, this`errorFds
      modifies list`items, list.head`next, list.head`prev, nodes`next, nodes`prev
      modifies fde`mask, fde`events, fde`pending
      ensures Valid() && fde.mask == old(fde.mask) - events
      ensures fde.events == if events !! old(fde.mask) then old(fde.events) else old(fde.events) - (old(fde.mask) - events)
      ensures list.items == if fde.pending == old(fde.pending) then old(list.items) else Without(old(list.items), {fde})
    {
      assert events !! fde.mask <==> fde.mask - events == fde.mask;
      Set(fde, fde.mask - events);
    }

    /** The table growth of fdevent_register: double until the descriptor fits. */
    method Grow(fd: nat)
      modifies this`table
      ensures fd < |table| && old(table) <= table
      ensures forall f :: |old(table)| <= f < |table| ==> table[f] == null
    {
      if fd >= |table| {
        var max := if |table| == 0 then FIRST_TABLE else |table|;
        while max <= fd
          invariant max >= |table| && max > 0
          decreases fd - max
        {
          max := max * 2;
        }
        table := table + seq(max - |table|, _ => null);
      }
    }

    /** Enter an fdevent into the table and raise select_n above it. */
    method Enter(fde: FdEvent)
      requires 0 <= fde.fd && BoundOk()
      modifies this`table, this`selectN, this`nodes
      ensures nodes == old(nodes) + {fde} && BoundOk()
      ensures Registered(fde.fd) && table[fde.fd] == fde
      ensures forall f :: f != fde.fd ==> (Registered(f) <==> old(Registered(f))) && (Registered(f) ==> table[f] == old(table)[f])
    {
      Grow(fde.fd);
      table := table[fde.fd := fde];
      if fde.fd >= selectN {
        selectN := fde.fd + 1;
      }
      nodes := nodes + {fde};
      forall f | Registered(f) ensures f < selectN {
        assert f == fde.fd || old(Registered(f));
      }
    }

    /** The books agree afterwards exactly if the descriptor had no fdevent yet; one it had is lost from the table. */
    method Register(fde: FdEvent)
      requires TableOk() && SetsOk() && BoundOk() && PendingOk() && fde !in nodes
      requires fde.active && fde.mask == {} && 0 <= fde.fd && !fde.pending && fde.events == {}
      modifies this`table, this`selectN, this`nodes
      ensures nodes == old(nodes) + {fde} && BoundOk() && PendingOk()
      ensures Registered(fde.fd) && table[fde.fd] == fde
      ensures TableOk() <==> !old(Registered(fde.fd))
      ensures TableOk() ==> SetsOk()
    {
      hide BoundOk;
      ghost var taken := Registered(fde.fd);
      ghost var lost := if taken then table[fde.fd] else null;
      Enter(fde);
      if taken {
        assert lost in nodes && lost.fd == fde.fd && table[lost.fd] != lost;
      }
    }

    /**
     * fdevent_install. False is FATAL: a negative descriptor, or one beyond both the table and
     * 32000. A descriptor that still has an fdevent gets the new one in its place, and then the
     * books no longer agree.
     */
    method Install(fde: FdEvent, fd: int) returns (ok: bool)
      requires Valid() && fde !in nodes && fde != list.head
      modifies this`table, this`selectN, this`nodes, fde
      ensures Valid() <==> !old(Registered(fd))
      ensures ok <==> 0 <= fd && (fd < |old(table)| || fd <= 32000)
      ensures ok ==> nodes == old(nodes) + {fde} && fde.fd == fd && fde.mask == {} && fde.events == {}
      ensures ok ==> Registered(fd) && table[fd] == fde
      ensures !ok ==> nodes == old(nodes)
    {
      hide PendingList.Valid, TableOk, SetsOk, BoundOk;
      fde.next, fde.prev, fde.mask, fde.events := null, null, {}, {};
      fde.active, fde.pending, fde.fd := true, false, fd;
      assert Valid();
      if fd < 0 || (fd >= |table| && fd > HUGE_FD) {
        return false;
      }
      Register(fde);
      ok := true;
    }

    ghost predicate SetsOkBut(fd: int)
      reads this`table, this`nodes, this`readFds, this`writeFds, this`errorFds
      reads nodes`fd, nodes`active, nodes`mask
      requires TableOk()
    {
      && fd !in readFds && fd !in writeFds && fd !in errorFds
      && (forall f :: f != fd ==> (f in readFds <==> Wants(f, Read)))
      && (forall f :: f != fd ==> (f in writeFds <==> Wants(f, Write)))
      && (forall f :: f != fd ==> (f in errorFds <==> Wants(f, Error)))
    }

    /** fdevent_disconnect: recompute select_n; the descriptor is still in the table. */
    method Disconnect(fd: int)
      requires TableOk() && SetsOk() && BoundOk() && Registered(fd)
      modifies this`readFds, this`writeFds, this`errorFds, this`selectN
      ensures SetsOkBut(fd)
      ensures BoundOk() && Registered(selectN - 1)
    {
      UpdateSets(fd, {});
      assert fd < selectN && Registered(fd);
      var n := 0;
      for i := 0 to selectN
        invariant 0 <= n < |table| && n <= i
        invariant forall f :: 0 <= f < i && Registered(f) ==> f <= n
        invariant Registered(n) || forall f :: 0 <= f < i ==> !Registered(f)
      {
        if table[i] != null {
          n := i;
        }
      }
      selectN := n + 1;
    }

    /** fdevent_unregister, with the descriptor's bits already clear. */
    method Unregister(fde: FdEvent)
      requires TableOk() && BoundOk() && PendingOk() && fde in nodes && fde !in list.items
      requires SetsOkBut(fde.fd)
      modifies this`table, this`nodes
      ensures nodes == old(nodes) - {fde}
      ensures TableOk() && SetsOk() && BoundOk() && PendingOk()
    {
      table := table[fde.fd := null];
      assert forall f :: Registered(f) <==> old(Registered(f)) && f != fde.fd;
      nodes := nodes - {fde};
    }

    /** fdevent_disconnect, then fdevent_unregister. */
    method OffTable(fde: FdEvent)
      requires TableOk() && SetsOk() && BoundOk() && PendingOk() && fde in nodes && fde !in list.items
      modifies this`readFds, this`writeFds, this`errorFds, this`selectN, this`table, this`nodes
      ensures nodes == old(nodes) - {fde}
      ensures TableOk() && SetsOk() && BoundOk() && PendingOk()
    {
      Disconnect(fde.fd);
      Unregister(fde);
    }

    /** Take an fdevent off the pending list and forget its events. */
    method OffList(fde: FdEvent)
      requires list.Valid() && list.head !in nodes && PendingOk() && fde in nodes
      modifies list`items, list.head`next, list.head`prev, nodes`next, nodes`prev, fde`events, fde`pending
      ensures list.Valid() && PendingOk()
      ensures list.items == Without(old(list.items), {fde}) && fde !in list.items
      ensures !fde.pending && fde.events == {}
    {
      hide PendingList.Linked, Without;
      ghost var was := list.items;
      WithoutFacts(was, {fde});
      if fde.pending {
        list.Remove(fde);
        fde.pending := false;
      }
      assert list.items == Without(was, {fde});
      fde.events := {};
    }

    method Detach(fde: FdEvent)
      requires Valid() && fde in nodes
      modifies this`readFds, this`writeFds, this`errorFds, this`selectN, this`table, this`nodes
      modifies list`items, list.head`next, list.head`prev, nodes`next, nodes`prev, fde`events, fde`pending
      ensures Valid() && nodes == old(nodes) - {fde}
      ensures list.items == Without(old(list.items), {fde})
      ensures !fde.pending && fde.events == {}
    {
      OffList(fde);
      OffTable(fde);
    }

    /** fdevent_remove; true means the descriptor is closed. */
    method Remove(fde: FdEvent) returns (close: bool)
      requires Valid() && fde in nodes
      modifies this, list`items, list.head`next, list.head`prev, nodes`next, nodes`prev, fde
      ensures Valid() && nodes == old(nodes) - {fde}
      ensures list.items == Without(old(list.items), {fde})
      ensures close <==> DontClose !in old(fde.mask)
      ensures !fde.active && !fde.pending && fde.mask == {} && fde.events == {}
    {
      Detach(fde);
      close := DontClose !in fde.mask;
      fde.mask, fde.active := {}, false;
    }

    /** Dequeue the first pending fdevent and take its events. */
    method PopPending() returns (fde: FdEvent?, events: set<Flag>)
      requires list.Valid() && list.head !in nodes && PendingOk()
      modifies list`items, list.head`next, list.head`prev, nodes`next, nodes`prev, nodes`events, nodes`pending
      ensures list.Valid() && PendingOk()
      ensures fde == null <==> old(list.items) == []
      ensures fde != null ==>
                && fde == old(list.items)[0] && list.items == old(list.items)[1..]
                && events == old(fde.events) && events != {} && fde.events == {}
      ensures forall n :: n in nodes && n != fde ==> n.events == old(n.events) && n.pending == old(n.pending)
    {
      ghost var was := list.items;
      fde := list.Dequeue();
      events := {};
      if fde != null {
        events := fde.events;
        fde.events := {};
        fde.pending := false;
        TailMembers(list.head, was);
      }
    }

    /** One round of the inner loop of fdevent_loop, up to the callback. */
    method NextCallback() returns (fde: FdEvent?, events: set<Flag>)
      requires Valid()
      modifies list`items, list.head`next, list.head`prev, nodes`next, nodes`prev, nodes`events, nodes`pending
      ensures Valid()
      ensures fde == null <==> old(list.items) == []
      ensures fde != null ==>
                && fde == old(list.items)[0] && list.items == old(list.items)[1..]
                && events == old(fde.events) && events != {} && fde.events == {}
      ensures forall n :: n in nodes && n != fde ==> n.events == old(n.events) && n.pending == old(n.pending)
    {
      fde, events := PopPending();
    }

    /** Mark events of one fdevent as pending, and put it on the list if it is not there. */
    method MarkReady(fde: FdEvent, events: set<Flag>)
      requires list.Valid() && list.head !in nodes && PendingOk() && fde in nodes && events != {}
      modifies list`items, list.head`next, list.head`prev, nodes`next, nodes`prev, fde`events, fde`pending
      ensures list.Valid() && PendingOk()
      ensures fde.events == old(fde.events) + events && fde in list.items
      ensures list.items == old(list.items) + (if fde in old(list.items) then [] else [fde])
    {
      fde.events := fde.events + events;
      if !fde.pending {
        fde.pending := true;
        list.Enqueue(fde);
      }
    }

    /** No descriptor is ready without an fdevent. */
    ghost predicate AllRegistered(ready: Ready)
      reads this`table
    {
      forall f :: f in ready.All() ==> Registered(f)
    }

    /** The loop body of fdevent_process; true means the descriptor was ready. */
    method ProcessOne(i: nat, ready: Ready) returns (found: bool)
      requires list.Valid() && list.head !in nodes && PendingOk() && TableOk()
      requires AllRegistered(ready) && i < |table|
      modifies list`items, list.head`next, list.head`prev, nodes`next, nodes`prev, nodes`events, nodes`pending
      ensures list.Valid() && PendingOk() && TableOk()
      ensures found <==> i in ready.All()
      ensures found ==> table[i] != null && table[i] in list.items
      ensures list.items == old(list.items) + (if found && table[i] !in old(list.items) then [table[i]] else [])
      ensures forall m :: m in nodes ==> m.events == if m.fd == i then old(m.events) + ready.Events(i) else old(m.events)
      ensures forall m :: m in nodes && m.fd == i ==> Marked(m.events, old(m.events), i in ready.r, i in ready.w, i in ready.e)
    {
      var events := ready.Events(i);
      found := events != {};
      assert found <==> i in ready.All();
      if found {
        MarkReady(table[i], events);
      }
      forall m | m in nodes && m.fd == i ensures Marked(m.events, old(m.events), i in ready.r, i in ready.w, i in ready.e) {
        ready.EventsMark(i, old(m.events));
      }
    }

    lemma NotYetNew(was: seq<FdEvent>, ready: Ready, i: nat)
      requires TableOk() && i < |table| && table[i] != null
      ensures table[i] !in Newly(table, was, ready, i)
    {
      NewlyBelow(table, was, ready, i);
      if table[i] in table[..i] {
        var f :| 0 <= f < i && table[f] == table[i];
        assert Registered(f) && Registered(i);
      }
    }

    /** The undelivered events of all fdevents. */
    ghost function Events(): map<FdEvent, set<Flag>>
      reads this`nodes, nodes`events
    {
      map n | n in nodes :: n.events
    }

    /** Since `had`, the fdevents below i got what is ready for them. */
    ghost predicate EventsSoFar(had: map<FdEvent, set<Flag>>, ready: Ready, i: int)
      reads this`nodes, nodes`events, nodes`fd
      requires had.Keys == nodes
    {
      forall n :: n in nodes ==> n.events == if n.fd < i then had[n] + ready.Events(n.fd) else had[n]
    }

    lemma EventsStep(had: map<FdEvent, set<Flag>>, before: map<FdEvent, set<Flag>>, ready: Ready, i: int)
      requires had.Keys == nodes && before.Keys == nodes
      requires forall n :: n in nodes ==> before[n] == if n.fd < i then had[n] + ready.Events(n.fd) else had[n]
      requires forall n :: n in nodes ==> n.events == if n.fd == i then before[n] + ready.Events(i) else before[n]
      ensures EventsSoFar(had, ready, i + 1)
    {
    }

    /** The scan has done the descriptors below i. */
    ghost predicate Scanned(was: seq<FdEvent>, had: map<FdEvent, set<Flag>>, ready: Ready, i: nat)
      reads this`table, this`nodes, list`items, nodes`events, nodes`fd
    {
      && had.Keys == nodes && i <= |table|
      && list.items == was + Newly(table, was, ready, i)
      && EventsSoFar(had, ready, i)
    }

    /** What the scan needs and keeps. */
    ghost predicate ScanOk(ready: Ready)
      reads this`table, this`nodes, list`items, list.head`next, list.head`prev, list.items`next, list.items`prev
      reads nodes`fd, nodes`active, nodes`pending, nodes`events
    {
      list.Valid() && list.head !in nodes && PendingOk() && TableOk() && AllRegistered(ready)
    }

    method ScanStep(i: nat, ready: Ready, ghost was: seq<FdEvent>, ghost had: map<FdEvent, set<Flag>>) returns (found: bool)
      requires i < |table| && ScanOk(ready) && Scanned(was, had, ready, i)
      modifies list`items, list.head`next, list.head`prev, nodes`next, nodes`prev, nodes`events, nodes`pending
      ensures found <==> i in ready.All()
      ensures ScanOk(ready) && Scanned(was, had, ready, i + 1)
    {
      hide PendingList.Valid, PendingOk, TableOk, AllRegistered;
      if table[i] != null {
        NotYetNew(was, ready, i);
      }
      ghost var news, before := Newly(table, was, ready, i), Events();
      found := ProcessOne(i, ready);
      EventsStep(had, before, ready, i);
      Assoc(was, news, if found && table[i] !in was then [table[i]] else []);
    }

    lemma ScanStart(ready: Ready)
      requires ScanOk(ready)
      ensures ready.From(0) == ready.All() && Scanned(list.items, Events(), ready, 0)
    {
      assert forall f :: f in ready.All() ==> Registered(f);
    }

    /** The loop of fdevent_process, with select's count running down. */
    method ScanAll(count: nat, ready: Ready) returns (ghost i: nat)
      requires ScanOk(ready) && selectN <= |table| && count >= |ready.All()|
      modifies list`items, list.head`next, list.head`prev, nodes`next, nodes`prev, nodes`events, nodes`pending
      ensures ScanOk(ready) && i <= selectN && Scanned(old(list.items), old(Events()), ready, i)
      ensures i == selectN || ready.From(i) == {}
    {
      hide *;
      ghost var was, had := list.items, Events();
      var k, n := 0, count;
      ScanStart(ready);
      while k < selectN && n > 0
        invariant 0 <= k <= selectN && n >= |ready.From(k)|
        invariant ScanOk(ready) && Scanned(was, had, ready, k)
        decreases selectN - k
      {
        ready.FromStep(k);
        var found := ScanStep(k, ready, was, had);
        if found {
          n := n - 1;
        }
        k := k + 1;
      }
      i := k;
    }

    method ProcessAll(count: nat, ready: Ready)
      requires ScanOk(ready) && BoundOk() && count == ready.Bits()
      modifies list`items, list.head`next, list.head`prev, nodes`next, nodes`prev, nodes`events, nodes`pending
      ensures list.Valid() && PendingOk()
      ensures Scanned(old(list.items), old(Events()), ready, selectN)
    {
      ghost var was, had := list.items, Events();
      ready.CountBound();
      ghost var i := ScanAll(count, ready);
      ScanStable(was, had, ready, i);
    }

    /** Nothing ready is left from i on: the scan is as good as complete. */
    lemma ScanStable(was: seq<FdEvent>, had: map<FdEvent, set<Flag>>, ready: Ready, i: nat)
      requires TableOk() && BoundOk() && AllRegistered(ready) && i <= selectN
      requires Scanned(was, had, ready, i)
      requires i == selectN || ready.From(i) == {}
      ensures Scanned(was, had, ready, selectN)
    {
      assert forall f :: f in ready.All() && f >= i ==> f in ready.From(i);
      NewlyStable(table, was, ready, i, selectN);
    }

    /**
     * fdevent_process, given what select answered: its count, and the ready subsets of
     * the three sets. Every ready descriptor has an fdevent, gets its events, and is on
     * the list afterwards, the new ones at the end in descriptor order.
     */
    method Process(count: int, ready: Ready)
      requires Valid()
      requires count >= 0 ==> ready.Within(readFds, writeFds, errorFds) && count == ready.Bits()
      modifies list`items, list.head`next, list.head`prev, nodes`next, nodes`prev, nodes`events, nodes`pending
      ensures Valid()
      ensures count < 0 ==> list.items == old(list.items) && forall m :: m in nodes ==> m.events == old(m.events)
      ensures count >= 0 ==> list.items == old(list.items) + Newly(table, old(list.items), ready, selectN)
      ensures count >= 0 ==> forall m :: m in nodes ==>
                Marked(m.events, old(m.events), m.fd in ready.r, m.fd in ready.w, m.fd in ready.e)
    {
      hide PendingList.Valid, PendingOk, SetsOk, Scanned, Ready.Within, AllRegistered, Marked;
      if count >= 0 {
        ReadyAreRegistered(ready);
        ghost var had := Events();
        ProcessAll(count, ready);
        ScanDone(old(list.items), had, ready);
      }
    }

    lemma ReadyAreRegistered(ready: Ready)
      requires TableOk() && SetsOk() && ready.Within(readFds, writeFds, errorFds)
      ensures AllRegistered(ready)
    {
      assert forall f :: f in ready.All() ==> Wants(f, Read) || Wants(f, Write) || Wants(f, Error);
    }

    lemma ScanDone(was: seq<FdEvent>, had: map<FdEvent, set<Flag>>, ready: Ready)
      requires TableOk() && BoundOk() && Scanned(was, had, ready, selectN)
      ensures list.items == was + Newly(table, was, ready, selectN)
      ensures had.Keys == nodes
      ensures forall m :: m in nodes ==> Marked(m.events, had[m], m.fd in ready.r, m.fd in ready.w, m.fd in ready.e)
    {
      hide Marked, Ready.Events, TableOk, BoundOk;
      forall m | m in nodes ensures Marked(m.events, had[m], m.fd in ready.r, m.fd in ready.w, m.fd in ready.e) {
        assert m.events == had[m] + ready.Events(m.fd) by { Complete(had, ready, m); }
        ready.EventsMark(m.fd, had[m]);
      }
    }

    lemma Complete(had: map<FdEvent, set<Flag>>, ready: Ready, m: FdEvent)
      requires TableOk() && BoundOk() && had.Keys == nodes && EventsSoFar(had, ready, selectN) && m in nodes
      ensures m.events == had[m] + ready.Events(m.fd)
    {
    }
  }

  /** A readable descriptor adds READ, a writable one WRITE, an exceptional one ERROR, and nothing else changes. */
  predicate Marked(now: set<Flag>, was: set<Flag>, readable: bool, writable: bool, exceptional: bool) {
    && (Read in now <==> Read in was || readable)
    && (Write in now <==> Write in was || writable)
    && (Error in now <==> Error in was || exceptional)
    && (Timeout in now <==> Timeout in was) && (DontClose in now <==> DontClose in was)
  }

  /** The three sets select leaves behind. */
  datatype Ready = Ready(r: set<int>, w: set<int>, e: set<int>)
  {
    predicate Within(readFds: set<int>, writeFds: set<int>, errorFds: set<int>) {
      r <= readFds && w <= writeFds && e <= errorFds
    }

    function All(): set<int> {
      r + w + e
    }

    /** What select returns: the number of bits set in all three. */
    function Bits(): int {
      |r| + |w| + |e|
    }

    function Events(f: int): set<Flag> {
      (if f in r then {Read} else {}) + (if f in w then {Write} else {}) + (if f in e then {Error} else {})
    }

    lemma EventsMark(f: int, was: set<Flag>)
      ensures Marked(was + Events(f), was, f in r, f in w, f in e)
    {
    }

    /** The ready descriptors from i on. */
    ghost function From(i: int): set<int> {
      set f | f in All() && f >= i
    }

    lemma FromStep(i: int)
      ensures From(i + 1) == From(i) - {i}
      ensures |From(i + 1)| == |From(i)| - (if i in All() then 1 else 0)
    {
      assert From(i) == From(i + 1) + (if i in All() then {i} else {});
    }

    lemma CountBound()
      ensures |All()| <= Bits()
    {
      assert |r + w| <= |r| + |w|;
    }
  }

  /** The fdevents of ready descriptors below n that were not on the list. */
  ghost function Newly(table: seq<FdEvent?>, was: seq<FdEvent>, ready: Ready, n: nat): seq<FdEvent>
    requires n <= |table|
  {
    if n == 0 then []
    else
      Newly(table, was, ready, n - 1) +
      (if n - 1 in ready.All() && table[n - 1] != null && table[n - 1] !in was then [table[n - 1]] else [])
  }

  lemma {:induction false} NewlyBelow(table: seq<FdEvent?>, was: seq<FdEvent>, ready: Ready, n: nat)
    requires n <= |table|
    ensures forall x :: x in Newly(table, was, ready, n) ==> x in table[..n] && x !in was
  {
    if n > 0 {
      NewlyBelow(table, was, ready, n - 1);
      assert table[..n] == table[..n - 1] + [table[n - 1]];
    }
  }

  /** Once no ready descriptor is left, the rest of the scan adds nothing. */
  lemma {:induction false} NewlyStable(table: seq<FdEvent?>, was: seq<FdEvent>, ready: Ready, i: nat, n: nat)
    requires i <= n <= |table|
    requires forall f :: f in ready.All() ==> f < i
    ensures Newly(table, was, ready, n) == Newly(table, was, ready, i)
  {
    if i < n {
      NewlyStable(table, was, ready, i, n - 1);
    }
  }

  lemma TailMembers(head: FdEvent, items: seq<FdEvent>)
    requires items != []
    requires Distinct([head] + items)
    ensures forall x :: x in items[1..] <==> x in items && x != items[0]
  {
    DistinctTail(head, items);
    assert items == [items[0]] + items[1..];
  }
}
