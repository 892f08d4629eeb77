/**
 * Many streams over one transport: two processes, each with its table of local
 * sockets, and a FIFO of packets each way. Every run of the two event loops, for
 * every interleaving and every behaviour of the descriptors, keeps `Inv`.
 */
module Multiplex {
  import opened Basics
  import opened Sockets
  import opened Streams

  /** ids are 32-bit and handed out in order, starting at 1 (install_local_socket). */
  const ID_SPACE := U32_END

  function NextId(installed: nat): nat {
    (installed + 1) % ID_SPACE
  }

  /** One process: how many sockets it ever installed, and its sockets, ended ones included. */
  datatype Host = Host(installed: nat, socks: map<nat, Socket>)

  datatype Net = Net(a: Host, b: Host, toA: seq<Packet>, toB: seq<Packet>)
  {
    function Flip(): Net {
      Net(b, a, toB, toA)
    }
  }

  datatype Action =
    | Connect
    | Select(id: nat, ready: set<Event>)
    | Fire(id: nat, wcalls: seq<WriteCall>, rcalls: seq<ReadCall>)
    | Receive(wcalls: seq<WriteCall>, accepted: bool)

  /** One socket of a changes and sends; `toA` is what is left under way to a. */
  function Update(n: Net, id: nat, e: Effect, toA: seq<Packet>): Net {
    Net(n.a.(socks := n.a.socks[id := e.s]), n.b, toA, n.toB + e.Out())
  }

  function Install(h: Host, s: Socket): Host {
    Host(h.installed + 1, h.socks[s.id := s])
  }

  /** The first packet under way to a is an OPEN: create a service socket, or refuse. */
  function Accept(n: Net, accepted: bool): Net
    requires n.toA != [] && n.toA[0].Open?
  {
    var from, id := n.toA[0].arg0, NextId(n.a.installed);
    if accepted then
      Net(Install(n.a, Acceptor(id, from)), n.b, n.toA[1..], n.toB + [Okay(id, from)])
    else
      Net(n.a, n.b, n.toA[1..], n.toB + [Clse(0, from)])
  }

  /** What process a does; an action that is not possible leaves everything as it is. */
  function StepA(n: Net, act: Action): Net {
    match act
    case Connect =>
      var id := NextId(n.a.installed);
      n.(a := Install(n.a, NewSocket(id, true, None)), toB := n.toB + [Open(id)])
    case Select(id, ready) =>
      if id in n.a.socks then Update(n, id, OnSelect(n.a.socks[id], ready), n.toA) else n
    case Fire(id, wcalls, rcalls) =>
      if id in n.a.socks && n.a.socks[id].fde.pending != {}
      then Update(n, id, OnEvent(n.a.socks[id], wcalls, rcalls), n.toA) else n
    case Receive(wcalls, accepted) =>
      if n.toA == [] then n
      else if n.toA[0].Open? then Accept(n, accepted)
      else
        var p := n.toA[0];
        if p.arg1 in n.a.socks then Update(n, p.arg1, Deliver(n.a.socks[p.arg1], p, wcalls), n.toA[1..])
        else n.(toA := n.toA[1..])
  }

  datatype Move = Move(byA: bool, act: Action)

  function Step(n: Net, m: Move): Net {
    if m.byA then StepA(n, m.act) else StepA(n.Flip(), m.act).Flip()
  }

  const START := Net(Host(0, map[]), Host(0, map[]), [], [])

  /** Some move leads from one state to the other. */
  ghost predicate Moves(n: Net, n': Net) {
    exists m: Move :: n' == Step(n, m)
  }

  ghost predicate IsRun(run: seq<Net>) {
    && run != [] && run[0] == START
    && forall k {:trigger Moves(run[k], run[k + 1])} :: 0 <= k < |run| - 1 ==> Moves(run[k], run[k + 1])
  }

  /** The last state of some run, of any length, from the start. */
  ghost predicate Reachable(n: Net) {
    exists run :: IsRun(run) && run[|run| - 1] == n
  }

  // The packets of one socket among all those under way.

  predicate IsFor(p: Packet, id: nat) {
    !p.Open? && p.arg1 == id
  }

  function Inbox(ps: seq<Packet>, id: nat): seq<Packet> {
    if ps == [] then [] else (if IsFor(ps[0], id) then [ps[0]] else []) + Inbox(ps[1..], id)
  }

  function Opens(ps: seq<Packet>, id: nat): nat {
    if ps == [] then 0 else (if ps[0] == Open(id) then 1 else 0) + Opens(ps[1..], id)
  }

  lemma {:induction false} InboxConcat(ps: seq<Packet>, qs: seq<Packet>, id: nat)
    ensures Inbox(ps + qs, id) == Inbox(ps, id) + Inbox(qs, id)
  {
    if ps == [] {
      assert ps + qs == qs;
    } else {
      var head := if IsFor(ps[0], id) then [ps[0]] else [];
      calc {
        Inbox(ps + qs, id);
        { assert (ps + qs)[0] == ps[0] && (ps + qs)[1..] == ps[1..] + qs; }
        head + Inbox(ps[1..] + qs, id);
        { InboxConcat(ps[1..], qs, id); }
        head + (Inbox(ps[1..], id) + Inbox(qs, id));
        head + Inbox(ps[1..], id) + Inbox(qs, id);
      }
    }
  }

  lemma {:induction false} OpensConcat(ps: seq<Packet>, qs: seq<Packet>, id: nat)
    ensures Opens(ps + qs, id) == Opens(ps, id) + Opens(qs, id)
  {
    if ps == [] {
      assert ps + qs == qs;
    } else {
      assert (ps + qs)[1..] == ps[1..] + qs;
      OpensConcat(ps[1..], qs, id);
    }
  }

  /** Packets addressed to one socket are in the inbox of that one only. */
  lemma {:induction false} InboxOfAddressed(ps: seq<Packet>, from: nat, to: nat, id: nat)
    requires AllAddressed(ps, from, to)
    ensures Inbox(ps, id) == if id == to then ps else []
    ensures Opens(ps, id) == 0
  {
    if ps != [] {
      assert ps == [ps[0]] + ps[1..];
      assert Addressed(ps[0], from, to);
      InboxOfAddressed(ps[1..], from, to, id);
      assert Inbox(ps, id) == (if id == to then [ps[0]] else []) + Inbox(ps[1..], id);
    }
  }

  // The invariant.

  /** k is a socket of a, d one of b, and OPEN from one created the other. */
  predicate Partner(n: Net, k: nat, d: nat) {
    && k in n.a.socks && d in n.b.socks
    && var x, y := n.a.socks[k], n.b.socks[d];
       x.opener != y.opener && (if x.opener then y.remote == Some(k) else x.remote == Some(d))
  }

  function View(n: Net, k: nat, d: nat): Link
    requires k in n.a.socks && d in n.b.socks
  {
    Link(n.a.socks[k], n.b.socks[d], Inbox(n.toA, k), Inbox(n.toB, d))
  }

  predicate IdsOk(h: Host) {
    && h.installed < ID_SPACE
    && forall k :: k in h.socks ==> 0 < k <= h.installed && h.socks[k].id == k
  }

  /** Every packet under way to a is for a socket a installed, or from an opener of b. */
  predicate ToOk(n: Net) {
    forall p :: p in n.toA ==>
      if p.Open? then p.arg0 in n.b.socks && n.b.socks[p.arg0].opener else p.arg1 in n.a.socks
  }

  /** An opener without a partner: OPEN under way, or refused. */
  predicate Lonely(n: Net, k: nat)
    requires k in n.a.socks
  {
    var x := n.a.socks[k];
    var opens, inbox := Opens(n.toB, k), Inbox(n.toA, k);
    || (x == NewSocket(k, true, None) && opens == 1 && inbox == [])
    || (x == NewSocket(k, true, None) && opens == 0 && inbox == [Clse(0, k)])
    || (x == Close(NewSocket(k, true, None), PeerClosed).s && opens == 0 && inbox == [])
  }

  ghost predicate Settled(n: Net) {
    forall k :: k in n.a.socks ==>
      || (exists d :: Partner(n, k, d) && (n.a.socks[k].opener ==> Opens(n.toB, k) == 0))
      || Lonely(n, k)
  }

  ghost predicate Unique(n: Net) {
    forall k, d, d' :: Partner(n, k, d) && Partner(n, k, d') ==> d == d'
  }

  ghost predicate LinksOk(n: Net) {
    forall k, d :: Partner(n, k, d) ==> LinkInv(View(n, k, d))
  }

  ghost predicate Inv(n: Net) {
    && IdsOk(n.a) && IdsOk(n.b)
    && ToOk(n) && ToOk(n.Flip())
    && Settled(n) && Settled(n.Flip())
    && Unique(n) && Unique(n.Flip())
    && LinksOk(n)
  }

  // Preservation, for a step of process a.

  /** A step of socket k that leaves every packet of the other sockets where it is. */
  ghost predicate Touches(n: Net, n': Net, k: nat, d: nat) {
    && k in n.a.socks && k in n'.a.socks
    && n'.b == n.b && n'.a == n.a.(socks := n.a.socks[k := n'.a.socks[k]])
    && n'.a.socks[k].id == k && n'.a.socks[k].opener == n.a.socks[k].opener
    && (forall m :: m != k ==> Inbox(n'.toA, m) == Inbox(n.toA, m))
    && (forall m :: m != d ==> Inbox(n'.toB, m) == Inbox(n.toB, m))
    && (forall m :: Opens(n'.toA, m) == Opens(n.toA, m) && Opens(n'.toB, m) == Opens(n.toB, m))
  }

  ghost predicate SamePartners(n: Net, n': Net) {
    forall m, e :: Partner(n', m, e) <==> Partner(n, m, e)
  }

  lemma TouchKeepsPartners(n: Net, n': Net, k: nat, d: nat)
    requires IdsOk(n.a) && IdsOk(n.b) && Partner(n, k, d) && Touches(n, n', k, d)
    requires LinkInv(View(n', k, d))
    ensures SamePartners(n, n')
  {
    assert n'.a.socks[k].remote == n.a.socks[k].remote || n.a.socks[k].opener;
  }

  lemma TouchKeepsSettledA(n: Net, n': Net, k: nat, d: nat)
    requires Settled(n) && Partner(n, k, d) && Touches(n, n', k, d) && SamePartners(n, n')
    requires !Lonely(n, k)
    ensures Settled(n')
  {
    forall m | m in n'.a.socks
      ensures (exists e :: Partner(n', m, e) && (n'.a.socks[m].opener ==> Opens(n'.toB, m) == 0)) || Lonely(n', m)
    {
      if e :| Partner(n, m, e) && (n.a.socks[m].opener ==> Opens(n.toB, m) == 0) {
        assert Partner(n', m, e);
      }
    }
  }

  lemma TouchKeepsSettledB(n: Net, n': Net, k: nat, d: nat)
    requires Settled(n.Flip()) && Partner(n, k, d) && Touches(n, n', k, d) && SamePartners(n, n')
    requires !Lonely(n.Flip(), d)
    ensures Settled(n'.Flip())
  {
    var f, f' := n.Flip(), n'.Flip();
    forall m | m in f'.a.socks
      ensures (exists e :: Partner(f', m, e) && (f'.a.socks[m].opener ==> Opens(f'.toB, m) == 0)) || Lonely(f', m)
    {
      if e :| Partner(f, m, e) && (f.a.socks[m].opener ==> Opens(f.toB, m) == 0) {
        assert Partner(n, e, m) && Partner(n', e, m);
        assert Partner(f', m, e);
      }
    }
  }

  lemma PartnerFlips(n: Net, k: nat, d: nat)
    ensures Partner(n, k, d) <==> Partner(n.Flip(), d, k)
  {
  }

  lemma LinkFlips(l: Link)
    ensures LinkInv(l) <==> LinkInv(l.Flip())
  {
  }

  lemma PartnersAreNotLonely(n: Net, k: nat, d: nat)
    requires Partner(n, k, d) && LinkInv(View(n, k, d)) && n.a.socks[k].id == k
    ensures !Lonely(n, k)
  {
  }

  lemma TouchKeepsLinks(n: Net, n': Net, k: nat, d: nat)
    requires LinksOk(n) && Unique(n) && Unique(n.Flip())
    requires Partner(n, k, d) && Touches(n, n', k, d) && SamePartners(n, n')
    requires LinkInv(View(n', k, d))
    ensures LinksOk(n') && Unique(n') && Unique(n'.Flip())
  {
    forall m, e | Partner(n', m, e)
      ensures LinkInv(View(n', m, e))
    {
      assert Partner(n, m, e);
      PartnerFlips(n, m, e);
      PartnerFlips(n, k, d);
      if m != k && e != d {
        assert View(n', m, e) == View(n, m, e);
      }
    }
    forall m, e, e' | Partner(n'.Flip(), m, e) && Partner(n'.Flip(), m, e')
      ensures e == e'
    {
      PartnerFlips(n', e, m);
      PartnerFlips(n', e', m);
      PartnerFlips(n, e, m);
      PartnerFlips(n, e', m);
    }
  }

  /** A step of one partnered socket that keeps its own stream keeps everything. */
  lemma TouchKeepsInv(n: Net, n': Net, k: nat, d: nat)
    requires Inv(n) && Partner(n, k, d) && Touches(n, n', k, d)
    requires LinkInv(View(n', k, d))
    requires ToOk(n') && ToOk(n'.Flip())
    ensures Inv(n')
  {
    assert LinkInv(View(n, k, d));
    PartnersAreNotLonely(n, k, d);
    PartnerFlips(n, k, d);
    LinkFlips(View(n, k, d));
    PartnersAreNotLonely(n.Flip(), d, k);
    TouchKeepsPartners(n, n', k, d);
    TouchKeepsSettledA(n, n', k, d);
    TouchKeepsSettledB(n, n', k, d);
    TouchKeepsLinks(n, n', k, d);
  }

  /** Updating a partnered socket, with its first packet taken or not, touches only its stream. */
  lemma UpdateTouches(n: Net, k: nat, d: nat, e: Effect, taken: bool)
    requires k in n.a.socks && e.s.id == k && e.s.opener == n.a.socks[k].opener
    requires |e.data| <= MAX_PAYLOAD && (e.Out() != [] ==> e.to == d)
    requires taken ==> n.toA != [] && IsFor(n.toA[0], k)
    ensures var n' := Update(n, k, e, if taken then n.toA[1..] else n.toA);
            && Touches(n, n', k, d)
            && Inbox(n'.toA, k) == (if taken then Inbox(n.toA, k)[1..] else Inbox(n.toA, k))
            && Inbox(n'.toB, d) == Inbox(n.toB, d) + e.Out()
  {
    OutShape(e);
    forall m
      ensures Inbox(n.toB + e.Out(), m) == Inbox(n.toB, m) + (if m == d then e.Out() else [])
      ensures Opens(n.toB + e.Out(), m) == Opens(n.toB, m)
    {
      InboxConcat(n.toB, e.Out(), m);
      OpensConcat(n.toB, e.Out(), m);
      InboxOfAddressed(e.Out(), k, e.to, m);
    }
  }

  lemma UpdateKeepsToOk(n: Net, k: nat, d: nat, e: Effect, toA: seq<Packet>)
    requires ToOk(n) && ToOk(n.Flip()) && k in n.a.socks && d in n.b.socks
    requires e.s.opener == n.a.socks[k].opener && |e.data| <= MAX_PAYLOAD && (e.Out() != [] ==> e.to == d)
    requires toA == n.toA || (n.toA != [] && toA == n.toA[1..])
    ensures var n' := Update(n, k, e, toA); ToOk(n') && ToOk(n'.Flip())
  {
    OutShape(e);
    var n' := Update(n, k, e, toA);
    forall p | p in n'.toB
      ensures if p.Open? then p.arg0 in n'.a.socks && n'.a.socks[p.arg0].opener else p.arg1 in n'.b.socks
    {
      if p !in n.toB {
        assert p in e.Out();
      }
    }
  }

  lemma PartnerUpdateKeepsInv(n: Net, k: nat, d: nat, e: Effect, taken: bool)
    requires Inv(n) && Partner(n, k, d)
    requires e.s.id == k && e.s.opener == n.a.socks[k].opener
    requires |e.data| <= MAX_PAYLOAD && (e.Out() != [] ==> e.to == d)
    requires taken ==> n.toA != [] && IsFor(n.toA[0], k)
    requires LinkInv(Link(e.s, n.b.socks[d],
                          if taken then Inbox(n.toA, k)[1..] else Inbox(n.toA, k),
                          Inbox(n.toB, d) + e.Out()))
    ensures Inv(Update(n, k, e, if taken then n.toA[1..] else n.toA))
  {
    var toA := if taken then n.toA[1..] else n.toA;
    var n' := Update(n, k, e, toA);
    UpdateTouches(n, k, d, e, taken);
    UpdateKeepsToOk(n, k, d, e, toA);
    TouchKeepsInv(n, n', k, d);
  }

  lemma FireKeepsInv(n: Net, k: nat, wcalls: seq<WriteCall>, rcalls: seq<ReadCall>)
    requires Inv(n) && k in n.a.socks && n.a.socks[k].fde.pending != {}
    ensures Inv(Update(n, k, OnEvent(n.a.socks[k], wcalls, rcalls), n.toA))
  {
    assert !Lonely(n, k);
    var d :| Partner(n, k, d);
    EventKeepsLink(View(n, k, d), wcalls, rcalls);
    EventLaw(n.a.socks[k], wcalls, rcalls);
    PartnerUpdateKeepsInv(n, k, d, OnEvent(n.a.socks[k], wcalls, rcalls), false);
  }

  lemma SelectKeepsInv(n: Net, k: nat, ready: set<Event>)
    requires Inv(n) && k in n.a.socks
    ensures Inv(Update(n, k, OnSelect(n.a.socks[k], ready), n.toA))
  {
    var x := n.a.socks[k];
    var e := OnSelect(x, ready);
    if d :| Partner(n, k, d) {
      SelectKeepsLink(View(n, k, d), ready);
      assert Inbox(n.toB, d) + e.Out() == Inbox(n.toB, d);
      PartnerUpdateKeepsInv(n, k, d, e, false);
    } else {
      SelectOfLonely(n, k, ready);
    }
  }

  lemma SelectOfLonely(n: Net, k: nat, ready: set<Event>)
    requires k in n.a.socks && Lonely(n, k)
    ensures Update(n, k, OnSelect(n.a.socks[k], ready), n.toA) == n
  {
    var x := n.a.socks[k];
    var e := OnSelect(x, ready);
    assert {} + ready * {} == {};
    assert e.s == x && n.toB + e.Out() == n.toB;
    assert n.a.socks[k := x] == n.a.socks;
  }

  /** Only socket k of a changes (or is new), to a lonely one, and so do only its packets. */
  ghost predicate LonelyChange(n: Net, n': Net, k: nat) {
    && k in n'.a.socks && Lonely(n', k)
    && n'.a.socks == n.a.socks[k := n'.a.socks[k]] && n'.b == n.b
    && SamePartners(n, n')
    && (forall d :: !Partner(n, k, d))
    && (forall m :: m != k ==> Inbox(n'.toA, m) == Inbox(n.toA, m))
    && (forall m :: m != k ==> Opens(n'.toB, m) == Opens(n.toB, m))
    && (forall m :: Opens(n'.toA, m) == Opens(n.toA, m) && Inbox(n'.toB, m) == Inbox(n.toB, m))
  }

  lemma LonelySettled(n: Net, n': Net, k: nat)
    requires Settled(n) && Settled(n.Flip()) && LonelyChange(n, n', k)
    ensures Settled(n') && Settled(n'.Flip())
  {
    forall m | m in n'.a.socks
      ensures (exists e :: Partner(n', m, e) && (n'.a.socks[m].opener ==> Opens(n'.toB, m) == 0)) || Lonely(n', m)
    {
      if e :| Partner(n, m, e) && (n.a.socks[m].opener ==> Opens(n.toB, m) == 0) {
        assert Partner(n', m, e);
      }
    }
    var f, f' := n.Flip(), n'.Flip();
    forall m | m in f'.a.socks
      ensures (exists e :: Partner(f', m, e) && (f'.a.socks[m].opener ==> Opens(f'.toB, m) == 0)) || Lonely(f', m)
    {
      if e :| Partner(f, m, e) && (f.a.socks[m].opener ==> Opens(f.toB, m) == 0) {
        assert Partner(n, e, m) && Partner(n', e, m);
        assert Partner(f', m, e);
      }
    }
  }

  lemma LonelyLinks(n: Net, n': Net, k: nat)
    requires LinksOk(n) && Unique(n) && Unique(n.Flip()) && LonelyChange(n, n', k)
    ensures LinksOk(n') && Unique(n') && Unique(n'.Flip())
  {
    forall m, e | Partner(n', m, e)
      ensures LinkInv(View(n', m, e))
    {
      assert Partner(n, m, e);
      assert View(n', m, e) == View(n, m, e);
    }
    forall m, e, e' | Partner(n'.Flip(), m, e) && Partner(n'.Flip(), m, e')
      ensures e == e'
    {
      assert Partner(n', e, m) && Partner(n', e', m);
      assert Partner(n.Flip(), m, e) && Partner(n.Flip(), m, e');
    }
  }

  lemma LonelyKeepsInv(n: Net, n': Net, k: nat)
    requires Inv(n) && LonelyChange(n, n', k)
    requires IdsOk(n'.a) && ToOk(n') && ToOk(n'.Flip())
    ensures Inv(n')
  {
    LonelySettled(n, n', k);
    LonelyLinks(n, n', k);
  }

  lemma RefusalStep(n: Net, k: nat, wcalls: seq<WriteCall>)
    requires IdsOk(n.a) && ToOk(n) && ToOk(n.Flip()) && k in n.a.socks && Lonely(n, k)
    requires n.toA != [] && IsFor(n.toA[0], k)
    requires forall d :: !Partner(n, k, d)
    ensures var n' := Update(n, k, Deliver(n.a.socks[k], n.toA[0], wcalls), n.toA[1..]);
            LonelyChange(n, n', k) && IdsOk(n'.a) && ToOk(n') && ToOk(n'.Flip())
  {
    var p, x := n.toA[0], n.a.socks[k];
    assert Inbox(n.toA, k)[0] == p;
    var e := Deliver(x, p, wcalls);
    var n' := Update(n, k, e, n.toA[1..]);
    assert e.s == Close(NewSocket(k, true, None), PeerClosed).s;
    assert e.Out() == [] && n'.toB == n.toB;
    assert Lonely(n', k) by {
      assert Inbox(n.toA, k) == [p] + Inbox(n'.toA, k);
    }
    assert SamePartners(n, n');
  }

  lemma DeliverKeepsInv(n: Net, wcalls: seq<WriteCall>)
    requires Inv(n) && n.toA != [] && !n.toA[0].Open?
    ensures n.toA[0].arg1 in n.a.socks
    ensures Inv(Update(n, n.toA[0].arg1, Deliver(n.a.socks[n.toA[0].arg1], n.toA[0], wcalls), n.toA[1..]))
  {
    var p := n.toA[0];
    var k := p.arg1;
    assert p in n.toA;
    assert Inbox(n.toA, k)[0] == p;
    if d :| Partner(n, k, d) {
      var l := View(n, k, d);
      DeliverKeepsLink(l, wcalls);
      DeliverFacts(l, wcalls);
      PartnerUpdateKeepsInv(n, k, d, Deliver(n.a.socks[k], p, wcalls), true);
    } else {
      RefusalStep(n, k, wcalls);
      LonelyKeepsInv(n, Update(n, k, Deliver(n.a.socks[k], p, wcalls), n.toA[1..]), k);
    }
  }

  lemma DeliverFacts(l: Link, wcalls: seq<WriteCall>)
    requires LinkInv(l) && l.toX != [] && Addressed(l.toX[0], l.y.id, l.x.id)
    ensures var e := Deliver(l.x, l.toX[0], wcalls);
            && e.s.id == l.x.id && e.s.opener == l.x.opener
            && |e.data| <= MAX_PAYLOAD && (e.Out() != [] ==> e.to == l.y.id)
  {
    if l.x.status.Live? {
      PacketLaw(l.x, l.toX[0], wcalls, l.y.id);
    }
  }

  lemma {:induction false} NothingFor(ps: seq<Packet>, k: nat)
    requires forall p :: p in ps ==> !IsFor(p, k)
    ensures Inbox(ps, k) == []
  {
    if ps != [] {
      assert ps[0] in ps;
      NothingFor(ps[1..], k);
    }
  }

  lemma {:induction false} NoOpenOf(ps: seq<Packet>, k: nat)
    requires Open(k) !in ps
    ensures Opens(ps, k) == 0
  {
    if ps != [] {
      assert ps[0] in ps;
      NoOpenOf(ps[1..], k);
    }
  }

  /** One packet more under way. */
  lemma InboxSnoc(ps: seq<Packet>, p: Packet, k: nat)
    ensures Inbox(ps + [p], k) == Inbox(ps, k) + (if IsFor(p, k) then [p] else [])
    ensures Opens(ps + [p], k) == Opens(ps, k) + (if p == Open(k) then 1 else 0)
  {
    InboxConcat(ps, [p], k);
    OpensConcat(ps, [p], k);
    assert [p][1..] == [];
  }

  /** An id not installed yet has no acceptor on the other side. */
  lemma NewIdHasNoPartner(n: Net, k: nat, d: nat)
    requires Settled(n.Flip()) && k !in n.a.socks && d in n.b.socks && !n.b.socks[d].opener
    ensures n.b.socks[d].remote != Some(k)
  {
    assert !Lonely(n.Flip(), d);
    var m :| Partner(n.Flip(), d, m);
  }

  lemma ConnectStep(n: Net, k: nat)
    requires Settled(n.Flip()) && ToOk(n) && ToOk(n.Flip())
    requires k !in n.a.socks
    ensures var n' := n.(a := Install(n.a, NewSocket(k, true, None)), toB := n.toB + [Open(k)]);
            LonelyChange(n, n', k) && ToOk(n') && ToOk(n'.Flip())
  {
    var n' := n.(a := Install(n.a, NewSocket(k, true, None)), toB := n.toB + [Open(k)]);
    NothingFor(n.toA, k);
    NoOpenOf(n.toB, k);
    forall m
      ensures Inbox(n'.toB, m) == Inbox(n.toB, m)
      ensures Opens(n'.toB, m) == Opens(n.toB, m) + (if m == k then 1 else 0)
    {
      InboxSnoc(n.toB, Open(k), m);
    }
    forall m, e
      ensures Partner(n', m, e) <==> Partner(n, m, e)
    {
      if m == k && e in n.b.socks && !n.b.socks[e].opener {
        NewIdHasNoPartner(n, k, e);
      }
    }
  }

  lemma NextIdIsNew(h: Host)
    requires IdsOk(h) && h.installed + 1 < ID_SPACE
    ensures NextId(h.installed) == h.installed + 1 && NextId(h.installed) !in h.socks
  {
  }

  lemma ConnectKeepsInv(n: Net)
    requires Inv(n) && n.a.installed + 1 < ID_SPACE
    ensures Inv(StepA(n, Connect))
  {
    NextIdIsNew(n.a);
    ConnectStep(n, NextId(n.a.installed));
    LonelyKeepsInv(n, StepA(n, Connect), NextId(n.a.installed));
  }

  lemma InvFlips(n: Net)
    requires Inv(n)
    ensures Inv(n.Flip())
  {
    var f := n.Flip();
    assert f.Flip() == n;
    forall m, e | Partner(f, m, e)
      ensures LinkInv(View(f, m, e))
    {
      PartnerFlips(n, e, m);
      LinkFlips(View(n, e, m));
      assert View(f, m, e) == View(n, e, m).Flip();
    }
  }

  /** The sender of an OPEN under way is an opener that nobody accepted. */
  lemma OpenMeansLonely(n: Net)
    requires Inv(n) && n.toA != [] && n.toA[0].Open?
    ensures OpenAtHead(n, n.toA[0].arg0)
  {
    var f, i := n.Flip(), n.toA[0].arg0;
    assert n.toA[0] in n.toA;
    assert Opens(n.toA, i) > 0;
    forall d
      ensures !Partner(f, i, d)
    {
      if Partner(f, i, d) {
        PartnerFlips(n, d, i);
        LinkFlips(View(n, d, i));
        PartnersAreNotLonely(f, i, d);
      }
    }
  }

  ghost predicate OpenAtHead(n: Net, i: nat) {
    && n.toA != [] && n.toA[0] == Open(i)
    && i in n.b.socks && n.b.socks[i] == NewSocket(i, true, None)
    && Opens(n.toA, i) == 1 && Inbox(n.toB, i) == []
    && forall d :: !Partner(n.Flip(), i, d)
  }

  /** OPEN answered by CLSE: seen from the other side, the opener is lonely and stays so. */
  lemma RefuseStep(n: Net, i: nat)
    requires OpenAtHead(n, i)
    ensures LonelyChange(n.Flip(), Accept(n, false).Flip(), i)
  {
    var f, f' := n.Flip(), Accept(n, false).Flip();
    forall m
      ensures Inbox(f'.toA, m) == Inbox(f.toA, m) + (if m == i then [Clse(0, i)] else [])
      ensures Opens(f'.toA, m) == Opens(f.toA, m)
    {
      InboxSnoc(f.toA, Clse(0, i), m);
    }
    assert Lonely(f', i);
    assert f'.a.socks == f.a.socks[i := f'.a.socks[i]];
  }

  lemma AcceptKeepsToOk(n: Net, accepted: bool)
    requires ToOk(n) && ToOk(n.Flip()) && n.toA != [] && n.toA[0].Open?
    requires accepted ==> NextId(n.a.installed) !in n.a.socks
    ensures ToOk(Accept(n, accepted)) && ToOk(Accept(n, accepted).Flip())
  {
    assert n.toA[0] in n.toA;
    assert forall p :: p in n.toA[1..] ==> p in n.toA;
  }

  lemma RefuseKeepsInv(n: Net)
    requires Inv(n) && n.toA != [] && n.toA[0].Open?
    ensures Inv(Accept(n, false))
  {
    OpenMeansLonely(n);
    RefuseStep(n, n.toA[0].arg0);
    AcceptKeepsToOk(n, false);
    InvFlips(n);
    var f' := Accept(n, false).Flip();
    LonelyKeepsInv(n.Flip(), f', n.toA[0].arg0);
    InvFlips(f');
  }

  // OPEN answered by OKAY: one new pair.

  ghost predicate Joined(n: Net, n': Net, k: nat, i: nat) {
    && k !in n.a.socks && i in n.b.socks
    && n'.a.socks == n.a.socks[k := Acceptor(k, i)] && n'.b == n.b
    && n.b.socks[i] == NewSocket(i, true, None)
    && Inbox(n'.toA, k) == [] && Inbox(n'.toB, i) == [Okay(k, i)]
    && (forall m :: Inbox(n'.toA, m) == Inbox(n.toA, m))
    && (forall m :: m != i ==> Inbox(n'.toB, m) == Inbox(n.toB, m) && Opens(n'.toA, m) == Opens(n.toA, m))
    && Opens(n'.toA, i) == 0
    && (forall m :: Opens(n'.toB, m) == Opens(n.toB, m))
    && (forall d :: !Partner(n, d, i))
    && (forall m, e :: Partner(n', m, e) <==> Partner(n, m, e) || (m == k && e == i))
  }

  /** The packets under way after an OPEN was accepted. */
  lemma AcceptPackets(n: Net, k: nat, i: nat, m: nat)
    requires OpenAtHead(n, i) && k == NextId(n.a.installed)
    ensures var n' := Accept(n, true);
            && Inbox(n'.toA, m) == Inbox(n.toA, m)
            && Opens(n'.toA, m) == Opens(n.toA, m) - (if m == i then 1 else 0)
            && Inbox(n'.toB, m) == Inbox(n.toB, m) + (if m == i then [Okay(k, i)] else [])
            && Opens(n'.toB, m) == Opens(n.toB, m)
  {
    InboxSnoc(n.toB, Okay(k, i), m);
  }

  lemma AcceptJoins(n: Net, k: nat, i: nat)
    requires OpenAtHead(n, i) && Settled(n.Flip()) && ToOk(n)
    requires k == NextId(n.a.installed) && k !in n.a.socks
    ensures Joined(n, Accept(n, true), k, i)
  {
    hide Inbox, Opens, Partner, Settled;
    var n' := Accept(n, true);
    NothingFor(n.toA, k);
    forall m
      ensures Inbox(n'.toA, m) == Inbox(n.toA, m) && Opens(n'.toA, m) == Opens(n.toA, m) - (if m == i then 1 else 0)
      ensures Inbox(n'.toB, m) == Inbox(n.toB, m) + (if m == i then [Okay(k, i)] else [])
      ensures Opens(n'.toB, m) == Opens(n.toB, m)
    {
      AcceptPackets(n, k, i, m);
    }
    forall d
      ensures !Partner(n, d, i)
    {
      PartnerFlips(n, d, i);
    }
    AcceptPartners(n, k, i);
  }

  lemma AcceptPartners(n: Net, k: nat, i: nat)
    requires OpenAtHead(n, i) && Settled(n.Flip())
    requires k == NextId(n.a.installed) && k !in n.a.socks
    ensures var n' := Accept(n, true);
            forall m, e :: Partner(n', m, e) <==> Partner(n, m, e) || (m == k && e == i)
  {
    var n' := Accept(n, true);
    forall m, e
      ensures Partner(n', m, e) <==> Partner(n, m, e) || (m == k && e == i)
    {
      if m == k && e in n.b.socks && !n.b.socks[e].opener {
        NewIdHasNoPartner(n, k, e);
      }
    }
  }

  lemma JoinSettlesA(n: Net, n': Net, k: nat, i: nat)
    requires Settled(n) && Joined(n, n', k, i)
    ensures Settled(n')
  {
    assert Partner(n', k, i);
    forall m | m in n'.a.socks
      ensures (exists e :: Partner(n', m, e) && (n'.a.socks[m].opener ==> Opens(n'.toB, m) == 0)) || Lonely(n', m)
    {
      if m != k {
        if e :| Partner(n, m, e) && (n.a.socks[m].opener ==> Opens(n.toB, m) == 0) {
          assert Partner(n', m, e);
        }
      }
    }
  }

  lemma JoinSettlesB(n: Net, n': Net, k: nat, i: nat)
    requires Settled(n.Flip()) && Joined(n, n', k, i)
    ensures Settled(n'.Flip())
  {
    var f, f' := n.Flip(), n'.Flip();
    assert Partner(n', k, i);
    assert Partner(f', i, k);
    forall m | m in f'.a.socks
      ensures (exists e :: Partner(f', m, e) && (f'.a.socks[m].opener ==> Opens(f'.toB, m) == 0)) || Lonely(f', m)
    {
      if m != i {
        if e :| Partner(f, m, e) && (f.a.socks[m].opener ==> Opens(f.toB, m) == 0) {
          assert Partner(n, e, m) && Partner(n', e, m);
          assert Partner(f', m, e);
        }
      }
    }
  }

  lemma JoinLinks(n: Net, n': Net, k: nat, i: nat)
    requires LinksOk(n) && Unique(n) && Unique(n.Flip()) && Joined(n, n', k, i)
    ensures LinksOk(n') && Unique(n') && Unique(n'.Flip())
  {
    forall m, e | Partner(n', m, e)
      ensures LinkInv(View(n', m, e))
    {
      if m == k && e == i {
        AcceptedLink(i, k);
        LinkFlips(View(n', k, i));
        assert View(n', k, i).Flip() == Link(NewSocket(i, true, None), Acceptor(k, i), [Okay(k, i)], []);
      } else {
        assert Partner(n, m, e);
        assert e != i && m != k;
        assert View(n', m, e) == View(n, m, e);
      }
    }
    forall m, e, e' | Partner(n'.Flip(), m, e) && Partner(n'.Flip(), m, e')
      ensures e == e'
    {
      assert Partner(n', e, m) && Partner(n', e', m);
      PartnerFlips(n, e, m);
      PartnerFlips(n, e', m);
    }
  }

  lemma AcceptKeepsInv(n: Net, accepted: bool)
    requires Inv(n) && n.toA != [] && n.toA[0].Open?
    requires accepted ==> n.a.installed + 1 < ID_SPACE
    ensures Inv(Accept(n, accepted))
  {
    if !accepted {
      RefuseKeepsInv(n);
    } else {
      var k, i := NextId(n.a.installed), n.toA[0].arg0;
      OpenMeansLonely(n);
      NextIdIsNew(n.a);
      AcceptKeepsToOk(n, true);
      AcceptJoins(n, k, i);
      JoinSettlesA(n, Accept(n, true), k, i);
      JoinSettlesB(n, Accept(n, true), k, i);
      JoinLinks(n, Accept(n, true), k, i);
    }
  }

  // Runs.

  ghost predicate Bounded(n: Net) {
    n.a.installed < ID_SPACE && n.b.installed < ID_SPACE
  }

  lemma StepAKeepsInv(n: Net, act: Action)
    requires Inv(n) && Bounded(StepA(n, act))
    ensures Inv(StepA(n, act))
  {
    match act
    case Connect =>
      ConnectKeepsInv(n);
    case Select(id, ready) =>
      if id in n.a.socks {
        SelectKeepsInv(n, id, ready);
      }
    case Fire(id, wcalls, rcalls) =>
      if id in n.a.socks && n.a.socks[id].fde.pending != {} {
        FireKeepsInv(n, id, wcalls, rcalls);
      }
    case Receive(wcalls, accepted) =>
      if n.toA != [] {
        if n.toA[0].Open? {
          AcceptKeepsInv(n, accepted);
        } else {
          DeliverKeepsInv(n, wcalls);
        }
      }
  }

  /** Every run that stays within the id space keeps the invariant. */
  lemma {:induction false} RunKeepsInv(run: seq<Net>)
    requires IsRun(run) && Bounded(run[|run| - 1])
    ensures Inv(run[|run| - 1])
  {
    if |run| > 1 {
      var last := |run| - 2;
      var init, before := run[..|run| - 1], run[last];
      assert Moves(run[last], run[last + 1]);
      var m :| run[|run| - 1] == Step(before, m);
      assert IsRun(init) by {
        forall k | 0 <= k < |init| - 1
          ensures Moves(init[k], init[k + 1])
        {
          assert Moves(run[k], run[k + 1]);
        }
      }
      InstalledGrows(before, m);
      RunKeepsInv(init);
      if m.byA {
        StepAKeepsInv(before, m.act);
      } else {
        InvFlips(before);
        StepAKeepsInv(before.Flip(), m.act);
        InvFlips(StepA(before.Flip(), m.act));
      }
    }
  }

  lemma ReachableInv(n: Net)
    requires Reachable(n) && Bounded(n)
    ensures Inv(n)
  {
    var run :| IsRun(run) && run[|run| - 1] == n;
    RunKeepsInv(run);
  }

  lemma InstalledGrows(n: Net, m: Move)
    ensures n.a.installed <= Step(n, m).a.installed
    ensures n.b.installed <= Step(n, m).b.installed
  {
  }

  // What the invariant gives, for every run within the id space.

  /**
   * Credit conservation. While both ends live there is exactly one credit per
   * direction: the sender may read, or a WRTE is under way, or the receiver has a
   * backlog, or an OKAY is under way back. So a direction never stalls, never has
   * two unacknowledged WRTEs, and a queue never holds two packets.
   */
  lemma CreditConservation(n: Net, k: nat, d: nat)
    requires Reachable(n) && Bounded(n) && Partner(n, k, d)
    ensures var x, y := n.a.socks[k], n.b.socks[d];
            var toX, toY := Inbox(n.toA, k), Inbox(n.toB, d);
            && (x.status.Live? && y.status.Live? ==> Tokens(x, y, toX, toY) == 1 && Tokens(y, x, toY, toX) == 1)
            && Wrtes(toY) + Okays(toX) <= 1 && Wrtes(toX) + Okays(toY) <= 1
            && |x.queue| <= 1 && |y.queue| <= 1
  {
    ReachableInv(n);
    assert LinkInv(View(n, k, d));
  }

  /**
   * The same before there is a partner: a live opener waits with nothing to read or write, and its
   * one credit is the OPEN under way, until that is refused and the CLSE is under way instead.
   */
  lemma OpenerCredit(n: Net, k: nat)
    requires Reachable(n) && Bounded(n) && k in n.a.socks && n.a.socks[k].status.Live?
    requires forall d :: !Partner(n, k, d)
    ensures var x := n.a.socks[k];
            && x.opener && x.remote == None && x.fde == IDLE && x.queue == [] && x.taken == [] && x.written == []
            && (if Opens(n.toB, k) == 1 then Inbox(n.toA, k) == [] else Opens(n.toB, k) == 0 && Inbox(n.toA, k) == [Clse(0, k)])
  {
    ReachableInv(n);
    assert Lonely(n, k);
  }

  /** No deadlock: with both ends live and nothing under way, in each direction some end waits for its descriptor. */
  lemma NeverStalls(n: Net, k: nat, d: nat)
    requires Reachable(n) && Bounded(n) && Partner(n, k, d)
    requires n.a.socks[k].status.Live? && n.b.socks[d].status.Live?
    requires Inbox(n.toA, k) == [] && Inbox(n.toB, d) == []
    ensures var x, y := n.a.socks[k], n.b.socks[d];
            (Read in x.fde.wants || Write in y.fde.wants) && (Read in y.fde.wants || Write in x.fde.wants)
  {
    ReachableInv(n);
    assert LinkInv(View(n, k, d));
  }

  /**
   * Stream fidelity. As long as one end lives, what the other end read from its descriptor, whether
   * that lives or has ended, is byte for byte what this one wrote, then what it has queued, then
   * what is under way; and no socket ever wrote anything but a prefix of what its partner read.
   */
  lemma StreamFidelity(n: Net, k: nat, d: nat)
    requires Reachable(n) && Bounded(n) && Partner(n, k, d)
    ensures var x, y := n.a.socks[k], n.b.socks[d];
            && (y.status.Live? ==> x.taken == y.written + Flatten(y.queue) + Data(Inbox(n.toB, d)))
            && (x.status.Live? ==> y.taken == x.written + Flatten(x.queue) + Data(Inbox(n.toA, k)))
            && y.written <= x.taken && x.written <= y.taken
  {
    ReachableInv(n);
    assert LinkInv(View(n, k, d));
  }

  /**
   * Graceful close. When a sender's own descriptor ends it and the receiver's does
   * not fail, the receiver is destroyed only after writing every byte the sender read.
   */
  lemma GracefulClose(n: Net, k: nat, d: nat)
    requires Reachable(n) && Bounded(n) && Partner(n, k, d)
    ensures var x, y := n.a.socks[k], n.b.socks[d];
            && (x.cause.OwnFd? && y.status.Dead? && !y.Faulted() ==> y.written == x.taken)
            && (y.cause.OwnFd? && x.status.Dead? && !x.Faulted() ==> x.written == y.taken)
            && (x.cause.OwnFd? && y.status.Closing? && !y.Faulted() ==> y.written + Flatten(y.queue) == x.taken)
  {
    ReachableInv(n);
    assert LinkInv(View(n, k, d));
  }

  /** The event handler and the dispatch never follow a null peer of a live socket. */
  lemma PeerIsKnown(n: Net, k: nat)
    requires Reachable(n) && Bounded(n) && k in n.a.socks
    ensures var x := n.a.socks[k];
            x.status.Live? && (x.fde.pending != {} || x.queue != []) ==> x.HasPeer()
  {
    ReachableInv(n);
    if d :| Partner(n, k, d) {
      assert LinkInv(View(n, k, d));
    }
  }

  /** The ids handed out are distinct and nonzero exactly until the 32-bit counter wraps. */
  lemma IdsFreshIff(count: nat)
    ensures (forall j, k :: 0 <= j < k < count ==> NextId(j) != NextId(k) && NextId(k) != 0)
            <==> count < 0x1_0000_0000
  {
    if count >= ID_SPACE {
      assert NextId(ID_SPACE - 1) == 0;
      assert !(NextId(0) != NextId(ID_SPACE - 1) && NextId(ID_SPACE - 1) != 0);
    }
  }

  /** A socket that knows its peer has exactly one partner, and it is that peer. */
  lemma PeersArePaired(n: Net, k: nat)
    requires Reachable(n) && Bounded(n) && k in n.a.socks && n.a.socks[k].remote.Some?
    ensures var d := n.a.socks[k].remote.value;
            Partner(n, k, d) && forall e :: Partner(n, k, e) ==> e == d
  {
    ReachableInv(n);
    assert !Lonely(n, k);
    var d :| Partner(n, k, d);
    assert LinkInv(View(n, k, d));
  }
}
