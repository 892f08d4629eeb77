/**
 * Two processes that each see only their own sockets and the packets they are given: if the packets
 * one takes are those the other sent, in order, what they do together is a run of `Multiplex`.
 */
module Processes {
  import opened Basics
  import opened Sockets
  import opened Streams
  import opened Multiplex

  /** What there is to know of one process: its sockets, and all packets it has sent. */
  datatype View = View(installed: nat, socks: map<nat, Socket>, out: seq<Packet>)

  const FRESH := View(0, map[], [])

  /** A process on its own, with packets to take. */
  function Alone(v: View, packets: seq<Packet>): Net {
    Net(Host(v.installed, v.socks), Host(0, map[]), packets, v.out)
  }

  function ViewOf(n: Net): View {
    View(n.a.installed, n.a.socks, n.toB)
  }

  /** A step of one process, given at most one packet. */
  function After(v: View, packets: seq<Packet>, act: Action): View {
    ViewOf(StepA(Alone(v, packets), act))
  }

  /** Two processes, and how many packets of the other each has taken. */
  datatype Joint = Joint(a: View, b: View, tookA: nat, tookB: nat)
  {
    predicate Fits() {
      tookA <= |b.out| && tookB <= |a.out|
    }

    function Flip(): Joint {
      Joint(b, a, tookB, tookA)
    }
  }

  /** The same with the packets that are under way. */
  function NetOf(j: Joint): Net
    requires j.Fits()
  {
    Net(Host(j.a.installed, j.a.socks), Host(j.b.installed, j.b.socks), j.b.out[j.tookA..], j.a.out[j.tookB..])
  }

  /** Process a makes a step; to receive, it takes the next packet that b sent. */
  predicate Acts(j: Joint, act: Action, j': Joint) {
    && j.Fits()
    && if act.Receive? then j.tookA < |j.b.out| && j' == j.(a := After(j.a, [j.b.out[j.tookA]], act), tookA := j.tookA + 1)
       else j' == j.(a := After(j.a, [], act))
  }

  ghost predicate Proceeds(j: Joint, j': Joint) {
    exists act :: Acts(j, act, j') || Acts(j.Flip(), act, j'.Flip())
  }

  /** Any number of steps of the two, in any order, from the start. */
  ghost predicate IsHistory(js: seq<Joint>) {
    && js != [] && js[0] == Joint(FRESH, FRESH, 0, 0)
    && forall k {:trigger Proceeds(js[k], js[k + 1])} :: 0 <= k < |js| - 1 ==> Proceeds(js[k], js[k + 1])
  }

  /** What a step does to a process is the same whoever else there is; it only adds packets. */
  lemma StepIsLocal(h: Host, b: Host, act: Action, toA: seq<Packet>, more: seq<Packet>, out: seq<Packet>, i: nat)
    requires i <= |out| && (act.Receive? ==> |toA| == 1) && (!act.Receive? ==> toA == [])
    ensures var s, n := StepA(Net(h, Host(0, map[]), toA, out), act), StepA(Net(h, b, toA + more, out[i..]), act);
            && n.a == s.a && n.b == b && n.toA == more
            && i <= |s.toB| && n.toB == s.toB[i..]
  {
    hide OnSelect, OnEvent, Deliver;
    match act
    case Connect =>
      Tail(out, [Open(NextId(h.installed))], i);
      assert toA + more == more;
    case Select(id, ready) =>
      assert toA + more == more;
      if id in h.socks {
        Tail(out, OnSelect(h.socks[id], ready).Out(), i);
      }
    case Fire(id, wcalls, rcalls) =>
      assert toA + more == more;
      if id in h.socks {
        Tail(out, OnEvent(h.socks[id], wcalls, rcalls).Out(), i);
      }
    case Receive(wcalls, accepted) =>
      var p := toA[0];
      assert (toA + more)[0] == p && (toA + more)[1..] == more && toA[1..] == [];
      if p.Open? {
        Tail(out, if accepted then [Okay(NextId(h.installed), p.arg0)] else [Clse(0, p.arg0)], i);
      } else if p.arg1 in h.socks {
        Tail(out, Deliver(h.socks[p.arg1], p, wcalls).Out(), i);
      }
  }

  lemma Tail(out: seq<Packet>, sent: seq<Packet>, i: nat)
    requires i <= |out|
    ensures (out + sent)[i..] == out[i..] + sent
  {
  }

  lemma ActsIsStep(j: Joint, act: Action, j': Joint)
    requires Acts(j, act, j')
    ensures j'.Fits() && NetOf(j') == StepA(NetOf(j), act)
  {
    hide StepA;
    var h, b := Host(j.a.installed, j.a.socks), Host(j.b.installed, j.b.socks);
    var toA := j.b.out[j.tookA..];
    if act.Receive? {
      StepIsLocal(h, b, act, [toA[0]], toA[1..], j.a.out, j.tookB);
      assert [toA[0]] + toA[1..] == toA && toA[1..] == j.b.out[j.tookA + 1..];
    } else {
      StepIsLocal(h, b, act, [], toA, j.a.out, j.tookB);
      assert [] + toA == toA;
    }
  }

  lemma ProceedsIsStep(j: Joint, j': Joint)
    requires Proceeds(j, j')
    ensures j.Fits() && j'.Fits() && Moves(NetOf(j), NetOf(j'))
  {
    var act :| Acts(j, act, j') || Acts(j.Flip(), act, j'.Flip());
    if Acts(j, act, j') {
      ActsIsStep(j, act, j');
      assert NetOf(j') == Step(NetOf(j), Move(true, act));
    } else {
      ActsIsStep(j.Flip(), act, j'.Flip());
      assert NetOf(j.Flip()) == NetOf(j).Flip() && NetOf(j'.Flip()) == NetOf(j').Flip();
      assert NetOf(j') == Step(NetOf(j), Move(false, act));
    }
  }

  lemma HistoryFits(js: seq<Joint>, k: nat)
    requires IsHistory(js) && k < |js|
    ensures js[k].Fits()
  {
    if k > 0 {
      var i := k - 1;
      assert Proceeds(js[i], js[i + 1]);
      ProceedsIsStep(js[i], js[i + 1]);
    }
  }

  /** What two processes do together, each on its own, is a run of the transition system. */
  lemma HistoryIsRun(js: seq<Joint>)
    requires IsHistory(js)
    ensures js[|js| - 1].Fits() && Reachable(NetOf(js[|js| - 1]))
  {
    hide Moves, Proceeds;
    forall k | 0 <= k < |js| ensures js[k].Fits() {
      HistoryFits(js, k);
    }
    var run := seq(|js|, k requires 0 <= k < |js| => NetOf(js[k]));
    forall k | 0 <= k < |run| - 1 ensures Moves(run[k], run[k + 1]) {
      assert Proceeds(js[k], js[k + 1]);
      ProceedsIsStep(js[k], js[k + 1]);
    }
    assert IsRun(run);
  }
}
