/**
 * The three threads around one transport (core/adb/transport.c): the output thread,
 * the main loop and the input thread exchange packets over two FIFOs, start and stop
 * forwarding by SYNC packets, and take the transport down by reference counting.
 * Every step is one access to shared state, so a run is an interleaving.
 */
module Transport {
  import opened Basics

  /** A SYNC packet, or any other one. */
  datatype Packet = Sync(arg0: nat, arg1: nat) | Other(id: nat)

  /** Before the main loop echoed SYNC(1, token), from then on, and once it echoed a SYNC(0, ..). */
  datatype Phase = Before | Between | After

  /** The packets, and what the threads know about them. */
  datatype Flow = Flow(
    token: nat,                 // t->sync_token
    up: seq<Packet>,            // output thread to main loop
    down: seq<Packet>,          // main loop to input thread
    started: bool,              // the output thread is past SYNC(1, token)
    active: bool,               // the input thread forwards
    remote: seq<Packet>,        // what it gave to write_to_remote
    stopped: bool,              // it read SYNC(0, 0)
    phase: Phase,
    pre: seq<Packet>, mid: seq<Packet>, post: seq<Packet>)  // what the main loop sent in each phase

  /** The reference count and the kick flag, with what was done to the transport. */
  datatype Life = Life(
    kicked: bool, refs: int,
    kicks: nat, closes: nat, removals: nat,  // removals: messages written to the main loop
    freed: bool,
    misuse: bool)               // a thread touched a freed transport, or a closed one was kicked

  /** Where a thread is: at work, in kick_transport, in transport_unref, or gone. */
  datatype Pc = Work | KickCheck | KickLock | KickCall | Unref | Gone

  datatype State = State(flow: Flow, life: Life, outPc: Pc, inPc: Pc)

  function Start(token: nat): State {
    State(Flow(token, [], [], false, false, [], false, Before, [], [], []),
          Life(false, 2, 0, 0, 0, false, false), Work, Work)
  }

  datatype Action =
    | OutSyncOn(ok: bool)        // the output thread posts SYNC(1, token)
    | OutForward(p: Packet, ok: bool)   // the remote may send anything, SYNC included
    | OutSyncOff(ok: bool)       // the remote is gone: post SYNC(0, 0)
    | MainReceive
    | MainSend(id: nat)
    | InReceive
    | InFail                     // reading from the main loop failed
    | OutLeave | InLeave         // one step of kick_transport or transport_unref
    | MainKick                   // close_usb_devices
    | MainFree                   // the removal message is handled

  // The output thread.

  function SyncOn(f: Flow, ok: bool): Flow {
    var f1 := f.(token := f.token + 1, started := true);
    if ok then f1.(up := f1.up + [Sync(1, f1.token)]) else f1
  }

  function Forward(f: Flow, p: Packet, ok: bool): Flow {
    if ok then f.(up := f.up + [p]) else f
  }

  function SyncOff(f: Flow, ok: bool): Flow {
    if ok then f.(up := f.up + [Sync(0, 0)]) else f
  }

  // The main loop: handle_packet echoes SYNC; anything else it sends when it likes.

  function Echo(f: Flow): Flow
    requires f.up != []
  {
    var p, f1 := f.up[0], f.(up := f.up[1..]);
    if p.Other? then f1
    else f1.(down := f.down + [p], phase := if p.arg0 == 0 then After
                                            else if f.phase.Before? && p.arg1 == f.token then Between
                                            else f.phase)
  }

  function Send(f: Flow, id: nat): Flow {
    var p := Other(id);
    match f.phase
    case Before => f.(down := f.down + [p], pre := f.pre + [p])
    case Between => f.(down := f.down + [p], mid := f.mid + [p])
    case After => f.(down := f.down + [p], post := f.post + [p])
  }

  // The input thread.

  function Receive(f: Flow): Flow
    requires f.down != []
  {
    var p, f1 := f.down[0], f.(down := f.down[1..]);
    if p.Other? then (if f.active then f1.(remote := f.remote + [p]) else f1)
    else if p.arg0 == 0 then f1.(stopped := true)
    else f1.(active := f.active || p.arg1 == f.token)
  }

  // Leaving.

  function Touch(l: Life): Life {
    l.(misuse := l.misuse || l.freed)
  }

  /** One step of a leaving thread: kick_transport looks, locks, calls; transport_unref is one step. */
  function Leave(l: Life, pc: Pc): (Life, Pc) {
    match pc
    case KickCheck => (l, if l.kicked then Unref else KickLock)
    case KickLock => (l.(kicked := true), if l.kicked then Unref else KickCall)
    case KickCall => (l.(kicks := l.kicks + 1, misuse := l.misuse || l.closes > 0), Unref)
    case Unref =>
      if l.refs != 1 then (l.(refs := l.refs - 1), Gone)
      else (l.(refs := 0, kicked := true, kicks := if l.kicked then l.kicks else l.kicks + 1,
               closes := l.closes + 1, removals := l.removals + 1), Gone)
    case _ => (l, pc)
  }

  predicate Leaving(pc: Pc) {
    !pc.Work? && !pc.Gone?
  }

  /** An action that is not possible leaves everything as it is. */
  function Step(s: State, a: Action): State {
    var f, l := s.flow, s.life;
    match a
    case OutSyncOn(ok) =>
      if !s.outPc.Work? || f.started then s
      else State(SyncOn(f, ok), Touch(l), if ok then Work else KickCheck, s.inPc)
    case OutForward(p, ok) =>
      if !s.outPc.Work? || !f.started then s
      else State(Forward(f, p, ok), Touch(l), if ok then Work else KickCheck, s.inPc)
    case OutSyncOff(ok) =>
      if !s.outPc.Work? || !f.started then s
      else State(SyncOff(f, ok), Touch(l), KickCheck, s.inPc)
    case MainReceive => if f.up == [] || l.freed then s else s.(flow := Echo(f))
    case MainSend(id) => if l.freed then s else s.(flow := Send(f, id))
    case InReceive =>
      if !s.inPc.Work? || f.down == [] then s
      else
        var f1 := Receive(f);
        State(f1, Touch(l), s.outPc, if f1.stopped then KickCheck else Work)
    case InFail => if s.inPc.Work? then s.(inPc := KickCheck, life := Touch(l)) else s
    case OutLeave =>
      if !Leaving(s.outPc) then s
      else var (l1, pc) := Leave(Touch(l), s.outPc); State(f, l1, pc, s.inPc)
    case InLeave =>
      if !Leaving(s.inPc) then s
      else var (l1, pc) := Leave(Touch(l), s.inPc); State(f, l1, s.outPc, pc)
    case MainKick =>
      if l.freed || l.kicked then s
      else s.(life := l.(kicked := true, kicks := l.kicks + 1, misuse := l.misuse || l.closes > 0))
    case MainFree =>
      if l.removals == 0 then s else s.(life := l.(removals := l.removals - 1, freed := true))
  }

  // Runs.

  ghost predicate Steps(s: State, s': State) {
    exists a: Action :: s' == Step(s, a)
  }

  ghost predicate IsRun(run: seq<State>) {
    && run != [] && (exists token :: run[0] == Start(token))
    && forall k {:trigger Steps(run[k], run[k + 1])} :: 0 <= k < |run| - 1 ==> Steps(run[k], run[k + 1])
  }

  ghost predicate Reachable(s: State) {
    exists run :: IsRun(run) && run[|run| - 1] == s
  }

  // The packets.

  predicate AllOther(ps: seq<Packet>) {
    forall k :: 0 <= k < |ps| ==> ps[k].Other?
  }

  /** Where the input thread will be once it has read some packets. */
  datatype Mode = Mode(active: bool, stopped: bool)

  function TakeOne(m: Mode, p: Packet, token: nat): Mode {
    if p.Other? || m.stopped then m
    else if p.arg0 == 0 then m.(stopped := true)
    else m.(active := m.active || p.arg1 == token)
  }

  function Reach(m: Mode, ps: seq<Packet>, token: nat): Mode
    decreases |ps|
  {
    if ps == [] then m else TakeOne(Reach(m, ps[..|ps| - 1], token), ps[|ps| - 1], token)
  }

  /** What it will forward of them. */
  function Wanted(m: Mode, ps: seq<Packet>, token: nat): seq<Packet>
    decreases |ps|
  {
    if ps == [] then []
    else
      var r, p := Reach(m, ps[..|ps| - 1], token), ps[|ps| - 1];
      Wanted(m, ps[..|ps| - 1], token) + if p.Other? && r.active && !r.stopped then [p] else []
  }

  function ModeOf(f: Flow): Mode {
    Mode(f.active, f.stopped)
  }

  lemma {:induction false} TakeFirst(m: Mode, ps: seq<Packet>, token: nat)
    requires ps != []
    ensures Reach(m, ps, token) == Reach(TakeOne(m, ps[0], token), ps[1..], token)
    ensures Wanted(m, ps, token) ==
            (if ps[0].Other? && m.active && !m.stopped then [ps[0]] else []) + Wanted(TakeOne(m, ps[0], token), ps[1..], token)
    decreases |ps|
  {
    var init := ps[..|ps| - 1];
    if |ps| == 1 {
      assert init == [] && ps[1..] == [] && ps == [ps[0]];
    } else {
      TakeFirst(m, init, token);
      assert ps[1..][..|ps| - 2] == init[1..];
    }
  }

  lemma {:induction false} NothingWanted(ps: seq<Packet>, token: nat)
    requires AllOther(ps)
    ensures Reach(Mode(false, false), ps, token) == Mode(false, false)
    ensures Wanted(Mode(false, false), ps, token) == []
    decreases |ps|
  {
    if ps != [] {
      NothingWanted(ps[..|ps| - 1], token);
    }
  }

  lemma AppendOne(m: Mode, ps: seq<Packet>, p: Packet, token: nat)
    ensures var r := Reach(m, ps, token);
            && Reach(m, ps + [p], token) == TakeOne(r, p, token)
            && Wanted(m, ps + [p], token) == Wanted(m, ps, token) + if p.Other? && r.active && !r.stopped then [p] else []
  {
    assert (ps + [p])[..|ps|] == ps;
  }

  /** The phase of the main loop is where the input thread will be after all that is under way. */
  predicate PhaseOk(f: Flow) {
    var r := Reach(ModeOf(f), f.down, f.token);
    match f.phase
    case Before => r == Mode(false, false)
    case Between => r == Mode(true, false)
    case After => r.stopped
  }

  /** What the input thread forwarded, then what it will of what is under way, is what was sent in between. */
  predicate ForwardOk(f: Flow) {
    f.remote + Wanted(ModeOf(f), f.down, f.token) == f.mid
  }

  /** Until the output thread posts SYNC(1, token) there is no SYNC; then it is the first. */
  predicate StartOk(f: Flow, outWorks: bool) {
    && (!f.started ==> f.up == [] && AllOther(f.down) && f.phase.Before? && !f.active && !f.stopped)
    && (f.phase.Before? ==> f.mid == [])
    && (f.phase.Before? && f.started && (f.up != [] || outWorks) ==> f.up != [] && f.up[0] == Sync(1, f.token))
  }

  predicate FlowOk(f: Flow, outWorks: bool) {
    PhaseOk(f) && ForwardOk(f) && StartOk(f, outWorks) && AllOther(f.mid)
  }

  lemma SendKeepsFlow(f: Flow, id: nat, outWorks: bool)
    requires FlowOk(f, outWorks)
    ensures FlowOk(Send(f, id), outWorks)
  {
    hide Reach, Wanted;
    AppendOne(ModeOf(f), f.down, Other(id), f.token);
    Assoc(f.remote, Wanted(ModeOf(f), f.down, f.token), [Other(id)]);
    assert f.remote + (Wanted(ModeOf(f), f.down, f.token) + []) == f.mid;
  }

  lemma EchoKeepsFlow(f: Flow, outWorks: bool)
    requires FlowOk(f, outWorks) && f.up != []
    ensures FlowOk(Echo(f), outWorks)
  {
    hide Reach, Wanted;
    AppendOne(ModeOf(f), f.down, f.up[0], f.token);
    assert Wanted(ModeOf(f), f.down, f.token) + [] == Wanted(ModeOf(f), f.down, f.token);
  }

  lemma ReceiveKeepsFlow(f: Flow, outWorks: bool)
    requires FlowOk(f, outWorks) && f.down != [] && !f.stopped
    ensures FlowOk(Receive(f), outWorks)
  {
    hide Reach, Wanted;
    TakeFirst(ModeOf(f), f.down, f.token);
    ModeMoves(f);
    ForwardedMoves(f);
    hide TakeOne, ModeOf;
  }

  lemma ModeMoves(f: Flow)
    requires f.down != [] && !f.stopped
    ensures TakeOne(ModeOf(f), f.down[0], f.token) == ModeOf(Receive(f))
  {
  }

  lemma ForwardedMoves(f: Flow)
    requires f.down != [] && !f.stopped
    ensures Receive(f).remote + Wanted(ModeOf(Receive(f)), f.down[1..], f.token) == f.remote + Wanted(ModeOf(f), f.down, f.token)
  {
    var p := f.down[0];
    TakeFirst(ModeOf(f), f.down, f.token);
    ModeMoves(f);
    hide Reach, Wanted, TakeOne;
    var w := Wanted(ModeOf(Receive(f)), f.down[1..], f.token);
    Assoc(f.remote, [p], w);
    assert [] + w == w;
  }

  lemma OutputKeepsFlow(f: Flow, p: Packet, ok: bool)
    requires FlowOk(f, true)
    ensures !f.started ==> FlowOk(SyncOn(f, ok), ok)
    ensures f.started ==> FlowOk(Forward(f, p, ok), ok) && FlowOk(SyncOff(f, ok), false)
  {
    hide Reach, Wanted;
    if !f.started {
      NothingWanted(f.down, f.token + 1);
      NothingWanted(f.down, f.token);
    }
  }

  predicate FlowInv(s: State) {
    (s.flow.stopped ==> !s.inPc.Work?) && FlowOk(s.flow, s.outPc.Work?)
  }

  lemma StepKeepsFlow(s: State, a: Action)
    requires FlowInv(s)
    ensures FlowInv(Step(s, a))
  {
    hide FlowOk, Leave;
    var f, works := s.flow, s.outPc.Work?;
    match a {
      case OutSyncOn(ok) =>
        if works {
          OutputKeepsFlow(f, Other(0), ok);
        }
      case OutForward(p, ok) =>
        if works {
          OutputKeepsFlow(f, p, ok);
        }
      case OutSyncOff(ok) =>
        if works {
          OutputKeepsFlow(f, Other(0), ok);
        }
      case MainReceive =>
        if f.up != [] {
          EchoKeepsFlow(f, works);
        }
      case MainSend(id) =>
        SendKeepsFlow(f, id, works);
      case InReceive =>
        if f.down != [] && s.inPc.Work? {
          ReceiveKeepsFlow(f, works);
        }
      case OutLeave =>
        if Leaving(s.outPc) {
          LeaveMovesOn(Touch(s.life), s.outPc);
        }
      case InLeave =>
        if Leaving(s.inPc) {
          LeaveMovesOn(Touch(s.life), s.inPc);
        }
      case _ =>
    }
  }

  lemma LeaveMovesOn(l: Life, pc: Pc)
    requires Leaving(pc)
    ensures !Leave(l, pc).1.Work?
  {
  }

  // Taking the transport down.

  function Holds(pc: Pc): int {
    if pc.Gone? then 0 else 1
  }

  function Calling(pc: Pc): nat {
    if pc.KickCall? then 1 else 0
  }

  predicate LifeInv(s: State) {
    var l := s.life;
    && l.refs == Holds(s.outPc) + Holds(s.inPc)
    && l.kicks + Calling(s.outPc) + Calling(s.inPc) == (if l.kicked then 1 else 0)
    && (s.outPc.Unref? || s.outPc.Gone? || s.inPc.Unref? || s.inPc.Gone? ==> l.kicked)
    && l.closes == (if l.refs == 0 then 1 else 0)
    && l.removals + (if l.freed then 1 else 0) == l.closes
    && !l.misuse
  }

  lemma StepKeepsLife(s: State, a: Action)
    requires LifeInv(s)
    ensures LifeInv(Step(s, a))
  {
  }

  lemma {:induction false} RunKeepsInv(run: seq<State>)
    requires IsRun(run)
    ensures FlowInv(run[|run| - 1]) && LifeInv(run[|run| - 1])
  {
    if |run| > 1 {
      var last, init := |run| - 2, run[..|run| - 1];
      assert Steps(run[last], run[last + 1]);
      var a :| run[last + 1] == Step(run[last], a);
      assert IsRun(init) by {
        forall k | 0 <= k < |init| - 1
          ensures Steps(init[k], init[k + 1])
        {
          assert Steps(run[k], run[k + 1]);
        }
      }
      RunKeepsInv(init);
      StepKeepsFlow(run[last], a);
      StepKeepsLife(run[last], a);
    }
  }

  // The theorems.

  /**
   * The SYNC protocol, whatever the remote sends, SYNCs of its own included: the remote got, in
   * order, packets the main loop sent after it first echoed SYNC(1, token) and before it first echoed
   * a SYNC(0, ..), and nothing else; all of them once the input thread read the latter, and all those
   * under way have been read before that. The first packet the main loop gets is SYNC(1, token).
   */
  lemma SyncProtocol(s: State)
    requires Reachable(s)
    ensures s.flow.remote <= s.flow.mid && AllOther(s.flow.remote)
    ensures s.flow.stopped ==> s.flow.remote == s.flow.mid
    ensures s.flow.down == [] ==> s.flow.remote == s.flow.mid && (s.flow.phase.Between? <==> s.flow.active && !s.flow.stopped)
    ensures s.flow.phase.Before? ==> s.flow.remote == []
    ensures s.flow.phase.Before? && s.flow.up != [] ==> s.flow.up[0] == Sync(1, s.flow.token)
  {
    var run :| IsRun(run) && run[|run| - 1] == s;
    RunKeepsInv(run);
    var f := s.flow;
    StoppedWantsNothing(ModeOf(f), f.down, f.token);
    InactiveWantsNothing(ModeOf(f), f.down, f.token);
  }

  lemma {:induction false} StoppedWantsNothing(m: Mode, ps: seq<Packet>, token: nat)
    ensures m.stopped ==> Reach(m, ps, token) == m && Wanted(m, ps, token) == []
    decreases |ps|
  {
    if ps != [] {
      StoppedWantsNothing(m, ps[..|ps| - 1], token);
    }
  }

  /** A thread that is inactive after some packets has forwarded none of them. */
  lemma {:induction false} InactiveWantsNothing(m: Mode, ps: seq<Packet>, token: nat)
    ensures m.active ==> Reach(m, ps, token).active
    ensures !Reach(m, ps, token).active ==> Wanted(m, ps, token) == []
    decreases |ps|
  {
    if ps != [] {
      InactiveWantsNothing(m, ps[..|ps| - 1], token);
    }
  }

  /**
   * Teardown: the transport is kicked at most once and never after it was closed; it is
   * closed, and the removal message sent, exactly when both threads are gone, once; by
   * then it was kicked; and no thread touches it after the main loop freed it.
   */
  lemma Teardown(s: State)
    requires Reachable(s)
    ensures s.life.kicks <= 1
    ensures s.life.closes == (if s.outPc.Gone? && s.inPc.Gone? then 1 else 0)
    ensures s.life.closes == s.life.removals + (if s.life.freed then 1 else 0)
    ensures s.life.closes == 1 ==> s.life.kicks == 1
    ensures s.life.freed ==> s.outPc.Gone? && s.inPc.Gone?
    ensures !s.life.misuse
  {
    var run :| IsRun(run) && run[|run| - 1] == s;
    RunKeepsInv(run);
  }
}
