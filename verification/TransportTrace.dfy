/**
 * What the threads around a transport do over a whole run, told from the actions alone: which
 * packets reach the main loop, which of its packets reach the remote, and that a leaving thread
 * gets away.
 */
module TransportTrace {
  import opened Basics
  import opened Transport

  /** Where some actions lead. */
  function After(s: State, acts: seq<Action>): State
    decreases |acts|
  {
    if acts == [] then s else Step(After(s, acts[..|acts| - 1]), acts[|acts| - 1])
  }

  lemma {:induction false} RunOf(token: nat, acts: seq<Action>) returns (run: seq<State>)
    ensures IsRun(run) && run[|run| - 1] == After(Start(token), acts)
    decreases |acts|
  {
    if acts == [] {
      run := [Start(token)];
    } else {
      var last := |acts| - 1;
      var init := RunOf(token, acts[..last]);
      run := init + [Step(init[|init| - 1], acts[last])];
      assert run[0] == init[0];
      forall k | 0 <= k < |run| - 1
        ensures Steps(run[k], run[k + 1])
      {
        assert k < |init| - 1 ==> Steps(init[k], init[k + 1]);
      }
    }
  }

  lemma {:induction false} ActsOf(run: seq<State>) returns (token: nat, acts: seq<Action>)
    requires IsRun(run)
    ensures run[|run| - 1] == After(Start(token), acts)
  {
    hide Step;
    if |run| == 1 {
      token :| run[0] == Start(token);
      acts := [];
    } else {
      var last, init := |run| - 2, run[..|run| - 1];
      assert Steps(run[last], run[last + 1]);
      var a :| run[last + 1] == Step(run[last], a);
      forall k | 0 <= k < |init| - 1
        ensures Steps(init[k], init[k + 1])
      {
        assert Steps(run[k], run[k + 1]);
      }
      token, acts := ActsOf(init);
      assert (acts + [a])[..|acts|] == acts;
      acts := acts + [a];
    }
  }

  /** The reachable states are those that some actions lead to. */
  lemma ReachableIff(s: State)
    ensures Reachable(s) <==> exists token, acts :: s == After(Start(token), acts)
  {
    if Reachable(s) {
      var run :| IsRun(run) && run[|run| - 1] == s;
      var token, acts := ActsOf(run);
    }
    if token, acts :| s == After(Start(token), acts) {
      var run := RunOf(token, acts);
    }
  }

  // From the output thread to the main loop.

  /** The output thread has to post SYNC(1, token), copies packets, or is done. */
  datatype Stage = Fresh | Copying | Done

  /** What its own actions make of it: which packets were posted. */
  datatype Output = Output(stage: Stage, on: bool, copied: seq<Packet>, off: bool)

  function Outputs(o: Output, a: Action): Output {
    match a
    case OutSyncOn(ok) => if o.stage.Fresh? then o.(stage := if ok then Copying else Done, on := ok) else o
    case OutForward(p, ok) =>
      if !o.stage.Copying? then o else if ok then o.(copied := o.copied + [p]) else o.(stage := Done)
    case OutSyncOff(ok) => if o.stage.Copying? then o.(stage := Done, off := ok) else o
    case _ => o
  }

  function OutputOf(acts: seq<Action>): Output
    decreases |acts|
  {
    if acts == [] then Output(Fresh, false, [], false) else Outputs(OutputOf(acts[..|acts| - 1]), acts[|acts| - 1])
  }

  /** What the main loop reads from the output thread in one action, and in a run. */
  function TakenBy(s: State, a: Action): seq<Packet> {
    if a.MainReceive? && s.flow.up != [] && !s.life.freed then [s.flow.up[0]] else []
  }

  function Taken(token: nat, acts: seq<Action>): seq<Packet>
    decreases |acts|
  {
    if acts == [] then []
    else var init := acts[..|acts| - 1]; Taken(token, init) + TakenBy(After(Start(token), init), acts[|acts| - 1])
  }

  predicate StageOk(s: State, o: Output, token: nat) {
    && (o.stage.Fresh? <==> s.outPc.Work? && !s.flow.started)
    && (o.stage.Copying? <==> s.outPc.Work? && s.flow.started)
    && (o.stage.Fresh? ==> !o.on && o.copied == [])
    && (!o.stage.Done? ==> !o.off)
    && s.flow.token == (if o.stage.Fresh? then token else token + 1)
  }

  function Posted(o: Output, token: nat): seq<Packet> {
    (if o.on then [Sync(1, token + 1)] else []) + o.copied + (if o.off then [Sync(0, 0)] else [])
  }

  lemma StageStep(s: State, o: Output, a: Action, token: nat)
    requires StageOk(s, o, token)
    ensures StageOk(Step(s, a), Outputs(o, a), token)
  {
    if a.OutLeave? && Leaving(s.outPc) {
      LeaveMovesOn(Touch(s.life), s.outPc);
    }
    hide Leave;
  }

  /** What one action adds to one end or moves from one end of the FIFO to the other. */
  lemma UpStep(s: State, o: Output, a: Action, token: nat)
    requires StageOk(s, o, token)
    ensures Posted(o, token) <= Posted(Outputs(o, a), token)
    ensures TakenBy(s, a) + Step(s, a).flow.up == s.flow.up + Posted(Outputs(o, a), token)[|Posted(o, token)|..]
  {
    hide Leave, Touch;
  }

  /**
   * The main loop gets, without loss and in order, SYNC(1, token) if it was posted, then every packet
   * the output thread copied from the remote, then SYNC(0, 0) if it was posted.
   */
  lemma {:induction false} UpCarriesAll(token: nat, acts: seq<Action>)
    ensures StageOk(After(Start(token), acts), OutputOf(acts), token)
    ensures var o := OutputOf(acts);
            Taken(token, acts) + After(Start(token), acts).flow.up ==
            (if o.on then [Sync(1, token + 1)] else []) + o.copied + (if o.off then [Sync(0, 0)] else [])
    decreases |acts|
  {
    hide Step, TakenBy;
    if acts != [] {
      var init, a := acts[..|acts| - 1], acts[|acts| - 1];
      var s, o := After(Start(token), init), OutputOf(init);
      UpCarriesAll(token, init);
      StageStep(s, o, a, token);
      UpStep(s, o, a, token);
      var more := Posted(OutputOf(acts), token)[|Posted(o, token)|..];
      Assoc(Taken(token, init), TakenBy(s, a), Step(s, a).flow.up);
      Assoc(Taken(token, init), s.flow.up, more);
    }
  }

  // From the main loop to the input thread.

  /** What the main loop sends in one action: the echo of a SYNC, or a packet of its own. */
  function SentBy(s: State, a: Action): seq<Packet> {
    match a
    case MainReceive => if TakenBy(s, a) != [] && TakenBy(s, a)[0].Sync? then TakenBy(s, a) else []
    case MainSend(id) => if s.life.freed then [] else [Other(id)]
    case _ => []
  }

  function Sent(token: nat, acts: seq<Action>): seq<Packet>
    decreases |acts|
  {
    if acts == [] then []
    else var init := acts[..|acts| - 1]; Sent(token, init) + SentBy(After(Start(token), init), acts[|acts| - 1])
  }

  /** What the input thread reads in one action, and in a run. */
  function ReadBy(s: State, a: Action): seq<Packet> {
    if a.InReceive? && s.inPc.Work? && s.flow.down != [] then [s.flow.down[0]] else []
  }

  function Read(token: nat, acts: seq<Action>): seq<Packet>
    decreases |acts|
  {
    if acts == [] then []
    else var init := acts[..|acts| - 1]; Read(token, init) + ReadBy(After(Start(token), init), acts[|acts| - 1])
  }

  lemma DownStays(s: State, a: Action)
    requires !a.MainReceive? && !a.MainSend? && !a.InReceive?
    ensures Step(s, a).flow.down == s.flow.down
  {
    hide Leave, Touch;
  }

  lemma DownStep(s: State, a: Action)
    ensures ReadBy(s, a) + Step(s, a).flow.down == s.flow.down + SentBy(s, a)
  {
    if a.MainReceive? || a.MainSend? || a.InReceive? {
      hide Leave, Touch, SyncOn, Forward, SyncOff;
    } else {
      DownStays(s, a);
      hide Step;
    }
  }

  /** The input thread gets, without loss and in order, every SYNC the main loop read and all it sent. */
  lemma {:induction false} DownCarriesAll(token: nat, acts: seq<Action>)
    ensures Read(token, acts) + After(Start(token), acts).flow.down == Sent(token, acts)
    decreases |acts|
  {
    hide Step, ReadBy, SentBy;
    if acts != [] {
      var init, a := acts[..|acts| - 1], acts[|acts| - 1];
      var s := After(Start(token), init);
      DownCarriesAll(token, init);
      DownStep(s, a);
      Assoc(Read(token, init), ReadBy(s, a), Step(s, a).flow.down);
      Assoc(Read(token, init), s.flow.down, SentBy(s, a));
    }
  }

  // From the input thread to the remote.

  function Others(ps: seq<Packet>): seq<Packet>
    decreases |ps|
  {
    if ps == [] then []
    else var p := ps[|ps| - 1]; Others(ps[..|ps| - 1]) + if p.Other? then [p] else []
  }

  predicate Opens(p: Packet, token: nat) {
    p.Sync? && p.arg0 != 0 && p.arg1 == token
  }

  /** Where the first SYNC with this token is, or the length. */
  function Opening(ps: seq<Packet>, token: nat): (k: nat)
    ensures k <= |ps| && (k < |ps| ==> Opens(ps[k], token)) && forall j :: 0 <= j < k ==> !Opens(ps[j], token)
    decreases |ps|
  {
    if ps == [] then 0
    else
      var k := Opening(ps[..|ps| - 1], token);
      if k < |ps| - 1 || Opens(ps[k], token) then k else |ps|
  }

  predicate Stops(p: Packet) {
    p.Sync? && p.arg0 == 0
  }

  predicate ReaderOk(f: Flow, ps: seq<Packet>, token: nat) {
    && (f.active <==> Opening(ps, token) < |ps|)
    && f.remote == Others(ps[Opening(ps, token)..])
    && (f.stopped <==> ps != [] && Stops(ps[|ps| - 1]))
    && forall k :: 0 <= k < |ps| - 1 ==> !Stops(ps[k])
  }

  lemma OpeningStays(ps: seq<Packet>, p: Packet, token: nat)
    ensures var k := Opening(ps, token);
            && Opening(ps + [p], token) == (if k < |ps| || Opens(p, token) then k else |ps| + 1)
            && Others((ps + [p])[Opening(ps + [p], token)..]) == Others(ps[k..]) + if p.Other? && k < |ps| then [p] else []
  {
    var k := Opening(ps, token);
    assert (ps + [p])[..|ps|] == ps;
    assert (ps + [p])[k..] == ps[k..] + [p];
    assert (ps[k..] + [p])[..|ps| - k] == ps[k..];
  }

  lemma ReceiveReads(f: Flow, ps: seq<Packet>, token: nat)
    requires f.down != [] && !f.stopped && (f.down[0].Sync? ==> f.token == token) && ReaderOk(f, ps, token)
    ensures ReaderOk(Receive(f), ps + [f.down[0]], token)
  {
    OpeningStays(ps, f.down[0], token);
    hide Opening, Others;
  }

  lemma OthersDoNotRead(s: State, a: Action)
    requires ReadBy(s, a) == []
    ensures var f, f' := s.flow, Step(s, a).flow;
            f'.active == f.active && f'.stopped == f.stopped && f'.remote == f.remote
  {
    hide Leave;
  }

  lemma ReadStep(s: State, o: Output, a: Action, ps: seq<Packet>, token: nat)
    requires FlowInv(s) && StageOk(s, o, token) && ReaderOk(s.flow, ps, token + 1)
    ensures ReaderOk(Step(s, a).flow, ps + ReadBy(s, a), token + 1)
  {
    hide Leave, Opening, Others, PhaseOk, ForwardOk;
    if ReadBy(s, a) == [] {
      OthersDoNotRead(s, a);
      hide Step;
      assert ps + ReadBy(s, a) == ps;
    } else {
      ReceiveReads(s.flow, ps, token + 1);
      hide ReaderOk;
    }
  }

  /**
   * The remote gets exactly the packets, not SYNCs, the input thread read behind the first SYNC with
   * the token; it reads nothing behind the first SYNC(0, ..), and has stopped exactly if it read one.
   */
  lemma {:induction false} RemoteGets(token: nat, acts: seq<Action>)
    ensures var f, ps := After(Start(token), acts).flow, Read(token, acts);
            && (f.active <==> exists k :: 0 <= k < |ps| && Opens(ps[k], token + 1))
            && f.remote == Others(ps[Opening(ps, token + 1)..])
            && (f.stopped <==> exists k :: 0 <= k < |ps| && Stops(ps[k]))
            && forall k :: 0 <= k < |ps| - 1 ==> !Stops(ps[k])
    ensures ReaderOk(After(Start(token), acts).flow, Read(token, acts), token + 1)
    decreases |acts|
  {
    hide Step, ReadBy, StageOk, FlowInv;
    if acts != [] {
      var init, a := acts[..|acts| - 1], acts[|acts| - 1];
      var s := After(Start(token), init);
      RemoteGets(token, init);
      UpCarriesAll(token, init);
      var run := RunOf(token, init);
      RunKeepsInv(run);
      ReadStep(s, OutputOf(init), a, Read(token, init), token);
    }
  }

  // Getting away.

  lemma InputStep(s: State, a: Action)
    requires FlowInv(s)
    ensures Step(s, a).inPc.Work? <==> s.inPc.Work? && a != InFail && (a.InReceive? ==> !Step(s, a).flow.stopped)
    ensures !a.InReceive? ==> Step(s, a).flow.stopped == s.flow.stopped
    ensures s.flow.stopped ==> Step(s, a).flow.stopped
  {
    hide FlowOk;
    if a.InLeave? && Leaving(s.inPc) {
      LeaveMovesOn(Touch(s.life), s.inPc);
    }
    hide Leave;
  }

  /** The input thread works exactly until it reads SYNC(0, ..) or fails to read. */
  lemma {:induction false} InputWorksIff(token: nat, acts: seq<Action>)
    ensures var s := After(Start(token), acts); s.inPc.Work? <==> !s.flow.stopped && InFail !in acts
    decreases |acts|
  {
    hide Step, FlowInv;
    if acts != [] {
      var init, a := acts[..|acts| - 1], acts[|acts| - 1];
      assert acts == init + [a];
      InputWorksIff(token, init);
      var run := RunOf(token, init);
      RunKeepsInv(run);
      InputStep(After(Start(token), init), a);
    }
  }

  /** Whoever asks first, a transport that the main loop has kicked is kicked once, or a thread is just about to. */
  lemma MainKicks(s: State)
    requires Reachable(s) && !s.life.freed
    ensures var l := Step(s, MainKick).life;
            l.kicked && l.kicks + Calling(s.outPc) + Calling(s.inPc) == 1
  {
    var run :| IsRun(run) && run[|run| - 1] == s;
    RunKeepsInv(run);
  }

  /** The steps a thread has before it is gone. */
  function Rank(pc: Pc): nat {
    match pc
    case Work => 5
    case KickCheck => 4
    case KickLock => 3
    case KickCall => 2
    case Unref => 1
    case Gone => 0
  }

  function Count(acts: seq<Action>, a: Action): nat
    decreases |acts|
  {
    if acts == [] then 0 else Count(acts[..|acts| - 1], a) + if acts[|acts| - 1] == a then 1 else 0
  }

  lemma RankStep(s: State, a: Action)
    ensures Rank(Step(s, a).outPc) <= Rank(s.outPc) && Rank(Step(s, a).inPc) <= Rank(s.inPc)
    ensures a == OutLeave && Leaving(s.outPc) ==> Rank(Step(s, a).outPc) < Rank(s.outPc)
    ensures a == InLeave && Leaving(s.inPc) ==> Rank(Step(s, a).inPc) < Rank(s.inPc)
  {
  }

  /**
   * A thread that stopped working is gone after four steps of its own, whatever the others do
   * meanwhile, and never works again.
   */
  lemma {:induction false} ThreadGetsAway(s: State, acts: seq<Action>)
    ensures !s.outPc.Work? ==> !After(s, acts).outPc.Work? && (Count(acts, OutLeave) >= 4 ==> After(s, acts).outPc.Gone?)
    ensures !s.inPc.Work? ==> !After(s, acts).inPc.Work? && (Count(acts, InLeave) >= 4 ==> After(s, acts).inPc.Gone?)
    ensures !s.outPc.Work? ==> Rank(After(s, acts).outPc) + Count(acts, OutLeave) <= 4 || After(s, acts).outPc.Gone?
    ensures !s.inPc.Work? ==> Rank(After(s, acts).inPc) + Count(acts, InLeave) <= 4 || After(s, acts).inPc.Gone?
    decreases |acts|
  {
    hide Step;
    if acts != [] {
      var init, a := acts[..|acts| - 1], acts[|acts| - 1];
      ThreadGetsAway(s, init);
      RankStep(After(s, init), a);
    }
  }

  lemma {:induction false} AfterBoth(s: State, acts: seq<Action>, more: seq<Action>)
    ensures After(After(s, acts), more) == After(s, acts + more)
    decreases |more|
  {
    hide Step;
    if more == [] {
      assert acts + more == acts;
    } else {
      var last := |more| - 1;
      AfterBoth(s, acts, more[..last]);
      assert (acts + more)[..|acts| + last] == acts + more[..last];
    }
  }

  /**
   * Once neither thread works, four steps of each take the transport down: it is kicked once, closed
   * once, and the main loop, having got the removal message, frees it.
   */
  lemma TakenDown(s: State, acts: seq<Action>)
    requires Reachable(s) && !s.outPc.Work? && !s.inPc.Work?
    requires Count(acts, OutLeave) >= 4 && Count(acts, InLeave) >= 4
    ensures var l := After(s, acts).life; l.kicks == 1 && l.closes == 1 && (l.removals == 1 || l.freed)
    ensures Step(After(s, acts), MainFree).life.freed
  {
    hide Step, After, Count;
    ThreadGetsAway(s, acts);
    ReachableIff(s);
    var token, before :| s == After(Start(token), before);
    AfterBoth(Start(token), before, acts);
    var run := RunOf(token, before + acts);
    var s' := After(s, acts);
    assert Reachable(s');
    hide IsRun, Reachable, Start;
    Teardown(s');
    Frees(s');
  }

  lemma Frees(s: State)
    ensures Step(s, MainFree).life.freed <==> s.life.freed || s.life.removals > 0
  {
  }
}
