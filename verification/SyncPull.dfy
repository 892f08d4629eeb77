/** A pull of one file (sync_recv), run against the service: whatever the two files and the connection do. */
module SyncPull {
  import opened Basics
  import opened Io
  import opened Wire
  import opened FileSync
  import opened SyncSession
  import opened SyncClient

  /** The service has something to send: the file opens, and a read of it works. */
  predicate Sends(w: World) {
    w.opens && !(ReadChunks(w.content, w.plan, SYNC_DATA_MAX).failed && ReadChunks(w.content, w.plan, SYNC_DATA_MAX).chunks == [])
  }

  /** How a pull of a file of this world ends. */
  function PullOf(w: World, l: Local): Pulled {
    var r := ReadChunks(w.content, w.plan, SYNC_DATA_MAX);
    if !Sends(w) then Pulled(Reported, Unlinked(AsBefore, l.removes))
    else if !l.creates then Pulled(Failed, Unlinked(AsBefore, l.unlinks))
    else
      var m := PiecesOutcome(r.chunks, l.plan);
      var made := Made(Flatten(r.chunks)[..m.count]);
      if !m.ok then Pulled(Failed, made)
      else if r.failed then Pulled(Reported, Unlinked(made, l.removes))
      else Pulled(Done, made)
  }

  lemma ParseFail(reason: Reason, after: seq<byte>)
    ensures Parse(FailMsg(reason) + after, true) == Malformed([], ID_FAIL, |reason|, reason + after)
    ensures !Opened(FailMsg(reason) + after) && ErrorCode(ID_FAIL, |reason|, reason + after) == Reported
    ensures IdOf(FailMsg(reason) + after) == ID_FAIL && SizeOf(FailMsg(reason) + after) == |reason|
    ensures |FailMsg(reason) + after| >= 8 && (FailMsg(reason) + after)[8..] == reason + after
  {
    Assoc(Head(ID_FAIL, |reason|), reason, after);
    ReadHead(ID_FAIL, |reason|, reason + after);
  }

  /** What the client finds in the whole answer, whatever follows it. */
  lemma AnswerParsed(w: World, after: seq<byte>)
    requires w.opens
    ensures var r, b := ReadChunks(w.content, w.plan, SYNC_DATA_MAX), RecvAnswer(w) + after;
            && Parse(b, true) == (if r.failed then Malformed(r.chunks, ID_FAIL, |w.reason|, w.reason + after)
                                  else Complete(r.chunks, 0, after))
            && (Opened(b) <==> Sends(w))
            && (!Sends(w) ==> b == FailMsg(w.reason) + after)
  {
    hide Parse, ReadChunks, Frames, FailMsg, Opened, Head;
    var r := ReadChunks(w.content, w.plan, SYNC_DATA_MAX);
    var end := if r.failed then FailMsg(w.reason) else Head(ID_DONE, 0);
    Assoc(Frames(r.chunks), end, after);
    FramesThen(r.chunks, end + after, true);
    StartsWith(r.chunks, end + after);
    assert r.chunks + [] == r.chunks;
    if r.failed {
      ParseFail(w.reason, after);
    } else {
      ParseHead(ID_DONE, 0, after, true);
      OpenedHead(ID_DONE, 0, after);
    }
  }

  /** The whole answer to RECV, and what the client makes of it. */
  lemma RecvResult(w: World, l: Local, after: seq<byte>)
    ensures PullResult(RecvAnswer(w) + after, l) == PullOf(w, l)
  {
    hide PiecesOutcome, FailMsg, Flatten, ReadChunks, Parse, Opened, ErrorCode, IdOf, SizeOf, Frames;
    ParseFail(w.reason, after);
    if w.opens {
      AnswerParsed(w, after);
      ShortIsNotOpened(RecvAnswer(w) + after);
    }
  }

  /** The bytes that the client got of what the service said: a part of the answer and more, or of a FAIL in its place. */
  ghost predicate PartOf(b: seq<byte>, w: World, after: seq<byte>) {
    b <= RecvAnswer(w) + after || CutFail(b)
  }

  /** A file is made only of first bytes of the remote file, and a pull that is done has all of them. */
  lemma PullPart(w: World, l: Local, b: seq<byte>, after: seq<byte>)
    requires PartOf(b, w, after)
    ensures var r := PullResult(b, l);
            && (r.file.Made? ==> r.file.data <= w.content)
            && (r.code.Done? ==> r == PullOf(w, l) == Pulled(Done, Made(w.content)))
  {
    if CutFail(b) {
      CutFailIsNoFile(b, l);
    } else {
      AnswerPart(w, l, b, after);
    }
  }

  lemma CutFailIsNoFile(b: seq<byte>, l: Local)
    requires CutFail(b)
    ensures !PullResult(b, l).file.Made? && !PullResult(b, l).code.Done?
  {
    hide Parse, PiecesOutcome, Flatten;
    var reason: Reason :| |reason| >= 8 && b <= FailMsg(reason);
    if |b| >= 8 {
      assert b[0..4] == FailMsg(reason)[0..4] == Le32(ID_FAIL);
      Le32RoundTrip(ID_FAIL);
    }
  }

  lemma AnswerPart(w: World, l: Local, b: seq<byte>, after: seq<byte>)
    requires b <= RecvAnswer(w) + after
    ensures var r := PullResult(b, l);
            && (r.file.Made? ==> r.file.data <= w.content)
            && (r.code.Done? ==> r == PullOf(w, l) == Pulled(Done, Made(w.content)))
  {
    hide PiecesOutcome, Flatten, ReadChunks, Parse, RecvAnswer, PullOf, Opened;
    var all := RecvAnswer(w) + after;
    var rest := all[|b|..];
    assert b + rest == all;
    ParseFirst(b, rest, true);
    if PullResult(b, l).file.Made? {
      SameOpened(b, rest);
      assert w.opens by { AnswerOpens(w, after); }
      AnswerParsed(w, after);
      ReadsWholeIff(w.content, w.plan, SYNC_DATA_MAX);
      FlattenFirst(Parse(b, true).chunks, Parse(all, true).chunks);
      if PullResult(b, l).code.Done? {
        ParseMore(b, rest, true);
        RecvResult(w, l, after);
        DoneIsWhole(w, l);
        SameResult(b, rest, l);
      }
    }
  }

  lemma SameOpened(b: seq<byte>, rest: seq<byte>)
    requires |b| >= 8
    ensures Opened(b + rest) <==> Opened(b)
  {
    assert (b + rest)[0..4] == b[0..4];
  }

  lemma AnswerOpens(w: World, after: seq<byte>)
    requires Opened(RecvAnswer(w) + after)
    ensures w.opens
  {
    if !w.opens {
      ParseFail(w.reason, after);
    }
  }

  lemma FlattenFirst(a: seq<seq<byte>>, b: seq<seq<byte>>)
    requires a <= b
    ensures Flatten(a) <= Flatten(b)
  {
    FlattenConcat(a, b[|a|..]);
    assert a + b[|a|..] == b;
  }

  lemma DoneIsWhole(w: World, l: Local)
    ensures PullOf(w, l).code.Done? ==> PullOf(w, l) == Pulled(Done, Made(w.content))
  {
    hide ReadChunks, PiecesOutcome;
    ReadsWholeIff(w.content, w.plan, SYNC_DATA_MAX);
    var all := Flatten(ReadChunks(w.content, w.plan, SYNC_DATA_MAX).chunks);
    assert all[..|all|] == all;
  }

  /** What comes after a complete stream makes no difference. */
  lemma SameResult(b: seq<byte>, rest: seq<byte>, l: Local)
    requires |b| >= 8 && Opened(b) && Parse(b, true).Complete?
    ensures PullResult(b + rest, l) == PullResult(b, l)
  {
    hide PiecesOutcome, Flatten, Parse;
    ParseMore(b, rest, true);
    SameOpened(b, rest);
  }

  /** Frames cut before the message behind them has its head. */
  lemma {:induction false} CutStream(cs: seq<seq<byte>>, x: seq<byte>, n: nat)
    requires Chunked(cs) && n <= |Frames(cs) + x| && n < |Frames(cs)| + 8
    ensures Parse((Frames(cs) + x)[..n], true).Truncated?
    decreases |cs|
  {
    hide Parse, Head;
    var b := (Frames(cs) + x)[..n];
    if n < 8 {
      ShortParse(b);
    } else {
      var c, rest := cs[0], Frames(cs[1..]) + x;
      assert Frames(cs) + x == Head(ID_DATA, |c|) + (c + rest);
      assert b == Head(ID_DATA, |c|) + (c + rest)[..n - 8];
      ParseHead(ID_DATA, |c|, (c + rest)[..n - 8], true);
      if |c| <= n - 8 {
        CutStream(cs[1..], x, n - 8 - |c|);
        assert (c + rest)[..n - 8][|c|..] == rest[..n - 8 - |c|];
      }
    }
  }

  lemma ShortParse(b: seq<byte>)
    requires |b| < 8
    ensures Parse(b, true) == Truncated([])
  {
  }

  /** The head of a FAIL behind all frames came, all of them are in the local file, and that is removed. */
  predicate RemovedAfterFail(w: World, l: Local, b: seq<byte>) {
    var r := ReadChunks(w.content, w.plan, SYNC_DATA_MAX);
    w.opens && r.failed && |b| >= |Frames(r.chunks)| + 8 && PiecesOutcome(r.chunks, l.plan).ok && l.removes
  }

  /**
   * A pull that fails leaves a file of its own, with a first part of the remote one or none of it, if
   * and only if the head of the first answer came, the service had something to send, and the file
   * could be made, but for a FAIL that is itself cut, behind which it is removed.
   */
  lemma PartialIff(w: World, l: Local, b: seq<byte>)
    requires b <= RecvAnswer(w) && PullResult(b, l).code.Failed?
    ensures PullResult(b, l).file.Made? <==> |b| >= 8 && Sends(w) && l.creates && !RemovedAfterFail(w, l, b)
  {
    hide PiecesOutcome, Flatten, ReadChunks, Parse, ErrorCode, Sends, Opened, Frames, FailMsg, RemovedAfterFail;
    if |b| >= 8 {
      var rest := RecvAnswer(w)[|b|..];
      assert b + rest == RecvAnswer(w) == RecvAnswer(w) + [];
      SameOpened(b, rest);
      if !w.opens {
        NotSent(w);
        FailedIsNotMade(b, l);
      } else {
        AnswerParsed(w, []);
        if !Opened(b) {
          FailedIsNotMade(b, l);
        } else {
          PartialOpened(w, l, b);
        }
      }
    }
  }

  lemma PartialOpened(w: World, l: Local, b: seq<byte>)
    requires w.opens && |b| >= 8 && b <= RecvAnswer(w) && Opened(b) && PullResult(b, l).code.Failed?
    ensures PullResult(b, l).file.Made? <==> l.creates && !RemovedAfterFail(w, l, b)
  {
    hide PiecesOutcome, Flatten, ReadChunks, Parse, ErrorCode, Opened, Frames, FailMsg, Head;
    var r := ReadChunks(w.content, w.plan, SYNC_DATA_MAX);
    var end := if r.failed then FailMsg(w.reason) else Head(ID_DONE, 0);
    var n := |b| - |Frames(r.chunks)|;
    assert b == (Frames(r.chunks) + end)[..|b|];
    if n < 8 {
      CutStream(r.chunks, end, |b|);
    } else {
      assert b == Frames(r.chunks) + end[..n];
      FramesThen(r.chunks, end[..n], true);
      assert r.chunks + [] == r.chunks;
      if r.failed {
        assert end[..n] == Head(ID_FAIL, |w.reason|) + w.reason[..n - 8] by { FailParts(w.reason, n); }
        ParseHead(ID_FAIL, |w.reason|, w.reason[..n - 8], true);
      } else {
        assert end[..n] == end + [] && n == 8;
        ParseHead(ID_DONE, 0, [], true);
      }
    }
  }

  lemma FailParts(reason: Reason, n: nat)
    requires 8 <= n <= |FailMsg(reason)|
    ensures n - 8 <= |reason| && FailMsg(reason)[..n] == Head(ID_FAIL, |reason|) + reason[..n - 8]
  {
  }

  lemma NotSent(w: World)
    requires !w.opens
    ensures !Sends(w) && !Opened(RecvAnswer(w) + [])
  {
    ParseFail(w.reason, []);
  }

  lemma FailedIsNotMade(b: seq<byte>, l: Local)
    requires !Opened(b)
    ensures !PullResult(b, l).file.Made?
  {
    hide Parse, PiecesOutcome;
  }

  lemma RecvSession(rpath: seq<byte>)
    requires IsPath(rpath) && |rpath| <= NAME_MAX
    ensures SessionOk([Recv(rpath)]) && SessionBytes([Recv(rpath)]) == Head(ID_RECV, |rpath|) + rpath
    ensures Target(Recv(rpath)) == rpath
  {
    hide Head;
    CStrOfName(rpath);
    var r := Recv(rpath);
    assert [r][1..] == [];
    assert RequestBytes(r) == Head(ID_RECV, |rpath|) + rpath + [];
    assert SessionBytes([r]) == RequestBytes(r) + SessionBytes([]);
  }

  /** What the service says to a RECV: the answer and more, or a part of it. */
  lemma RecvSaid(fs: FileSystem, rpath: seq<byte>, stored: seq<Stored>, last: Stored, got: seq<byte>, holds: bool)
    returns (after: seq<byte>)
    requires IsPath(rpath) && Ends(Head(ID_QUIT, 0))
    requires SessionEnds(fs, [Recv(rpath)], Bare(Head(ID_QUIT, 0)), stored, last, got, holds)
    ensures var out := [] + Flatten(Answers(fs, [Recv(rpath)])[..|stored|]) + got;
            && PartOf(out, fs(0, rpath), after)
            && (holds ==> out == RecvAnswer(fs(0, rpath)) + after)
  {
    var r := Recv(rpath);
    CStrOfName(rpath);
    assert AnswerTo(fs, 0, r) == RecvAnswer(fs(0, rpath));
    SessionCut(fs, [r], Head(ID_QUIT, 0), stored, last, got, holds);
    hide Answers, AnswerTo, Flatten, RecvAnswer, CutFail, LastWords, SessionEnds, Head, Ends;
    assert stored == Outcomes(fs, [r])[..|stored|] by { StoredIs(fs, [r], Bare(Head(ID_QUIT, 0)), stored, last, got, holds); }
    OneServed(fs, r, stored, got);
    if stored == [] {
      after := [];
      assert RecvAnswer(fs(0, rpath)) + [] == RecvAnswer(fs(0, rpath));
    } else {
      after := got;
    }
  }

  /** The service's side of a pull. */
  method ServePull(b: seq<byte>, fs: FileSystem, plan: seq<Call>, ghost rpath: seq<byte>)
    returns (answer: seq<byte>, ghost after: seq<byte>)
    requires IsPath(rpath) && |rpath| <= NAME_MAX
    ensures b == Head(ID_RECV, |rpath|) + rpath + Head(ID_QUIT, 0) ==>
              && PartOf(answer, fs(0, rpath), after)
              && (Soft(plan) ==> answer == RecvAnswer(fs(0, rpath)) + after)
  {
    RecvSession(rpath);
    QuitEnds([]);
    assert Head(ID_QUIT, 0) + [] == Head(ID_QUIT, 0);
    hide Head, SessionBytes, Ends, Answers, Flatten, RecvAnswer, Target, SessionEnds, PartOf;
    var s := new Fd(b, plan);
    var stored, last, got := Serve(s, fs, [Recv(rpath)], Bare(Head(ID_QUIT, 0)));
    answer, after := s.output, [];
    if b == Head(ID_RECV, |rpath|) + rpath + Head(ID_QUIT, 0) {
      after := RecvSaid(fs, rpath, stored, last, got, Soft(plan));
    }
  }

  lemma PartOfPart(b: seq<byte>, n: nat, w: World, after: seq<byte>)
    requires n <= |b| && PartOf(b, w, after)
    ensures PartOf(b[..n], w, after)
  {
    hide RecvAnswer, FailMsg;
    if CutFail(b) {
      var reason: Reason :| |reason| >= 8 && b <= FailMsg(reason);
      assert b[..n] <= FailMsg(reason);
    }
  }

  /**
   * sync_recv against the service. Whatever the two files, their descriptors and the connection do: a
   * file made at lpath has a first part of the remote one, and all of it if the pull is done. Over a
   * connection that holds the pull ends as `PullOf` says.
   */
  method Pull(rpath: seq<byte>, fs: FileSystem, l: Local, sendPlan: seq<Call>, servePlan: seq<Call>, recvPlan: seq<Call>)
    returns (r: Pulled)
    requires IsPath(rpath)
    ensures r.file.Made? ==> r.file.data <= fs(0, rpath).content
    ensures r.code.Done? ==> |rpath| <= NAME_MAX && r == PullOf(fs(0, rpath), l) == Pulled(Done, Made(fs(0, rpath).content))
    ensures Soft(sendPlan) && Soft(servePlan) && Soft(recvPlan) ==>
              r == if |rpath| <= NAME_MAX then PullOf(fs(0, rpath), l) else Pulled(Failed, AsBefore)
  {
    hide Head, PullOf, PullResult, PartOf, RecvAnswer, WriteOutcome;
    if |rpath| > NAME_MAX {
      return Pulled(Failed, AsBefore);
    }
    var fd := new Fd([], sendPlan);
    var request := Head(ID_RECV, |rpath|) + rpath;
    var ok := Writex(fd, request);
    if !ok {
      return Pulled(Failed, AsBefore);
    }
    assert [] + request[..|request|] == request;
    ghost var w := fs(0, rpath);
    var answer, after := ServePull(fd.output + Head(ID_QUIT, 0), fs, servePlan, rpath);
    var back := new Fd(answer, recvPlan);
    ghost var n;
    r, n := RecvData(back, l);
    PartOfPart(answer, n, w, after);
    PullPart(w, l, answer[..n], after);
    RecvResult(w, l, after);
    assert answer[..|answer|] == answer;
  }

  /** The local file is the remote one exactly if both could be opened, read and written to the end. */
  lemma PulledWholeIff(w: World, l: Local, after: seq<byte>)
    ensures PullResult(RecvAnswer(w) + after, l) == Pulled(Done, Made(w.content)) <==>
            var r := ReadChunks(w.content, w.plan, SYNC_DATA_MAX);
            w.opens && !r.failed && l.creates && PiecesOutcome(r.chunks, l.plan).ok
  {
    hide PullResult, RecvAnswer, ReadChunks, PiecesOutcome;
    RecvResult(w, l, after);
    DoneIsWhole(w, l);
  }
}
