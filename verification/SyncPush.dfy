/** A push of one file (sync_send), run against the service: whatever the two files and the connection do. */
module SyncPush {
  import opened Basics
  import opened Io
  import opened Wire
  import opened FileSync
  import opened SyncSession
  import opened SyncClient

  function Decimal(n: nat): (d: seq<byte>)
    ensures |d| >= 1 && 0 !in d && COMMA !in d
  {
    if n < 10 then [48 + n] else Decimal(n / 10) + [48 + n % 10]
  }

  /** The name of a SEND request: the path and the mode. */
  function SendName(rpath: seq<byte>, mode: nat): (name: seq<byte>)
    ensures |name| >= |rpath| + 2
  {
    rpath + [COMMA] + Decimal(mode)
  }

  /** What goes out of a local file: nothing if it does not open, else what is read before a failure. */
  function Sent(opens: bool, content: seq<byte>, plan: seq<Call>): (cs: seq<seq<byte>>)
    ensures Chunked(cs)
  {
    if opens then ReadChunks(content, plan, SYNC_DATA_MAX).chunks else []
  }

  // What goes out.

  /** How the three writes of the request go, then those of the frames, then that of DONE. */
  function Asked(rpath: seq<byte>, mode: nat, plan: seq<Call>): (m: Moved)
    requires |SendName(rpath, mode)| <= MAX_U32
    ensures m.count <= 8 + |SendName(rpath, mode)| && (m.ok <==> m.count == 8 + |SendName(rpath, mode)|)
  {
    ThreePieces(Head(ID_SEND, |SendName(rpath, mode)|), rpath, [COMMA] + Decimal(mode), plan);
    PiecesOutcome([Head(ID_SEND, |SendName(rpath, mode)|), rpath, [COMMA] + Decimal(mode)], plan)
  }

  function Told(rpath: seq<byte>, mode: nat, sent: seq<seq<byte>>, plan: seq<Call>): (m: Moved)
    requires |SendName(rpath, mode)| <= MAX_U32 && Chunked(sent)
    ensures m.count <= |Frames(sent)| && (m.ok <==> m.count == |Frames(sent)|)
  {
    FramesOutcome(sent, Asked(rpath, mode, plan).plan)
  }

  function Ended(rpath: seq<byte>, mode: nat, sent: seq<seq<byte>>, plan: seq<Call>): (m: Moved)
    requires |SendName(rpath, mode)| <= MAX_U32 && Chunked(sent)
    ensures m.count <= 8 && (m.ok <==> m.count == 8)
  {
    WriteOutcome(8, Told(rpath, mode, sent, plan).plan)
  }

  /** What follows the request. */
  function BodyOut(rpath: seq<byte>, mode: nat, sent: seq<seq<byte>>, time: u32, plan: seq<Call>): seq<byte>
    requires |SendName(rpath, mode)| <= MAX_U32 && Chunked(sent)
  {
    Frames(sent)[..Told(rpath, mode, sent, plan).count] + Head(ID_DONE, time)[..Ended(rpath, mode, sent, plan).count]
  }

  function PushOut(rpath: seq<byte>, mode: nat, sent: seq<seq<byte>>, time: u32, plan: seq<Call>): seq<byte>
    requires |SendName(rpath, mode)| <= MAX_U32 && Chunked(sent)
  {
    var start := Head(ID_SEND, |SendName(rpath, mode)|) + SendName(rpath, mode);
    if Asked(rpath, mode, plan).ok then start + BodyOut(rpath, mode, sent, time, plan)
    else start[..Asked(rpath, mode, plan).count]
  }

  lemma ThreePieces(a: seq<byte>, b: seq<byte>, c: seq<byte>, plan: seq<Call>)
    ensures var x := WriteOutcome(|a|, plan);
            var y := WriteOutcome(|b|, x.plan);
            var z := WriteOutcome(|c|, y.plan);
            PiecesOutcome([a, b, c], plan) ==
            if !x.ok then x else if !y.ok then Counted(|a|, y) else Counted(|a| + |b|, z)
    ensures |Flatten([a, b, c])| == |a| + |b| + |c|
  {
    hide WriteOutcome;
    var x := WriteOutcome(|a|, plan);
    var y := WriteOutcome(|b|, x.plan);
    var z := WriteOutcome(|c|, y.plan);
    assert [a, b, c][1..] == [b, c] && [b, c][1..] == [c] && [c][1..] == [];
    NoPieces(z.plan);
    assert PiecesOutcome([c], y.plan) == z;
    assert PiecesOutcome([b, c], x.plan) == if y.ok then Counted(|b|, z) else y;
    assert Flatten([c]) == c + Flatten<byte>([]) && Flatten([b, c]) == b + Flatten([c]);
  }

  /** The head, the path and the mode. */
  method WriteRequest(fd: Fd, rpath: seq<byte>, mode: nat) returns (ok: bool)
    requires |SendName(rpath, mode)| <= MAX_U32
    modifies fd`output, fd`plan
    ensures var m := Asked(rpath, mode, old(fd.plan));
            && ok == m.ok && fd.plan == m.plan
            && fd.output == old(fd.output) + (Head(ID_SEND, |SendName(rpath, mode)|) + SendName(rpath, mode))[..m.count]
  {
    ghost var out, name, plan := fd.output, SendName(rpath, mode), fd.plan;
    ghost var head, tail := Head(ID_SEND, |name|), [COMMA] + Decimal(mode);
    ThreePieces(head, rpath, tail, plan);
    Assoc(rpath, [COMMA], Decimal(mode));
    ghost var x := WriteOutcome(|head|, plan);
    ghost var y := WriteOutcome(|rpath|, x.plan);
    ghost var z := WriteOutcome(|tail|, y.plan);
    hide Head, PiecesOutcome, WriteOutcome, Decimal, SendName;
    ThreeParts(out, head, rpath, tail, x.count, y.count, z.count);
    ok := Writex(fd, Head(ID_SEND, |SendName(rpath, mode)|));
    if !ok {
      return;
    }
    ok := Writex(fd, rpath);
    if !ok {
      return;
    }
    ok := Writex(fd, [COMMA] + Decimal(mode));
  }

  lemma ThreeParts(out: seq<byte>, a: seq<byte>, b: seq<byte>, c: seq<byte>, i: nat, j: nat, k: nat)
    requires i <= |a| && j <= |b| && k <= |c|
    ensures var s := a + (b + c);
            && out + a[..i] == out + s[..i] && a[..|a|] == a && b[..|b|] == b
            && out + a + b[..j] == out + s[..|a| + j]
            && out + a + b + c[..k] == out + s[..|a| + |b| + k]
  {
    var s := a + (b + c);
    assert s[..i] == a[..i] && s[..|a| + j] == a + b[..j] && s[..|a| + |b| + k] == a + b + c[..k];
  }

  /** sync_send up to DONE; that write_data_file failed is not looked at. */
  method SendRequest(fd: Fd, local: Fd, opens: bool, rpath: seq<byte>, mode: nat, time: u32) returns (ok: bool)
    requires fd != local && |SendName(rpath, mode)| <= MAX_U32 && |rpath| <= NAME_MAX
    modifies fd`output, fd`plan, local`input, local`plan
    ensures var sent := Sent(opens, old(local.input), old(local.plan));
            && (ok <==> Asked(rpath, mode, old(fd.plan)).ok && Ended(rpath, mode, sent, old(fd.plan)).ok)
            && fd.output == old(fd.output) + PushOut(rpath, mode, sent, time, old(fd.plan))
  {
    ghost var out, plan, sent := fd.output, fd.plan, Sent(opens, local.input, local.plan);
    ghost var start := Head(ID_SEND, |SendName(rpath, mode)|) + SendName(rpath, mode);
    FramesStart(Asked(rpath, mode, plan).plan);
    hide Head, Frames, SendName, FramesOutcome, WriteOutcome, Asked;
    ok := WriteRequest(fd, rpath, mode);
    if !ok {
      return;
    }
    assert start[..|start|] == start;
    ghost var n := Told(rpath, mode, sent, plan).count;
    if opens {
      var _ := WriteDataFile(fd, local);
    }
    assert fd.output == out + start + Frames(sent)[..n];
    ok := Writex(fd, Head(ID_DONE, time));
    Assoc(out, start, Frames(sent)[..n]);
    Assoc(out, start + Frames(sent)[..n], Head(ID_DONE, time)[..Ended(rpath, mode, sent, plan).count]);
    Assoc(start, Frames(sent)[..n], Head(ID_DONE, time)[..Ended(rpath, mode, sent, plan).count]);
  }

  // What the service finds in it.

  /** How many frames are whole within the first n bytes. */
  function WholeFrames(cs: seq<seq<byte>>, n: nat): (j: nat)
    requires Chunked(cs)
    ensures j <= |cs|
  {
    if cs == [] || n < 8 + |cs[0]| then 0 else 1 + WholeFrames(cs[1..], n - 8 - |cs[0]|)
  }

  /** The first n bytes end with a frame. */
  predicate AtFrame(cs: seq<seq<byte>>, n: nat)
    requires Chunked(cs)
  {
    n == |Frames(cs[..WholeFrames(cs, n)])|
  }

  lemma FirstFrame(cs: seq<seq<byte>>, j: nat)
    requires Chunked(cs) && 0 < j <= |cs|
    ensures Frames(cs[..j]) == Head(ID_DATA, |cs[0]|) + cs[0] + Frames(cs[1..][..j - 1])
  {
    hide Head;
    assert cs[..j][1..] == cs[1..][..j - 1];
  }

  /** What is left of the first n bytes behind the whole frames. */
  function PartOut(cs: seq<seq<byte>>, n: nat): seq<byte>
    requires Chunked(cs) && n <= |Frames(cs)|
  {
    if cs == [] then []
    else if n < 8 + |cs[0]| then (Head(ID_DATA, |cs[0]|) + cs[0])[..n]
    else PartOut(cs[1..], n - 8 - |cs[0]|)
  }

  /** It is a part of the next frame. */
  lemma {:induction false} PartIs(cs: seq<seq<byte>>, n: nat)
    requires Chunked(cs) && n <= |Frames(cs)|
    ensures var j, part := WholeFrames(cs, n), PartOut(cs, n);
            if j == |cs| then part == []
            else |part| < 8 + |cs[j]| && part == (Head(ID_DATA, |cs[j]|) + cs[j])[..|part|]
    decreases |cs|
  {
    hide Head;
    if cs != [] && n >= 8 + |cs[0]| {
      PartIs(cs[1..], n - 8 - |cs[0]|);
    }
  }

  lemma {:induction false} CutAfter(cs: seq<seq<byte>>, n: nat)
    requires Chunked(cs) && n <= |Frames(cs)|
    ensures Frames(cs)[..n] == Frames(cs[..WholeFrames(cs, n)]) + PartOut(cs, n)
    decreases |cs|
  {
    FramesStart([]);
    if cs == [] {
      assert cs[..0] == [];
    } else {
      var frame, rest := Head(ID_DATA, |cs[0]|) + cs[0], Frames(cs[1..]);
      assert Frames(cs) == frame + rest;
      hide Head, Frames;
      if n < |frame| {
        assert cs[..0] == [] && (frame + rest)[..n] == frame[..n] == [] + frame[..n];
      } else {
        var i := WholeFrames(cs[1..], n - |frame|);
        CutAfter(cs[1..], n - |frame|);
        FirstFrame(cs, i + 1);
        assert (frame + rest)[..n] == frame + rest[..n - |frame|];
        Assoc(frame, Frames(cs[1..][..i]), PartOut(cs[1..], n - |frame|));
      }
    }
  }

  lemma AtFrameIff(cs: seq<seq<byte>>, n: nat)
    requires Chunked(cs) && n <= |Frames(cs)|
    ensures AtFrame(cs, n) <==> PartOut(cs, n) == []
  {
    hide Frames, PartOut, WholeFrames;
    CutAfter(cs, n);
  }

  /** A part of a frame with DONE behind it is not the end of an upload. */
  lemma PartOfFrame(c: seq<byte>, m: nat, time: u32)
    requires |c| <= SYNC_DATA_MAX && 0 < m < 8 + |c|
    ensures !Parse((Head(ID_DATA, |c|) + c)[..m] + Head(ID_DONE, time), false).Complete?
  {
    var frame, done := Head(ID_DATA, |c|) + c, Head(ID_DONE, time);
    var b := frame[..m] + done;
    if m < 8 {
      SecondByte(c, m, time);
      ShortUpload(b);
    } else {
      var rest := c[..m - 8] + done;
      assert b == Head(ID_DATA, |c|) + rest;
      hide Parse, Head;
      ParseHead(ID_DATA, |c|, rest, false);
      if |c| <= |rest| {
        TooShort(rest[|c|..]);
      }
    }
  }

  lemma TooShort(b: seq<byte>)
    requires |b| < 8
    ensures Parse(b, false) == Truncated([])
  {
  }

  /** The second byte is not that of DONE. */
  lemma SecondByte(c: seq<byte>, m: nat, time: u32)
    requires |c| <= SYNC_DATA_MAX && 0 < m < 8
    ensures IdOf((Head(ID_DATA, |c|) + c)[..m] + Head(ID_DONE, time)) != ID_DONE
  {
    var b := (Head(ID_DATA, |c|) + c)[..m] + Head(ID_DONE, time);
    assert Head(ID_DATA, |c|)[..4] == Le32(ID_DATA) && Head(ID_DONE, time)[..4] == Le32(ID_DONE);
    assert Le32(ID_DATA)[1] == 0x41 && Le32(ID_DONE)[0] == 0x44 && Le32(ID_DONE)[1] == 0x4f;
    assert b[1] == if m == 1 then Le32(ID_DONE)[0] else Le32(ID_DATA)[1];
    FromLe32RoundTrip(b[0..4]);
    assert b[0..4][1] == b[1];
  }

  /** Less than two heads, the first not DONE. */
  lemma ShortUpload(b: seq<byte>)
    requires 8 <= |b| < 16 && IdOf(b) != ID_DONE
    ensures !Parse(b, false).Complete?
  {
    hide IdOf, SizeOf, Refuses;
    var size := SizeOf(b);
    if 8 + size <= |b| {
      TooShort(b[8 + size..]);
    }
  }

  /**
   * The service takes a stream of frames that was cut, with DONE behind the cut, for a complete upload
   * if and only if the cut is between two frames; then it finds the frames before the cut.
   */
  lemma CutUploadIff(cs: seq<seq<byte>>, n: nat, time: u32)
    requires Chunked(cs) && n <= |Frames(cs)|
    ensures var u := Parse(Frames(cs)[..n] + Head(ID_DONE, time), false);
            && (u.Complete? <==> AtFrame(cs, n))
            && (u.Complete? ==> u == Complete(cs[..WholeFrames(cs, n)], time, []))
  {
    hide Parse, Head, Frames, PartOut, WholeFrames, AtFrame;
    CutAfter(cs, n);
    PartIs(cs, n);
    AtFrameIff(cs, n);
    var j, part, done := WholeFrames(cs, n), PartOut(cs, n), Head(ID_DONE, time);
    if part == [] {
      assert Frames(cs)[..n] == Frames(cs[..j]) && done + [] == done;
      FramesParse(cs[..j], time, [], false);
    } else {
      Assoc(Frames(cs[..j]), part, done);
      FramesThen(cs[..j], part + done, false);
      PartOfFrame(cs[j], |part|, time);
    }
  }

  /** A stream that ends in DONE is not complete before its end. */
  lemma CutDone(cs: seq<seq<byte>>, n: nat, time: u32, k: nat)
    requires Chunked(cs) && n <= |Frames(cs)| && k < 8
    ensures !Parse(Frames(cs)[..n] + Head(ID_DONE, time)[..k], false).Complete?
  {
    hide Parse, Head, Frames;
    var done := Head(ID_DONE, time);
    var b := Frames(cs)[..n] + done[..k];
    if Parse(b, false).Complete? {
      ParseMore(b, done[k..], false);
      assert b + done[k..] == Frames(cs)[..n] + done;
      CutUploadIff(cs, n, time);
    }
  }

  /** The service finds a name it takes, whole frames, and DONE behind them. */
  predicate Arrives(rpath: seq<byte>, mode: nat, sent: seq<seq<byte>>, plan: seq<Call>)
    requires |SendName(rpath, mode)| <= MAX_U32 && Chunked(sent)
  {
    && |SendName(rpath, mode)| <= NAME_MAX
    && Asked(rpath, mode, plan).ok && AtFrame(sent, Told(rpath, mode, sent, plan).count) && Ended(rpath, mode, sent, plan).ok
  }

  /** The frames that went out before the first that did not. */
  function Wired(rpath: seq<byte>, mode: nat, sent: seq<seq<byte>>, plan: seq<Call>): (cs: seq<seq<byte>>)
    requires |SendName(rpath, mode)| <= MAX_U32 && Chunked(sent)
    ensures Chunked(cs) && cs <= sent
  {
    sent[..WholeFrames(sent, Told(rpath, mode, sent, plan).count)]
  }

  /** What went out, as a session. */
  function Requests(rpath: seq<byte>, mode: nat, sent: seq<seq<byte>>, time: u32, plan: seq<Call>): (rs: seq<Request>)
    requires |SendName(rpath, mode)| <= MAX_U32 && Chunked(sent)
    ensures SessionOk(rs)
  {
    if Arrives(rpath, mode, sent, plan) then [Send(SendName(rpath, mode), Wired(rpath, mode, sent, plan), time)] else []
  }

  function PushTail(rpath: seq<byte>, mode: nat, sent: seq<seq<byte>>, time: u32, plan: seq<Call>): Tail
    requires |SendName(rpath, mode)| <= MAX_U32 && Chunked(sent)
  {
    if Arrives(rpath, mode, sent, plan) then Bare([])
    else if |SendName(rpath, mode)| <= NAME_MAX && Asked(rpath, mode, plan).ok
    then CutSend(SendName(rpath, mode), BodyOut(rpath, mode, sent, time, plan))
    else Bare(PushOut(rpath, mode, sent, time, plan))
  }

  /** What follows the request is a complete upload exactly if it arrives. */
  lemma BodyOutIff(rpath: seq<byte>, mode: nat, sent: seq<seq<byte>>, time: u32, plan: seq<Call>)
    requires |SendName(rpath, mode)| <= MAX_U32 && Chunked(sent)
    ensures var u := Parse(BodyOut(rpath, mode, sent, time, plan), false);
            && (u.Complete? <==> AtFrame(sent, Told(rpath, mode, sent, plan).count) && Ended(rpath, mode, sent, plan).ok)
            && (u.Complete? ==> u == Complete(Wired(rpath, mode, sent, plan), time, []))
  {
    hide Parse, Told, Ended, Frames, Head, SendName, AtFrame;
    var n, k, done := Told(rpath, mode, sent, plan).count, Ended(rpath, mode, sent, plan).count, Head(ID_DONE, time);
    if k < 8 {
      CutDone(sent, n, time, k);
    } else {
      assert done[..8] == done;
      CutUploadIff(sent, n, time);
    }
  }

  lemma PushSession(rpath: seq<byte>, mode: nat, sent: seq<seq<byte>>, time: u32, plan: seq<Call>)
    requires |SendName(rpath, mode)| <= MAX_U32 && Chunked(sent)
    ensures TailOk(PushTail(rpath, mode, sent, time, plan))
    ensures PushOut(rpath, mode, sent, time, plan) ==
            SessionBytes(Requests(rpath, mode, sent, time, plan)) + TailBytes(PushTail(rpath, mode, sent, time, plan))
  {
    hide Parse, Told, Ended, Frames, Head, SendName, AtFrame, Asked, IdOf, SizeOf;
    var name, out := SendName(rpath, mode), PushOut(rpath, mode, sent, time, plan);
    BodyOutIff(rpath, mode, sent, time, plan);
    if Arrives(rpath, mode, sent, plan) {
      var r, body := Send(name, Wired(rpath, mode, sent, plan), time), BodyOut(rpath, mode, sent, time, plan);
      WiredBody(rpath, mode, sent, time, plan);
      assert [r][1..] == [];
      assert SessionBytes([r]) == RequestBytes(r) + SessionBytes([]);
      assert RequestBytes(r) == Head(ID_SEND, |name|) + name + body;
    } else {
      assert SessionBytes([]) == [];
      if !(|name| <= NAME_MAX && Asked(rpath, mode, plan).ok) {
        CutRequest(rpath, mode, sent, time, plan);
      }
    }
  }

  /** A body that arrives is that of the frames that went out. */
  lemma WiredBody(rpath: seq<byte>, mode: nat, sent: seq<seq<byte>>, time: u32, plan: seq<Call>)
    requires |SendName(rpath, mode)| <= MAX_U32 && Chunked(sent)
    requires AtFrame(sent, Told(rpath, mode, sent, plan).count) && Ended(rpath, mode, sent, plan).ok
    ensures BodyOut(rpath, mode, sent, time, plan) == Frames(Wired(rpath, mode, sent, plan)) + Head(ID_DONE, time)
  {
    hide Told, Ended, Head, Frames, PartOut, WholeFrames, AtFrame;
    CutAfter(sent, Told(rpath, mode, sent, plan).count);
    AtFrameIff(sent, Told(rpath, mode, sent, plan).count);
    assert Head(ID_DONE, time)[..8] == Head(ID_DONE, time);
  }

  /** A request that did not go out whole, or with a name that is too long. */
  lemma CutRequest(rpath: seq<byte>, mode: nat, sent: seq<seq<byte>>, time: u32, plan: seq<Call>)
    requires |SendName(rpath, mode)| <= MAX_U32 && Chunked(sent)
    requires |SendName(rpath, mode)| > NAME_MAX || !Asked(rpath, mode, plan).ok
    ensures Ends(PushOut(rpath, mode, sent, time, plan))
  {
    hide Told, Ended, Frames, Head, SendName, Asked, IdOf, SizeOf;
    var name, out := SendName(rpath, mode), PushOut(rpath, mode, sent, time, plan);
    var head := Head(ID_SEND, |name|);
    if |out| >= 8 {
      var m := Asked(rpath, mode, plan);
      var rest := if m.ok then name + BodyOut(rpath, mode, sent, time, plan) else name[..m.count - 8];
      assert out == head + rest;
      ReadHead(ID_SEND, |name|, rest);
    }
  }

  // The reply.

  /** How sync_send ends: 0, -1, or in a read of 2^31 bytes or more. */
  datatype Pushed = Success | Rejected | RunawayRead

  function ReplyResult(b: seq<byte>): Pushed {
    if |b| < 8 then Rejected
    else if IdOf(b) == ID_OKAY then Success
    else if IdOf(b) == ID_FAIL && Signed(SizeOf(b)) < 0 then RunawayRead
    else Rejected
  }

  /** The end of sync_send: the status, and the text of a FAIL. */
  method ReadReply(fd: Fd) returns (r: Pushed)
    modifies fd`input, fd`plan
    ensures r == ReplyResult(old(fd.input)) || r == Rejected
    ensures Soft(old(fd.plan)) ==> r == ReplyResult(old(fd.input))
  {
    hide IdOf, SizeOf, Head;
    var head, _ := ReadMessage(fd);
    if head.None? {
      return Rejected;
    }
    var (id, size) := head.value;
    ReadHead(id, size, fd.input);
    if id == ID_OKAY {
      return Success;
    }
    if id == ID_FAIL {
      var len := Signed(size);
      if len > 256 {
        len := 256;
      }
      if len < 0 {
        return RunawayRead;
      }
      var _ := Readx(fd, len);
    }
    r := Rejected;
  }

  lemma ReplyOkay(after: seq<byte>)
    ensures ReplyResult(OKAY_MSG + after) == Success
  {
    ReadHead(ID_OKAY, 0, after);
  }

  lemma ReplyFail(reason: Reason, after: seq<byte>)
    ensures ReplyResult(FailMsg(reason) + after) == Rejected
  {
    Assoc(Head(ID_FAIL, |reason|), reason, after);
    ReadHead(ID_FAIL, |reason|, reason + after);
  }

  lemma OkayReply(reply: seq<byte>)
    ensures ReplyResult(reply) == Success <==> SaysOkay(reply)
  {
  }

  /** What the client makes of the answers of the service, whatever is behind them. */
  lemma SendReply(w: World, cs: seq<seq<byte>>, after: seq<byte>)
    ensures ReplyResult(SendAnswer(w, cs) + after) == if Keeps(w, cs) then Success else Rejected
  {
    hide FailMsg, Keeps, ReplyResult;
    ReplyOkay(after);
    ReplyFail(w.reason, after);
  }

  lemma BadReply(w: World, u: Upload)
    requires !u.Complete?
    ensures ReplyResult(UploadAnswer(w, u)) == Rejected
  {
    hide FailMsg, Keeps, ReplyResult;
    var last := if u.Malformed? then FailMsg(Text("invalid data message"))
                else if u.Oversize? then FailMsg(Text("oversize data message")) else [];
    if !Keeps(w, u.chunks) {
      ReplyFail(w.reason, last);
    } else if last == [] {
      assert UploadAnswer(w, u) == [];
      assert ReplyResult([]) == Rejected by { EmptyReply(); }
    } else {
      ReplyFail(if u.Malformed? then Text("invalid data message") else Text("oversize data message"), []);
      assert UploadAnswer(w, u) == last == last + [];
    }
  }

  lemma EmptyReply()
    ensures ReplyResult([]) == Rejected
  {
  }

  lemma LastReply(tail: seq<byte>, got: seq<byte>)
    requires Ends(tail) && Cut(got, LastWords(tail))
    ensures !SaysOkay(got) && ReplyResult(LastWords(tail)) == Rejected
  {
    hide FailMsg, SaysOkay, ReplyResult, IdOf, SizeOf;
    var words := LastWords(tail);
    EmptyReply();
    if words != [] {
      var reason := if |tail| < 8 then Text("command read failure") else if SizeOf(tail) > NAME_MAX then Text("invalid namelen")
                    else if |tail| < 8 + SizeOf(tail) then Text("filename read failure") else Text("unknown command");
      assert words == FailMsg(reason) == FailMsg(reason) + [];
      ReplyFail(reason, []);
      CutOfFail(got, reason);
      CutFailIsNotOkay(got);
    } else if CutFail(got) {
      CutFailIsNotOkay(got);
    } else {
      ShortIsNotOkay(got);
    }
  }

  lemma SendTarget(rpath: seq<byte>, mode: nat, cs: seq<seq<byte>>, time: u32)
    requires 0 !in rpath
    ensures Target(Send(SendName(rpath, mode), cs, time)) == rpath
  {
    CStrOfName(SendName(rpath, mode));
    SendPathOfName(rpath, Decimal(mode));
  }

  // End to end.

  /** The chunks that the service takes into the file, if that opens. */
  function FoundChunks(rpath: seq<byte>, mode: nat, sent: seq<seq<byte>>, time: u32, plan: seq<Call>): seq<seq<byte>>
    requires |SendName(rpath, mode)| <= MAX_U32 && Chunked(sent)
  {
    Parse(BodyOut(rpath, mode, sent, time, plan), false).chunks
  }

  /** What is stored of a push over a connection that holds for the service. */
  function PushStored(w: World, rpath: seq<byte>, mode: nat, sent: seq<seq<byte>>, time: u32, plan: seq<Call>): Stored
    requires |SendName(rpath, mode)| <= MAX_U32 && Chunked(sent)
  {
    if Arrives(rpath, mode, sent, plan) then SendStored(w, Wired(rpath, mode, sent, plan), time)
    else if |SendName(rpath, mode)| <= NAME_MAX && Asked(rpath, mode, plan).ok
    then UploadStored(w, Parse(BodyOut(rpath, mode, sent, time, plan), false))
    else NotKept
  }

  /** What a push may end with: the reply of the service, what it stored, and whether the connection held for it. */
  ghost predicate PushEnds(w: World, rpath: seq<byte>, mode: nat, sent: seq<seq<byte>>, time: u32, plan: seq<Call>,
                           reply: seq<byte>, stored: Stored, holds: bool)
    requires |SendName(rpath, mode)| <= MAX_U32 && Chunked(sent)
  {
    var arrives, wired := Arrives(rpath, mode, sent, plan), Wired(rpath, mode, sent, plan);
    && (SaysOkay(reply) ==> arrives && Keeps(w, wired) && stored == SendStored(w, wired, time))
    && (stored.Kept? ==> arrives && stored == SendStored(w, wired, time))
    && (stored.Remains? ==>
          w.opens && !w.removes && PartStays(stored, Flatten(FoundChunks(rpath, mode, sent, time, plan)), w.leftover))
    && (holds ==>
          && ReplyResult(reply) == (if arrives && Keeps(w, wired) then Success else Rejected)
          && stored == PushStored(w, rpath, mode, sent, time, plan))
  }

  lemma RemainsIsPart(w: World, u: Upload, stored: Stored)
    requires Leaves(w, u, stored) && stored.Remains?
    ensures w.opens && !w.removes && PartStays(stored, Flatten(u.chunks), w.leftover)
  {
    hide PiecesOutcome, Flatten, Overlay;
    if u.Complete? && stored == SendStored(w, u.chunks, u.time) {
      var x := Taken(w, u.chunks);
      assert x == Flatten(u.chunks)[..|x|];
    }
  }

  /** A push that arrives. */
  lemma ArrivedEnds(fs: FileSystem, rpath: seq<byte>, mode: nat, sent: seq<seq<byte>>, time: u32, plan: seq<Call>,
                    outcomes: seq<Stored>, last: Stored, got: seq<byte>, holds: bool)
    requires 0 !in rpath && |SendName(rpath, mode)| <= MAX_U32 && Chunked(sent) && Arrives(rpath, mode, sent, plan)
    requires SessionEnds(fs, Requests(rpath, mode, sent, time, plan), Bare([]), outcomes, last, got, holds)
    ensures var rs := Requests(rpath, mode, sent, time, plan);
            var reply := [] + Flatten(Answers(fs, rs)[..|outcomes|]) + got;
            PushEnds(fs(0, rpath), rpath, mode, sent, time, plan, reply, if outcomes == [] then last else outcomes[0], holds)
  {
    hide SaysOkay, FailMsg, Keeps, Flatten, ReplyResult, Taken, Overlay, Asked, Told, Ended, AtFrame, Parse, CStr, SendPath,
         Cut, Outcomes, Answers, SendAnswer, SendStored, LastWords, Frames, Head;
    var w, wired := fs(0, rpath), Wired(rpath, mode, sent, plan);
    var r := Send(SendName(rpath, mode), wired, time);
    SendTarget(rpath, mode, wired, time);
    BodyOutIff(rpath, mode, sent, time, plan);
    OneServed(fs, r, outcomes, got);
    if outcomes == [] {
      LeftKept(w, Complete(wired, time, []), last);
      hide Leaves;
      if last.Remains? {
        RemainsIsPart(w, Complete(wired, time, []), last);
      }
    } else {
      hide Leaves;
      assert AnswerTo(fs, 0, r) == SendAnswer(w, wired) && OutcomeOf(fs, 0, r) == SendStored(w, wired, time);
      SendReply(w, wired, got);
      OkayReply(SendAnswer(w, wired) + got);
      SendRemains(w, wired, time);
    }
  }

  lemma LeftKept(w: World, u: Upload, stored: Stored)
    requires Leaves(w, u, stored)
    ensures stored.Kept? ==> u.Complete? && stored == SendStored(w, u.chunks, u.time)
  {
  }

  lemma SendRemains(w: World, cs: seq<seq<byte>>, time: u32)
    ensures var stored := SendStored(w, cs, time);
            stored.Remains? ==> w.opens && !w.removes && PartStays(stored, Flatten(cs), w.leftover)
  {
    hide PiecesOutcome, Flatten, Overlay;
    var x := Taken(w, cs);
    assert x == Flatten(cs)[..|x|];
  }

  /** A push of which the service gets something else. */
  lemma LostEnds(fs: FileSystem, rpath: seq<byte>, mode: nat, sent: seq<seq<byte>>, time: u32, plan: seq<Call>,
                 outcomes: seq<Stored>, last: Stored, got: seq<byte>, holds: bool)
    requires 0 !in rpath && |SendName(rpath, mode)| <= MAX_U32 && Chunked(sent) && !Arrives(rpath, mode, sent, plan)
    requires TailOk(PushTail(rpath, mode, sent, time, plan))
    requires SessionEnds(fs, [], PushTail(rpath, mode, sent, time, plan), outcomes, last, got, holds)
    ensures outcomes == [] && PushEnds(fs(0, rpath), rpath, mode, sent, time, plan, got, last, holds)
  {
    hide SaysOkay, FailMsg, Keeps, Flatten, ReplyResult, Taken, Overlay, Asked, Told, Ended, AtFrame, Parse, CStr, SendPath,
         Outcomes, Answers, SendAnswer, SendStored, LastWords, Frames, Head, UploadAnswer, UploadStored, BodyOut, PushOut,
         Arrives, Ends, CutFail;
    var w, tail := fs(0, rpath), PushTail(rpath, mode, sent, time, plan);
    SendTarget(rpath, mode, [], time);
    if tail.CutSend? {
      var u := Parse(tail.body, false);
      assert Target(Send(tail.name, [], time)) == SendPath(CStr(tail.name));
      LeftKept(w, u, last);
      if last.Remains? {
        RemainsIsPart(w, u, last);
      }
      hide Leaves;
      BadReply(w, u);
      if got <= UploadAnswer(w, u) {
        BadIsNotOkay(w, u, got);
      } else {
        CutFailIsNotOkay(got);
      }
    } else {
      LastReply(tail.bytes, got);
    }
  }

  /** The service's side of a push: what it says and what it stores. */
  method ServePush(b: seq<byte>, fs: FileSystem, servePlan: seq<Call>,
                   ghost rpath: seq<byte>, ghost mode: nat, ghost sent: seq<seq<byte>>, ghost time: u32, ghost plan: seq<Call>)
    returns (reply: seq<byte>, stored: Stored)
    requires 0 !in rpath && |SendName(rpath, mode)| <= MAX_U32 && Chunked(sent)
    ensures b == PushOut(rpath, mode, sent, time, plan) ==>
              PushEnds(fs(0, rpath), rpath, mode, sent, time, plan, reply, stored, Soft(servePlan))
  {
    hide SessionBytes, TailBytes, TailOk, Answers, Flatten, SessionEnds, PushEnds, PushOut, Arrives, SendName;
    PushSession(rpath, mode, sent, time, plan);
    ghost var rs, tail := Requests(rpath, mode, sent, time, plan), PushTail(rpath, mode, sent, time, plan);
    var s := new Fd(b, servePlan);
    var outcomes, last, got := Serve(s, fs, rs, tail);
    reply := s.output;
    stored := if outcomes == [] then last else outcomes[0];
    if b == PushOut(rpath, mode, sent, time, plan) {
      if Arrives(rpath, mode, sent, plan) {
        ArrivedEnds(fs, rpath, mode, sent, time, plan, outcomes, last, got, Soft(servePlan));
      } else {
        LostEnds(fs, rpath, mode, sent, time, plan, outcomes, last, got, Soft(servePlan));
        NoneServed(fs, tail, got);
      }
    }
  }

  /**
   * A push, whatever the two files, their descriptors and the connection do. Success is reported only
   * if the service took the name, the request, whole frames and DONE went out, and the service kept
   * these frames; then the remote file has them, over what it still held. A file is kept only so. Over
   * a connection that holds for the service and for the reply, success is reported exactly then.
   */
  method Push(content: seq<byte>, opens: bool, readPlan: seq<Call>, rpath: seq<byte>, mode: nat, time: u32, fs: FileSystem,
              sendPlan: seq<Call>, servePlan: seq<Call>, replyPlan: seq<Call>)
    returns (r: Pushed, stored: Stored)
    requires IsPath(rpath) && |SendName(rpath, mode)| <= MAX_U32
    ensures var sent, w := Sent(opens, content, readPlan), fs(0, rpath);
            var arrives, wired := Arrives(rpath, mode, sent, sendPlan), Wired(rpath, mode, sent, sendPlan);
            && (r == Success ==> arrives && Keeps(w, wired) && stored == SendStored(w, wired, time))
            && (stored.Kept? ==> arrives && stored == SendStored(w, wired, time))
            && (stored.Remains? ==>
                  w.opens && !w.removes && PartStays(stored, Flatten(FoundChunks(rpath, mode, sent, time, sendPlan)), w.leftover))
            && (Soft(servePlan) && Soft(replyPlan) ==> r == if arrives && Keeps(w, wired) then Success else Rejected)
            && (Soft(servePlan) ==>
                  stored == if |rpath| <= NAME_MAX then PushStored(w, rpath, mode, sent, time, sendPlan) else NotKept)
  {
    hide SaysOkay, Keeps, Flatten, ReplyResult, Asked, Told, Ended, AtFrame, Parse, SendStored, UploadStored, PushOut, Sent,
         SendName, PartStays, Wired, FoundChunks, PushStored;
    if |rpath| > NAME_MAX {
      return Rejected, NotKept;
    }
    var local := new Fd(content, readPlan);
    var fd := new Fd([], sendPlan);
    var ok := SendRequest(fd, local, opens, rpath, mode, time);
    ghost var sent := Sent(opens, content, readPlan);
    assert [] + PushOut(rpath, mode, sent, time, sendPlan) == PushOut(rpath, mode, sent, time, sendPlan);
    var reply;
    reply, stored := ServePush(fd.output, fs, servePlan, rpath, mode, sent, time, sendPlan);
    if !ok {
      return Rejected, stored;
    }
    OkayReply(reply);
    var back := new Fd(reply, replyPlan);
    r := ReadReply(back);
  }

  lemma {:induction false} AllWhole(cs: seq<seq<byte>>)
    requires Chunked(cs)
    ensures WholeFrames(cs, |Frames(cs)|) == |cs|
  {
    hide Head;
    if cs != [] {
      AllWhole(cs[1..]);
    }
  }

  lemma {:induction false} NotAllWhole(cs: seq<seq<byte>>, n: nat)
    requires Chunked(cs) && n < |Frames(cs)|
    ensures WholeFrames(cs, n) < |cs|
  {
    hide Head;
    if n >= 8 + |cs[0]| {
      NotAllWhole(cs[1..], n - 8 - |cs[0]|);
    }
  }

  /** Over a connection that holds, all that was read goes out. */
  lemma HoldingIsClean(rpath: seq<byte>, mode: nat, sent: seq<seq<byte>>, plan: seq<Call>)
    requires |SendName(rpath, mode)| <= MAX_U32 && Chunked(sent) && Soft(plan)
    ensures Arrives(rpath, mode, sent, plan) <==> |SendName(rpath, mode)| <= NAME_MAX
    ensures Wired(rpath, mode, sent, plan) == sent
  {
    AllWhole(sent);
    assert sent[..|sent|] == sent;
  }

  /** One call for each frame before j, and a failure for that one. */
  function FailAt(j: nat): seq<Call> {
    if j == 0 then [Broken] else [Moves(0)] + FailAt(j - 1)
  }

  lemma {:induction false} FramesFailAt(cs: seq<seq<byte>>, j: nat)
    requires Chunked(cs) && j < |cs|
    ensures FramesOutcome(cs, FailAt(j)) == Moved(false, |Frames(cs[..j])|, [])
    ensures WholeFrames(cs, |Frames(cs[..j])|) == j
  {
    hide Head;
    var plan, frame := FailAt(j), Head(ID_DATA, |cs[0]|) + cs[0];
    assert FrameList(cs)[0] == frame && FrameList(cs)[1..] == FrameList(cs[1..]);
    if j == 0 {
      assert cs[..0] == [];
    } else {
      FramesFailAt(cs[1..], j - 1);
      assert plan[1..] == FailAt(j - 1) && cs[..j][1..] == cs[1..][..j - 1];
      assert Frames(cs[..j]) == frame + Frames(cs[1..][..j - 1]);
      assert WriteOutcome(|frame|, plan) == Moved(true, |frame|, FailAt(j - 1)) by { NothingMoves(0, FailAt(j - 1)); }
    }
  }

  /**
   * A connection that fails under any frame, outright, and then works again: the push is a success, and
   * the remote file ends before that frame.
   */
  lemma LostDataIsSuccess(rpath: seq<byte>, mode: nat, sent: seq<seq<byte>>, j: nat, time: u32, w: World)
    requires rpath != [] && |SendName(rpath, mode)| <= NAME_MAX && Chunked(sent) && j < |sent| && w.opens && Soft(w.plan)
    ensures var plan := [Moves(0), Moves(0), Moves(0)] + FailAt(j);
            && Arrives(rpath, mode, sent, plan) && Wired(rpath, mode, sent, plan) == sent[..j]
            && Keeps(w, sent[..j]) && SendStored(w, sent[..j], time) == Kept(Overlay(Flatten(sent[..j]), w.leftover), time)
  {
    var plan := [Moves(0), Moves(0), Moves(0)] + FailAt(j);
    AskedAll(rpath, mode, FailAt(j));
    hide Asked, Head, Frames, Decimal, FramesOutcome, WholeFrames;
    FramesFailAt(sent, j);
    assert Told(rpath, mode, sent, plan) == Moved(false, |Frames(sent[..j])|, []);
  }

  /** Three calls for the three writes of the request. */
  lemma AskedAll(rpath: seq<byte>, mode: nat, later: seq<Call>)
    requires rpath != [] && |SendName(rpath, mode)| <= MAX_U32
    ensures var m := Asked(rpath, mode, [Moves(0), Moves(0), Moves(0)] + later); m.ok && m.plan == later
  {
    hide Decimal, Head;
    var plan := [Moves(0), Moves(0), Moves(0)] + later;
    var head, tail := Head(ID_SEND, |SendName(rpath, mode)|), [COMMA] + Decimal(mode);
    ThreePieces(head, rpath, tail, plan);
    var p, q := plan[1..], plan[1..][1..];
    assert q[1..] == later;
    OneCall(|head|, plan);
    OneCall(|rpath|, p);
    OneCall(|tail|, q);
  }

  lemma OneCall(len: nat, plan: seq<Call>)
    requires len > 0 && plan != [] && plan[0] == Moves(0)
    ensures WriteOutcome(len, plan) == Moved(true, len, plan[1..])
  {
    NothingMoves(0, plan[1..]);
  }

  /** All of the local file goes out: it is read whole, and the connection takes all of it. */
  predicate AllOut(content: seq<byte>, opens: bool, readPlan: seq<Call>, rpath: seq<byte>, mode: nat, sendPlan: seq<Call>)
    requires |SendName(rpath, mode)| <= MAX_U32
  {
    if opens then
      ReadsWhole(content, readPlan, SYNC_DATA_MAX) && Told(rpath, mode, Sent(opens, content, readPlan), sendPlan).ok
    else content == []
  }

  /** What goes out is the whole local file exactly then, and a first part of it otherwise. */
  lemma WiredIff(content: seq<byte>, opens: bool, readPlan: seq<Call>, rpath: seq<byte>, mode: nat, sendPlan: seq<Call>)
    requires |SendName(rpath, mode)| <= MAX_U32
    ensures var wired := Wired(rpath, mode, Sent(opens, content, readPlan), sendPlan);
            && Flatten(wired) <= content
            && (Flatten(wired) == content <==> AllOut(content, opens, readPlan, rpath, mode, sendPlan))
  {
    var sent := Sent(opens, content, readPlan);
    ReadsWholeIff(content, readPlan, SYNC_DATA_MAX);
    if opens {
      hide ReadsWhole, ReadChunks, Told, WholeFrames, Flatten, Frames;
      WholeOrLess(sent, Told(rpath, mode, sent, sendPlan).count);
    }
  }

  /** The whole frames hold all the bytes exactly if none is missing. */
  lemma WholeOrLess(cs: seq<seq<byte>>, n: nat)
    requires Chunked(cs) && n <= |Frames(cs)| && forall k :: 0 <= k < |cs| ==> cs[k] != []
    ensures var whole := Flatten(cs[..WholeFrames(cs, n)]);
            whole <= Flatten(cs) && (n == |Frames(cs)| ==> whole == Flatten(cs)) && (n < |Frames(cs)| ==> |whole| < |Flatten(cs)|)
  {
    hide WholeFrames, Flatten, Frames;
    var j := WholeFrames(cs, n);
    assert cs == cs[..j] + cs[j..];
    FlattenConcat(cs[..j], cs[j..]);
    if n == |Frames(cs)| {
      AllWhole(cs);
      assert cs[..|cs|] == cs;
    } else {
      NotAllWhole(cs, n);
      FirstIsThere(cs[j..]);
    }
  }

  lemma FirstIsThere(cs: seq<seq<byte>>)
    requires cs != [] && cs[0] != []
    ensures |Flatten(cs)| > 0
  {
  }

  /**
   * The remote file is the local one exactly if the service keeps what went out and either that is the
   * whole local file and nothing longer was left in the remote one, or what did not go out happens to
   * be what the remote file still held there.
   */
  lemma PushedIff(content: seq<byte>, opens: bool, readPlan: seq<Call>, rpath: seq<byte>, mode: nat, sendPlan: seq<Call>,
                  time: u32, w: World)
    requires |SendName(rpath, mode)| <= MAX_U32
    ensures var wired := Wired(rpath, mode, Sent(opens, content, readPlan), sendPlan);
            SendStored(w, wired, time) == Kept(content, time) <==>
            && Keeps(w, wired)
            && if AllOut(content, opens, readPlan, rpath, mode, sendPlan) then |w.leftover| <= |content|
               else |w.leftover| == |content| && forall i :: |Flatten(wired)| <= i < |content| ==> w.leftover[i] == content[i]
  {
    hide Keeps, Flatten, AllOut, Wired, Sent, Taken;
    WiredIff(content, opens, readPlan, rpath, mode, sendPlan);
    var f := Flatten(Wired(rpath, mode, Sent(opens, content, readPlan), sendPlan));
    assert content == f + content[|f|..];
    if |w.leftover| == |content| > |f| {
      assert Overlay(f, w.leftover) == content <==> w.leftover[|f|..] == content[|f|..] by {
        assert (f + w.leftover[|f|..])[|f|..] == w.leftover[|f|..];
      }
    }
  }

  /** A local read error after a part of the file is reported as a success. */
  lemma CutFileIsSuccess(content: seq<byte>, n: nat, time: u32, w: World)
    requires 0 < n < |content| && n <= SYNC_DATA_MAX && w.opens && Soft(w.plan) && w.leftover == []
    ensures var sent := Sent(true, content, [Moves(n), Broken]);
            SendAnswer(w, sent) == OKAY_MSG && SendStored(w, sent, time) == Kept(content[..n], time)
  {
    var plan := [Moves(n), Broken];
    assert plan[1..] == [Broken];
    assert ReadChunks(content[n..], [Broken], SYNC_DATA_MAX) == Reading([], true);
    assert [content[..n]] + [] == [content[..n]];
    FlattenSnoc([], content[..n]);
    assert [] + [content[..n]] == [content[..n]];
  }

  /** A remote file that could be neither unlinked nor truncated keeps its old tail under OKAY. */
  lemma OldTailIsKept(content: seq<byte>, w: World, time: u32)
    requires Soft(w.plan) && w.opens && |w.leftover| > |content|
    ensures Keeps(w, Sent(true, content, [])) && SendAnswer(w, Sent(true, content, [])) == OKAY_MSG
    ensures SendStored(w, Sent(true, content, []), time) == Kept(content + w.leftover[|content|..], time)
  {
    hide ReadChunks;
    ReadsWholeIff(content, [], SYNC_DATA_MAX);
  }

  /** A path the client lets through is refused by the service exactly if its mode does not fit any more. */
  lemma SendRefusedIff(rpath: seq<byte>, mode: nat, rest: seq<byte>)
    requires |rpath| <= NAME_MAX && |SendName(rpath, mode)| <= MAX_U32
    ensures Ends(Head(ID_SEND, |SendName(rpath, mode)|) + SendName(rpath, mode) + rest) <==>
            |rpath| + 1 + |Decimal(mode)| > 1024
  {
    NameAcceptedIff(ID_SEND, SendName(rpath, mode), rest);
  }

  // The mode in the name of a SEND.

  /** The number that some digits denote, as strtoul reads them. */
  function Denoted(d: seq<byte>): int
    decreases |d|
  {
    if d == [] then 0 else 10 * Denoted(d[..|d| - 1]) + (d[|d| - 1] as int - 48)
  }

  /** The mode is sent in digits that denote it, without leading zeros, which strtoul would take for octal. */
  lemma {:induction false} DecimalDenotes(n: nat)
    ensures Denoted(Decimal(n)) == n
    ensures forall i :: 0 <= i < |Decimal(n)| ==> 48 <= Decimal(n)[i] <= 57
    ensures Decimal(n)[0] == 48 ==> n == 0
  {
    if n >= 10 {
      DecimalDenotes(n / 10);
      var high, d := Decimal(n / 10), Decimal(n);
      assert d[..|d| - 1] == high && d[0] == high[0];
    } else {
      assert Decimal(n)[..0] == [];
    }
  }
}
