/**
 * Whole sessions of the file sync service (file_sync_service): requests sent without
 * waiting are answered one by one and in order, each for the path it names.
 * `fs(k, path)` is what the file system does with the k-th request of a session.
 */
module SyncSession {
  import opened Basics
  import opened Io
  import opened Wire
  import opened FileSync

  datatype Request =
    | Stat(name: seq<byte>)
    | List(name: seq<byte>)
    | Send(name: seq<byte>, chunks: seq<seq<byte>>, time: u32)
    | Recv(name: seq<byte>)

  predicate RequestOk(r: Request) {
    |r.name| <= NAME_MAX && (r.Send? ==> Chunked(r.chunks))
  }

  function RequestId(r: Request): u32 {
    match r
    case Stat(_) => ID_STAT
    case List(_) => ID_LIST
    case Send(_, _, _) => ID_SEND
    case Recv(_) => ID_RECV
  }

  /** What follows the name. */
  function Body(r: Request): seq<byte>
    requires RequestOk(r)
  {
    if r.Send? then Frames(r.chunks) + Head(ID_DONE, r.time) else []
  }

  function RequestBytes(r: Request): seq<byte>
    requires RequestOk(r)
  {
    Head(RequestId(r), |r.name|) + r.name + Body(r)
  }

  predicate SessionOk(rs: seq<Request>) {
    forall k :: 0 <= k < |rs| ==> RequestOk(rs[k])
  }

  function SessionBytes(rs: seq<Request>): seq<byte>
    requires SessionOk(rs)
  {
    if rs == [] then [] else RequestBytes(rs[0]) + SessionBytes(rs[1..])
  }

  // Paths.

  const COMMA: byte := 44

  /** What is before the last comma, if there is one (strrchr). */
  function BeforeComma(s: seq<byte>): Option<seq<byte>>
    decreases |s|
  {
    if s == [] then None
    else if s[|s| - 1] == COMMA then Some(s[..|s| - 1])
    else BeforeComma(s[..|s| - 1])
  }

  /** do_send takes a mode off the end of its path. */
  function SendPath(name: seq<byte>): seq<byte> {
    match BeforeComma(name)
    case None => name
    case Some(path) => path
  }

  /** The path that a request is about. */
  function Target(r: Request): seq<byte> {
    if r.Send? then SendPath(CStr(r.name)) else CStr(r.name)
  }

  lemma {:induction false} CommaIsFound(path: seq<byte>, mode: seq<byte>)
    requires COMMA !in mode
    ensures BeforeComma(path + [COMMA] + mode) == Some(path)
    decreases |mode|
  {
    var s := path + [COMMA] + mode;
    if mode == [] {
      assert s[..|s| - 1] == path;
    } else {
      assert s[..|s| - 1] == path + [COMMA] + mode[..|mode| - 1];
      CommaIsFound(path, mode[..|mode| - 1]);
    }
  }

  lemma SendPathOfName(path: seq<byte>, mode: seq<byte>)
    requires COMMA !in mode
    ensures SendPath(path + [COMMA] + mode) == path
  {
    CommaIsFound(path, mode);
  }

  // Answers.

  /** do_stat */
  function StatMsg(i: StatInfo): (b: seq<byte>)
    ensures |b| == 16
  {
    Le32(ID_STAT) + Le32(i.mode) + Le32(i.size) + Le32(i.time)
  }

  /** Where the fields of the answer to STAT lie. */
  lemma StatLayout(i: StatInfo)
    ensures var b := StatMsg(i);
            b[..4] == Text("STAT") && WordAt(b, 4, i.mode) && WordAt(b, 8, i.size) && WordAt(b, 12, i.time)
  {
    IdsAreLetters();
    hide Le32, WordAt, Text;
    var b := StatMsg(i);
    assert b[..4] == Le32(ID_STAT) && b[4..8] == Le32(i.mode) && b[8..12] == Le32(i.size) && b[12..16] == Le32(i.time);
    WordLies(b, 4, i.mode);
    WordLies(b, 8, i.size);
    WordLies(b, 12, i.time);
  }

  function ReadStat(b: seq<byte>): Option<StatInfo>
    requires |b| == 16
  {
    if FromLe32(b[0..4]) != ID_STAT then None
    else Some(StatInfo(FromLe32(b[4..8]), FromLe32(b[8..12]), FromLe32(b[12..16])))
  }

  lemma StatRoundTrip(i: StatInfo)
    ensures ReadStat(StatMsg(i)) == Some(i)
  {
    var b := StatMsg(i);
    assert b[0..4] == Le32(ID_STAT) && b[4..8] == Le32(i.mode);
    assert b[8..12] == Le32(i.size) && b[12..16] == Le32(i.time);
    Le32RoundTrip(ID_STAT);
    Le32RoundTrip(i.mode);
    Le32RoundTrip(i.size);
    Le32RoundTrip(i.time);
  }

  /** One line of a listing; names over 256 bytes and names that lstat fails on are passed over. */
  function DentMsg(d: Dirent): seq<byte> {
    if |d.name| > 256 || d.info.None? then []
    else
      var i := d.info.value;
      Le32(ID_DENT) + Le32(i.mode) + Le32(i.size) + Le32(i.time) + Le32(|d.name|) + d.name
  }

  function DentMsgs(ds: seq<Dirent>): seq<byte>
    decreases |ds|
  {
    if ds == [] then [] else DentMsgs(ds[..|ds| - 1]) + DentMsg(ds[|ds| - 1])
  }

  const LIST_END: seq<byte> := Le32(ID_DONE) + Le32(0) + Le32(0) + Le32(0) + Le32(0)

  /** The one answer to a request. */
  function Answer(r: Request, w: World): seq<byte> {
    match r
    case Stat(_) => StatMsg(w.info)
    case List(_) => DentMsgs(w.entries) + LIST_END
    case Send(_, chunks, _) => SendAnswer(w, chunks)
    case Recv(_) => RecvAnswer(w)
  }

  function Outcome(r: Request, w: World): Stored {
    if r.Send? then SendStored(w, r.chunks, r.time) else NotKept
  }

  type FileSystem = (nat, seq<byte>) -> World

  function AnswerTo(fs: FileSystem, k: nat, r: Request): seq<byte> {
    Answer(r, fs(k, Target(r)))
  }

  function OutcomeOf(fs: FileSystem, k: nat, r: Request): Stored {
    Outcome(r, fs(k, Target(r)))
  }

  function Answers(fs: FileSystem, rs: seq<Request>): (a: seq<seq<byte>>)
    ensures |a| == |rs|
  {
    seq(|rs|, k requires 0 <= k < |rs| => AnswerTo(fs, k, rs[k]))
  }

  function Outcomes(fs: FileSystem, rs: seq<Request>): (o: seq<Stored>)
    ensures |o| == |rs|
  {
    seq(|rs|, k requires 0 <= k < |rs| => OutcomeOf(fs, k, rs[k]))
  }

  // How a session ends.

  predicate Known(id: u32) {
    id == ID_STAT || id == ID_LIST || id == ID_SEND || id == ID_RECV
  }

  /** No request that the service would serve: QUIT, an unknown id, a name that is too long, or too few bytes. */
  predicate Ends(tail: seq<byte>) {
    |tail| < 8 || SizeOf(tail) > NAME_MAX || |tail| < 8 + SizeOf(tail) || !Known(IdOf(tail))
  }

  function LastWords(tail: seq<byte>): seq<byte>
    requires Ends(tail)
  {
    if |tail| < 8 then FailMsg(Text("command read failure"))
    else if SizeOf(tail) > NAME_MAX then FailMsg(Text("invalid namelen"))
    else if |tail| < 8 + SizeOf(tail) then FailMsg(Text("filename read failure"))
    else if IdOf(tail) == ID_QUIT then []
    else FailMsg(Text("unknown command"))
  }

  /** The service accepts a name exactly if it has at most 1024 bytes. */
  lemma NameAcceptedIff(id: u32, name: seq<byte>, rest: seq<byte>)
    requires Known(id) && |name| <= MAX_U32
    ensures Ends(Head(id, |name|) + name + rest) <==> |name| > 1024
    ensures |name| > 1024 ==> LastWords(Head(id, |name|) + name + rest) == FailMsg(Text("invalid namelen"))
  {
    Assoc(Head(id, |name|), name, rest);
    ReadHead(id, |name|, name + rest);
  }

  lemma QuitEnds(rest: seq<byte>)
    ensures Ends(Head(ID_QUIT, 0) + rest) && LastWords(Head(ID_QUIT, 0) + rest) == []
  {
    ReadHead(ID_QUIT, 0, rest);
  }

  /** What comes after the last request that can be served: as above, or a SEND without a complete upload. */
  datatype Tail = Bare(bytes: seq<byte>) | CutSend(name: seq<byte>, body: seq<byte>)

  predicate TailOk(t: Tail) {
    match t
    case Bare(bytes) => Ends(bytes)
    case CutSend(name, body) => |name| <= NAME_MAX && !Parse(body, false).Complete?
  }

  function TailBytes(t: Tail): seq<byte>
    requires TailOk(t)
  {
    match t
    case Bare(bytes) => bytes
    case CutSend(name, body) => Head(ID_SEND, |name|) + name + body
  }

  /** What is said about it, and what is left of it, by the k-th request of a session. */
  function TailAnswer(fs: FileSystem, k: nat, t: Tail): seq<byte>
    requires TailOk(t)
  {
    match t
    case Bare(bytes) => LastWords(bytes)
    case CutSend(name, body) => UploadAnswer(fs(k, SendPath(CStr(name))), Parse(body, false))
  }

  function TailStored(fs: FileSystem, k: nat, t: Tail): Stored
    requires TailOk(t)
  {
    match t
    case Bare(_) => NotKept
    case CutSend(name, body) => UploadStored(fs(k, SendPath(CStr(name))), Parse(body, false))
  }

  // What is left of an answer when the connection fails.

  /** The client got a part of the answer, or of a FAIL in its place. */
  ghost predicate Cut(got: seq<byte>, answer: seq<byte>) {
    got <= answer || CutFail(got)
  }

  ghost predicate CutFail(got: seq<byte>) {
    exists reason: Reason :: |reason| >= 8 && got <= FailMsg(reason)
  }

  predicate SaysOkay(got: seq<byte>) {
    |got| >= 8 && IdOf(got) == ID_OKAY
  }

  /** A FAIL, whole or not, is no OKAY. */
  lemma FailIsNotOkay(got: seq<byte>, reason: Reason)
    requires got <= FailMsg(reason)
    ensures !SaysOkay(got)
  {
    if |got| >= 8 {
      assert got[0..4] == FailMsg(reason)[0..4] == Le32(ID_FAIL);
      Le32RoundTrip(ID_FAIL);
    }
  }

  lemma CutFailIsNotOkay(got: seq<byte>)
    requires CutFail(got)
    ensures !SaysOkay(got)
  {
    hide FailMsg;
    var reason: Reason :| |reason| >= 8 && got <= FailMsg(reason);
    FailIsNotOkay(got, reason);
  }

  /** An upload that is not complete is not answered with OKAY. */
  lemma BadIsNotOkay(w: World, u: Upload, got: seq<byte>)
    requires !u.Complete? && got <= UploadAnswer(w, u)
    ensures !SaysOkay(got)
  {
    hide Keeps;
    if |got| >= 8 {
      var reason := if !Keeps(w, u.chunks) then w.reason
                    else if u.Malformed? then Text("invalid data message") else Text("oversize data message");
      assert got[0..4] == UploadAnswer(w, u)[0..4] == FailMsg(reason)[0..4] == Le32(ID_FAIL);
      Le32RoundTrip(ID_FAIL);
    }
  }

  /** What an upload may leave when the connection fails: the file it was to make, a part of it that stays, or nothing. */
  ghost predicate Leaves(w: World, u: Upload, stored: Stored) {
    || stored == NotKept
    || (u.Complete? && stored == SendStored(w, u.chunks, u.time))
    || (w.opens && !w.removes && PartStays(stored, Flatten(u.chunks), w.leftover))
  }

  ghost predicate PartStays(stored: Stored, data: seq<byte>, leftover: seq<byte>) {
    exists n: nat :: n <= |data| && stored == Remains(Overlay(data[..n], leftover))
  }

  lemma EndsLeave(w: World, input: seq<byte>, n: nat)
    requires n <= |input|
    ensures Leaves(w, Parse(input, false), UploadStored(w, Parse(input[..n], false)))
  {
    hide Parse, PiecesOutcome, Flatten, Overlay;
    var u, v := Parse(input, false), Parse(input[..n], false);
    assert input[..n] + input[n..] == input;
    ParseFirst(input[..n], input[n..], false);
    if v.Complete? {
      ParseMore(input[..n], input[n..], false);
    }
    var more := u.chunks[|v.chunks|..];
    assert u.chunks == v.chunks + more;
    FlattenConcat(v.chunks, more);
    var x := Taken(w, v.chunks);
    assert x == Flatten(u.chunks)[..|x|];
  }

  // The service.

  /** The start of the service loop: id and name of the next request. */
  method ReadRequest(s: Fd) returns (r: Option<(u32, seq<byte>)>, ghost got: seq<byte>)
    modifies s`input, s`output, s`plan
    ensures Soft(old(s.plan)) ==> Soft(s.plan)
    ensures r.Some? ==>
              && |r.value.1| <= NAME_MAX && s.output == old(s.output)
              && old(s.input) == Head(r.value.0, |r.value.1|) + r.value.1 + s.input
    ensures r.None? ==> s.output == old(s.output) + got && CutFail(got)
    ensures r.None? && Soft(old(s.plan)) ==> Ends(old(s.input)) && got == LastWords(old(s.input))
  {
    hide FailMsg, IdOf, SizeOf, Head;
    got := [];
    var head, _ := ReadMessage(s);
    if head.None? {
      got := Fail(s, Text("command read failure"));
      return None, got;
    }
    var (id, len) := head.value;
    ReadHead(id, len, s.input);
    if len > NAME_MAX {
      got := Fail(s, Text("invalid namelen"));
      return None, got;
    }
    var name, _ := ReadBody(s, len);
    if name.None? {
      got := Fail(s, Text("filename read failure"));
      return None, got;
    }
    Assoc(Head(id, len), name.value, s.input);
    r := Some((id, name.value));
  }

  /** do_list */
  method DoList(s: Fd, entries: seq<Dirent>) returns (ok: bool)
    modifies s`output, s`plan
    ensures Soft(old(s.plan)) ==> ok && Soft(s.plan)
    ensures ok ==> s.output == old(s.output) + (DentMsgs(entries) + LIST_END)
    ensures old(s.output) <= s.output <= old(s.output) + (DentMsgs(entries) + LIST_END)
  {
    hide DentMsg;
    var i := 0;
    assert entries[..0] == [];
    while i < |entries|
      invariant 0 <= i <= |entries| && s.output == old(s.output) + DentMsgs(entries[..i])
      invariant Soft(old(s.plan)) ==> Soft(s.plan)
    {
      assert entries[..i + 1][..i] == entries[..i];
      Assoc(old(s.output), DentMsgs(entries[..i]), DentMsg(entries[i]));
      DentPrefix(entries, i + 1);
      ok := Writex(s, DentMsg(entries[i]));
      if !ok {
        return;
      }
      i := i + 1;
    }
    assert entries[..i] == entries;
    Assoc(old(s.output), DentMsgs(entries), LIST_END);
    ok := Writex(s, LIST_END);
  }

  lemma {:induction false} DentPrefix(ds: seq<Dirent>, i: nat)
    requires i <= |ds|
    ensures DentMsgs(ds[..i]) <= DentMsgs(ds)
    decreases |ds| - i
  {
    hide DentMsg;
    if i == |ds| {
      assert ds[..i] == ds;
    } else {
      assert ds[..i + 1][..i] == ds[..i];
      DentPrefix(ds, i + 1);
    }
  }

  /** The bytes from here on hold this request's own data and `rest`. */
  ghost predicate Reads(r: Request, id: u32, name: seq<byte>, input: seq<byte>, rest: seq<byte>) {
    RequestOk(r) && RequestId(r) == id && r.name == name && input == Body(r) + rest
  }

  /** What the client got, and what is left, of a request that was not served to its end. */
  ghost predicate Unserved(r: Request, w: World, got: seq<byte>, stored: Stored) {
    && Cut(got, Answer(r, w))
    && if r.Send? then !SaysOkay(got) && Leaves(w, Complete(r.chunks, r.time, []), stored) else stored == NotKept
  }

  lemma SameLeaves(w: World, chunks: seq<seq<byte>>, time: u32, x: seq<byte>, y: seq<byte>, stored: Stored)
    requires Leaves(w, Complete(chunks, time, x), stored)
    ensures Leaves(w, Complete(chunks, time, y), stored)
  {
  }

  /** The SEND case, whatever follows the name. */
  method ServeSend(s: Fd, w: World) returns (ok: bool, stored: Stored, ghost got: seq<byte>)
    modifies s`input, s`output, s`plan
    ensures Soft(old(s.plan)) ==> Soft(s.plan)
    ensures s.output == old(s.output) + got
    ensures var u := Parse(old(s.input), false);
            if ok then
              u.Complete? && s.input == u.rest && got == SendAnswer(w, u.chunks) && stored == SendStored(w, u.chunks, u.time)
            else got <= UploadAnswer(w, u) && !SaysOkay(got) && Leaves(w, u, stored)
    ensures var u := Parse(old(s.input), false);
            Soft(old(s.plan)) ==> (ok <==> u.Complete?) && got == UploadAnswer(w, u) && stored == UploadStored(w, u)
    ensures ok ==> |s.input| <= |old(s.input)|
  {
    hide Parse, Keeps, FailMsg, SaysOkay, Leaves;
    ghost var input, n := s.input, 0;
    ok, stored, got, n := HandleSendFile(s, w);
    EndsLeave(w, input, n);
    assert n == |input| ==> input[..n] == input;
    ghost var u := Parse(input, false);
    if ok {
      RestIsShorter(input);
    } else if !u.Complete? {
      BadIsNotOkay(w, u, got);
    } else if Keeps(w, u.chunks) {
      ShortIsNotOkay(got);
    } else {
      FailIsNotOkay(got, w.reason);
    }
  }

  lemma ShortIsNotOkay(got: seq<byte>)
    requires |got| < 8
    ensures !SaysOkay(got)
  {
  }

  lemma {:induction false} RestIsShorter(b: seq<byte>)
    ensures Parse(b, false).Complete? ==> |Parse(b, false).rest| <= |b|
    decreases |b|
  {
    hide IdOf, SizeOf, Refuses;
    if |b| >= 8 && 8 + SizeOf(b) <= |b| {
      RestIsShorter(b[8 + SizeOf(b)..]);
    }
  }

  /** The switch of the service loop, on a request that is well formed, or on a SEND that is not, or on no request. */
  method ServeOne(s: Fd, id: u32, name: seq<byte>, fs: FileSystem, k: nat, ghost r: Request, ghost rest: seq<byte>)
    returns (ok: bool, stored: Stored, ghost got: seq<byte>)
    modifies s`input, s`output, s`plan
    ensures Soft(old(s.plan)) ==> Soft(s.plan)
    ensures ok ==> |s.input| <= |old(s.input)| && Known(id)
    ensures s.output == old(s.output) + got
    ensures Reads(r, id, name, old(s.input), rest) ==>
              if ok then s.input == rest && stored == OutcomeOf(fs, k, r) && got == AnswerTo(fs, k, r)
              else !Soft(old(s.plan)) && Unserved(r, fs(k, Target(r)), got, stored)
    ensures var w, u := fs(k, SendPath(CStr(name))), Parse(old(s.input), false);
            id == ID_SEND && !u.Complete? ==>
              && !ok && got <= UploadAnswer(w, u) && Leaves(w, u, stored)
              && (Soft(old(s.plan)) ==> got == UploadAnswer(w, u) && stored == UploadStored(w, u))
    ensures var words := if id == ID_QUIT then [] else FailMsg(Text("unknown command"));
            !Known(id) ==> !ok && got <= words && stored == NotKept && (Soft(old(s.plan)) ==> got == words)
  {
    hide Frames, Flatten, Head, FailMsg, StatMsg, Parse, CStr, SendPath, RecvAnswer, SendAnswer, SendStored, DentMsgs, CutFail,
         UploadAnswer, UploadStored, Leaves, SaysOkay, WriteOutcome;
    stored, got := NotKept, [];
    if id == ID_STAT {
      ok := Writex(s, StatMsg(fs(k, CStr(name)).info));
    } else if id == ID_LIST {
      ok := DoList(s, fs(k, CStr(name)).entries);
    } else if id == ID_SEND {
      ghost var w := fs(k, SendPath(CStr(name)));
      if RequestOk(r) && r.Send? {
        Assoc(Frames(r.chunks), Head(ID_DONE, r.time), rest);
        FramesParse(r.chunks, r.time, rest, false);
        CompleteAnswer(w, r.chunks, r.time, rest);
      }
      ok, stored, got := ServeSend(s, fs(k, SendPath(CStr(name))));
      if !ok && Reads(r, id, name, old(s.input), rest) {
        SameLeaves(w, r.chunks, r.time, rest, [], stored);
      }
      return;
    } else if id == ID_RECV {
      ok := DoRecv(s, fs(k, CStr(name)));
    } else {
      ok := false;
      if id != ID_QUIT {
        got := Fail(s, Text("unknown command"));
      }
      return;
    }
    got := s.output[|old(s.output)|..];
  }

  lemma CompleteAnswer(w: World, chunks: seq<seq<byte>>, time: u32, rest: seq<byte>)
    ensures UploadAnswer(w, Complete(chunks, time, rest)) == SendAnswer(w, chunks)
    ensures UploadStored(w, Complete(chunks, time, rest)) == SendStored(w, chunks, time)
  {
  }

  lemma NextRequest(rs: seq<Request>, tail: seq<byte>)
    requires SessionOk(rs) && rs != []
    ensures SessionBytes(rs) + tail ==
            Head(RequestId(rs[0]), |rs[0].name|) + rs[0].name + (Body(rs[0]) + (SessionBytes(rs[1..]) + tail))
  {
    hide Head, Body;
    assert SessionBytes(rs) == RequestBytes(rs[0]) + SessionBytes(rs[1..]);
  }

  /** A head and a name say unambiguously what they are. */
  lemma SameRequest(id: u32, name: seq<byte>, rest: seq<byte>, id': u32, name': seq<byte>, rest': seq<byte>)
    requires |name| <= NAME_MAX && |name'| <= NAME_MAX
    requires Head(id, |name|) + name + rest == Head(id', |name'|) + name' + rest'
    ensures id == id' && name == name' && rest == rest'
  {
    hide Head, IdOf, SizeOf;
    var b := Head(id, |name|) + name + rest;
    Assoc(Head(id, |name|), name, rest);
    Assoc(Head(id', |name'|), name', rest');
    ReadHead(id, |name|, name + rest);
    ReadHead(id', |name'|, name' + rest');
    assert (name + rest)[..|name|] == name && (name' + rest')[..|name|] == name';
    assert (name + rest)[|name|..] == rest && (name' + rest')[|name|..] == rest';
  }

  /** What was read where the session ends. */
  lemma EndOfSession(id: u32, name: seq<byte>, rest: seq<byte>)
    requires |name| <= NAME_MAX && Ends(Head(id, |name|) + name + rest)
    ensures !Known(id)
    ensures LastWords(Head(id, |name|) + name + rest) == if id == ID_QUIT then [] else FailMsg(Text("unknown command"))
  {
    hide Head, IdOf, SizeOf, FailMsg;
    Assoc(Head(id, |name|), name, rest);
    ReadHead(id, |name|, name + rest);
  }

  /** One round of the service loop, on the requests still to come. */
  method ServeNext(s: Fd, fs: FileSystem, k: nat, ghost rs: seq<Request>, ghost tail: Tail)
    returns (ok: bool, stored: Stored, ghost got: seq<byte>)
    requires SessionOk(rs) && TailOk(tail)
    modifies s`input, s`output, s`plan
    ensures Soft(old(s.plan)) ==> Soft(s.plan)
    ensures ok ==> |s.input| < |old(s.input)|
    ensures s.output == old(s.output) + got
    ensures old(s.input) == SessionBytes(rs) + TailBytes(tail) ==>
              if rs == [] then !ok && EndsWith(fs, k, tail, got, stored, Soft(old(s.plan)))
              else if ok then
                && s.input == SessionBytes(rs[1..]) + TailBytes(tail)
                && got == AnswerTo(fs, k, rs[0]) && stored == OutcomeOf(fs, k, rs[0])
              else !Soft(old(s.plan)) && Unserved(rs[0], fs(k, Target(rs[0])), got, stored)
  {
    ghost var end := TailBytes(tail);
    assert SessionBytes([]) + end == end;
    hide SessionBytes, Head, Body, AnswerTo, OutcomeOf, Ends, LastWords, FailMsg, RequestId, CutFail, Parse, Target, Answer,
         CStr, SendPath, UploadAnswer, UploadStored, Leaves, SaysOkay;
    ghost var well := s.input == SessionBytes(rs) + end;
    ghost var r, rest := Stat([]), [];
    if rs != [] {
      NextRequest(rs, end);
      r, rest := rs[0], SessionBytes(rs[1..]) + end;
      KnownRequest(r, Body(r) + rest);
    } else if tail.CutSend? {
      NameAcceptedIff(ID_SEND, tail.name, tail.body);
    }
    var req;
    req, got := ReadRequest(s);
    if req.None? {
      CutFailIsNotOkay(got);
      NothingLeft(got, r, rs, tail, fs, k);
      return false, NotKept, got;
    }
    if well {
      if rs != [] {
        SameRequest(req.value.0, req.value.1, s.input, RequestId(r), r.name, Body(r) + rest);
      } else if tail.Bare? {
        EndOfSession(req.value.0, req.value.1, s.input);
      } else {
        SameRequest(req.value.0, req.value.1, s.input, ID_SEND, tail.name, tail.body);
      }
    }
    ok, stored, got := ServeOne(s, req.value.0, req.value.1, fs, k, r, rest);
  }

  /** How the session ends: with a part of what is said about its tail, and all of it over a connection that holds. */
  ghost predicate EndsWith(fs: FileSystem, k: nat, tail: Tail, got: seq<byte>, stored: Stored, holds: bool)
    requires TailOk(tail)
  {
    && Cut(got, TailAnswer(fs, k, tail))
    && (if tail.Bare? then stored == NotKept else Leaves(fs(k, SendPath(CStr(tail.name))), Parse(tail.body, false), stored))
    && (holds ==> got == TailAnswer(fs, k, tail) && stored == TailStored(fs, k, tail))
  }

  /** A request that could not be read leaves nothing. */
  lemma NothingLeft(got: seq<byte>, r: Request, rs: seq<Request>, tail: Tail, fs: FileSystem, k: nat)
    requires CutFail(got) && !SaysOkay(got) && TailOk(tail)
    ensures Unserved(r, fs(k, Target(r)), got, NotKept)
    ensures EndsWith(fs, k, tail, got, NotKept, false)
    ensures tail.Bare? && got == LastWords(tail.bytes) ==> EndsWith(fs, k, tail, got, NotKept, true)
  {
  }

  lemma KnownRequest(r: Request, rest: seq<byte>)
    requires RequestOk(r)
    ensures !Ends(Head(RequestId(r), |r.name|) + r.name + rest)
  {
    NameAcceptedIff(RequestId(r), r.name, rest);
  }

  lemma OneMoreAnswer(fs: FileSystem, rs: seq<Request>, k: nat, out: seq<byte>)
    requires k < |rs|
    ensures out + Flatten(Answers(fs, rs)[..k]) + AnswerTo(fs, k, rs[k]) == out + Flatten(Answers(fs, rs)[..k + 1])
    ensures Outcomes(fs, rs)[..k + 1] == Outcomes(fs, rs)[..k] + [OutcomeOf(fs, k, rs[k])]
    ensures rs[k..][1..] == rs[k + 1..]
  {
    hide AnswerTo, OutcomeOf;
    assert Answers(fs, rs)[..k + 1] == Answers(fs, rs)[..k] + [AnswerTo(fs, k, rs[k])];
    FlattenSnoc(Answers(fs, rs)[..k], AnswerTo(fs, k, rs[k]));
    Assoc(out, Flatten(Answers(fs, rs)[..k]), AnswerTo(fs, k, rs[k]));
  }

  /** Some first requests were served, and what of the next or of the tail. */
  ghost predicate SessionEnds(fs: FileSystem, rs: seq<Request>, tail: Tail,
                              stored: seq<Stored>, last: Stored, got: seq<byte>, holds: bool)
    requires TailOk(tail)
  {
    var k := |stored|;
    && k <= |rs| && stored == Outcomes(fs, rs)[..k]
    && if k < |rs| then !holds && Unserved(rs[k], fs(k, Target(rs[k])), got, last) else EndsWith(fs, k, tail, got, last, holds)
  }

  lemma SessionCut(fs: FileSystem, rs: seq<Request>, tail: seq<byte>,
                   stored: seq<Stored>, last: Stored, got: seq<byte>, holds: bool)
    requires Ends(tail) && SessionEnds(fs, rs, Bare(tail), stored, last, got, holds)
    ensures var k := |stored|;
            && k <= |rs| && Cut(got, if k < |rs| then AnswerTo(fs, k, rs[k]) else LastWords(tail))
            && (holds ==> k == |rs| && got == LastWords(tail))
  {
  }

  /**
   * file_sync_service: well-formed requests are answered one by one, the k-th answer being that to
   * the k-th request for the path it names; then the session ends as its tail says, and nothing
   * else is sent. If the connection fails, some first requests were served like that, and of the
   * next answer the client has got a part, or of a FAIL in its place. `last` is what is left of the
   * upload with which the session ended, if it was one.
   */
  method Serve(s: Fd, fs: FileSystem, ghost rs: seq<Request>, ghost tail: Tail)
    returns (stored: seq<Stored>, last: Stored, ghost got: seq<byte>)
    requires SessionOk(rs) && TailOk(tail)
    modifies s`input, s`output, s`plan
    ensures old(s.input) == SessionBytes(rs) + TailBytes(tail) ==>
              && SessionEnds(fs, rs, tail, stored, last, got, Soft(old(s.plan)))
              && s.output == old(s.output) + Flatten(Answers(fs, rs)[..|stored|]) + got
  {
    ghost var end := TailBytes(tail);
    ghost var well := s.input == SessionBytes(rs) + end;
    stored := [];
    var k := 0;
    assert Flatten(Answers(fs, rs)[..0]) == [] && rs[0..] == rs;
    hide SessionBytes, Flatten, Answers, AnswerTo, Outcomes, OutcomeOf, Cut, Unserved, EndsWith, TailOk, TailBytes, Target;
    while true
      invariant k == |stored|
      invariant Soft(old(s.plan)) ==> Soft(s.plan)
      invariant well ==> k <= |rs| && stored == Outcomes(fs, rs)[..k]
      invariant well ==> s.input == SessionBytes(rs[k..]) + end
      invariant well ==> s.output == old(s.output) + Flatten(Answers(fs, rs)[..k])
      decreases |s.input|
    {
      ghost var todo := if k <= |rs| then rs[k..] else [];
      var ok;
      ok, last, got := ServeNext(s, fs, k, todo, tail);
      if !ok {
        return;
      }
      if well {
        OneMoreAnswer(fs, rs, k, old(s.output));
      }
      stored, k := stored + [last], k + 1;
    }
  }

  // Sessions of one request.

  /** One request is answered once. */
  lemma OneAnswer(fs: FileSystem, r: Request)
    ensures Flatten(Answers(fs, [r])) == AnswerTo(fs, 0, r) && Outcomes(fs, [r]) == [OutcomeOf(fs, 0, r)]
  {
    hide AnswerTo, OutcomeOf;
    assert Answers(fs, [r]) == [] + [AnswerTo(fs, 0, r)];
    FlattenSnoc([], AnswerTo(fs, 0, r));
  }

  lemma NothingAnswered(fs: FileSystem, rs: seq<Request>)
    ensures Flatten(Answers(fs, rs)[..0]) == []
  {
  }

  lemma StoredIs(fs: FileSystem, rs: seq<Request>, tail: Tail, stored: seq<Stored>, last: Stored, got: seq<byte>, holds: bool)
    requires TailOk(tail) && SessionEnds(fs, rs, tail, stored, last, got, holds)
    ensures |stored| <= |rs| && stored == Outcomes(fs, rs)[..|stored|]
  {
  }

  /** What the client has got of the answer to one request, all of it or a part. */
  lemma OneServed(fs: FileSystem, r: Request, stored: seq<Stored>, got: seq<byte>)
    requires |stored| <= 1 && stored == Outcomes(fs, [r])[..|stored|]
    ensures var out := [] + Flatten(Answers(fs, [r])[..|stored|]) + got;
            if stored == [] then out == got else out == AnswerTo(fs, 0, r) + got && stored == [OutcomeOf(fs, 0, r)]
  {
    hide AnswerTo, OutcomeOf, Answers, Outcomes, Flatten;
    OneAnswer(fs, r);
    if stored == [] {
      NothingAnswered(fs, [r]);
      assert [] + [] + got == got;
    } else {
      assert Answers(fs, [r])[..1] == Answers(fs, [r]) && Outcomes(fs, [r])[..1] == Outcomes(fs, [r]);
      assert [] + AnswerTo(fs, 0, r) == AnswerTo(fs, 0, r);
    }
  }

  /** What it has got when no request could be served. */
  lemma NoneServed(fs: FileSystem, tail: Tail, got: seq<byte>)
    requires TailOk(tail)
    ensures SessionBytes([]) + TailBytes(tail) == TailBytes(tail) && Outcomes(fs, []) == []
    ensures [] + Flatten(Answers(fs, [])[..0]) + got == got
  {
    hide TailBytes;
    NothingAnswered(fs, []);
    assert SessionBytes([]) + TailBytes(tail) == TailBytes(tail);
    assert [] + [] + got == got;
  }
}
