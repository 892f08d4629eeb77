/** A listing of one directory (sync_ls), run against the service: whatever the connection does. */
module SyncList {
  import opened Basics
  import opened Io
  import opened Wire
  import opened FileSync
  import opened SyncSession
  import opened SyncClient

  /** What sync_ls tells its caller of one name. */
  datatype Line = Line(mode: u32, size: u32, time: u32, name: seq<byte>)

  /** The lines told, and how the call ends. */
  datatype Listing = Listing(lines: seq<Line>, code: Code)

  lemma SameWord(a: seq<byte>, b: seq<byte>, at: nat)
    requires a <= b && at + 4 <= |a|
    ensures Word(a, at) == Word(b, at)
  {
    assert a[at..at + 4] == b[at..at + 4];
  }

  lemma SameWords(a: seq<byte>, b: seq<byte>)
    requires a <= b && |a| >= 20
    ensures Word(a, 0) == Word(b, 0) && Word(a, 4) == Word(b, 4) && Word(a, 8) == Word(b, 8)
    ensures Word(a, 12) == Word(b, 12) && Word(a, 16) == Word(b, 16)
  {
    hide Word;
    SameWord(a, b, 0);
    SameWord(a, b, 4);
    SameWord(a, b, 8);
    SameWord(a, b, 12);
    SameWord(a, b, 16);
  }

  /** How many bytes the next line has, unless the listing ends or breaks off here. */
  function LineLength(b: seq<byte>): (n: Option<nat>)
    ensures n.Some? ==> 20 <= n.value <= |b|
  {
    if |b| < 20 || Word(b, 0) != ID_DENT || Word(b, 16) > 256 || |b| < 20 + Word(b, 16) then None
    else Some(20 + Word(b, 16))
  }

  function LineOf(b: seq<byte>): Line
    requires LineLength(b).Some?
  {
    Line(Word(b, 4), Word(b, 8), Word(b, 12), b[20..LineLength(b).value])
  }

  /** Where there is no line: the length of a name is compared as an int. */
  function EndOf(b: seq<byte>): Code {
    if |b| < 20 then Failed
    else if Word(b, 0) == ID_DONE then Done
    else if Word(b, 0) == ID_DENT && Signed(Word(b, 16)) < 0 then Runaway
    else Failed
  }

  function ReadList(b: seq<byte>): Listing
    decreases |b|
  {
    if LineLength(b).None? then Listing([], EndOf(b))
    else
      var r := ReadList(b[LineLength(b).value..]);
      r.(lines := [LineOf(b)] + r.lines)
  }

  /** What the client is to see of a directory: the names of at most 256 bytes that lstat knows. */
  function Visible(ds: seq<Dirent>): seq<Line>
    decreases |ds|
  {
    if ds == [] then []
    else
      var d := ds[|ds| - 1];
      Visible(ds[..|ds| - 1]) +
      if |d.name| <= 256 && d.info.Some? then [Line(d.info.value.mode, d.info.value.size, d.info.value.time, d.name)] else []
  }

  // The answer to LIST is read as what the client is to see.

  /** Five words in front. */
  lemma FiveWords(a: u32, b: u32, c: u32, d: u32, e: u32, rest: seq<byte>)
    ensures var m := Le32(a) + Le32(b) + Le32(c) + Le32(d) + Le32(e) + rest;
            && |m| >= 20 && m[20..] == rest
            && Word(m, 0) == a && Word(m, 4) == b && Word(m, 8) == c && Word(m, 12) == d && Word(m, 16) == e
  {
    hide Le32, FromLe32;
    var m := Le32(a) + Le32(b) + Le32(c) + Le32(d) + Le32(e) + rest;
    assert m[0..4] == Le32(a) && m[4..8] == Le32(b) && m[8..12] == Le32(c) && m[12..16] == Le32(d) && m[16..20] == Le32(e);
    Le32RoundTrip(a);
    Le32RoundTrip(b);
    Le32RoundTrip(c);
    Le32RoundTrip(d);
    Le32RoundTrip(e);
  }

  lemma OneLine(d: Dirent, rest: seq<byte>)
    requires |d.name| <= 256 && d.info.Some?
    ensures var b := DentMsg(d) + rest;
            && LineLength(b) == Some(20 + |d.name|) && b[20 + |d.name|..] == rest
            && LineOf(b) == Line(d.info.value.mode, d.info.value.size, d.info.value.time, d.name)
  {
    var i, b := d.info.value, DentMsg(d) + rest;
    hide Le32, Word;
    Assoc(Le32(ID_DENT) + Le32(i.mode) + Le32(i.size) + Le32(i.time) + Le32(|d.name|), d.name, rest);
    FiveWords(ID_DENT, i.mode, i.size, i.time, |d.name|, d.name + rest);
    assert b[20..20 + |d.name|] == b[20..][..|d.name|] && b[20 + |d.name|..] == b[20..][|d.name|..];
  }

  /** Where the fields of a line lie: the id, mode, size, time and length of the name, then the name. */
  lemma DentLayout(d: Dirent)
    requires |d.name| <= 256 && d.info.Some?
    ensures var b, i := DentMsg(d), d.info.value;
            && b[..4] == Text("DENT") && WordAt(b, 4, i.mode) && WordAt(b, 8, i.size) && WordAt(b, 12, i.time)
            && WordAt(b, 16, |d.name|) && b[20..] == d.name
  {
    IdsAreLetters();
    hide Le32, WordAt, Text;
    var b, i := DentMsg(d), d.info.value;
    assert b[..4] == Le32(ID_DENT) && b[4..8] == Le32(i.mode) && b[8..12] == Le32(i.size);
    assert b[12..16] == Le32(i.time) && b[16..20] == Le32(|d.name|) && b[20..] == d.name;
    WordLies(b, 4, i.mode);
    WordLies(b, 8, i.size);
    WordLies(b, 12, i.time);
    WordLies(b, 16, |d.name|);
  }

  lemma {:induction false} LinesRead(ds: seq<Dirent>, rest: seq<byte>)
    ensures var r := ReadList(rest);
            ReadList(DentMsgs(ds) + rest) == Listing(Visible(ds) + r.lines, r.code)
    decreases |ds|
  {
    hide DentMsg, LineLength, LineOf;
    if ds == [] {
      assert DentMsgs(ds) + rest == rest;
      assert [] + ReadList(rest).lines == ReadList(rest).lines;
    } else {
      var init, d := ds[..|ds| - 1], ds[|ds| - 1];
      Assoc(DentMsgs(init), DentMsg(d), rest);
      LinesRead(init, DentMsg(d) + rest);
      if |d.name| <= 256 && d.info.Some? {
        OneLine(d, rest);
        Assoc(Visible(init), [Line(d.info.value.mode, d.info.value.size, d.info.value.time, d.name)], ReadList(rest).lines);
      } else {
        assert DentMsg(d) + rest == rest by {
          NoLine(d);
          assert [] + rest == rest;
        }
        assert Visible(ds) == Visible(init) + [] == Visible(init);
      }
    }
  }

  lemma NoLine(d: Dirent)
    requires |d.name| > 256 || d.info.None?
    ensures DentMsg(d) == []
  {
  }

  /** The whole answer to LIST, whatever follows it. */
  lemma AnswerRead(ds: seq<Dirent>, after: seq<byte>)
    ensures ReadList(DentMsgs(ds) + LIST_END + after) == Listing(Visible(ds), Done)
  {
    hide DentMsgs, Visible;
    Assoc(DentMsgs(ds), LIST_END, after);
    LinesRead(ds, LIST_END + after);
    FiveWords(ID_DONE, 0, 0, 0, 0, after);
    assert Visible(ds) + [] == Visible(ds);
  }

  /** A name longer than 256 bytes fails; from 2^31 bytes on the client goes on to read it. */
  lemma LongNameEnds(mode: u32, size: u32, time: u32, len: u32, rest: seq<byte>)
    requires len > 256
    ensures ReadList(Le32(ID_DENT) + Le32(mode) + Le32(size) + Le32(time) + Le32(len) + rest) ==
            Listing([], if len < 0x8000_0000 then Failed else Runaway)
  {
    hide Le32, Word;
    FiveWords(ID_DENT, mode, size, time, len, rest);
  }

  /** Of a part of an answer the client sees some first lines, and the end only if it is there. */
  lemma {:induction false} PartRead(b: seq<byte>, n: nat)
    requires n <= |b|
    ensures var r, p := ReadList(b), ReadList(b[..n]);
            p.lines <= r.lines && (p.code.Done? ==> p == r)
    decreases n
  {
    hide Word;
    if n >= 20 {
      SameWords(b[..n], b);
      if LineLength(b[..n]).Some? {
        var k := LineLength(b).value;
        assert b[..n][20..k] == b[20..k] && b[..n][k..] == b[k..][..n - k];
        assert LineOf(b[..n]) == LineOf(b);
        PartRead(b[k..], n - k);
      }
    }
  }

  /** In a FAIL there is no line, and no end of a listing. */
  lemma FailRead(b: seq<byte>)
    requires CutFail(b)
    ensures ReadList(b) == Listing([], Failed)
  {
    var reason: Reason :| |reason| >= 8 && b <= FailMsg(reason);
    if |b| >= 20 {
      assert b[0..4] == FailMsg(reason)[0..4] == Le32(ID_FAIL);
      Le32RoundTrip(ID_FAIL);
    }
  }

  // The client.

  /** The loop of sync_ls. */
  method ReadLines(fd: Fd) returns (r: Listing)
    modifies fd`input, fd`plan
    ensures var all := ReadList(old(fd.input));
            && r.lines <= all.lines && (r.code.Done? ==> r == all)
            && (Soft(old(fd.plan)) ==> r == all)
  {
    hide Word, ReadOutcome;
    var lines := [];
    ghost var all := ReadList(fd.input);
    while true
      invariant all == Listing(lines + ReadList(fd.input).lines, ReadList(fd.input).code)
      invariant Soft(old(fd.plan)) ==> Soft(fd.plan)
      decreases |fd.input|
    {
      ghost var b := fd.input;
      var head := Readx(fd, 20);
      if head.None? {
        return Listing(lines, Failed);
      }
      ghost var rest := fd.input;
      SameWords(head.value, b);
      if Word(head.value, 0) == ID_DONE {
        return Listing(lines, Done);
      }
      if Word(head.value, 0) != ID_DENT {
        return Listing(lines, Failed);
      }
      var len := Signed(Word(head.value, 16));
      if len > 256 {
        return Listing(lines, Failed);
      }
      if len < 0 {
        return Listing(lines, Runaway);
      }
      var name := Readx(fd, len);
      if name.None? {
        return Listing(lines, Failed);
      }
      var line := Line(Word(head.value, 4), Word(head.value, 8), Word(head.value, 12), name.value);
      assert rest == b[20..] && name.value == b[20..20 + |name.value|] && fd.input == b[20 + |name.value|..];
      assert LineOf(b) == line;
      Assoc(lines, [line], ReadList(fd.input).lines);
      lines := lines + [line];
    }
  }

  lemma ListSession(path: seq<byte>)
    requires IsPath(path) && |path| <= NAME_MAX
    ensures SessionOk([List(path)]) && SessionBytes([List(path)]) == Head(ID_LIST, |path|) + path
  {
    hide Head;
    var r := List(path);
    assert [r][1..] == [];
    assert RequestBytes(r) == Head(ID_LIST, |path|) + path + [];
    assert SessionBytes([r]) == RequestBytes(r) + SessionBytes([]);
  }

  /** A part of the answer, or of a FAIL in its place. */
  lemma CutRead(ds: seq<Dirent>, got: seq<byte>)
    requires Cut(got, DentMsgs(ds) + LIST_END)
    ensures var r := ReadList(got); r.lines <= Visible(ds) && (r.code.Done? ==> r.lines == Visible(ds))
  {
    hide CutFail, ReadList, DentMsgs, Visible;
    var answer := DentMsgs(ds) + LIST_END;
    if CutFail(got) {
      FailRead(got);
    } else {
      assert answer + [] == answer && got == answer[..|got|];
      AnswerRead(ds, []);
      PartRead(answer, |got|);
    }
  }

  /** What the client reads of what the service says. */
  lemma ListSaid(fs: FileSystem, path: seq<byte>, stored: seq<Stored>, last: Stored, got: seq<byte>, holds: bool)
    requires IsPath(path) && Ends(Head(ID_QUIT, 0))
    requires SessionEnds(fs, [List(path)], Bare(Head(ID_QUIT, 0)), stored, last, got, holds)
    ensures var out := [] + Flatten(Answers(fs, [List(path)])[..|stored|]) + got;
            var r, seen := ReadList(out), Visible(fs(0, path).entries);
            && r.lines <= seen && (r.code.Done? ==> r.lines == seen) && (holds ==> r == Listing(seen, Done))
  {
    hide Answers, Flatten, Cut, LastWords, SessionEnds, Head, Ends, ReadList, DentMsgs, Visible, Outcomes, LIST_END;
    var r, ds := List(path), fs(0, path).entries;
    CStrOfName(path);
    assert AnswerTo(fs, 0, r) == DentMsgs(ds) + LIST_END;
    hide AnswerTo;
    SessionCut(fs, [r], Head(ID_QUIT, 0), stored, last, got, holds);
    StoredIs(fs, [r], Bare(Head(ID_QUIT, 0)), stored, last, got, holds);
    OneServed(fs, r, stored, got);
    AnswerRead(ds, got);
    if stored == [] {
      CutRead(ds, got);
    }
  }

  /** The service's side of it. */
  method ServeList(b: seq<byte>, fs: FileSystem, plan: seq<Call>, ghost path: seq<byte>) returns (answer: seq<byte>)
    requires IsPath(path) && |path| <= NAME_MAX
    ensures b == Head(ID_LIST, |path|) + path + Head(ID_QUIT, 0) ==>
              var r, seen := ReadList(answer), Visible(fs(0, path).entries);
              && r.lines <= seen && (r.code.Done? ==> r.lines == seen) && (Soft(plan) ==> r == Listing(seen, Done))
  {
    ListSession(path);
    QuitEnds([]);
    assert Head(ID_QUIT, 0) + [] == Head(ID_QUIT, 0);
    hide Head, SessionBytes, Ends, Answers, Flatten, SessionEnds, ReadList, Visible;
    var s := new Fd(b, plan);
    var stored, last, got := Serve(s, fs, [List(path)], Bare(Head(ID_QUIT, 0)));
    answer := s.output;
    if b == Head(ID_LIST, |path|) + path + Head(ID_QUIT, 0) {
      ListSaid(fs, path, stored, last, got, Soft(plan));
    }
  }

  /**
   * sync_ls against the service. Whatever the connection does, the caller is told of some first names
   * of the directory, each with its own mode, size and time; of all of them if the call succeeds. Over
   * a connection that holds it succeeds exactly if the path has at most 1024 bytes.
   */
  method Ls(path: seq<byte>, fs: FileSystem, sendPlan: seq<Call>, servePlan: seq<Call>, recvPlan: seq<Call>)
    returns (r: Listing)
    requires IsPath(path)
    ensures r.lines <= Visible(fs(0, path).entries)
    ensures r.code.Done? ==> |path| <= 1024 && r.lines == Visible(fs(0, path).entries)
    ensures Soft(sendPlan) && Soft(servePlan) && Soft(recvPlan) ==> (r.code.Done? <==> |path| <= 1024)
  {
    hide Head, ReadList, Visible, WriteOutcome;
    if |path| > NAME_MAX {
      return Listing([], Failed);
    }
    var fd := new Fd([], sendPlan);
    var head := Head(ID_LIST, |path|);
    var ok := Writex(fd, head);
    if ok {
      ok := Writex(fd, path);
    }
    if !ok {
      return Listing([], Failed);
    }
    assert [] + head[..|head|] == head && path[..|path|] == path;
    var answer := ServeList(fd.output + Head(ID_QUIT, 0), fs, servePlan, path);
    var back := new Fd(answer, recvPlan);
    r := ReadLines(back);
  }
}
