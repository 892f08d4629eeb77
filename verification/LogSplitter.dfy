/**
 * The line splitter of vold/logwrapper.c: what a child writes is read in arbitrary pieces
 * into one 4096 byte buffer, and logged a line at a time.
 */
module LogSplitter {
  import opened Basics
  import opened Io

  const SIZE: nat := 4096
  /** The longest piece that the buffer holds with its NUL. */
  const MAX: nat := SIZE - 1
  const NL: byte := 10
  const CR: byte := 13

  /** Printing stops at the NUL, so nothing behind it shows. */
  lemma {:induction false} StopsAt(s: seq<byte>, n: nat, text: seq<byte>)
    requires n < |s| && s[n] == 0 && s[..n] == text
    ensures CStr(s) == CStr(text)
  {
    if n > 0 && s[0] != 0 {
      assert s[1..][..n - 1] == text[1..];
      assert s[0] == text[0];
      StopsAt(s[1..], n - 1, text[1..]);
    }
  }

  function Scrub(c: byte): byte {
    if c == CR then 0 else c
  }

  /** What has been logged, and the line that is still open (carriage returns already blanked). */
  datatype Progress = Progress(logged: seq<seq<byte>>, line: seq<byte>)

  function Emit(p: Progress): Progress {
    Progress(p.logged + [CStr(p.line)], [])
  }

  function Add(p: Progress, c: byte): Progress {
    if c == NL then Emit(p) else Progress(p.logged, p.line + [Scrub(c)])
  }

  /** A line that fills the buffer is logged as if it ended there. */
  function Settle(p: Progress): Progress {
    if |p.line| == MAX then Emit(p) else p
  }

  /** The meaning of a byte stream: one byte at a time, with no buffer and no reads. */
  function Fold(p: Progress, s: seq<byte>): (r: Progress)
    requires |p.line| < MAX
    ensures |r.line| < MAX
    decreases |s|
  {
    if s == [] then p else Settle(Add(Fold(p, s[..|s| - 1]), s[|s| - 1]))
  }

  /** The same without the limit, as the scanning loop works. */
  function Scan(p: Progress, s: seq<byte>): (r: Progress)
    ensures |r.line| <= |p.line| + |s|
    decreases |s|
  {
    if s == [] then p else Add(Scan(p, s[..|s| - 1]), s[|s| - 1])
  }

  const START := Progress([], [])

  /** Everything logged for a whole stream. */
  function Logged(s: seq<byte>): seq<seq<byte>> {
    var p := Fold(START, s);
    if p.line == [] then p.logged else Emit(p).logged
  }

  /** While the buffer suffices, only the last byte can fill it. */
  lemma {:induction false} ScanSettles(p: Progress, s: seq<byte>)
    requires |p.line| < MAX && |p.line| + |s| <= MAX
    ensures Fold(p, s) == Settle(Scan(p, s))
    decreases |s|
  {
    if s != [] {
      ScanSettles(p, s[..|s| - 1]);
    }
  }

  lemma {:induction false} FoldConcat(p: Progress, s: seq<byte>, t: seq<byte>)
    requires |p.line| < MAX
    ensures Fold(p, s + t) == Fold(Fold(p, s), t)
    decreases |t|
  {
    if t == [] {
      assert s + t == s;
    } else {
      assert (s + t)[..|s + t| - 1] == s + t[..|t| - 1];
      FoldConcat(p, s, t[..|t| - 1]);
    }
  }

  lemma {:induction false} ScanConcat(p: Progress, s: seq<byte>, t: seq<byte>)
    ensures Scan(p, s + t) == Scan(Scan(p, s), t)
    decreases |t|
  {
    if t == [] {
      assert s + t == s;
    } else {
      assert (s + t)[..|s + t| - 1] == s + t[..|t| - 1];
      ScanConcat(p, s, t[..|t| - 1]);
    }
  }

  predicate Scrubbed(s: seq<byte>) {
    NL !in s && CR !in s
  }

  /** Left-overs are scanned again, which changes nothing. */
  lemma {:induction false} Rescan(logged: seq<seq<byte>>, s: seq<byte>)
    requires Scrubbed(s)
    ensures Scan(Progress(logged, []), s) == Progress(logged, s)
    decreases |s|
  {
    if s != [] {
      Rescan(logged, s[..|s| - 1]);
      assert s == s[..|s| - 1] + [s[|s| - 1]];
    }
  }

  lemma {:induction false} FoldScrubs(p: Progress, s: seq<byte>)
    requires |p.line| < MAX && Scrubbed(p.line)
    ensures Scrubbed(Fold(p, s).line)
    decreases |s|
  {
    if s != [] {
      FoldScrubs(p, s[..|s| - 1]);
    }
  }

  /** The body of the for loop. */
  method ScanByte(buffer: array<byte>, a: nat, b: nat, log: seq<seq<byte>>) returns (a': nat, log': seq<seq<byte>>)
    requires a <= b < buffer.Length
    modifies buffer
    ensures a' <= b + 1 && Progress(log', buffer[a'..b + 1]) == Add(Progress(log, old(buffer[a..b])), old(buffer[b]))
    ensures buffer[b + 1..] == old(buffer[b + 1..])
  {
    hide CStr;
    a', log' := a, log;
    ghost var line := buffer[a..b];
    if buffer[b] == CR {
      buffer[b] := 0;
      assert buffer[a..b + 1] == line + [0];
    } else if buffer[b] == NL {
      buffer[b] := 0;
      StopsAt(buffer[a..], b - a, line);
      log' := log + [CStr(buffer[a..])];
      a' := b + 1;
    } else {
      assert buffer[a..b + 1] == line + [buffer[b]];
    }
  }

  /** The for loop over the buffer. */
  method ScanLines(buffer: array<byte>, sz: nat, logged: seq<seq<byte>>) returns (a: nat, log: seq<seq<byte>>)
    requires sz <= MAX && buffer.Length == SIZE
    modifies buffer
    ensures a <= sz && Progress(log, buffer[a..sz]) == Scan(Progress(logged, []), old(buffer[..sz]))
  {
    hide Add, CStr;
    ghost var p := Progress(logged, []);
    ghost var s := buffer[..];
    a, log := 0, logged;
    var b := 0;
    while b < sz
      invariant a <= b <= sz && buffer[b..] == s[b..]
      invariant Progress(log, buffer[a..b]) == Scan(p, s[..b])
    {
      ScanNext(p, s, b);
      assert buffer[b] == buffer[b..][0] == s[b];
      assert buffer[b + 1..] == buffer[b..][1..] == s[b..][1..] == s[b + 1..];
      a, log := ScanByte(buffer, a, b, log);
      b := b + 1;
    }
  }

  lemma ScanNext(p: Progress, s: seq<byte>, b: nat)
    requires b < |s|
    ensures Scan(p, s[..b + 1]) == Add(Scan(p, s[..b]), s[b])
  {
    assert s[..b + 1][..b] == s[..b];
  }

  /** memmove of the left-overs to the front. */
  method MoveDown(buffer: array<byte>, a: nat, b: nat)
    requires a <= b <= buffer.Length
    modifies buffer
    ensures buffer[..b - a] == old(buffer[a..b])
  {
    forall i | 0 <= i < b - a {
      buffer[i] := buffer[a + i];
    }
  }

  /** One turn of the read loop, once the new bytes are in the buffer. */
  method Chunk(buffer: array<byte>, sz: nat, logged: seq<seq<byte>>) returns (b: nat, log: seq<seq<byte>>)
    requires sz <= MAX && buffer.Length == SIZE
    modifies buffer
    ensures b < MAX && Progress(log, buffer[..b]) == Settle(Scan(Progress(logged, []), old(buffer[..sz])))
  {
    hide Scan;
    var a: nat;
    a, log := ScanLines(buffer, sz, logged);
    b := sz;
    if a == 0 && b == MAX {
      buffer[b] := 0;
      StopsAt(buffer[..], b, buffer[a..b]);
      log := log + [CStr(buffer[..])];
      b := 0;
    } else if a != b {
      MoveDown(buffer, a, b);
      b := b - a;
    } else {
      b := 0;
    }
  }

  lemma ChunkFolds(p: Progress, data: seq<byte>)
    requires |p.line| < MAX && |p.line| + |data| <= MAX && Scrubbed(p.line)
    ensures Settle(Scan(Progress(p.logged, []), p.line + data)) == Fold(p, data)
    ensures Scrubbed(Fold(p, data).line)
  {
    ScanConcat(Progress(p.logged, []), p.line, data);
    Rescan(p.logged, p.line);
    ScanSettles(p, data);
    FoldScrubs(p, data);
  }

  /** read into the free part of the buffer. */
  method Fill(buffer: array<byte>, b: nat, data: seq<byte>)
    requires b + |data| <= buffer.Length
    modifies buffer
    ensures buffer[..b + |data|] == old(buffer[..b]) + data
  {
    forall i | 0 <= i < |data| {
      buffer[b + i] := data[i];
    }
  }

  /** The open line is at the front of the buffer, everything before it has been logged. */
  ghost predicate At(buffer: array<byte>, b: nat, log: seq<seq<byte>>, consumed: seq<byte>)
    reads buffer
  {
    buffer.Length == SIZE && b < MAX && Progress(log, buffer[..b]) == Fold(START, consumed) && Scrubbed(buffer[..b])
  }

  method Absorb(buffer: array<byte>, b0: nat, log0: seq<seq<byte>>, data: seq<byte>, ghost consumed: seq<byte>)
    returns (b: nat, log: seq<seq<byte>>)
    requires At(buffer, b0, log0, consumed) && b0 + |data| <= MAX
    modifies buffer
    ensures At(buffer, b, log, consumed + data)
  {
    hide Fold, Scan, Settle, Scrubbed;
    ChunkFolds(Progress(log0, buffer[..b0]), data);
    FoldConcat(START, consumed, data);
    Fill(buffer, b0, data);
    b, log := Chunk(buffer, b0 + |data|, log0);
  }

  /** No read fails. */
  predicate Steady(plan: seq<Call>) {
    forall k :: 0 <= k < |plan| ==> plan[k].Moves?
  }

  /** parent: however the reads cut the stream up, what is logged is its meaning. */
  method Parent(fd: Fd) returns (log: seq<seq<byte>>, ghost consumed: seq<byte>)
    modifies fd`input, fd`plan
    ensures old(fd.input) == consumed + fd.input && log == Logged(consumed)
    ensures Steady(old(fd.plan)) ==> fd.input == []
  {
    hide Fold;
    var buffer := new byte[SIZE];
    var b: nat := 0;
    log, consumed := [], [];
    assert At(buffer, b, log, consumed) by {
      FoldNothing();
    }
    while true
      invariant At(buffer, b, log, consumed) && old(fd.input) == consumed + fd.input
      invariant Steady(old(fd.plan)) ==> Steady(fd.plan)
      decreases |fd.input|
    {
      var r := fd.Read(SIZE - 1 - b);
      if r.Failure? || r.data == [] {
        break;
      }
      b, log := Absorb(buffer, b, log, r.data, consumed);
      consumed := consumed + r.data;
    }
    if b != 0 {
      buffer[b] := 0;
      StopsAt(buffer[..], b, buffer[..b]);
      log := log + [CStr(buffer[..])];
    }
  }

  lemma FoldNothing()
    ensures Fold(START, []) == START
  {
  }

  /** The raw bytes of a line that a reader of the log sees. */
  function Text(s: seq<byte>): seq<byte> {
    if s == [] || s[0] == 0 || s[0] == CR then [] else [s[0]] + Text(s[1..])
  }

  /** A line is cut after every MAX bytes; a cut at its very end leaves an empty piece. */
  function Pieces(line: seq<byte>): seq<seq<byte>> {
    if |line| < MAX then [Text(line)] else [Text(line[..MAX])] + Pieces(line[MAX..])
  }

  function LastPieces(line: seq<byte>): seq<seq<byte>> {
    if line == [] then [] else if |line| < MAX then [Text(line)] else [Text(line[..MAX])] + LastPieces(line[MAX..])
  }

  function Unlines(lines: seq<seq<byte>>): seq<byte> {
    if lines == [] then [] else lines[0] + [NL] + Unlines(lines[1..])
  }

  function AllPieces(lines: seq<seq<byte>>): seq<seq<byte>> {
    if lines == [] then [] else Pieces(lines[0]) + AllPieces(lines[1..])
  }

  function ScrubAll(s: seq<byte>): seq<byte> {
    seq(|s|, i requires 0 <= i < |s| => Scrub(s[i]))
  }

  lemma {:induction false} TextIsScrubbed(s: seq<byte>)
    ensures CStr(ScrubAll(s)) == Text(s)
  {
    if s != [] {
      TextIsScrubbed(s[1..]);
      assert ScrubAll(s)[1..] == ScrubAll(s[1..]);
    }
  }

  lemma {:induction false} ScanPlain(logged: seq<seq<byte>>, s: seq<byte>)
    requires NL !in s
    ensures Scan(Progress(logged, []), s) == Progress(logged, ScrubAll(s))
    decreases |s|
  {
    if s != [] {
      ScanPlain(logged, s[..|s| - 1]);
      assert ScrubAll(s) == ScrubAll(s[..|s| - 1]) + [Scrub(s[|s| - 1])];
    }
  }

  lemma ShortPiece(logged: seq<seq<byte>>, s: seq<byte>)
    requires NL !in s && |s| <= MAX
    ensures Fold(Progress(logged, []), s) ==
            if |s| == MAX then Progress(logged + [Text(s)], []) else Progress(logged, ScrubAll(s))
  {
    ScanSettles(Progress(logged, []), s);
    ScanPlain(logged, s);
    TextIsScrubbed(s);
  }

  lemma {:induction false} LineMeans(logged: seq<seq<byte>>, line: seq<byte>)
    requires NL !in line
    ensures Fold(Progress(logged, []), line + [NL]) == Progress(logged + Pieces(line), [])
    decreases |line|
  {
    hide Text, ScrubAll, CStr;
    var p := Progress(logged, []);
    if |line| < MAX {
      ShortPiece(logged, line);
      TextIsScrubbed(line);
      assert (line + [NL])[..|line|] == line;
    } else {
      ShortPiece(logged, line[..MAX]);
      assert line + [NL] == line[..MAX] + (line[MAX..] + [NL]);
      FoldConcat(p, line[..MAX], line[MAX..] + [NL]);
      LineMeans(logged + [Text(line[..MAX])], line[MAX..]);
      Assoc(logged, [Text(line[..MAX])], Pieces(line[MAX..]));
    }
  }

  lemma {:induction false} LastMeans(logged: seq<seq<byte>>, line: seq<byte>)
    requires NL !in line
    ensures var p := Fold(Progress(logged, []), line);
            (if p.line == [] then p.logged else Emit(p).logged) == logged + LastPieces(line)
    decreases |line|
  {
    hide Text, ScrubAll, CStr;
    if |line| < MAX {
      ShortPiece(logged, line);
      TextIsScrubbed(line);
      ScrubAllLength(line);
    } else {
      ShortPiece(logged, line[..MAX]);
      assert line == line[..MAX] + line[MAX..];
      FoldConcat(Progress(logged, []), line[..MAX], line[MAX..]);
      LastMeans(logged + [Text(line[..MAX])], line[MAX..]);
      Assoc(logged, [Text(line[..MAX])], LastPieces(line[MAX..]));
    }
  }

  lemma ScrubAllLength(s: seq<byte>)
    ensures |ScrubAll(s)| == |s|
  {
  }

  lemma {:induction false} LinesMean(logged: seq<seq<byte>>, lines: seq<seq<byte>>)
    requires forall k :: 0 <= k < |lines| ==> NL !in lines[k]
    ensures Fold(Progress(logged, []), Unlines(lines)) == Progress(logged + AllPieces(lines), [])
    decreases |lines|
  {
    hide Pieces;
    if lines != [] {
      LineMeans(logged, lines[0]);
      FoldConcat(Progress(logged, []), lines[0] + [NL], Unlines(lines[1..]));
      LinesMean(logged + Pieces(lines[0]), lines[1..]);
      Assoc(logged, Pieces(lines[0]), AllPieces(lines[1..]));
    }
  }

  /** Every stream is some lines and a last part without newline. */
  lemma {:induction false} EveryStreamIsLines(s: seq<byte>) returns (lines: seq<seq<byte>>, last: seq<byte>)
    ensures s == Unlines(lines) + last
    ensures NL !in last && forall k :: 0 <= k < |lines| ==> NL !in lines[k]
  {
    if s == [] {
      lines, last := [], [];
    } else {
      lines, last := EveryStreamIsLines(s[1..]);
      assert s == [s[0]] + s[1..];
      if s[0] == NL {
        lines := [[]] + lines;
        assert Unlines(lines) == [NL] + Unlines(lines[1..]);
      } else if lines == [] {
        last := [s[0]] + last;
      } else {
        ghost var rest := Unlines(lines[1..]);
        assert [s[0]] + (lines[0] + [NL] + rest) == [s[0]] + lines[0] + [NL] + rest;
        lines := [[s[0]] + lines[0]] + lines[1..];
      }
    }
  }

  /** This is all that is logged for it. */
  lemma LoggedByLine(lines: seq<seq<byte>>, last: seq<byte>)
    requires NL !in last && forall k :: 0 <= k < |lines| ==> NL !in lines[k]
    ensures Logged(Unlines(lines) + last) == AllPieces(lines) + LastPieces(last)
  {
    hide Fold, AllPieces, LastPieces, Unlines;
    LinesMean([], lines);
    FoldConcat(START, Unlines(lines), last);
    LastMeans([] + AllPieces(lines), last);
    assert [] + AllPieces(lines) == AllPieces(lines);
  }

  lemma {:induction false} TextOfPlain(s: seq<byte>)
    requires 0 !in s && CR !in s
    ensures Text(s) == s
  {
    if s != [] {
      TextOfPlain(s[1..]);
    }
  }

  lemma OneLess(n: nat)
    requires n >= MAX
    ensures (n - MAX) % MAX == n % MAX && (n - MAX) / MAX == n / MAX - 1
  {
  }

  /**
   * A line gives one piece for every MAX bytes and one for what is left, which is nothing exactly
   * if its length is a multiple of MAX: then an empty line is logged behind it.
   */
  lemma {:induction false} EmptyPieceIff(line: seq<byte>)
    ensures |Pieces(line)| == |line| / MAX + 1
    ensures Pieces(line)[|line| / MAX] == Text(line[|line| - |line| % MAX..])
    ensures 0 !in line && CR !in line ==> (Pieces(line)[|line| / MAX] == [] <==> |line| % MAX == 0)
  {
    hide Text;
    LastPiece(line);
    var rest := line[|line| - |line| % MAX..];
    if 0 !in line && CR !in line {
      TextOfPlain(rest);
    }
  }

  lemma {:induction false} LastPiece(line: seq<byte>)
    ensures |Pieces(line)| == |line| / MAX + 1
    ensures Pieces(line)[|line| / MAX] == Text(line[|line| - |line| % MAX..])
    decreases |line|
  {
    hide Text;
    var rest := line[|line| - |line| % MAX..];
    if |line| >= MAX {
      var more := line[MAX..];
      OneLess(|line|);
      LastPiece(more);
      assert more[|more| - |more| % MAX..] == rest;
      assert Pieces(line)[1..] == Pieces(more);
    } else {
      assert rest == line;
    }
  }

  /** One line of exactly MAX plain bytes is logged as itself and an empty line. */
  lemma FullLineIsDoubled(line: seq<byte>)
    requires |line| == 4095 && 10 !in line && 0 !in line && 13 !in line
    ensures Logged(line + [10]) == [line, []]
  {
    hide Fold, Text;
    assert line + [NL] + [] == line + [NL];
    LineMeans([], line);
    assert line[..MAX] == line && line[MAX..] == [];
    TextOfPlain(line);
    TextOfPlain([]);
    assert [] + Pieces(line) == Pieces(line);
    assert Pieces(line) == [Text(line)] + Pieces([]);
  }

  /** A reader of the log sees the bytes of a piece before the first carriage return or NUL. */
  lemma {:induction false} TextStops(s: seq<byte>)
    ensures Text(s) <= s && 13 !in Text(s) && 0 !in Text(s)
    ensures |Text(s)| < |s| ==> s[|Text(s)|] == 13 || s[|Text(s)|] == 0
  {
    if s != [] {
      TextStops(s[1..]);
    }
  }
}
