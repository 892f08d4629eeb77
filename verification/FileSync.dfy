/**
 * The file sync protocol: the client loops of core/adb/file_sync_client.c and the
 * service loops of core/adb/file_sync_service.c, which frame a file as DATA chunks
 * followed by DONE and answer one request after the other.
 */
module FileSync {
  import opened Basics
  import opened Io
  import opened Wire

  const SYNC_DATA_MAX: nat := 65536
  const NAME_MAX: nat := 1024
  const INT_END: nat := 0x8000_0000

  // Four letters each, read as a little-endian word.
  const ID_STAT: u32 := 0x54415453
  const ID_LIST: u32 := 0x5453494c
  const ID_DENT: u32 := 0x544e4544
  const ID_SEND: u32 := 0x444e4553
  const ID_RECV: u32 := 0x56434552
  const ID_DONE: u32 := 0x454e4f44
  const ID_DATA: u32 := 0x41544144
  const ID_OKAY: u32 := 0x59414b4f
  const ID_FAIL: u32 := 0x4c494146
  const ID_QUIT: u32 := 0x54495551

  /** The two words every message starts with. */
  function Head(id: u32, size: u32): (b: seq<byte>)
    ensures |b| == 8
  {
    Le32(id) + Le32(size)
  }

  function IdOf(b: seq<byte>): u32
    requires |b| >= 8
  {
    FromLe32(b[0..4])
  }

  function SizeOf(b: seq<byte>): u32
    requires |b| >= 8
  {
    FromLe32(b[4..8])
  }

  lemma ReadHead(id: u32, size: u32, rest: seq<byte>)
    ensures var b := Head(id, size) + rest;
            IdOf(b) == id && SizeOf(b) == size && b[8..] == rest
  {
    var b := Head(id, size) + rest;
    assert b[0..4] == Le32(id) && b[4..8] == Le32(size);
    Le32RoundTrip(id);
    Le32RoundTrip(size);
  }

  lemma HeadAgrees(h: seq<byte>, rest: seq<byte>)
    requires |h| == 8
    ensures IdOf(h + rest) == IdOf(h) && SizeOf(h + rest) == SizeOf(h) && (h + rest)[8..] == rest
  {
    assert (h + rest)[0..4] == h[0..4] && (h + rest)[4..8] == h[4..8];
  }

  lemma HeadOfBytes(h: seq<byte>)
    requires |h| == 8
    ensures Head(IdOf(h), SizeOf(h)) == h
  {
    FromLe32RoundTrip(h[0..4]);
    FromLe32RoundTrip(h[4..8]);
    assert h == h[0..4] + h[4..8];
  }

  // Uploads: DATA chunks, then DONE.

  /** Chunks that fit a frame. */
  predicate Chunked(chunks: seq<seq<byte>>) {
    forall k :: 0 <= k < |chunks| ==> |chunks[k]| <= SYNC_DATA_MAX
  }

  function Frames(chunks: seq<seq<byte>>): seq<byte>
    requires Chunked(chunks)
  {
    if chunks == [] then []
    else Head(ID_DATA, |chunks[0]|) + chunks[0] + Frames(chunks[1..])
  }

  lemma {:induction false} FramesConcat(a: seq<seq<byte>>, b: seq<seq<byte>>)
    requires Chunked(a) && Chunked(b)
    ensures Chunked(a + b) && Frames(a + b) == Frames(a) + Frames(b)
  {
    if a == [] {
      assert a + b == b;
    } else {
      FramesConcat(a[1..], b);
      assert (a + b)[1..] == a[1..] + b;
      var head := Head(ID_DATA, |a[0]|) + a[0];
      assert Frames(a) == head + Frames(a[1..]) && Frames(a + b) == head + Frames(a[1..] + b);
      hide Frames, Head;
      Assoc(head, Frames(a[1..]), Frames(b));
    }
  }

  lemma FramesSnoc(chunks: seq<seq<byte>>, c: seq<byte>)
    requires Chunked(chunks) && |c| <= SYNC_DATA_MAX
    ensures Chunked(chunks + [c])
    ensures Frames(chunks + [c]) == Frames(chunks) + (Head(ID_DATA, |c|) + c)
  {
    hide Head;
    FramesConcat(chunks, [c]);
    assert [c][1..] == [];
    assert Frames([c]) == Head(ID_DATA, |c|) + c + Frames([]);
  }

  /** The frames one by one, as they are written. */
  function FrameList(chunks: seq<seq<byte>>): (fs: seq<seq<byte>>)
    requires Chunked(chunks)
    ensures |fs| == |chunks|
  {
    seq(|chunks|, k requires 0 <= k < |chunks| => Head(ID_DATA, |chunks[k]|) + chunks[k])
  }

  lemma {:induction false} FramesFlat(chunks: seq<seq<byte>>)
    requires Chunked(chunks)
    ensures Flatten(FrameList(chunks)) == Frames(chunks)
  {
    hide Head;
    if chunks != [] {
      assert FrameList(chunks)[1..] == FrameList(chunks[1..]);
      FramesFlat(chunks[1..]);
    }
  }

  /** How the writes of frames go. */
  function FramesOutcome(chunks: seq<seq<byte>>, plan: seq<Call>): (m: Moved)
    requires Chunked(chunks)
    ensures m.count <= |Frames(chunks)| && (m.ok <==> m.count == |Frames(chunks)|)
    ensures Soft(plan) ==> m.ok && Soft(m.plan)
  {
    FramesFlat(chunks);
    PiecesOutcome(FrameList(chunks), plan)
  }

  // The receivers' view: both loops read frames, but they test the size differently.

  /** A word read into an int. */
  function Signed(x: u32): int {
    if x < INT_END then x else x - U32_END
  }

  /** The test for oversize frames: the service keeps the size in an unsigned, the client in an int. */
  predicate Refuses(size: u32, client: bool) {
    (if client then Signed(size) else size) > SYNC_DATA_MAX
  }

  /** What a receiver makes of the bytes to come. */
  datatype Upload =
    | Complete(chunks: seq<seq<byte>>, time: u32, rest: seq<byte>)
    | Malformed(chunks: seq<seq<byte>>, id: u32, size: u32, rest: seq<byte>)   // neither DATA nor DONE
    | Oversize(chunks: seq<seq<byte>>)
    | Overlong(chunks: seq<seq<byte>>)    // a frame of 2^31 bytes or more goes to readx
    | Truncated(chunks: seq<seq<byte>>)

  function Prepend(cs: seq<seq<byte>>, u: Upload): Upload {
    u.(chunks := cs + u.chunks)
  }

  function Parse(b: seq<byte>, client: bool): Upload
    decreases |b|
  {
    if |b| < 8 then Truncated([])
    else
      var id, size := IdOf(b), SizeOf(b);
      if id == ID_DONE then Complete([], size, b[8..])
      else if id != ID_DATA then Malformed([], id, size, b[8..])
      else if Refuses(size, client) then Oversize([])
      else if size > SYNC_DATA_MAX then Overlong([])
      else if |b| < 8 + size then Truncated([])
      else Prepend([b[8..8 + size]], Parse(b[8 + size..], client))
  }

  /** What comes first in a stream. */
  lemma ParseHead(id: u32, size: u32, rest: seq<byte>, client: bool)
    ensures Parse(Head(id, size) + rest, client) ==
            if id == ID_DONE then Complete([], size, rest)
            else if id != ID_DATA then Malformed([], id, size, rest)
            else if Refuses(size, client) then Oversize([])
            else if size > SYNC_DATA_MAX then Overlong([])
            else if |rest| < size then Truncated([])
            else Prepend([rest[..size]], Parse(rest[size..], client))
  {
    hide IdOf, SizeOf, Head, Refuses;
    var b := Head(id, size) + rest;
    ReadHead(id, size, rest);
    if size <= |rest| {
      assert b[8..8 + size] == rest[..size] && b[8 + size..] == rest[size..];
    }
  }

  lemma ParseFrame(c: seq<byte>, rest: seq<byte>, client: bool)
    requires |c| <= SYNC_DATA_MAX
    ensures Parse(Head(ID_DATA, |c|) + c + rest, client) == Prepend([c], Parse(rest, client))
  {
    hide IdOf, SizeOf, Head;
    var b := Head(ID_DATA, |c|) + c + rest;
    Assoc(Head(ID_DATA, |c|), c, rest);
    ReadHead(ID_DATA, |c|, c + rest);
    assert b[8..8 + |c|] == c && b[8 + |c|..] == rest;
  }

  /** However the sender cut the file up, the receiver finds the same pieces, then what follows them. */
  lemma {:induction false} FramesThen(chunks: seq<seq<byte>>, tail: seq<byte>, client: bool)
    requires Chunked(chunks)
    ensures Parse(Frames(chunks) + tail, client) == Prepend(chunks, Parse(tail, client))
  {
    hide Parse;
    if chunks == [] {
      assert Frames(chunks) + tail == tail;
      PrependNothing(Parse(tail, client));
    } else {
      var c, more := chunks[0], Frames(chunks[1..]) + tail;
      FramesThen(chunks[1..], tail, client);
      ParseFrame(c, more, client);
      assert Frames(chunks) + tail == Head(ID_DATA, |c|) + c + more;
      PrependTwice([c], chunks[1..], Parse(tail, client));
      assert [c] + chunks[1..] == chunks;
    }
  }

  lemma FramesParse(chunks: seq<seq<byte>>, time: u32, rest: seq<byte>, client: bool)
    requires Chunked(chunks)
    ensures Parse(Frames(chunks) + (Head(ID_DONE, time) + rest), client) == Complete(chunks, time, rest)
  {
    FramesThen(chunks, Head(ID_DONE, time) + rest, client);
    ReadHead(ID_DONE, time, rest);
    assert chunks + [] == chunks;
  }

  /** A complete stream stays complete, with what comes after it as the rest. */
  lemma {:induction false} ParseMore(b: seq<byte>, after: seq<byte>, client: bool)
    requires Parse(b, client).Complete?
    ensures var u := Parse(b, client); Parse(b + after, client) == Complete(u.chunks, u.time, u.rest + after)
    decreases |b|
  {
    hide Refuses, IdOf, SizeOf;
    HeadAgrees(b[..8], b[8..]);
    HeadAgrees(b[..8], b[8..] + after);
    assert b == b[..8] + b[8..] && b + after == b[..8] + (b[8..] + after);
    if IdOf(b) != ID_DONE {
      var size := SizeOf(b);
      ConcatParts(b, after, 8 + size);
      assert (b + after)[8..8 + size] == b[8..8 + size];
      ParseMore(b[8 + size..], after, client);
    }
  }

  lemma PrependTwice(a: seq<seq<byte>>, b: seq<seq<byte>>, u: Upload)
    ensures Prepend(a, Prepend(b, u)) == Prepend(a + b, u)
  {
    Assoc(a, b, u.chunks);
  }

  lemma PrependNothing(u: Upload)
    ensures Prepend([], u) == u
  {
    assert [] + u.chunks == u.chunks;
  }

  /** Bytes that end in the middle of a frame. */
  lemma CutFrames(done: seq<seq<byte>>, x: seq<byte>, client: bool)
    requires Chunked(done) && Parse(x, client) == Truncated([])
    ensures Parse(Frames(done) + x, client) == Truncated(done)
  {
    hide Parse;
    FramesThen(done, x, client);
    assert done + [] == done;
  }

  /** Bytes that end in the head of a message. */
  lemma CutHere(done: seq<seq<byte>>, rest: seq<byte>, k: nat, client: bool)
    requires Chunked(done) && k < 8 && k <= |rest|
    ensures var n := |Frames(done)| + k;
            (Frames(done) + rest)[..n] == Frames(done) + rest[..k] && Parse((Frames(done) + rest)[..n], client) == Truncated(done)
  {
    hide Frames;
    assert (Frames(done) + rest)[..|Frames(done)| + k] == Frames(done) + rest[..k];
    CutFrames(done, rest[..k], client);
  }

  /** Bytes that end in the body of one. */
  lemma CutInside(done: seq<seq<byte>>, size: u32, body: seq<byte>, k: nat, client: bool)
    requires Chunked(done) && size <= SYNC_DATA_MAX && k < size && k <= |body|
    ensures var b, n := Frames(done) + (Head(ID_DATA, size) + body), |Frames(done)| + 8 + k;
            b[..n] == Frames(done) + (Head(ID_DATA, size) + body[..k]) && Parse(b[..n], client) == Truncated(done)
  {
    hide Frames, Head, Parse;
    var b, n := Frames(done) + (Head(ID_DATA, size) + body), |Frames(done)| + 8 + k;
    assert b[..n] == Frames(done) + (Head(ID_DATA, size) + body[..k]);
    ParseHead(ID_DATA, size, body[..k], client);
    CutFrames(done, Head(ID_DATA, size) + body[..k], client);
  }

  /** What is found in the first bytes is found again with more of them. */
  lemma {:induction false} ParseFirst(b: seq<byte>, after: seq<byte>, client: bool)
    ensures Parse(b, client).chunks <= Parse(b + after, client).chunks
    decreases |b|
  {
    if |b| >= 8 {
      hide Parse, IdOf, SizeOf, Refuses, Head, Prepend;
      var id, size, rest := IdOf(b[..8]), SizeOf(b[..8]), b[8..];
      HeadOfBytes(b[..8]);
      assert b == Head(id, size) + rest && b + after == Head(id, size) + (rest + after);
      ParseHead(id, size, rest, client);
      if id == ID_DATA && !Refuses(size, client) && size <= SYNC_DATA_MAX && size <= |rest| {
        ParseHead(id, size, rest + after, client);
        ConcatParts(rest, after, size);
        ParseFirst(rest[size..], after, client);
        PrependFirst(rest[..size], Parse(rest[size..], client), Parse(rest[size..] + after, client));
      }
    }
  }

  lemma PrependFirst(c: seq<byte>, u: Upload, v: Upload)
    requires u.chunks <= v.chunks
    ensures Prepend([c], u).chunks <= Prepend([c], v).chunks
  {
  }

  // The senders.

  /** One adb_read of a file, seen from all that is to come. */
  method ReadPiece(file: Fd) returns (r: Result)
    modifies file`input, file`plan
    ensures |file.plan| <= |old(file.plan)| && |file.input| <= |old(file.input)|
    ensures var before := ReadChunks(old(file.input), old(file.plan), SYNC_DATA_MAX);
            var later := ReadChunks(file.input, file.plan, SYNC_DATA_MAX);
            if r.Failure? && r.retry then before == later && |file.plan| < |old(file.plan)|
            else if r.Failure? || r.data == [] then before == Reading([], r.Failure?)
            else
              && before == Reading([r.data] + later.chunks, later.failed)
              && |r.data| <= SYNC_DATA_MAX && |file.input| < |old(file.input)|
  {
    r := file.Read(SYNC_DATA_MAX);
    if r.Bytes? && r.data != [] {
      ghost var n := |r.data|;
      assert r.data == old(file.input)[..n] && file.input == old(file.input)[n..];
    }
  }

  /** Some of the frames of all chunks went out, all of them whole. */
  ghost predicate SentSoFar(all: seq<seq<byte>>, chunks: seq<seq<byte>>, later: seq<seq<byte>>, plan: seq<Call>, now: seq<Call>) {
    Chunked(all) && all == chunks + later && Chunked(chunks) && FramesOutcome(chunks, plan) == Moved(true, |Frames(chunks)|, now)
  }

  /** Write the next frame of all: it goes out whole, or it is the last of which anything does. */
  method SendFrame(fd: Fd, data: seq<byte>, ghost all: seq<seq<byte>>, ghost chunks: seq<seq<byte>>, ghost later: seq<seq<byte>>,
                   ghost plan: seq<Call>, ghost out: seq<byte>)
    returns (ok: bool)
    requires SentSoFar(all, chunks, [data] + later, plan, fd.plan) && Chunked(chunks) && |data| <= SYNC_DATA_MAX
    requires fd.output == out + Frames(chunks)
    modifies fd`output, fd`plan
    ensures ok ==>
              var now := chunks + [data];
              SentSoFar(all, now, later, plan, fd.plan) && Chunked(now) && fd.output == out + Frames(now)
    ensures !ok ==>
              Chunked(all) && var m := FramesOutcome(all, plan);
              !m.ok && fd.plan == m.plan && fd.output == out + Frames(all)[..m.count]
  {
    hide Frames, Head, FramesOutcome, WriteOutcome;
    assert forall k :: 0 <= k < |later| ==> later[k] == all[|chunks| + 1 + k];
    Assoc(chunks, [data], later);
    FrameSent(out, chunks, data, later, plan);
    ok := Writex(fd, Head(ID_DATA, |data|) + data);
  }

  lemma SendingStarts(all: seq<seq<byte>>, plan: seq<Call>, out: seq<byte>)
    requires Chunked(all)
    ensures SentSoFar(all, [], all, plan, plan) && out == out + Frames([])
  {
    FramesStart(plan);
    assert [] + all == all;
  }

  lemma SendingEnds(all: seq<seq<byte>>, chunks: seq<seq<byte>>, plan: seq<Call>, now: seq<Call>, out: seq<byte>)
    requires SentSoFar(all, chunks, [], plan, now)
    ensures var m := FramesOutcome(all, plan); m.ok && m.plan == now && out + Frames(chunks) == out + Frames(all)[..m.count]
  {
    hide Frames, FramesOutcome;
    assert chunks + [] == chunks && Frames(chunks)[..|Frames(chunks)|] == Frames(chunks);
  }

  /** write_data_file on a file that opens: frame each piece as it comes, up to the first failure. */
  method WriteDataFile(fd: Fd, file: Fd) returns (ok: bool)
    requires fd != file
    modifies fd`output, fd`plan, file`input, file`plan
    ensures var all := ReadChunks(old(file.input), old(file.plan), SYNC_DATA_MAX).chunks;
            var m := FramesOutcome(all, old(fd.plan));
            ok == m.ok && fd.plan == m.plan && fd.output == old(fd.output) + Frames(all)[..m.count]
  {
    ghost var all, out := ReadChunks(file.input, file.plan, SYNC_DATA_MAX).chunks, fd.output;
    ghost var chunks, plan := [], fd.plan;
    hide Frames, Head, FramesOutcome, WriteOutcome, ReadChunks, SentSoFar;
    SendingStarts(all, plan, out);
    while true
      invariant Chunked(chunks) && fd.output == out + Frames(chunks)
      invariant SentSoFar(all, chunks, ReadChunks(file.input, file.plan, SYNC_DATA_MAX).chunks, plan, fd.plan)
      decreases |file.plan|, |file.input|
    {
      var got := ReadPiece(file);
      if got.Failure? && got.retry {
        continue;
      }
      if got.Failure? || got.data == [] {
        SendingEnds(all, chunks, plan, fd.plan, out);
        return true;
      }
      ok := SendFrame(fd, got.data, all, chunks, ReadChunks(file.input, file.plan, SYNC_DATA_MAX).chunks, plan, out);
      if !ok {
        return;
      }
      chunks := chunks + [got.data];
    }
  }

  lemma FramesStart(plan: seq<Call>)
    ensures Frames([]) == [] && FrameList([]) == [] && FramesOutcome([], plan) == Moved(true, 0, plan)
  {
    assert FrameList([]) == [];
  }

  /** One more frame, seen from the plan of the descriptor: it goes out whole, or it is the last. */
  lemma FrameSent(out: seq<byte>, chunks: seq<seq<byte>>, c: seq<byte>, later: seq<seq<byte>>, plan: seq<Call>)
    requires Chunked(chunks) && |c| <= SYNC_DATA_MAX && Chunked(later)
    requires FramesOutcome(chunks, plan).ok
    ensures Chunked(chunks + [c]) && Chunked(chunks + [c] + later)
    ensures var frame, n := Head(ID_DATA, |c|) + c, |Frames(chunks)|;
            var w := WriteOutcome(|frame|, FramesOutcome(chunks, plan).plan);
            var sent := out + Frames(chunks) + frame[..w.count];
            && FramesOutcome(chunks + [c], plan) == Counted(n, w)
            && (w.ok ==> sent == out + Frames(chunks + [c]) && n + w.count == |Frames(chunks + [c])|)
            && (!w.ok ==> FramesOutcome(chunks + [c] + later, plan) == Counted(n, w))
            && n + w.count <= |Frames(chunks + [c] + later)|
            && sent == out + Frames(chunks + [c] + later)[..n + w.count]
  {
    hide PiecesOutcome, Head, WriteOutcome, Frames;
    var frame := Head(ID_DATA, |c|) + c;
    assert FrameList(chunks + [c]) == FrameList(chunks) + [frame];
    assert FrameList(chunks + [c] + later) == FrameList(chunks + [c]) + FrameList(later);
    hide FrameList;
    PiecesOne(FrameList(chunks), frame, plan);
    PiecesMore(FrameList(chunks + [c]), FrameList(later), plan);
    FramesSnoc(chunks, c);
    FramesConcat(chunks + [c], later);
    var w := WriteOutcome(|frame|, FramesOutcome(chunks, plan).plan);
    CutOfThree(out, Frames(chunks), frame, Frames(later), w.count);
  }

  lemma CutOfThree(out: seq<byte>, a: seq<byte>, b: seq<byte>, c: seq<byte>, n: nat)
    requires n <= |b|
    ensures out + a + b[..n] == out + (a + b + c)[..|a| + n] && (n == |b| ==> out + a + b[..n] == out + (a + b))
  {
    assert (a + b + c)[..|a| + n] == a + b[..n];
  }

  /** Full chunks and a last one. */
  function BufferChunks(buffer: seq<byte>): (cs: seq<seq<byte>>)
    ensures Chunked(cs)
  {
    if buffer == [] then []
    else
      var count := Min(|buffer|, SYNC_DATA_MAX);
      [buffer[..count]] + BufferChunks(buffer[count..])
  }

  lemma {:induction false} BufferIsChunks(buffer: seq<byte>)
    ensures Flatten(BufferChunks(buffer)) == buffer
  {
    if buffer != [] {
      BufferIsChunks(buffer[Min(|buffer|, SYNC_DATA_MAX)..]);
    }
  }

  /** write_data_buffer: the same for a file held in memory, cut into full chunks and a last one. */
  method WriteDataBuffer(fd: Fd, buffer: seq<byte>) returns (ok: bool)
    modifies fd`output, fd`plan
    ensures var all := BufferChunks(buffer);
            var m := FramesOutcome(all, old(fd.plan));
            && Flatten(all) == buffer
            && ok == m.ok && fd.plan == m.plan && fd.output == old(fd.output) + Frames(all)[..m.count]
  {
    ghost var all, chunks, plan, out := BufferChunks(buffer), [], fd.plan, fd.output;
    BufferIsChunks(buffer);
    hide Frames, Head, FramesOutcome, WriteOutcome, BufferChunks, Flatten, SentSoFar;
    SendingStarts(all, plan, out);
    assert buffer[0..] == buffer;
    var total := 0;
    while total < |buffer|
      invariant 0 <= total <= |buffer| && Chunked(chunks) && fd.output == out + Frames(chunks)
      invariant SentSoFar(all, chunks, BufferChunks(buffer[total..]), plan, fd.plan)
    {
      var count := Min(|buffer| - total, SYNC_DATA_MAX);
      FullChunk(buffer, total);
      ok := SendFrame(fd, buffer[total..total + count], all, chunks, BufferChunks(buffer[total + count..]), plan, out);
      if !ok {
        return;
      }
      chunks := chunks + [buffer[total..total + count]];
      total := total + count;
    }
    FullChunk(buffer, total);
    SendingEnds(all, chunks, plan, fd.plan, out);
    ok := true;
  }

  lemma FullChunk(buffer: seq<byte>, total: nat)
    requires total <= |buffer|
    ensures var count := Min(|buffer| - total, SYNC_DATA_MAX);
            BufferChunks(buffer[total..]) ==
            if total == |buffer| then []
            else [buffer[total..total + count]] + BufferChunks(buffer[total + count..])
  {
    var count := Min(|buffer| - total, SYNC_DATA_MAX);
    assert buffer[total..][..count] == buffer[total..total + count] && buffer[total..][count..] == buffer[total + count..];
  }

  // The receivers.

  /** Texts of errors: what strerror says, and the constants of the source. */
  type Reason = s: seq<byte> | |s| < INT_END

  /** fail_message */
  function FailMsg(reason: Reason): seq<byte> {
    Head(ID_FAIL, |reason|) + reason
  }

  const OKAY_MSG: seq<byte> := Head(ID_OKAY, 0)

  /** The bytes of an ASCII text. */
  function Text(s: string): (b: seq<byte>)
    ensures |b| == |s|
  {
    seq(|s|, i requires 0 <= i < |s| => s[i] as int % 256)
  }

  /** The id and the size of the next message; without them, how much of them came. */
  method ReadMessage(fd: Fd) returns (m: Option<(u32, u32)>, ghost k: nat)
    modifies fd`input, fd`plan
    ensures m.Some? ==> old(fd.input) == Head(m.value.0, m.value.1) + fd.input
    ensures m.None? ==> k < 8 && k <= |old(fd.input)| && (Soft(old(fd.plan)) ==> k == |old(fd.input)|)
    ensures Soft(old(fd.plan)) ==> Soft(fd.plan)
  {
    hide IdOf, SizeOf, ReadOutcome, Head;
    k := ReadOutcome(8, |fd.input|, fd.plan).count;
    var head := Readx(fd, 8);
    if head.None? {
      return None, k;
    }
    HeadOfBytes(head.value);
    m := Some((IdOf(head.value), SizeOf(head.value)));
  }

  /** The body of a message; without it, how much of it came. */
  method ReadBody(fd: Fd, size: nat) returns (b: Option<seq<byte>>, ghost k: nat)
    modifies fd`input, fd`plan
    ensures b.Some? ==> |b.value| == size && old(fd.input) == b.value + fd.input
    ensures b.None? ==> k < size && k <= |old(fd.input)| && (Soft(old(fd.plan)) ==> k == |old(fd.input)|)
    ensures Soft(old(fd.plan)) ==> Soft(fd.plan)
  {
    hide ReadOutcome;
    k := ReadOutcome(size, |fd.input|, fd.plan).count;
    b := Readx(fd, size);
  }

  /** One message of an upload; a lost one has begun when its head says DATA. */
  datatype Frame = Chunk(data: seq<byte>) | End(size: u32) | Unexpected(id: u32, size: u32) | TooBig | Huge | Lost(begun: bool)

  /** What the bytes so far come to when the message f, not a chunk, is next. */
  ghost function EndOf(f: Frame, done: seq<seq<byte>>, rest: seq<byte>): Upload
    requires !f.Chunk?
  {
    match f
    case End(size) => Complete(done, size, rest)
    case Unexpected(id, size) => Malformed(done, id, size, rest)
    case TooBig => Oversize(done)
    case Huge => Overlong(done)
    case Lost(_) => Truncated(done)
  }

  /** The first answer is one for which sync_recv makes the file, whatever comes of it. */
  predicate Opened(b: seq<byte>) {
    |b| >= 8 && (IdOf(b) == ID_DATA || IdOf(b) == ID_DONE)
  }

  lemma OpenedHead(id: u32, size: u32, rest: seq<byte>)
    ensures Opened(Head(id, size) + rest) <==> id == ID_DATA || id == ID_DONE
  {
    ReadHead(id, size, rest);
  }

  /** Frames come first. */
  lemma StartsWith(chunks: seq<seq<byte>>, tail: seq<byte>)
    requires Chunked(chunks)
    ensures chunks == [] ==> Frames(chunks) + tail == tail
    ensures chunks != [] ==> Opened(Frames(chunks) + tail)
  {
    hide Head;
    if chunks == [] {
      assert Frames(chunks) + tail == tail;
    } else {
      var h, c := Head(ID_DATA, |chunks[0]|), chunks[0];
      assert Frames(chunks) + tail == h + (c + Frames(chunks[1..]) + tail);
      ReadHead(ID_DATA, |c|, c + Frames(chunks[1..]) + tail);
    }
  }

  /** The next message after the frames of `done`, and how many bytes this takes from all of them. */
  method ReadFrame(fd: Fd, client: bool, ghost done: seq<seq<byte>>) returns (f: Frame, ghost n: nat)
    requires Chunked(done)
    modifies fd`input, fd`plan
    ensures Soft(old(fd.plan)) ==> Soft(fd.plan)
    ensures f.Chunk? ==> |f.data| <= SYNC_DATA_MAX && old(fd.input) == Head(ID_DATA, |f.data|) + f.data + fd.input
    ensures f.Unexpected? ==> f.id != ID_DATA && f.id != ID_DONE && old(fd.input) == Head(f.id, f.size) + fd.input
    ensures !f.Chunk? ==>
              var input := Frames(done) + old(fd.input);
              && n <= |input| && (Soft(old(fd.plan)) || !f.Lost? ==> n == |input|)
              && Parse(input[..n], client) == EndOf(f, done, fd.input)
              && (Opened(input[..n]) <==> done != [] || (!f.Unexpected? && f != Lost(false)))
              && (done == [] ==> (n < 8 <==> f == Lost(false)))
  {
    hide Head, Refuses, Parse, Frames, Opened;
    ghost var input, rest := Frames(done) + fd.input, fd.input;
    assert done == [] ==> Frames(done) + rest == rest by { FramesStart([]); }
    var m;
    ghost var k;
    m, k := ReadMessage(fd);
    if m.None? {
      CutHere(done, rest, k, client);
      StartsWith(done, rest[..k]);
      ShortIsNotOpened(rest[..k]);
      return Lost(false), |Frames(done)| + k;
    }
    var (id, size) := m.value;
    ghost var body := fd.input;
    FramesThen(done, rest, client);
    ParseHead(id, size, body, client);
    StartsWith(done, rest);
    OpenedHead(id, size, body);
    assert done + [] == done && input[..|input|] == input;
    n := |input|;
    if id == ID_DONE {
      return End(size), n;
    }
    if id != ID_DATA {
      return Unexpected(id, size), n;
    }
    if Refuses(size, client) {
      return TooBig, n;
    }
    if size > SYNC_DATA_MAX {
      return Huge, n;
    }
    var data;
    data, k := ReadBody(fd, size);
    if data.None? {
      CutInside(done, size, body, k, client);
      StartsWith(done, Head(ID_DATA, size) + body[..k]);
      OpenedHead(ID_DATA, size, body[..k]);
      return Lost(true), |Frames(done)| + 8 + k;
    }
    Assoc(Head(ID_DATA, size), data.value, fd.input);
    f := Chunk(data.value);
  }

  lemma ShortIsNotOpened(b: seq<byte>)
    ensures |b| < 8 ==> !Opened(b)
  {
  }

  /** What lstat reports: mode, size and time. */
  datatype StatInfo = StatInfo(mode: u32, size: u32, time: u32)

  /** One name of a directory, and what lstat says of it if it works. */
  datatype Dirent = Dirent(name: seq<byte>, info: Option<StatInfo>)

  /**
   * What the file system does with one request for one path: what lstat and readdir report, whether
   * the file opens, what it holds when read, what it still holds when opened for writing after the
   * attempt to unlink it, whether later attempts to unlink it work, how its reads or writes go, and
   * what strerror would say.
   */
  datatype World = World(info: StatInfo, entries: seq<Dirent>, opens: bool, content: seq<byte>,
                         leftover: seq<byte>, removes: bool, plan: seq<Call>, reason: Reason)

  /** How an upload ends: in a file with these bytes, in one that could not be removed, or in none. */
  datatype Stored = Kept(data: seq<byte>, time: u32) | Remains(data: seq<byte>) | NotKept

  /** A file opened without truncation keeps what is not written over. */
  function Overlay(data: seq<byte>, leftover: seq<byte>): seq<byte> {
    if |leftover| > |data| then data + leftover[|data|..] else data
  }

  predicate Keeps(w: World, chunks: seq<seq<byte>>) {
    w.opens && PiecesOutcome(chunks, w.plan).ok
  }

  /** The bytes of some pieces that get into the file. */
  function Taken(w: World, chunks: seq<seq<byte>>): (data: seq<byte>)
    ensures data <= Flatten(chunks)
  {
    Flatten(chunks)[..PiecesOutcome(chunks, w.plan).count]
  }

  /** A file with these bytes written is given up. */
  function Dropped(w: World, data: seq<byte>): Stored {
    if w.opens && !w.removes then Remains(Overlay(data, w.leftover)) else NotKept
  }

  function SendStored(w: World, chunks: seq<seq<byte>>, time: u32): Stored {
    if Keeps(w, chunks) then Kept(Overlay(Flatten(chunks), w.leftover), time) else Dropped(w, Taken(w, chunks))
  }

  function SendAnswer(w: World, chunks: seq<seq<byte>>): seq<byte> {
    if Keeps(w, chunks) then OKAY_MSG else FailMsg(w.reason)
  }

  /** A write that fails after n bytes, and an unlink that fails then: FAIL, and a file with these bytes over what it held. */
  lemma HalfFileRemains(c: seq<byte>, n: nat, w: World, time: u32)
    requires 0 < n < |c| && w.opens && !w.removes && w.plan == [Moves(n), Broken]
    ensures SendAnswer(w, [c]) == FailMsg(w.reason) && SendStored(w, [c], time) == Remains(Overlay(c[..n], w.leftover))
  {
    hide FailMsg, Overlay;
    assert w.plan[1..] == [Broken] && [c][1..] == [];
    assert WriteOutcome(|c| - n, [Broken]) == Moved(false, 0, []);
    assert WriteOutcome(|c|, w.plan) == Moved(false, n, []);
    assert Flatten([c]) == c + Flatten<byte>([]) == c;
    assert Taken(w, [c]) == c[..n];
  }

  /** What is left of an upload, complete or not. */
  function UploadStored(w: World, u: Upload): Stored {
    if u.Complete? then SendStored(w, u.chunks, u.time) else Dropped(w, Taken(w, u.chunks))
  }

  /** What is said about it: FAIL as soon as the file fails, and again if the stream does. */
  function UploadAnswer(w: World, u: Upload): seq<byte> {
    if u.Complete? then SendAnswer(w, u.chunks)
    else
      (if Keeps(w, u.chunks) then [] else FailMsg(w.reason)) +
      (if u.Malformed? then FailMsg(Text("invalid data message"))
       else if u.Oversize? then FailMsg(Text("oversize data message"))
       else [])
  }

  lemma UploadStarts(w: World)
    ensures Taken(w, []) == [] && PiecesOutcome([], w.plan) == Moved(true, 0, w.plan) && Flatten<byte>([]) == []
    ensures Keeps(w, []) <==> w.opens
  {
  }

  /** fail_message, whole or cut. */
  method Fail(s: Fd, reason: Reason) returns (ghost got: seq<byte>)
    modifies s`output, s`plan
    ensures Soft(old(s.plan)) ==> Soft(s.plan) && got == FailMsg(reason)
    ensures s.output == old(s.output) + got && got <= FailMsg(reason)
  {
    hide FailMsg, WriteOutcome;
    var _ := Writex(s, FailMsg(reason));
    got := s.output[|old(s.output)|..];
  }

  /** The state of handle_send_file after some pieces: the file has them all, or FAIL has been sent. */
  ghost predicate Uploading(w: World, done: seq<seq<byte>>, isOpen: bool, file: Fd, s: Fd, before: seq<byte>)
    reads file, s
  {
    && (w.opens ==> file.output == Taken(w, done))
    && if isOpen then
         w.opens && PiecesOutcome(done, w.plan) == Moved(true, |Flatten(done)|, file.plan) && s.output == before
       else !Keeps(w, done) && s.output == before + FailMsg(w.reason)
  }

  /** One piece into the file; the first failure is answered at once. */
  method StorePiece(s: Fd, file: Fd, data: seq<byte>, isOpen: bool, w: World, ghost done: seq<seq<byte>>, ghost before: seq<byte>)
    returns (ok: bool, open: bool)
    requires s != file && Uploading(w, done, isOpen, file, s, before)
    modifies s`output, s`plan, file`output, file`plan
    ensures Soft(old(s.plan)) ==> ok && Soft(s.plan)
    ensures ok ==> Uploading(w, done + [data], open, file, s, before)
    ensures w.opens ==> file.output == Taken(w, done + [data])
    ensures !ok ==> !Keeps(w, done + [data]) && before <= s.output <= before + FailMsg(w.reason)
  {
    hide FailMsg, WriteOutcome, PiecesOutcome, Flatten;
    PiecesMore(done, [data], w.plan);
    FlattenSnoc(done, data);
    ok, open := true, isOpen;
    if isOpen {
      PiecesOne(done, data, w.plan);
      var wrote := Writex(file, data);
      if !wrote {
        open := false;
        ok := Writex(s, FailMsg(w.reason));
      }
    }
  }

  /** The end of handle_send_file, when the next message is not a chunk. */
  method EndUpload(s: Fd, w: World, file: Fd, isOpen: bool, f: Frame,
                   ghost done: seq<seq<byte>>, ghost rest: seq<byte>, ghost before: seq<byte>)
    returns (ok: bool, stored: Stored, ghost got: seq<byte>)
    requires s != file && Uploading(w, done, isOpen, file, s, before) && !f.Chunk?
    modifies s`output, s`plan
    ensures Soft(old(s.plan)) ==> Soft(s.plan)
    ensures var u := EndOf(f, done, rest);
            && stored == UploadStored(w, u) && s.output == before + got && got <= UploadAnswer(w, u)
            && (if ok then u.Complete? && got == SendAnswer(w, u.chunks)
                else u.Complete? && Keeps(w, u.chunks) ==> got < OKAY_MSG)
            && (Soft(old(s.plan)) ==> (ok <==> u.Complete?) && got == UploadAnswer(w, u))
  {
    hide FailMsg, PiecesOutcome, Flatten, Overlay, Head, WriteOutcome;
    got := if isOpen then [] else FailMsg(w.reason);
    ghost var more := [];
    match f
    case End(time) =>
      if !isOpen {
        return true, Dropped(w, file.output), got;
      }
      WholeIsTaken(w, done);
      ok := Writex(s, OKAY_MSG);
      got := s.output[|before|..];
      return ok, Kept(Overlay(file.output, w.leftover), time), got;
    case Unexpected(_, _) =>
      more := Fail(s, Text("invalid data message"));
      return false, Dropped(w, file.output), got + more;
    case TooBig =>
      more := Fail(s, Text("oversize data message"));
      return false, Dropped(w, file.output), got + more;
    case Huge =>
      return false, Dropped(w, file.output), got;
    case Lost(_) =>
      return false, Dropped(w, file.output), got;
  }

  lemma WholeIsTaken(w: World, done: seq<seq<byte>>)
    ensures Keeps(w, done) ==> Taken(w, done) == Flatten(done)
  {
  }

  /** What is said of an upload that ends early is said of one that goes on, unless that one is kept. */
  lemma AnswerGrows(w: World, done: seq<seq<byte>>, u: Upload, got: seq<byte>)
    requires done <= u.chunks && got <= UploadAnswer(w, Truncated(done))
    ensures got <= UploadAnswer(w, u) && (u.Complete? && Keeps(w, u.chunks) ==> got < OKAY_MSG)
  {
    hide PiecesOutcome, FailMsg;
    KeepsLess(w, done, u.chunks[|done|..]);
    assert done + u.chunks[|done|..] == u.chunks;
  }

  /** How an upload of these bytes may end when the first n of them are read. */
  ghost predicate UploadEnds(w: World, input: seq<byte>, n: nat, ok: bool, stored: Stored, got: seq<byte>) {
    var u := Parse(input, false);
    && n <= |input| && stored == UploadStored(w, Parse(input[..n], false))
    && if ok then u.Complete? && n == |input| && got == SendAnswer(w, u.chunks)
       else got <= UploadAnswer(w, u) && (u.Complete? && Keeps(w, u.chunks) ==> got < OKAY_MSG)
  }

  /** The same, seen from all the bytes that were to come. */
  method FinishUpload(s: Fd, w: World, file: Fd, isOpen: bool, f: Frame,
                      ghost done: seq<seq<byte>>, ghost before: seq<byte>, ghost input: seq<byte>, ghost n: nat)
    returns (ok: bool, stored: Stored, ghost got: seq<byte>)
    requires s != file && Uploading(w, done, isOpen, file, s, before) && !f.Chunk? && n <= |input|
    requires Parse(input[..n], false) == EndOf(f, done, s.input) && (!f.Lost? ==> n == |input|)
    modifies s`output, s`plan
    ensures Soft(old(s.plan)) ==> Soft(s.plan)
    ensures UploadEnds(w, input, n, ok, stored, got) && s.output == before + got
    ensures ok ==> s.input == Parse(input, false).rest
    ensures Soft(old(s.plan)) && n == |input| ==>
              var u := Parse(input, false); (ok <==> u.Complete?) && got == UploadAnswer(w, u)
  {
    hide FailMsg, Parse, PiecesOutcome, Flatten, Overlay, UploadAnswer, UploadStored, Keeps, Uploading;
    assert n == |input| ==> input[..n] == input;
    ok, stored, got := EndUpload(s, w, file, isOpen, f, done, s.input, before);
    if f.Lost? {
      ParseFirst(input[..n], input[n..], false);
      assert input[..n] + input[n..] == input;
      AnswerGrows(w, done, Parse(input, false), got);
    }
  }

  /**
   * handle_send_file. A complete upload is consumed whole and answered exactly once: OKAY with its
   * bytes over what the file still held, or FAIL when the file could not be opened or written. Any
   * other upload is given up. The file is left as if the stream had ended after its first n bytes,
   * and that is all of them unless the connection fails; then the client has got a part of the
   * answer, and not the whole of an OKAY.
   */
  method HandleSendFile(s: Fd, w: World) returns (ok: bool, stored: Stored, ghost got: seq<byte>, ghost n: nat)
    modifies s`input, s`output, s`plan
    ensures Soft(old(s.plan)) ==> Soft(s.plan)
    ensures UploadEnds(w, old(s.input), n, ok, stored, got) && s.output == old(s.output) + got
    ensures ok ==> s.input == Parse(old(s.input), false).rest
    ensures var u := Parse(old(s.input), false);
            Soft(old(s.plan)) ==> n == |old(s.input)| && (ok <==> u.Complete?) && got == UploadAnswer(w, u)
  {
    hide FailMsg, Parse, PiecesOutcome, Flatten, Overlay, Frames, Head, Taken, WriteOutcome, UploadAnswer, UploadStored,
         Keeps, UploadEnds;
    ghost var input, before := s.input, s.output;
    var file := new Fd([], w.plan);
    var isOpen := w.opens;
    UploadStarts(w);
    ghost var done: seq<seq<byte>> := [];
    assert Frames(done) + s.input == s.input by { FramesStart([]); }
    if !isOpen {
      var told := Writex(s, FailMsg(w.reason));
      if !told {
        got := s.output[|before|..];
        stored := GiveUp(s, w, file, done, input, got);
        return false, stored, got, |Frames(done)|;
      }
    }
    while true
      invariant Soft(old(s.plan)) ==> Soft(s.plan)
      invariant Chunked(done) && input == Frames(done) + s.input
      invariant Uploading(w, done, isOpen, file, s, before)
      decreases |s.input|
    {
      var f;
      f, n := ReadFrame(s, false, done);
      if !f.Chunk? {
        ok, stored, got := FinishUpload(s, w, file, isOpen, f, done, before, input, n);
        return;
      }
      FramesSnoc(done, f.data);
      var open;
      ok, open := StorePiece(s, file, f.data, isOpen, w, done, before);
      done := done + [f.data];
      if !ok {
        got := s.output[|before|..];
        stored := GiveUp(s, w, file, done, input, got);
        return false, stored, got, |Frames(done)|;
      }
      isOpen := open;
    }
  }

  /** FAIL did not get through; the file was given up before. */
  method GiveUp(s: Fd, w: World, file: Fd, ghost done: seq<seq<byte>>, ghost input: seq<byte>, ghost got: seq<byte>)
    returns (stored: Stored)
    requires Chunked(done) && input == Frames(done) + s.input
    requires (w.opens ==> file.output == Taken(w, done)) && !Keeps(w, done) && got <= FailMsg(w.reason)
    ensures UploadEnds(w, input, |Frames(done)|, false, stored, got)
  {
    hide FailMsg, Parse, PiecesOutcome, Flatten, Overlay, Frames, Taken;
    CutHere(done, s.input, 0, false);
    FramesThen(done, s.input, false);
    AnswerGrows(w, done, Parse(input, false), got);
    KeepsLess(w, done, Parse(s.input, false).chunks);
    stored := Dropped(w, file.output);
  }

  /** A file that did not take some pieces does not take them and more. */
  lemma KeepsLess(w: World, done: seq<seq<byte>>, more: seq<seq<byte>>)
    ensures Keeps(w, done + more) ==> Keeps(w, done)
  {
    PiecesMore(done, more, w.plan);
  }

  /** The answer to RECV: the file as it was read, and DONE or FAIL. */
  function RecvAnswer(w: World): seq<byte> {
    if !w.opens then FailMsg(w.reason)
    else
      var r := ReadChunks(w.content, w.plan, SYNC_DATA_MAX);
      Frames(r.chunks) + if r.failed then FailMsg(w.reason) else Head(ID_DONE, 0)
  }

  /** The loop of do_recv: the file in frames, up to its end or a failure to read it. */
  method RecvFrames(s: Fd, file: Fd) returns (ok: bool, failed: bool)
    requires s != file
    modifies s`output, s`plan, file`input, file`plan
    ensures var all := ReadChunks(old(file.input), old(file.plan), SYNC_DATA_MAX);
            var m := FramesOutcome(all.chunks, old(s.plan));
            && ok == m.ok && s.plan == m.plan && s.output == old(s.output) + Frames(all.chunks)[..m.count]
            && (ok ==> failed == all.failed)
  {
    ghost var all, out := ReadChunks(file.input, file.plan, SYNC_DATA_MAX), s.output;
    ghost var chunks, plan := [], s.plan;
    hide Frames, Head, FramesOutcome, WriteOutcome, ReadChunks, SentSoFar;
    SendingStarts(all.chunks, plan, out);
    while true
      invariant Chunked(chunks) && s.output == out + Frames(chunks)
      invariant SentSoFar(all.chunks, chunks, ReadChunks(file.input, file.plan, SYNC_DATA_MAX).chunks, plan, s.plan)
      invariant ReadChunks(file.input, file.plan, SYNC_DATA_MAX).failed == all.failed
      decreases |file.plan|, |file.input|
    {
      var got := ReadPiece(file);
      if got.Failure? && got.retry {
        continue;
      }
      if got.Failure? || got.data == [] {
        SendingEnds(all.chunks, chunks, plan, s.plan, out);
        return true, got.Failure?;
      }
      ok := SendFrame(s, got.data, all.chunks, chunks, ReadChunks(file.input, file.plan, SYNC_DATA_MAX).chunks, plan, out);
      if !ok {
        return false, false;
      }
      chunks := chunks + [got.data];
    }
  }

  /** do_recv; if the connection fails, the client has got a part of the answer. */
  method DoRecv(s: Fd, w: World) returns (ok: bool)
    modifies s`output, s`plan
    ensures Soft(old(s.plan)) ==> ok && Soft(s.plan)
    ensures ok ==> s.output == old(s.output) + RecvAnswer(w)
    ensures old(s.output) <= s.output <= old(s.output) + RecvAnswer(w)
  {
    hide Frames, Head, FailMsg, ReadChunks, FramesOutcome, WriteOutcome;
    if !w.opens {
      ok := Writex(s, FailMsg(w.reason));
      return;
    }
    var file := new Fd(w.content, w.plan);
    ghost var frames := Frames(ReadChunks(w.content, w.plan, SYNC_DATA_MAX).chunks);
    var failed;
    ok, failed := RecvFrames(s, file);
    if ok {
      assert frames[..|frames|] == frames;
      Assoc(old(s.output), frames, if failed then FailMsg(w.reason) else Head(ID_DONE, 0));
      ok := Writex(s, if failed then FailMsg(w.reason) else Head(ID_DONE, 0));
    }
  }

  // The client of a pull.

  /** 0 with the file in place, 0 after printing what the remote reported, -1, or in a read of 2^31 bytes or more. */
  datatype Code = Done | Reported | Failed | Runaway

  /** What is at lpath afterwards: what was there before, nothing, or a file made by the pull. */
  datatype LocalFile = AsBefore | Removed | Made(data: seq<byte>)

  /** How sync_recv ends. */
  datatype Pulled = Pulled(code: Code, file: LocalFile)
  {
    /** The return code, which do_sync_pull takes for success when it is 0. */
    predicate Success() { code.Done? || code.Reported? }
  }

  /** What the local file system does: whether unlink works before and after the file is made, whether it is made, its writes. */
  datatype Local = Local(unlinks: bool, creates: bool, removes: bool, plan: seq<Call>)

  function Unlinked(file: LocalFile, works: bool): LocalFile {
    if works then Removed else file
  }

  /** remote_error: a FAIL message is read, cut at 256 bytes; any other id is printed. */
  function ErrorCode(id: u32, size: u32, rest: seq<byte>): Code {
    if id != ID_FAIL then Reported
    else if Signed(size) < 0 then Runaway
    else if |rest| < Min(size, 256) then Failed
    else Reported
  }

  function PullResult(b: seq<byte>, l: Local): Pulled {
    var u := Parse(b, true);
    if |b| < 8 then Pulled(Failed, AsBefore)
    else if !Opened(b) then Pulled(ErrorCode(IdOf(b), SizeOf(b), b[8..]), Unlinked(AsBefore, l.removes))
    else if !l.creates then Pulled(Failed, Unlinked(AsBefore, l.unlinks))
    else
      var m := PiecesOutcome(u.chunks, l.plan);
      var made := Made(Flatten(u.chunks)[..m.count]);
      if !m.ok then Pulled(Failed, made)
      else
        match u
        case Complete(_, _, _) => Pulled(Done, made)
        case Malformed(_, id, size, rest) => Pulled(ErrorCode(id, size, rest), Unlinked(made, l.removes))
        case Overlong(_) => Pulled(Runaway, made)
        case _ => Pulled(Failed, made)
  }

  /**
   * A remote failure, in place of the file or in the middle of it, ends with the code of success. What
   * was made of the file is removed, and so is a file that was there before if none was made.
   */
  lemma RemoteErrorLooksLikeSuccess(chunks: seq<seq<byte>>, reason: Reason, after: seq<byte>, l: Local)
    requires Chunked(chunks) && l.creates && l.removes && PiecesOutcome(chunks, l.plan).ok
    ensures PullResult(Frames(chunks) + (FailMsg(reason) + after), l) == Pulled(Reported, Removed)
    ensures Pulled(Reported, Removed).Success()
  {
    hide Parse, PiecesOutcome, Frames, Head;
    FramesThen(chunks, FailMsg(reason) + after, true);
    Assoc(Head(ID_FAIL, |reason|), reason, after);
    ReadHead(ID_FAIL, |reason|, reason + after);
    ParseHead(ID_FAIL, |reason|, reason + after, true);
    assert chunks + [] == chunks;
    StartsWith(chunks, FailMsg(reason) + after);
  }

  /** A frame of 2^31 bytes or more is refused by the service and not by the client, which refuses none but the smaller ones. */
  lemma HugeFrameRunsAway(size: u32, rest: seq<byte>, l: Local)
    requires l.creates && size > 65536
    ensures PullResult(Head(ID_DATA, size) + rest, l) == Pulled(if size < 0x8000_0000 then Failed else Runaway, Made([]))
    ensures Parse(Head(ID_DATA, size) + rest, false) == Oversize([])
  {
    ReadHead(ID_DATA, size, rest);
    NoPieces(l.plan);
  }

  /** A stream that ends after whole frames: -1, and what came is left in the local file. */
  lemma CutPullLeavesPart(chunks: seq<seq<byte>>, x: seq<byte>, l: Local)
    requires Chunked(chunks) && chunks != [] && |x| < 8 && l.creates && PiecesOutcome(chunks, l.plan).ok
    ensures PullResult(Frames(chunks) + x, l) == Pulled(Failed, Made(Flatten(chunks)))
  {
    hide PiecesOutcome, Frames, Opened;
    assert Parse(x, true) == Truncated([]);
    CutFrames(chunks, x, true);
    StartsWith(chunks, x);
    ShortIsNotOpened(Frames(chunks) + x);
    var m := PiecesOutcome(chunks, l.plan);
    assert Flatten(chunks)[..m.count] == Flatten(chunks);
  }

  /** What is at lpath once the pieces `done` are taken out of the bytes b. */
  ghost predicate HasMade(l: Local, b: seq<byte>, done: seq<seq<byte>>, file: LocalFile) {
    && PiecesOutcome(done, l.plan).ok
    && if Opened(b) then l.creates && file == Made(Flatten(done)) else done == [] && file == AsBefore
  }

  /** The bytes so far, and what they say together with the next message. */
  ghost predicate Answered(b: seq<byte>, f: Frame, done: seq<seq<byte>>, rest: seq<byte>)
    requires !f.Chunk?
  {
    Parse(b, true) == EndOf(f, done, rest) && (Opened(b) || f.Unexpected? || (f == Lost(false) && |b| < 8))
  }

  /** A message that is neither DATA nor DONE. */
  lemma ErrorAt(done: seq<seq<byte>>, id: u32, size: u32, rest: seq<byte>, l: Local, file: LocalFile)
    requires Chunked(done) && id != ID_DATA && id != ID_DONE
    requires HasMade(l, Frames(done) + (Head(id, size) + rest), done, file)
    ensures PullResult(Frames(done) + (Head(id, size) + rest), l) == Pulled(ErrorCode(id, size, rest), Unlinked(file, l.removes))
  {
    hide Parse, PiecesOutcome, Frames, Head, ErrorCode;
    var tail := Head(id, size) + rest;
    StartsWith(done, tail);
    ReadHead(id, size, rest);
    FramesThen(done, tail, true);
    ParseHead(id, size, rest, true);
    assert done + [] == done;
    AllPieces(done, l.plan);
  }

  lemma AllPieces(done: seq<seq<byte>>, plan: seq<Call>)
    requires PiecesOutcome(done, plan).ok
    ensures Flatten(done)[..PiecesOutcome(done, plan).count] == Flatten(done)
  {
  }

  /** The end of sync_recv, at DONE, at a frame that is too big, or when the connection is lost. */
  lemma EndAt(b: seq<byte>, f: Frame, done: seq<seq<byte>>, rest: seq<byte>, l: Local, file: LocalFile)
    requires !f.Chunk? && !f.Unexpected? && Answered(b, f, done, rest) && HasMade(l, b, done, file)
    ensures PullResult(b, l) == Pulled(if f.End? then Done else if f.Huge? then Runaway else Failed, file)
  {
    hide Parse, PiecesOutcome;
    AllPieces(done, l.plan);
  }

  /** The text of remote_error; what came of it decides. */
  method RemoteError(fd: Fd, id: u32, size: u32) returns (code: Code, ghost k: nat)
    modifies fd`input, fd`plan
    ensures k <= |old(fd.input)| && code == ErrorCode(id, size, old(fd.input)[..k])
    ensures Soft(old(fd.plan)) ==> k == |old(fd.input)|
  {
    k := |fd.input|;
    assert fd.input[..k] == fd.input;
    if id != ID_FAIL {
      return Reported, k;
    }
    var len := Signed(size);
    if len > 256 {
      len := 256;
    }
    if len < 0 {
      return Runaway, k;
    }
    ghost var j;
    var text;
    text, j := ReadBody(fd, len);
    if text.None? {
      return Failed, j;
    }
    code := Reported;
  }

  /** The end of sync_recv, when the next message is not a chunk. */
  method EndPull(fd: Fd, file: LocalFile, f: Frame, l: Local, ghost done: seq<seq<byte>>, ghost input: seq<byte>, ghost m: nat)
    returns (r: Pulled, ghost n: nat)
    requires !f.Chunk? && m <= |input| && Chunked(done)
    requires Answered(input[..m], f, done, fd.input) && HasMade(l, input[..m], done, file)
    requires f.Unexpected? ==> m == |input|
    requires f.Unexpected? ==> f.id != ID_DATA && f.id != ID_DONE && input == Frames(done) + (Head(f.id, f.size) + fd.input)
    modifies fd`input, fd`plan
    ensures n <= |input| && r == PullResult(input[..n], l)
    ensures if f.Unexpected? then Soft(old(fd.plan)) ==> n == |input| else n == m
  {
    hide Parse, PiecesOutcome, Flatten, Opened, Frames, Head, PullResult, ErrorCode;
    n := m;
    if f.Unexpected? {
      ghost var rest := fd.input;
      var code;
      ghost var k;
      code, k := RemoteError(fd, f.id, f.size);
      n := |Frames(done)| + 8 + k;
      ghost var tail := Head(f.id, f.size) + rest[..k];
      assert input[..n] == Frames(done) + tail;
      assert input[..m] == input;
      SameStart(done, f.id, f.size, rest, rest[..k]);
      ErrorAt(done, f.id, f.size, rest[..k], l, file);
      return Pulled(code, Unlinked(file, l.removes)), n;
    }
    EndAt(input[..m], f, done, fd.input, l, file);
    r := Pulled(if f.End? then Done else if f.Huge? then Runaway else Failed, file);
  }

  lemma SameStart(done: seq<seq<byte>>, id: u32, size: u32, x: seq<byte>, y: seq<byte>)
    requires Chunked(done)
    ensures Opened(Frames(done) + (Head(id, size) + x)) <==> Opened(Frames(done) + (Head(id, size) + y))
  {
    hide Frames, Head, Opened;
    StartsWith(done, Head(id, size) + x);
    StartsWith(done, Head(id, size) + y);
    OpenedHead(id, size, x);
    OpenedHead(id, size, y);
  }

  /** sync_recv has put the pieces `done` into the local file. */
  ghost predicate Pulling(l: Local, input: seq<byte>, done: seq<seq<byte>>, made: bool, file: Fd, fd: Fd)
    reads file, fd
  {
    && Chunked(done) && input == Frames(done) + fd.input
    && PiecesOutcome(done, l.plan) == Moved(true, |Flatten(done)|, file.plan) && file.output == Flatten(done)
    && if made then l.creates && done != [] else done == []
  }

  lemma NotCreated(b: seq<byte>, l: Local)
    requires Opened(b) && !l.creates
    ensures PullResult(b, l) == Pulled(Failed, Unlinked(AsBefore, l.unlinks))
  {
  }

  /** A write to the local file fails; what came after does not matter. */
  lemma WriteFails(done: seq<seq<byte>>, rest: seq<byte>, l: Local)
    requires Chunked(done) && l.creates && !PiecesOutcome(done, l.plan).ok
    ensures PullResult(Frames(done) + rest, l) == Pulled(Failed, Made(Flatten(done)[..PiecesOutcome(done, l.plan).count]))
  {
    hide Parse, PiecesOutcome, Frames, Flatten, Opened;
    var more, m := Parse(rest, true).chunks, PiecesOutcome(done, l.plan);
    assert done != [] by { NoPieces(l.plan); }
    StartsWith(done, rest);
    ShortIsNotOpened(Frames(done) + rest);
    FramesThen(done, rest, true);
    PiecesMore(done, more, l.plan);
    FlattenConcat(done, more);
    assert (Flatten(done) + Flatten(more))[..m.count] == Flatten(done)[..m.count];
  }

  /** One piece into the local file; if that fails, the pull does, whatever is still to come. */
  method PullPiece(file: Fd, data: seq<byte>, l: Local, ghost done: seq<seq<byte>>, ghost rest: seq<byte>, ghost input: seq<byte>)
    returns (ok: bool)
    requires Chunked(done) && |data| <= SYNC_DATA_MAX && l.creates
    requires input == Frames(done) + (Head(ID_DATA, |data|) + data + rest)
    requires PiecesOutcome(done, l.plan) == Moved(true, |Flatten(done)|, file.plan) && file.output == Flatten(done)
    modifies file`output, file`plan
    ensures var now := done + [data];
            && Chunked(now) && input == Frames(now) + rest
            && (ok ==> PiecesOutcome(now, l.plan) == Moved(true, |Flatten(now)|, file.plan) && file.output == Flatten(now))
            && (!ok ==> PullResult(input, l) == Pulled(Failed, Made(file.output)))
  {
    hide PiecesOutcome, Flatten, Frames, Head, PullResult, WriteOutcome;
    ghost var now := done + [data];
    FramesSnoc(done, data);
    PiecesOne(done, data, l.plan);
    FlattenSnoc(done, data);
    Assoc(Frames(done), Head(ID_DATA, |data|) + data, rest);
    ok := Writex(file, data);
    if !ok {
      WriteFails(now, rest, l);
      assert file.output == Flatten(now)[..|file.output|];
    }
  }

  /** sync_recv from its first answer on: as on the first n bytes, and that is all of them unless the connection fails. */
  method RecvData(fd: Fd, l: Local) returns (r: Pulled, ghost n: nat)
    modifies fd`input, fd`plan
    ensures n <= |old(fd.input)| && r == PullResult(old(fd.input)[..n], l)
    ensures Soft(old(fd.plan)) ==> n == |old(fd.input)|
  {
    hide Parse, PiecesOutcome, Flatten, Frames, Head, Opened, PullResult, WriteOutcome;
    ghost var input := fd.input;
    var file := new Fd([], l.plan);
    var made := false;
    ghost var done := [];
    NoPieces(l.plan);
    assert Frames(done) + fd.input == fd.input by { FramesStart([]); }
    while true
      invariant Soft(old(fd.plan)) ==> Soft(fd.plan)
      invariant Pulling(l, input, done, made, file, fd)
      decreases |fd.input|
    {
      ghost var rest := fd.input;
      var f;
      f, n := ReadFrame(fd, true, done);
      StartsWith(done, rest);
      if !made && !f.Unexpected? && f != Lost(false) {
        if !l.creates {
          if f.Chunk? {
            n := |input|;
            assert input[..n] == input == Head(ID_DATA, |f.data|) + (f.data + fd.input);
            OpenedHead(ID_DATA, |f.data|, f.data + fd.input);
          }
          NotCreated(input[..n], l);
          return Pulled(Failed, Unlinked(AsBefore, l.unlinks)), n;
        }
        made := true;
      }
      if !f.Chunk? {
        r, n := EndPull(fd, if made then Made(file.output) else AsBefore, f, l, done, input, n);
        return;
      }
      var ok := PullPiece(file, f.data, l, done, fd.input, input);
      done := done + [f.data];
      if !ok {
        assert input[..|input|] == input;
        return Pulled(Failed, Made(file.output)), |input|;
      }
    }
  }

  lemma FourLetters(id: u32, s: string)
    requires |s| == 4 && WordAt(Text(s), 0, id)
    ensures Le32(id) == Text(s)
  {
    hide Text;
    FromLe32RoundTrip(Text(s));
  }

  /** The ids are the four letters of their names. */
  lemma IdsAreLetters()
    ensures Le32(ID_STAT) == Text("STAT") && Le32(ID_LIST) == Text("LIST") && Le32(ID_DENT) == Text("DENT")
    ensures Le32(ID_SEND) == Text("SEND") && Le32(ID_RECV) == Text("RECV") && Le32(ID_DONE) == Text("DONE")
    ensures Le32(ID_DATA) == Text("DATA") && Le32(ID_OKAY) == Text("OKAY") && Le32(ID_FAIL) == Text("FAIL")
    ensures Le32(ID_QUIT) == Text("QUIT")
  {
    hide Le32;
    FourLetters(ID_STAT, "STAT");
    FourLetters(ID_LIST, "LIST");
    FourLetters(ID_DENT, "DENT");
    FourLetters(ID_SEND, "SEND");
    FourLetters(ID_RECV, "RECV");
    FourLetters(ID_DONE, "DONE");
    FourLetters(ID_DATA, "DATA");
    FourLetters(ID_OKAY, "OKAY");
    FourLetters(ID_FAIL, "FAIL");
    FourLetters(ID_QUIT, "QUIT");
  }
}
