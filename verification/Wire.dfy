/**
 * Packets on the wire: send_packet, check_header, check_data (core/adb/transport.c) and
 * remote_write, remote_read (core/adb/transport_local.c) on a little-endian machine.
 */
module Wire {
  import opened Basics
  import opened Bits
  import opened Io

  const HEADER_SIZE: nat := 24

  /** command ^ 0xffffffff */
  function Magic(command: u32): (m: u32)
    ensures m == MAX_U32 - command
  {
    TopIsPow2();
    XorOnes(command, U32_END);
    Xor(command, MAX_U32)
  }

  // Little-endian words.

  function Le32(x: u32): (b: seq<byte>)
    ensures |b| == 4
  {
    var y := x / 256;
    var z := y / 256;
    [x % 256, y % 256, z % 256, z / 256]
  }

  function FromLe32(b: seq<byte>): u32
    requires |b| >= 4
  {
    var (b0: int, b1: int, b2: int, b3: int) := (b[0], b[1], b[2], b[3]);
    b0 + 256 * (b1 + 256 * (b2 + 256 * b3))
  }

  lemma Digit(lo: int, hi: int)
    requires 0 <= lo < 256
    ensures (lo + 256 * hi) % 256 == lo && (lo + 256 * hi) / 256 == hi
  {
  }

  lemma Le32RoundTrip(x: u32)
    ensures FromLe32(Le32(x)) == x
  {
    var y := x / 256;
    var z := y / 256;
    assert x == x % 256 + 256 * y && y == y % 256 + 256 * z && z == z % 256 + 256 * (z / 256);
  }

  lemma FromLe32RoundTrip(b: seq<byte>)
    requires |b| == 4
    ensures Le32(FromLe32(b)) == b
  {
    var (b0: int, b1: int, b2: int, b3: int) := (b[0], b[1], b[2], b[3]);
    Digit(b0, b1 + 256 * (b2 + 256 * b3));
    Digit(b1, b2 + 256 * b3);
    Digit(b2, b3);
  }

  /** Four bytes, the low one first. */
  predicate WordAt(b: seq<byte>, at: nat, x: int) {
    && at + 4 <= |b|
    && x == b[at] as int + 0x100 * (b[at + 1] as int) + 0x1_0000 * (b[at + 2] as int) + 0x100_0000 * (b[at + 3] as int)
  }

  lemma WordLies(b: seq<byte>, at: nat, x: u32)
    requires at + 4 <= |b| && b[at..at + 4] == Le32(x)
    ensures WordAt(b, at, x)
  {
    Le32RoundTrip(x);
    var w := b[at..at + 4];
    assert b[at] == w[0] && b[at + 1] == w[1] && b[at + 2] == w[2] && b[at + 3] == w[3];
  }

  function Word(b: seq<byte>, at: nat): u32
    requires at + 4 <= |b|
  {
    FromLe32(b[at..at + 4])
  }

  lemma WordSays(b: seq<byte>, at: nat)
    requires at + 4 <= |b|
    ensures WordAt(b, at, Word(b, at))
  {
    FromLe32RoundTrip(b[at..at + 4]);
    WordLies(b, at, Word(b, at));
  }

  // The checksum.

  function Sum(data: seq<byte>): nat {
    if data == [] then 0 else data[0] + Sum(data[1..])
  }

  lemma {:induction false} SumConcat(a: seq<byte>, b: seq<byte>)
    ensures Sum(a + b) == Sum(a) + Sum(b)
  {
    if a == [] {
      assert a + b == b;
    } else {
      assert (a + b)[1..] == a[1..] + b;
      SumConcat(a[1..], b);
    }
  }

  /** The byte sum of a payload never comes near 32 bits. */
  lemma {:induction false} SumBound(data: seq<byte>)
    ensures Sum(data) <= 255 * |data|
    ensures |data| <= MAX_PAYLOAD ==> Sum(data) <= MAX_U32
  {
    if data != [] {
      SumBound(data[1..]);
    }
  }

  lemma WrapAdd(a: nat, b: nat)
    ensures (a % (MAX_U32 + 1) + b) % (MAX_U32 + 1) == (a + b) % (MAX_U32 + 1)
  {
    var q := a / (MAX_U32 + 1);
    assert a + b == (a % (MAX_U32 + 1) + b) + q * (MAX_U32 + 1);
  }

  lemma SumOfChange(data: seq<byte>, i: nat, x: byte)
    requires i < |data|
    ensures Sum(data[i := x]) == Sum(data) - data[i] + x
  {
    var head, tail := data[..i], data[i + 1..];
    SumConcat(head, [data[i]] + tail);
    SumConcat(head, [x] + tail);
    assert data == head + ([data[i]] + tail) && data[i := x] == head + ([x] + tail);
    assert ([data[i]] + tail)[1..] == tail && ([x] + tail)[1..] == tail;
  }

  /** The loop of send_packet and check_data, in 32-bit arithmetic. */
  method CheckSum(data: seq<byte>) returns (sum: u32)
    ensures sum == Sum(data) % (MAX_U32 + 1)
  {
    sum := 0;
    var i := 0;
    while i < |data|
      invariant 0 <= i <= |data| && sum == Sum(data[..i]) % (MAX_U32 + 1)
    {
      assert data[..i + 1] == data[..i] + [data[i]];
      SumConcat(data[..i], [data[i]]);
      assert Sum([data[i]]) == data[i];
      WrapAdd(Sum(data[..i]), data[i]);
      sum := (sum + data[i]) % (MAX_U32 + 1);
      i := i + 1;
    }
    assert data[..i] == data;
  }

  // Packets.

  datatype Packet = Packet(command: u32, arg0: u32, arg1: u32, data: seq<byte>)

  datatype Message = Message(command: u32, arg0: u32, arg1: u32, length: u32, check: u32, magic: u32)

  /** amessage as it lies in memory. */
  function HeaderBytes(m: Message): (b: seq<byte>)
    ensures |b| == HEADER_SIZE
  {
    Le32(m.command) + Le32(m.arg0) + Le32(m.arg1) + Le32(m.length) + Le32(m.check) + Le32(m.magic)
  }

  function ReadHeader(b: seq<byte>): Message
    requires |b| >= HEADER_SIZE
  {
    Message(FromLe32(b[0..4]), FromLe32(b[4..8]), FromLe32(b[8..12]),
            FromLe32(b[12..16]), FromLe32(b[16..20]), FromLe32(b[20..24]))
  }

  lemma HeaderRoundTrip(m: Message)
    ensures ReadHeader(HeaderBytes(m)) == m
  {
    var b := HeaderBytes(m);
    assert b[0..4] == Le32(m.command) && b[4..8] == Le32(m.arg0) && b[8..12] == Le32(m.arg1);
    assert b[12..16] == Le32(m.length) && b[16..20] == Le32(m.check) && b[20..24] == Le32(m.magic);
    Le32RoundTrip(m.command);
    Le32RoundTrip(m.arg0);
    Le32RoundTrip(m.arg1);
    Le32RoundTrip(m.length);
    Le32RoundTrip(m.check);
    Le32RoundTrip(m.magic);
  }

  lemma HeaderIsBytes(b: seq<byte>)
    requires |b| == HEADER_SIZE
    ensures HeaderBytes(ReadHeader(b)) == b
  {
    FromLe32RoundTrip(b[0..4]);
    FromLe32RoundTrip(b[4..8]);
    FromLe32RoundTrip(b[8..12]);
    FromLe32RoundTrip(b[12..16]);
    FromLe32RoundTrip(b[16..20]);
    FromLe32RoundTrip(b[20..24]);
    assert b == b[0..4] + b[4..8] + b[8..12] + b[12..16] + b[16..20] + b[20..24];
  }

  /** The message send_packet completes for a packet. */
  function Header(p: Packet): Message
    requires |p.data| <= MAX_PAYLOAD
  {
    SumBound(p.data);
    Message(p.command, p.arg0, p.arg1, |p.data|, Sum(p.data), Magic(p.command))
  }

  function Encode(p: Packet): seq<byte>
    requires |p.data| <= MAX_PAYLOAD
  {
    HeaderBytes(Header(p)) + p.data
  }

  /** Where the fields of a packet lie: command, arguments, length, byte sum and magic, then the data. */
  lemma PacketLayout(p: Packet)
    requires |p.data| <= 4096
    ensures var b := Encode(p);
            && WordAt(b, 0, p.command) && WordAt(b, 4, p.arg0) && WordAt(b, 8, p.arg1)
            && WordAt(b, 12, |p.data|) && WordAt(b, 16, Sum(p.data)) && WordAt(b, 20, 0xFFFF_FFFF - p.command)
            && b[24..] == p.data
  {
    SumBound(p.data);
    hide Le32, WordAt, Sum, Magic;
    var b, m := Encode(p), Header(p);
    assert b[0..4] == Le32(p.command) && b[4..8] == Le32(p.arg0) && b[8..12] == Le32(p.arg1);
    assert b[12..16] == Le32(|p.data|) && b[16..20] == Le32(Sum(p.data)) && b[20..24] == Le32(m.magic);
    WordLies(b, 0, p.command);
    WordLies(b, 4, p.arg0);
    WordLies(b, 8, p.arg1);
    WordLies(b, 12, |p.data|);
    WordLies(b, 16, Sum(p.data));
    WordLies(b, 20, m.magic);
  }

  /** check_header */
  predicate HeaderOk(m: Message) {
    m.magic == Magic(m.command) && m.length <= MAX_PAYLOAD
  }

  /** What remote_read makes of the bytes to come: a packet and the rest, or a refusal. */
  function Decode(b: seq<byte>): Option<(Packet, seq<byte>)> {
    if |b| < HEADER_SIZE then None
    else
      var m := ReadHeader(b);
      if !HeaderOk(m) || |b| < HEADER_SIZE + m.length then None
      else
        var data := b[HEADER_SIZE..HEADER_SIZE + m.length];
        if Sum(data) % (MAX_U32 + 1) != m.check then None
        else Some((Packet(m.command, m.arg0, m.arg1, data), b[HEADER_SIZE + m.length..]))
  }

  lemma PrefixHeader(h: seq<byte>, rest: seq<byte>)
    requires |h| == HEADER_SIZE
    ensures ReadHeader(h + rest) == ReadHeader(h)
  {
    var b := h + rest;
    assert b[0..4] == h[0..4] && b[4..8] == h[4..8] && b[8..12] == h[8..12];
    assert b[12..16] == h[12..16] && b[16..20] == h[16..20] && b[20..24] == h[20..24];
  }

  /** Whatever is sent is accepted and decodes to the same packet, whatever follows it. */
  lemma RoundTrip(p: Packet, rest: seq<byte>)
    requires |p.data| <= MAX_PAYLOAD
    ensures Decode(Encode(p) + rest) == Some((p, rest))
  {
    hide HeaderBytes, ReadHeader, Sum;
    var h, b := HeaderBytes(Header(p)), Encode(p) + rest;
    assert b == h + (p.data + rest);
    PrefixHeader(h, p.data + rest);
    HeaderRoundTrip(Header(p));
    assert b[HEADER_SIZE..HEADER_SIZE + |p.data|] == p.data;
    assert b[HEADER_SIZE + |p.data|..] == rest;
    SumBound(p.data);
  }

  /** Nothing else is accepted. */
  lemma OnlyEncodingsDecode(b: seq<byte>)
    requires Decode(b).Some?
    ensures var (p, rest) := Decode(b).value; |p.data| <= MAX_PAYLOAD && b == Encode(p) + rest
  {
    hide HeaderBytes, ReadHeader, Sum;
    var (p, rest) := Decode(b).value;
    var h := b[..HEADER_SIZE];
    assert b == h + b[HEADER_SIZE..];
    PrefixHeader(h, b[HEADER_SIZE..]);
    HeaderIsBytes(h);
    SumBound(p.data);
    assert b[HEADER_SIZE..] == p.data + rest;
  }

  /** A payload with one byte changed on the way is refused. */
  lemma ChangedByteIsRefused(p: Packet, i: nat, x: byte, rest: seq<byte>)
    requires |p.data| <= MAX_PAYLOAD && i < |p.data| && x != p.data[i]
    ensures Decode(HeaderBytes(Header(p)) + p.data[i := x] + rest) == None
  {
    hide HeaderBytes, ReadHeader, Sum;
    var h, data := HeaderBytes(Header(p)), p.data[i := x];
    var b := h + data + rest;
    assert b == h + (data + rest);
    PrefixHeader(h, data + rest);
    HeaderRoundTrip(Header(p));
    assert b[HEADER_SIZE..HEADER_SIZE + |data|] == data;
    SumBound(data);
    SumBound(p.data);
    SumOfChange(p.data, i, x);
  }

  // A whole stream of packets.

  lemma EncodeLength(p: Packet)
    requires |p.data| <= MAX_PAYLOAD
    ensures |Encode(p)| == HEADER_SIZE + |p.data|
  {
  }

  function EncodeAll(ps: seq<Packet>): seq<byte>
    requires forall p :: p in ps ==> |p.data| <= MAX_PAYLOAD
  {
    if ps == [] then [] else Encode(ps[0]) + EncodeAll(ps[1..])
  }

  /** The packets that the reading loop of output_thread makes of some bytes; it ends at the first refusal. */
  function Received(b: seq<byte>): seq<Packet>
    decreases |b|
  {
    match Decode(b)
    case None => []
    case Some((p, rest)) =>
      OnlyEncodingsDecode(b);
      [p] + Received(rest)
  }

  lemma ReceivedFirst(b: seq<byte>, p: Packet, rest: seq<byte>)
    requires Decode(b) == Some((p, rest))
    ensures Received(b) == [p] + Received(rest)
  {
  }

  /** Packets one after the other are received as they were, then what follows them. */
  lemma {:induction false} StreamRoundTrip(ps: seq<Packet>, rest: seq<byte>)
    requires forall p :: p in ps ==> |p.data| <= MAX_PAYLOAD
    ensures Received(EncodeAll(ps) + rest) == ps + Received(rest)
  {
    hide Decode, Encode, Received;
    if ps == [] {
      assert EncodeAll(ps) + rest == rest;
    } else {
      var more := EncodeAll(ps[1..]) + rest;
      RoundTrip(ps[0], more);
      ReceivedFirst(Encode(ps[0]) + more, ps[0], more);
      StreamRoundTrip(ps[1..], rest);
      Assoc(Encode(ps[0]), EncodeAll(ps[1..]), rest);
      Assoc([ps[0]], ps[1..], Received(rest));
      assert [ps[0]] + ps[1..] == ps;
    }
  }

  // The transfers.

  /** send_packet and remote_write. */
  method RemoteWrite(fd: Fd, p: Packet) returns (ok: bool)
    requires |p.data| <= MAX_PAYLOAD
    modifies fd`output, fd`plan
    ensures var m := WriteOutcome(|Encode(p)|, old(fd.plan));
            ok == m.ok && fd.plan == m.plan && fd.output == old(fd.output) + Encode(p)[..m.count]
  {
    hide HeaderBytes, ReadHeader, Sum, WriteOutcome;
    var sum := CheckSum(p.data);
    SumBound(p.data);
    var m := Message(p.command, p.arg0, p.arg1, |p.data|, sum, Magic(p.command));
    ok := Writex(fd, HeaderBytes(m) + p.data);
  }

  /** remote_read */
  method RemoteRead(fd: Fd) returns (r: Option<Packet>)
    modifies fd`input, fd`plan
    ensures r.Some? ==> Decode(old(fd.input)) == Some((r.value, fd.input))
    ensures r.None? ==> Decode(old(fd.input)) == None || !Soft(old(fd.plan))
    ensures Soft(old(fd.plan)) ==> Soft(fd.plan)
  {
    hide HeaderBytes, ReadHeader, Sum, ReadOutcome;
    var header := Readx(fd, HEADER_SIZE);
    if header.None? {
      return None;
    }
    var m := ReadHeader(header.value);
    PrefixHeader(header.value, fd.input);
    assert old(fd.input) == header.value + fd.input;
    if !HeaderOk(m) {
      return None;
    }
    ghost var body := fd.input;
    var data := Readx(fd, m.length);
    assert old(fd.input)[HEADER_SIZE..] == body;
    if data.None? {
      return None;
    }
    assert body == data.value + fd.input;
    assert old(fd.input)[HEADER_SIZE..HEADER_SIZE + m.length] == data.value;
    assert old(fd.input)[HEADER_SIZE + m.length..] == fd.input;
    var sum := CheckSum(data.value);
    if sum != m.check {
      return None;
    }
    r := Some(Packet(m.command, m.arg0, m.arg1, data.value));
  }

  /** What goes out when input_thread sends packets: it does not look at how a write ends. */
  function SentBytes(ps: seq<Packet>, plan: seq<Call>): seq<byte>
    requires forall p :: p in ps ==> |p.data| <= MAX_PAYLOAD
    decreases |ps|
  {
    if ps == [] then []
    else
      var m := WriteOutcome(|Encode(ps[0])|, plan);
      Encode(ps[0])[..m.count] + SentBytes(ps[1..], m.plan)
  }

  /** The writes of input_thread. */
  method SendPackets(fd: Fd, ps: seq<Packet>)
    requires forall p :: p in ps ==> |p.data| <= MAX_PAYLOAD
    modifies fd`output, fd`plan
    ensures fd.output == old(fd.output) + SentBytes(ps, old(fd.plan))
  {
    hide Encode, WriteOutcome;
    var i := 0;
    while i < |ps|
      invariant 0 <= i <= |ps|
      invariant fd.output + SentBytes(ps[i..], fd.plan) == old(fd.output) + SentBytes(ps, old(fd.plan))
    {
      ghost var m := WriteOutcome(|Encode(ps[i])|, fd.plan);
      assert ps[i..][1..] == ps[i + 1..];
      Assoc(fd.output, Encode(ps[i])[..m.count], SentBytes(ps[i + 1..], m.plan));
      var _ := RemoteWrite(fd, ps[i]);
      i := i + 1;
    }
  }

  /** The reads of output_thread. */
  method ReceivePackets(fd: Fd) returns (rs: seq<Packet>)
    modifies fd`input, fd`plan
    ensures rs <= Received(old(fd.input))
    ensures Soft(old(fd.plan)) ==> rs == Received(old(fd.input))
  {
    hide Decode;
    rs := [];
    while true
      invariant Received(old(fd.input)) == rs + Received(fd.input)
      invariant Soft(old(fd.plan)) ==> Soft(fd.plan)
      decreases |fd.input|
    {
      ghost var before := fd.input;
      var p := RemoteRead(fd);
      if p.None? {
        return;
      }
      OnlyEncodingsDecode(before);
      EncodeLength(p.value);
      Assoc(rs, [p.value], Received(fd.input));
      rs := rs + [p.value];
    }
  }

  /** Packets sent by one side and read by the other, whatever the two descriptors do. */
  method Transfer(ps: seq<Packet>, writePlan: seq<Call>, readPlan: seq<Call>) returns (rs: seq<Packet>)
    requires forall p :: p in ps ==> |p.data| <= MAX_PAYLOAD
    ensures rs <= Received(SentBytes(ps, writePlan))
    ensures Soft(readPlan) ==> rs == Received(SentBytes(ps, writePlan))
    ensures Soft(writePlan) ==> rs <= ps && (Soft(readPlan) ==> rs == ps)
  {
    hide SentBytes, Received;
    var out := new Fd([], writePlan);
    SendPackets(out, ps);
    assert [] + SentBytes(ps, writePlan) == SentBytes(ps, writePlan);
    if Soft(writePlan) {
      AllSent(ps, writePlan);
      assert EncodeAll(ps) + [] == EncodeAll(ps);
      StreamRoundTrip(ps, []);
      assert Received([]) == [] by { NothingReceived([]); }
      assert ps + [] == ps;
    }
    var fd := new Fd(out.output, readPlan);
    rs := ReceivePackets(fd);
  }

  lemma NothingReceived(b: seq<byte>)
    requires |b| < HEADER_SIZE
    ensures Received(b) == []
  {
  }

  lemma {:induction false} AllSent(ps: seq<Packet>, plan: seq<Call>)
    requires (forall p :: p in ps ==> |p.data| <= MAX_PAYLOAD) && Soft(plan)
    ensures SentBytes(ps, plan) == EncodeAll(ps)
  {
    hide Encode;
    if ps != [] {
      AllSent(ps[1..], WriteOutcome(|Encode(ps[0])|, plan).plan);
    }
  }

  // A write that fails.

  /** How many packets go out whole before the first that does not. */
  function Unbroken(ps: seq<Packet>, plan: seq<Call>): (j: nat)
    requires forall p :: p in ps ==> |p.data| <= MAX_PAYLOAD
    ensures j <= |ps|
    decreases |ps|
  {
    if ps == [] || !WriteOutcome(|Encode(ps[0])|, plan).ok then 0
    else 1 + Unbroken(ps[1..], WriteOutcome(|Encode(ps[0])|, plan).plan)
  }

  /**
   * The packets before the first failing write arrive as they were. Then the receiver sees a proper
   * part of the next packet and, right behind it, what is sent later.
   */
  lemma {:induction false} SentUpToFailure(ps: seq<Packet>, plan: seq<Call>) returns (cut: nat, later: seq<byte>)
    requires forall p :: p in ps ==> |p.data| <= MAX_PAYLOAD
    ensures var j := Unbroken(ps, plan);
            if j == |ps| then SentBytes(ps, plan) == EncodeAll(ps) && Received(SentBytes(ps, plan)) == ps
            else
              && cut < |Encode(ps[j])|
              && SentBytes(ps, plan) == EncodeAll(ps[..j]) + (Encode(ps[j])[..cut] + later)
              && Received(SentBytes(ps, plan)) == ps[..j] + Received(Encode(ps[j])[..cut] + later)
    decreases |ps|
  {
    hide Encode, Received;
    cut, later := SentParts(ps, plan);
    var j := Unbroken(ps, plan);
    if j == |ps| {
      assert EncodeAll(ps) + [] == EncodeAll(ps);
      StreamRoundTrip(ps, []);
      assert Received([]) == [] by { NothingReceived([]); }
      assert ps + [] == ps;
    } else {
      StreamRoundTrip(ps[..j], Encode(ps[j])[..cut] + later);
    }
  }

  lemma {:induction false} SentParts(ps: seq<Packet>, plan: seq<Call>) returns (cut: nat, later: seq<byte>)
    requires forall p :: p in ps ==> |p.data| <= MAX_PAYLOAD
    ensures var j := Unbroken(ps, plan);
            if j == |ps| then SentBytes(ps, plan) == EncodeAll(ps)
            else cut < |Encode(ps[j])| && SentBytes(ps, plan) == EncodeAll(ps[..j]) + (Encode(ps[j])[..cut] + later)
    decreases |ps|
  {
    hide Encode, WriteOutcome;
    cut, later := 0, [];
    if ps != [] {
      var m := WriteOutcome(|Encode(ps[0])|, plan);
      if m.ok {
        assert Encode(ps[0])[..m.count] == Encode(ps[0]);
        cut, later := SentParts(ps[1..], m.plan);
        var i := Unbroken(ps[1..], m.plan);
        if i < |ps[1..]| {
          FirstEncoded(ps, i + 1, Encode(ps[i + 1])[..cut] + later);
        }
      } else {
        cut, later := m.count, SentBytes(ps[1..], m.plan);
        assert ps[..0] == [] && [] + (Encode(ps[0])[..cut] + later) == Encode(ps[0])[..cut] + later;
      }
    }
  }

  lemma FirstEncoded(ps: seq<Packet>, j: nat, rest: seq<byte>)
    requires 0 < j <= |ps| && forall p :: p in ps ==> |p.data| <= MAX_PAYLOAD
    ensures EncodeAll(ps[..j]) + rest == Encode(ps[0]) + (EncodeAll(ps[1..][..j - 1]) + rest)
  {
    hide Encode;
    assert ps[..j][1..] == ps[1..][..j - 1];
    Assoc(Encode(ps[0]), EncodeAll(ps[1..][..j - 1]), rest);
  }

  /**
   * A packet cut in its data is taken, with the bytes behind it in place of those that are missing,
   * if and only if there are enough of them and they have the same byte sum.
   */
  lemma CutTakenIff(p: Packet, cut: nat, after: seq<byte>)
    requires |p.data| <= MAX_PAYLOAD && HEADER_SIZE <= cut <= |Encode(p)|
    ensures var k := cut - HEADER_SIZE;
            var missing := p.data[k..];
            var taken := |after| >= |missing| && Sum(after[..|missing|]) == Sum(missing);
            Decode(Encode(p)[..cut] + after) ==
            if taken then Some((p.(data := p.data[..k] + after[..|missing|]), after[|missing|..])) else None
  {
    hide HeaderBytes, ReadHeader, Sum, Magic;
    var k := cut - HEADER_SIZE;
    var h, head, missing := HeaderBytes(Header(p)), p.data[..k], p.data[k..];
    var b := Encode(p)[..cut] + after;
    assert b == h + (head + after);
    PrefixHeader(h, head + after);
    HeaderRoundTrip(Header(p));
    if |after| >= |missing| {
      var fill := after[..|missing|];
      assert b[HEADER_SIZE..HEADER_SIZE + |p.data|] == head + fill && b[HEADER_SIZE + |p.data|..] == after[|missing|..];
      SumConcat(head, fill);
      SumConcat(head, missing);
      assert p.data == head + missing;
      SumBound(head + fill);
      SumBound(p.data);
    }
  }

  /** A packet cut anywhere is taken as q if and only if the bytes behind it are those q's encoding goes on with. */
  lemma CutTakenAs(p: Packet, cut: nat, after: seq<byte>, q: Packet, rest: seq<byte>)
    requires |p.data| <= MAX_PAYLOAD && cut <= |Encode(p)|
    ensures Decode(Encode(p)[..cut] + after) == Some((q, rest)) <==>
            |q.data| <= MAX_PAYLOAD && Encode(p)[..cut] + after == Encode(q) + rest
  {
    hide Encode, Decode;
    var b := Encode(p)[..cut] + after;
    if Decode(b).Some? {
      OnlyEncodingsDecode(b);
    }
    if |q.data| <= MAX_PAYLOAD {
      RoundTrip(q, rest);
    }
  }

  /** With nothing behind it, a part of a packet is not taken for one. */
  lemma PartDecodes(p: Packet, b: seq<byte>)
    requires |p.data| <= MAX_PAYLOAD && b <= Encode(p)
    ensures Decode(b) == None || Decode(b) == Some((p, []))
  {
    hide HeaderBytes, ReadHeader, Sum, Magic;
    if |b| >= HEADER_SIZE {
      assert b == Encode(p)[..|b|] && b + [] == b;
      hide Encode, Decode;
      CutTakenIff(p, |b|, []);
      EncodeLength(p);
      assert |b| == |Encode(p)| ==> p.data[..|p.data|] + [] == p.data;
    }
  }

  const A_WRTE: u32 := 0x45545257

  lemma WrteStarts(q: Packet)
    requires q.command == A_WRTE && |q.data| <= MAX_PAYLOAD
    ensures |Encode(q)| >= 2 && Encode(q)[..2] == [0x57, 0x52]
  {
  }

  /** The first of two packets cut behind its header. */
  lemma CutBehindHeader(p: Packet, q: Packet)
    requires 0 < |p.data| <= MAX_PAYLOAD && |q.data| <= MAX_PAYLOAD
    ensures SentBytes([p, q], [Moves(HEADER_SIZE), Broken]) == Encode(p)[..HEADER_SIZE] + Encode(q)
  {
    var plan := [Moves(HEADER_SIZE), Broken];
    assert plan[1..] == [Broken] && [Broken][1..] == [];
    hide Encode;
    EncodeLength(p);
    assert WriteOutcome(|Encode(p)|, plan) == Moved(false, HEADER_SIZE, []) by {
      assert WriteOutcome(|p.data|, [Broken]) == Moved(false, 0, []);
    }
    assert [p, q][1..] == [q] && [q][1..] == [];
    assert SentBytes([q], []) == Encode(q) + [];
  }

  /** A write that fails behind the header, and works again for the next WRTE: its first bytes arrive as data. */
  lemma CutPacketIsTaken(q: Packet)
    requires q.command == A_WRTE && |q.data| <= MAX_PAYLOAD
    ensures var p := Packet(A_WRTE, 1, 1, [0x52, 0x57]);
            var rs := Received(SentBytes([p, q], [Moves(HEADER_SIZE), Broken]));
            |rs| >= 1 && rs[0] == Packet(A_WRTE, 1, 1, [0x57, 0x52]) && rs[0] != p
  {
    var p, after := Packet(A_WRTE, 1, 1, [0x52, 0x57]), Encode(q);
    hide Encode, Decode, HeaderBytes, Received, SentBytes;
    WrteStarts(q);
    CutBehindHeader(p, q);
    EncodeLength(p);
    CutTakenIff(p, HEADER_SIZE, after);
    assert p.data[0..] == p.data && p.data[..0] == [] && [] + after[..2] == after[..2];
    TwoBytes(0x52, 0x57);
    TwoBytes(0x57, 0x52);
    ReceivedFirst(Encode(p)[..HEADER_SIZE] + after, p.(data := [0x57, 0x52]), after[2..]);
  }

  lemma TwoBytes(a: byte, b: byte)
    ensures Sum([a, b]) == a + b
  {
    assert [a, b][1..] == [b] && [b][1..] == [];
    assert Sum([b]) == b + Sum([]);
  }
}
