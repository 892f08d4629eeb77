/**
 * The initramfs writer of core/cpio/mkbootfs.c and a reader for the "newc" format it
 * writes (buffer-format.txt of the Linux kernel). The two are inverse on every list of
 * entries none of which has the name of the trailer.
 */
module Cpio {
  import opened Basics
  import opened Hex

  const HEADER: nat := 110
  const FIELDS: nat := 13
  const FIRST_INODE: nat := 300000
  const BLOCK: nat := 256

  /** "070701" */
  const MAGIC: seq<byte> := [48, 55, 48, 55, 48, 49]

  /** "TRAILER!!!" */
  const TRAILER: seq<byte> := [84, 82, 65, 73, 76, 69, 82, 33, 33, 33]

  datatype Entry = Entry(name: seq<byte>, mode: nat, data: seq<byte>)

  /** What fits the fields: 32-bit numbers, and a name that is a C string. */
  predicate EntryOk(e: Entry) {
    e.mode < U32_END && |e.data| < U32_END && |e.name| + 1 < U32_END && 0 !in e.name
  }

  /** Bytes to the next multiple of 4. */
  function Gap4(at: nat): (g: nat)
    ensures g < 4 && (at + g) % 4 == 0
  {
    if at % 4 == 0 then 0 else 4 - at % 4
  }

  /** Bytes to the next multiple of 256. */
  function GapBlock(at: nat): (g: nat)
    ensures g < BLOCK && (at + g) % BLOCK == 0
  {
    if at % BLOCK == 0 then 0 else BLOCK - at % BLOCK
  }

  // One record.

  function FieldBytes(fs: seq<nat>): (b: seq<byte>)
    ensures |b| == 8 * |fs|
  {
    if fs == [] then [] else Print(fs[0], 8) + FieldBytes(fs[1..])
  }

  /** inode, mode, uid, gid, nlink, mtime, filesize, four device numbers, namesize, check. */
  function HeaderFields(inode: nat, e: Entry): (fs: seq<nat>)
    ensures |fs| == FIELDS
  {
    [inode, e.mode, 0, 0, 1, 0, |e.data|, 0, 0, 0, 0, |e.name| + 1, 0]
  }

  function HeaderBytes(inode: nat, e: Entry): (b: seq<byte>)
    ensures |b| == HEADER
  {
    MAGIC + FieldBytes(HeaderFields(inode, e))
  }

  /** What _eject emits when `at` bytes are out already. */
  function Record(at: nat, inode: nat, e: Entry): seq<byte> {
    var head := Zeros(Gap4(at)) + HeaderBytes(inode, e) + (e.name + [0]);
    head + Zeros(Gap4(at + |head|)) + e.data
  }

  // The reader.

  function FieldOf(h: seq<byte>, k: nat): Option<nat>
    requires |h| == HEADER && k < FIELDS
  {
    Value(h[6 + 8 * k..14 + 8 * k])
  }

  datatype Read = Read(entry: Entry, inode: nat, start: nat, body: nat, next: nat)

  /** The next record at or after position `at`, with where it starts and where its data starts. */
  function ReadRecord(b: seq<byte>, at: nat): Option<Read> {
    var start := at + Gap4(at);
    if start + HEADER > |b| || b[start..start + 6] != MAGIC then None
    else
      var h := b[start..start + HEADER];
      match (FieldOf(h, 0), FieldOf(h, 1), FieldOf(h, 6), FieldOf(h, 11))
      case (Some(inode), Some(mode), Some(size), Some(namesize)) =>
        var name := start + HEADER;
        if namesize == 0 || name + namesize > |b| || b[name + namesize - 1] != 0 then None
        else
          var body := name + namesize + Gap4(name + namesize);
          if body + size > |b| then None
          else Some(Read(Entry(b[name..name + namesize - 1], mode, b[body..body + size]), inode, start, body, body + size))
      case _ => None
  }

  lemma {:induction false} FieldBytesAt(fs: seq<nat>, k: nat)
    requires k < |fs|
    ensures FieldBytes(fs)[8 * k..8 * k + 8] == Print(fs[k], 8)
  {
    var b, first := FieldBytes(fs), Print(fs[0], 8);
    if k == 0 {
      assert b[0..8] == first;
    } else {
      FieldBytesAt(fs[1..], k - 1);
      assert b[8 * k..8 * k + 8] == FieldBytes(fs[1..])[8 * (k - 1)..8 * (k - 1) + 8];
    }
  }

  lemma FieldReads(inode: nat, e: Entry, k: nat)
    requires k < FIELDS && HeaderFields(inode, e)[k] < U32_END
    ensures FieldOf(HeaderBytes(inode, e), k) == Some(HeaderFields(inode, e)[k])
  {
    var fs := HeaderFields(inode, e);
    FieldBytesAt(fs, k);
    PowersOf16();
    PrintValue(fs[k], 8);
    hide Print, Value, FieldBytes, HeaderFields, Pow16;
    FieldInHeader(MAGIC, FieldBytes(fs), k);
  }

  lemma FieldInHeader(magic: seq<byte>, fields: seq<byte>, k: nat)
    requires |magic| == 6 && 8 * k + 8 <= |fields|
    ensures (magic + fields)[6 + 8 * k..14 + 8 * k] == fields[8 * k..8 * k + 8]
  {
  }

  /** The four fields that a reader needs. */
  lemma HeaderReads(inode: nat, e: Entry)
    requires EntryOk(e) && inode < U32_END
    ensures var h := HeaderBytes(inode, e);
            && h[..6] == MAGIC
            && FieldOf(h, 0) == Some(inode) && FieldOf(h, 1) == Some(e.mode)
            && FieldOf(h, 6) == Some(|e.data|) && FieldOf(h, 11) == Some(|e.name| + 1)
  {
    HeaderMagic(inode, e);
    FieldReads(inode, e, 0);
    FieldReads(inode, e, 1);
    FieldReads(inode, e, 6);
    FieldReads(inode, e, 11);
    hide FieldOf, HeaderBytes;
  }

  /** "070701", then thirteen numbers of eight hexadecimal digits. */
  lemma HeaderLayout(inode: nat, e: Entry, k: nat)
    requires EntryOk(e) && inode < U32_END && k < 13
    ensures var h := HeaderBytes(inode, e);
            && |h| == 110 && h[..6] == [48, 55, 48, 55, 48, 49]
            && Value(h[6 + 8 * k..14 + 8 * k]) == Some([inode, e.mode, 0, 0, 1, 0, |e.data|, 0, 0, 0, 0, |e.name| + 1, 0][k])
  {
    HeaderMagic(inode, e);
    FieldReads(inode, e, k);
    hide HeaderBytes, Value;
  }

  // Where the parts of a record lie, when it follows `at` bytes.

  function StartAt(at: nat): (p: nat)
    ensures p >= at && p % 4 == 0
  {
    at + Gap4(at)
  }

  function NameEnd(at: nat, e: Entry): nat {
    StartAt(at) + HEADER + |e.name| + 1
  }

  function BodyAt(at: nat, e: Entry): (p: nat)
    ensures p >= NameEnd(at, e) && p % 4 == 0
  {
    NameEnd(at, e) + Gap4(NameEnd(at, e))
  }

  /** The bytes at `at` spell the record of an entry. */
  predicate Spelled(b: seq<byte>, at: nat, inode: nat, e: Entry) {
    && BodyAt(at, e) + |e.data| <= |b|
    && b[StartAt(at)..StartAt(at) + HEADER] == HeaderBytes(inode, e)
    && b[StartAt(at) + HEADER..NameEnd(at, e)] == e.name + [0]
    && b[BodyAt(at, e)..BodyAt(at, e) + |e.data|] == e.data
  }

  lemma RecordParts(at: nat, inode: nat, e: Entry)
    ensures var r, s := Record(at, inode, e), StartAt(at) - at;
            var n, d := NameEnd(at, e) - at, BodyAt(at, e) - at;
            && |r| == d + |e.data|
            && r[s..s + HEADER] == HeaderBytes(inode, e)
            && r[s + HEADER..n] == e.name + [0]
            && r[d..|r|] == e.data
  {
    hide HeaderBytes, Gap4, Zeros;
    var z, h, nm := Zeros(Gap4(at)), HeaderBytes(inode, e), e.name + [0];
    assert at + |z + h + nm| == NameEnd(at, e);
    PartsLie(z, h, nm, Zeros(Gap4(NameEnd(at, e))), e.data);
  }

  /** What is not header, name or data is zero. */
  lemma RecordPads(at: nat, inode: nat, e: Entry, i: nat)
    requires i < StartAt(at) - at || NameEnd(at, e) - at <= i < BodyAt(at, e) - at
    ensures i < |Record(at, inode, e)| && Record(at, inode, e)[i] == 0
  {
    hide HeaderBytes, Gap4;
    var z, h, nm := Zeros(Gap4(at)), HeaderBytes(inode, e), e.name + [0];
    assert at + |z + h + nm| == NameEnd(at, e);
  }

  lemma PartsLie(z: seq<byte>, h: seq<byte>, nm: seq<byte>, pad: seq<byte>, d: seq<byte>)
    ensures var r := z + h + nm + pad + d;
            var i, j := |z| + |h|, |z| + |h| + |nm|;
            r[|z|..i] == h && r[i..j] == nm && r[j + |pad|..|r|] == d
  {
    var r := z + h + nm + pad + d;
    assert r == z + h + (nm + pad + d);
    PartLies(z, h, nm + pad + d);
    assert r == (z + h) + nm + (pad + d);
    PartLies(z + h, nm, pad + d);
    PartLies(z + h + nm + pad, d, []);
    assert r == r + [];
  }

  lemma PartLies(a: seq<byte>, b: seq<byte>, c: seq<byte>)
    ensures (a + b + c)[|a|..|a| + |b|] == b
  {
  }

  lemma SliceIn(pre: seq<byte>, r: seq<byte>, rest: seq<byte>, i: nat, j: nat)
    requires i <= j <= |r|
    ensures (pre + r + rest)[|pre| + i..|pre| + j] == r[i..j]
  {
  }

  lemma NameWithNul(b: seq<byte>, at: nat, name: seq<byte>)
    requires at + |name| + 1 <= |b| && b[at..at + |name| + 1] == name + [0]
    ensures b[at..at + |name|] == name && b[at + |name|] == 0
  {
    var s := b[at..at + |name| + 1];
    assert s[|name|] == b[at + |name|];
    assert b[at..at + |name|] == s[..|name|];
  }

  /** Bytes that lie where the format wants them are read as the entry they spell. */
  lemma ReadOf(b: seq<byte>, at: nat, inode: nat, e: Entry)
    requires EntryOk(e) && inode < U32_END && Spelled(b, at, inode, e)
    ensures ReadRecord(b, at) == Some(Read(e, inode, StartAt(at), BodyAt(at, e), BodyAt(at, e) + |e.data|))
  {
    HeaderReads(inode, e);
    hide FieldOf, HeaderBytes, Gap4, Value;
    SpelledParts(b, at, inode, e);
    hide Spelled;
  }

  /** What a reader looks at. */
  lemma SpelledParts(b: seq<byte>, at: nat, inode: nat, e: Entry)
    requires Spelled(b, at, inode, e)
    ensures var start, name := StartAt(at), StartAt(at) + HEADER;
            && name + (|e.name| + 1) <= |b| && BodyAt(at, e) + |e.data| <= |b|
            && b[start..name] == HeaderBytes(inode, e) && b[start..start + 6] == HeaderBytes(inode, e)[..6]
            && b[name + (|e.name| + 1) - 1] == 0 && b[name..name + (|e.name| + 1) - 1] == e.name
            && b[BodyAt(at, e)..BodyAt(at, e) + |e.data|] == e.data
  {
    hide HeaderBytes, Gap4;
    FirstSix(b, StartAt(at));
    NameWithNul(b, StartAt(at) + HEADER, e.name);
  }

  lemma FirstSix(b: seq<byte>, start: nat)
    requires start + HEADER <= |b|
    ensures b[start..start + 6] == b[start..start + HEADER][..6]
  {
  }

  lemma RecordSpells(pre: seq<byte>, inode: nat, e: Entry, rest: seq<byte>)
    ensures var r := Record(|pre|, inode, e);
            Spelled(pre + r + rest, |pre|, inode, e) && |pre + r| == BodyAt(|pre|, e) + |e.data|
  {
    var at, r := |pre|, Record(|pre|, inode, e);
    RecordParts(at, inode, e);
    SliceIn(pre, r, rest, 0, |r|);
    assert r[0..|r|] == r;
    SpelledBy(pre + r + rest, at, inode, e);
  }

  lemma SpelledBy(b: seq<byte>, at: nat, inode: nat, e: Entry)
    requires var r := Record(at, inode, e); at + |r| <= |b| && b[at..at + |r|] == r
    ensures Spelled(b, at, inode, e)
  {
    hide Record, HeaderBytes, Gap4;
    var r, s, n, d := Record(at, inode, e), StartAt(at) - at, NameEnd(at, e) - at, BodyAt(at, e) - at;
    assert 0 <= s && s + HEADER <= n <= d;
    RecordParts(at, inode, e);
    hide StartAt, NameEnd, BodyAt;
    assert b[at + s..at + (s + HEADER)] == HeaderBytes(inode, e) by { SubSlice(b, at, |r|, s, s + HEADER); }
    assert b[at + (s + HEADER)..at + n] == e.name + [0] by { SubSlice(b, at, |r|, s + HEADER, n); }
    assert b[at + d..at + |r|] == e.data by { SubSlice(b, at, |r|, d, |r|); }
  }

  lemma SubSlice(b: seq<byte>, at: nat, len: nat, i: nat, j: nat)
    requires at + len <= |b| && i <= j <= len
    ensures b[at..at + len][i..j] == b[at + i..at + j]
  {
    var s, t := b[at..at + len][i..j], b[at + i..at + j];
    forall k | 0 <= k < |s| ensures s[k] == t[k] {
    }
  }

  /** A record is read back as the entry it was made from, wherever it stands. */
  lemma ReadBack(pre: seq<byte>, inode: nat, e: Entry, rest: seq<byte>)
    requires EntryOk(e) && inode < U32_END
    ensures var r := Record(|pre|, inode, e);
            ReadRecord(pre + r + rest, |pre|) == Some(Read(e, inode, StartAt(|pre|), BodyAt(|pre|, e), |pre + r|))
  {
    RecordSpells(pre, inode, e, rest);
    ReadOf(pre + Record(|pre|, inode, e) + rest, |pre|, inode, e);
  }

  lemma HeaderMagic(inode: nat, e: Entry)
    ensures HeaderBytes(inode, e)[..6] == MAGIC
  {
  }

  // Whole archives.

  /** The records of a list of entries, one after the other, with inode numbers counting up. */
  function Records(es: seq<Entry>): seq<byte> {
    if es == [] then []
    else
      var n := |es| - 1;
      var pre := Records(es[..n]);
      pre + Record(|pre|, FIRST_INODE + n, es[n])
  }

  function Trailer(mode: nat): Entry {
    Entry(TRAILER, mode, [])
  }

  /** All entries, the trailer, and zeros up to a block. */
  function Archive(es: seq<Entry>, trailerMode: nat): seq<byte> {
    var all := Records(es + [Trailer(trailerMode)]);
    all + Zeros(GapBlock(|all|))
  }

  predicate AllOk(es: seq<Entry>) {
    FIRST_INODE + |es| < U32_END && forall e :: e in es ==> EntryOk(e)
  }

  /** Records up to the trailer; None if the bytes are no archive. */
  function ReadAll(b: seq<byte>, at: nat): Option<seq<Read>>
    decreases |b| - at
  {
    match ReadRecord(b, at)
    case None => None
    case Some(r) =>
      if r.entry.name == TRAILER then Some([])
      else
        match ReadAll(b, r.next)
        case None => None
        case Some(rs) => Some([r] + rs)
  }

  /** The entries before the first that is called like the trailer. */
  function BeforeTrailer(es: seq<Entry>): seq<Entry> {
    if es == [] || es[0].name == TRAILER then [] else [es[0]] + BeforeTrailer(es[1..])
  }

  lemma {:induction false} RecordsPrefix(es: seq<Entry>, k: nat)
    requires k <= |es|
    ensures Records(es[..k]) <= Records(es)
  {
    if k == |es| {
      assert es[..k] == es;
    } else {
      RecordsPrefix(es[..|es| - 1], k);
      assert es[..|es| - 1][..k] == es[..k];
    }
  }

  /** An archive splits at every record. */
  lemma RecordAt(es: seq<Entry>, k: nat, zeros: seq<byte>)
    requires k < |es|
    ensures var pre, b := Records(es[..k]), Records(es) + zeros;
            var next := pre + Record(|pre|, FIRST_INODE + k, es[k]);
            next == Records(es[..k + 1]) && next <= b && b == next + b[|next|..]
  {
    hide Record;
    assert es[..k + 1][..k] == es[..k];
    RecordsPrefix(es, k + 1);
  }

  /** What is read from the k-th record on. */
  ghost predicate ReadsAs(rs: seq<Read>, es: seq<Entry>, k: nat) {
    && |rs| == |es|
    && forall i :: 0 <= i < |rs| ==>
         && rs[i].entry == es[i] && rs[i].inode == 300000 + k + i
         && rs[i].start % 4 == 0 && rs[i].body % 4 == 0
  }

  /** The k-th record of an archive is read as the k-th entry, and leads to the next one. */
  lemma ReadKth(es: seq<Entry>, k: nat, zeros: seq<byte>)
    requires k < |es| && EntryOk(es[k]) && FIRST_INODE + k < U32_END
    ensures var r := ReadRecord(Records(es) + zeros, |Records(es[..k])|);
            && r.Some? && r.value.entry == es[k] && r.value.inode == FIRST_INODE + k
            && r.value.start % 4 == 0 && r.value.body % 4 == 0
            && r.value.next == |Records(es[..k + 1])|
  {
    var pre, b := Records(es[..k]), Records(es) + zeros;
    RecordAt(es, k, zeros);
    hide Records, Record, ReadRecord, EntryOk;
    var next := pre + Record(|pre|, FIRST_INODE + k, es[k]);
    ReadBack(pre, FIRST_INODE + k, es[k], b[|next|..]);
  }

  lemma ReadsCons(r: Read, rs: seq<Read>, es: seq<Entry>, k: nat)
    requires es != [] && es[0].name != TRAILER
    requires ReadsAs(rs, BeforeTrailer(es[1..]), k + 1)
    requires r.entry == es[0] && r.inode == FIRST_INODE + k && r.start % 4 == 0 && r.body % 4 == 0
    ensures ReadsAs([r] + rs, BeforeTrailer(es), k)
  {
    var rest, all := BeforeTrailer(es[1..]), [r] + rs;
    assert BeforeTrailer(es) == [es[0]] + rest;
    forall i | 0 <= i < |all|
      ensures all[i].entry == ([es[0]] + rest)[i] && all[i].inode == FIRST_INODE + k + i
      ensures all[i].start % 4 == 0 && all[i].body % 4 == 0
    {
      if i > 0 {
        assert all[i] == rs[i - 1];
      }
    }
  }

  lemma {:induction false} ReadFrom(es: seq<Entry>, trailer: Entry, k: nat, zeros: seq<byte>)
    requires AllOk(es) && EntryOk(trailer) && trailer.name == TRAILER && k <= |es|
    ensures var all := es + [trailer];
            var rs := ReadAll(Records(all) + zeros, |Records(all[..k])|);
            rs.Some? && ReadsAs(rs.value, BeforeTrailer(es[k..]), k)
    decreases |es| - k
  {
    hide Records, ReadRecord, EntryOk, ReadsAs, BeforeTrailer;
    var all := es + [trailer];
    ReadKth(all, k, zeros);
    var b, at := Records(all) + zeros, |Records(all[..k])|;
    var r := ReadRecord(b, at).value;
    if k == |es| || es[k].name == TRAILER {
      assert ReadAll(b, at) == Some([]);
      ReadsNothing(es[k..], k);
    } else {
      ReadFrom(es, trailer, k + 1, zeros);
      assert es[k..][1..] == es[k + 1..];
      ReadsCons(r, ReadAll(b, r.next).value, es[k..], k);
    }
  }

  lemma ReadsNothing(es: seq<Entry>, k: nat)
    requires es == [] || es[0].name == TRAILER
    ensures ReadsAs([], BeforeTrailer(es), k)
  {
  }

  /** Every archive is read as the entries before the first one called like the trailer. */
  lemma ArchiveReads(es: seq<Entry>, trailerMode: nat)
    requires AllOk(es) && trailerMode < U32_END
    ensures var rs := ReadAll(Archive(es, trailerMode), 0);
            rs.Some? && ReadsAs(rs.value, BeforeTrailer(es), 0)
    ensures |Archive(es, trailerMode)| % BLOCK == 0
  {
    hide ReadAll, ReadsAs, BeforeTrailer;
    var all := es + [Trailer(trailerMode)];
    assert all[..0] == [] && es[0..] == es;
    ReadFrom(es, Trailer(trailerMode), 0, Zeros(GapBlock(|Records(all)|)));
  }

  /** Behind the trailer come fewer than 256 zeros, up to a multiple of 256. */
  lemma ArchiveEnds(es: seq<Entry>, trailerMode: nat)
    ensures var all, b := Records(es + [Trailer(trailerMode)]), Archive(es, trailerMode);
            && |b| % 256 == 0 && |all| <= |b| < |all| + 256 && b[..|all|] == all
            && forall i :: |all| <= i < |b| ==> b[i] == 0
  {
    hide Records;
  }

  lemma {:induction false} BeforeTrailerIff(es: seq<Entry>)
    ensures BeforeTrailer(es) == es <==> forall e :: e in es ==> e.name != TRAILER
  {
    if es != [] {
      BeforeTrailerIff(es[1..]);
      assert es == [es[0]] + es[1..];
      if es[0].name != TRAILER {
        assert BeforeTrailer(es)[1..] == BeforeTrailer(es[1..]);
      } else {
        assert es[0] in es;
      }
    }
  }

  /** The archive holds exactly the given entries if and only if none is called like the trailer. */
  lemma RoundTripIff(es: seq<Entry>, trailerMode: nat)
    requires AllOk(es) && trailerMode < U32_END
    ensures var rs := ReadAll(Archive(es, trailerMode), 0);
            rs.Some? && (ReadsAs(rs.value, es, 0) <==> forall e :: e in es ==> e.name != TRAILER)
  {
    ArchiveReads(es, trailerMode);
    BeforeTrailerIff(es);
    hide Archive, ReadAll, BeforeTrailer;
    var rs := ReadAll(Archive(es, trailerMode), 0).value;
    if ReadsAs(rs, es, 0) {
      forall i | 0 <= i < |es|
        ensures BeforeTrailer(es)[i] == es[i]
      {
        assert rs[i].entry == es[i];
      }
      assert BeforeTrailer(es) == es;
    }
  }

  // The writer in place.

  /** A number kept in an int of 32 bits, which wraps. */
  function Int32(x: int): int {
    if x % U32_END < 0x8000_0000 then x % U32_END else x % U32_END - U32_END
  }

  /** A 32-bit int: in range, and congruent. */
  lemma Int32Is(x: int)
    ensures -0x8000_0000 <= Int32(x) < 0x8000_0000 && (x - Int32(x)) % 0x1_0000_0000 == 0
  {
    var q := x / U32_END;
    assert x - Int32(x) == U32_END * q || x - Int32(x) == U32_END * (q + 1);
  }

  lemma Int32Adds(x: int, y: int)
    ensures Int32(Int32(x) + y) == Int32(x + y)
  {
  }

  /** The low bits that the padding loops look at do not change. */
  lemma Int32LowBits(x: int)
    ensures Int32(x) % 4 == x % 4 && Int32(x) % BLOCK == x % BLOCK
  {
    var q := x / U32_END;
    var m := if x % U32_END < 0x8000_0000 then q else q + 1;
    assert x == Int32(x) + U32_END * m;
    hide Int32;
    Multiple4(Int32(x), 0x4000_0000 * m);
    MultipleBlock(Int32(x), 0x100_0000 * m);
  }

  lemma Multiple4(x: int, a: int)
    ensures (x + 4 * a) % 4 == x % 4
  {
  }

  lemma MultipleBlock(x: int, a: int)
    ensures (x + 256 * a) % 256 == x % 256
  {
  }

  lemma OneZeroMore(out: seq<byte>, k: nat)
    ensures out + Zeros(k) + [0] == out + Zeros(k + 1)
  {
    assert Zeros(k + 1) == Zeros(k) + [0];
  }

  class Writer {
    var out: seq<byte>
    /** total_size, an int: it wraps when the archive grows beyond 2^31 bytes. */
    var totalSize: int
    var nextInode: nat
    /** The entries emitted so far. */
    ghost var entries: seq<Entry>

    ghost predicate Valid()
      reads this
    {
      totalSize == Int32(|out|) && nextInode == FIRST_INODE + |entries| && out == Records(entries)
    }

    constructor ()
      ensures Valid() && entries == []
    {
      out, totalSize, nextInode, entries := [], 0, FIRST_INODE, [];
    }

    /** putchar, counted. */
    method PutZero()
      requires totalSize == Int32(|out|)
      modifies this`out, this`totalSize
      ensures out == old(out) + [0] && totalSize == Int32(|out|)
    {
      Int32Adds(|out|, 1);
      totalSize := Int32(totalSize + 1);
      out := out + [0];
    }

    /** The padding loops: a zero byte at a time until total_size is aligned. */
    method Pad4()
      requires totalSize == Int32(|out|)
      modifies this`out, this`totalSize
      ensures out == old(out) + Zeros(Gap4(|old(out)|)) && totalSize == Int32(|out|)
    {
      hide Int32, Zeros;
      ghost var n := Gap4(|out|);
      assert out + Zeros(0) == out;
      ghost var k := 0;
      Int32LowBits(|out|);
      while totalSize % 4 != 0
        invariant 0 <= k <= n && totalSize == Int32(|out|) && out == old(out) + Zeros(k)
        invariant totalSize % 4 == |out| % 4
        decreases n - k
      {
        PutZero();
        Int32LowBits(|out|);
        OneZeroMore(old(out), k);
        k := k + 1;
      }
    }

    method PadBlock()
      requires totalSize == Int32(|out|)
      modifies this`out, this`totalSize
      ensures out == old(out) + Zeros(GapBlock(|old(out)|)) && totalSize == Int32(|out|)
    {
      hide Int32, Zeros;
      ghost var n := GapBlock(|out|);
      assert out + Zeros(0) == out;
      ghost var k := 0;
      Int32LowBits(|out|);
      while totalSize % BLOCK != 0
        invariant 0 <= k <= n && totalSize == Int32(|out|) && out == old(out) + Zeros(k)
        invariant totalSize % BLOCK == |out| % BLOCK
        decreases n - k
      {
        PutZero();
        Int32LowBits(|out|);
        OneZeroMore(old(out), k);
        k := k + 1;
      }
    }

    /** Write some bytes; total_size is the int the source counts in. */
    method Put(data: seq<byte>, count: nat)
      requires totalSize == Int32(|out|) && count == |data|
      modifies this`out, this`totalSize
      ensures out == old(out) + data && totalSize == Int32(|out|)
    {
      hide Int32;
      Int32Adds(|out|, count);
      out := out + data;
      totalSize := Int32(totalSize + count);
    }

    /** The writes of _eject. */
    method EjectBytes(e: Entry)
      requires totalSize == Int32(|out|)
      modifies this`out, this`totalSize, this`nextInode
      ensures out == old(out) + Record(|old(out)|, old(nextInode), e) && totalSize == Int32(|out|)
      ensures nextInode == old(nextInode) + 1
    {
      hide HeaderBytes, Gap4, Record, Zeros, Int32;
      EjectIsRecord(out, nextInode, e);
      Pad4();
      Put(HeaderBytes(nextInode, e) + (e.name + [0]), 6 + 8 * 13 + |e.name| + 1);
      nextInode := nextInode + 1;
      Pad4();
      if |e.data| > 0 {
        Put(e.data, |e.data|);
      }
    }

    /** _eject, with the mode as fix_stat left it. */
    method Eject(e: Entry)
      requires Valid()
      modifies this
      ensures Valid() && entries == old(entries) + [e]
    {
      hide Record, Int32;
      EjectBytes(e);
      entries := entries + [e];
      assert entries[..|entries| - 1] == old(entries);
    }

    /** _eject_trailer: from then on the output is the archive of the entries before it. */
    method EjectTrailer(mode: nat)
      requires Valid()
      modifies this
      ensures out == Archive(old(entries), mode) && totalSize == Int32(|out|)
    {
      Eject(Trailer(mode));
      PadBlock();
    }
  }

  lemma EjectIsRecord(pre: seq<byte>, inode: nat, e: Entry)
    ensures var head := pre + Zeros(Gap4(|pre|)) + (HeaderBytes(inode, e) + (e.name + [0]));
            head + Zeros(Gap4(|head|)) + e.data == pre + Record(|pre|, inode, e)
  {
    hide HeaderBytes, Gap4;
    var z, h, nm := Zeros(Gap4(|pre|)), HeaderBytes(inode, e), e.name + [0];
    var head := pre + z + (h + nm);
    assert head == pre + (z + h + nm);
    var pad := Zeros(Gap4(|head|));
    assert pre + (z + h + nm) + pad + e.data == pre + ((z + h + nm) + pad + e.data);
  }
}
