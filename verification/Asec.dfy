/**
 * The layout of ASEC containers in vold: createAsec sizes an image file and puts a superblock
 * behind the sectors it maps, mountAsec finds that superblock again from the device size alone.
 * unsigned is 32 bits wide and wraps.
 */
module Asec {
  import opened Basics
  import opened Wire

  const SECTOR: nat := 512
  const TRACK: nat := 63
  const ASEC_SB_MAGIC: u32 := 0xc0de_f00d
  const ASEC_SB_VER: byte := 1
  const SB_SIZE: nat := 9

  function Wrap(x: int): nat {
    x % U32_END
  }

  /** The sector count that the command listener computes from its argument; C division truncates. */
  function Sectors(mb: int): nat {
    var bytes := mb * (1024 * 1024);
    Wrap(if bytes >= 0 then bytes / 512 else -(-bytes / 512))
  }

  /** The argument times a megabyte is an int. */
  predicate IsInt(mb: int) {
    -2048 <= mb <= 2047
  }

  function FatSize(numSectors: nat): nat {
    Wrap((Wrap(numSectors * 4) / 512 + 1) * 2)
  }

  function ImgSectors(numSectors: nat): nat {
    var n := Wrap(numSectors + FatSize(numSectors) + 2);
    if n % TRACK != 0 then Wrap(n + (TRACK - n % TRACK)) else n
  }

  /** Room for the data, two tables of four bytes a sector with one spare sector each, and two more. */
  function Needed(numSectors: nat): nat {
    numSectors + 2 * (numSectors * 4 / 512 + 1) + 2
  }

  predicate LeastWhole(n: nat, needed: nat) {
    n % TRACK == 0 && needed <= n && forall m: nat :: m % TRACK == 0 && needed <= m ==> n <= m
  }

  function RoundUp(n: nat): nat {
    if n % TRACK != 0 then n + (TRACK - n % TRACK) else n
  }

  lemma RoundUpIsLeast(n: nat)
    ensures LeastWhole(RoundUp(n), n) && RoundUp(n) < n + TRACK
  {
    var q, r := n / 63, n % 63;
    assert n == 63 * q + r;
    var q' := if r != 0 then q + 1 else q;
    Multiple(q');
    assert RoundUp(n) == 63 * q';
    forall m: nat | m % TRACK == 0 && n <= m ensures RoundUp(n) <= m {
      assert m == 63 * (m / 63);
    }
  }

  lemma Multiple(q: nat)
    ensures 63 * q % 63 == 0
  {
  }

  lemma WrapIs(x: int, q: int)
    requires 0 <= x - q * U32_END < U32_END
    ensures Wrap(x) == x - q * U32_END
  {
  }

  lemma Halves(k: int)
    ensures 512 * k / 512 == k
  {
  }

  lemma SectorsOf(mb: int)
    requires IsInt(mb)
    ensures Sectors(mb) == if mb >= 0 then 2048 * mb else U32_END + 2048 * mb
  {
    var bytes := mb * (1024 * 1024);
    Halves(2048 * mb);
    Halves(-2048 * mb);
    assert bytes == 512 * (2048 * mb) && -bytes == 512 * (-2048 * mb);
    WrapIs(2048 * mb, if mb >= 0 then 0 else -1);
    hide Wrap;
  }

  lemma FatSizeOf(mb: int)
    requires 1 <= mb <= 2047
    ensures FatSize(2048 * mb) == 32 * mb + 2 && Needed(2048 * mb) == 2080 * mb + 4
  {
    WrapIs(2048 * mb * 4, 0);
    Halves(16 * mb);
    assert 2048 * mb * 4 == 512 * (16 * mb);
    WrapIs((16 * mb + 1) * 2, 0);
    hide Wrap;
  }

  lemma NothingWraps(mb: int)
    requires 1 <= mb <= 2047
    ensures Sectors(mb) == 2048 * mb && Needed(2048 * mb) == 2080 * mb + 4
    ensures ImgSectors(2048 * mb) == RoundUp(2080 * mb + 4)
  {
    SectorsOf(mb);
    FatSizeOf(mb);
    RoundUpIsLeast(2080 * mb + 4);
    WrapIs(2080 * mb + 4, 0);
    WrapIs(RoundUp(2080 * mb + 4), 0);
    hide Wrap, FatSize, Needed, Sectors, LeastWhole;
  }

  /** From 1 to 2047 megabytes nothing wraps and the image is the least that holds what it must. */
  lemma SizedRight(mb: int)
    requires 1 <= mb <= 2047
    ensures Sectors(mb) == 2048 * mb && Needed(Sectors(mb)) == 2080 * mb + 4
    ensures LeastWhole(ImgSectors(Sectors(mb)), 2080 * mb + 4)
    ensures (ImgSectors(Sectors(mb)) + 1) * SECTOR < U32_END
  {
    hide Sectors, ImgSectors, Needed, RoundUp, LeastWhole;
    NothingWraps(mb);
    RoundUpIsLeast(2080 * mb + 4);
  }

  lemma NegativeFat(mb: int)
    requires -2048 <= mb < 0
    ensures FatSize(U32_END + 2048 * mb) == 2 * (8388608 + 16 * mb + 1)
  {
    var ns := U32_END + 2048 * mb;
    WrapIs(ns * 4, 3);
    Halves(8388608 + 16 * mb);
    assert ns * 4 - 3 * U32_END == 512 * (8388608 + 16 * mb);
    WrapIs(2 * (8388608 + 16 * mb + 1), 0);
    hide Wrap;
  }

  lemma NegativeSize(mb: int)
    requires -2048 <= mb < 0
    ensures ImgSectors(Sectors(mb)) < Needed(Sectors(mb)) && Sectors(mb) >= 2048
  {
    SectorsOf(mb);
    NegativeFat(mb);
    var n := 16777220 + 2080 * mb;
    WrapIs(U32_END + n, 1);
    WrapIs(RoundUp(n), 0);
    hide Wrap, FatSize, Sectors;
  }

  /** Zero is refused; a negative size is not, and what it gets cannot hold what was asked for. */
  lemma SizedIff(mb: int)
    requires IsInt(mb)
    ensures Sectors(mb) < 2048 <==> mb == 0
    ensures mb != 0 ==> (ImgSectors(Sectors(mb)) >= Needed(Sectors(mb)) <==> mb >= 1)
  {
    if mb >= 1 {
      hide ImgSectors, Needed;
      SizedRight(mb);
    } else if mb < 0 {
      hide ImgSectors, Needed;
      NegativeSize(mb);
    }
  }

  /** With a signed 32-bit off_t the file can be made exactly up to 2016 megabytes. */
  lemma OffsetFitsIff(mb: int)
    requires 1 <= mb <= 2047
    ensures (ImgSectors(Sectors(mb)) + 1) * SECTOR < 0x8000_0000 <==> mb <= 2016
  {
    hide Sectors, ImgSectors, Needed;
    NothingWraps(mb);
    RoundUpIsLeast(2080 * mb + 4);
    if mb >= 2017 {
      assert RoundUp(2080 * mb + 4) >= 2080 * 2017 + 4;
    } else {
      Multiple(66576);
      assert RoundUp(2080 * mb + 4) <= 63 * 66576;
    }
  }

  function Superblock(cipher: byte): (b: seq<byte>)
    ensures |b| == SB_SIZE
  {
    Le32(ASEC_SB_MAGIC) + [ASEC_SB_VER, cipher, 0, 0, 0]
  }

  /** Where the fields of a superblock lie. */
  lemma SuperblockLayout(cipher: byte)
    ensures var b := Superblock(cipher);
            |b| == 9 && WordAt(b, 0, 0xc0de_f00d) && b[4..] == [1, cipher, 0, 0, 0]
  {
    hide Le32, WordAt;
    assert Superblock(cipher)[0..4] == Le32(ASEC_SB_MAGIC);
    WordLies(Superblock(cipher), 0, ASEC_SB_MAGIC);
  }

  /** The magic and version that mountAsec asks for. */
  predicate Recognised(b: seq<byte>) {
    |b| == SB_SIZE && FromLe32(b[..4]) == ASEC_SB_MAGIC && b[4] == ASEC_SB_VER
  }

  /** An unsigned passed as an off_t: with 32 bits it turns negative from 2^31 on, which is refused. */
  predicate IsOffset(x: nat, narrow: bool) {
    narrow ==> x < 0x8000_0000
  }

  /** The loop device over the image file. */
  class Image {
    var bytes: seq<byte>

    constructor ()
      ensures bytes == []
    {
      bytes := [];
    }

    /** The superblock of a container of `mapped` sectors is behind them, and nothing is behind it. */
    ghost predicate Sealed(mapped: nat, cipher: byte)
      reads this
    {
      && |bytes| == (mapped + 1) * SECTOR < U32_END
      && bytes[mapped * SECTOR..mapped * SECTOR + SB_SIZE] == Superblock(cipher)
    }

    /** lseek and write; nothing beyond the end can be written. */
    method Put(at: nat, data: seq<byte>) returns (ok: bool)
      modifies this
      ensures ok == (at + |data| <= |old(bytes)|)
      ensures bytes == if ok then old(bytes)[..at] + data + old(bytes)[at + |data|..] else old(bytes)
    {
      ok := at + |data| <= |bytes|;
      if ok {
        bytes := bytes[..at] + data + bytes[at + |data|..];
      }
    }

    /** createAsec: the size of the mapping, or an error. `narrow` is whether off_t has 32 bits. */
    method Create(mb: int, encrypted: bool, narrow: bool) returns (mapped: Option<nat>)
      requires IsInt(mb)
      modifies this
      ensures mb == 0 ==> mapped.None? && bytes == old(bytes)
      ensures mapped.Some? ==> mapped.value == ImgSectors(Sectors(mb))
      ensures mb >= 1 ==> (mapped.Some? <==> narrow ==> mb <= 2016)
      ensures mb >= 1 && mapped.Some? ==> Sealed(mapped.value, if encrypted then 1 else 0)
    {
      SizedIff(mb);
      var numSectors := Sectors(mb);
      if numSectors < 1024 * 1024 / 512 {
        return None;
      }
      var numImgSectors := ImageSize(numSectors);
      if mb >= 1 {
        SizedRight(mb);
        OffsetFitsIff(mb);
        Small(numImgSectors);
      }
      hide Sectors, ImgSectors, Superblock, Needed, LeastWhole, Wrap;
      bytes := [];
      var size := Wrap(Wrap(numImgSectors + 1) * 512);
      if !IsOffset(size, narrow) {
        return None;
      }
      bytes := seq(size, _ => 0);
      var cipher: byte := if encrypted then 1 else 0;
      var at := Wrap(numImgSectors * 512);
      if !IsOffset(at, narrow) {
        return None;
      }
      if at + SB_SIZE <= |bytes| {
        Spliced(bytes, at, Superblock(cipher));
      }
      var ok := Put(at, Superblock(cipher));
      mapped := if ok then Some(numImgSectors) else None;
    }

    /** Whatever is done through the mapping, or by a file system of that many sectors, keeps the seal. */
    method MappedWrite(at: nat, data: seq<byte>, ghost mapped: nat, ghost cipher: byte)
      requires Sealed(mapped, cipher) && at + |data| <= mapped * SECTOR
      modifies this
      ensures Sealed(mapped, cipher) && bytes[at..at + |data|] == data
    {
      hide Superblock;
      ghost var before := bytes;
      SplicedKeeps(before, at, data, mapped * SECTOR, mapped * SECTOR + SB_SIZE);
      Spliced(before, at, data);
      var ok := Put(at, data);
    }

    /** mountAsec: the mapping it sets up, or an error; a 32-bit off_t cannot seek beyond 2^31. */
    method Mount(narrow: bool) returns (mapped: Option<nat>)
      requires |bytes| < U32_END
      ensures mapped.Some? <==>
              var at := (|bytes| / SECTOR - 1) * SECTOR;
              |bytes| >= SECTOR && (narrow ==> at < 0x8000_0000) && Recognised(bytes[at..at + SB_SIZE])
      ensures mapped.Some? ==> (mapped.value + 1) * SECTOR <= |bytes|
      ensures forall m: nat, c :: Sealed(m, c) ==> mapped == if narrow ==> m * SECTOR < 0x8000_0000 then Some(m) else None
    {
      hide Recognised, Superblock, Wrap;
      var nrSec := |bytes| / SECTOR;
      SeekToLast(|bytes|);
      var at := Wrap(Wrap(nrSec - 1) * 512);
      if narrow && at >= 0x8000_0000 {
        forall m: nat, c | Sealed(m, c) ensures nrSec == m + 1 {
          WholeSectors(m);
        }
        return None;
      }
      if at + SB_SIZE > |bytes| {
        return None;
      }
      forall m: nat, c | Sealed(m, c) ensures nrSec == m + 1 && Recognised(Superblock(c)) {
        SuperblockIsRecognised(c);
        WholeSectors(m);
      }
      var sb := bytes[at..at + SB_SIZE];
      if !Recognised(sb) {
        return None;
      }
      nrSec := nrSec - 1;
      mapped := Some(nrSec);
    }
  }

  /** The sizing steps of createAsec. */
  method ImageSize(numSectors: nat) returns (numImgSectors: nat)
    ensures numImgSectors == ImgSectors(numSectors)
  {
    var fatSize := Wrap((Wrap(numSectors * 4) / 512 + 1) * 2);
    numImgSectors := Wrap(numSectors + fatSize + 2);
    if numImgSectors % 63 != 0 {
      numImgSectors := Wrap(numImgSectors + (63 - numImgSectors % 63));
    }
  }

  lemma Small(n: nat)
    requires (n + 1) * SECTOR < U32_END
    ensures Wrap(Wrap(n + 1) * 512) == (n + 1) * SECTOR && Wrap(n * 512) == n * SECTOR
  {
  }

  lemma SeekToLast(size: nat)
    requires size < U32_END
    ensures var n := size / SECTOR;
            Wrap(Wrap(n - 1) * 512) == (if n >= 1 then (n - 1) * SECTOR else U32_END - SECTOR)
  {
  }

  lemma WholeSectors(m: nat)
    ensures (m + 1) * SECTOR / SECTOR == m + 1
  {
  }

  lemma SuperblockIsRecognised(cipher: byte)
    ensures Recognised(Superblock(cipher))
  {
    assert Superblock(cipher)[..4] == Le32(ASEC_SB_MAGIC);
  }

  lemma Spliced(s: seq<byte>, at: nat, data: seq<byte>)
    requires at + |data| <= |s|
    ensures var t := s[..at] + data + s[at + |data|..];
            |t| == |s| && t[at..at + |data|] == data
  {
  }

  lemma SplicedKeeps(s: seq<byte>, at: nat, data: seq<byte>, lo: nat, hi: nat)
    requires at + |data| <= lo <= hi <= |s|
    ensures var t := s[..at] + data + s[at + |data|..];
            |t| == |s| && t[lo..hi] == s[lo..hi]
  {
  }
}
