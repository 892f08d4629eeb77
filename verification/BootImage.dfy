/**
 * mkbootimg of core/fastboot/bootimg.c with the header of core/mkbootimg/bootimg.h: a zeroed
 * buffer, a header page and three sections, each rounded to pages with a bit mask.
 */
module BootImage {
  import opened Basics
  import opened Bits
  import opened Wire

  /** Where the fields that mkbootimg sets end; name, command line and id follow them in the header. */
  const FIELDS_END: nat := 40

  /** "ANDROID!" */
  const BOOT_MAGIC: seq<byte> := [65, 78, 68, 82, 79, 73, 68, 33]

  // Rounding.

  /** (size + mask) & ~mask in unsigned arithmetic, where mask is page - 1. */
  function Rounded(size: nat, page: u32): nat {
    var mask := (page - 1) % U32_END;
    And((size + mask) % U32_END, U32_END - 1 - mask)
  }

  function Pages(size: nat, page: nat): nat
    requires page > 0
  {
    (size + page - 1) / page
  }

  function RoundUp(size: nat, page: nat): (r: nat)
    requires page > 0
    ensures size <= r < size + page
  {
    RoundUpBounds(size, page);
    Pages(size, page) * page
  }

  lemma RoundUpBounds(size: nat, page: nat)
    requires page > 0
    ensures size <= Pages(size, page) * page < size + page
  {
    var n := size + page - 1;
    assert n == n / page * page + n % page;
  }

  lemma RoundDown(n: nat, page: nat)
    requires page > 0
    ensures n - n % page == n / page * page
  {
  }

  lemma MaskRounds(size: nat, page: nat)
    requires IsPow2(page) && page < U32_END && size + page - 1 < U32_END
    ensures Rounded(size, page) == RoundUp(size, page)
  {
    hide And, IsPow2;
    TopIsPow2();
    var n := size + page - 1;
    AndMask(n, page, U32_END);
    RoundDown(n, page);
    assert n % U32_END == n;
  }

  /** The mask rounds every size up to whole pages exactly when the page size is a power of two. */
  lemma MaskRoundsIff(page: nat)
    requires 0 < page < U32_END
    ensures (forall size: nat :: size + page - 1 < U32_END ==> Rounded(size, page) == RoundUp(size, page)) <==> IsPow2(page)
  {
    hide And, IsPow2;
    if IsPow2(page) {
      forall size: nat | size + page - 1 < U32_END ensures Rounded(size, page) == RoundUp(size, page) {
        MaskRounds(size, page);
      }
    } else {
      TopIsPow2();
      LowBit(page, U32_END);
      assert Rounded(1, page) == And(page, U32_END - page);
      DivModUnique(1, 0, page);
      assert RoundUp(1, page) == page;
    }
  }

  // The image.

  datatype Parts = Parts(kernel: seq<byte>, ramdisk: seq<byte>, second: seq<byte>, page: u32, base: u32)

  /** The header fields fit a page, pages are powers of two, and the whole image has a 32-bit size. */
  predicate Sane(x: Parts) {
    FIELDS_END <= x.page && IsPow2(x.page) && Total(x) < U32_END
  }

  function RamdiskAt(x: Parts): nat
    requires x.page > 0
  {
    x.page + RoundUp(|x.kernel|, x.page)
  }

  function SecondAt(x: Parts): nat
    requires x.page > 0
  {
    RamdiskAt(x) + RoundUp(|x.ramdisk|, x.page)
  }

  function Total(x: Parts): nat
    requires x.page > 0
  {
    SecondAt(x) + RoundUp(|x.second|, x.page)
  }

  /** An address in 32 bits. */
  function Addr(base: u32, offset: nat): u32 {
    (base + offset) % U32_END
  }

  /** Some bytes at some place. */
  datatype Piece = Piece(at: nat, data: seq<byte>) {
    function End(): nat { at + |data| }

    predicate Apart(q: Piece) { End() <= q.at || q.End() <= at }

    predicate Covers(i: nat) { at <= i < End() }

    predicate In(b: seq<byte>) { End() <= |b| && b[at..End()] == data }
  }

  predicate Uncovered(ps: seq<Piece>, i: nat) {
    forall k :: 0 <= k < |ps| ==> !ps[k].Covers(i)
  }

  /** The pieces are in place, and every other byte is zero. */
  ghost predicate Written(b: seq<byte>, ps: seq<Piece>) {
    && (forall k :: 0 <= k < |ps| ==> ps[k].In(b))
    && (forall i :: 0 <= i < |b| && Uncovered(ps, i) ==> b[i] == 0)
  }

  /** Sizes are unsigned. */
  predicate Sized(x: Parts) {
    |x.kernel| < U32_END && |x.ramdisk| < U32_END && |x.second| < U32_END
  }

  function HeaderPieces(x: Parts): (ps: seq<Piece>)
    requires Sized(x)
    ensures |ps| == 9
  {
    [Piece(0, BOOT_MAGIC),
     Piece(8, Le32(|x.kernel|)), Piece(16, Le32(|x.ramdisk|)), Piece(24, Le32(|x.second|)),
     Piece(12, Le32(Addr(x.base, 0x8000))), Piece(20, Le32(Addr(x.base, 0x0100_0000))),
     Piece(28, Le32(Addr(x.base, 0x00f0_0000))), Piece(32, Le32(Addr(x.base, 0x100))), Piece(36, Le32(x.page))]
  }

  function SectionPieces(x: Parts): seq<Piece>
    requires x.page > 0
  {
    [Piece(x.page, x.kernel), Piece(RamdiskAt(x), x.ramdisk), Piece(SecondAt(x), x.second)]
  }

  lemma PutKeeps(before: seq<byte>, after: seq<byte>, p: Piece, ps: seq<Piece>)
    requires Written(before, ps) && |after| == |before| && p.In(after)
    requires forall k :: 0 <= k < |ps| ==> p.Apart(ps[k])
    requires forall i :: 0 <= i < |after| && !p.Covers(i) ==> after[i] == before[i]
    ensures Written(after, ps + [p])
  {
    var qs := ps + [p];
    forall k | 0 <= k < |ps| ensures ps[k].In(after) {
      var q := ps[k];
      assert q.In(before) && p.Apart(q);
      forall i | q.at <= i < q.End() ensures after[i] == before[i] {
        assert !p.Covers(i);
      }
      assert after[q.at..q.End()] == before[q.at..q.End()];
    }
    forall i | 0 <= i < |after| && Uncovered(qs, i) ensures after[i] == 0 {
      assert !qs[|ps|].Covers(i);
      forall k | 0 <= k < |ps| ensures !ps[k].Covers(i) {
        assert !qs[k].Covers(i);
      }
      assert Uncovered(ps, i);
    }
  }

  lemma SaneIsSized(x: Parts)
    requires Sane(x)
    ensures Sized(x)
  {
  }

  function AllPieces(x: Parts): (ps: seq<Piece>)
    requires Sane(x)
    ensures |ps| == 12
  {
    SaneIsSized(x);
    HeaderPieces(x) + SectionPieces(x)
  }

  lemma HeaderApart(x: Parts, i: nat, j: nat)
    requires Sized(x) && i < j < 9
    ensures HeaderPieces(x)[j].Apart(HeaderPieces(x)[i]) && HeaderPieces(x)[j].End() <= FIELDS_END
  {
    hide Le32, Addr;
  }

  lemma HeaderEnds(x: Parts, i: nat)
    requires Sized(x) && i < 9
    ensures HeaderPieces(x)[i].End() <= FIELDS_END
  {
    hide Le32, Addr;
  }

  /** No two pieces overlap and all are inside. */
  lemma PiecesApart(x: Parts, i: nat, j: nat)
    requires Sane(x) && i < j < 12
    ensures AllPieces(x)[j].Apart(AllPieces(x)[i]) && AllPieces(x)[j].End() <= Total(x)
  {
    hide IsPow2, Le32, Addr, Pages;
    SaneIsSized(x);
    if j < 9 {
      HeaderApart(x, i, j);
    } else {
      var q := SectionPieces(x)[j - 9];
      assert AllPieces(x)[j] == q && FIELDS_END <= q.at;
      if i < 9 {
        HeaderEnds(x, i);
      } else {
        assert AllPieces(x)[i] == SectionPieces(x)[i - 9];
      }
    }
  }

  // Writing pieces one after the other, the later over the earlier.

  /** A piece that does not fit is not written. */
  function Apply(b: seq<byte>, p: Piece): (r: seq<byte>)
    ensures |r| == |b|
  {
    if p.End() <= |b| then b[..p.at] + p.data + b[p.End()..] else b
  }

  lemma ApplyPuts(b: seq<byte>, p: Piece)
    requires p.End() <= |b|
    ensures p.In(Apply(b, p)) && forall i :: 0 <= i < |b| && !p.Covers(i) ==> Apply(b, p)[i] == b[i]
  {
  }

  predicate AllInside(ps: seq<Piece>, size: nat) {
    forall k :: 0 <= k < |ps| ==> ps[k].End() <= size
  }

  function ApplyAll(b: seq<byte>, ps: seq<Piece>): (r: seq<byte>)
    ensures |r| == |b|
    decreases |ps|
  {
    if ps == [] then b else Apply(ApplyAll(b, ps[..|ps| - 1]), ps[|ps| - 1])
  }

  /** Pieces that do not overlap are all in place in the end. */
  lemma {:induction false} AppliedIsWritten(n: nat, ps: seq<Piece>)
    requires AllInside(ps, n) && forall i, j :: 0 <= i < j < |ps| ==> ps[j].Apart(ps[i])
    ensures Written(ApplyAll(Zeros(n), ps), ps)
    decreases |ps|
  {
    hide Apply;
    if ps != [] {
      var init, p := ps[..|ps| - 1], ps[|ps| - 1];
      AppliedIsWritten(n, init);
      var before := ApplyAll(Zeros(n), init);
      ApplyPuts(before, p);
      PutKeeps(before, Apply(before, p), p, init);
      assert init + [p] == ps;
    }
  }

  // What mkbootimg computes and writes, whatever it is given.

  function RawSections(x: Parts): (ps: seq<Piece>)
    ensures |ps| == 3
  {
    var r := x.page + Rounded(|x.kernel|, x.page);
    [Piece(x.page, x.kernel), Piece(r, x.ramdisk), Piece(r + Rounded(|x.ramdisk|, x.page), x.second)]
  }

  function RawPieces(x: Parts): (ps: seq<Piece>)
    requires Sized(x)
    ensures |ps| == 12
  {
    HeaderPieces(x) + RawSections(x)
  }

  /** bootimg_size */
  function RawSize(x: Parts): (n: nat)
    ensures n < U32_END
  {
    (x.page + Rounded(|x.kernel|, x.page) + Rounded(|x.ramdisk|, x.page) + Rounded(|x.second|, x.page)) % U32_END
  }

  /** Some write goes beyond the buffer. */
  predicate Overruns(x: Parts) {
    RawSize(x) < FIELDS_END || !AllInside(RawSections(x), RawSize(x))
  }

  function ImageBytes(x: Parts): seq<byte>
    requires Sized(x)
  {
    ApplyAll(Zeros(RawSize(x)), RawPieces(x))
  }

  datatype Built = NoMemory | Overrun | Image(img: array<byte>)

  /** memcpy or a field assignment: the k-th write of some. */
  method PutNext(buf: array<byte>, p: Piece, ghost b: seq<byte>, ghost ps: seq<Piece>, ghost k: nat)
    requires k < |ps| && p == ps[k] && p.End() <= buf.Length && |b| == buf.Length
    requires buf[..] == ApplyAll(b, ps[..k])
    modifies buf
    ensures buf[..] == ApplyAll(b, ps[..k + 1])
  {
    hide ApplyAll;
    ghost var before := buf[..];
    LastApplied(b, ps, k);
    forall i | 0 <= i < |p.data| {
      buf[p.at + i] := p.data[i];
    }
    assert buf[..] == before[..p.at] + p.data + before[p.End()..];
  }

  lemma LastApplied(b: seq<byte>, ps: seq<Piece>, k: nat)
    requires k < |ps|
    ensures ApplyAll(b, ps[..k + 1]) == Apply(ApplyAll(b, ps[..k]), ps[k])
  {
    assert ps[..k + 1][..k] == ps[..k];
  }

  lemma NothingApplied(b: seq<byte>)
    ensures ApplyAll(b, []) == b
  {
  }

  method FillHeader(buf: array<byte>, x: Parts, ghost b: seq<byte>, ghost ps: seq<Piece>)
    requires Sized(x) && |ps| >= 9 && ps[..9] == HeaderPieces(x) && buf[..] == b && |b| >= FIELDS_END
    modifies buf
    ensures buf[..] == ApplyAll(b, ps[..9])
  {
    hide Le32, Addr, ApplyAll;
    assert ps[..0] == [] && forall k :: 0 <= k < 9 ==> ps[k] == ps[..9][k];
    NothingApplied(b);
    PutNext(buf, Piece(0, BOOT_MAGIC), b, ps, 0);
    PutNext(buf, Piece(8, Le32(|x.kernel|)), b, ps, 1);
    PutNext(buf, Piece(16, Le32(|x.ramdisk|)), b, ps, 2);
    PutNext(buf, Piece(24, Le32(|x.second|)), b, ps, 3);
    FillAddresses(buf, x, b, ps);
  }

  /** The addresses, and the page size. */
  method FillAddresses(buf: array<byte>, x: Parts, ghost b: seq<byte>, ghost ps: seq<Piece>)
    requires Sized(x) && |ps| >= 9 && ps[..9] == HeaderPieces(x) && |b| == buf.Length >= FIELDS_END
    requires buf[..] == ApplyAll(b, ps[..4])
    modifies buf
    ensures buf[..] == ApplyAll(b, ps[..9])
  {
    hide Le32, Addr, ApplyAll;
    assert forall k :: 0 <= k < 9 ==> ps[k] == ps[..9][k];
    PutNext(buf, Piece(12, Le32(Addr(x.base, 0x8000))), b, ps, 4);
    PutNext(buf, Piece(20, Le32(Addr(x.base, 0x0100_0000))), b, ps, 5);
    PutNext(buf, Piece(28, Le32(Addr(x.base, 0x00f0_0000))), b, ps, 6);
    PutNext(buf, Piece(32, Le32(Addr(x.base, 0x100))), b, ps, 7);
    PutNext(buf, Piece(36, Le32(x.page)), b, ps, 8);
  }

  /** mkbootimg; `granted` is whether calloc succeeds. A write beyond the buffer is an outcome of its own. */
  method MkBootimg(x: Parts, granted: bool) returns (r: Built)
    requires Sized(x)
    ensures r.NoMemory? <==> !granted
    ensures r.Overrun? <==> granted && Overruns(x)
    ensures r.Image? ==> fresh(r.img) && r.img[..] == ImageBytes(x)
  {
    hide Rounded, Le32, Addr, ApplyAll, HeaderPieces;
    var kernelActual := Rounded(|x.kernel|, x.page);
    var ramdiskActual := Rounded(|x.ramdisk|, x.page);
    var secondActual := Rounded(|x.second|, x.page);
    var size := (x.page + kernelActual + ramdiskActual + secondActual) % U32_END;
    if !granted {
      return NoMemory;
    }
    var kernel := Piece(x.page, x.kernel);
    var ramdisk := Piece(x.page + kernelActual, x.ramdisk);
    var second := Piece(x.page + kernelActual + ramdiskActual, x.second);
    assert RawSections(x) == [kernel, ramdisk, second];
    ThreeInside(kernel, ramdisk, second, size);
    if size < FIELDS_END || kernel.End() > size || ramdisk.End() > size || second.End() > size {
      return Overrun;
    }
    ghost var ps := RawPieces(x);
    assert ps[..9] == HeaderPieces(x) && ps[9] == kernel && ps[10] == ramdisk && ps[11] == second && ps[..12] == ps;
    hide RawPieces, RawSections, AllInside;
    var buf := new byte[size](_ => 0);
    ghost var b := Zeros(size);
    assert buf[..] == b;
    FillHeader(buf, x, b, ps);
    PutNext(buf, kernel, b, ps, 9);
    PutNext(buf, ramdisk, b, ps, 10);
    PutNext(buf, second, b, ps, 11);
    r := Image(buf);
  }

  lemma ThreeInside(a: Piece, b: Piece, c: Piece, size: nat)
    ensures AllInside([a, b, c], size) <==> a.End() <= size && b.End() <= size && c.End() <= size
  {
    var ps := [a, b, c];
    assert ps[0] == a && ps[1] == b && ps[2] == c;
  }

  lemma PiecesAre(x: Parts)
    requires Sane(x)
    ensures AllPieces(x)[9] == Piece(x.page, x.kernel)
    ensures AllPieces(x)[10] == Piece(RamdiskAt(x), x.ramdisk)
    ensures AllPieces(x)[11] == Piece(SecondAt(x), x.second)
  {
  }

  lemma HeaderIsFirst(x: Parts)
    requires Sane(x)
    ensures Sized(x) && forall k :: 0 <= k < 9 ==> AllPieces(x)[k] == HeaderPieces(x)[k]
  {
  }

  /** With sane sizes nothing overruns and every piece is in its place, with zeros everywhere else. */
  lemma SaneImage(x: Parts)
    requires Sane(x)
    ensures Sized(x) && !Overruns(x) && RawSize(x) == Total(x) && Written(ImageBytes(x), AllPieces(x))
  {
    SaneIsSized(x);
    RawIsIdeal(x);
    AllFit(x);
    hide Rounded, RoundUp, IsPow2, Le32, Addr, HeaderPieces, Written, ApplyAll, AllPieces, RawPieces, RawSections;
    AppliedIsWritten(Total(x), AllPieces(x));
  }

  lemma RawIsIdeal(x: Parts)
    requires Sane(x)
    ensures Sized(x) && RawSections(x) == SectionPieces(x) && RawPieces(x) == AllPieces(x) && RawSize(x) == Total(x)
  {
    hide Rounded, RoundUp, IsPow2, Le32, Addr, HeaderPieces, Pages;
    SaneIsSized(x);
    MaskRounds(|x.kernel|, x.page);
    MaskRounds(|x.ramdisk|, x.page);
    MaskRounds(|x.second|, x.page);
  }

  lemma AllFit(x: Parts)
    requires Sane(x)
    ensures AllInside(AllPieces(x), Total(x)) && AllInside(SectionPieces(x), Total(x)) && Total(x) >= FIELDS_END
    ensures forall i, j :: 0 <= i < j < 12 ==> AllPieces(x)[j].Apart(AllPieces(x)[i])
  {
    PiecesAre(x);
    FirstFits(x);
    hide RoundUp, IsPow2, Le32, Addr, HeaderPieces, AllPieces;
    forall i, j | 0 <= i < j < 12 ensures AllPieces(x)[j].Apart(AllPieces(x)[i]) && AllPieces(x)[j].End() <= Total(x) {
      PiecesApart(x, i, j);
    }
    forall k | 0 <= k < 12 ensures AllPieces(x)[k].End() <= Total(x) {
      if k > 0 {
        PiecesApart(x, 0, k);
      }
    }
    forall k | 0 <= k < 3 ensures SectionPieces(x)[k].End() <= Total(x) {
      assert SectionPieces(x)[k] == AllPieces(x)[k + 9];
    }
  }

  lemma FirstFits(x: Parts)
    requires Sane(x)
    ensures AllPieces(x)[0].End() <= Total(x)
  {
  }

  // Reading it back as core/mkbootimg/bootimg.h describes the image.

  datatype Found = Found(kernel: seq<byte>, ramdisk: seq<byte>, second: seq<byte>)

  function ReadBack(b: seq<byte>): Option<Found> {
    if |b| < FIELDS_END || b[..8] != BOOT_MAGIC || Word(b, 36) == 0 then None
    else
      var page := Word(b, 36);
      var ks, rs, ss := Word(b, 8), Word(b, 16), Word(b, 24);
      var r := page * (1 + Pages(ks, page));
      var s := r + page * Pages(rs, page);
      if page + ks > |b| || r + rs > |b| || s + ss > |b| then None
      else Some(Found(b[page..page + ks], b[r..r + rs], b[s..s + ss]))
  }

  lemma PieceIsThere(b: seq<byte>, x: Parts, k: nat)
    requires Sane(x) && k < 12 && Written(b, AllPieces(x))
    ensures AllPieces(x)[k].In(b)
  {
  }

  lemma WordIsThere(b: seq<byte>, at: nat, v: u32)
    requires Piece(at, Le32(v)).In(b)
    ensures at + 4 <= |b| && Word(b, at) == v
  {
    Le32RoundTrip(v);
  }

  /** An address that many bytes above the base, unless it wraps at 2^32. */
  predicate Loads(address: nat, base: nat, offset: nat) {
    address == if base + offset < 0x1_0000_0000 then base + offset else base + offset - 0x1_0000_0000
  }

  lemma AddrLoads(base: u32, offset: u32)
    ensures Loads(Addr(base, offset), base, offset)
  {
  }

  /** The header fields of a written image. */
  lemma HeaderReads(b: seq<byte>, x: Parts)
    requires Sane(x) && |b| == Total(x) && Written(b, AllPieces(x))
    ensures |b| >= 40 && b[..8] == [65, 78, 68, 82, 79, 73, 68, 33] && Word(b, 36) == x.page
    ensures Word(b, 8) == |x.kernel| && Word(b, 16) == |x.ramdisk| && Word(b, 24) == |x.second|
    ensures Loads(Word(b, 12), x.base, 0x8000) && Loads(Word(b, 20), x.base, 0x0100_0000)
    ensures Loads(Word(b, 28), x.base, 0x00f0_0000) && Loads(Word(b, 32), x.base, 0x100)
  {
    hide Written, AllPieces, Word, Addr, Sane, Total;
    HeaderWords(b, x);
    AddrLoads(x.base, 0x8000);
    AddrLoads(x.base, 0x0100_0000);
    AddrLoads(x.base, 0x00f0_0000);
    AddrLoads(x.base, 0x100);
  }

  lemma HeaderWords(b: seq<byte>, x: Parts)
    requires Sane(x) && |b| == Total(x) && Written(b, AllPieces(x))
    ensures |b| >= 40 && b[..8] == BOOT_MAGIC && Word(b, 36) == x.page
    ensures Word(b, 8) == |x.kernel| && Word(b, 16) == |x.ramdisk| && Word(b, 24) == |x.second|
    ensures Word(b, 12) == Addr(x.base, 0x8000) && Word(b, 20) == Addr(x.base, 0x0100_0000)
    ensures Word(b, 28) == Addr(x.base, 0x00f0_0000) && Word(b, 32) == Addr(x.base, 0x100)
  {
    hide Written, IsPow2, Le32, FromLe32, Addr, Word, AllPieces, Total;
    HeaderIsFirst(x);
    PieceIsThere(b, x, 0);
    assert b[..8] == b[0..8];
    PieceIsThere(b, x, 1);
    WordIsThere(b, 8, |x.kernel|);
    PieceIsThere(b, x, 2);
    WordIsThere(b, 16, |x.ramdisk|);
    PieceIsThere(b, x, 3);
    WordIsThere(b, 24, |x.second|);
    PieceIsThere(b, x, 4);
    WordIsThere(b, 12, Addr(x.base, 0x8000));
    PieceIsThere(b, x, 5);
    WordIsThere(b, 20, Addr(x.base, 0x0100_0000));
    PieceIsThere(b, x, 6);
    WordIsThere(b, 28, Addr(x.base, 0x00f0_0000));
    PieceIsThere(b, x, 7);
    WordIsThere(b, 32, Addr(x.base, 0x100));
    PieceIsThere(b, x, 8);
    WordIsThere(b, 36, x.page);
  }

  /** Offsets counted in pages. */
  lemma Offsets(x: Parts)
    requires Sane(x)
    ensures RamdiskAt(x) == x.page * (1 + Pages(|x.kernel|, x.page))
    ensures SecondAt(x) == RamdiskAt(x) + x.page * Pages(|x.ramdisk|, x.page)
    ensures Total(x) == SecondAt(x) + x.page * Pages(|x.second|, x.page) >= FIELDS_END
  {
    hide Pages;
  }

  lemma WholePages(x: Parts)
    requires Sane(x)
    ensures RamdiskAt(x) % x.page == 0 && SecondAt(x) % x.page == 0 && Total(x) % x.page == 0
  {
    var p := x.page;
    Offsets(x);
    hide *;
    var n, m, o := Pages(|x.kernel|, p), Pages(|x.ramdisk|, p), Pages(|x.second|, p);
    Split(p, 1 + n, m);
    Split(p, 1 + n + m, o);
    DivModUnique(1 + n, 0, p);
    DivModUnique(1 + n + m, 0, p);
    DivModUnique(1 + n + m + o, 0, p);
  }

  lemma Split(p: nat, a: nat, b: nat)
    ensures p * (a + b) == p * a + p * b
  {
  }

  /** A reader that knows only the header finds the three sections. */
  lemma ImageReadsBack(b: seq<byte>, x: Parts)
    requires Sane(x) && |b| == Total(x) && Written(b, AllPieces(x))
    ensures ReadBack(b) == Some(Found(x.kernel, x.ramdisk, x.second))
  {
    hide Written, IsPow2, Le32, FromLe32, Addr, Word, AllPieces, Pages, RamdiskAt, SecondAt, Total;
    HeaderReads(b, x);
    PiecesAre(x);
    Offsets(x);
    PieceIsThere(b, x, 9);
    PieceIsThere(b, x, 10);
    PieceIsThere(b, x, 11);
  }

  /** Sections start on page boundaries and are followed by zeros up to the next. */
  lemma SectionsAligned(b: seq<byte>, x: Parts)
    requires Sane(x) && |b| == Total(x) && Written(b, AllPieces(x))
    ensures RamdiskAt(x) % x.page == 0 && SecondAt(x) % x.page == 0 && Total(x) % x.page == 0
    ensures forall i :: 40 <= i < x.page ==> b[i] == 0
    ensures forall i :: x.page + |x.kernel| <= i < RamdiskAt(x) ==> b[i] == 0
    ensures forall i :: RamdiskAt(x) + |x.ramdisk| <= i < SecondAt(x) ==> b[i] == 0
    ensures forall i :: SecondAt(x) + |x.second| <= i < Total(x) ==> b[i] == 0
  {
    hide IsPow2, Le32, Addr, AllPieces, Pages;
    WholePages(x);
    var p := x.page;
    forall i | 40 <= i < |b| && !(p <= i < p + |x.kernel|) && !(RamdiskAt(x) <= i < RamdiskAt(x) + |x.ramdisk|)
               && !(SecondAt(x) <= i < SecondAt(x) + |x.second|)
      ensures b[i] == 0
    {
      GapIsUncovered(x, i);
    }
  }

  lemma GapIsUncovered(x: Parts, i: nat)
    requires Sane(x) && 40 <= i && !(x.page <= i < x.page + |x.kernel|)
    requires !(RamdiskAt(x) <= i < RamdiskAt(x) + |x.ramdisk|) && !(SecondAt(x) <= i < SecondAt(x) + |x.second|)
    ensures Uncovered(AllPieces(x), i)
  {
    hide IsPow2, Le32, Addr, RamdiskAt, SecondAt, Total;
    forall k | 0 <= k < 12 ensures !AllPieces(x)[k].Covers(i) {
      if k < 9 {
        SaneIsSized(x);
        HeaderEnds(x, k);
        assert AllPieces(x)[k] == HeaderPieces(x)[k];
      } else {
        assert AllPieces(x)[k] == SectionPieces(x)[k - 9];
      }
    }
  }

  // Which page sizes work.

  /** mkbootimg makes an image from which a reader gets the sections back. */
  predicate LaidOut(x: Parts) {
    Sized(x) && !Overruns(x) && ReadBack(ImageBytes(x)) == Some(Found(x.kernel, x.ramdisk, x.second))
  }

  /** An image with a kernel of one byte and nothing else. */
  function Tiny(page: u32): Parts {
    Parts([0], [], [], page, 0)
  }

  lemma TinySizes(page: u32)
    requires FIELDS_END <= page && !IsPow2(page)
    ensures var l := Rounded(1, page);
            1 <= l && 3 * l <= page && Rounded(0, page) == 0
    ensures Total(Tiny(page)) == 2 * page
  {
    hide And, IsPow2;
    TopIsPow2();
    LowBit(page, U32_END);
    AndNothing(page - 1, U32_END);
    DivModUnique(1, 0, page);
    DivModUnique(0, page - 1, page);
  }

  lemma TinyApart(x: Parts, l: nat)
    requires Sized(x) && FIELDS_END <= x.page && |x.kernel| <= l
    requires RawSections(x) == [Piece(x.page, x.kernel), Piece(x.page + l, []), Piece(x.page + l, [])]
    ensures AllInside(RawPieces(x), x.page + l)
    ensures forall i, j :: 0 <= i < j < 12 ==> RawPieces(x)[j].Apart(RawPieces(x)[i])
  {
    hide RawSections, HeaderPieces;
    var ps, qs := RawPieces(x), RawSections(x);
    forall k | 0 <= k < 12 ensures ps[k].End() <= x.page + l {
      if k < 9 {
        HeaderEnds(x, k);
      } else {
        assert ps[k] == qs[k - 9];
      }
    }
    forall i, j | 0 <= i < j < 12 ensures ps[j].Apart(ps[i]) {
      if j < 9 {
        HeaderApart(x, i, j);
      } else {
        assert ps[j] == qs[j - 9];
        if i < 9 {
          HeaderEnds(x, i);
        } else {
          assert ps[i] == qs[i - 9];
        }
      }
    }
  }

  lemma RawHeader(x: Parts, k: nat)
    requires Sized(x) && k < 9
    ensures RawPieces(x)[k] == HeaderPieces(x)[k]
  {
    hide HeaderPieces, RawSections;
  }

  /** Where mkbootimg puts the sections. */
  lemma TinyRaw(page: u32)
    requires FIELDS_END <= page < 0x8000_0000 && !IsPow2(page)
    ensures var x, l := Tiny(page), Rounded(1, page);
            && 1 <= l && 3 * l <= page && Total(x) == 2 * page && Sized(x) && RawSize(x) == page + l
            && RawSections(x) == [Piece(page, [0]), Piece(page + l, []), Piece(page + l, [])]
  {
    hide And, IsPow2, Rounded, Total, RoundUp;
    TinySizes(page);
  }

  lemma TinyImage(x: Parts, l: nat)
    requires Sized(x) && FIELDS_END <= x.page && |x.kernel| <= l && RawSize(x) == x.page + l
    requires RawSections(x) == [Piece(x.page, x.kernel), Piece(x.page + l, []), Piece(x.page + l, [])]
    ensures var b := ImageBytes(x);
            && |b| == x.page + l && b[..8] == BOOT_MAGIC && Word(b, 36) == x.page
            && Word(b, 8) == |x.kernel| && Word(b, 16) == |x.ramdisk| && Word(b, 24) == |x.second|
  {
    hide Sized, RawSize, RawSections, HeaderPieces, Word;
    TinyApart(x, l);
    AppliedIsWritten(x.page + l, RawPieces(x));
    TinyHeader(ImageBytes(x), x);
  }

  /** With a page size that is no power of two the reader looks for the ramdisk beyond the image. */
  lemma OddPageFails(page: u32)
    requires FIELDS_END <= page < 0x8000_0000 && !IsPow2(page)
    ensures Total(Tiny(page)) < U32_END && !LaidOut(Tiny(page))
  {
    hide IsPow2, Rounded, RawSize, RawSections, RawPieces, ImageBytes, Word, ReadBack, Sized, Overruns, Total;
    var x := Tiny(page);
    TinyRaw(page);
    TinyImage(x, Rounded(1, page));
    ShortImage(ImageBytes(x), page);
  }

  /** An image of one page and a bit holds no ramdisk at the third page. */
  lemma ShortImage(b: seq<byte>, page: nat)
    requires FIELDS_END <= page <= |b| < 2 * page && Word(b, 36) == page && Word(b, 8) == 1
    ensures ReadBack(b).None?
  {
    hide Word;
    DivModUnique(1, 0, page);
    assert Pages(1, page) == 1;
  }

  lemma TinyHeader(b: seq<byte>, x: Parts)
    requires Sized(x) && Written(b, RawPieces(x)) && |b| >= FIELDS_END
    ensures b[..8] == BOOT_MAGIC && Word(b, 36) == x.page
    ensures Word(b, 8) == |x.kernel| && Word(b, 16) == |x.ramdisk| && Word(b, 24) == |x.second|
  {
    hide Le32, FromLe32, Addr, Word, RawSections;
    RawHeader(x, 0);
    RawHeader(x, 1);
    RawHeader(x, 2);
    RawHeader(x, 3);
    RawHeader(x, 8);
    hide RawPieces;
    forall k | k in {0, 1, 2, 3, 8} ensures HeaderPieces(x)[k].In(b) {
      assert RawPieces(x)[k].In(b);
    }
    WordIsThere(b, 8, |x.kernel|);
    WordIsThere(b, 16, |x.ramdisk|);
    WordIsThere(b, 24, |x.second|);
    WordIsThere(b, 36, x.page);
    assert b[0..8] == b[..8];
  }

  /** An image without sections. */
  lemma EmptyRaw(x: Parts)
    requires x.kernel == [] && x.ramdisk == [] && x.second == []
    ensures Sized(x) && RawSize(x) == x.page && Rounded(0, x.page) == 0
    ensures RawSections(x) == [Piece(x.page, x.kernel), Piece(x.page + 0, []), Piece(x.page + 0, [])]
  {
    hide And;
    TopIsPow2();
    AndNothing((x.page - 1) % U32_END, U32_END);
  }

  lemma EmptyIsLaidOut(x: Parts)
    requires x.kernel == [] && x.ramdisk == [] && x.second == [] && FIELDS_END <= x.page
    ensures LaidOut(x)
  {
    hide RawSections, RawPieces, HeaderPieces, RawSize, ImageBytes, Word, ApplyAll, Rounded;
    EmptyRaw(x);
    TinyImage(x, 0);
    var b, p := ImageBytes(x), x.page;
    ThreeInside(Piece(p, x.kernel), Piece(p + 0, []), Piece(p + 0, []), p);
    DivModUnique(0, p - 1, p);
    assert Pages(0, p) == 0;
    assert b[p..p] == [];
  }

  /** A page that does not hold the header fields: a write beyond the buffer, even for an image without sections. */
  lemma SmallPageFails(page: u32)
    requires page < FIELDS_END
    ensures var x := Parts([], [], [], page, 0); Fits32(x) && !LaidOut(x)
  {
    var x := Parts([], [], [], page, 0);
    hide RawSections, RawSize, Rounded;
    EmptyRaw(x);
    if page > 0 {
      DivModUnique(0, page - 1, page);
    }
  }

  /** From 2^31 on, an image of a 32-bit size has no sections. */
  lemma HugePageIsEmpty(x: Parts)
    requires x.page >= 0x8000_0000 && Total(x) < U32_END
    ensures x.kernel == [] && x.ramdisk == [] && x.second == []
  {
    WholePage(|x.kernel|, x.page);
    WholePage(|x.ramdisk|, x.page);
    WholePage(|x.second|, x.page);
    hide RoundUp;
  }

  lemma WholePage(size: nat, page: nat)
    requires page > 0
    ensures size > 0 ==> RoundUp(size, page) >= page
  {
    if 0 < size < page {
      DivModUnique(1, size - 1, page);
    }
  }

  /** The size of the image is a 32-bit number. */
  predicate Fits32(x: Parts) {
    x.page > 0 ==> Total(x) < U32_END
  }

  /**
   * Every image of a 32-bit size is laid out so that it can be read back, if and only if the page holds
   * the header fields and its size is a power of two, or is so large that no image has any sections.
   */
  lemma LayoutIff(page: u32)
    ensures (forall x: Parts :: x.page == page && Fits32(x) ==> LaidOut(x)) <==>
            FIELDS_END <= page && (IsPow2(page) || page >= 0x8000_0000)
  {
    hide LaidOut, IsPow2, Total;
    if page < FIELDS_END {
      SmallPageFails(page);
    } else if IsPow2(page) {
      forall x: Parts | x.page == page && Fits32(x) ensures LaidOut(x) {
        SaneIsLaidOut(x);
      }
    } else if page >= 0x8000_0000 {
      forall x: Parts | x.page == page && Fits32(x) ensures LaidOut(x) {
        HugePageIsEmpty(x);
        EmptyIsLaidOut(x);
      }
    } else {
      OddPageFails(page);
    }
  }

  lemma SaneIsLaidOut(x: Parts)
    requires Sane(x)
    ensures LaidOut(x)
  {
    hide ReadBack, Written, IsPow2, ApplyAll;
    SaneImage(x);
    ImageReadsBack(ImageBytes(x), x);
  }
}
