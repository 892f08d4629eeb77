/**
 * The two-region circular buffer under the emulated socket pairs of
 * core/adb/sysdeps_win32.c. It is a FIFO of 4096 bytes: a write appends all that
 * fits, a read removes all it may, in order, and the cached flags never lie.
 */
module BipBuffer {
  import opened Basics

  const BIP_BUFFER_SIZE: nat := 4096

  /** What a call comes to: a count, an error, or waiting for the other side's event. */
  datatype Outcome = Count(n: nat) | Broken | MustWait

  /** A call from its start, or taken up after WaitForSingleObject: signalled, or in error. */
  datatype Wait = Fresh | Woken | Failed

  /** The bytes of region A, then those of region B. */
  ghost function Regional(v: seq<byte>, aStart: nat, aEnd: nat, bEnd: nat): (c: seq<byte>)
    requires aStart <= aEnd <= |v| && bEnd <= |v|
    ensures |c| == aEnd - aStart + bEnd
  {
    v[aStart..aEnd] + v[..bEnd]
  }

  /** A buffer with `src` copied in at some place. */
  ghost function Patched(v: seq<byte>, at: nat, src: seq<byte>): (v': seq<byte>)
    requires at + |src| <= |v|
    ensures |v'| == |v|
  {
    v[..at] + src + v[at + |src|..]
  }

  lemma PatchAfterA(v: seq<byte>, aStart: nat, aEnd: nat, src: seq<byte>)
    requires aStart <= aEnd && aEnd + |src| <= |v|
    ensures Regional(Patched(v, aEnd, src), aStart, aEnd + |src|, 0) == Regional(v, aStart, aEnd, 0) + src
  {
  }

  lemma PatchAfterB(v: seq<byte>, aStart: nat, aEnd: nat, bEnd: nat, src: seq<byte>)
    requires bEnd + |src| <= aStart <= aEnd <= |v|
    ensures Regional(Patched(v, bEnd, src), aStart, aEnd, bEnd + |src|) == Regional(v, aStart, aEnd, bEnd) + src
  {
    var v' := Patched(v, bEnd, src);
    assert v'[aStart..aEnd] == v[aStart..aEnd];
    assert v'[..bEnd + |src|] == v[..bEnd] + src;
  }

  lemma DropFromA(v: seq<byte>, aStart: nat, aEnd: nat, bEnd: nat, n: nat)
    requires aStart + n <= aEnd <= |v| && bEnd <= |v|
    ensures Regional(v, aStart, aEnd, bEnd) == v[aStart..aStart + n] + Regional(v, aStart + n, aEnd, bEnd)
  {
    assert v[aStart..aEnd] == v[aStart..aStart + n] + v[aStart + n..aEnd];
  }

  class Bip {
    var aStart: nat
    var aEnd: nat
    var bEnd: nat
    var closed: bool
    var canWrite: bool
    var canRead: bool
    /** The Windows events a blocked writer and a blocked reader wait for. */
    var evtWrite: bool
    var evtRead: bool
    const buff: array<byte>
    /** All bytes ever written and ever read. */
    ghost var totalIn: seq<byte>
    ghost var totalOut: seq<byte>

    /** Region A, then region B. */
    ghost function Contents(): seq<byte>
      reads this, buff
      requires aStart <= aEnd <= buff.Length && bEnd <= buff.Length
    {
      Regional(buff[..], aStart, aEnd, bEnd)
    }

    /** Region B is in use only once region A reaches the end of the buffer. */
    ghost predicate Regions()
      reads this, buff
    {
      && buff.Length == BIP_BUFFER_SIZE
      && bEnd <= aStart <= aEnd <= BIP_BUFFER_SIZE
      && (bEnd > 0 ==> aEnd == BIP_BUFFER_SIZE)
    }

    ghost predicate Valid()
      reads this, buff
    {
      && Regions()
      && (aStart == aEnd ==> aEnd == 0)
      && (canRead <==> Contents() != [])
      && (canWrite <==> |Contents()| < BIP_BUFFER_SIZE)
      && (canRead ==> evtRead) && (evtRead ==> canRead || closed)
      && (canWrite ==> evtWrite) && (evtWrite ==> canWrite || closed)
      && totalIn == totalOut + Contents()
    }

    /** bip_buffer_init */
    constructor ()
      ensures Valid() && Contents() == [] && !closed && fresh(buff)
      ensures totalIn == [] && totalOut == []
    {
      buff := new byte[BIP_BUFFER_SIZE](_ => 0);
      aStart, aEnd, bEnd := 0, 0, 0;
      canWrite, canRead, closed := true, false, false;
      evtWrite, evtRead := true, false;
      totalIn, totalOut := [], [];
    }

    /** bip_buffer_close: wake whoever waits. */
    method Close()
      requires Valid()
      modifies this`closed, this`evtRead, this`evtWrite
      ensures Valid() && closed && evtRead && evtWrite && Contents() == old(Contents())
    {
      closed := true;
      if !canRead {
        evtRead := true;
      }
      if !canWrite {
        evtWrite := true;
      }
    }

    /** memcpy into the buffer. */
    method CopyIn(at: nat, src: seq<byte>)
      requires at + |src| <= buff.Length
      modifies buff
      ensures buff[..] == Patched(old(buff[..]), at, src)
    {
      forall i | 0 <= i < |src| {
        buff[at + i] := src[i];
      }
    }

    /** Append to region A; region B is empty then. */
    method AppendA(src: seq<byte>) returns (n: nat)
      requires Regions() && aEnd < BIP_BUFFER_SIZE
      modifies this`aEnd, buff
      ensures Regions() && n == Min(|src|, BIP_BUFFER_SIZE - old(aEnd)) && aEnd == old(aEnd) + n
      ensures Contents() == old(Contents()) + src[..n]
    {
      n := Min(BIP_BUFFER_SIZE - aEnd, |src|);
      PatchAfterA(buff[..], aStart, aEnd, src[..n]);
      CopyIn(aEnd, src[..n]);
      aEnd := aEnd + n;
    }

    /** Append to region B, up to the start of region A. */
    method AppendB(src: seq<byte>) returns (n: nat)
      requires Regions() && aEnd == BIP_BUFFER_SIZE
      modifies this`bEnd, buff
      ensures Regions() && n == Min(|src|, aStart - old(bEnd)) && bEnd == old(bEnd) + n
      ensures Contents() == old(Contents()) + src[..n]
    {
      n := Min(aStart - bEnd, |src|);
      PatchAfterB(buff[..], aStart, aEnd, bEnd, src[..n]);
      CopyIn(bEnd, src[..n]);
      bEnd := bEnd + n;
    }

    /** Take from the start of region A. */
    method TakeA(len: nat) returns (dst: seq<byte>)
      requires Regions()
      modifies this`aStart
      ensures Regions() && |dst| == Min(len, aEnd - old(aStart)) && aStart == old(aStart) + |dst|
      ensures old(Contents()) == dst + Contents()
    {
      var n := Min(aEnd - aStart, len);
      DropFromA(buff[..], aStart, aEnd, bEnd, n);
      dst := buff[..][aStart..aStart + n];
      aStart := aStart + n;
    }

    /** When region A is used up, region B becomes region A. */
    method Swap()
      requires Regions() && aStart == aEnd
      modifies this`aStart, this`aEnd, this`bEnd
      ensures Regions() && aStart == 0 && aEnd == old(bEnd) && bEnd == 0
      ensures Contents() == old(Contents())
    {
      aStart, aEnd, bEnd := 0, bEnd, 0;
    }

    /** The copying of bip_buffer_write, with the flag for writers. */
    method Fill(src: seq<byte>) returns (count: nat)
      requires Regions() && |Contents()| < BIP_BUFFER_SIZE && canWrite && evtWrite && src != []
      requires aStart == aEnd ==> aEnd == 0
      modifies this`aEnd, this`bEnd, this`canWrite, this`evtWrite, buff
      ensures Regions() && aStart < aEnd
      ensures count == Min(|src|, BIP_BUFFER_SIZE - old(|Contents()|)) > 0
      ensures Contents() == old(Contents()) + src[..count]
      ensures canWrite == evtWrite == (|Contents()| < BIP_BUFFER_SIZE)
    {
      hide Regional;
      count := 0;
      if aEnd < BIP_BUFFER_SIZE {
        count := AppendA(src);
      }
      if aEnd == BIP_BUFFER_SIZE && aStart == 0 {
        canWrite, evtWrite := false, false;
      } else if count < |src| {
        assert aStart - bEnd > 0;
        var more := AppendB(src[count..]);
        assert src[..count + more] == src[..count] + src[count..][..more];
        count := count + more;
        if bEnd == aStart {
          canWrite, evtWrite := false, false;
        }
      }
    }

    /** bip_buffer_write: append all that fits. A call that has to wait is taken up again with how the wait ended. */
    method Write(src: seq<byte>, wait: Wait) returns (r: Outcome)
      requires Valid()
      modifies this`aEnd, this`bEnd, this`canWrite, this`canRead, this`evtWrite, this`evtRead, this`totalIn, buff
      ensures Valid()
      ensures r == if src == [] || wait.Failed? then Count(0)
                   else if wait.Woken? && closed then Broken
                   else if old(|Contents()|) == BIP_BUFFER_SIZE then (if closed then Broken else MustWait)
                   else Count(Min(|src|, BIP_BUFFER_SIZE - old(|Contents()|)))
      ensures r.Count? ==> Contents() == old(Contents()) + src[..r.n] && totalIn == old(totalIn) + src[..r.n]
      ensures !r.Count? ==> Contents() == old(Contents()) && totalIn == old(totalIn)
    {
      hide Regional;
      if src == [] || wait.Failed? {
        return Count(0);
      }
      if wait.Woken? && closed {
        return Broken;
      }
      if !canWrite {
        return if closed then Broken else MustWait;
      }
      var count := Fill(src);
      assert count > 0;
      if !canRead {
        canRead, evtRead := true, true;
      }
      totalIn := totalIn + src[..count];
      r := Count(count);
    }

    /** The copying of bip_buffer_read, with the flag for readers. */
    method Empty(len: nat) returns (dst: seq<byte>)
      requires Regions() && aStart < aEnd && canRead && evtRead && len > 0
      modifies this`aStart, this`aEnd, this`bEnd, this`canRead, this`evtRead
      ensures Regions() && (aStart == aEnd ==> aEnd == 0)
      ensures |dst| == Min(len, old(|Contents()|)) > 0
      ensures old(Contents()) == dst + Contents()
      ensures canRead == evtRead == (Contents() != [])
    {
      hide Regional;
      dst := TakeA(len);
      if aStart == aEnd {
        Swap();
        if aEnd > 0 {
          var more := TakeA(len - |dst|);
          dst := dst + more;
        }
        if aStart == aEnd {
          assert Contents() == [];
          aStart, aEnd := 0, 0;
          assert Contents() == [];
          canRead, evtRead := false, false;
        }
      }
    }

    /** bip_buffer_read: remove the first bytes, as many as are asked for and there. */
    method Read(len: nat, wait: Wait) returns (r: Outcome, dst: seq<byte>)
      requires Valid()
      modifies this`aStart, this`aEnd, this`bEnd, this`canWrite, this`canRead, this`evtWrite, this`evtRead, this`totalOut
      ensures Valid()
      ensures r == if len == 0 || wait.Failed? then Count(0)
                   else if wait.Woken? && closed then Broken
                   else if old(Contents()) == [] then (if closed then Broken else MustWait)
                   else Count(Min(len, old(|Contents()|)))
      ensures |dst| == (if r.Count? then r.n else 0) && old(Contents()) == dst + Contents()
      ensures totalOut == old(totalOut) + dst
    {
      hide Regional;
      dst := [];
      if len == 0 || wait.Failed? {
        return Count(0), dst;
      }
      if wait.Woken? && closed {
        return Broken, dst;
      }
      if !canRead {
        return if closed then Broken else MustWait, dst;
      }
      assert aEnd - aStart > 0;
      dst := Empty(len);
      assert |dst| > 0;
      if !canWrite {
        canWrite, evtWrite := true, true;
      }
      totalOut := totalOut + dst;
      r := Count(|dst|);
    }
  }

  /**
   * A reader that waits fails although bytes are there: they are written, and the buffer closed,
   * before it gets to run. One that comes later gets them.
   */
  method WaitingReaderFails(data: seq<byte>, len: nat) returns (waiting: Outcome, woken: Outcome, later: Outcome, got: seq<byte>)
    requires 0 < |data| <= len && |data| <= BIP_BUFFER_SIZE
    ensures waiting == MustWait && woken == Broken && later == Count(|data|) && got == data
  {
    hide Regional;
    var bip := new Bip();
    waiting, got := bip.Read(len, Fresh);
    var wrote := bip.Write(data, Fresh);
    assert data[..|data|] == data && [] + data == data;
    assert bip.Contents() == data;
    bip.Close();
    woken, got := bip.Read(len, Woken);
    assert bip.Contents() == data;
    later, got := bip.Read(len, Fresh);
    assert data == got + bip.Contents();
  }
}
