/**
 * The packet queue of a socket (core/adb/sockets.c): apackets chained through their own next
 * pointers from pkt_first to pkt_last, each with a pointer and a length that the write loops move.
 */
module PacketQueues {
  import opened Basics
  import opened Lists
  import opened Sockets

  class APacket {
    var next: APacket?
    const data: seq<byte>
    /** What is still to be written is data[ptr..ptr + len]. */
    var ptr: nat
    var len: nat

    constructor (data: seq<byte>)
      ensures this.data == data && ptr == 0 && len == |data| && next == null
    {
      this.data, ptr, len, next := data, 0, |data|, null;
    }

    ghost predicate Fits()
      reads this`ptr, this`len
    {
      ptr + len == |data|
    }

    ghost function Rest(): seq<byte>
      requires Fits()
      reads this`ptr, this`len
    {
      data[ptr..]
    }
  }

  /** The bytes that some packets still hold, packet by packet. */
  ghost function Rests(ps: seq<APacket>): (r: seq<seq<byte>>)
    requires forall p :: p in ps ==> p.Fits()
    reads ps`ptr, ps`len
    ensures |r| == |ps|
  {
    if ps == [] then [] else [ps[0].Rest()] + Rests(ps[1..])
  }

  lemma {:induction false} RestsConcat(a: seq<APacket>, b: seq<APacket>)
    requires forall p :: p in a + b ==> p.Fits()
    ensures (forall p :: p in a ==> p.Fits()) && forall p :: p in b ==> p.Fits()
    ensures Rests(a + b) == Rests(a) + Rests(b)
  {
    assert forall p :: p in a ==> p in a + b;
    assert forall p :: p in b ==> p in a + b;
    if a == [] {
      assert a + b == b;
    } else {
      assert (a + b)[1..] == a[1..] + b;
      RestsConcat(a[1..], b);
    }
  }

  /** What a write loop that stops has done, followed by what it leaves. */
  function After(wrote: seq<byte>, d: Drained): Drained {
    d.(wrote := wrote + d.wrote)
  }

  lemma AfterTwice(a: seq<byte>, b: seq<byte>, d: Drained)
    ensures After(a, After(b, d)) == After(a + b, d)
  {
    Assoc(a, b, d.wrote);
  }

  lemma AfterNothing(d: Drained)
    ensures After([], d) == d
  {
    assert [] + d.wrote == d.wrote;
  }

  /** One write of some bytes. */
  lemma DrainStep(rest: seq<byte>, more: seq<seq<byte>>, calls: seq<WriteCall>, retry: bool)
    requires rest != [] && calls != []
    ensures var d := Drain([rest] + more, calls, retry);
            match calls[0]
            case Wrote(n) =>
              if n == 0 then d == Drained([], [rest] + more, Broken)
              else var k := Min(n, |rest|); d == After(rest[..k], Drain([rest[k..]] + more, calls[1..], retry))
            case WriteAgain => d == Drained([], [rest] + more, Blocked)
            case WriteIntr => d == if retry then Drain([rest] + more, calls[1..], retry) else Drained([], [rest] + more, Broken)
            case WriteFail => d == Drained([], [rest] + more, Broken)
  {
    var queue := [rest] + more;
    assert queue[1..] == more;
  }

  lemma DrainNext(more: seq<seq<byte>>, calls: seq<WriteCall>, retry: bool)
    ensures Drain([[]] + more, calls, retry) == Drain(more, calls, retry)
  {
    assert ([[]] + more)[1..] == more;
  }

  lemma DrainWaits(rest: seq<byte>, more: seq<seq<byte>>, retry: bool)
    requires rest != []
    ensures Drain([rest] + more, [], retry) == Drained([], [rest] + more, Blocked)
  {
  }

  /**
   * The loop over one packet, moving its pointer and length: of the event handler, which retries an
   * interrupted write, and of enqueue, which does not. `more` is what is queued behind the packet.
   */
  method WritePacket(p: APacket, wcalls: seq<WriteCall>, at: nat, retry: bool, ghost more: seq<seq<byte>>)
    returns (i: nat, ghost wrote: seq<byte>, stop: Option<WriteEnd>)
    requires p.Fits() && at <= |wcalls|
    modifies p`ptr, p`len
    ensures p.Fits() && at <= i <= |wcalls| && (stop.None? <==> p.len == 0)
    ensures var whole := Drain([old(p.Rest())] + more, wcalls[at..], retry);
            whole == After(wrote, if stop.None? then Drain(more, wcalls[i..], retry)
                                  else Drained([], [p.Rest()] + more, stop.value))
  {
    hide Drain;
    i, wrote, stop := at, [], None;
    AfterNothing(Drain([p.Rest()] + more, wcalls[at..], retry));
    while p.len > 0
      invariant p.Fits() && at <= i <= |wcalls|
      invariant Drain([old(p.Rest())] + more, wcalls[at..], retry) == After(wrote, Drain([p.Rest()] + more, wcalls[i..], retry))
      decreases |wcalls| - i
    {
      ghost var rest := p.Rest();
      if i == |wcalls| {
        DrainWaits(rest, more, retry);
        return i, wrote, Some(Blocked);
      }
      DrainStep(rest, more, wcalls[i..], retry);
      assert wcalls[i..][1..] == wcalls[i + 1..];
      match wcalls[i] {
        case Wrote(n) =>
          var r := Min(n, p.len);
          if r == 0 {
            return i, wrote, Some(Broken);
          }
          AfterTwice(wrote, rest[..r], Drain([rest[r..]] + more, wcalls[i + 1..], retry));
          wrote := wrote + rest[..r];
          p.ptr, p.len := p.ptr + r, p.len - r;
          assert p.Rest() == rest[r..];
        case WriteAgain =>
          return i, wrote, Some(Blocked);
        case WriteIntr =>
          if !retry {
            return i, wrote, Some(Broken);
          }
        case WriteFail =>
          return i, wrote, Some(Broken);
      }
      i := i + 1;
    }
    DrainNext(more, wcalls[i..], retry);
  }

  class PacketQueue {
    var first: APacket?
    var last: APacket?
    /** The chain from first to last. */
    ghost var packets: seq<APacket>

    ghost predicate Valid()
      reads this, packets
    {
      && Distinct(packets)
      && (forall i :: 0 <= i < |packets| - 1 ==> packets[i].next == packets[i + 1])
      && (forall p :: p in packets ==> p.Fits())
      && if packets == [] then first == null && last == null
         else first == packets[0] && last == packets[|packets| - 1] && packets[|packets| - 1].next == null
    }

    ghost function Contents(): seq<seq<byte>>
      requires Valid()
      reads this, packets
    {
      Rests(packets)
    }

    constructor ()
      ensures Valid() && packets == [] && Contents() == []
    {
      first, last, packets := null, null, [];
    }

    /** Chain a packet to the last one. */
    method Chain(p: APacket)
      requires Valid() && p !in packets && p.Fits()
      modifies this, p`next, packets`next
      ensures Valid() && packets == old(packets) + [p]
    {
      p.next := null;
      if first != null {
        last.next := p;
      } else {
        first := p;
      }
      last := p;
      packets := packets + [p];
    }

    /** The end of local_socket_enqueue. */
    method Append(p: APacket)
      requires Valid() && p !in packets && p.Fits()
      modifies this, p`next, packets`next
      ensures Valid() && packets == old(packets) + [p]
      ensures Contents() == old(Contents()) + [p.Rest()]
    {
      hide Valid;
      ghost var was := packets;
      Chain(p);
      RestsConcat(was, [p]);
      assert [p][1..] == [];
    }

    /** Take off a packet that is written out. */
    method Pop()
      requires Valid() && packets != []
      modifies this
      ensures Valid() && packets == old(packets)[1..] && old(Contents()) == [old(packets)[0].Rest()] + Contents()
    {
      first := first.next;
      if first == null {
        last := null;
      }
      packets := packets[1..];
    }

    /** Drop everything, as local_socket_destroy does packet by packet. */
    method Discard()
      requires Valid()
      modifies this
      ensures Valid() && packets == [] && Contents() == []
    {
      while first != null
        invariant Valid()
        decreases |packets|
      {
        Pop();
      }
    }

    /** Write the first packet and take it off if it is done. */
    method WriteFirst(wcalls: seq<WriteCall>, at: nat) returns (i: nat, ghost wrote: seq<byte>, stop: Option<WriteEnd>)
      requires Valid() && packets != [] && at <= |wcalls|
      modifies this, first`ptr, first`len
      ensures Valid() && at <= i <= |wcalls| && packets == if stop.None? then old(packets)[1..] else old(packets)
      ensures Drain(old(Contents()), wcalls[at..], true) ==
              After(wrote, if stop.None? then Drain(Contents(), wcalls[i..], true) else Drained([], Contents(), stop.value))
    {
      hide Drain, After;
      ghost var rest := packets[1..];
      assert packets[0] !in rest;
      i, wrote, stop := WritePacket(first, wcalls, at, true, Rests(rest));
      if stop.None? {
        Pop();
      }
    }

    /** The write loop of the event handler over the whole queue. */
    method WriteOut(wcalls: seq<WriteCall>) returns (ghost wrote: seq<byte>, end: WriteEnd)
      requires Valid()
      modifies this, packets`ptr, packets`len
      ensures Valid() && (forall p :: p in packets ==> p in old(packets))
      ensures Drain(old(Contents()), wcalls, true) == Drained(wrote, Contents(), end)
    {
      hide Drain;
      var i := 0;
      wrote := [];
      assert wcalls[0..] == wcalls;
      AfterNothing(Drain(Contents(), wcalls, true));
      while first != null
        invariant Valid() && 0 <= i <= |wcalls|
        invariant forall p :: p in packets ==> p in old(packets)
        invariant Drain(old(Contents()), wcalls, true) == After(wrote, Drain(Contents(), wcalls[i..], true))
        decreases |packets|
      {
        ghost var now;
        var stop;
        assert packets[0] in packets;
        i, now, stop := WriteFirst(wcalls, i);
        AfterTwice(wrote, now, if stop.None? then Drain(Contents(), wcalls[i..], true) else Drained([], Contents(), stop.value));
        wrote := wrote + now;
        if stop.Some? {
          assert wrote + [] == wrote;
          end := stop.value;
          return;
        }
      }
      NothingToDrain(wcalls[i..], true);
      assert wrote + [] == wrote;
      end := Finished;
    }
  }

  lemma NothingToDrain(calls: seq<WriteCall>, retry: bool)
    ensures Drain([], calls, retry) == Drained([], [], Finished)
  {
  }
}
