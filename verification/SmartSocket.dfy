/**
 * The smart socket of core/adb/sockets.c: it gathers the packets of a request, four hex
 * digits of length and a service name, and dispatches the name once it is complete.
 */
module SmartSocket {
  import opened Basics
  import opened Hex

  const REQUEST_MAX: nat := 1024

  datatype Outcome = Wait | Fail | Dispatch(name: seq<byte>)

  /** What smart_socket_enqueue does with all the bytes gathered so far. */
  function Judge(b: seq<byte>): Outcome {
    if |b| < 4 then Wait
    else
      var len := match Value(b[..4]) case None => U32_END - 1 case Some(v) => v % U32_END;
      if len < 1 || len > REQUEST_MAX then Fail
      else if len + 4 > |b| then Wait
      else Dispatch(CStr(b[4..4 + len]))
  }

  class SmartSocket {
    /** The gathered packet, pkt_first; None before the first one. */
    var first: Option<seq<byte>>

    constructor ()
      ensures first == None
    {
      first := None;
    }

    ghost function Gathered(): seq<byte>
      reads this
    {
      if first.Some? then first.value else []
    }

    /** smart_socket_enqueue, up to the dispatch. */
    method Enqueue(p: seq<byte>) returns (r: Outcome)
      requires |p| <= MAX_PAYLOAD
      modifies this
      ensures if |old(Gathered())| + |p| > MAX_PAYLOAD then r == Fail && first == old(first)
              else Gathered() == old(Gathered()) + p && r == Judge(Gathered())
    {
      if first.None? {
        first := Some(p);
      } else {
        if |first.value| + |p| > MAX_PAYLOAD {
          return Fail;
        }
        first := Some(first.value + p);
      }
      var b := first.value;
      if |b| < 4 {
        return Wait;
      }
      var len := Unhex(b[..4]);
      if len < 1 || len > REQUEST_MAX {
        return Fail;
      }
      if len + 4 > |b| {
        return Wait;
      }
      r := Dispatch(CStr(b[4..4 + len]));
    }

    /** After a "transport" request the packet is kept, with nothing in it. */
    method Rearm()
      modifies this
      ensures Gathered() == [] && (old(first).Some? ==> first.Some?)
    {
      if first.Some? {
        first := Some([]);
      }
    }
  }

  // Requests.

  predicate NameOk(name: seq<byte>) {
    1 <= |name| <= REQUEST_MAX && 0 !in name
  }

  function Request(name: seq<byte>): seq<byte> {
    Print(|name|, 4) + name
  }

  /** What the first four bytes of a request say. */
  lemma LengthField(name: seq<byte>, b: seq<byte>)
    requires NameOk(name) && |b| >= 4 && b[..4] == Print(|name|, 4)
    ensures Value(b[..4]) == Some(|name|)
  {
    PowersOf16();
    PrintValue(|name|, 4);
  }

  /** A request that is not complete is waited on. */
  lemma JudgePrefix(name: seq<byte>, b: seq<byte>)
    requires NameOk(name) && b < Request(name)
    ensures Judge(b) == Wait
  {
    hide Value, Print;
    if |b| >= 4 {
      assert b[..4] == Request(name)[..4] == Print(|name|, 4);
      LengthField(name, b);
    }
  }

  /** A complete one is dispatched, whatever follows. */
  lemma JudgeWhole(name: seq<byte>, more: seq<byte>)
    requires NameOk(name)
    ensures Judge(Request(name) + more) == Dispatch(name)
  {
    hide Value, Print;
    var b := Request(name) + more;
    assert b[..4] == Print(|name|, 4) && b[4..4 + |name|] == name;
    LengthField(name, b);
    CStrOfName(name);
  }

  /** A request cut into packets in some way. */
  predicate Cuts(chunks: seq<seq<byte>>, name: seq<byte>) {
    && (forall k :: 0 <= k < |chunks| ==> 0 < |chunks[k]|)
    && Flatten(chunks) == Request(name)
  }

  /** The answers of the socket to a request that arrives in n packets. */
  predicate WaitsThenDispatches(outcomes: seq<Outcome>, n: nat, name: seq<byte>) {
    && |outcomes| == n && n > 0
    && (forall k :: 0 <= k < n - 1 ==> outcomes[k] == Wait)
    && outcomes[n - 1] == Dispatch(name)
  }

  lemma {:induction false} FlattenSplit(chunks: seq<seq<byte>>, i: nat)
    requires i <= |chunks|
    ensures Flatten(chunks) == Flatten(chunks[..i]) + Flatten(chunks[i..])
  {
    assert chunks == chunks[..i] + chunks[i..];
    FlattenConcat(chunks[..i], chunks[i..]);
  }

  lemma RestIsNotEmpty(chunks: seq<seq<byte>>, i: nat)
    requires i < |chunks| && forall k :: 0 <= k < |chunks| ==> 0 < |chunks[k]|
    ensures Flatten(chunks[i..]) != []
  {
    assert Flatten(chunks[i..]) == chunks[i] + Flatten(chunks[i..][1..]);
  }

  /** However a request is cut, the socket waits for its last packet and dispatches exactly its name. */
  method Feed(s: SmartSocket, chunks: seq<seq<byte>>, ghost name: seq<byte>) returns (outcomes: seq<Outcome>)
    requires s.Gathered() == [] && NameOk(name) && Cuts(chunks, name)
    modifies s
    ensures WaitsThenDispatches(outcomes, |chunks|, name)
  {
    hide Judge, Request, Flatten;
    outcomes := [];
    var i := 0;
    assert Flatten(chunks[..0]) == [] by { FlattenSplit(chunks, 0); EmptyFlatten(chunks[..0]); }
    while i < |chunks|
      invariant 0 <= i <= |chunks| && |outcomes| == i
      invariant s.Gathered() == Flatten(chunks[..i])
      invariant forall k :: 0 <= k < i && k < |chunks| - 1 ==> outcomes[k] == Wait
      invariant i == |chunks| > 0 ==> outcomes[i - 1] == Dispatch(name)
    {
      ghost var next := chunks[..i] + [chunks[i]];
      assert chunks[..i + 1] == next;
      FlattenSnoc(chunks[..i], chunks[i]);
      FlattenSplit(chunks, i + 1);
      RequestLength(name);
      var o := s.Enqueue(chunks[i]);
      if i + 1 < |chunks| {
        RestIsNotEmpty(chunks, i + 1);
        JudgePrefix(name, s.Gathered());
      } else {
        EmptyFlatten(chunks[i + 1..]);
        assert s.Gathered() == Request(name) + [];
        JudgeWhole(name, []);
      }
      outcomes := outcomes + [o];
      i := i + 1;
    }
    if chunks == [] {
      EmptyFlatten(chunks);
      RequestLength(name);
      assert false;
    }
  }

  lemma EmptyFlatten(chunks: seq<seq<byte>>)
    requires chunks == []
    ensures Flatten(chunks) == []
  {
  }

  lemma RequestLength(name: seq<byte>)
    ensures |Request(name)| == 4 + |name|
  {
  }

  /** After a "transport" request the second request is decoded from the reused packet. */
  method FeedTwo(s: SmartSocket, chunks1: seq<seq<byte>>, chunks2: seq<seq<byte>>, ghost name1: seq<byte>, ghost name2: seq<byte>)
    returns (out1: seq<Outcome>, out2: seq<Outcome>)
    requires s.Gathered() == [] && NameOk(name1) && NameOk(name2) && Cuts(chunks1, name1) && Cuts(chunks2, name2)
    modifies s
    ensures WaitsThenDispatches(out1, |chunks1|, name1) && WaitsThenDispatches(out2, |chunks2|, name2)
  {
    out1 := Feed(s, chunks1, name1);
    s.Rearm();
    out2 := Feed(s, chunks2, name2);
  }

  /**
   * The first bytes of a second request that share a packet with the end of the first are
   * dropped on rearming. What is left of it is dispatched as that request exactly when
   * nothing was dropped.
   */
  lemma SharedPacketIff(name1: seq<byte>, name2: seq<byte>, shared: seq<byte>, left: seq<byte>)
    requires NameOk(name1) && NameOk(name2) && Request(name2) == shared + left
    ensures Judge(Request(name1) + shared) == Dispatch(name1)
    ensures Judge(left) == Dispatch(name2) <==> shared == []
  {
    JudgeWhole(name1, shared);
    if shared == [] {
      assert left == Request(name2) + [];
      JudgeWhole(name2, []);
    } else {
      RequestLength(name2);
      if Judge(left).Dispatch? {
        DispatchLength(left);
      }
    }
  }

  lemma {:induction false} CStrLength(b: seq<byte>)
    ensures |CStr(b)| <= |b|
  {
    if b != [] && b[0] != 0 {
      CStrLength(b[1..]);
    }
  }

  lemma DispatchLength(b: seq<byte>)
    requires Judge(b).Dispatch?
    ensures |Judge(b).name| + 4 <= |b|
  {
    var len := Value(b[..4]).value % U32_END;
    CStrLength(b[4..4 + len]);
  }

  /** A request fails exactly if its first four bytes are not a number from 1 to 1024. */
  lemma FailsIff(b: seq<byte>)
    ensures Judge(b) == Fail <==> |b| >= 4 && (Value(b[..4]).None? || Value(b[..4]).value == 0 || Value(b[..4]).value > 1024)
    ensures Judge(b) == Wait <==>
            |b| < 4 || (Value(b[..4]).Some? && 1 <= Value(b[..4]).value <= 1024 && |b| < 4 + Value(b[..4]).value)
  {
    if |b| >= 4 && Value(b[..4]).Some? {
      ValueBound(b[..4]);
      PowersOf16();
    }
    hide Value;
  }
}
