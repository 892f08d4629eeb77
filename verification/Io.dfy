/**
 * Descriptors with short transfers, and the loops over them in core/adb/transport.c.
 * A descriptor carries a plan of how the kernel treats the next calls; a statement for
 * every plan is a statement for every way the kernel may cut the transfers up.
 */
module Io {
  import opened Basics

  /** One call: transfer up to n bytes (at least one), or fail in one of three ways. */
  datatype Call = Moves(n: nat) | Interrupted | WouldBlock | Broken

  /** No call of the plan fails for good; interrupted calls are retried. */
  predicate Soft(plan: seq<Call>) {
    forall k :: 0 <= k < |plan| ==> plan[k].Moves? || plan[k].Interrupted?
  }

  /** The count transferred when `most` bytes could be. */
  function Share(c: Call, most: nat): nat {
    if c.Moves? && 1 <= c.n <= most then c.n else most
  }

  datatype Result = Bytes(data: seq<byte>) | Failure(retry: bool)

  /** The next call of a plan; beyond its end everything is transferred at once. */
  function Next(plan: seq<Call>): Call {
    if plan == [] then Moves(0) else plan[0]
  }

  function Later(plan: seq<Call>): seq<Call> {
    if plan == [] then [] else plan[1..]
  }

  class Fd {
    /** Bytes still to be read, and bytes written so far. */
    var input: seq<byte>
    var output: seq<byte>
    var plan: seq<Call>

    constructor (input: seq<byte>, plan: seq<Call>)
      ensures this.input == input && this.plan == plan && output == []
    {
      this.input, this.plan, output := input, plan, [];
    }

    /** adb_read; no bytes means end of file. */
    method Read(most: nat) returns (r: Result)
      requires most > 0
      modifies this`input, this`plan
      ensures plan == Later(old(plan))
      ensures r.Failure? <==> !Next(old(plan)).Moves?
      ensures r.Failure? ==> input == old(input) && r.retry == Next(old(plan)).Interrupted?
      ensures r.Bytes? ==> old(input) == r.data + input && |r.data| == Share(Next(old(plan)), Min(most, |old(input)|)) <= most
      ensures r.Bytes? ==> (r.data == [] <==> old(input) == [])
    {
      var c := Next(plan);
      plan := Later(plan);
      if !c.Moves? {
        return Failure(c.Interrupted?);
      }
      var n := Share(c, Min(most, |input|));
      r := Bytes(input[..n]);
      input := input[n..];
    }

    /** adb_write; the count is never zero on success. */
    method Write(data: seq<byte>) returns (n: nat, failed: bool, retry: bool)
      requires data != []
      modifies this`output, this`plan
      ensures plan == Later(old(plan))
      ensures failed <==> !Next(old(plan)).Moves?
      ensures failed ==> output == old(output) && retry == Next(old(plan)).Interrupted?
      ensures !failed ==> 1 <= n == Share(Next(old(plan)), |data|) <= |data| && output == old(output) + data[..n]
    {
      var c := Next(plan);
      plan := Later(plan);
      if !c.Moves? {
        return 0, true, c.Interrupted?;
      }
      n, failed, retry := Share(c, |data|), false, false;
      output := output + data[..n];
    }
  }

  /** How a transfer loop ends: whether all bytes got through, how many did, and what is left of the plan. */
  datatype Moved = Moved(ok: bool, count: nat, plan: seq<Call>)

  /** writex on `len` bytes. */
  function WriteOutcome(len: nat, plan: seq<Call>): (m: Moved)
    ensures m.count <= len && (m.ok <==> m.count == len)
    ensures Soft(plan) ==> m.ok && Soft(m.plan)
    decreases |plan|
  {
    if len == 0 then Moved(true, 0, plan)
    else if plan == [] then Moved(true, len, [])
    else if plan[0].Moves? then
      var n := Share(plan[0], len);
      Counted(n, WriteOutcome(len - n, plan[1..]))
    else if plan[0].Interrupted? then WriteOutcome(len, plan[1..])
    else Moved(false, 0, plan[1..])
  }

  /** Several pieces written one after the other, up to the first that does not get through. */
  function PiecesOutcome(pieces: seq<seq<byte>>, plan: seq<Call>): (m: Moved)
    ensures m.count <= |Flatten(pieces)| && (m.ok <==> m.count == |Flatten(pieces)|)
    ensures Soft(plan) ==> m.ok && Soft(m.plan)
  {
    if pieces == [] then Moved(true, 0, plan)
    else
      var m := WriteOutcome(|pieces[0]|, plan);
      if m.ok then Counted(m.count, PiecesOutcome(pieces[1..], m.plan)) else m
  }

  lemma {:induction false} PiecesMore(a: seq<seq<byte>>, b: seq<seq<byte>>, plan: seq<Call>)
    ensures var m := PiecesOutcome(a, plan);
            PiecesOutcome(a + b, plan) == if m.ok then Counted(m.count, PiecesOutcome(b, m.plan)) else m
  {
    hide WriteOutcome;
    if a == [] {
      assert a + b == b;
    } else {
      assert (a + b)[1..] == a[1..] + b;
      PiecesMore(a[1..], b, WriteOutcome(|a[0]|, plan).plan);
    }
  }

  lemma PiecesOne(pieces: seq<seq<byte>>, c: seq<byte>, plan: seq<Call>)
    requires PiecesOutcome(pieces, plan).ok
    ensures var m := PiecesOutcome(pieces, plan);
            PiecesOutcome(pieces + [c], plan) == Counted(m.count, WriteOutcome(|c|, m.plan))
  {
    hide WriteOutcome;
    PiecesMore(pieces, [c], plan);
    var m := WriteOutcome(|c|, PiecesOutcome(pieces, plan).plan);
    assert [c][1..] == [];
    assert PiecesOutcome([], m.plan) == Moved(true, 0, m.plan);
  }

  lemma NoPieces(plan: seq<Call>)
    ensures PiecesOutcome([], plan) == Moved(true, 0, plan) && Flatten<byte>([]) == []
  {
  }

  /** readx on `len` bytes when `there` are to come. */
  function ReadOutcome(len: nat, there: nat, plan: seq<Call>): (m: Moved)
    ensures m.count <= Min(len, there) && (m.ok <==> m.count == len)
    ensures Soft(plan) ==> (m.ok <==> len <= there) && (!m.ok ==> m.count == there) && Soft(m.plan)
    decreases |plan|, there
  {
    if len == 0 then Moved(true, 0, plan)
    else if !Next(plan).Moves? then
      if plan[0].Interrupted? then ReadOutcome(len, there, plan[1..]) else Moved(false, 0, plan[1..])
    else if there == 0 then Moved(false, 0, Later(plan))
    else
      var n := Share(Next(plan), Min(len, there));
      Counted(n, ReadOutcome(len - n, there - n, Later(plan)))
  }

  lemma ReadStep(len: nat, there: nat, plan: seq<Call>)
    requires len > 0
    ensures var m, c, n := ReadOutcome(len, there, plan), Next(plan), Share(Next(plan), Min(len, there));
            if c.Interrupted? then m == ReadOutcome(len, there, Later(plan))
            else if !c.Moves? || there == 0 then m == Moved(false, 0, Later(plan))
            else n <= Min(len, there) && m == Counted(n, ReadOutcome(len - n, there - n, Later(plan)))
  {
  }

  lemma WriteStep(len: nat, plan: seq<Call>)
    requires len > 0
    ensures var m, c, n := WriteOutcome(len, plan), Next(plan), Share(Next(plan), len);
            if c.Interrupted? then m == WriteOutcome(len, Later(plan))
            else if !c.Moves? then m == Moved(false, 0, Later(plan))
            else n <= len && m == Counted(n, WriteOutcome(len - n, Later(plan)))
  {
  }

  /** The same after n bytes that got through before. */
  function Counted(n: nat, m: Moved): Moved {
    m.(count := n + m.count)
  }

  /** readx: all of `len` bytes, or failure. */
  method Readx(fd: Fd, len: nat) returns (r: Option<seq<byte>>)
    modifies fd`input, fd`plan
    ensures var m := ReadOutcome(len, |old(fd.input)|, old(fd.plan));
            && r == (if m.ok then Some(old(fd.input)[..len]) else None)
            && fd.input == old(fd.input)[m.count..] && fd.plan == m.plan
  {
    hide ReadOutcome;
    var buf := [];
    while |buf| < len
      invariant |buf| <= len && old(fd.input) == buf + fd.input
      invariant ReadOutcome(len, |old(fd.input)|, old(fd.plan)) == Counted(|buf|, ReadOutcome(len - |buf|, |fd.input|, fd.plan))
      decreases |fd.plan|, len - |buf|
    {
      ReadStep(len - |buf|, |fd.input|, fd.plan);
      var got := fd.Read(len - |buf|);
      match got {
        case Bytes(data) =>
          if data == [] {
            return None;
          }
          buf := buf + data;
        case Failure(retry) =>
          if !retry {
            return None;
          }
      }
    }
    NothingMoves(|fd.input|, fd.plan);
    r := Some(buf);
  }

  lemma NothingMoves(there: nat, plan: seq<Call>)
    ensures ReadOutcome(0, there, plan) == WriteOutcome(0, plan) == Moved(true, 0, plan)
  {
  }

  /** writex: all of the data, or failure after a part of it. */
  method Writex(fd: Fd, data: seq<byte>) returns (ok: bool)
    modifies fd`output, fd`plan
    ensures var m := WriteOutcome(|data|, old(fd.plan));
            ok == m.ok && fd.plan == m.plan && fd.output == old(fd.output) + data[..m.count]
  {
    hide WriteOutcome;
    var done := 0;
    while done < |data|
      invariant 0 <= done <= |data| && fd.output == old(fd.output) + data[..done]
      invariant WriteOutcome(|data|, old(fd.plan)) == Counted(done, WriteOutcome(|data| - done, fd.plan))
      decreases |fd.plan|, |data| - done
    {
      WriteStep(|data| - done, fd.plan);
      var n, failed, retry := fd.Write(data[done..]);
      if failed {
        if !retry {
          return false;
        }
      } else {
        PrefixGrows(data, done, n);
        Assoc(old(fd.output), data[..done], data[done..done + n]);
        done := done + n;
      }
    }
    NothingMoves(0, fd.plan);
    ok := true;
  }

  /** The pieces in which a file comes when it is read to its end, and whether a read failed for good. */
  datatype Reading = Reading(chunks: seq<seq<byte>>, failed: bool)

  function ReadChunks(input: seq<byte>, plan: seq<Call>, most: nat): (r: Reading)
    requires most > 0
    ensures forall k :: 0 <= k < |r.chunks| ==> 0 < |r.chunks[k]| <= most
    decreases |plan|, |input|
  {
    var c := Next(plan);
    if !c.Moves? then
      if c.Interrupted? then ReadChunks(input, plan[1..], most) else Reading([], true)
    else if input == [] then Reading([], false)
    else
      var n := Share(c, Min(most, |input|));
      var r := ReadChunks(input[n..], Later(plan), most);
      r.(chunks := [input[..n]] + r.chunks)
  }

  /** No read fails for good before the last byte is in. */
  predicate ReadsWhole(input: seq<byte>, plan: seq<Call>, most: nat)
    requires most > 0
    decreases |plan|, |input|
  {
    || input == []
    || (if Next(plan).Moves? then ReadsWhole(input[Share(Next(plan), Min(most, |input|))..], Later(plan), most)
        else Next(plan).Interrupted? && ReadsWhole(input, plan[1..], most))
  }

  lemma {:induction false} ReadsWholeIff(input: seq<byte>, plan: seq<Call>, most: nat)
    requires most > 0
    ensures Flatten(ReadChunks(input, plan, most).chunks) <= input
    ensures Flatten(ReadChunks(input, plan, most).chunks) == input <==> ReadsWhole(input, plan, most)
    ensures !ReadChunks(input, plan, most).failed ==> ReadsWhole(input, plan, most)
    ensures Soft(plan) ==> !ReadChunks(input, plan, most).failed
    decreases |plan|, |input|
  {
    var c := Next(plan);
    if c.Interrupted? {
      ReadsWholeIff(input, plan[1..], most);
    } else if c.Moves? && input != [] {
      var n := Share(c, Min(most, |input|));
      var rest := ReadChunks(input[n..], Later(plan), most);
      ReadsWholeIff(input[n..], Later(plan), most);
      assert ReadChunks(input, plan, most).chunks[1..] == rest.chunks;
      assert input == input[..n] + input[n..];
      assert Flatten(ReadChunks(input, plan, most).chunks) == input[..n] + Flatten(rest.chunks);
      assert input[..n] + Flatten(rest.chunks) == input ==>
               Flatten(rest.chunks) == (input[..n] + Flatten(rest.chunks))[n..] == input[n..];
    }
  }
}
