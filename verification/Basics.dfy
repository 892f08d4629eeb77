/** What several modules share: bytes and words, optional values, C strings, flattening. */
module Basics {

  type byte = x: int | 0 <= x < 256

  const U32_END: nat := 0x1_0000_0000
  const MAX_U32: nat := U32_END - 1

  type u32 = x: int | 0 <= x <= MAX_U32

  /** The most payload bytes of one adb packet. */
  const MAX_PAYLOAD: nat := 4096

  datatype Option<+T> = None | Some(value: T)

  function Min(a: int, b: int): int {
    if a < b then a else b
  }

  /** Concatenation of a sequence of chunks. */
  function Flatten<T>(chunks: seq<seq<T>>): seq<T> {
    if chunks == [] then [] else chunks[0] + Flatten(chunks[1..])
  }

  lemma {:induction false} FlattenConcat<T>(a: seq<seq<T>>, b: seq<seq<T>>)
    ensures Flatten(a + b) == Flatten(a) + Flatten(b)
  {
    if a == [] {
      assert a + b == b;
    } else {
      assert (a + b)[1..] == a[1..] + b;
      FlattenConcat(a[1..], b);
    }
  }

  lemma FlattenSnoc<T>(a: seq<seq<T>>, x: seq<T>)
    ensures Flatten(a + [x]) == Flatten(a) + x
  {
    FlattenConcat(a, [x]);
    assert Flatten([x]) == x + Flatten<T>([]);
  }

  lemma Assoc<T>(a: seq<T>, b: seq<T>, c: seq<T>)
    ensures a + b + c == a + (b + c)
  {
  }

  /** One more piece of a sequence. */
  lemma PrefixGrows<T>(a: seq<T>, i: nat, n: nat)
    requires i + n <= |a|
    ensures a[..i + n] == a[..i] + a[i..i + n] && a[i..][..n] == a[i..i + n]
  {
  }

  lemma ConcatParts<T>(a: seq<T>, b: seq<T>, i: nat)
    requires i <= |a|
    ensures (a + b)[..i] == a[..i] && (a + b)[i..] == a[i..] + b
  {
  }

  function Zeros(n: nat): (z: seq<byte>)
    ensures |z| == n
  {
    seq(n, _ => 0)
  }

  /** The bytes before the first NUL. */
  function CStr(s: seq<byte>): seq<byte> {
    if s == [] || s[0] == 0 then [] else [s[0]] + CStr(s[1..])
  }

  lemma {:induction false} CStrOfName(name: seq<byte>)
    requires 0 !in name
    ensures CStr(name) == name
  {
    if name != [] {
      CStrOfName(name[1..]);
    }
  }

  lemma {:induction false} CStrStops(s: seq<byte>)
    ensures CStr(s) <= s && 0 !in CStr(s) && (|CStr(s)| < |s| ==> s[|CStr(s)|] == 0)
  {
    if s != [] {
      CStrStops(s[1..]);
    }
  }
}
