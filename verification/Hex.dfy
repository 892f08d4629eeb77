/** Hexadecimal fields: printf's %0<w>x, and unhex of core/adb/sockets.c. */
module Hex {
  import opened Basics

  function Digit(d: nat): byte
    requires d < 16
  {
    if d < 10 then 48 + d else 87 + d
  }

  /** n in w lower-case digits, high digit first; exact when n < 16^w. */
  function Print(n: nat, w: nat): (b: seq<byte>)
    ensures |b| == w
  {
    if w == 0 then [] else Print(n / 16, w - 1) + [Digit(n % 16)]
  }

  function Pow16(w: nat): (p: nat)
    ensures p > 0
  {
    if w == 0 then 1 else 16 * Pow16(w - 1)
  }

  lemma PowersOf16()
    ensures Pow16(4) == 65536 && Pow16(8) == U32_END
  {
    assert Pow16(1) == 16 && Pow16(2) == 256 && Pow16(3) == 4096 && Pow16(4) == 65536;
    assert Pow16(5) == 1048576 && Pow16(6) == 16777216 && Pow16(7) == 268435456;
  }

  function DigitValue(c: byte): Option<nat> {
    if 48 <= c <= 57 then Some(c - 48)
    else if 97 <= c <= 102 then Some(c - 87)
    else if 65 <= c <= 70 then Some(c - 55)
    else None
  }

  /** The number a run of digits denotes; None if some character is no digit. */
  function Value(s: seq<byte>): Option<nat> {
    if s == [] then Some(0)
    else
      match (Value(s[..|s| - 1]), DigitValue(s[|s| - 1]))
      case (Some(high), Some(low)) => Some(16 * high + low)
      case _ => None
  }

  lemma {:induction false} PrintValue(n: nat, w: nat)
    requires n < Pow16(w)
    ensures Value(Print(n, w)) == Some(n)
  {
    if w > 0 {
      PrintValue(n / 16, w - 1);
      var b := Print(n, w);
      assert b[..|b| - 1] == Print(n / 16, w - 1);
    }
  }

  lemma {:induction false} ValueBound(s: seq<byte>)
    requires Value(s).Some?
    ensures Value(s).value < Pow16(|s|)
  {
    if s != [] {
      ValueBound(s[..|s| - 1]);
    }
  }

  lemma {:induction false} ValueNone(s: seq<byte>, i: nat)
    requires i < |s| && DigitValue(s[i]) == None
    ensures Value(s) == None
  {
    if i < |s| - 1 {
      ValueNone(s[..|s| - 1], i);
    }
  }

  /** unhex: the value modulo 2^32, or 0xffffffff at the first character that is no digit. */
  method Unhex(s: seq<byte>) returns (n: nat)
    ensures n == match Value(s) case None => U32_END - 1 case Some(v) => v % U32_END
  {
    n := 0;
    var i := 0;
    while i < |s|
      invariant 0 <= i <= |s| && Value(s[..i]).Some? && n == Value(s[..i]).value % U32_END
    {
      var c := DigitValue(s[i]);
      if c == None {
        ValueNone(s, i);
        return U32_END - 1;
      }
      assert s[..i + 1][..i] == s[..i];
      ShiftIn(Value(s[..i]).value, c.value);
      n := (16 * n + c.value) % U32_END;
      i := i + 1;
    }
    assert s[..i] == s;
  }

  lemma ShiftIn(v: nat, c: nat)
    ensures (16 * (v % U32_END) + c) % U32_END == (16 * v + c) % U32_END
  {
    var q := v / U32_END;
    assert 16 * v + c == 16 * (v % U32_END) + c + (16 * q) * U32_END;
  }

  /** The sixteen digits, as they are printed and as they are read, and no others. */
  lemma DigitsAre(i: nat, c: byte)
    requires i < 16
    ensures Digit(i) == "0123456789abcdef"[i] as int
    ensures DigitValue(c) == Some(i) <==> c == "0123456789abcdef"[i] as int || c == "0123456789ABCDEF"[i] as int
    ensures DigitValue(c).Some? ==> DigitValue(c).value < 16
  {
  }
}
