/** Bitwise operations on unsigned numbers, by their binary digits. */
module Bits {
  import opened Basics

  /** Bitwise and of unsigned numbers. */
  function And(x: nat, y: nat): nat {
    if x == 0 || y == 0 then 0 else (if x % 2 == 1 && y % 2 == 1 then 1 else 0) + 2 * And(x / 2, y / 2)
  }

  predicate IsPow2(n: nat): (yes: bool)
    ensures yes ==> n > 0
  {
    n == 1 || (n > 1 && n % 2 == 0 && IsPow2(n / 2))
  }

  lemma {:induction false} AndOnes(x: nat, top: nat)
    requires IsPow2(top) && x < top
    ensures And(x, top - 1) == x
    decreases top
  {
    if top > 1 {
      AndOnes(x / 2, top / 2);
    }
  }

  lemma SmallMultiple(d: nat, k: int)
    requires 0 - d < d * k < d
    ensures k == 0
  {
  }

  lemma DivModUnique(q: nat, r: nat, d: nat)
    requires r < d
    ensures (d * q + r) % d == r && (d * q + r) / d == q
  {
    var n := d * q + r;
    var q', r' := n / d, n % d;
    assert n == d * q' + r';
    assert d * (q - q') == r' - r;
    SmallMultiple(d, q - q');
  }

  lemma ModHalf(x: nat, q: nat)
    requires q > 0
    ensures x % (2 * q) == x % 2 + 2 * (x / 2 % q)
  {
    var h := x / 2;
    var k, r := h / q, h % q;
    assert h == q * k + r;
    assert x == 2 * q * k + (x % 2 + 2 * r);
    DivModUnique(k, x % 2 + 2 * r, 2 * q);
  }

  /** Clearing the bits below a power of two is rounding down. */
  lemma {:induction false} AndMask(x: nat, page: nat, top: nat)
    requires IsPow2(page) && IsPow2(top) && page <= top && x < top
    ensures And(x, top - page) == x - x % page
    decreases page
  {
    if page == 1 {
      AndOnes(x, top);
    } else {
      AndMask(x / 2, page / 2, top / 2);
      ModHalf(x, page / 2);
      assert (top - page) / 2 == top / 2 - page / 2;
    }
  }

  lemma {:induction false} AndNothing(x: nat, top: nat)
    requires IsPow2(top) && x < top
    ensures And(x, top - 1 - x) == 0
    decreases top
  {
    if top > 1 && x != 0 {
      AndNothing(x / 2, top / 2);
      assert (top - 1 - x) / 2 == top / 2 - 1 - x / 2;
    }
  }

  /** n & ~(n - 1) gives n back only for powers of two, and at most a third of it otherwise. */
  lemma {:induction false} LowBit(n: nat, top: nat)
    requires IsPow2(top) && 0 < n < top
    ensures And(n, top - n) == n <==> IsPow2(n)
    ensures !IsPow2(n) ==> 1 <= And(n, top - n) && 3 * And(n, top - n) <= n
    decreases n
  {
    if n % 2 == 0 {
      LowBit(n / 2, top / 2);
      assert (top - n) / 2 == top / 2 - n / 2;
    } else {
      assert (top - n) / 2 == top / 2 - 1 - n / 2;
      AndNothing(n / 2, top / 2);
    }
  }

  lemma Doubled(n: nat)
    requires IsPow2(n)
    ensures IsPow2(2 * n)
  {
    assert 2 * n / 2 == n;
  }

  lemma Times16(n: nat)
    requires IsPow2(n)
    ensures IsPow2(16 * n)
  {
    hide IsPow2;
    Doubled(n);
    Doubled(2 * n);
    Doubled(4 * n);
    Doubled(8 * n);
  }

  lemma TopIsPow2()
    ensures IsPow2(U32_END)
  {
    assert IsPow2(1);
    hide IsPow2;
    Times16(1);
    Times16(0x10);
    Times16(0x100);
    Times16(0x1000);
    Times16(0x1_0000);
    Times16(0x10_0000);
    Times16(0x100_0000);
    Times16(0x1000_0000);
  }

  /** Bitwise exclusive or. */
  function Xor(x: nat, y: nat): nat {
    if x == 0 then y else if y == 0 then x else (if x % 2 != y % 2 then 1 else 0) + 2 * Xor(x / 2, y / 2)
  }

  /** Flipping all bits of a number is what it lacks to all ones. */
  lemma {:induction false} XorOnes(x: nat, top: nat)
    requires IsPow2(top) && x < top
    ensures Xor(x, top - 1) == top - 1 - x
    decreases top
  {
    if top > 1 {
      XorOnes(x / 2, top / 2);
      assert (top - 1) / 2 == top / 2 - 1;
      XorZero(top / 2 - 1);
    }
  }

  lemma XorZero(y: nat)
    ensures Xor(0, y) == y && Xor(y, 0) == y
  {
  }
}
