/** Lists without some of their elements, the others in order. */
module Lists {

  function Without<T(==)>(s: seq<T>, gone: set<T>): seq<T> {
    if s == [] then []
    else if s[0] in gone then Without(s[1..], gone)
    else [s[0]] + Without(s[1..], gone)
  }

  predicate Distinct<T(==)>(s: seq<T>) {
    forall i, j :: 0 <= i < j < |s| ==> s[i] != s[j]
  }

  lemma {:induction false} WithoutFacts<T>(s: seq<T>, gone: set<T>)
    ensures forall x :: x in Without(s, gone) ==> x in s && x !in gone
    ensures forall x :: x in s && x !in gone ==> x in Without(s, gone)
    ensures Distinct(s) ==> Distinct(Without(s, gone))
    ensures (forall x :: x in s ==> x !in gone) ==> Without(s, gone) == s
    ensures |Without(s, gone)| <= |s|
    ensures (exists x :: x in s && x in gone) ==> |Without(s, gone)| < |s|
  {
    if s != [] {
      WithoutFacts(s[1..], gone);
      assert s == [s[0]] + s[1..];
      assert forall x :: x in s <==> x == s[0] || x in s[1..];
      if Distinct(s) {
        assert Distinct(s[1..]);
        assert s[0] !in s[1..];
      }
    }
  }

  lemma {:induction false} WithoutTwice<T>(s: seq<T>, a: set<T>, b: set<T>)
    ensures Without(Without(s, a), b) == Without(s, a + b)
  {
    if s != [] {
      WithoutTwice(s[1..], a, b);
      if s[0] !in a {
        assert Without(s, a)[1..] == Without(s[1..], a);
      }
    }
  }

  lemma {:induction false} WithoutAt<T>(s: seq<T>, k: nat)
    requires k < |s| && Distinct(s)
    ensures Without(s, {s[k]}) == s[..k] + s[k + 1..]
  {
    if k == 0 {
      WithoutFacts(s[1..], {s[0]});
      assert s[0] !in s[1..];
    } else {
      WithoutAt(s[1..], k - 1);
      assert s[1..][..k - 1] + s[1..][k..] == s[1..k] + s[k + 1..];
    }
  }

  lemma DistinctTail<T>(head: T, items: seq<T>)
    requires Distinct([head] + items)
    ensures Distinct(items)
  {
    var ring := [head] + items;
    forall a, b | 0 <= a < b < |items| ensures items[a] != items[b] {
      assert ring[a + 1] == items[a] && ring[b + 1] == items[b];
    }
  }

  /** Where an element is in a ring around a head, and what is left of the ring without it. */
  lemma Position<T>(head: T, items: seq<T>, x: T) returns (k: nat)
    requires Distinct([head] + items) && x in items
    ensures var ring := [head] + items;
            0 < k < |ring| && ring[k] == x && ring[..k] + ring[k + 1..] == [head] + Without(items, {x})
  {
    hide Without;
    DistinctTail(head, items);
    var i :| 0 <= i < |items| && items[i] == x;
    WithoutAt(items, i);
    k := i + 1;
    Around(head, items, i);
  }

  lemma Around<T>(head: T, items: seq<T>, i: nat)
    requires i < |items|
    ensures var ring := [head] + items;
            ring[..i + 1] + ring[i + 2..] == [head] + (items[..i] + items[i + 1..])
  {
    var ring := [head] + items;
    assert ring[..i + 1] == [head] + items[..i] && ring[i + 2..] == items[i + 1..];
  }
}
