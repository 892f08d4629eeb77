/**
 * The file tree that core/cpio/mkbootfs.c archives, and the order in which it does so:
 * readdir lists a directory in any order, dot files and "root" are dropped, and the rest
 * is sorted by strcmp.
 */
module BootTree {
  import opened Basics
  import opened Cpio

  const SLASH: byte := 47
  const DOT: byte := 46

  /** "root" */
  const ROOT: seq<byte> := [114, 111, 111, 116]

  datatype Node =
    | File(mode: nat, data: seq<byte>)
    | Link(mode: nat, target: seq<byte>)
    | Dir(mode: nat, kids: seq<Kid>)

  datatype Kid = Kid(name: seq<byte>, node: Node)

  predicate Skipped(name: seq<byte>) {
    (name != [] && name[0] == DOT) || name == ROOT
  }

  /** strcmp(a, b) <= 0 */
  predicate Le(a: seq<byte>, b: seq<byte>) {
    a == [] || (b != [] && (a[0] < b[0] || (a[0] == b[0] && Le(a[1..], b[1..]))))
  }

  function Insert(k: Kid, s: seq<Kid>): (r: seq<Kid>)
    ensures multiset(r) == multiset(s) + multiset{k}
  {
    if s == [] || Le(k.name, s[0].name) then [k] + s
    else
      assert s == [s[0]] + s[1..];
      [s[0]] + Insert(k, s[1..])
  }

  /** What qsort leaves; SortIsUnique says that no sorting function could leave anything else. */
  function Sort(s: seq<Kid>): (r: seq<Kid>)
    ensures multiset(r) == multiset(s)
  {
    if s == [] then []
    else
      assert s == [s[0]] + s[1..];
      Insert(s[0], Sort(s[1..]))
  }

  function Keep(s: seq<Kid>): seq<Kid> {
    if s == [] then [] else (if Skipped(s[0].name) then [] else [s[0]]) + Keep(s[1..])
  }

  /** The same tree with every listing in the order it is archived in. */
  function Canon(node: Node): Node
    decreases node, 1
  {
    if node.Dir? then Dir(node.mode, Sort(CanonList(node.kids))) else node
  }

  function CanonKid(k: Kid): Kid
    decreases k
  {
    Kid(k.name, Canon(k.node))
  }

  function CanonList(s: seq<Kid>): seq<Kid>
    decreases s, 0
  {
    if s == [] then [] else (if Skipped(s[0].name) then [] else [CanonKid(s[0])]) + CanonList(s[1..])
  }

  function Join(prefix: seq<byte>, name: seq<byte>): seq<byte> {
    if prefix == [] then name else prefix + [SLASH] + name
  }

  /** The most bytes of a link target that readlink is given room for. */
  const LINK_MAX: nat := 1024

  function EntryOf(path: seq<byte>, node: Node): Entry {
    match node
    case File(mode, data) => Entry(path, mode, data)
    case Link(mode, target) => Entry(path, mode, target[..Min(|target|, LINK_MAX)])
    case Dir(mode, _) => Entry(path, mode, [])
  }

  /** A reader of the archive gets the target of a link exactly if it has at most 1024 bytes; a longer one is cut. */
  lemma LinkSurvivesIff(pre: seq<byte>, inode: nat, path: seq<byte>, mode: nat, target: seq<byte>, rest: seq<byte>)
    requires inode < U32_END && mode < U32_END && |path| + 1 < U32_END && 0 !in path
    ensures var e := EntryOf(path, Link(mode, target));
            var r := ReadRecord(pre + Record(|pre|, inode, e) + rest, |pre|);
            && r.Some? && r.value.entry.name == path && r.value.entry.data <= target
            && (r.value.entry.data == target <==> |target| <= 1024)
  {
    hide ReadRecord, Record;
    assert target[..|target|] == target;
    ReadBack(pre, inode, EntryOf(path, Link(mode, target)), rest);
  }

  /** The entries at and below a node of a canonical tree, each directory before what it holds. */
  function Walk(path: seq<byte>, node: Node): seq<Entry>
    decreases node, 1
  {
    [EntryOf(path, node)] + if node.Dir? then WalkKids(path, node.kids) else []
  }

  function WalkKid(path: seq<byte>, k: Kid): seq<Entry>
    decreases k
  {
    Walk(Join(path, k.name), k.node)
  }

  function WalkKids(path: seq<byte>, kids: seq<Kid>): seq<Entry>
    decreases kids, 0
  {
    if kids == [] then [] else WalkKid(path, kids[0]) + WalkKids(path, kids[1..])
  }

  /** What a directory adds to the archive, whatever order its listing came in. */
  function Listed(path: seq<byte>, kids: seq<Kid>): seq<Entry> {
    WalkKids(path, Sort(CanonList(kids)))
  }

  lemma {:induction false} LeTotal(a: seq<byte>, b: seq<byte>)
    ensures Le(a, b) || Le(b, a)
  {
    if a != [] && b != [] {
      LeTotal(a[1..], b[1..]);
    }
  }

  lemma {:induction false} LeAntisymmetric(a: seq<byte>, b: seq<byte>)
    requires Le(a, b) && Le(b, a)
    ensures a == b
  {
    if a != [] {
      LeAntisymmetric(a[1..], b[1..]);
      assert a == [a[0]] + a[1..] && b == [b[0]] + b[1..];
    }
  }

  lemma {:induction false} LeTransitive(a: seq<byte>, b: seq<byte>, c: seq<byte>)
    requires Le(a, b) && Le(b, c)
    ensures Le(a, c)
  {
    if a != [] && a[0] == b[0] == c[0] {
      LeTransitive(a[1..], b[1..], c[1..]);
    }
  }

  predicate Below(k: Kid, s: seq<Kid>) {
    forall x :: x in s ==> Le(k.name, x.name)
  }

  predicate Sorted(s: seq<Kid>) {
    s == [] || (Below(s[0], s[1..]) && Sorted(s[1..]))
  }

  lemma {:induction false} InsertSorts(k: Kid, s: seq<Kid>)
    requires Sorted(s)
    ensures Sorted(Insert(k, s))
  {
    var r := Insert(k, s);
    if s == [] {
      assert r[1..] == [];
    } else if Le(k.name, s[0].name) {
      assert r[1..] == s;
      forall x | x in s ensures Le(k.name, x.name) {
        if x != s[0] {
          assert x in s[1..];
          LeTransitive(k.name, s[0].name, x.name);
        }
      }
    } else {
      InsertSorts(k, s[1..]);
      LeTotal(k.name, s[0].name);
      assert r[1..] == Insert(k, s[1..]);
      forall x | x in r[1..] ensures Le(s[0].name, x.name) {
        assert x in multiset(s[1..]) + multiset{k};
        assert x in s[1..] || x == k;
      }
    }
  }

  lemma {:induction false} SortSorts(s: seq<Kid>)
    ensures Sorted(Sort(s))
  {
    if s != [] {
      SortSorts(s[1..]);
      InsertSorts(s[0], Sort(s[1..]));
    }
  }

  /** No two entries of one listing share a name. */
  ghost predicate OneEach(m: multiset<Kid>) {
    forall x, y :: x in m && y in m && x.name == y.name ==> x == y
  }

  lemma TailBag(s: seq<Kid>)
    requires s != []
    ensures multiset(s[1..]) == multiset(s) - multiset{s[0]} && s[0] in multiset(s)
  {
    assert s == [s[0]] + s[1..];
  }

  lemma FewerOneEach(m: multiset<Kid>, k: Kid)
    requires OneEach(m)
    ensures OneEach(m - multiset{k})
  {
  }

  lemma SameFirst(s: seq<Kid>, t: seq<Kid>)
    requires Sorted(s) && Sorted(t) && s != [] && multiset(s) == multiset(t) && OneEach(multiset(s))
    ensures t != [] && s[0] == t[0]
  {
    TailBag(s);
    assert s[0] in t;
    TailBag(t);
    assert t[0] in s;
    FirstIsLeast(s, t[0]);
    FirstIsLeast(t, s[0]);
    LeAntisymmetric(s[0].name, t[0].name);
  }

  /** Two sorted listings of the same entries are the same list. */
  lemma {:induction false} SortIsUnique(s: seq<Kid>, t: seq<Kid>)
    requires Sorted(s) && Sorted(t) && multiset(s) == multiset(t) && OneEach(multiset(s))
    ensures s == t
  {
    hide Le, Below, Skipped, OneEach;
    if s == [] {
      assert |t| == |multiset(t)|;
    } else {
      SameFirst(s, t);
      TailBag(s);
      TailBag(t);
      FewerOneEach(multiset(s), s[0]);
      SortIsUnique(s[1..], t[1..]);
      assert s == [s[0]] + s[1..] && t == [t[0]] + t[1..];
    }
  }

  lemma FirstIsLeast(s: seq<Kid>, x: Kid)
    requires Sorted(s) && x in s
    ensures Le(s[0].name, x.name)
  {
    LeTotal(x.name, x.name);
    assert x == s[0] || x in s[1..];
  }

  predicate NoneSkipped(s: seq<Kid>) {
    forall x :: x in s ==> !Skipped(x.name)
  }

  lemma {:induction false} KeepCount(s: seq<Kid>, x: Kid)
    ensures multiset(Keep(s))[x] == if Skipped(x.name) then 0 else multiset(s)[x]
  {
    if s != [] {
      KeepCount(s[1..], x);
      assert s == [s[0]] + s[1..];
    }
  }

  lemma KeepKeeps(s: seq<Kid>)
    ensures NoneSkipped(Keep(s)) && forall x :: x in Keep(s) ==> x in s
  {
    forall x | x in Keep(s) ensures !Skipped(x.name) && x in s {
      KeepCount(s, x);
      assert multiset(Keep(s))[x] > 0;
    }
  }

  lemma {:induction false} CanonInsert(k: Kid, s: seq<Kid>)
    requires !Skipped(k.name) && NoneSkipped(s)
    ensures CanonList(Insert(k, s)) == Insert(CanonKid(k), CanonList(s))
  {
    hide Canon, Skipped, Le;
    var r := Insert(k, s);
    if s == [] || Le(k.name, s[0].name) {
      assert r[1..] == s;
    } else {
      CanonInsert(k, s[1..]);
      assert r[1..] == Insert(k, s[1..]);
      assert CanonList(s) == [CanonKid(s[0])] + CanonList(s[1..]);
      assert CanonList(s)[1..] == CanonList(s[1..]);
    }
  }

  /** Dropping and sorting the names first, as the code does, gives the canonical listing. */
  lemma {:induction false} CanonSort(s: seq<Kid>)
    ensures CanonList(Sort(Keep(s))) == Sort(CanonList(s))
  {
    if s != [] {
      CanonSort(s[1..]);
      if Skipped(s[0].name) {
        assert Keep(s) == Keep(s[1..]) && CanonList(s) == CanonList(s[1..]);
      } else {
        KeepSorted(s[1..]);
        CanonInsert(s[0], Sort(Keep(s[1..])));
        assert Keep(s)[1..] == Keep(s[1..]) && CanonList(s)[1..] == CanonList(s[1..]);
      }
    }
  }

  lemma KeepSorted(s: seq<Kid>)
    ensures NoneSkipped(Sort(Keep(s))) && forall x :: x in Sort(Keep(s)) ==> x in s
    ensures forall x :: x in s && !Skipped(x.name) ==> x in Sort(Keep(s))
  {
    KeepKeeps(s);
    forall x | x in Sort(Keep(s)) ensures x in Keep(s) {
      assert x in multiset(Sort(Keep(s)));
    }
    forall x | x in s && !Skipped(x.name) ensures x in Sort(Keep(s)) {
      KeepCount(s, x);
      assert multiset(s)[x] > 0;
      assert x in multiset(Sort(Keep(s)));
    }
  }

  /** The order in which readdir lists a directory cannot be seen in the archive. */
  lemma ListingOrderIsInvisible(path: seq<byte>, mode: nat, a: seq<Kid>, b: seq<Kid>)
    requires multiset(a) == multiset(b) && OneEach(multiset(a))
    ensures Listed(path, a) == Listed(path, b)
    ensures Canon(Dir(mode, a)) == Canon(Dir(mode, b))
  {
    hide Keep, Sort, CanonList, WalkKids, Skipped, Le, Sorted;
    KeepBag(a, b);
    SortSorts(Keep(a));
    SortSorts(Keep(b));
    SortIsUnique(Sort(Keep(a)), Sort(Keep(b)));
    CanonSort(a);
    CanonSort(b);
  }

  lemma KeepBag(a: seq<Kid>, b: seq<Kid>)
    requires multiset(a) == multiset(b) && OneEach(multiset(a))
    ensures multiset(Keep(a)) == multiset(Keep(b)) && OneEach(multiset(Keep(a)))
  {
    hide Keep, Skipped;
    forall x: Kid ensures multiset(Keep(a))[x] == multiset(Keep(b))[x] <= multiset(a)[x] {
      KeepCount(a, x);
      KeepCount(b, x);
    }
    assert multiset(Keep(a)) == multiset(Keep(b));
  }

  // Listings permuted at every level.

  /** The second tree is the first with the listing of any of its directories in another order. */
  ghost predicate Shuffled(a: Node, b: Node)
    decreases a, 1
  {
    if !a.Dir? then a == b
    else b.Dir? && a.mode == b.mode && exists c: seq<Kid> :: Matches(a.kids, c, b.kids)
  }

  /** `c` is a permutation of the first listing that goes with the second one entry by entry. */
  ghost predicate Matches(kids: seq<Kid>, c: seq<Kid>, kids': seq<Kid>)
    decreases kids, 0
  {
    && multiset(c) == multiset(kids) && |c| == |kids'|
    && forall i :: 0 <= i < |c| ==> c[i].name == kids'[i].name && c[i] in kids && Shuffled(c[i].node, kids'[i].node)
  }

  /** No listing of the tree has a name twice. */
  ghost predicate Proper(node: Node) {
    node.Dir? ==> OneEach(multiset(node.kids)) && forall i :: 0 <= i < |node.kids| ==> Proper(node.kids[i].node)
  }

  lemma {:induction false} SameCanonList(a: seq<Kid>, b: seq<Kid>)
    requires |a| == |b| && forall i :: 0 <= i < |a| ==> a[i].name == b[i].name && Canon(a[i].node) == Canon(b[i].node)
    ensures CanonList(a) == CanonList(b)
  {
    hide Canon, Skipped;
    if a != [] {
      SameCanonList(a[1..], b[1..]);
    }
  }

  lemma {:induction false} ShuffledCanon(a: Node, b: Node)
    requires Shuffled(a, b) && Proper(a)
    ensures Canon(a) == Canon(b)
    decreases a
  {
    if a.Dir? {
      var c: seq<Kid> :| Matches(a.kids, c, b.kids);
      forall i | 0 <= i < |c| ensures Canon(c[i].node) == Canon(b.kids[i].node) {
        var j :| 0 <= j < |a.kids| && a.kids[j] == c[i];
        assert Proper(a.kids[j].node);
        ShuffledCanon(c[i].node, b.kids[i].node);
      }
      hide Sort, CanonList, Shuffled;
      SameCanonList(c, b.kids);
      ListingOrderIsInvisible([], a.mode, a.kids, c);
      assert Canon(Dir(a.mode, c)) == Canon(Dir(b.mode, b.kids));
    }
  }

  /** The order of the listings, at every depth, cannot be seen in the archive. */
  lemma ShufflingIsInvisible(path: seq<byte>, a: Node, b: Node)
    requires Shuffled(a, b) && Proper(a)
    ensures Walk(path, Canon(a)) == Walk(path, Canon(b))
    ensures a.Dir? ==> Listed(path, a.kids) == Listed(path, b.kids)
  {
    hide Sort, CanonList, Walk, WalkKids, Matches;
    ShuffledCanon(a, b);
  }

  /** One argument of mkbootfs: what its directory holds, and where that goes. */
  datatype Source = Source(prefix: seq<byte>, kids: seq<Kid>)

  function AllEntries(sources: seq<Source>): seq<Entry> {
    if sources == [] then [] else Listed(sources[0].prefix, sources[0].kids) + AllEntries(sources[1..])
  }

  lemma EntriesStep(sources: seq<Source>, i: nat)
    requires i < |sources|
    ensures AllEntries(sources[i..]) == Listed(sources[i].prefix, sources[i].kids) + AllEntries(sources[i + 1..])
  {
    assert sources[i..][0] == sources[i] && sources[i..][1..] == sources[i + 1..];
  }
}
