/**
 * What the archive of mkbootfs holds, told without the walk that wrote it: looking names up in the
 * source tree, one directory after the other, finds exactly the entries of the archive, each with
 * its path, its mode and its contents, and in the order of the names.
 */
module BootLookup {
  import opened Basics
  import opened BootTree
  import opened Cpio

  type Names = seq<seq<byte>>

  /** The names lead from one node down to another. */
  ghost predicate Leads(root: Node, names: Names, node: Node)
    decreases |names|
  {
    if names == [] then node == root
    else exists dir :: Leads(root, names[..|names| - 1], dir) && dir.Dir? && Kid(names[|names| - 1], node) in dir.kids
  }

  /** Not a dot file, and not "root". */
  predicate Plain(name: seq<byte>) {
    name != [114, 111, 111, 116] && (name != [] ==> name[0] != 46)
  }

  predicate AllPlain(names: Names) {
    forall i :: 0 <= i < |names| ==> Plain(names[i])
  }

  /** The prefix and the names, joined by '/'. */
  function PathOf(prefix: seq<byte>, names: Names): seq<byte>
    decreases |names|
  {
    if names == [] then prefix
    else
      var path, name := PathOf(prefix, names[..|names| - 1]), names[|names| - 1];
      if path == [] then name else path + [47] + name
  }

  /** An entry that has this path and the mode and contents of this node. */
  predicate Describes(e: Entry, path: seq<byte>, node: Node) {
    && e.name == path && e.mode == node.mode
    && match node
       case File(_, data) => e.data == data
       case Link(_, target) => e.data == if |target| <= 1024 then target else target[..1024]
       case Dir(_, _) => e.data == []
  }

  /** strcmp(a, b) < 0: at the first difference a is smaller, or a ends. */
  ghost predicate Less(a: seq<byte>, b: seq<byte>) {
    exists m :: 0 <= m <= |a| && m < |b| && a[..m] == b[..m] && (m < |a| ==> a[m] < b[m])
  }

  /** At the first difference the name of a is smaller, or a ends: b is below a. */
  ghost predicate Precedes(a: Names, b: Names) {
    exists m :: 0 <= m <= |a| && m < |b| && a[..m] == b[..m] && (m < |a| ==> Less(a[m], b[m]))
  }

  // What a file system promises of its names.

  predicate NewTo(k: Kid, s: seq<Kid>) {
    forall x :: x in s ==> x.name != k.name
  }

  predicate Distinct(s: seq<Kid>) {
    s == [] || (NewTo(s[0], s[1..]) && Distinct(s[1..]))
  }

  predicate FileName(name: seq<byte>) {
    name != [] && 47 !in name
  }

  /** Names are not empty and have no '/', and no directory has one twice. */
  predicate Filed(node: Node)
    decreases node, 1
  {
    node.Dir? ==> KidsFiled(node.kids)
  }

  predicate KidsFiled(kids: seq<Kid>)
    decreases kids, 0
  {
    Distinct(kids) && forall i :: 0 <= i < |kids| ==> FileName(kids[i].name) && Filed(kids[i].node)
  }

  // The order of the names.

  /** The comparison that sorts the names is strcmp. */
  lemma {:induction false} LeLess(a: seq<byte>, b: seq<byte>)
    ensures Le(a, b) <==> a == b || Less(a, b)
  {
    if a == [] {
      assert b != [] ==> a[..0] == b[..0];
    } else if b != [] {
      LeLess(a[1..], b[1..]);
      LessTail(a, b);
      hide Less;
      assert a == [a[0]] + a[1..] && b == [b[0]] + b[1..];
    }
  }

  lemma LessTail(a: seq<byte>, b: seq<byte>)
    requires a != [] && b != []
    ensures Less(a, b) <==> a[0] < b[0] || (a[0] == b[0] && Less(a[1..], b[1..]))
  {
    if a[0] < b[0] {
      assert a[..0] == b[..0];
    } else if a[0] == b[0] {
      if m :| 0 <= m <= |a[1..]| && m < |b[1..]| && a[1..][..m] == b[1..][..m] && (m < |a[1..]| ==> a[1..][m] < b[1..][m]) {
        assert a[..m + 1] == [a[0]] + a[1..][..m] && b[..m + 1] == [b[0]] + b[1..][..m];
      }
      if m :| 0 <= m <= |a| && m < |b| && a[..m] == b[..m] && (m < |a| ==> a[m] < b[m]) {
        assert m > 0 && a[1..][..m - 1] == a[..m][1..] && b[1..][..m - 1] == b[..m][1..];
      }
    }
  }

  lemma {:induction false} InsertDistinct(k: Kid, s: seq<Kid>)
    requires Distinct(s) && NewTo(k, s)
    ensures Distinct(Insert(k, s))
  {
    var r := Insert(k, s);
    if s == [] || Le(k.name, s[0].name) {
      assert r[1..] == s;
    } else {
      InsertDistinct(k, s[1..]);
      assert r[1..] == Insert(k, s[1..]);
      forall x | x in r[1..] ensures x.name != s[0].name {
        assert x in multiset(s[1..]) + multiset{k};
        assert x in s[1..] || x == k;
      }
    }
  }

  lemma {:induction false} SortDistinct(s: seq<Kid>)
    requires Distinct(s)
    ensures Distinct(Sort(s))
  {
    if s != [] {
      SortDistinct(s[1..]);
      forall x | x in Sort(s[1..]) ensures x.name != s[0].name {
        assert x in multiset(Sort(s[1..]));
      }
      InsertDistinct(s[0], Sort(s[1..]));
    }
  }

  /** The listing that is archived has the kids that are not skipped, canonical. */
  lemma {:induction false} CanonHas(kids: seq<Kid>, x: Kid)
    ensures x in CanonList(kids) <==> exists k :: k in kids && !Skipped(k.name) && x == CanonKid(k)
  {
    hide Canon, Skipped;
    if kids != [] {
      CanonHas(kids[1..], x);
      assert kids == [kids[0]] + kids[1..];
    }
  }

  lemma {:induction false} CanonDistinct(kids: seq<Kid>)
    requires Distinct(kids)
    ensures Distinct(CanonList(kids))
  {
    hide Canon, Skipped;
    if kids != [] {
      CanonDistinct(kids[1..]);
      var rest := CanonList(kids[1..]);
      forall x | x in rest ensures x.name != kids[0].name {
        CanonHas(kids[1..], x);
      }
      assert ([CanonKid(kids[0])] + rest)[1..] == rest && [] + rest == rest;
    }
  }

  /** How the archive lists a directory. */
  function Shown(kids: seq<Kid>): seq<Kid> {
    Sort(CanonList(kids))
  }

  lemma ShownHas(kids: seq<Kid>, x: Kid)
    ensures x in Shown(kids) <==> exists k :: k in kids && Plain(k.name) && x == CanonKid(k)
  {
    CanonHas(kids, x);
    assert x in Shown(kids) <==> x in multiset(Shown(kids));
    assert x in CanonList(kids) <==> x in multiset(CanonList(kids));
  }

  lemma ShownOrder(kids: seq<Kid>)
    requires Distinct(kids)
    ensures Sorted(Shown(kids)) && Distinct(Shown(kids))
  {
    CanonDistinct(kids);
    SortSorts(CanonList(kids));
    SortDistinct(CanonList(kids));
  }

  // The walk, with the names that led to each entry.

  datatype Item = Item(names: Names, entry: Entry)

  function ItemsOf(path: seq<byte>, names: Names, node: Node): seq<Item>
    decreases node, 1
  {
    [Item(names, EntryOf(path, node))] + if node.Dir? then ItemsIn(path, names, node.kids) else []
  }

  function ItemsAt(path: seq<byte>, names: Names, k: Kid): seq<Item>
    decreases k
  {
    ItemsOf(Join(path, k.name), names + [k.name], k.node)
  }

  function ItemsIn(path: seq<byte>, names: Names, kids: seq<Kid>): seq<Item>
    decreases kids, 0
  {
    if kids == [] then [] else ItemsAt(path, names, kids[0]) + ItemsIn(path, names, kids[1..])
  }

  predicate Same(items: seq<Item>, es: seq<Entry>) {
    |items| == |es| && forall i :: 0 <= i < |es| ==> items[i].entry == es[i]
  }

  lemma {:induction false} NodeItems(path: seq<byte>, names: Names, node: Node)
    ensures Same(ItemsOf(path, names, node), Walk(path, node))
    decreases node, 1
  {
    if node.Dir? {
      KidsItems(path, names, node.kids);
    }
  }

  lemma KidItems(path: seq<byte>, names: Names, k: Kid)
    ensures Same(ItemsAt(path, names, k), WalkKid(path, k))
    decreases k
  {
    NodeItems(Join(path, k.name), names + [k.name], k.node);
  }

  lemma {:induction false} KidsItems(path: seq<byte>, names: Names, kids: seq<Kid>)
    ensures Same(ItemsIn(path, names, kids), WalkKids(path, kids))
    decreases kids, 0
  {
    hide ItemsAt, WalkKid;
    if kids != [] {
      KidItems(path, names, kids[0]);
      KidsItems(path, names, kids[1..]);
    }
  }

  lemma {:induction false} ItemsFrom(path: seq<byte>, names: Names, kids: seq<Kid>, item: Item)
    ensures item in ItemsIn(path, names, kids) <==> exists x :: x in kids && item in ItemsAt(path, names, x)
  {
    hide ItemsAt;
    if kids != [] {
      ItemsFrom(path, names, kids[1..], item);
      if item in ItemsAt(path, names, kids[0]) {
        assert kids[0] in kids;
      } else {
        assert forall x :: x in kids ==> x == kids[0] || x in kids[1..];
      }
    }
  }

  // Every entry is one that the lookup finds.

  /** A node, the names that lead to it from the root, and its path. */
  ghost predicate At(root: Node, prefix: seq<byte>, names: Names, path: seq<byte>, node: Node) {
    Leads(root, names, node) && AllPlain(names) && path == PathOf(prefix, names)
  }

  lemma AtKid(root: Node, prefix: seq<byte>, names: Names, path: seq<byte>, dir: Node, k: Kid)
    requires At(root, prefix, names, path, dir) && dir.Dir? && k in dir.kids && Plain(k.name)
    ensures At(root, prefix, names + [k.name], Join(path, k.name), k.node)
  {
    var more := names + [k.name];
    assert more[..|more| - 1] == names && Kid(more[|more| - 1], k.node) == k;
  }

  ghost predicate Good(root: Node, prefix: seq<byte>, item: Item) {
    exists node ::
      Leads(root, item.names, node) && AllPlain(item.names) && Describes(item.entry, PathOf(prefix, item.names), node)
  }

  lemma CanonDescribed(path: seq<byte>, node: Node)
    ensures Describes(EntryOf(path, Canon(node)), path, node)
  {
    assert node.Link? ==> node.target[..|node.target|] == node.target;
  }

  lemma {:induction false} NodeGood(root: Node, prefix: seq<byte>, names: Names, path: seq<byte>, node: Node, item: Item)
    requires At(root, prefix, names, path, node) && item in ItemsOf(path, names, Canon(node))
    ensures Good(root, prefix, item)
    decreases node, 1
  {
    hide ItemsIn, Sort, CanonList;
    CanonDescribed(path, node);
    if item != Item(names, EntryOf(path, Canon(node))) {
      KidsGood(root, prefix, names, path, node, item);
    }
  }

  lemma {:induction false} KidsGood(root: Node, prefix: seq<byte>, names: Names, path: seq<byte>, dir: Node, item: Item)
    requires At(root, prefix, names, path, dir) && dir.Dir? && item in ItemsIn(path, names, Shown(dir.kids))
    ensures Good(root, prefix, item)
    decreases dir, 0
  {
    hide ItemsAt, Canon, At, Good, Plain, Shown;
    ItemsFrom(path, names, Shown(dir.kids), item);
    var x :| x in Shown(dir.kids) && item in ItemsAt(path, names, x);
    ShownHas(dir.kids, x);
    var k :| k in dir.kids && Plain(k.name) && x == CanonKid(k);
    AtKid(root, prefix, names, path, dir, k);
    assert ItemsAt(path, names, x) == ItemsOf(Join(path, k.name), names + [k.name], Canon(k.node)) by {
      ItemsAtKid(path, names, k);
    }
    NodeGood(root, prefix, names + [k.name], Join(path, k.name), k.node, item);
  }

  lemma ItemsAtKid(path: seq<byte>, names: Names, k: Kid)
    ensures ItemsAt(path, names, CanonKid(k)) == ItemsOf(Join(path, k.name), names + [k.name], Canon(k.node))
  {
  }

  // Everything that the lookup finds has an entry.

  lemma DirItems(path: seq<byte>, names: Names, dir: Node, k: Kid, item: Item)
    requires dir.Dir? && k in dir.kids && Plain(k.name)
    requires item in ItemsOf(Join(path, k.name), names + [k.name], Canon(k.node))
    ensures item in ItemsOf(path, names, Canon(dir))
  {
    ItemsAtKid(path, names, k);
    assert Canon(dir) == Dir(dir.mode, Shown(dir.kids));
    hide ItemsAt, ItemsIn, Canon, Plain, Shown;
    ShownHas(dir.kids, CanonKid(k));
    ItemsFrom(path, names, Shown(dir.kids), item);
  }

  lemma {:induction false} FoundItems(root: Node, prefix: seq<byte>, names: Names, node: Node, item: Item)
    requires Leads(root, names, node) && AllPlain(names)
    requires item in ItemsOf(PathOf(prefix, names), names, Canon(node))
    ensures item in ItemsOf(prefix, [], Canon(root))
    decreases |names|
  {
    hide ItemsOf, Canon, Plain;
    if names != [] {
      var init, name := names[..|names| - 1], names[|names| - 1];
      var dir :| Leads(root, init, dir) && dir.Dir? && Kid(name, node) in dir.kids;
      assert names == init + [name] && PathOf(prefix, names) == Join(PathOf(prefix, init), name);
      hide Leads, PathOf;
      DirItems(PathOf(prefix, init), init, dir, Kid(name, node), item);
      FoundItems(root, prefix, init, dir, item);
    }
  }

  // The order of the entries.

  ghost predicate Ordered(items: seq<Item>) {
    forall i, j :: 0 <= i < j < |items| ==> Precedes(items[i].names, items[j].names)
  }

  /** All of them come from below these names. */
  predicate Under(items: seq<Item>, names: Names) {
    forall i :: 0 <= i < |items| ==> names <= items[i].names
  }

  /** It comes from below these names and one of these kids. */
  predicate UnderKid(item: Item, names: Names, kids: seq<Kid>) {
    exists x :: x in kids && names + [x.name] <= item.names
  }

  predicate UnderAny(items: seq<Item>, names: Names, kids: seq<Kid>) {
    forall i :: 0 <= i < |items| ==> UnderKid(items[i], names, kids)
  }

  lemma {:induction false} NodeUnder(path: seq<byte>, names: Names, node: Node)
    ensures Under(ItemsOf(path, names, node), names)
    ensures node.Dir? ==> UnderAny(ItemsIn(path, names, node.kids), names, node.kids)
    decreases node, 1
  {
    if node.Dir? {
      KidsUnder(path, names, node.kids);
    }
  }

  lemma KidUnder(path: seq<byte>, names: Names, k: Kid)
    ensures Under(ItemsAt(path, names, k), names + [k.name])
    decreases k
  {
    NodeUnder(Join(path, k.name), names + [k.name], k.node);
  }

  lemma {:induction false} KidsUnder(path: seq<byte>, names: Names, kids: seq<Kid>)
    ensures UnderAny(ItemsIn(path, names, kids), names, kids)
    decreases kids, 0
  {
    hide ItemsAt;
    if kids != [] {
      KidUnder(path, names, kids[0]);
      KidsUnder(path, names, kids[1..]);
      var first, rest := ItemsAt(path, names, kids[0]), ItemsIn(path, names, kids[1..]);
      forall i | 0 <= i < |first| ensures UnderKid(first[i], names, kids) {
        assert kids[0] in kids;
      }
      forall i | 0 <= i < |rest| ensures UnderKid(rest[i], names, kids) {
        assert UnderKid(rest[i], names, kids[1..]);
      }
    }
  }

  /** What is below a name that is smaller comes first. */
  lemma NameDecides(names: Names, x: seq<byte>, y: seq<byte>, a: Names, b: Names)
    requires names + [x] <= a && names + [y] <= b && Less(x, y)
    ensures Precedes(a, b)
  {
    var m := |names|;
    assert a[..m] == (names + [x])[..m] == (names + [y])[..m] == b[..m];
    assert a[m] == (names + [x])[m] && b[m] == (names + [y])[m];
  }

  lemma SelfFirst(names: Names, x: seq<byte>, b: Names)
    requires names + [x] <= b
    ensures Precedes(names, b)
  {
    var m := |names|;
    assert names[..m] == (names + [x])[..m] == b[..m];
  }

  lemma SelfThenOrdered(names: Names, kids: seq<Kid>, self: Item, rest: seq<Item>)
    requires self.names == names && UnderAny(rest, names, kids) && Ordered(rest)
    ensures Ordered([self] + rest)
  {
    hide Precedes;
    forall j | 0 <= j < |rest| ensures Precedes(names, rest[j].names) {
      assert UnderKid(rest[j], names, kids);
      var x :| x in kids && names + [x.name] <= rest[j].names;
      SelfFirst(names, x.name, rest[j].names);
    }
    BothOrdered([self], rest);
  }

  lemma {:induction false} NodeOrdered(path: seq<byte>, names: Names, node: Node)
    requires Filed(node)
    ensures Ordered(ItemsOf(path, names, Canon(node)))
    decreases node, 1
  {
    hide ItemsIn, Sort, CanonList, Precedes, UnderAny, KidsFiled;
    if node.Dir? {
      DirOrdered(path, names, node.kids);
      KidsUnder(path, names, Shown(node.kids));
      SelfThenOrdered(names, Shown(node.kids), Item(names, EntryOf(path, Canon(node))), ItemsIn(path, names, Shown(node.kids)));
    }
  }

  ghost predicate EachOrdered(path: seq<byte>, names: Names, kids: seq<Kid>) {
    forall x :: x in kids ==> Ordered(ItemsAt(path, names, x))
  }

  lemma DirOrdered(path: seq<byte>, names: Names, kids: seq<Kid>)
    requires KidsFiled(kids)
    ensures Ordered(ItemsIn(path, names, Shown(kids)))
    decreases kids, 0
  {
    hide ItemsAt, Shown, Canon, Ordered, Plain, Distinct, Sorted;
    forall x | x in Shown(kids) ensures Ordered(ItemsAt(path, names, x)) {
      ShownHas(kids, x);
      var k :| k in kids && Plain(k.name) && x == CanonKid(k);
      ItemsAtKid(path, names, k);
      NodeOrdered(Join(path, k.name), names + [k.name], k.node);
    }
    ShownOrder(kids);
    KidsOrdered(path, names, Shown(kids));
  }

  lemma {:induction false} KidsOrdered(path: seq<byte>, names: Names, kids: seq<Kid>)
    requires Sorted(kids) && Distinct(kids) && EachOrdered(path, names, kids)
    ensures Ordered(ItemsIn(path, names, kids))
    decreases |kids|
  {
    hide ItemsAt, Precedes, Less;
    if kids != [] {
      KidsOrdered(path, names, kids[1..]);
      KidUnder(path, names, kids[0]);
      KidsUnder(path, names, kids[1..]);
      var first, rest := ItemsAt(path, names, kids[0]), ItemsIn(path, names, kids[1..]);
      assert kids[0] in kids;
      forall i, j | 0 <= i < |first| && 0 <= j < |rest| ensures Precedes(first[i].names, rest[j].names) {
        assert UnderKid(rest[j], names, kids[1..]);
        var x :| x in kids[1..] && names + [x.name] <= rest[j].names;
        LeLess(kids[0].name, x.name);
        NameDecides(names, kids[0].name, x.name, first[i].names, rest[j].names);
      }
      BothOrdered(first, rest);
    }
  }

  lemma BothOrdered(a: seq<Item>, b: seq<Item>)
    requires Ordered(a) && Ordered(b)
    requires forall i, j :: 0 <= i < |a| && 0 <= j < |b| ==> Precedes(a[i].names, b[j].names)
    ensures Ordered(a + b)
  {
  }

  // A path tells the names.

  predicate AllFileNames(names: Names) {
    forall i :: 0 <= i < |names| ==> FileName(names[i])
  }

  lemma {:induction false} PathLength(prefix: seq<byte>, names: Names)
    requires AllFileNames(names)
    ensures if names == [] then PathOf(prefix, names) == prefix else |PathOf(prefix, names)| > |prefix|
    decreases |names|
  {
    if names != [] {
      PathLength(prefix, names[..|names| - 1]);
    }
  }

  /** The last '/' tells where the last name starts. */
  lemma LastSlash(a: seq<byte>, x: seq<byte>, b: seq<byte>, y: seq<byte>)
    requires 47 !in x && 47 !in y && a + [47] + x == b + [47] + y
    ensures a == b && x == y
  {
    var s := a + [47] + x;
    assert s == b + [47] + y && s[|a|] == 47 && s[|b|] == 47;
    assert forall j :: |a| < j < |s| ==> s[j] == x[j - |a| - 1];
    assert forall j :: |b| < j < |s| ==> s[j] == y[j - |b| - 1];
    assert a == s[..|a|] && b == s[..|b|] && x == s[|a| + 1..] && y == s[|b| + 1..];
  }

  lemma HasSlash(a: seq<byte>, x: seq<byte>)
    ensures 47 in a + [47] + x
  {
    assert (a + [47] + x)[|a|] == 47;
  }

  lemma {:induction false} PathTellsNames(prefix: seq<byte>, a: Names, b: Names)
    requires AllFileNames(a) && AllFileNames(b) && PathOf(prefix, a) == PathOf(prefix, b)
    ensures a == b
    decreases |a|
  {
    PathLength(prefix, a);
    PathLength(prefix, b);
    if a != [] {
      var a', b' := a[..|a| - 1], b[..|b| - 1];
      var x, y := a[|a| - 1], b[|b| - 1];
      PathLength(prefix, a');
      PathLength(prefix, b');
      var p, q := PathOf(prefix, a'), PathOf(prefix, b');
      HasSlash(p, x);
      HasSlash(q, y);
      if p != [] && q != [] {
        LastSlash(p, x, q, y);
      }
      PathTellsNames(prefix, a', b');
      assert a == a' + [x] && b == b' + [y];
    }
  }

  lemma {:induction false} LeadsByFileNames(root: Node, names: Names, node: Node)
    requires Filed(root) && Leads(root, names, node)
    ensures AllFileNames(names) && Filed(node)
    decreases |names|
  {
    if names != [] {
      var init, name := names[..|names| - 1], names[|names| - 1];
      var dir :| Leads(root, init, dir) && dir.Dir? && Kid(name, node) in dir.kids;
      LeadsByFileNames(root, init, dir);
      var i :| 0 <= i < |dir.kids| && dir.kids[i] == Kid(name, node);
      assert FileName(dir.kids[i].name) && Filed(dir.kids[i].node);
    }
  }

  lemma PrecedesNotSame(a: Names, b: Names)
    requires Precedes(a, b)
    ensures a != b
  {
  }

  // The theorem, for one argument of mkbootfs.

  /** Names, none of them a dot file or "root", that lead to a node of the source tree. */
  ghost predicate Archived(s: Source, names: Names, node: Node) {
    names != [] && AllPlain(names) && Leads(Dir(0, s.kids), names, node)
  }

  /** The i-th entry is the only one with this name. */
  predicate Only(es: seq<Entry>, i: int, name: seq<byte>) {
    0 <= i < |es| && forall j :: 0 <= j < |es| ==> (es[j].name == name <==> j == i)
  }

  /** There is exactly one entry with the path of these names, and it has the node's mode and contents. */
  ghost predicate HasOne(es: seq<Entry>, path: seq<byte>, node: Node) {
    exists i :: Only(es, i, path) && Describes(es[i], path, node)
  }

  ghost predicate Complete(es: seq<Entry>, s: Source) {
    forall names, node :: Archived(s, names, node) ==> HasOne(es, PathOf(s.prefix, names), node)
  }

  /** The entry is that of a node that is found. */
  ghost predicate Stems(e: Entry, s: Source) {
    exists names, node :: Archived(s, names, node) && Describes(e, PathOf(s.prefix, names), node)
  }

  ghost predicate Sound(es: seq<Entry>, s: Source) {
    forall i :: 0 <= i < |es| ==> Stems(es[i], s)
  }

  /** A directory comes before what it holds, and the names of one directory come in the order of strcmp. */
  ghost predicate InOrder(es: seq<Entry>, s: Source) {
    forall i, j, a, b, x, y ::
      (0 <= i < j < |es| && Archived(s, a, x) && Archived(s, b, y) &&
       es[i].name == PathOf(s.prefix, a) && es[j].name == PathOf(s.prefix, b)) ==> Precedes(a, b)
  }

  ghost predicate Lists(es: seq<Entry>, s: Source) {
    Complete(es, s) && Sound(es, s) && InOrder(es, s)
  }

  function SourceItems(s: Source): seq<Item> {
    ItemsIn(s.prefix, [], Shown(s.kids))
  }

  lemma ItemsListed(s: Source)
    ensures Same(SourceItems(s), Listed(s.prefix, s.kids))
  {
    KidsItems(s.prefix, [], Shown(s.kids));
  }

  lemma ItemGood(s: Source, i: nat)
    requires i < |SourceItems(s)|
    ensures var item := SourceItems(s)[i];
            exists node :: Archived(s, item.names, node) && Describes(item.entry, PathOf(s.prefix, item.names), node)
    ensures Stems(SourceItems(s)[i].entry, s)
  {
    var root, item := Dir(0, s.kids), SourceItems(s)[i];
    assert At(root, s.prefix, [], s.prefix, root);
    assert item in SourceItems(s);
    KidsGood(root, s.prefix, [], s.prefix, root, item);
    KidsUnder(s.prefix, [], Shown(s.kids));
    hide ItemsIn, Shown, Leads, Plain;
  }

  lemma ItemThere(s: Source, names: Names, node: Node) returns (i: nat)
    requires Archived(s, names, node)
    ensures i < |SourceItems(s)| && SourceItems(s)[i].names == names
    ensures Describes(SourceItems(s)[i].entry, PathOf(s.prefix, names), node)
  {
    var root, path := Dir(0, s.kids), PathOf(s.prefix, names);
    var item := Item(names, EntryOf(path, Canon(node)));
    CanonDescribed(path, node);
    FoundItems(root, s.prefix, names, node, item);
    assert ItemsOf(s.prefix, [], Canon(root)) == [Item([], EntryOf(s.prefix, Canon(root)))] + SourceItems(s);
    i :| 0 <= i < |SourceItems(s)| && SourceItems(s)[i] == item;
  }

  /** The names of an item are the only ones with its path. */
  lemma ItemOf(s: Source, i: nat, names: Names, node: Node)
    requires KidsFiled(s.kids) && i < |SourceItems(s)| && Archived(s, names, node)
    requires SourceItems(s)[i].entry.name == PathOf(s.prefix, names)
    ensures SourceItems(s)[i].names == names
  {
    var root, item := Dir(0, s.kids), SourceItems(s)[i];
    ItemGood(s, i);
    var x :| Archived(s, item.names, x) && Describes(item.entry, PathOf(s.prefix, item.names), x);
    hide Leads, SourceItems;
    LeadsByFileNames(root, names, node);
    LeadsByFileNames(root, item.names, x);
    PathTellsNames(s.prefix, names, item.names);
  }

  lemma ListedIsOrdered(s: Source)
    requires KidsFiled(s.kids)
    ensures Ordered(SourceItems(s))
  {
    DirOrdered(s.prefix, [], s.kids);
  }

  lemma ListedComplete(s: Source, names: Names, node: Node)
    requires KidsFiled(s.kids) && Archived(s, names, node)
    ensures HasOne(Listed(s.prefix, s.kids), PathOf(s.prefix, names), node)
  {
    var es, items := Listed(s.prefix, s.kids), SourceItems(s);
    ItemsListed(s);
    ListedIsOrdered(s);
    hide Listed, SourceItems, Archived, Precedes, KidsFiled, PathOf;
    var i := ItemThere(s, names, node);
    forall j | 0 <= j < |es| && es[j].name == PathOf(s.prefix, names) ensures j == i {
      ItemOf(s, j, names, node);
      if i < j {
        PrecedesNotSame(items[i].names, items[j].names);
      } else if j < i {
        PrecedesNotSame(items[j].names, items[i].names);
      }
    }
    assert Only(es, i, PathOf(s.prefix, names));
  }

  lemma ListedInOrder(s: Source, i: nat, j: nat, a: Names, b: Names, x: Node, y: Node)
    requires KidsFiled(s.kids) && Archived(s, a, x) && Archived(s, b, y) && i < j < |Listed(s.prefix, s.kids)|
    requires Listed(s.prefix, s.kids)[i].name == PathOf(s.prefix, a)
    requires Listed(s.prefix, s.kids)[j].name == PathOf(s.prefix, b)
    ensures Precedes(a, b)
  {
    ItemsListed(s);
    ListedIsOrdered(s);
    hide Listed, SourceItems, Archived, Precedes, KidsFiled, PathOf;
    ItemOf(s, i, a, x);
    ItemOf(s, j, b, y);
  }

  /** What one argument adds to the archive is what looking names up in its tree finds, in order. */
  lemma ListedIsFound(s: Source)
    requires KidsFiled(s.kids)
    ensures Lists(Listed(s.prefix, s.kids), s)
  {
    var es := Listed(s.prefix, s.kids);
    ItemsListed(s);
    hide Listed, SourceItems, Archived, Precedes, KidsFiled, PathOf, HasOne, Stems;
    forall names, node | Archived(s, names, node) ensures HasOne(es, PathOf(s.prefix, names), node) {
      ListedComplete(s, names, node);
    }
    forall i | 0 <= i < |es| ensures Stems(es[i], s) {
      ItemGood(s, i);
    }
    assert InOrder(es, s) by {
      forall i, j, a, b, x, y |
        0 <= i < j < |es| && Archived(s, a, x) && Archived(s, b, y) &&
        es[i].name == PathOf(s.prefix, a) && es[j].name == PathOf(s.prefix, b)
        ensures Precedes(a, b)
      {
        ListedInOrder(s, i, j, a, b, x, y);
      }
    }
  }

  // All arguments of mkbootfs.

  /** The entries are those of the first source, then those of the others. */
  ghost predicate ListsAll(es: seq<Entry>, sources: seq<Source>) {
    if sources == [] then es == []
    else exists cut :: 0 <= cut <= |es| && Lists(es[..cut], sources[0]) && ListsAll(es[cut..], sources[1..])
  }

  predicate AllFiled(sources: seq<Source>) {
    forall k :: 0 <= k < |sources| ==> KidsFiled(sources[k].kids)
  }

  lemma {:induction false} EntriesAreFound(sources: seq<Source>)
    requires AllFiled(sources)
    ensures ListsAll(AllEntries(sources), sources)
  {
    hide Lists, Listed, KidsFiled;
    if sources != [] {
      var first, rest := Listed(sources[0].prefix, sources[0].kids), AllEntries(sources[1..]);
      assert (first + rest)[..|first|] == first && (first + rest)[|first|..] == rest;
      ListedIsFound(sources[0]);
      EntriesAreFound(sources[1..]);
    }
  }

  /** Some names lead to this path. */
  ghost predicate Provides(s: Source, path: seq<byte>) {
    exists names, node :: Archived(s, names, node) && PathOf(s.prefix, names) == path
  }

  /** How many sources have something at this path, and how many entries have it. */
  ghost function Providers(sources: seq<Source>, path: seq<byte>): nat {
    if sources == [] then 0 else (if Provides(sources[0], path) then 1 else 0) + Providers(sources[1..], path)
  }

  function Called(es: seq<Entry>, path: seq<byte>): nat {
    if es == [] then 0 else (if es[0].name == path then 1 else 0) + Called(es[1..], path)
  }

  lemma {:induction false} CalledBoth(a: seq<Entry>, b: seq<Entry>, path: seq<byte>)
    ensures Called(a + b, path) == Called(a, path) + Called(b, path)
  {
    if a == [] {
      assert a + b == b;
    } else {
      assert (a + b)[1..] == a[1..] + b;
      CalledBoth(a[1..], b, path);
    }
  }

  lemma {:induction false} CalledNever(es: seq<Entry>, path: seq<byte>)
    requires forall i :: 0 <= i < |es| ==> es[i].name != path
    ensures Called(es, path) == 0
  {
    if es != [] {
      CalledNever(es[1..], path);
    }
  }

  lemma CalledOnce(es: seq<Entry>, i: nat, path: seq<byte>)
    requires Only(es, i, path)
    ensures Called(es, path) == 1
  {
    CalledNever(es[..i], path);
    CalledNever(es[i + 1..], path);
    assert es == es[..i] + es[i..] && es[i..][1..] == es[i + 1..];
    CalledBoth(es[..i], es[i..], path);
  }

  lemma ListsCalled(es: seq<Entry>, s: Source, path: seq<byte>)
    requires Lists(es, s)
    ensures Called(es, path) == if Provides(s, path) then 1 else 0
  {
    hide Archived, PathOf, Called;
    if Provides(s, path) {
      var names, node :| Archived(s, names, node) && PathOf(s.prefix, names) == path;
      assert HasOne(es, path, node);
      var i :| Only(es, i, path) && Describes(es[i], path, node);
      CalledOnce(es, i, path);
    } else {
      CalledNever(es, path);
    }
  }

  /** A path is in the archive as often as there are sources that have something there. */
  lemma {:induction false} CalledIs(es: seq<Entry>, sources: seq<Source>, path: seq<byte>)
    requires ListsAll(es, sources)
    ensures Called(es, path) == Providers(sources, path)
    decreases |sources|
  {
    hide Lists, Provides, Called;
    if sources == [] {
      CalledNever(es, path);
    } else {
      var cut :| 0 <= cut <= |es| && Lists(es[..cut], sources[0]) && ListsAll(es[cut..], sources[1..]);
      ListsCalled(es[..cut], sources[0], path);
      CalledIs(es[cut..], sources[1..], path);
      assert es == es[..cut] + es[cut..];
      CalledBoth(es[..cut], es[cut..], path);
    }
  }

  lemma {:induction false} CalledZero(es: seq<Entry>, path: seq<byte>)
    requires Called(es, path) == 0
    ensures forall e :: e in es ==> e.name != path
  {
    if es != [] {
      CalledZero(es[1..], path);
      assert es == [es[0]] + es[1..];
    }
  }

  lemma {:induction false} NeverTheTrailer(es: seq<Entry>)
    ensures Called(BeforeTrailer(es), TRAILER) == 0
  {
    if es != [] && es[0].name != TRAILER {
      NeverTheTrailer(es[1..]);
      assert BeforeTrailer(es)[1..] == BeforeTrailer(es[1..]);
    }
  }

  /** A reader finds all that the sources have exactly if none of them has something at the path of the trailer. */
  lemma ReadIsFoundIff(sources: seq<Source>)
    requires AllFiled(sources)
    ensures ListsAll(BeforeTrailer(AllEntries(sources)), sources) <==>
            Providers(sources, [84, 82, 65, 73, 76, 69, 82, 33, 33, 33]) == 0  // "TRAILER!!!"
  {
    var es := AllEntries(sources);
    EntriesAreFound(sources);
    CalledIs(es, sources, TRAILER);
    NeverTheTrailer(es);
    hide AllEntries, Providers, Called, ListsAll;
    if Providers(sources, TRAILER) == 0 {
      CalledZero(es, TRAILER);
      BeforeTrailerIff(es);
    } else if ListsAll(BeforeTrailer(es), sources) {
      CalledIs(BeforeTrailer(es), sources, TRAILER);
      assert false;
    }
  }
}
