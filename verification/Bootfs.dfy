/**
 * The tree walk of core/cpio/mkbootfs.c: _archive and _archive_dir extend one path
 * buffer in place on the way down, emit an entry per node, and restore the buffer.
 */
module Bootfs {
  import opened Basics
  import opened BootLookup
  import opened BootTree
  import opened Cpio

  const PATH_SIZE: nat := 8192

  function JoinLength(olen: nat, t: nat): nat {
    if olen == 0 then t else olen + 1 + t
  }

  /** Every path with its NUL fits the buffer. */
  predicate Fits(olen: nat, node: Node)
    decreases node, 1
  {
    olen < PATH_SIZE && (node.Dir? ==> KidsFit(olen, node.kids))
  }

  predicate KidFits(olen: nat, kid: Kid)
    decreases kid
  {
    Fits(JoinLength(olen, |kid.name|), kid.node)
  }

  predicate KidsFit(olen: nat, kids: seq<Kid>)
    decreases kids, 0
  {
    forall k :: 0 <= k < |kids| && !Skipped(kids[k].name) ==> KidFits(olen, kids[k])
  }

  /** Names are C strings. */
  predicate Named(node: Node)
    decreases node, 1
  {
    node.Dir? ==> KidsNamed(node.kids)
  }

  predicate KidNamed(kid: Kid)
    decreases kid
  {
    0 !in kid.name && Named(kid.node)
  }

  predicate KidsNamed(kids: seq<Kid>)
    decreases kids, 0
  {
    forall k :: 0 <= k < |kids| ==> KidNamed(kids[k])
  }

  /** The buffer holds `prefix` as a C string of length olen. */
  ghost predicate Holds(path: array<byte>, olen: nat, prefix: seq<byte>)
    reads path
  {
    path.Length == PATH_SIZE && olen == |prefix| < PATH_SIZE && path[..olen] == prefix && path[olen] == 0 && 0 !in prefix
  }

  /** memcpy of a name with its NUL. */
  method PutName(path: array<byte>, at: nat, name: seq<byte>)
    requires at + |name| < path.Length
    modifies path
    ensures path[..at] == old(path[..at]) && path[at..at + |name|] == name && path[at + |name|] == 0
  {
    forall i | 0 <= i <= |name| {
      path[at + i] := if i < |name| then name[i] else 0;
    }
  }

  /** Extend the path by a name. */
  method Extend(path: array<byte>, olen: nat, name: seq<byte>, ghost prefix: seq<byte>)
    requires Holds(path, olen, prefix) && 0 !in name && JoinLength(olen, |name|) < PATH_SIZE
    modifies path
    ensures Holds(path, JoinLength(olen, |name|), Join(prefix, name))
  {
    if olen > 0 {
      path[olen] := SLASH;
      PutName(path, olen + 1, name);
      ghost var next := olen + 1 + |name|;
      assert path[..olen] == path[..olen + 1][..olen];
      assert path[..next] == path[..olen + 1] + path[olen + 1..next];
    } else {
      PutName(path, 0, name);
    }
  }

  /** The same; the new length is returned, unless the copy goes beyond the buffer. */
  method Descend(path: array<byte>, olen: nat, name: seq<byte>, ghost prefix: seq<byte>) returns (next: Option<nat>)
    requires Holds(path, olen, prefix) && 0 !in name
    modifies path
    ensures next == if JoinLength(olen, |name|) < PATH_SIZE then Some(JoinLength(olen, |name|)) else None
    ensures next.Some? ==> Holds(path, next.value, Join(prefix, name))
  {
    hide Holds, Join;
    if JoinLength(olen, |name|) >= PATH_SIZE {
      return None;
    }
    Extend(path, olen, name, prefix);
    next := Some(JoinLength(olen, |name|));
  }

  /** Cut the path back to what it was. */
  method Restore(path: array<byte>, olen: nat, ghost prefix: seq<byte>, ghost name: seq<byte>)
    requires |prefix| == olen && 0 !in prefix
    requires Holds(path, JoinLength(olen, |name|), Join(prefix, name))
    modifies path
    ensures Holds(path, olen, prefix)
  {
    ghost var before := path[..JoinLength(olen, |name|)];
    assert olen > 0 ==> before[..olen] == prefix;
    path[olen] := 0;
    assert path[..olen] == prefix;
  }

  /** _archive; false is a path that goes beyond the buffer. */
  method ArchiveNode(path: array<byte>, w: Writer, olen: nat, node: Node, ghost prefix: seq<byte>) returns (ok: bool)
    requires Holds(path, olen, prefix) && w.Valid() && Named(node)
    modifies path, w
    ensures w.Valid() && (ok <==> Fits(olen, node))
    ensures ok ==> Holds(path, olen, prefix) && w.entries == old(w.entries) + Walk(prefix, Canon(node))
    decreases node, 1
  {
    hide Writer.Valid, WalkKids, KidsFit, Sort, CanonList, KidsNamed;
    var data := match node
      case File(_, bytes) => bytes
      case Link(_, target) => if |target| > LINK_MAX then target[..LINK_MAX] else target
      case Dir(_, _) => [];
    w.Eject(Entry(path[..olen], node.mode, data));
    assert node.Link? ==> node.target[..|node.target|] == node.target;
    Assoc(old(w.entries), [EntryOf(prefix, node)], if node.Dir? then Listed(prefix, node.kids) else []);
    ok := true;
    if node.Dir? {
      ok := ArchiveDir(path, w, olen, node.kids, prefix);
    }
  }

  /** One turn of the last loop of _archive_dir. */
  method ArchiveKid(path: array<byte>, w: Writer, olen: nat, kid: Kid, ghost prefix: seq<byte>) returns (ok: bool)
    requires Holds(path, olen, prefix) && w.Valid() && KidNamed(kid)
    modifies path, w
    ensures w.Valid() && (ok <==> KidFits(olen, kid))
    ensures ok ==> Holds(path, olen, prefix) && w.entries == old(w.entries) + WalkKid(prefix, CanonKid(kid))
    decreases kid
  {
    hide Writer.Valid, Walk, Holds, Fits, Join, Canon;
    HoldsLength(path, olen, prefix);
    var next := Descend(path, olen, kid.name, prefix);
    if next.None? {
      TooLong(JoinLength(olen, |kid.name|), kid.node);
      return false;
    }
    ok := ArchiveNode(path, w, next.value, kid.node, Join(prefix, kid.name));
    if ok {
      Restore(path, olen, prefix, kid.name);
    }
  }

  /** The readdir loop of _archive_dir. */
  method Collect(kids: seq<Kid>) returns (names: seq<Kid>)
    ensures names == Keep(kids)
  {
    names := [];
    var i := 0;
    assert kids[0..] == kids;
    while i < |kids|
      invariant 0 <= i <= |kids| && names + Keep(kids[i..]) == Keep(kids)
    {
      assert kids[i..][0] == kids[i] && kids[i..][1..] == kids[i + 1..];
      if !Skipped(kids[i].name) {
        names := names + [kids[i]];
      }
      i := i + 1;
    }
    assert kids[i..] == [];
  }

  /** _archive_dir; false is a path that goes beyond the buffer. */
  method ArchiveDir(path: array<byte>, w: Writer, olen: nat, kids: seq<Kid>, ghost prefix: seq<byte>) returns (ok: bool)
    requires Holds(path, olen, prefix) && w.Valid() && KidsNamed(kids)
    modifies path, w
    ensures w.Valid() && (ok <==> KidsFit(olen, kids))
    ensures ok ==> Holds(path, olen, prefix) && w.entries == old(w.entries) + Listed(prefix, kids)
    decreases kids, 0
  {
    hide Writer.Valid, WalkKid, Walk, Holds, KidFits, CanonKid, Sort, Keep, Skipped, KidNamed;
    var collected := Collect(kids);
    var names := Sort(collected);
    KeepSorted(kids);
    CanonSort(kids);
    var i := 0;
    assert names[0..] == names;
    while i < |names|
      invariant 0 <= i <= |names| && Holds(path, olen, prefix) && w.Valid()
      invariant w.entries + WalkKids(prefix, CanonList(names[i..])) == old(w.entries) + Listed(prefix, kids)
      invariant forall j :: 0 <= j < i ==> KidFits(olen, names[j])
    {
      WalkStep(prefix, names, i);
      Assoc(w.entries, WalkKid(prefix, CanonKid(names[i])), WalkKids(prefix, CanonList(names[i + 1..])));
      assert names[i] in names;
      ghost var k :| 0 <= k < |kids| && kids[k] == names[i];
      ok := ArchiveKid(path, w, olen, names[i], prefix);
      if !ok {
        return;
      }
      i := i + 1;
    }
    assert names[i..] == [];
    ok := true;
  }

  lemma TooLong(olen: nat, node: Node)
    requires olen >= PATH_SIZE
    ensures !Fits(olen, node)
  {
  }

  lemma HoldsLength(path: array<byte>, olen: nat, prefix: seq<byte>)
    requires Holds(path, olen, prefix)
    ensures |prefix| == olen && 0 !in prefix
  {
  }

  lemma WalkStep(prefix: seq<byte>, names: seq<Kid>, i: nat)
    requires i < |names| && NoneSkipped(names)
    ensures WalkKids(prefix, CanonList(names[i..])) ==
            WalkKid(prefix, CanonKid(names[i])) + WalkKids(prefix, CanonList(names[i + 1..]))
  {
    assert names[i..][0] == names[i] && names[i..][1..] == names[i + 1..];
    assert names[i] in names;
    var rest := CanonList(names[i + 1..]);
    assert CanonList(names[i..]) == [CanonKid(names[i])] + rest;
    assert ([CanonKid(names[i])] + rest)[1..] == rest;
  }

  predicate SourceNamed(s: Source) {
    0 !in s.prefix && KidsNamed(s.kids)
  }

  predicate SourceFits(s: Source) {
    |s.prefix| < PATH_SIZE && KidsFit(|s.prefix|, s.kids)
  }

  predicate AllFit(sources: seq<Source>) {
    forall k :: 0 <= k < |sources| ==> SourceFits(sources[k])
  }

  /** archive: a fresh path buffer for each argument. */
  method ArchiveSource(w: Writer, s: Source) returns (ok: bool)
    requires w.Valid() && SourceNamed(s)
    modifies w
    ensures w.Valid() && (ok <==> SourceFits(s))
    ensures ok ==> w.entries == old(w.entries) + Listed(s.prefix, s.kids)
  {
    hide Writer.Valid, Listed, KidsFit, KidsNamed;
    if |s.prefix| >= PATH_SIZE {
      return false;
    }
    var path := new byte[PATH_SIZE](_ => 0);
    PutName(path, 0, s.prefix);
    ok := ArchiveDir(path, w, |s.prefix|, s.kids, s.prefix);
  }

  /**
   * main: all sources, then the trailer. There is no archive exactly if some path does not fit the
   * buffer, which the source does not check. A reader finds all entries before the first that is
   * called like the trailer.
   */
  method MakeBootfs(sources: seq<Source>, trailerMode: nat) returns (r: Option<seq<byte>>)
    requires forall k :: 0 <= k < |sources| ==> SourceNamed(sources[k])
    ensures r == if AllFit(sources) then Some(Archive(AllEntries(sources), trailerMode)) else None
    ensures r.Some? && Numbered(sources) && trailerMode < U32_END ==>
              var rs := ReadAll(r.value, 0);
              && rs.Some? && ReadsAs(rs.value, BeforeTrailer(AllEntries(sources)), 0)
              && (AllFiled(sources) ==> FoundUnlessTrailer(rs.value, sources))
  {
    hide Writer.Valid, Listed, SourceFits, Archive, SourceNamed, ReadAll, ReadsAs, BeforeTrailer, AllSized;
    var w := new Writer();
    var i := 0;
    assert sources[0..] == sources;
    while i < |sources|
      invariant 0 <= i <= |sources| && w.Valid()
      invariant w.entries + AllEntries(sources[i..]) == AllEntries(sources)
      invariant forall k :: 0 <= k < i ==> SourceFits(sources[k])
    {
      ghost var had, now, rest := w.entries, Listed(sources[i].prefix, sources[i].kids), AllEntries(sources[i + 1..]);
      EntriesStep(sources, i);
      Assoc(had, now, rest);
      var ok := ArchiveSource(w, sources[i]);
      if !ok {
        return None;
      }
      i := i + 1;
    }
    assert sources[i..] == [] && AllEntries([]) == [];
    assert w.entries + [] == w.entries;
    w.EjectTrailer(trailerMode);
    r := Some(w.out);
    if Numbered(sources) && trailerMode < U32_END {
      BootfsReads(sources, trailerMode);
      if AllFiled(sources) {
        ReadsAreFound(ReadAll(r.value, 0).value, sources);
      }
    }
  }

  // What a reader of the archive finds.

  function EntriesOf(rs: seq<Read>): seq<Entry> {
    seq(|rs|, i requires 0 <= i < |rs| => rs[i].entry)
  }

  /** What was read is what the sources have, exactly if none of them has something called like the trailer. */
  ghost predicate FoundUnlessTrailer(rs: seq<Read>, sources: seq<Source>) {
    ListsAll(EntriesOf(rs), sources) <==> Providers(sources, [84, 82, 65, 73, 76, 69, 82, 33, 33, 33]) == 0
  }

  lemma ReadsAreFound(rs: seq<Read>, sources: seq<Source>)
    requires AllFiled(sources) && ReadsAs(rs, BeforeTrailer(AllEntries(sources)), 0)
    ensures FoundUnlessTrailer(rs, sources)
  {
    hide AllEntries, BeforeTrailer, ListsAll;
    assert EntriesOf(rs) == BeforeTrailer(AllEntries(sources));
    ReadIsFoundIff(sources);
  }

  /** Modes and files of 32-bit sizes. */
  predicate Sized(node: Node)
    decreases node, 1
  {
    node.mode < U32_END && (node.File? ==> |node.data| < U32_END) && (node.Dir? ==> KidsSized(node.kids))
  }

  predicate KidsSized(kids: seq<Kid>)
    decreases kids, 0
  {
    forall k :: 0 <= k < |kids| ==> Sized(kids[k].node)
  }

  predicate AllSized(sources: seq<Source>) {
    forall k :: 0 <= k < |sources| ==> KidsSized(sources[k].kids)
  }

  /** The modes, the sizes and the inodes, which count from 300000, are 32-bit numbers. */
  predicate Numbered(sources: seq<Source>) {
    AllSized(sources) && 300000 + |AllEntries(sources)| < U32_END
  }

  /** An entry for every node: its path, its mode, and what fits the fields. */
  lemma {:induction false} NodeEntriesOk(path: seq<byte>, node: Node)
    requires 0 !in path && Named(node) && Fits(|path|, node) && Sized(node)
    ensures forall e :: e in Walk(path, Canon(node)) ==> EntryOk(e)
    decreases node, 1
  {
    hide Sort, WalkKids, CanonList;
    assert EntryOk(EntryOf(path, Canon(node)));
    if node.Dir? {
      ListedOk(path, node.kids);
      assert Walk(path, Canon(node)) == [EntryOf(path, Canon(node))] + Listed(path, node.kids);
    }
  }

  lemma KidEntriesOk(path: seq<byte>, kid: Kid)
    requires 0 !in path && KidNamed(kid) && KidFits(|path|, kid) && Sized(kid.node)
    ensures forall e :: e in WalkKid(path, CanonKid(kid)) ==> EntryOk(e)
    decreases kid
  {
    hide Walk, Canon, EntryOk, Fits, Named, Sized;
    NodeEntriesOk(Join(path, kid.name), kid.node);
  }

  lemma SortedFrom(s: seq<Kid>, x: Kid)
    requires x in Sort(s)
    ensures x in s
  {
    assert x in multiset(Sort(s));
  }

  lemma {:induction false} ListedOk(path: seq<byte>, kids: seq<Kid>)
    requires 0 !in path && KidsNamed(kids) && KidsFit(|path|, kids) && KidsSized(kids)
    ensures forall e :: e in Listed(path, kids) ==> EntryOk(e)
    decreases kids, 0
  {
    hide WalkKid, WalkKids, CanonKid, CanonList, EntryOk, Sort, Skipped, KidFits, KidNamed, Sized;
    forall e | e in Listed(path, kids) ensures EntryOk(e) {
      var x := WalkedFrom(path, Sort(CanonList(kids)), e);
      SortedFrom(CanonList(kids), x);
      var k := CanonOf(kids, x);
      KidEntriesOk(path, kids[k]);
    }
  }

  /** Every entry below some nodes is below one of them. */
  lemma {:induction false} WalkedFrom(path: seq<byte>, kids: seq<Kid>, e: Entry) returns (x: Kid)
    requires e in WalkKids(path, kids)
    ensures x in kids && e in WalkKid(path, x)
  {
    hide Walk;
    if e in WalkKid(path, kids[0]) {
      x := kids[0];
    } else {
      x := WalkedFrom(path, kids[1..], e);
    }
  }

  lemma {:induction false} CanonOf(kids: seq<Kid>, x: Kid) returns (k: nat)
    requires x in CanonList(kids)
    ensures k < |kids| && !Skipped(kids[k].name) && x == CanonKid(kids[k])
  {
    hide Canon, Skipped;
    if !Skipped(kids[0].name) && x == CanonKid(kids[0]) {
      k := 0;
    } else {
      var i := CanonOf(kids[1..], x);
      k := i + 1;
    }
  }

  lemma {:induction false} EntriesOk(sources: seq<Source>)
    requires (forall k :: 0 <= k < |sources| ==> SourceNamed(sources[k])) && AllFit(sources) && AllSized(sources)
    ensures forall e :: e in AllEntries(sources) ==> EntryOk(e)
  {
    hide Listed, EntryOk, KidsNamed, KidsFit, KidsSized;
    if sources != [] {
      ListedOk(sources[0].prefix, sources[0].kids);
      EntriesOk(sources[1..]);
    }
  }

  lemma BootfsReads(sources: seq<Source>, trailerMode: nat)
    requires (forall k :: 0 <= k < |sources| ==> SourceNamed(sources[k])) && AllFit(sources) && AllSized(sources)
    requires 300000 + |AllEntries(sources)| < U32_END && trailerMode < U32_END
    ensures var es := AllEntries(sources);
            var rs := ReadAll(Archive(es, trailerMode), 0);
            && rs.Some? && ReadsAs(rs.value, BeforeTrailer(es), 0)
            && (ReadsAs(rs.value, es, 0) <==> forall e :: e in es ==> e.name != TRAILER)
  {
    hide ReadAll, ReadsAs, BeforeTrailer, Archive, AllEntries;
    EntriesOk(sources);
    ArchiveReads(AllEntries(sources), trailerMode);
    RoundTripIff(AllEntries(sources), trailerMode);
  }

  // Which trees fit.

  /** Everything below the source has a path that fits, with its NUL, the 8192 bytes of the buffer. */
  ghost predicate PathsFit(s: Source) {
    |s.prefix| < 8192 && forall names, node :: Archived(s, names, node) ==> |PathOf(s.prefix, names)| < 8192
  }

  lemma {:induction false} FitsBelow(s: Source, names: Names, node: Node)
    requires KidsFit(|s.prefix|, s.kids) && Leads(Dir(0, s.kids), names, node) && AllPlain(names) && |s.prefix| < PATH_SIZE
    ensures Fits(|PathOf(s.prefix, names)|, node)
    decreases |names|
  {
    if names != [] {
      var init, name := names[..|names| - 1], names[|names| - 1];
      var dir :| Leads(Dir(0, s.kids), init, dir) && dir.Dir? && Kid(name, node) in dir.kids;
      FitsBelow(s, init, dir);
      var i :| 0 <= i < |dir.kids| && dir.kids[i] == Kid(name, node);
      assert Plain(names[|names| - 1]) && KidFits(|PathOf(s.prefix, init)|, dir.kids[i]);
    }
  }

  lemma {:induction false} FitsFromPaths(s: Source, names: Names, path: seq<byte>, node: Node)
    requires PathsFit(s) && At(Dir(0, s.kids), s.prefix, names, path, node)
    ensures Fits(|path|, node)
    decreases node
  {
    assert |path| < PATH_SIZE by {
      assert names != [] ==> Archived(s, names, node);
    }
    if node.Dir? {
      hide Fits, At, PathsFit, Plain;
      forall k | 0 <= k < |node.kids| && !Skipped(node.kids[k].name) ensures KidFits(|path|, node.kids[k]) {
        var kid := node.kids[k];
        assert Plain(kid.name) by {
          NotSkippedIsPlain(kid.name);
        }
        AtKid(Dir(0, s.kids), s.prefix, names, path, node, kid);
        FitsFromPaths(s, names + [kid.name], Join(path, kid.name), kid.node);
      }
      FitsDir(|path|, node);
    }
  }

  lemma FitsDir(olen: nat, node: Node)
    requires olen < PATH_SIZE && node.Dir? && KidsFit(olen, node.kids)
    ensures Fits(olen, node)
  {
  }

  lemma NotSkippedIsPlain(name: seq<byte>)
    ensures !Skipped(name) <==> Plain(name)
  {
  }

  /** mkbootfs can archive a source exactly if every path in it fits. */
  lemma SourceFitsIff(s: Source)
    ensures SourceFits(s) <==> PathsFit(s)
  {
    var root := Dir(0, s.kids);
    if SourceFits(s) {
      forall names, node | Archived(s, names, node) ensures |PathOf(s.prefix, names)| < 8192 {
        FitsBelow(s, names, node);
      }
    }
    if PathsFit(s) {
      assert At(root, s.prefix, [], s.prefix, root);
      FitsFromPaths(s, [], s.prefix, root);
    }
  }
}
