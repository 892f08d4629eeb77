/**
 * The client of the file sync service, end to end: STATs sent ahead of their replies
 * (copy_local_dir_remote), run against the service.
 */
module SyncClient {
  import opened Basics
  import opened Io
  import opened Wire
  import opened FileSync
  import opened SyncSession

  /** A C string whose length is an int. */
  predicate IsPath(p: seq<byte>) {
    0 !in p && |p| < INT_END
  }

  predicate ArePaths(paths: seq<seq<byte>>) {
    forall k :: 0 <= k < |paths| ==> IsPath(paths[k])
  }

  predicate Short(paths: seq<seq<byte>>) {
    forall k :: 0 <= k < |paths| ==> |paths[k]| <= NAME_MAX
  }

  // STATs ahead of their replies.

  function StatBytes(paths: seq<seq<byte>>): seq<byte>
    requires ArePaths(paths)
  {
    if paths == [] then [] else Head(ID_STAT, |paths[0]|) + paths[0] + StatBytes(paths[1..])
  }

  lemma {:induction false} StatBytesConcat(a: seq<seq<byte>>, b: seq<seq<byte>>)
    requires ArePaths(a) && ArePaths(b)
    ensures ArePaths(a + b) && StatBytes(a + b) == StatBytes(a) + StatBytes(b)
  {
    hide Head;
    if a == [] {
      assert a + b == b;
    } else {
      assert (a + b)[1..] == a[1..] + b;
      StatBytesConcat(a[1..], b);
      Assoc(Head(ID_STAT, |a[0]|) + a[0], StatBytes(a[1..]), StatBytes(b));
    }
  }

  lemma OneStat(p: seq<byte>)
    requires IsPath(p)
    ensures StatBytes([p]) == Head(ID_STAT, |p|) + p
  {
    assert [p][1..] == [];
    assert StatBytes([p]) == Head(ID_STAT, |p|) + p + [];
  }

  /** sync_start_readtime for every file, without waiting. */
  method StartReadtimes(fd: Fd, paths: seq<seq<byte>>) returns (ok: bool)
    requires ArePaths(paths)
    modifies fd`output, fd`plan
    ensures ok ==> fd.output == old(fd.output) + StatBytes(paths)
    ensures !ok ==> !Soft(old(fd.plan))
    ensures Soft(old(fd.plan)) ==> Soft(fd.plan)
  {
    var i := 0;
    assert StatBytes(paths[..0]) == [];
    hide StatBytes, Head;
    while i < |paths|
      invariant 0 <= i <= |paths| && fd.output == old(fd.output) + StatBytes(paths[..i])
      invariant Soft(old(fd.plan)) ==> Soft(fd.plan)
    {
      assert paths[..i + 1] == paths[..i] + [paths[i]];
      StatBytesConcat(paths[..i], [paths[i]]);
      OneStat(paths[i]);
      Assoc(old(fd.output), StatBytes(paths[..i]), Head(ID_STAT, |paths[i]|) + paths[i]);
      var sent := Writex(fd, Head(ID_STAT, |paths[i]|) + paths[i]);
      if !sent {
        return false;
      }
      i := i + 1;
    }
    assert paths[..i] == paths;
    ok := true;
  }

  function Then(got: seq<StatInfo>, r: Option<seq<StatInfo>>): Option<seq<StatInfo>> {
    if r.None? then None else Some(got + r.value)
  }

  /** n replies to STATs at the start of some bytes. */
  function ReadStats(b: seq<byte>, n: nat): Option<seq<StatInfo>> {
    if n == 0 then Some([])
    else if |b| < 16 || ReadStat(b[..16]).None? then None
    else Then([ReadStat(b[..16]).value], ReadStats(b[16..], n - 1))
  }

  /** sync_finish_readtime for every file, in the same order. */
  method FinishReadtimes(fd: Fd, n: nat) returns (r: Option<seq<StatInfo>>)
    modifies fd`input, fd`plan
    ensures r == ReadStats(old(fd.input), n) || r == None
    ensures Soft(old(fd.plan)) ==> r == ReadStats(old(fd.input), n)
  {
    hide ReadStat;
    var got, i := [], 0;
    ThenNothing(ReadStats(fd.input, n));
    while i < n
      invariant 0 <= i <= n && Then(got, ReadStats(fd.input, n - i)) == ReadStats(old(fd.input), n)
      invariant Soft(old(fd.plan)) ==> Soft(fd.plan)
    {
      ghost var before := fd.input;
      var b := Readx(fd, 16);
      if b.None? {
        return None;
      }
      SplitAt16(before, b.value, fd.input);
      var info := ReadStat(b.value);
      if info.None? {
        return None;
      }
      ThenTwice(got, [info.value], ReadStats(fd.input, n - i - 1));
      got := got + [info.value];
      i := i + 1;
    }
    assert got + [] == got;
    r := Some(got);
  }

  lemma ThenTwice(a: seq<StatInfo>, b: seq<StatInfo>, r: Option<seq<StatInfo>>)
    ensures Then(a, Then(b, r)) == Then(a + b, r)
  {
    if r.Some? {
      Assoc(a, b, r.value);
    }
  }

  lemma ThenNothing(r: Option<seq<StatInfo>>)
    ensures Then([], r) == r
  {
    assert r.Some? ==> [] + r.value == r.value;
  }

  lemma SplitAt16(b: seq<byte>, head: seq<byte>, tail: seq<byte>)
    requires |head| == 16 && b == head + tail
    ensures b[..16] == head && b[16..] == tail
  {
  }

  function StatMsgs(infos: seq<StatInfo>): seq<byte> {
    if infos == [] then [] else StatMsg(infos[0]) + StatMsgs(infos[1..])
  }

  lemma {:induction false} StatsRead(infos: seq<StatInfo>, rest: seq<byte>, n: nat)
    requires n >= |infos|
    ensures ReadStats(StatMsgs(infos) + rest, n) == Then(infos, ReadStats(rest, n - |infos|))
  {
    hide StatMsg, ReadStat;
    if infos == [] {
      assert StatMsgs(infos) + rest == rest;
      ThenNothing(ReadStats(rest, n));
    } else {
      var more := StatMsgs(infos[1..]) + rest;
      Assoc(StatMsg(infos[0]), StatMsgs(infos[1..]), rest);
      SplitAt16(StatMsgs(infos) + rest, StatMsg(infos[0]), more);
      StatRoundTrip(infos[0]);
      StatsRead(infos[1..], rest, n - 1);
      ThenTwice([infos[0]], infos[1..], ReadStats(rest, n - |infos|));
      assert [infos[0]] + infos[1..] == infos;
    }
  }

  function StatRequests(paths: seq<seq<byte>>): (rs: seq<Request>)
    requires ArePaths(paths) && Short(paths)
    ensures |rs| == |paths| && SessionOk(rs)
    ensures forall k :: 0 <= k < |rs| ==> rs[k] == Stat(paths[k])
  {
    seq(|paths|, k requires 0 <= k < |paths| => Stat(paths[k]))
  }

  lemma {:induction false} StatSession(paths: seq<seq<byte>>)
    requires ArePaths(paths) && Short(paths)
    ensures SessionBytes(StatRequests(paths)) == StatBytes(paths)
  {
    hide Head;
    if paths != [] {
      StatSession(paths[1..]);
      var rs := StatRequests(paths);
      assert rs[1..] == StatRequests(paths[1..]);
      assert RequestBytes(rs[0]) == Head(ID_STAT, |paths[0]|) + paths[0] + [];
      assert SessionBytes(rs) == RequestBytes(rs[0]) + SessionBytes(rs[1..]);
    }
  }

  /** What lstat says of each path, when it is its turn. */
  function Infos(fs: FileSystem, paths: seq<seq<byte>>): (i: seq<StatInfo>)
    ensures |i| == |paths|
  {
    seq(|paths|, k requires 0 <= k < |paths| => fs(k, paths[k]).info)
  }

  lemma {:induction false} StatMsgsOf(replies: seq<seq<byte>>, infos: seq<StatInfo>)
    requires |replies| == |infos| && forall k :: 0 <= k < |replies| ==> replies[k] == StatMsg(infos[k])
    ensures Flatten(replies) == StatMsgs(infos)
  {
    if replies != [] {
      StatMsgsOf(replies[1..], infos[1..]);
    }
  }

  /** A FAIL, whole or not, is not taken for the reply to a STAT. */
  lemma FailIsNoStat(got: seq<byte>, n: nat)
    requires n > 0 && CutFail(got)
    ensures ReadStats(got, n) == None
  {
    var reason: Reason :| |reason| >= 8 && got <= FailMsg(reason);
    if |got| >= 16 {
      assert got[..16][0..4] == FailMsg(reason)[0..4] == Le32(ID_FAIL);
      Le32RoundTrip(ID_FAIL);
    }
  }

  /** What the client makes of a reply that may be cut. */
  lemma CutStat(got: seq<byte>, info: StatInfo, n: nat)
    requires n > 0 && Cut(got, StatMsg(info))
    ensures ReadStats(got, n) == None || (n == 1 && ReadStats(got, n) == Some([info]))
  {
    hide ReadStat, StatMsg, CutFail;
    if !(got <= StatMsg(info)) {
      FailIsNoStat(got, n);
    } else if |got| == 16 {
      assert got[..16] == StatMsg(info) && got[16..] == [] && [info] + [] == [info];
      StatRoundTrip(info);
      assert ReadStats(got, n) == Then([info], ReadStats([], n - 1));
    }
  }

  /** How many paths come before the first that is too long. */
  function Served(paths: seq<seq<byte>>): (j: nat)
    ensures j <= |paths| && Short(paths[..j])
    ensures j < |paths| ==> |paths[j]| > NAME_MAX
    ensures j == |paths| <==> Short(paths)
  {
    if paths == [] || |paths[0]| > NAME_MAX then 0
    else
      var j := Served(paths[1..]);
      assert paths[..j + 1] == [paths[0]] + paths[1..][..j];
      assert Short(paths) ==> Short(paths[1..]);
      1 + j
  }

  lemma StatSplit(paths: seq<seq<byte>>, j: nat)
    requires ArePaths(paths) && j <= |paths| && Short(paths[..j])
    ensures StatBytes(paths) == SessionBytes(StatRequests(paths[..j])) + StatBytes(paths[j..])
  {
    hide StatBytes, SessionBytes;
    assert paths == paths[..j] + paths[j..];
    StatBytesConcat(paths[..j], paths[j..]);
    StatSession(paths[..j]);
  }

  /** The end of the session: QUIT, or the first path that is too long. */
  lemma StatTail(paths: seq<seq<byte>>)
    requires ArePaths(paths)
    ensures var tail := StatBytes(paths) + Head(ID_QUIT, 0);
            paths == [] ==> Ends(tail) && LastWords(tail) == []
    ensures var tail := StatBytes(paths) + Head(ID_QUIT, 0);
            paths != [] && |paths[0]| > NAME_MAX ==> Ends(tail) && LastWords(tail) == FailMsg(Text("invalid namelen"))
  {
    hide Head, FailMsg, LastWords, Ends;
    if paths == [] {
      assert StatBytes(paths) + Head(ID_QUIT, 0) == Head(ID_QUIT, 0) + [];
      QuitEnds([]);
    } else {
      var p, more := paths[0], StatBytes(paths[1..]);
      Assoc(Head(ID_STAT, |p|) + p, more, Head(ID_QUIT, 0));
      if |p| > NAME_MAX {
        NameAcceptedIff(ID_STAT, p, more + Head(ID_QUIT, 0));
      }
    }
  }

  /** The replies to the first k STATs. */
  lemma FirstAnswers(fs: FileSystem, paths: seq<seq<byte>>, k: nat)
    requires ArePaths(paths) && Short(paths) && k <= |paths|
    ensures Flatten(Answers(fs, StatRequests(paths))[..k]) == StatMsgs(Infos(fs, paths)[..k])
    ensures k < |paths| ==> AnswerTo(fs, k, StatRequests(paths)[k]) == StatMsg(Infos(fs, paths)[k])
  {
    var a, infos := Answers(fs, StatRequests(paths)), Infos(fs, paths);
    forall i | 0 <= i < |paths| ensures a[i] == StatMsg(infos[i]) {
      CStrOfName(paths[i]);
    }
    StatMsgsOf(a[..k], infos[..k]);
  }

  /** What the client reads of the answers to k STATs and a part of what comes next. */
  lemma StatsOrNothing(infos: seq<StatInfo>, k: nat, got: seq<byte>, next: seq<byte>, n: nat)
    requires k <= |infos| <= n && Cut(got, next)
    requires if k < |infos| then next == StatMsg(infos[k]) else |infos| < n ==> next == FailMsg(Text("invalid namelen"))
    ensures var r := ReadStats(StatMsgs(infos[..k]) + got, n);
            r == (if k == n then Some(infos) else None) || (k + 1 == |infos| == n && r == Some(infos))
  {
    hide StatMsgs, ReadStats, ReadStat, StatMsg, FailMsg, CutFail;
    StatsRead(infos[..k], got, n);
    if k == n {
      assert ReadStats(got, 0) == Some([]) by { NoStats(got); }
      assert infos[..k] + [] == infos;
    } else if k < |infos| {
      CutStat(got, infos[k], n - k);
      assert infos[..k + 1] == infos[..k] + [infos[k]] && infos[..|infos|] == infos;
    } else {
      assert CutFail(got) by { CutOfFail(got, Text("invalid namelen")); }
      FailIsNoStat(got, n - k);
    }
  }

  lemma NoStats(b: seq<byte>)
    ensures ReadStats(b, 0) == Some([])
  {
  }

  lemma CutOfFail(got: seq<byte>, reason: Reason)
    requires |reason| >= 8 && Cut(got, FailMsg(reason))
    ensures CutFail(got)
  {
  }

  /** What the client reads of what the service says. */
  lemma StatsServed(fs: FileSystem, paths: seq<seq<byte>>, tail: seq<byte>,
                    stored: seq<Stored>, last: Stored, got: seq<byte>, holds: bool)
    requires ArePaths(paths) && Ends(tail)
    requires LastWords(tail) == if Short(paths) then [] else FailMsg(Text("invalid namelen"))
    requires SessionEnds(fs, StatRequests(paths[..Served(paths)]), Bare(tail), stored, last, got, holds)
    ensures var out := [] + Flatten(Answers(fs, StatRequests(paths[..Served(paths)]))[..|stored|]) + got;
            var r := ReadStats(out, |paths|);
            && (r.Some? ==> Short(paths) && r.value == Infos(fs, paths))
            && (holds ==> (r.Some? <==> Short(paths)))
  {
    hide StatMsgs, StatMsg, Answers, AnswerTo, Ends, LastWords, ReadStats, Flatten, FailMsg, Cut, SessionEnds, Served, Infos;
    var j, k := Served(paths), |stored|;
    var first := paths[..j];
    var infos := Infos(fs, first);
    SessionCut(fs, StatRequests(first), tail, stored, last, got, holds);
    FirstAnswers(fs, first, k);
    StatsOrNothing(infos, k, got, if k < j then StatMsg(infos[k]) else LastWords(tail), |paths|);
    assert j == |paths| ==> first == paths;
    assert [] + StatMsgs(infos[..k]) == StatMsgs(infos[..k]);
  }

  /** The service's side of it. */
  method ServeStats(b: seq<byte>, fs: FileSystem, plan: seq<Call>, ghost paths: seq<seq<byte>>) returns (out: seq<byte>)
    requires ArePaths(paths)
    ensures b == StatBytes(paths) + Head(ID_QUIT, 0) ==>
              var r := ReadStats(out, |paths|);
              && (r.Some? ==> Short(paths) && r.value == Infos(fs, paths))
              && (Soft(plan) ==> (r.Some? <==> Short(paths)))
  {
    hide SessionBytes, StatBytes, Head, Answers, Ends, LastWords, ReadStats, Flatten, FailMsg, SessionEnds, Infos, Short;
    var s := new Fd(b, plan);
    ghost var j := Served(paths);
    ghost var first, tail := paths[..j], StatBytes(paths[j..]) + Head(ID_QUIT, 0);
    StatSplit(paths, j);
    StatTail(paths[j..]);
    Assoc(SessionBytes(StatRequests(first)), StatBytes(paths[j..]), Head(ID_QUIT, 0));
    var stored, last, got := Serve(s, fs, StatRequests(first), Bare(tail));
    out := s.output;
    if b == StatBytes(paths) + Head(ID_QUIT, 0) {
      StatsServed(fs, paths, tail, stored, last, got, Soft(plan));
    }
  }

  /**
   * All STATs sent ahead, then all replies read: whatever the connection does, there is either no
   * result, or the k-th result is what lstat says of the k-th path. Over a connection that holds
   * there is a result exactly if no path is longer than the service allows.
   */
  method PipelinedStats(paths: seq<seq<byte>>, fs: FileSystem, sendPlan: seq<Call>, servePlan: seq<Call>, recvPlan: seq<Call>)
    returns (r: Option<seq<StatInfo>>)
    requires ArePaths(paths)
    ensures r.Some? ==> Short(paths) && r.value == Infos(fs, paths)
    ensures Soft(sendPlan) && Soft(servePlan) && Soft(recvPlan) ==> (r.Some? <==> Short(paths))
  {
    hide StatBytes, Head, ReadStats, Infos, Short;
    var client := new Fd([], sendPlan);
    var ok := StartReadtimes(client, paths);
    if !ok {
      return None;
    }
    assert [] + StatBytes(paths) == StatBytes(paths);
    var out := ServeStats(client.output + Head(ID_QUIT, 0), fs, servePlan, paths);
    var fd := new Fd(out, recvPlan);
    r := FinishReadtimes(fd, |paths|);
  }
}
