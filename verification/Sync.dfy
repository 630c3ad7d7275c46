/** Accumulating fences into one owned descriptor. */
module Sync {

  /** A fence: the elementary fences it was merged from, in order. Nothing else is assumed of merging. */
  type Fence = seq<nat>

  datatype Errno = EINTR | EAGAIN | Other(code: nat)

  datatype Reply = Done | Failed(errno: Errno)

  predicate Retry(r: Reply) {
    r == Failed(EINTR) || r == Failed(EAGAIN)
  }

  /** The reply that ends the retry loop: the first that is not an interruption. */
  function Settled(replies: seq<Reply>): Reply {
    if replies == [] then Done
    else if Retry(replies[0]) then Settled(replies[1..])
    else replies[0]
  }

  /** The replies left after the one that ends the retry loop. */
  function Remaining(replies: seq<Reply>): seq<Reply> {
    if replies == [] then []
    else if Retry(replies[0]) then Remaining(replies[1..])
    else replies[1..]
  }

  /** How often the call is interrupted: the reply after that many decides, or none is left. */
  lemma {:induction false} SettledAfter(replies: seq<Reply>) returns (waits: nat)
    ensures waits <= |replies|
    ensures forall j | 0 <= j < waits :: replies[j] == Failed(EINTR) || replies[j] == Failed(EAGAIN)
    ensures waits < |replies| ==> replies[waits] != Failed(EINTR) && replies[waits] != Failed(EAGAIN)
    ensures Settled(replies) == if waits < |replies| then replies[waits] else Done
    ensures Remaining(replies) == if waits < |replies| then replies[waits + 1..] else []
  {
    if replies == [] || !Retry(replies[0]) {
      waits := 0;
    } else {
      waits := SettledAfter(replies[1..]);
      waits := waits + 1;
    }
  }

  /** The replies left after m merges. */
  function AfterMerges(replies: seq<Reply>, m: nat): seq<Reply> {
    if m == 0 then replies else Remaining(AfterMerges(replies, m - 1))
  }

  /** Will the next dup of an open descriptor fail? */
  predicate NextFails(dupFails: seq<bool>) {
    dupFails != [] && dupFails[0]
  }

  /** The process's descriptor table, and how the kernel will answer the coming calls. */
  class Kernel {
    var fds: map<int, Fence>
    var ioctlReplies: seq<Reply>
    var dupFails: seq<bool>
    var errno: Errno

    constructor (fds: map<int, Fence>, ioctlReplies: seq<Reply>, dupFails: seq<bool>)
      ensures this.fds == fds && this.ioctlReplies == ioctlReplies && this.dupFails == dupFails
    {
      this.fds, this.ioctlReplies, this.dupFails, errno := fds, ioctlReplies, dupFails, Other(0);
    }

    method Unused() returns (fd: int)
      ensures fd >= 0 && fd !in fds
    {
      fd := 0;
      ghost var rest := fds.Keys;
      while fd in fds
        invariant fd >= 0 && rest <= fds.Keys
        invariant forall k | fd <= k && k in fds :: k in rest
        decreases rest
      {
        rest := rest - {fd};
        fd := fd + 1;
      }
    }

    /** dup */
    method Dup(fd: int) returns (r: int)
      modifies this`fds, this`dupFails
      ensures r == -1 || (r >= 0 && r !in old(fds) && fd in old(fds))
      ensures fds == if r < 0 then old(fds) else old(fds)[r := old(fds)[fd]]
      ensures dupFails == if old(dupFails) == [] then [] else old(dupFails)[1..]
      ensures r >= 0 <==> fd in old(fds) && !NextFails(old(dupFails))
    {
      var fails := dupFails != [] && dupFails[0];
      if dupFails != [] {
        dupFails := dupFails[1..];
      }
      if fails || fd !in fds {
        return -1;
      }
      r := Unused();
      fds := fds[r := fds[fd]];
    }

    /** close */
    method Close(fd: int)
      modifies this`fds
      ensures fds == old(fds) - {fd}
    {
      fds := fds - {fd};
    }

    /** ioctl (fd1, SYNC_IOC_MERGE, &data): on success a new descriptor for the merged fence. */
    method IoctlMerge(fd1: int, fd2: int) returns (ret: int, fence: int)
      modifies this
      ensures dupFails == old(dupFails)
      ensures ioctlReplies == if old(ioctlReplies) == [] then [] else old(ioctlReplies)[1..]
      ensures var reply := if old(ioctlReplies) == [] then Done else old(ioctlReplies)[0];
              if reply.Failed? then ret == -1 && errno == reply.errno && fds == old(fds)
              else if fd1 !in old(fds) || fd2 !in old(fds) then ret == -1 && errno.Other? && fds == old(fds)
              else ret == 0 && fence >= 0 && fence !in old(fds)
                   && fds == old(fds)[fence := old(fds)[fd1] + old(fds)[fd2]]
    {
      var reply := if ioctlReplies == [] then Done else ioctlReplies[0];
      if ioctlReplies != [] {
        ioctlReplies := ioctlReplies[1..];
      }
      ret, fence := -1, 0;
      if reply.Failed? {
        errno := reply.errno;
      } else if fd1 !in fds || fd2 !in fds {
        errno := Other(9);
      } else {
        ret := 0;
        fence := Unused();
        fds := fds[fence := fds[fd1] + fds[fd2]];
      }
    }
  }

  /** Retry while interrupted, which happens waits times; the first other reply decides. A failed merge changes
      no descriptor. */
  method SyncMerge(k: Kernel, fd1: int, fd2: int) returns (r: int, ghost waits: nat)
    modifies k
    ensures waits <= |old(k.ioctlReplies)|
    ensures forall j | 0 <= j < waits ::
              old(k.ioctlReplies)[j] == Failed(EINTR) || old(k.ioctlReplies)[j] == Failed(EAGAIN)
    ensures if waits < |old(k.ioctlReplies)| then
              var reply := old(k.ioctlReplies)[waits];
              && reply != Failed(EINTR) && reply != Failed(EAGAIN)
              && (r >= 0 <==> reply == Done && fd1 in old(k.fds) && fd2 in old(k.fds))
              && k.ioctlReplies == old(k.ioctlReplies)[waits + 1..]
            else (r >= 0 <==> fd1 in old(k.fds) && fd2 in old(k.fds)) && k.ioctlReplies == []
    ensures k.dupFails == old(k.dupFails) && k.ioctlReplies == Remaining(old(k.ioctlReplies))
    ensures r >= 0 <==> Settled(old(k.ioctlReplies)).Done? && fd1 in old(k.fds) && fd2 in old(k.fds)
    ensures if r < 0 then k.fds == old(k.fds)
            else r !in old(k.fds) && fd1 in old(k.fds) && fd2 in old(k.fds)
                 && k.fds == old(k.fds)[r := old(k.fds)[fd1] + old(k.fds)[fd2]]
  {
    var ret, fence := k.IoctlMerge(fd1, fd2);
    while ret == -1 && (k.errno == EINTR || k.errno == EAGAIN)
      invariant k.dupFails == old(k.dupFails)
      invariant ret == -1 || ret == 0
      invariant ret == -1 ==> k.fds == old(k.fds)
      invariant ret == 0 ==> fence >= 0 && fence !in old(k.fds) && fd1 in old(k.fds) && fd2 in old(k.fds)
                             && k.fds == old(k.fds)[fence := old(k.fds)[fd1] + old(k.fds)[fd2]]
      invariant ret == -1 && (k.errno == EINTR || k.errno == EAGAIN) ==>
                  Settled(k.ioctlReplies) == Settled(old(k.ioctlReplies))
                  && Remaining(k.ioctlReplies) == Remaining(old(k.ioctlReplies))
      invariant ret == 0 || !(k.errno == EINTR || k.errno == EAGAIN) ==>
                  (ret == 0 <==> Settled(old(k.ioctlReplies)).Done? && fd1 in old(k.fds) && fd2 in old(k.fds))
                  && k.ioctlReplies == Remaining(old(k.ioctlReplies))
      decreases |k.ioctlReplies|, if ret == -1 && (k.errno == EINTR || k.errno == EAGAIN) then 1 else 0
    {
      ret, fence := k.IoctlMerge(fd1, fd2);
    }
    waits := SettledAfter(old(k.ioctlReplies));
    return if ret < 0 then ret else fence, waits;
  }

  /** fd2 accumulated into *fd1, whose value before is held and after is now. */
  method SyncAccumulate(k: Kernel, held: int, fd2: int) returns (ret: int, now: int)
    requires fd2 >= 0
    modifies k
    ensures ret < 0 ==> now == held && k.fds == old(k.fds)
    ensures ret >= 0 ==> ret == 0
    ensures held < 0 ==> ret == 0 && (now >= 0 ==> fd2 in old(k.fds) && now !in old(k.fds))
                         && k.fds == if now < 0 then old(k.fds) else old(k.fds)[now := old(k.fds)[fd2]]
    ensures held < 0 ==> (now >= 0 <==> fd2 in old(k.fds) && !NextFails(old(k.dupFails)))
    ensures k.ioctlReplies == if held < 0 then old(k.ioctlReplies) else Remaining(old(k.ioctlReplies))
    ensures k.dupFails == if held >= 0 || old(k.dupFails) == [] then old(k.dupFails) else old(k.dupFails)[1..]
    ensures held >= 0 && ret == 0 ==>
              held in old(k.fds) && fd2 in old(k.fds) && now >= 0 && now !in old(k.fds)
              && k.fds == old(k.fds)[now := old(k.fds)[held] + old(k.fds)[fd2]] - {held}
    ensures held >= 0 ==> (ret == 0 <==>
              Settled(old(k.ioctlReplies)).Done? && held in old(k.fds) && fd2 in old(k.fds))
  {
    now := held;
    if held < 0 {
      now := k.Dup(fd2);
      return 0, now;
    }
    ghost var waits: nat;
    ret, waits := SyncMerge(k, held, fd2);
    if ret < 0 {
      return ret, now;
    }
    k.Close(held);
    now := ret;
    return 0, now;
  }

  // ----- a run of calls, on the kernel's scripts

  /** What has been accumulated, and the replies to come. */
  datatype Batch = Batch(holds: bool, fence: Fence, replies: seq<Reply>, dupFails: seq<bool>)

  /** What a descriptor number stands for when it is passed. */
  datatype Seen = Closed | Open(fence: Fence)

  /** A call reports success when nothing is held, whatever dup does; and else as its merge is settled. */
  predicate Reports(b: Batch, seen: Seen) {
    !b.holds || (Settled(b.replies).Done? && seen.Open?)
  }

  function Next(b: Batch, seen: Seen): Batch {
    if b.holds then
      var c := b.(replies := Remaining(b.replies));
      if Reports(b, seen) then c.(fence := b.fence + seen.fence) else c
    else
      var c := b.(dupFails := if b.dupFails == [] then [] else b.dupFails[1..]);
      if seen.Open? && !NextFails(b.dupFails) then c.(holds := true, fence := seen.fence) else c
  }

  /** A caller's number: one of the descriptors in table, or by chance the owned one, or closed. */
  function Look(table: map<int, Fence>, b: Batch, held: int, fd: int): Seen {
    if fd in table then Open(table[fd])
    else if b.holds && fd == held then Open(b.fence)
    else Closed
  }

  /** The batch after n calls, and what call number n sees; helds are the values of *fd1 before each call. */
  function After(b: Batch, table: map<int, Fence>, calls: seq<int>, helds: seq<int>, n: nat): Batch
    requires n <= |calls| && n <= |helds|
  {
    if n == 0 then b
    else
      var now := After(b, table, calls, helds, n - 1);
      Next(now, Look(table, now, helds[n - 1], calls[n - 1]))
  }

  function SeenBy(b: Batch, table: map<int, Fence>, calls: seq<int>, helds: seq<int>, n: nat): Seen
    requires n < |calls| && n < |helds|
  {
    Look(table, After(b, table, calls, helds, n), helds[n], calls[n])
  }

  /** The fences of the open descriptors passed in the first n calls that reported success, in order. */
  function Merged(b: Batch, table: map<int, Fence>, calls: seq<int>, helds: seq<int>, n: nat): Fence
    requires n <= |calls| && n <= |helds|
  {
    if n == 0 then []
    else
      var seen := SeenBy(b, table, calls, helds, n - 1);
      Merged(b, table, calls, helds, n - 1) +
      if Reports(After(b, table, calls, helds, n - 1), seen) && seen.Open? then seen.fence else []
  }

  /** The first call that passes an open descriptor. */
  function FirstOpen(table: map<int, Fence>, calls: seq<int>): (f: nat)
    ensures f <= |calls| && (f < |calls| ==> calls[f] in table)
    ensures forall i | 0 <= i < f :: calls[i] !in table
  {
    if calls == [] || calls[0] in table then 0 else 1 + FirstOpen(table, calls[1..])
  }

  /** dup fails for the first open descriptor passed. */
  predicate LosesFirst(table: map<int, Fence>, calls: seq<int>, dupFails: seq<bool>) {
    var f := FirstOpen(table, calls);
    f < |calls| && f < |dupFails| && dupFails[f]
  }

  /** How far a run from nothing has come: before the first open descriptor nothing is held; from it on, what
      is held is the merge of all successes, or misses the first of them for good. */
  ghost predicate Stage(b: Batch, table: map<int, Fence>, calls: seq<int>, now: Batch, merged: Fence, n: nat) {
    if n <= FirstOpen(table, calls) then
      !now.holds && now.fence == [] && merged == []
      && now.dupFails == if n <= |b.dupFails| then b.dupFails[n..] else []
    else if LosesFirst(table, calls, b.dupFails) then
      |now.fence| < |merged| && (!now.holds ==> now.fence == [])
    else
      now.holds && now.fence == merged
  }

  lemma StageNext(b: Batch, table: map<int, Fence>, calls: seq<int>, now: Batch, merged: Fence, n: nat, held: int)
    requires n < |calls| && forall fd | fd in table :: table[fd] != []
    requires Stage(b, table, calls, now, merged, n)
    ensures var seen := Look(table, now, held, calls[n]);
            Stage(b, table, calls, Next(now, seen),
                  merged + if Reports(now, seen) && seen.Open? then seen.fence else [], n + 1)
  {
    hide Settled, Remaining, FirstOpen;
  }

  lemma AfterOneMore(b: Batch, table: map<int, Fence>, calls: seq<int>, helds: seq<int>, n: nat)
    requires n < |calls| && n < |helds|
    ensures After(b, table, calls, helds, n + 1)
         == Next(After(b, table, calls, helds, n), SeenBy(b, table, calls, helds, n))
  {
  }

  lemma MergedOneMore(b: Batch, table: map<int, Fence>, calls: seq<int>, helds: seq<int>, n: nat)
    requires n < |calls| && n < |helds|
    ensures var now := After(b, table, calls, helds, n);
            var seen := Look(table, now, helds[n], calls[n]);
            && After(b, table, calls, helds, n + 1) == Next(now, seen)
            && Merged(b, table, calls, helds, n + 1)
            == Merged(b, table, calls, helds, n) + if Reports(now, seen) && seen.Open? then seen.fence else []
  {
  }

  lemma StageStart(b: Batch, table: map<int, Fence>, calls: seq<int>, helds: seq<int>)
    requires !b.holds && b.fence == []
    ensures Stage(b, table, calls, After(b, table, calls, helds, 0), Merged(b, table, calls, helds, 0), 0)
  {
  }

  lemma {:induction false} StageHolds(b: Batch, table: map<int, Fence>, calls: seq<int>, helds: seq<int>, n: nat)
    requires n <= |calls| && n <= |helds| && !b.holds && b.fence == []
    requires forall fd | fd in table :: table[fd] != []
    ensures Stage(b, table, calls, After(b, table, calls, helds, n), Merged(b, table, calls, helds, n), n)
  {
    hide Stage, Next, Look, FirstOpen, LosesFirst, Reports, After, Merged, SeenBy;
    if n == 0 {
      StageStart(b, table, calls, helds);
    } else {
      StageHolds(b, table, calls, helds, n - 1);
      MergedOneMore(b, table, calls, helds, n - 1);
      StageNext(b, table, calls, After(b, table, calls, helds, n - 1), Merged(b, table, calls, helds, n - 1),
                n - 1, helds[n - 1]);
    }
  }

  /** What is held at the end is the merge of all calls that reported success exactly when dup does not fail
      for the first open descriptor passed; then it is held from that call on. */
  lemma HeldIsMerged(b: Batch, table: map<int, Fence>, calls: seq<int>, helds: seq<int>)
    requires |calls| <= |helds| && !b.holds && b.fence == []
    requires forall fd | fd in table :: table[fd] != []
    ensures var now := After(b, table, calls, helds, |calls|);
            && (!LosesFirst(table, calls, b.dupFails) <==> now.fence == Merged(b, table, calls, helds, |calls|))
            && (!LosesFirst(table, calls, b.dupFails) ==> (now.holds <==> FirstOpen(table, calls) < |calls|))
  {
    hide FirstOpen, Next;
    StageHolds(b, table, calls, helds, |calls|);
  }

  /** Later values of *fd1 do not change what came before them. */
  lemma {:induction false} AfterPrefix(b: Batch, table: map<int, Fence>, calls: seq<int>, helds: seq<int>, n: nat,
                                       more: int)
    requires n <= |calls| && n <= |helds|
    ensures After(b, table, calls, helds + [more], n) == After(b, table, calls, helds, n)
  {
    if n == 0 {
    } else {
      AfterPrefix(b, table, calls, helds, n - 1, more);
    }
  }

  function HeldFence(fds: map<int, Fence>, held: int): Fence {
    if held in fds then fds[held] else []
  }

  /** The documented use: start with -1 and accumulate descriptors that stay the caller's, open or not.
      The calls and the kernel's scripts decide the whole run: which calls report success, when a descriptor is
      held, and the fence it denotes. One descriptor at most is owned, and the caller's are untouched. What is held
      at the end denotes the merge of all calls that reported success exactly when dup does not fail for the
      first open descriptor passed. */
  method Accumulate(k: Kernel, calls: seq<int>) returns (held: int, results: seq<int>, helds: seq<int>)
    requires forall i | 0 <= i < |calls| :: calls[i] >= 0
    requires forall fd | fd in k.fds :: fd >= 0 && k.fds[fd] != []
    modifies k
    ensures |results| == |calls| && |helds| == |calls| + 1 && helds[0] == -1 && held == helds[|calls|]
    ensures var table, b := old(k.fds), Batch(false, [], old(k.ioctlReplies), old(k.dupFails));
            && Follows(b, table, calls, results, helds)
            && (held >= 0 ==> held !in table)
            && k.fds == (if held < 0 then table else table[held := After(b, table, calls, helds, |calls|).fence])
            && (HeldFence(k.fds, held) == Merged(b, table, calls, helds, |calls|) <==>
                !LosesFirst(table, calls, old(k.dupFails)))
  {
    hide Follows, After, Merged, Next, Look, Settled, Remaining, NextFails, LosesFirst;
    held, results, helds := -1, [], [-1];
    ghost var table, b := k.fds, Batch(false, [], k.ioctlReplies, k.dupFails);
    FollowsStart(b, table, calls);
    for n := 0 to |calls|
      invariant |results| == n && |helds| == n + 1 && helds[0] == -1 && held == helds[n]
      invariant Follows(b, table, calls, results, helds)
      invariant Matches(k.fds, k.ioctlReplies, k.dupFails, table, held, After(b, table, calls, helds, n))
    {
      hide Matches;
      ghost var now, fds, replies, dups := After(b, table, calls, helds, n), k.fds, k.ioctlReplies, k.dupFails;
      var ret, h := SyncAccumulate(k, held, calls[n]);
      MatchesNext(fds, replies, dups, table, held, now, calls[n], ret, h, k.fds);
      AfterOneMore(b, table, calls, helds, n);
      FollowsNext(b, table, calls, results, helds, ret, h);
      held, results, helds := h, results + [ret], helds + [h];
    }
    HeldIsMerged(b, table, calls, helds);
  }

  /** One call keeps the descriptor table and the scripts those of the batch. The premises are what
      SyncAccumulate ensures. */
  lemma MatchesNext(fds: map<int, Fence>, replies: seq<Reply>, dupFails: seq<bool>,
                    table: map<int, Fence>, held: int, now: Batch, fd: int, ret: int, h: int, fds': map<int, Fence>)
    requires Matches(fds, replies, dupFails, table, held, now)
    requires fd >= 0 && forall x | x in table :: table[x] != []
    requires ret < 0 ==> h == held && fds' == fds
    requires ret >= 0 ==> ret == 0
    requires held < 0 ==> ret == 0 && (h >= 0 ==> fd in fds && h !in fds)
                          && fds' == if h < 0 then fds else fds[h := fds[fd]]
    requires held < 0 ==> (h >= 0 <==> fd in fds && !NextFails(dupFails))
    requires held >= 0 && ret == 0 ==>
               held in fds && fd in fds && h >= 0 && h !in fds && fds' == fds[h := fds[held] + fds[fd]] - {held}
    requires held >= 0 ==> (ret == 0 <==> Settled(replies).Done? && held in fds && fd in fds)
    ensures var seen := Look(table, now, held, fd);
            && (ret == 0 <==> Reports(now, seen))
            && Matches(fds', if held < 0 then replies else Remaining(replies),
                       if held >= 0 || dupFails == [] then dupFails else dupFails[1..], table, h, Next(now, seen))
  {
    hide Settled, Remaining, NextFails;
    assert Look(table, now, held, fd) == if fd in fds then Open(fds[fd]) else Closed;
  }

  /** The descriptor table and scripts of a run are those of the batch. */
  ghost predicate Matches(fds: map<int, Fence>, replies: seq<Reply>, dupFails: seq<bool>,
                          table: map<int, Fence>, held: int, now: Batch) {
    && now.replies == replies && now.dupFails == dupFails
    && (held >= 0 <==> now.holds) && (now.holds <==> now.fence != []) && (held >= 0 ==> held !in table)
    && fds == if held < 0 then table else table[held := now.fence]
  }

  /** The results and values of *fd1 so far are those of the batch. */
  ghost predicate Follows(b: Batch, table: map<int, Fence>, calls: seq<int>, results: seq<int>, helds: seq<int>) {
    && |results| <= |calls| && |helds| == |results| + 1
    && (forall i | 0 <= i < |results| ::
          results[i] == 0 <==> Reports(After(b, table, calls, helds, i), SeenBy(b, table, calls, helds, i)))
    && (forall i | 0 <= i < |helds| :: helds[i] >= 0 <==> After(b, table, calls, helds, i).holds)
  }

  lemma FollowsStart(b: Batch, table: map<int, Fence>, calls: seq<int>)
    requires !b.holds
    ensures Follows(b, table, calls, [], [-1]) && After(b, table, calls, [-1], 0) == b
  {
  }

  lemma FollowsNext(b: Batch, table: map<int, Fence>, calls: seq<int>, results: seq<int>, helds: seq<int>,
                    ret: int, h: int)
    requires Follows(b, table, calls, results, helds) && |results| < |calls|
    requires ret == 0 <==>
               Reports(After(b, table, calls, helds, |results|), SeenBy(b, table, calls, helds, |results|))
    requires h >= 0 <==> After(b, table, calls, helds, |results| + 1).holds
    ensures Follows(b, table, calls, results + [ret], helds + [h])
    ensures After(b, table, calls, helds + [h], |results| + 1) == After(b, table, calls, helds, |results| + 1)
  {
    hide After, Reports, Look;
    forall i | 0 <= i <= |results| + 1
      ensures After(b, table, calls, helds + [h], i) == After(b, table, calls, helds, i)
    {
      AfterPrefix(b, table, calls, helds, i, h);
    }
  }

  /** The smallest loss: one call, whose dup fails, reports success and leaves nothing held. */
  method DupFailureGoesUnreported(fd: nat, fence: Fence)
    returns (k: Kernel, held: int, results: seq<int>, helds: seq<int>)
    requires fence != []
    ensures results == [0] && helds == [-1, held] && held < 0 && HeldFence(k.fds, held) == []
    ensures Merged(Batch(false, [], [], [true]), map[fd := fence], [fd], helds, 1) == fence
  {
    var table := map[fd := fence];
    k := new Kernel(table, [], [true]);
    held, results, helds := Accumulate(k, [fd]);
    ghost var b := Batch(false, [], [], [true]);
    assert After(b, table, [fd], helds, 0) == b && SeenBy(b, table, [fd], helds, 0) == Open(fence);
    assert !After(b, table, [fd], helds, 1).holds;
    assert Merged(b, table, [fd], helds, 0) == [];
  }
}
