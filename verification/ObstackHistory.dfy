/** What the calls to the library and the empty-object flag say about the history of a run. */
module ObstackHistory {
  import opened Heap
  import opened ObstackSpec
  import opened ObstackSteps
  import opened ObstackRuns
  import ObstackLengths

  // ----- what is asked of the library

  /** A new chunk is requested exactly when length more bytes do not fit, and for exactly that length. */
  predicate Requests(s: State, t: State, length: nat) {
    t.calls == if s.limit - s.next >= length then s.calls else s.calls + [NewChunkCall(length)]
  }

  /** Every operation asks for what it is about to add, terminator included; freeing goes to the library
      exactly when the address is not strictly inside the current chunk. */
  lemma RequestsExactly(s: State, op: Op)
    requires Inv(s) && Legal(s, op)
    ensures var t := Step(s, op);
            match op
            case MakeRoomOp(n, _) => Requests(s, t, n)
            case Grow(src, _) => Requests(s, t, |src|)
            case Grow0(src, _) => Requests(s, t, |src| + 1)
            case Grow1(_, _) => Requests(s, t, 1)
            case GrowWord(rep, _) => Requests(s, t, |rep|)
            case Blank(n, _) => Requests(s, t, n)
            case Alloc(n, _) => Requests(s, t, n)
            case Copy(src, _) => Requests(s, t, |src|)
            case Copy0(src, _) => Requests(s, t, |src| + 1)
            case FinishOp => t.calls == s.calls
            case FreeOp(i) =>
              var p := if i < |s.objects| then s.objects[i].addr else s.base;
              t.calls == if s.Top().addr < p < s.limit then s.calls else s.calls + [FreeCall(p)]
  {
    hide MemoryOk, Abs, Unwind, Store, Follow;
    match op
    case FinishOp =>
    case FreeOp(i) => FreeAsks(s, i);
    case _ => MakeRoomAsks(s, Need(op), op.block);
  }

  lemma MakeRoomAsks(s: State, length: nat, b: Block)
    requires s.chunks != []
    ensures Requests(s, MakeRoom(s, length, b), length)
  {
  }

  lemma FreeAsks(s: State, i: nat)
    requires Inv(s) && i <= |s.objects|
    ensures Free(s, i).calls == if s.Top().addr < Target(s, i).addr < s.limit then s.calls
                                else s.calls + [FreeCall(Target(s, i).addr)]
  {
    hide MemoryOk, Abs, Unwind;
    var t := Target(s, i);
    TargetOk(s, i);
    if t.depth < |s.chunks| - 1 {
      assert Apart(s.chunks[t.depth], s.Top());
    }
  }

  /** The allocator is told no more than the recorded length: an operation may be given a block exactly when
      that block is suitable for the length recorded. */
  lemma LegalMeansRecorded(s: State, op: Op)
    requires s.chunks != [] && !op.FinishOp? && !op.FreeOp?
    ensures Legal(s, op) <==>
              && (op.GrowWord? ==> |op.rep| == s.cfg.platform.ptrSize || |op.rep| == s.cfg.platform.intSize)
              && forall k: nat | Step(s, op).calls == s.calls + [NewChunkCall(k)] :: Suitable(s, k, op.block)
  {
    hide Suitable, Store, NewChunk, MakeRoom, Step;
    MakeRoomAsks(s, Need(op), op.block);
    AsksOnce(s, op);
    AppendedCall(s, op);
  }

  /** At most one length is recorded. */
  lemma AppendedCall(s: State, op: Op)
    requires s.chunks != [] && !op.FinishOp? && !op.FreeOp?
    ensures forall k: nat :: Step(s, op).calls == s.calls + [NewChunkCall(k)]
                             <==> !HasRoom(s, Need(op)) && k == Need(op)
  {
    hide Store, NewChunk, MakeRoom, Step;
    MakeRoomAsks(s, Need(op), op.block);
    AsksOnce(s, op);
    forall k: nat
      ensures Step(s, op).calls == s.calls + [NewChunkCall(k)] <==> !HasRoom(s, Need(op)) && k == Need(op)
    {
      assert (s.calls + [NewChunkCall(k)])[|s.calls|] == NewChunkCall(k);
      assert (s.calls + [NewChunkCall(Need(op))])[|s.calls|] == NewChunkCall(Need(op));
    }
  }

  lemma AsksOnce(s: State, op: Op)
    requires s.chunks != [] && !op.FinishOp? && !op.FreeOp?
    ensures Step(s, op).calls == MakeRoom(s, Need(op), op.block).calls
  {
    hide MakeRoom, Store;
  }

  /** A block suitable for the recorded length leaves room for the bytes then written. */
  lemma RecordedIsEnough(s: State, op: Op, k: nat)
    requires Inv(s) && !op.FinishOp? && !op.FreeOp?
    requires Step(s, op).calls == s.calls + [NewChunkCall(k)] && Suitable(s, k, op.block)
    ensures var m := NewChunk(s, k, op.block);
            m.limit - m.next >=
              match op
              case MakeRoomOp(n, _) => n
              case Grow(src, _) => |src|
              case Grow0(src, _) => |src| + 1
              case Grow1(_, _) => 1
              case GrowWord(rep, _) => |rep|
              case Blank(n, _) => n
              case Alloc(n, _) => n
              case Copy(src, _) => |src|
              case Copy0(src, _) => |src| + 1
  {
    hide Inv, Suitable, NewChunk, MakeRoom, Step;
    InvChunks(s);
    AppendedCall(s, op);
    assert k == Need(op);
    NewChunkKeeps(s, k, op.block);
  }

  /** Making room makes it, and does nothing else to the objects. */
  lemma MakeRoomMakesRoom(s: State, n: nat, b: Block)
    requires Inv(s) && Legal(s, MakeRoomOp(n, b))
    ensures var t := Step(s, MakeRoomOp(n, b)); t.limit - t.next >= n && Abs(t) == Abs(s) && t.objects == s.objects
  {
    hide Inv, Suitable, MakeRoom;
    MakeRoomKeeps(s, n, b);
  }

  /** What is meant by a grow or grow0 of a length is what the step does: its request, the bytes that come from
      the source, and how far the next free position moves. */
  lemma IntendedIsDone(s: State, op: Op)
    requires Inv(s) && Legal(s, op) && (op.Grow? || op.Grow0?)
    ensures var extra := if op.Grow0? then 1 else 0;
            var plan, t := ObstackLengths.Intended(s, |op.src|, extra), Step(s, op);
            && (if plan.ask.NoCall? then t.calls == s.calls
                else plan.ask.Asks? && plan.ask.length > 0 && t.calls == s.calls + [NewChunkCall(plan.ask.length)])
            && 0 <= plan.copies <= |op.src|
            && Abs(t).growing == Abs(s).growing + op.src[..plan.copies] + (if op.Grow0? then [0] else [])
            && t.next - t.base == s.next - s.base + plan.advances
  {
    hide Inv, Suitable, MakeRoom, Step, Abs;
    RequestsExactly(s, op);
    InvChunks(s);
    StepKeeps(s, op);
    GrowsByNeed(s, op);
  }

  // ----- the empty-object flag

  /** The state after the first k operations. */
  ghost function At(s: State, ops: seq<Op>, k: nat): State
    requires LegalRun(s, ops) && k <= |ops|
    decreases k
  {
    if k == 0 then s else At(Step(s, ops[0]), ops[1..], k - 1)
  }

  /** An operation from s to t took a new chunk. */
  predicate Takes(s: State, op: Op, t: State) {
    !op.FreeOp? && |t.calls| > |s.calls|
  }

  /** It finished an empty object, or freed one and released a chunk. */
  predicate LeavesDoubt(s: State, op: Op, t: State) {
    || (Returns(op) && Abs(t).finished != [] && Abs(t).finished[|Abs(t).finished| - 1] == [])
    || (op.FreeOp? && |t.chunks| < |s.chunks|)
  }

  lemma FinishFlag(s: State)
    requires Inv(s)
    ensures var t := Finish(s);
            && Abs(t).finished != []
            && (t.maybeEmpty <==> s.maybeEmpty || Abs(t).finished[|Abs(t).finished| - 1] == [])
            && (Abs(t).finished[|Abs(t).finished| - 1] == [] <==> s.next == s.base)
  {
    hide MemoryOk, ObjectsOk, ChunksOk, Follow;
    FinishKeeps(s);
    assert |Growing(s)| == s.next - s.base;
  }

  lemma MakeRoomFlag(s: State, length: nat, b: Block)
    requires Inv(s) && (!HasRoom(s, length) ==> Suitable(s, length, b))
    ensures var m := MakeRoom(s, length, b);
            && Inv(m) && m.next >= m.base
            && (m.maybeEmpty <==> HasRoom(s, length) && s.maybeEmpty)
            && |m.calls| == |s.calls| + (if HasRoom(s, length) then 0 else 1)
            && (!HasRoom(s, length) ==> length > 0)
  {
    MakeRoomKeeps(s, length, b);
  }

  /** How one operation changes the flag. */
  lemma StepFlag(s: State, op: Op)
    requires Inv(s) && Legal(s, op)
    ensures var t := Step(s, op);
            && (t.maybeEmpty <==> LeavesDoubt(s, op, t) || (s.maybeEmpty && !Takes(s, op, t)))
            && !(LeavesDoubt(s, op, t) && Takes(s, op, t))
  {
    hide Inv, MakeRoom, Finish, Free, Abs, Suitable;
    match op
    case FinishOp => FinishFlag(s); FinishCalls(s);
    case FreeOp(i) => FreeFlag(s, i);
    case Alloc(n, b) =>
      InvChunks(s);
      MakeRoomFlag(s, n, b);
      var junk := BlankKeeps(s, b, n);
      FinishFlag(Advance(MakeRoom(s, n, b), n));
      FinishCalls(Advance(MakeRoom(s, n, b), n));
    case Copy(src, b) => CopyFlag(s, src, b);
    case Copy0(src, b) => CopyFlag(s, src + [0], b);
    case _ => MakeRoomFlag(s, Need(op), op.block);
  }

  lemma CopyFlag(s: State, bytes: seq<Byte>, b: Block)
    requires Inv(s) && (!HasRoom(s, |bytes|) ==> Suitable(s, |bytes|, b))
    ensures var t := Finish(Append(MakeRoom(s, |bytes|, b), bytes));
            && Abs(t).finished != []
            && (t.maybeEmpty <==>
                  Abs(t).finished[|Abs(t).finished| - 1] == [] || (s.maybeEmpty && |t.calls| == |s.calls|))
            && |t.calls| >= |s.calls|
            && (Abs(t).finished[|Abs(t).finished| - 1] == [] ==> |t.calls| == |s.calls|)
  {
    hide Inv, MakeRoom, Finish, Abs, Suitable, Store;
    InvChunks(s);
    MakeRoomFlag(s, |bytes|, b);
    GrowKeeps(s, b, bytes);
    FinishFlag(Append(MakeRoom(s, |bytes|, b), bytes));
    FinishCalls(Append(MakeRoom(s, |bytes|, b), bytes));
  }

  lemma FinishCalls(s: State)
    requires Inv(s)
    ensures Finish(s).calls == s.calls
  {
  }

  lemma FreeFlag(s: State, i: nat)
    requires Inv(s) && i <= |s.objects|
    ensures var t := Free(s, i);
            && |t.chunks| <= |s.chunks|
            && (t.maybeEmpty <==> s.maybeEmpty || |t.chunks| < |s.chunks|)
  {
    hide MemoryOk, ObjectsOk, ChunksOk, GrowingOk, Abs, Unwind;
    FreeUnwound(s, i);
  }

  ghost predicate TakesAt(s: State, ops: seq<Op>, k: nat)
    requires LegalRun(s, ops) && k < |ops|
  {
    Takes(At(s, ops, k), ops[k], At(s, ops, k + 1))
  }

  ghost predicate LeavesDoubtAt(s: State, ops: seq<Op>, k: nat)
    requires LegalRun(s, ops) && k < |ops|
  {
    LeavesDoubt(At(s, ops, k), ops[k], At(s, ops, k + 1))
  }

  /** In the current chunk, since it became current by being taken, an empty object was finished, or since then
      it became current again by a free that released a chunk; or the run started in doubt and took no chunk. */
  ghost predicate InDoubt(s: State, ops: seq<Op>, m: nat)
    requires LegalRun(s, ops) && m <= |ops|
  {
    || (exists k | 0 <= k < m :: LeavesDoubtAt(s, ops, k) && forall j | k < j < m :: !TakesAt(s, ops, j))
    || (s.maybeEmpty && forall j | 0 <= j < m :: !TakesAt(s, ops, j))
  }

  lemma {:induction false} AtNext(s: State, ops: seq<Op>, k: nat)
    requires Inv(s) && LegalRun(s, ops) && k < |ops|
    ensures Inv(At(s, ops, k)) && Legal(At(s, ops, k), ops[k])
    ensures At(s, ops, k + 1) == Step(At(s, ops, k), ops[k])
    decreases k
  {
    hide Inv, Step, Suitable;
    StepKeeps(s, ops[0]);
    if k == 0 {
      assert At(Step(s, ops[0]), ops[1..], 0) == Step(s, ops[0]);
    } else {
      AtNext(Step(s, ops[0]), ops[1..], k - 1);
    }
  }

  lemma {:induction false} AtEnd(s: State, ops: seq<Op>)
    requires LegalRun(s, ops)
    ensures At(s, ops, |ops|) == Run(s, ops)
    decreases |ops|
  {
    hide Step;
    if ops == [] {
    } else {
      AtEnd(Step(s, ops[0]), ops[1..]);
    }
  }

  lemma {:induction false} FlagSoFar(s: State, ops: seq<Op>, m: nat)
    requires Inv(s) && LegalRun(s, ops) && m <= |ops|
    ensures At(s, ops, m).maybeEmpty <==> InDoubt(s, ops, m)
    decreases m
  {
    hide Inv, Step, At, LegalRun, Takes, LeavesDoubt;
    if m == 0 {
      AtStart(s, ops);
    } else {
      FlagSoFar(s, ops, m - 1);
      AtNext(s, ops, m - 1);
      StepFlag(At(s, ops, m - 1), ops[m - 1]);
      DoubtNext(s, ops, m - 1);
    }
  }

  lemma AtStart(s: State, ops: seq<Op>)
    requires LegalRun(s, ops)
    ensures At(s, ops, 0) == s
  {
  }

  lemma DoubtNext(s: State, ops: seq<Op>, m: nat)
    requires LegalRun(s, ops) && m < |ops|
    requires !(LeavesDoubtAt(s, ops, m) && TakesAt(s, ops, m))
    ensures InDoubt(s, ops, m + 1) <==> LeavesDoubtAt(s, ops, m) || (InDoubt(s, ops, m) && !TakesAt(s, ops, m))
  {
    hide LeavesDoubtAt, TakesAt, LegalRun;
    if InDoubt(s, ops, m) && !TakesAt(s, ops, m) {
      if k :| 0 <= k < m && LeavesDoubtAt(s, ops, k) && forall j | k < j < m :: !TakesAt(s, ops, j) {
        assert forall j | k < j < m + 1 :: !TakesAt(s, ops, j);
      }
    }
  }

  /** Over every run from a new obstack, the flag is set exactly when, since the current chunk was taken, an empty
      object was finished in it or a free released a chunk and came back to it. */
  lemma FlagHistory(cfg: Config, b: Block, ops: seq<Op>)
    requires cfg.platform.ptrSize > 0 && b.addr > 0 && |b.contents| >= cfg.mask
    requires LegalRun(Begin(cfg, b), ops)
    ensures var s := Begin(cfg, b);
            Run(s, ops).maybeEmpty <==>
            exists k | 0 <= k < |ops| ::
              LeavesDoubtAt(s, ops, k) && forall j | k < j < |ops| :: !TakesAt(s, ops, j)
  {
    hide Inv, Step, At, LegalRun, LeavesDoubtAt, TakesAt;
    BeginKeeps(cfg, b);
    FlagSoFar(Begin(cfg, b), ops, |ops|);
    AtEnd(Begin(cfg, b), ops);
  }

  lemma NewChunkReplaces(s: State, length: nat, b: Block)
    requires Inv(s) && Suitable(s, length, b)
    ensures var n, t := |s.chunks|, NewChunk(s, length, b);
            t.chunks == (if s.base == s.Top().first && !s.maybeEmpty then s.chunks[..n - 1] else s.chunks)
                        + [s.cfg.ChunkOf(b)]
  {
    hide MemoryOk, ObjectsOk, GrowingOk, Store, Erase;
    var n := |s.chunks|;
    assert (s.chunks + [s.cfg.ChunkOf(b)])[..n - 1] == s.chunks[..n - 1];
  }

  lemma TakingReplaces(s: State, op: Op)
    requires Inv(s) && Legal(s, op) && Takes(s, op, Step(s, op))
    ensures !op.FinishOp? && !op.FreeOp?
    ensures var n, t := |s.chunks|, Step(s, op);
            t.chunks == (if s.base == s.Top().first && !s.maybeEmpty then s.chunks[..n - 1] else s.chunks)
                        + [s.cfg.ChunkOf(op.block)]
  {
    hide MemoryOk, ObjectsOk, GrowingOk, Suitable, NewChunk, Store, Abs;
    if op.FinishOp? {
      FinishCalls(s);
    } else {
      AsksOnce(s, op);
      NewChunkReplaces(s, Need(op), op.block);
      ChunksFromRoom(s, op);
    }
  }

  lemma ChunksFromRoom(s: State, op: Op)
    requires s.chunks != [] && !op.FinishOp? && !op.FreeOp?
    ensures Step(s, op).chunks == MakeRoom(s, Need(op), op.block).chunks
  {
    hide MakeRoom, Store;
  }

  /** Over every run from a new obstack, an operation that takes a chunk replaces the current one exactly when
      the growing object is at its first position and the history leaves no doubt; otherwise it adds one. */
  lemma ReplacesExactly(cfg: Config, b: Block, ops: seq<Op>, m: nat)
    requires cfg.platform.ptrSize > 0 && b.addr > 0 && |b.contents| >= cfg.mask
    requires LegalRun(Begin(cfg, b), ops) && m < |ops| && TakesAt(Begin(cfg, b), ops, m)
    ensures var s := Begin(cfg, b);
            var u, t := At(s, ops, m), At(s, ops, m + 1);
            && u.chunks != []
            && |t.chunks| == |u.chunks| +
                 if u.base == u.Top().first &&
                    !exists k | 0 <= k < m ::
                       LeavesDoubtAt(s, ops, k) && forall j | k < j < m :: !TakesAt(s, ops, j)
                 then 0 else 1
  {
    hide Inv, Step, At, LegalRun, LeavesDoubtAt, LeavesDoubt, Takes;
    var s := Begin(cfg, b);
    BeginKeeps(cfg, b);
    AtNext(s, ops, m);
    FlagSoFar(s, ops, m);
    InvChunks(At(s, ops, m));
    TakingReplaces(At(s, ops, m), ops[m]);
  }
}
