/** What holds over whole runs of an object stack. */
module ObstackRuns {
  import opened Heap
  import opened ObstackSpec
  import opened ObstackSteps

  /** Refinement: a run on an object stack is a run on a plain stack of byte strings. */
  lemma {:induction false} RunRefines(s: State, ops: seq<Op>)
    requires Inv(s) && LegalRun(s, ops)
    ensures Inv(Run(s, ops)) && AbsRun(Abs(s), ops, Abs(Run(s, ops)))
    decreases |ops|
  {
    if ops == [] {
    } else {
      StepKeeps(s, ops[0]);
      RunRefines(Step(s, ops[0]), ops[1..]);
    }
  }

  lemma RunFromStartRefines(cfg: Config, b: Block, ops: seq<Op>)
    requires cfg.platform.ptrSize > 0
    requires b.addr > 0 && |b.contents| >= cfg.mask
    requires LegalRun(Begin(cfg, b), ops)
    ensures Inv(Run(Begin(cfg, b), ops))
    ensures AbsRun(Stack([], []), ops, Abs(Run(Begin(cfg, b), ops)))
  {
    BeginKeeps(cfg, b);
    RunRefines(Begin(cfg, b), ops);
  }

  // ----- finished objects stay where they are

  /** No free in ops goes below the n oldest objects. */
  predicate Spares(ops: seq<Op>, n: nat) {
    forall k | 0 <= k < |ops| && ops[k].FreeOp? :: n <= ops[k].index
  }

  /** The n oldest objects of s are live in t: same addresses, same bytes, same chunks under them. */
  ghost predicate Kept(s: State, t: State, n: nat) {
    && n <= |s.objects| && n <= |t.objects|
    && t.objects[..n] == s.objects[..n]
    && Abs(t).finished[..n] == Abs(s).finished[..n]
    && forall i | 0 <= i < n :: var d := s.objects[i].depth;
         d < |s.chunks| && d < |t.chunks| && t.chunks[..d + 1] == s.chunks[..d + 1]
  }

  lemma KeptTransitive(s: State, t: State, u: State, n: nat)
    requires Kept(s, t, n) && Kept(t, u, n)
    ensures Kept(s, u, n)
  {
  }

  lemma NewChunkSpares(s: State, length: nat, b: Block, n: nat)
    requires Inv(s) && Suitable(s, length, b) && n <= |s.objects|
    ensures Kept(s, NewChunk(s, length, b), n)
  {
    var t := NewChunk(s, length, b);
    NewChunkKeeps(s, length, b);
    forall i | 0 <= i < n
      ensures var d := s.objects[i].depth;
              d < |s.chunks| && d < |t.chunks| && t.chunks[..d + 1] == s.chunks[..d + 1]
    {
      ObjectInChunk(s, s.objects[i]);
      if Alone(s) {
        AloneMeansNoObject(s, s.objects[i]);
      }
    }
  }

  lemma KeptSelf(s: State, n: nat)
    requires Inv(s) && n <= |s.objects|
    ensures Kept(s, s, n)
  {
  }

  lemma MakeRoomSpares(s: State, length: nat, b: Block, n: nat)
    requires Inv(s) && (!HasRoom(s, length) ==> Suitable(s, length, b)) && n <= |s.objects|
    ensures Kept(s, MakeRoom(s, length, b), n)
  {
    if HasRoom(s, length) {
      KeptSelf(s, n);
    } else {
      NewChunkSpares(s, length, b, n);
    }
  }

  lemma FreeSpares(s: State, j: nat, n: nat)
    requires Inv(s) && n <= j <= |s.objects|
    ensures Kept(s, Free(s, j), n)
  {
    TargetOk(s, j);
    FreeUnwound(s, j);
    FreeKeeps(s, j);
    forall i | 0 <= i < n
      ensures var d := s.objects[i].depth;
              d <= Target(s, j).depth && Free(s, j).chunks[..d + 1] == s.chunks[..d + 1]
    {
    }
    assert Abs(s).finished[..j][..n] == Abs(s).finished[..n];
  }

  /** Changing only the growing object keeps what is finished. */
  lemma KeptAlong(s: State, m: State, t: State, n: nat)
    requires Kept(s, m, n)
    requires t.chunks == m.chunks && t.objects == m.objects && Abs(t).finished == Abs(m).finished
    ensures Kept(s, t, n)
  {
  }

  lemma GrowSpares(s: State, b: Block, bytes: seq<Byte>, n: nat)
    requires Inv(s) && (!HasRoom(s, |bytes|) ==> Suitable(s, |bytes|, b)) && n <= |s.objects|
    ensures Kept(s, Append(MakeRoom(s, |bytes|, b), bytes), n)
  {
    var m := MakeRoom(s, |bytes|, b);
    MakeRoomSpares(s, |bytes|, b, n);
    MakeRoomKeeps(s, |bytes|, b);
    AppendKeeps(m, bytes);
    KeptAlong(s, m, Append(m, bytes), n);
  }

  lemma BlankSpares(s: State, b: Block, length: nat, n: nat)
    requires Inv(s) && (!HasRoom(s, length) ==> Suitable(s, length, b)) && n <= |s.objects|
    ensures Kept(s, Advance(MakeRoom(s, length, b), length), n)
  {
    var m := MakeRoom(s, length, b);
    MakeRoomSpares(s, length, b, n);
    MakeRoomKeeps(s, length, b);
    var junk := AdvanceKeeps(m, length);
    KeptAlong(s, m, Advance(m, length), n);
  }

  lemma FinishSpares(s: State, n: nat)
    requires Inv(s) && n <= |s.objects|
    ensures Kept(s, Finish(s), n)
  {
  }

  lemma CopySpares(s: State, b: Block, bytes: seq<Byte>, n: nat)
    requires Inv(s) && (!HasRoom(s, |bytes|) ==> Suitable(s, |bytes|, b)) && n <= |s.objects|
    ensures Kept(s, Finish(Append(MakeRoom(s, |bytes|, b), bytes)), n)
  {
    var t := Append(MakeRoom(s, |bytes|, b), bytes);
    GrowSpares(s, b, bytes, n);
    GrowKeeps(s, b, bytes);
    FinishSpares(t, n);
    KeptTransitive(s, t, Finish(t), n);
  }

  lemma AllocSpares(s: State, b: Block, length: nat, n: nat)
    requires Inv(s) && (!HasRoom(s, length) ==> Suitable(s, length, b)) && n <= |s.objects|
    ensures Kept(s, Finish(Advance(MakeRoom(s, length, b), length)), n)
  {
    var t := Advance(MakeRoom(s, length, b), length);
    BlankSpares(s, b, length, n);
    var junk := BlankKeeps(s, b, length);
    FinishSpares(t, n);
    KeptTransitive(s, t, Finish(t), n);
  }

  lemma StepGrowSpares(s: State, op: Op, n: nat)
    requires Inv(s) && Legal(s, op) && n <= |s.objects|
    requires op.Grow? || op.Grow0? || op.Grow1? || op.GrowWord?
    ensures Kept(s, Step(s, op), n)
  {
    hide Inv, Kept, MakeRoom, Append;
    match op
    case Grow(src, b) => GrowSpares(s, b, src, n);
    case Grow0(src, b) => GrowSpares(s, b, src + [0], n);
    case Grow1(x, b) => GrowSpares(s, b, [x], n);
    case GrowWord(rep, b) => GrowSpares(s, b, rep, n);
  }

  lemma StepSpares(s: State, op: Op, n: nat)
    requires Inv(s) && Legal(s, op) && n <= |s.objects|
    requires op.FreeOp? ==> n <= op.index
    ensures Kept(s, Step(s, op), n)
  {
    hide Inv, Kept, MakeRoom, Append, Advance, Finish, Free;
    match op
    case MakeRoomOp(length, b) => MakeRoomSpares(s, length, b, n);
    case Blank(length, b) => BlankSpares(s, b, length, n);
    case FinishOp => FinishSpares(s, n);
    case Alloc(length, b) => AllocSpares(s, b, length, n);
    case Copy(src, b) => CopySpares(s, b, src, n);
    case Copy0(src, b) => CopySpares(s, b, src + [0], n);
    case FreeOp(j) => FreeSpares(s, j, n);
    case _ => StepGrowSpares(s, op, n);
  }

  /** Once finished, an object keeps its address and its bytes until it or an older object is freed. */
  lemma {:induction false} FinishedNeverMove(s: State, ops: seq<Op>, n: nat)
    requires Inv(s) && LegalRun(s, ops) && n <= |s.objects| && Spares(ops, n)
    ensures Kept(s, Run(s, ops), n)
    decreases |ops|
  {
    if ops == [] {
      KeptSelf(s, n);
    } else {
      var t := Step(s, ops[0]);
      StepKeeps(s, ops[0]);
      StepSpares(s, ops[0], n);
      assert Spares(ops[1..], n);
      FinishedNeverMove(t, ops[1..], n);
      KeptTransitive(s, t, Run(s, ops), n);
    }
  }

  // ----- layout

  predicate Disjoint(lo: int, hi: int, lo': int, hi': int) {
    hi <= lo' || hi' <= lo
  }

  /** In every state satisfying the invariant, the live objects and the growing object share no byte. */
  lemma LiveObjectsDisjoint(s: State, i: nat, j: nat)
    requires Inv(s) && i < j <= |s.objects|
    ensures var x := s.objects[i];
            if j < |s.objects| then Disjoint(x.addr, x.End(), s.objects[j].addr, s.objects[j].End())
            else Disjoint(x.addr, x.End(), s.base, s.next)
  {
  }

  // ----- unwinding to a checkpoint

  /** Freeing the first object finished after a checkpoint brings the plain stack back to it,
      whatever was done in between and however many chunks were added. */
  lemma FreeRestoresCheckpoint(s: State, ops: seq<Op>)
    requires Inv(s) && s.base == s.next
    requires LegalRun(s, ops) && Spares(ops, |s.objects|)
    ensures Run(s, ops).chunks != [] && |s.objects| <= |Run(s, ops).objects|
    ensures Abs(Free(Run(s, ops), |s.objects|)) == Abs(s)
  {
    var n, t := |s.objects|, Run(s, ops);
    RunRefines(s, ops);
    FinishedNeverMove(s, ops, n);
    FreeKeeps(t, n);
    assert Abs(s).finished[..n] == Abs(s).finished;
  }

  predicate Finishes(op: Op) {
    op.Alloc? || op.Copy? || op.Copy0?
  }

  predicate SamePosition(s: State, t: State) {
    t.chunks == s.chunks && t.base == s.base && t.next == s.next && t.limit == s.limit
  }

  /** Where a free leaves the obstack: at the object's address, its chunk on top. */
  lemma FreePosition(s: State, i: nat)
    requires Inv(s) && i < |s.objects|
    ensures var r, x := Free(s, i), s.objects[i];
            && x.depth < |s.chunks|
            && r.base == x.addr && r.next == x.addr
            && r.chunks == s.chunks[..x.depth + 1]
            && r.limit == s.chunks[x.depth].limit
  {
    FreeUnwound(s, i);
    assert GrowingOk(Unwind(s.(objects := s.objects[..i]), s.objects[i].depth));
  }

  lemma KeptObject(s: State, t: State, n: nat)
    requires Kept(s, t, n + 1)
    ensures t.objects[n] == s.objects[n]
    ensures var d := s.objects[n].depth;
            d < |s.chunks| && d < |t.chunks| && t.chunks[..d + 1] == s.chunks[..d + 1]
  {
  }

  lemma FreeReturnsTo(t: State, u: State, n: nat)
    requires Inv(t) && Inv(u) && Kept(t, u, n + 1)
    requires t.objects[n].depth == |t.chunks| - 1
    ensures var r := Free(u, n);
            && r.base == t.objects[n].addr && r.next == t.objects[n].addr
            && r.chunks == t.chunks && r.limit == t.limit
  {
    KeptObject(t, u, n);
    FreePosition(u, n);
    var d := |t.chunks| - 1;
    assert t.chunks[..d + 1] == t.chunks;
    assert u.chunks[d] == u.chunks[..d + 1][d];
  }

  /** Operations that only make room for or add to the growing object. */
  predicate Builds(op: Op) {
    op.MakeRoomOp? || op.Grow? || op.Grow0? || op.Grow1? || op.GrowWord? || op.Blank?
  }

  /** The first m operations all find the room they need in the current chunk. */
  ghost predicate RoomThroughout(s: State, ops: seq<Op>, m: nat)
    requires LegalRun(s, ops) && m <= |ops|
    decreases m
  {
    m == 0 || (HasRoom(s, Need(ops[0])) && RoomThroughout(Step(s, ops[0]), ops[1..], m - 1))
  }

  /** What the current chunk can hold from the object base on. */
  function Capacity(s: State): int {
    s.limit - s.base
  }

  /** A new chunk can hold more of the growing object than the old one could. */
  lemma NewChunkHoldsMore(s: State, length: nat, b: Block)
    requires Inv(s) && Suitable(s, length, b) && !HasRoom(s, length)
    ensures Capacity(NewChunk(s, length, b)) > Capacity(s)
  {
    hide MemoryOk, ObjectsOk, ChunksOk, Store, Erase;
  }

  /** Either the chunk, base and limit are those of s, or the capacity has grown. */
  ghost predicate SamePlaceOrLarger(s: State, t: State, room: bool) {
    t.objects == s.objects
    && if room then t.chunks == s.chunks && t.base == s.base && t.limit == s.limit else Capacity(t) > Capacity(s)
  }

  lemma MakeRoomPlace(s: State, length: nat, b: Block)
    requires Inv(s) && (!HasRoom(s, length) ==> Suitable(s, length, b))
    ensures SamePlaceOrLarger(s, MakeRoom(s, length, b), HasRoom(s, length))
  {
    hide Inv, Suitable, NewChunk;
    if !HasRoom(s, length) {
      NewChunkHoldsMore(s, length, b);
      NewChunkKeeps(s, length, b);
    }
  }

  lemma BuildsPlace(s: State, op: Op)
    requires Inv(s) && Legal(s, op) && Builds(op)
    ensures SamePlaceOrLarger(s, Step(s, op), HasRoom(s, Need(op)))
  {
    hide Inv, Suitable, MakeRoom, Store;
    MakeRoomPlace(s, Need(op), op.block);
  }

  predicate Returns(op: Op) {
    op.FinishOp? || Finishes(op)
  }

  /** An operation that finishes an object places it at the base it found after making room. */
  lemma ReturnsAtBase(s: State, op: Op)
    requires s.chunks != [] && Returns(op)
    ensures var m, t := if op.FinishOp? then s else MakeRoom(s, Need(op), op.block), Step(s, op);
            && t.chunks == m.chunks && t.limit == m.limit
            && |t.objects| == |m.objects| + 1
            && t.objects[|m.objects|].addr == m.base && t.objects[|m.objects|].depth == |m.chunks| - 1
  {
    hide MakeRoom, Store;
  }

  /** t: just after an object was finished, as number n, in the chunk on top; room says whether it lies where
      the growing object of s did. */
  ghost predicate FinishedAs(s: State, t: State, n: nat, room: bool) {
    && |t.objects| == n + 1
    && t.objects[n].depth == |t.chunks| - 1
    && if room then t.chunks == s.chunks && t.objects[n].addr == s.base && t.limit == s.limit
       else t.limit - t.objects[n].addr > Capacity(s)
  }

  lemma ReturnsPlace(s: State, op: Op)
    requires Inv(s) && Legal(s, op) && Returns(op)
    ensures FinishedAs(s, Step(s, op), |s.objects|, HasRoom(s, Need(op)))
  {
    hide MemoryOk, ObjectsOk, Suitable, MakeRoom, Step, Abs;
    ReturnsAtBase(s, op);
    if !op.FinishOp? {
      MakeRoomPlace(s, Need(op), op.block);
    }
  }

  lemma BuildThenFinished(s: State, w: State, t: State, n: nat, here: bool, later: bool)
    requires SamePlaceOrLarger(s, w, here) && FinishedAs(w, t, n, later)
    ensures FinishedAs(s, t, n, here && later)
  {
  }

  /** The first object after s is finished by operation k, after only building; t is the state just after that. */
  lemma {:induction false} FirstFinished(s: State, ops: seq<Op>, k: nat) returns (t: State)
    requires Inv(s) && LegalRun(s, ops) && k < |ops|
    requires Returns(ops[k]) && forall i | 0 <= i < k :: Builds(ops[i])
    requires Spares(ops[k + 1..], |s.objects| + 1)
    ensures Inv(t) && Inv(Run(s, ops))
    ensures FinishedAs(s, t, |s.objects|, RoomThroughout(s, ops, k + 1))
    ensures Kept(t, Run(s, ops), |s.objects| + 1)
    decreases k
  {
    hide Inv, Kept, FinishedAs, Step, Suitable, SamePlaceOrLarger, HasRoom;
    var op, w := ops[0], Step(s, ops[0]);
    StepKeeps(s, op);
    if k == 0 {
      t := w;
      ReturnsPlace(s, op);
      FinishedCount(s, w, |s.objects|, HasRoom(s, Need(op)));
      RunRefines(w, ops[1..]);
      FinishedNeverMove(w, ops[1..], |s.objects| + 1);
      assert RoomThroughout(w, ops[1..], 0);
    } else {
      BuildsPlace(s, op);
      BuildCount(s, w, HasRoom(s, Need(op)));
      assert ops[1..][k..] == ops[k + 1..];
      t := FirstFinished(w, ops[1..], k - 1);
      BuildThenFinished(s, w, t, |s.objects|, HasRoom(s, Need(op)), RoomThroughout(w, ops[1..], k));
    }
  }

  lemma FinishedCount(s: State, t: State, n: nat, room: bool)
    requires FinishedAs(s, t, n, room)
    ensures |t.objects| == n + 1
  {
  }

  lemma BuildCount(s: State, t: State, room: bool)
    requires SamePlaceOrLarger(s, t, room)
    ensures |t.objects| == |s.objects|
  {
  }

  /** s: at the checkpoint; t: after the first object was finished; u: at the end of the run. */
  lemma ReturnIsExact(s: State, t: State, u: State, n: nat, room: bool)
    requires Inv(s) && s.base == s.next && Inv(t) && Inv(u) && Kept(t, u, n + 1)
    requires FinishedAs(s, t, n, room)
    ensures SamePosition(s, Free(u, n)) <==> room
  {
    hide MemoryOk, ObjectsOk, ChunksOk, Free, Kept, Abs;
    FreeReturnsTo(t, u, n);
  }

  /** The position itself comes back exactly when everything up to the finish of the first object found its
      room in the current chunk, however that object was built. */
  lemma CheckpointExact(s: State, ops: seq<Op>, k: nat)
    requires Inv(s) && s.base == s.next
    requires LegalRun(s, ops) && k < |ops|
    requires Returns(ops[k]) && forall i | 0 <= i < k :: Builds(ops[i])
    requires Spares(ops[k + 1..], |s.objects| + 1)
    ensures Run(s, ops).chunks != [] && |s.objects| < |Run(s, ops).objects|
    ensures SamePosition(s, Free(Run(s, ops), |s.objects|)) <==> RoomThroughout(s, ops, k + 1)
  {
    hide Free, SamePosition, FinishedAs, Step, Suitable, RoomThroughout;
    var t := FirstFinished(s, ops, k);
    ReturnIsExact(s, t, Run(s, ops), |s.objects|, RoomThroughout(s, ops, k + 1));
  }

  // ----- sizes, and what the empty-object flag is for

  /** Growing adds exactly the bytes asked for, and the terminator where there is one. */
  lemma GrowsByNeed(s: State, op: Op)
    requires Inv(s) && Legal(s, op)
    requires op.Grow? || op.Grow0? || op.Grow1? || op.GrowWord? || op.Blank?
    ensures Step(s, op).next - Step(s, op).base == s.next - s.base + Need(op)
    ensures Step(s, op).next <= Step(s, op).limit
  {
    hide MakeRoom, Store, Abs;
    MakeRoomKeeps(s, Need(op), op.block);
    MakeRoomSize(s, Need(op), op.block);
  }

  lemma MakeRoomSize(s: State, length: nat, b: Block)
    requires s.chunks != []
    ensures var m := MakeRoom(s, length, b); m.next - m.base == s.next - s.base
  {
  }

  predicate Inside(c: Chunk, p: int) {
    c.addr < p <= c.limit
  }

  /** Were the flag cleared while an empty object is live at the start of the current chunk, the next
      new chunk would release that chunk under it: no chunk left in use would contain its address. */
  lemma ClearedFlagWouldDangle(s: State, x: Object, length: nat, b: Block)
    requires Inv(s) && Suitable(s, length, b)
    requires x in s.objects && x.depth == |s.chunks| - 1 && x.size == 0 && s.base == s.Top().first
    ensures s.maybeEmpty && Inside(s.Top(), x.addr)
    ensures forall c | c in NewChunk(s.(maybeEmpty := false), length, b).chunks :: !Inside(c, x.addr)
  {
  }
}
