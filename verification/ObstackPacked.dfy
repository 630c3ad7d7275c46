/** No space is lost: every object lies at the first aligned position after the one before it. */
module ObstackPacked {
  import opened Bits
  import opened Align
  import Heap
  import opened ObstackSpec
  import opened ObstackSteps
  import opened ObstackRuns

  /** Where an object belongs that comes after the objects before it, in chunk number depth. */
  function Slot(cfg: Config, chunks: seq<Chunk>, before: seq<Object>, depth: nat): int
    requires depth < |chunks|
  {
    if before != [] && before[|before| - 1].depth == depth
    then Follow(cfg, chunks[depth], before[|before| - 1].End())
    else chunks[depth].first
  }

  ghost predicate Placed(s: State, i: nat)
    requires i < |s.objects|
  {
    && s.objects[i].depth < |s.chunks|
    && s.objects[i].addr == Slot(s.cfg, s.chunks, s.objects[..i], s.objects[i].depth)
  }

  /** Each chunk's first position is its contents' start, rounded up. */
  ghost predicate FirstsOk(s: State) {
    forall c | c in s.chunks :: c.first == s.cfg.Round(c.addr, s.cfg.Contents(c))
  }

  ghost predicate Packed(s: State) {
    && s.chunks != [] && FirstsOk(s)
    && s.base == Slot(s.cfg, s.chunks, s.objects, |s.chunks| - 1)
    && forall i | 0 <= i < |s.objects| :: Placed(s, i)
  }

  /** Placement of object i depends only on the objects up to i and on its own chunk. */
  lemma PlacedKept(s: State, t: State, i: nat)
    requires i < |s.objects| && i < |t.objects| && Placed(s, i)
    requires t.cfg == s.cfg && t.objects[..i + 1] == s.objects[..i + 1]
    requires var d := s.objects[i].depth; d < |t.chunks| && t.chunks[d] == s.chunks[d]
    ensures Placed(t, i)
  {
  }

  lemma FirstsKept(s: State, t: State)
    requires FirstsOk(s) && t.cfg == s.cfg
    requires forall c | c in t.chunks :: c in s.chunks || exists b :: c == s.cfg.ChunkOf(b)
    ensures FirstsOk(t)
  {
  }

  lemma KeptChunk(s: State, t: State, n: nat, i: nat)
    requires Kept(s, t, n) && i < n
    ensures var d := s.objects[i].depth; d < |s.chunks| && d < |t.chunks| && t.chunks[d] == s.chunks[d]
    ensures t.objects[..i + 1] == s.objects[..i + 1]
  {
  }

  lemma OlderPlaced(s: State, t: State, n: nat)
    requires Packed(s) && Kept(s, t, n) && t.cfg == s.cfg
    ensures forall i | 0 <= i < n :: Placed(t, i)
  {
    forall i | 0 <= i < n
      ensures Placed(t, i)
    {
      KeptChunk(s, t, n, i);
      PlacedKept(s, t, i);
    }
  }

  lemma NewChunkChunks(s: State, length: nat, b: Block)
    requires s.chunks != []
    ensures var t := NewChunk(s, length, b);
            && t.cfg == s.cfg && t.objects == s.objects && t.base == t.Top().first
            && t.Top() == s.cfg.ChunkOf(b)
            && |t.chunks| == (if Alone(s) then |s.chunks| else |s.chunks| + 1)
            && forall c | c in t.chunks :: c in s.chunks || c == s.cfg.ChunkOf(b)
  {
  }

  lemma NewChunkPacked(s: State, length: nat, b: Block)
    requires Inv(s) && Packed(s) && Suitable(s, length, b)
    ensures Packed(NewChunk(s, length, b))
  {
    hide NewChunk, Abs, MemoryOk, GrowingOk, ChunksOk, Suitable;
    var t := NewChunk(s, length, b);
    NewChunkChunks(s, length, b);
    NewChunkSpares(s, length, b, |s.objects|);
    OlderPlaced(s, t, |s.objects|);
    FirstsKept(s, t);
    if s.objects != [] {
      var x := s.objects[|s.objects| - 1];
      ObjectInChunk(s, x);
      if Alone(s) {
        AloneMeansNoObject(s, x);
      }
    }
  }

  lemma MakeRoomPacked(s: State, length: nat, b: Block)
    requires Inv(s) && Packed(s) && (!HasRoom(s, length) ==> Suitable(s, length, b))
    ensures Packed(MakeRoom(s, length, b))
  {
    if !HasRoom(s, length) {
      NewChunkPacked(s, length, b);
    }
  }

  lemma FinishPacked(s: State)
    requires Inv(s) && Packed(s)
    ensures Packed(Finish(s))
  {
    var t, n := Finish(s), |s.objects|;
    FinishSpares(s, n);
    OlderPlaced(s, t, n);
    assert t.objects[..n] == s.objects;
    assert s.Top() == t.Top();
    FirstsKept(s, t);
  }

  lemma FreeBase(s: State, i: nat)
    requires Inv(s) && Packed(s) && i <= |s.objects|
    ensures var t, d := Free(s, i), Target(s, i).depth;
            && |t.chunks| == d + 1 && d < |s.chunks| && t.chunks[d] == s.chunks[d] && t.cfg == s.cfg
            && t.objects == s.objects[..i]
            && t.base == Slot(s.cfg, s.chunks, s.objects[..i], d)
  {
    FreeUnwound(s, i);
    if i < |s.objects| {
      assert Placed(s, i);
    } else {
      assert s.objects[..i] == s.objects;
    }
  }

  lemma FreePacked(s: State, i: nat)
    requires Inv(s) && Packed(s) && i <= |s.objects|
    ensures Packed(Free(s, i))
  {
    hide Inv, Rem;
    FreeSpares(s, i, i);
    FreeBase(s, i);
    OlderPlaced(s, Free(s, i), i);
    FreeUnwound(s, i);
    FirstsKept(s, Free(s, i));
  }

  lemma MovingNextPacked(m: State, t: State)
    requires Packed(m)
    requires t.cfg == m.cfg && t.chunks == m.chunks && t.base == m.base && t.objects == m.objects
    ensures Packed(t)
  {
    forall i | 0 <= i < |t.objects|
      ensures Placed(t, i)
    {
      assert Placed(m, i);
    }
  }

  lemma BlankPacked(s: State, b: Block, n: nat)
    requires Inv(s) && Packed(s) && (!HasRoom(s, n) ==> Suitable(s, n, b))
    ensures Packed(Advance(MakeRoom(s, n, b), n))
  {
    MakeRoomPacked(s, n, b);
    MovingNextPacked(MakeRoom(s, n, b), Advance(MakeRoom(s, n, b), n));
  }

  lemma GrowPacked(s: State, b: Block, bytes: seq<Heap.Byte>)
    requires Inv(s) && Packed(s) && (!HasRoom(s, |bytes|) ==> Suitable(s, |bytes|, b))
    ensures Packed(Append(MakeRoom(s, |bytes|, b), bytes))
  {
    MakeRoomPacked(s, |bytes|, b);
    MovingNextPacked(MakeRoom(s, |bytes|, b), Append(MakeRoom(s, |bytes|, b), bytes));
  }

  lemma AllocPacked(s: State, b: Block, n: nat)
    requires Inv(s) && Packed(s) && (!HasRoom(s, n) ==> Suitable(s, n, b))
    ensures Packed(Finish(Advance(MakeRoom(s, n, b), n)))
  {
    BlankPacked(s, b, n);
    var junk := BlankKeeps(s, b, n);
    FinishPacked(Advance(MakeRoom(s, n, b), n));
  }

  lemma CopyPacked(s: State, b: Block, bytes: seq<Heap.Byte>)
    requires Inv(s) && Packed(s) && (!HasRoom(s, |bytes|) ==> Suitable(s, |bytes|, b))
    ensures Packed(Finish(Append(MakeRoom(s, |bytes|, b), bytes)))
  {
    GrowPacked(s, b, bytes);
    GrowKeeps(s, b, bytes);
    FinishPacked(Append(MakeRoom(s, |bytes|, b), bytes));
  }

  lemma StepGrowPacked(s: State, op: Op)
    requires Inv(s) && Packed(s) && Legal(s, op)
    requires op.Grow? || op.Grow0? || op.Grow1? || op.GrowWord?
    ensures Packed(Step(s, op))
  {
    hide Inv, Packed, MakeRoom, Append;
    match op
    case Grow(src, b) => GrowPacked(s, b, src);
    case Grow0(src, b) => GrowPacked(s, b, src + [0]);
    case Grow1(x, b) => GrowPacked(s, b, [x]);
    case GrowWord(rep, b) => GrowPacked(s, b, rep);
  }

  /** Every operation keeps the objects packed. */
  lemma StepPacked(s: State, op: Op)
    requires Inv(s) && Packed(s) && Legal(s, op)
    ensures Packed(Step(s, op))
  {
    hide Inv, Packed, MakeRoom, Append, Advance, Finish, Free;
    match op
    case MakeRoomOp(n, b) => MakeRoomPacked(s, n, b);
    case Blank(n, b) => BlankPacked(s, b, n);
    case FinishOp => FinishPacked(s);
    case Alloc(n, b) => AllocPacked(s, b, n);
    case Copy(src, b) => CopyPacked(s, b, src);
    case Copy0(src, b) => CopyPacked(s, b, src + [0]);
    case FreeOp(i) => FreePacked(s, i);
    case _ => StepGrowPacked(s, op);
  }

  lemma {:induction false} RunPacked(s: State, ops: seq<Op>)
    requires Inv(s) && Packed(s) && LegalRun(s, ops)
    ensures Packed(Run(s, ops))
    decreases |ops|
  {
    if ops == [] {
    } else {
      StepKeeps(s, ops[0]);
      StepPacked(s, ops[0]);
      RunPacked(Step(s, ops[0]), ops[1..]);
    }
  }

  lemma BeginPacked(cfg: Config, b: Block)
    ensures Packed(Begin(cfg, b))
  {
  }

  // ----- alignment

  lemma RoundIsAligned(cfg: Config, addr: int, p: int)
    ensures cfg.Aligned(addr, cfg.Round(addr, p))
  {
    AlignUpIsLeast(cfg.platform.Origin(addr), p, cfg.mask + 1);
  }

  lemma RoundTwice(cfg: Config, addr: int, p: int)
    ensures cfg.Round(addr, cfg.Round(addr, p)) == cfg.Round(addr, p)
  {
    RoundIsAligned(cfg, addr, p);
    AlignUpIsLeast(cfg.platform.Origin(addr), cfg.Round(addr, p), cfg.mask + 1);
  }

  lemma SlotAligned(s: State, before: seq<Object>, depth: nat)
    requires Packed(s) && depth < |s.chunks|
    ensures var p := Slot(s.cfg, s.chunks, before, depth);
            s.cfg.Aligned(s.chunks[depth].addr, p) || p == s.chunks[depth].limit
  {
    var c := s.chunks[depth];
    assert c in s.chunks;
    RoundIsAligned(s.cfg, c.addr, s.cfg.Contents(c));
    if before != [] {
      RoundIsAligned(s.cfg, c.addr, before[|before| - 1].End());
    }
  }

  /** Alignment despite the clamp: every non-empty live object starts at an aligned place of its chunk. */
  lemma NonEmptyAligned(s: State, i: nat)
    requires Inv(s) && Packed(s) && i < |s.objects| && s.objects[i].size > 0
    ensures s.objects[i].depth < |s.chunks|
    ensures s.cfg.Aligned(s.chunks[s.objects[i].depth].addr, s.objects[i].addr)
  {
    hide MemoryOk, ChunksOk, GrowingOk;
    assert Placed(s, i);
    assert ObjectOk(s, s.objects[i]);
    SlotAligned(s, s.objects[..i], s.objects[i].depth);
  }

  /** Aligned means: a multiple of the alignment, counted from 0 unless the pointer-difference type is smaller
      than a pointer, and then from the chunk. */
  lemma AlignedMeansMultiple(cfg: Config, addr: int, p: int)
    ensures cfg.platform.ptrIntSize >= cfg.platform.ptrSize ==> (cfg.Aligned(addr, p) <==> p % (cfg.mask + 1) == 0)
    ensures cfg.platform.ptrIntSize < cfg.platform.ptrSize ==>
              (cfg.Aligned(addr, p) <==> (p - addr) % (cfg.mask + 1) == 0)
  {
    OriginBySizes(cfg.platform, addr);
    RemIsMod(p - cfg.platform.Origin(addr), cfg.mask + 1);
  }

  /** So after any run every non-empty live object's address, and that of a non-empty growing object, is such a
      multiple. */
  lemma AddressesAreMultiples(cfg: Config, b: Block, ops: seq<Op>, i: nat)
    requires cfg.platform.ptrSize > 0 && b.addr > 0 && |b.contents| >= cfg.mask
    requires LegalRun(Begin(cfg, b), ops)
    requires var s := Run(Begin(cfg, b), ops);
             if i < |s.objects| then s.objects[i].size > 0 else s.base < s.next
    ensures var s := Run(Begin(cfg, b), ops);
            var addr := if i < |s.objects| then s.objects[i].addr else s.base;
            var depth := if i < |s.objects| then s.objects[i].depth else |s.chunks| - 1;
            && 0 <= depth < |s.chunks|
            && (cfg.platform.ptrIntSize >= cfg.platform.ptrSize ==> addr % (cfg.mask + 1) == 0)
            && (cfg.platform.ptrIntSize < cfg.platform.ptrSize ==>
                  (addr - s.chunks[depth].addr) % (cfg.mask + 1) == 0)
  {
    hide Inv, Packed, Step;
    var s := Run(Begin(cfg, b), ops);
    BeginKeeps(cfg, b);
    BeginPacked(cfg, b);
    RunRefines(Begin(cfg, b), ops);
    RunPacked(Begin(cfg, b), ops);
    RunSameConfig(Begin(cfg, b), ops);
    if i < |s.objects| {
      NonEmptyAligned(s, i);
      AlignedMeansMultiple(cfg, s.chunks[s.objects[i].depth].addr, s.objects[i].addr);
    } else {
      PackedChunks(s);
      NonEmptyGrowingAligned(s);
      AlignedMeansMultiple(cfg, s.Top().addr, s.base);
    }
  }

  lemma PackedChunks(s: State)
    requires Packed(s)
    ensures s.chunks != []
  {
  }

  lemma {:induction false} RunSameConfig(s: State, ops: seq<Op>)
    requires Inv(s) && LegalRun(s, ops)
    ensures Run(s, ops).cfg == s.cfg
    decreases |ops|
  {
    hide Inv;
    if ops == [] {
    } else {
      StepKeeps(s, ops[0]);
      StepSameConfig(s, ops[0]);
      RunSameConfig(Step(s, ops[0]), ops[1..]);
    }
  }

  lemma StepSameConfig(s: State, op: Op)
    requires Inv(s) && Legal(s, op)
    ensures Step(s, op).cfg == s.cfg
  {
    hide Inv, Unwind, Heap.Store, Heap.Erase, Follow, Suitable;
    InvChunks(s);
    if op.FreeOp? {
      FreeUnwound(s, op.index);
    }
  }

  /** Where the first object of a chunk lies: at the least multiple after the two pointers of the header. */
  lemma FirstPlace(s: State, k: nat)
    requires Packed(s) && k < |s.chunks|
    ensures var c, p, m := s.chunks[k], s.cfg.platform, s.cfg.mask + 1;
            && c.addr + 2 * p.ptrSize <= c.first < c.addr + 2 * p.ptrSize + m
            && (p.ptrIntSize >= p.ptrSize ==> c.first % m == 0)
            && (p.ptrIntSize < p.ptrSize ==> (c.first - c.addr) % m == 0)
  {
    var c := s.chunks[k];
    assert c in s.chunks;
    RoundIsAligned(s.cfg, c.addr, s.cfg.Contents(c));
    AlignedMeansMultiple(s.cfg, c.addr, c.first);
  }

  /** Where an object lies, or the growing one, whose chunk already holds another: at the least multiple r from the
      end of that on, or at the end of the chunk when r is beyond it. */
  lemma NextPlace(s: State, i: nat) returns (r: int)
    requires Inv(s) && Packed(s) && 0 < i <= |s.objects|
    requires s.objects[i - 1].depth == if i < |s.objects| then s.objects[i].depth else |s.chunks| - 1
    ensures var x := s.objects[i - 1];
            var addr := if i < |s.objects| then s.objects[i].addr else s.base;
            && x.depth < |s.chunks|
            && var c, p, m := s.chunks[x.depth], s.cfg.platform, s.cfg.mask + 1;
            && x.addr + x.size <= r < x.addr + x.size + m
            && (p.ptrIntSize >= p.ptrSize ==> r % m == 0)
            && (p.ptrIntSize < p.ptrSize ==> (r - c.addr) % m == 0)
            && addr == if r <= c.limit then r else c.limit
  {
    hide Inv;
    var x := s.objects[i - 1];
    if i < |s.objects| {
      assert Placed(s, i);
      assert s.objects[..i][i - 1] == x;
    } else {
      assert s.objects[..i] == s.objects;
    }
    var c := s.chunks[x.depth];
    r := s.cfg.Round(c.addr, x.End());
    RoundIsAligned(s.cfg, c.addr, x.End());
    AlignedMeansMultiple(s.cfg, c.addr, r);
  }

  /** So does a non-empty growing object. */
  lemma NonEmptyGrowingAligned(s: State)
    requires Inv(s) && Packed(s) && s.base < s.next
    ensures s.cfg.Aligned(s.Top().addr, s.base)
  {
    SlotAligned(s, s.objects, |s.chunks| - 1);
  }

  // ----- the emptiness test

  /** obstack_empty_p: one chunk only, and the next free byte at its first position. */
  predicate EmptyP(s: State)
    requires s.chunks != []
  {
    |s.chunks| == 1 && s.next == s.Top().first
  }

  ghost predicate AllEmpty(a: Stack) {
    a.growing == [] && forall x | x in a.finished :: x == []
  }

  lemma {:induction false} EmptyObjectsStayFirst(s: State, n: nat)
    requires Inv(s) && Packed(s) && |s.chunks| == 1 && n <= |s.objects|
    requires forall i | 0 <= i < n :: s.objects[i].size == 0
    ensures Slot(s.cfg, s.chunks, s.objects[..n], 0) == s.Top().first
  {
    if n == 0 {
    } else {
      EmptyObjectsStayFirst(s, n - 1);
      assert s.objects[..n][n - 1] == s.objects[n - 1];
      assert ObjectOk(s, s.objects[n - 1]);
      assert Placed(s, n - 1);
      assert s.Top() in s.chunks;
      RoundTwice(s.cfg, s.Top().addr, s.cfg.Contents(s.Top()));
    }
  }

  lemma EmptyPFound(s: State)
    requires Inv(s) && EmptyP(s)
    ensures AllEmpty(Abs(s))
  {
  }

  lemma EmptyMeansSizeZero(s: State)
    requires Inv(s) && AllEmpty(Abs(s))
    ensures s.next == s.base
    ensures forall i | 0 <= i < |s.objects| :: s.objects[i].size == 0
  {
    assert |Growing(s)| == s.next - s.base;
    forall i | 0 <= i < |s.objects|
      ensures s.objects[i].size == 0
    {
      assert Abs(s).finished[i] == Content(s, s.objects[i]);
      assert Abs(s).finished[i] in Abs(s).finished;
    }
  }

  lemma EmptyPComplete(s: State)
    requires Inv(s) && Packed(s) && |s.chunks| == 1 && AllEmpty(Abs(s))
    ensures EmptyP(s)
  {
    EmptyMeansSizeZero(s);
    EmptyObjectsStayFirst(s, |s.objects|);
    assert s.objects[..|s.objects|] == s.objects;
  }

  /** The test succeeds exactly when a single chunk is in use and no byte is live in it. */
  lemma EmptyPMeaning(s: State)
    requires Inv(s) && Packed(s)
    ensures EmptyP(s) <==> |s.chunks| == 1 && AllEmpty(Abs(s))
  {
    if EmptyP(s) {
      EmptyPFound(s);
    }
    if |s.chunks| == 1 && AllEmpty(Abs(s)) {
      EmptyPComplete(s);
    }
  }
}
