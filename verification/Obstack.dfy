/** The obstack record, its memory, and the two library functions the macros call. */
module Obstacks {
  import opened Bits
  import opened Align
  import opened Heap
  import opened ObstackSpec
  import opened ObstackSteps
  import opened ObstackPacked

  class Obstack {
    const platform: Platform
    const chunkSize: int
    const alignmentMask: nat
    /** The chain of chunks from the oldest to the current one: prev of each is the one before it. */
    var chunks: seq<Chunk>
    var objectBase: int
    var nextFree: int
    var chunkLimit: int
    var temp: int
    var maybeEmptyObject: bool
    /** The bytes of the chunks in use, and the calls made to the library functions so far. */
    var mem: Memory
    var calls: seq<LibCall>
    /** The live finished objects, oldest first. */
    ghost var objects: seq<Object>

    ghost function View(): State
      reads this
    {
      State(Config(platform, alignmentMask, chunkSize), mem, chunks,
            objectBase, nextFree, chunkLimit, maybeEmptyObject, objects, calls)
    }

    ghost predicate Valid()
      reads this
    {
      platform.Sane() && IsPow2(alignmentMask + 1) && Inv(View()) && Packed(View())
    }

    constructor (platform: Platform, chunkSize: int, alignmentMask: nat, block: Block)
      requires IsPow2(alignmentMask + 1) && platform.Sane()
      requires block.addr > 0 && |block.contents| >= alignmentMask
      ensures Valid() && View() == Begin(Config(platform, alignmentMask, chunkSize), block)
    {
      this.platform, this.chunkSize, this.alignmentMask := platform, chunkSize, alignmentMask;
      var contents := block.addr + 2 * platform.ptrSize;
      var limit := contents + |block.contents|;
      var first := PtrAlign(platform, block.addr, contents, alignmentMask);
      chunks := [Chunk(block.addr, first, limit)];
      objectBase, nextFree, chunkLimit, temp := first, first, limit, 0;
      maybeEmptyObject := false;
      mem := Store(map[], contents, block.contents);
      calls, objects := [], [];
      new;
      var cfg := Config(platform, alignmentMask, chunkSize);
      PtrAlignIsRound(cfg, block.addr, contents);
      BeginKeeps(cfg, block);
      BeginPacked(cfg, block);
      assert View() == Begin(cfg, block);
    }

    /** The current chunk. */
    function Current(): Chunk
      requires chunks != []
      reads this
    {
      chunks[|chunks| - 1]
    }

    /** Bytes may be written only inside the contents of the current chunk. */
    method Put(p: int, bytes: seq<Byte>)
      requires chunks != [] && Current().addr + 2 * platform.ptrSize <= p && p + |bytes| <= chunkLimit
      requires Mapped(mem, p, p + |bytes|)
      modifies this`mem
      ensures mem == Store(old(mem), p, bytes)
      ensures forall a | a in old(mem) :: a in mem
    {
      StoreMeaning(mem, p, bytes);
      mem := Store(mem, p, bytes);
    }

    /** _obstack_newchunk, whose length is an int */
    method NewChunk(length: nat, block: Block)
      requires length < 0x8000_0000
      requires Valid() && Suitable(View(), length, block)
      modifies this
      ensures Valid() && View() == ObstackSpec.NewChunk(old(View()), length, block)
      ensures temp == old(temp)
    {
      hide Inv, ObstackSpec.NewChunk, Store, IsPow2;
      ReadyForNewChunk(View(), length, block);
      MoveToChunk(length, block);
    }

    method MoveToChunk(length: nat, block: Block)
      requires IsPow2(alignmentMask + 1) && chunks != [] && Current().addr > 0 && block.addr > 0
      requires FirstsOk(View())
      requires Read(Store(mem, block.addr + 2 * platform.ptrSize, block.contents), objectBase, nextFree)
            == Read(mem, objectBase, nextFree)
      modifies this
      ensures View() == ObstackSpec.NewChunk(old(View()), length, block)
      ensures temp == old(temp)
    {
      var k, oldChunk := |chunks| - 1, Current();
      var oldFirst := PtrAlign(platform, oldChunk.addr, oldChunk.addr + 2 * platform.ptrSize, alignmentMask);
      PtrAlignIsRound(View().cfg, oldChunk.addr, oldChunk.addr + 2 * platform.ptrSize);
      var alone := !maybeEmptyObject && objectBase == oldFirst;
      CopyToChunk(length, block);
      if alone {
        mem := Erase(mem, oldChunk.addr + 2 * platform.ptrSize, oldChunk.limit);
        chunks := chunks[..k] + [Current()];
      }
    }

    method CopyToChunk(length: nat, block: Block)
      requires IsPow2(alignmentMask + 1) && block.addr > 0
      requires Read(Store(mem, block.addr + 2 * platform.ptrSize, block.contents), objectBase, nextFree)
            == Read(mem, objectBase, nextFree)
      modifies this
      ensures View() == Extend(old(View()), length, block)
      ensures temp == old(temp)
    {
      hide IsPow2, PtrAlign, Store;
      var contents := block.addr + 2 * platform.ptrSize;
      var limit := contents + |block.contents|;
      var first := PtrAlign(platform, block.addr, contents, alignmentMask);
      PtrAlignIsRound(View().cfg, block.addr, contents);
      calls := calls + [NewChunkCall(length)];
      mem := Store(mem, contents, block.contents);
      mem := Store(mem, first, Read(mem, objectBase, nextFree));
      chunks := chunks + [Chunk(block.addr, first, limit)];
      nextFree := first + (nextFree - objectBase);
      objectBase := first;
      chunkLimit := limit;
      maybeEmptyObject := false;
    }

    /** The function behind obstack_free: release chunks until the current one holds obj. */
    method FreeSlowly(obj: int, ghost i: nat)
      requires Valid() && i <= |objects| && obj == Target(View(), i).addr
      requires !(Current().addr < obj < chunkLimit)
      modifies this
      ensures Valid() && View() == Free(old(View()), i)
      ensures temp == old(temp)
    {
      hide Inv, Packed, IsPow2, HeldOnlyBy, Free;
      ReadyToFree(View(), i);
      ghost var s := View();
      calls := calls + [FreeCall(obj)];
      var n, m := ReleaseUntilHeld(chunks, mem, 2 * platform.ptrSize, obj, s, i);
      // after switching chunks an empty object may lie in the chunk returned to
      maybeEmptyObject := maybeEmptyObject || n < |chunks|;
      mem, chunks := m, chunks[..n];
      chunkLimit := Current().limit;
      objectBase, nextFree := obj, obj;
      objects := objects[..i];
    }

    // obstack_object_size, obstack_room and obstack_empty_p read the same in both families of macros.

    /** Differences are cast to a 32-bit unsigned integer. */
    method ObjectSize() returns (n: nat)
      requires Valid()
      ensures n == |Growing(View())| % 0x1_0000_0000
    {
      n := (nextFree - objectBase) % 0x1_0000_0000;
    }

    method Room() returns (n: nat)
      requires Valid()
      ensures n == (chunkLimit - nextFree) % 0x1_0000_0000
      ensures (forall length: nat :: HasRoom(View(), length) <==> length <= n)
         <==> chunkLimit - nextFree < 0x1_0000_0000
    {
      hide MemoryOk, ObjectsOk, ChunksOk, Packed, IsPow2;
      assert HasRoom(View(), chunkLimit - nextFree);
      n := (chunkLimit - nextFree) % 0x1_0000_0000;
    }

    /** obstack_empty_p: true exactly when one chunk is in use and no byte in it is live. */
    method Empty() returns (b: bool)
      requires Valid()
      ensures b <==> |chunks| == 1 && AllEmpty(Abs(View()))
    {
      hide Inv, Packed, IsPow2, PtrAlign, AllEmpty;
      CurrentFirst(View());
      EmptyPMeaning(View());
      b := |chunks| == 1
        && nextFree == PtrAlign(platform, Current().addr, Current().addr + 2 * platform.ptrSize, alignmentMask);
    }
  }

  /** The macro's bit trick is the rounding of the specification. */
  lemma PtrAlignIsRound(cfg: Config, addr: int, p: int)
    requires IsPow2(cfg.mask + 1) && 0 <= addr <= p
    ensures PtrAlign(cfg.platform, addr, p, cfg.mask) == cfg.Round(addr, p)
  {
    BPtrAlignIsAlignUp(cfg.platform.Origin(addr), p, cfg.mask);
  }

  /** Allocating the new chunk does not touch the growing object. */
  lemma ReadFromOld(s: State, length: nat, b: Block)
    requires Inv(s) && Suitable(s, length, b)
    ensures Read(Store(s.mem, s.cfg.Contents(s.cfg.ChunkOf(b)), b.contents), s.base, s.next)
         == Read(s.mem, s.base, s.next)
  {
    GrowingInTop(s);
    assert Apart(s.cfg.ChunkOf(b), s.Top());
    StoreMeaning(s.mem, s.cfg.Contents(s.cfg.ChunkOf(b)), b.contents);
    ReadAgree(Store(s.mem, s.cfg.Contents(s.cfg.ChunkOf(b)), b.contents), s.mem, s.base, s.next);
  }

  /** Among these chunks, just chunk number depth has p after its header and up to its end. */
  ghost predicate HeldOnlyBy(chunks: seq<Chunk>, p: int, depth: nat) {
    && depth < |chunks|
    && forall k | 0 <= k < |chunks| :: chunks[k].addr < p <= chunks[k].limit <==> k == depth
  }

  /** An object's address belongs to its own chunk and no other, even at the end of a full chunk. */
  lemma OnlyHolder(s: State, i: nat)
    requires Inv(s) && i <= |s.objects|
    ensures HeldOnlyBy(s.chunks, Target(s, i).addr, Target(s, i).depth)
  {
  }

  lemma {:induction false} UnwindIgnoresObjects(s: State, xs: seq<Object>, depth: nat)
    requires s.chunks != []
    ensures Unwind(s.(objects := xs), depth) == Unwind(s, depth).(objects := xs)
    decreases |s.chunks|
  {
    if |s.chunks| <= depth + 1 {
    } else {
      assert Pop(s.(objects := xs)) == Pop(s).(objects := xs);
      UnwindIgnoresObjects(Pop(s), xs, depth);
    }
  }

  lemma SharedDepth(s: State, i: nat, j: nat)
    requires Inv(s) && i < j <= |s.objects| && Target(s, i).addr == Target(s, j).addr
    ensures Target(s, i).depth == Target(s, j).depth
    ensures forall k | i <= k < j :: s.objects[k].size == 0 && s.objects[k].addr == Target(s, j).addr
  {
    OnlyHolder(s, i);
    OnlyHolder(s, j);
    TargetOk(s, j);
    forall k | i <= k < j
      ensures s.objects[k].size == 0 && s.objects[k].addr == Target(s, j).addr
    {
      assert Before(s.objects[k], Target(s, j));
      assert k == i || Before(s.objects[i], s.objects[k]);
    }
  }

  /** Objects that share an address are empty, but for the last, and lie in one chunk; freeing by that address
      leaves the same obstack whichever of them is meant, up to those empty objects. */
  lemma SharedAddress(s: State, i: nat, j: nat)
    requires Inv(s) && i < j <= |s.objects| && Target(s, i).addr == Target(s, j).addr
    ensures Target(s, i).depth == Target(s, j).depth
    ensures forall k | i <= k < j :: s.objects[k].size == 0 && s.objects[k].addr == Target(s, j).addr
    ensures Free(s, i) == Free(s, j).(objects := s.objects[..i])
  {
    hide Inv, Unwind;
    InvChunks(s);
    SharedDepth(s, i, j);
    UnwindIgnoresObjects(s, s.objects[..i], Target(s, i).depth);
    UnwindIgnoresObjects(s, s.objects[..j], Target(s, i).depth);
  }

  /** Walk down the chain, releasing every chunk that does not hold obj; n chunks are left. */
  method ReleaseUntilHeld(chunks: seq<Chunk>, mem: Memory, header: nat, obj: int, ghost s: State, ghost i: nat)
    returns (n: nat, m: Memory)
    requires chunks == s.chunks != [] && mem == s.mem && header == s.cfg.Header()
    requires s.limit == s.Top().limit && i <= |s.objects|
    requires obj == Target(s, i).addr && HeldOnlyBy(s.chunks, obj, Target(s, i).depth)
    requires !(s.Top().addr < obj < s.limit)
    ensures 0 < n <= |chunks|
    ensures s.(chunks := chunks[..n], mem := m, base := obj, next := obj, limit := chunks[n - 1].limit,
               maybeEmpty := s.maybeEmpty || n < |chunks|, objects := s.objects[..i],
               calls := s.calls + [FreeCall(obj)])
         == Free(s, i)
  {
    hide Erase, Store, Abs, Unwind, AlignUp;
    n, m := |chunks|, mem;
    ghost var depth, cut := Target(s, i).depth, s.(objects := s.objects[..i]);
    ghost var u := cut;
    while n > 0 && !(chunks[n - 1].addr < obj <= chunks[n - 1].limit)
      invariant depth < n <= |chunks|
      invariant u.chunks != [] && Unwind(u, depth) == Unwind(cut, depth)
      invariant u == cut.(chunks := chunks[..n], mem := m, base := u.base, next := u.next,
                          limit := chunks[n - 1].limit, maybeEmpty := s.maybeEmpty || n < |chunks|)
    {
      UnwindPop(u, depth);
      u := Pop(u);
      m := Erase(m, chunks[n - 1].addr + header, chunks[n - 1].limit);
      n := n - 1;
      assert u.chunks == chunks[..n];
    }
    UnwindDone(u, depth);
    FreeIsSlow(s, i, obj);
  }

  lemma UnwindPop(u: State, depth: nat)
    requires |u.chunks| > depth + 1
    ensures Unwind(u, depth) == Unwind(Pop(u), depth)
  {
  }

  lemma UnwindDone(u: State, depth: nat)
    requires u.chunks != [] && |u.chunks| <= depth + 1
    ensures Unwind(u, depth) == u
  {
  }

  lemma ReadyForNewChunk(s: State, length: nat, b: Block)
    requires Inv(s) && Packed(s) && Suitable(s, length, b)
    ensures Inv(ObstackSpec.NewChunk(s, length, b)) && Packed(ObstackSpec.NewChunk(s, length, b)) && s.Top().addr > 0
    ensures Read(Store(s.mem, b.addr + s.cfg.Header(), b.contents), s.base, s.next) == Read(s.mem, s.base, s.next)
  {
    hide Packed, ObstackSpec.NewChunk, Store;
    NewChunkKeeps(s, length, b);
    NewChunkPacked(s, length, b);
    ReadFromOld(s, length, b);
  }

  lemma ReadyToFree(s: State, i: nat)
    requires Inv(s) && Packed(s) && i <= |s.objects|
    ensures Inv(Free(s, i)) && Packed(Free(s, i)) && s.chunks != [] && s.limit == s.Top().limit
    ensures HeldOnlyBy(s.chunks, Target(s, i).addr, Target(s, i).depth)
  {
    hide Packed, Free, HeldOnlyBy;
    FreeKeeps(s, i);
    FreePacked(s, i);
    OnlyHolder(s, i);
  }

  lemma FreeIsSlow(s: State, i: nat, obj: int)
    requires s.chunks != [] && i <= |s.objects| && Target(s, i).addr == obj
    requires HeldOnlyBy(s.chunks, obj, Target(s, i).depth)
    requires s.limit == s.Top().limit && !(s.Top().addr < obj < s.limit)
    ensures Free(s, i) == Unwind(s.(objects := s.objects[..i]), Target(s, i).depth)
                          .(base := obj, next := obj, calls := s.calls + [FreeCall(obj)])
  {
  }

  // ----- what the macros rely on

  lemma StepValid(s: State, op: Op)
    requires Inv(s) && Packed(s) && Legal(s, op)
    ensures s.chunks != [] && Inv(Step(s, op)) && Packed(Step(s, op))
  {
    hide Step, Legal, Abs;
    StepKeeps(s, op);
    StepPacked(s, op);
  }

  /** After making room, the room may be written: one new chunk is always enough. */
  lemma RoomIsWritable(s: State, length: nat, b: Block)
    requires Inv(s) && Packed(s) && (!HasRoom(s, length) ==> Suitable(s, length, b))
    ensures var m := MakeRoom(s, length, b);
            && Inv(m) && Packed(m) && HasRoom(m, length)
            && m.chunks != [] && m.cfg == s.cfg
            && m.cfg.Contents(m.Top()) <= m.next && m.next + length <= m.limit
            && Mapped(m.mem, m.next, m.next + length)
  {
    MakeRoomKeeps(s, length, b);
    MakeRoomPacked(s, length, b);
    GrowingInTop(MakeRoom(s, length, b));
  }

  /** Aligning relative to the object base, then clamping, is rounding up in the chunk, then clamping. */
  lemma FinishAlign(s: State)
    requires IsPow2(s.cfg.mask + 1) && Inv(s) && Packed(s)
    ensures 0 <= s.base <= s.next && s.chunks != []
    ensures var p := PtrAlign(s.cfg.platform, s.base, s.next, s.cfg.mask);
            Follow(s.cfg, s.Top(), s.next) == if p > s.limit then s.limit else p
  {
    hide MemoryOk, ObjectsOk, Placed, IsPow2, PtrAlign, Follow, Slot;
    GrowingInTop(s);
    SlotAligned(s, s.objects, |s.chunks| - 1);
    RoundEither(s.cfg, s.Top(), s.base, s.next);
  }

  lemma RoundEither(cfg: Config, c: Chunk, base: int, next: int)
    requires IsPow2(cfg.mask + 1) && 0 <= c.addr <= base <= next <= c.limit
    requires cfg.Aligned(c.addr, base) || base == c.limit
    ensures var p := PtrAlign(cfg.platform, base, next, cfg.mask);
            Follow(cfg, c, next) == if p > c.limit then c.limit else p
  {
    if cfg.platform.Narrow() {
      NarrowFinish(c.addr, base, next, cfg.mask, c.limit);
    } else {
      BPtrAlignIsAlignUp(0, next, cfg.mask);
    }
  }

  lemma NarrowFinish(c: int, base: nat, next: nat, a: nat, limit: int)
    requires IsPow2(a + 1) && c <= base <= next <= limit
    requires Congruent(c, base, a + 1) || base == limit
    ensures var p, q := BPtrAlign(base, next, a), AlignUp(c, next, a + 1);
            (if q <= limit then q else limit) == if p > limit then limit else p
  {
    BPtrAlignIsLeast(base, next, a);
    AlignUpIsLeast(c, next, a + 1);
    if Congruent(c, base, a + 1) {
      SameOrigin(c, base, next, a + 1, BPtrAlign(base, next, a));
      LeastAlignedUnique(c, next, a + 1, BPtrAlign(base, next, a), AlignUp(c, next, a + 1));
    } else {
      assert Congruent(base, base, a + 1);
    }
  }

  lemma FreeIsFast(s: State, i: nat)
    requires Inv(s) && i <= |s.objects|
    requires s.Top().addr < Target(s, i).addr < s.limit
    ensures Free(s, i) == s.(base := Target(s, i).addr, next := Target(s, i).addr, objects := s.objects[..i])
  {
  }

  lemma CurrentFirst(s: State)
    requires IsPow2(s.cfg.mask + 1) && Inv(s) && Packed(s)
    ensures s.chunks != [] && s.Top().addr > 0
    ensures PtrAlign(s.cfg.platform, s.Top().addr, s.Top().addr + s.cfg.Header(), s.cfg.mask) == s.Top().first
  {
    hide MemoryOk, ObjectsOk, Placed, IsPow2;
    assert s.Top() in s.chunks;
    PtrAlignIsRound(s.cfg, s.Top().addr, s.Top().addr + s.cfg.Header());
  }

  /** The room can be more than its unsigned result can hold. */
  lemma RoomCanExceedUnsigned(cfg: Config) returns (s: State)
    requires cfg.platform.ptrSize > 0
    ensures Inv(s) && s.cfg == cfg && s.limit - s.next >= 0x1_0000_0000
  {
    var b := Block(1, seq(0x1_0000_0000 + cfg.mask, i => 0));
    BeginKeeps(cfg, b);
    s := Begin(cfg, b);
  }
}
