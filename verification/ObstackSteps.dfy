/** Every step keeps the invariant and does to the plain stack what it should. */
module ObstackSteps {
  import opened Heap
  import opened ObstackSpec

  /** A live object's bytes all belong to its chunk. */
  lemma ObjectInChunk(s: State, x: Object)
    requires Inv(s) && x in s.objects
    ensures x.depth < |s.chunks|
    ensures s.cfg.Contents(s.chunks[x.depth]) <= x.addr
    ensures x.End() <= s.chunks[x.depth].limit
    ensures Mapped(s.mem, x.addr, x.End())
  {
  }

  lemma SameFinished(s: State, t: State)
    requires t.objects == s.objects
    requires forall x | x in s.objects :: Content(t, x) == Content(s, x)
    ensures Abs(t).finished == Abs(s).finished
  {
  }

  // ----- the first chunk

  lemma BeginKeeps(cfg: Config, b: Block)
    requires cfg.platform.ptrSize > 0
    requires b.addr > 0 && |b.contents| >= cfg.mask
    ensures Inv(Begin(cfg, b)) && Abs(Begin(cfg, b)) == Stack([], [])
  {
    var s := Begin(cfg, b);
    StoreMeaning(map[], cfg.Contents(s.chunks[0]), b.contents);
    assert forall a :: a in s.mem ==> Owned(s, a) by {
      assert forall a :: a in s.mem ==> s.cfg.Contents(s.chunks[0]) <= a < s.chunks[0].limit;
    }
  }

  // ----- a new chunk

  lemma ExtendChunks(s: State, length: nat, b: Block)
    requires Inv(s) && Suitable(s, length, b)
    ensures ChunksOk(Extend(s, length, b)) && GrowingOk(Extend(s, length, b))
    ensures HasRoom(Extend(s, length, b), length)
  {
  }

  /** Copying into the new chunk touches only addresses of the new chunk. */
  lemma ExtendMemory(s: State, length: nat, b: Block, a: int)
    requires Inv(s) && Suitable(s, length, b)
    ensures var t, c := Extend(s, length, b), s.cfg.ChunkOf(b);
            && (a in t.mem <==> a in s.mem || s.cfg.Contents(c) <= a < c.limit)
            && (a in s.mem && !(s.cfg.Contents(c) <= a < c.limit) ==> t.mem[a] == s.mem[a])
  {
    var c := s.cfg.ChunkOf(b);
    StoreMeaning(s.mem, s.cfg.Contents(c), b.contents);
    StoreMeaning(Store(s.mem, s.cfg.Contents(c), b.contents), c.first, Growing(s));
  }

  lemma ExtendMemoryOk(s: State, length: nat, b: Block)
    requires Inv(s) && Suitable(s, length, b)
    ensures MemoryOk(Extend(s, length, b))
  {
    var t, c := Extend(s, length, b), s.cfg.ChunkOf(b);
    forall a
      ensures a in t.mem <==> Owned(t, a)
    {
      ExtendMemory(s, length, b, a);
      OwnedByOneMore(s, t, c, a);
    }
  }

  lemma OwnedByOneMore(s: State, t: State, c: Chunk, a: int)
    requires t.cfg == s.cfg && t.chunks == s.chunks + [c]
    ensures Owned(t, a) <==> Owned(s, a) || s.cfg.Contents(c) <= a < c.limit
  {
    if Owned(s, a) {
      var k :| 0 <= k < |s.chunks| && s.cfg.Contents(s.chunks[k]) <= a < s.chunks[k].limit;
      assert t.chunks[k] == s.chunks[k];
    }
    if s.cfg.Contents(c) <= a < c.limit {
      assert t.chunks[|s.chunks|] == c;
    }
  }

  lemma ExtendContent(s: State, length: nat, b: Block, x: Object)
    requires Inv(s) && Suitable(s, length, b) && x in s.objects
    ensures Content(Extend(s, length, b), x) == Content(s, x)
  {
    var t, c := Extend(s, length, b), s.cfg.ChunkOf(b);
    ObjectInChunk(s, x);
    assert Apart(c, s.chunks[x.depth]);
    forall a | x.addr <= a < x.End()
      ensures a in t.mem && t.mem[a] == s.mem[a]
    {
      ExtendMemory(s, length, b, a);
    }
    ReadAgree(t.mem, s.mem, x.addr, x.End());
  }

  lemma ExtendGrowing(s: State, length: nat, b: Block)
    requires Inv(s) && Suitable(s, length, b)
    ensures Growing(Extend(s, length, b)) == Growing(s)
  {
    var c := s.cfg.ChunkOf(b);
    var m := Store(s.mem, s.cfg.Contents(c), b.contents);
    ReadStored(m, c.first, Growing(s));
  }

  lemma ExtendKeeps(s: State, length: nat, b: Block)
    requires Inv(s) && Suitable(s, length, b)
    ensures Inv(Extend(s, length, b)) && Abs(Extend(s, length, b)) == Abs(s)
  {
    var t := Extend(s, length, b);
    ExtendChunks(s, length, b);
    ExtendMemoryOk(s, length, b);
    ExtendGrowing(s, length, b);
    forall x | x in s.objects
      ensures ObjectOk(t, x) && Content(t, x) == Content(s, x)
    {
      assert ObjectOk(s, x);
      assert t.chunks[x.depth] == s.chunks[x.depth];
      ExtendContent(s, length, b, x);
    }
    SameFinished(s, t);
  }

  // ----- releasing a chunk that holds nothing

  /** The flag is what makes the release safe: without it set, no live object lies in a chunk
      whose growing object is still at the first position. */
  lemma AloneMeansNoObject(s: State, x: Object)
    requires Inv(s) && Alone(s) && x in s.objects
    ensures x.depth < |s.chunks| - 1
  {
  }

  ghost predicate HasAddress(cfg: Config, c: Chunk, a: int) {
    cfg.Contents(c) <= a < c.limit
  }

  lemma OwnedElsewhere(s: State, t: State, k: nat, a: int, j: nat)
    requires ChunksOk(s) && k < |s.chunks|
    requires t.cfg == s.cfg && t.chunks == s.chunks[..k] + s.chunks[k + 1..]
    requires j < |t.chunks| && HasAddress(s.cfg, t.chunks[j], a)
    ensures Owned(s, a) && !HasAddress(s.cfg, s.chunks[k], a)
  {
  }

  lemma OwnedStill(s: State, t: State, k: nat, a: int, j: nat)
    requires k < |s.chunks|
    requires t.cfg == s.cfg && t.chunks == s.chunks[..k] + s.chunks[k + 1..]
    requires j < |s.chunks| && j != k && HasAddress(s.cfg, s.chunks[j], a)
    ensures Owned(t, a)
  {
    var i := if j < k then j else j - 1;
    assert t.chunks[i] == s.chunks[j];
  }

  lemma EraseOwned(s: State, t: State, k: nat, a: int)
    requires ChunksOk(s) && k < |s.chunks|
    requires t.cfg == s.cfg && t.chunks == s.chunks[..k] + s.chunks[k + 1..]
    ensures Owned(t, a) <==> Owned(s, a) && !HasAddress(s.cfg, s.chunks[k], a)
  {
    if Owned(t, a) {
      var j :| 0 <= j < |t.chunks| && t.cfg.Contents(t.chunks[j]) <= a < t.chunks[j].limit;
      OwnedElsewhere(s, t, k, a, j);
    }
    if Owned(s, a) && !HasAddress(s.cfg, s.chunks[k], a) {
      var j :| 0 <= j < |s.chunks| && s.cfg.Contents(s.chunks[j]) <= a < s.chunks[j].limit;
      OwnedStill(s, t, k, a, j);
    }
  }

  /** Erasing chunk k leaves the bytes of every object of another chunk. */
  lemma EraseContent(s: State, k: nat, x: Object)
    requires Inv(s) && k < |s.chunks| && x in s.objects && x.depth != k
    ensures Read(Erase(s.mem, s.cfg.Contents(s.chunks[k]), s.chunks[k].limit), x.addr, x.End()) == Content(s, x)
  {
    ObjectInChunk(s, x);
    var c, d := s.chunks[k], s.chunks[x.depth];
    assert Apart(c, d) || Apart(d, c);
    EraseMeaning(s.mem, s.cfg.Contents(c), c.limit);
    ReadAgree(Erase(s.mem, s.cfg.Contents(c), c.limit), s.mem, x.addr, x.End());
  }

  lemma ReleasePreviousKeeps(s: State)
    requires Inv(s) && |s.chunks| >= 2
    requires forall x | x in s.objects :: x.depth < |s.chunks| - 2
    ensures Inv(ReleasePrevious(s)) && Abs(ReleasePrevious(s)) == Abs(s)
  {
    var t, n := ReleasePrevious(s), |s.chunks|;
    assert t.chunks == s.chunks[..n - 2] + s.chunks[n - 1..];
    EraseMeaning(s.mem, s.cfg.Contents(s.chunks[n - 2]), s.chunks[n - 2].limit);
    forall a
      ensures a in t.mem <==> Owned(t, a)
    {
      EraseOwned(s, t, n - 2, a);
    }
    forall x | x in s.objects
      ensures ObjectOk(t, x) && Content(t, x) == Content(s, x)
    {
      assert ObjectOk(s, x);
      assert t.chunks[x.depth] == s.chunks[x.depth];
      EraseContent(s, n - 2, x);
    }
    SameFinished(s, t);
    GrowingInTop(s);
    var c, d := s.chunks[n - 2], s.chunks[n - 1];
    assert Apart(c, d);
    ReadAgree(t.mem, s.mem, s.base, s.next);
  }

  lemma GrowingInTop(s: State)
    requires Inv(s)
    ensures s.cfg.Contents(s.Top()) <= s.base <= s.next <= s.limit == s.Top().limit
    ensures Mapped(s.mem, s.cfg.Contents(s.Top()), s.limit)
  {
  }

  /** A new chunk gives the room asked for, moves the growing object unchanged,
      and loses no live object, whether or not it releases the old chunk. */
  lemma NewChunkKeeps(s: State, length: nat, b: Block)
    requires Inv(s) && Suitable(s, length, b)
    ensures Inv(NewChunk(s, length, b)) && Abs(NewChunk(s, length, b)) == Abs(s)
    ensures NewChunk(s, length, b).objects == s.objects
    ensures HasRoom(NewChunk(s, length, b), length)
  {
    ExtendKeeps(s, length, b);
    ExtendChunks(s, length, b);
    if Alone(s) {
      forall x | x in s.objects
        ensures x.depth < |s.chunks| - 1
      {
        AloneMeansNoObject(s, x);
      }
      ReleasePreviousKeeps(Extend(s, length, b));
    }
  }

  lemma MakeRoomKeeps(s: State, length: nat, b: Block)
    requires Inv(s) && (!HasRoom(s, length) ==> Suitable(s, length, b))
    ensures Inv(MakeRoom(s, length, b)) && Abs(MakeRoom(s, length, b)) == Abs(s)
    ensures MakeRoom(s, length, b).objects == s.objects
    ensures HasRoom(MakeRoom(s, length, b), length)
  {
    if !HasRoom(s, length) {
      NewChunkKeeps(s, length, b);
    }
  }

  lemma InvChunks(s: State)
    requires Inv(s)
    ensures s.chunks != [] && s.next <= s.limit
  {
  }

  // ----- adding to the growing object

  lemma SameMemoryOk(s: State, t: State)
    requires MemoryOk(s)
    requires t.cfg == s.cfg && t.chunks == s.chunks && t.mem.Keys == s.mem.Keys
    ensures MemoryOk(t)
  {
  }

  lemma AppendInPlace(s: State, bytes: seq<Byte>)
    requires Inv(s) && HasRoom(s, |bytes|)
    ensures Append(s, bytes).mem.Keys == s.mem.Keys
    ensures Agree(Append(s, bytes).mem, s.mem, s.base, s.next)
  {
    StoreMeaning(s.mem, s.next, bytes);
    GrowingInTop(s);
    var t := Append(s, bytes);
    forall a
      ensures a in t.mem.Keys <==> a in s.mem.Keys
    {
      assert a in t.mem <==> a in s.mem;
    }
  }

  lemma AppendGrowing(s: State, bytes: seq<Byte>)
    requires Inv(s) && HasRoom(s, |bytes|)
    ensures Growing(Append(s, bytes)) == Growing(s) + bytes
  {
    var t := Append(s, bytes);
    AppendInPlace(s, bytes);
    ReadSplit(t.mem, s.base, s.next, t.next);
    ReadStored(s.mem, s.next, bytes);
    ReadAgree(t.mem, s.mem, s.base, s.next);
  }

  /** The room is enough: every byte written is inside the current chunk, and no finished byte changes. */
  lemma AppendKeeps(s: State, bytes: seq<Byte>)
    requires Inv(s) && HasRoom(s, |bytes|)
    ensures Inv(Append(s, bytes))
    ensures Abs(Append(s, bytes)) == Abs(s).(growing := Growing(s) + bytes)
    ensures Append(s, bytes).mem.Keys == s.mem.Keys
  {
    var t := Append(s, bytes);
    AppendInPlace(s, bytes);
    AppendGrowing(s, bytes);
    SameMemoryOk(s, t);
    forall x | x in s.objects
      ensures ObjectOk(t, x) && Content(t, x) == Content(s, x)
    {
      assert ObjectOk(s, x);
      AppendContent(s, bytes, x);
    }
    SameFinished(s, t);
  }

  lemma AppendContent(s: State, bytes: seq<Byte>, x: Object)
    requires Inv(s) && HasRoom(s, |bytes|) && x in s.objects
    ensures Content(Append(s, bytes), x) == Content(s, x)
  {
    ObjectInChunk(s, x);
    GrowingInTop(s);
    assert ObjectOk(s, x);
    if x.depth < |s.chunks| - 1 {
      assert Apart(s.chunks[x.depth], s.Top());
    }
    StoreMeaning(s.mem, s.next, bytes);
    ReadAgree(Append(s, bytes).mem, s.mem, x.addr, x.End());
  }

  lemma AdvanceKeeps(s: State, length: nat) returns (junk: seq<Byte>)
    requires Inv(s) && HasRoom(s, length)
    ensures Inv(Advance(s, length)) && |junk| == length
    ensures Abs(Advance(s, length)) == Abs(s).(growing := Growing(s) + junk)
  {
    var t := Advance(s, length);
    junk := Read(s.mem, s.next, t.next);
    SameMemoryOk(s, t);
    forall x | x in s.objects
      ensures ObjectOk(t, x) && Content(t, x) == Content(s, x)
    {
      assert ObjectOk(s, x);
    }
    SameFinished(s, t);
    ReadSplit(s.mem, s.base, s.next, t.next);
  }

  // ----- finishing the growing object

  lemma FinishKeeps(s: State)
    requires Inv(s)
    ensures Inv(Finish(s))
    ensures Abs(Finish(s)) == Stack(Abs(s).finished + [Growing(s)], [])
    ensures Finish(s).maybeEmpty <==> s.maybeEmpty || Growing(s) == []
  {
    var t := Finish(s);
    assert |Growing(s)| == s.next - s.base;
    SameMemoryOk(s, t);
    var y := t.objects[|s.objects|];
    assert ObjectOk(t, y);
    forall x | x in s.objects
      ensures ObjectOk(t, x) && Before(x, y)
    {
      assert ObjectOk(s, x);
    }
    assert Abs(t).finished == Abs(s).finished + [Growing(s)];
  }

  // ----- unwinding

  lemma TruncateKeeps(s: State, i: nat)
    requires Inv(s) && i <= |s.objects|
    ensures Inv(s.(objects := s.objects[..i]))
    ensures Abs(s.(objects := s.objects[..i])).finished == Abs(s).finished[..i]
  {
  }

  lemma PopMemoryOk(s: State)
    requires Inv(s) && |s.chunks| >= 2
    ensures MemoryOk(Pop(s))
  {
    var t, n := Pop(s), |s.chunks|;
    assert t.chunks == s.chunks[..n - 1] + s.chunks[n..];
    EraseMeaning(s.mem, s.cfg.Contents(s.Top()), s.Top().limit);
    forall a
      ensures a in t.mem <==> Owned(t, a)
    {
      EraseOwned(s, t, n - 1, a);
    }
  }

  lemma PopObject(s: State, x: Object)
    requires Inv(s) && |s.chunks| >= 2 && x in s.objects && x.depth < |s.chunks| - 1
    ensures ObjectOk(Pop(s), x) && Content(Pop(s), x) == Content(s, x)
  {
    assert ObjectOk(s, x);
    assert Pop(s).chunks[x.depth] == s.chunks[x.depth];
    EraseContent(s, |s.chunks| - 1, x);
  }

  lemma PopKeeps(s: State)
    requires Inv(s) && |s.chunks| >= 2
    requires forall x | x in s.objects :: x.depth < |s.chunks| - 1
    ensures Inv(Pop(s)) && Abs(Pop(s)).finished == Abs(s).finished
  {
    PopMemoryOk(s);
    forall x | x in s.objects
      ensures ObjectOk(Pop(s), x) && Content(Pop(s), x) == Content(s, x)
    {
      PopObject(s, x);
    }
    SameFinished(s, Pop(s));
  }

  lemma {:induction false} UnwindKeeps(s: State, depth: nat)
    requires Inv(s) && depth < |s.chunks|
    requires forall x | x in s.objects :: x.depth <= depth
    ensures var t := Unwind(s, depth);
            && Inv(t) && Abs(t).finished == Abs(s).finished
            && t.cfg == s.cfg && t.objects == s.objects && t.calls == s.calls
            && t.chunks == s.chunks[..depth + 1]
            && (depth < |s.chunks| - 1 ==> t.maybeEmpty)
            && (depth == |s.chunks| - 1 ==> t == s)
    decreases |s.chunks|
  {
    if |s.chunks| <= depth + 1 {
    } else {
      PopKeeps(s);
      UnwindKeeps(Pop(s), depth);
      assert s.chunks[..|s.chunks| - 1][..depth + 1] == s.chunks[..depth + 1];
    }
  }

  lemma TargetOk(s: State, i: nat)
    requires Inv(s) && i <= |s.objects|
    ensures var t := Target(s, i);
            && t.depth < |s.chunks|
            && var c := s.chunks[t.depth];
            && c.first <= t.addr <= c.limit
            && forall j | 0 <= j < i :: Before(s.objects[j], t)
  {
  }

  /** What is left once the chunks above the freed object are gone. */
  lemma FreeUnwound(s: State, i: nat)
    requires Inv(s) && i <= |s.objects|
    ensures var t, u := Target(s, i), Unwind(s.(objects := s.objects[..i]), Target(s, i).depth);
            && t.depth < |s.chunks|
            && Inv(u) && Abs(u).finished == Abs(s).finished[..i]
            && u.cfg == s.cfg && u.objects == s.objects[..i] && u.calls == s.calls
            && u.chunks == s.chunks[..t.depth + 1] && u.Top() == s.chunks[t.depth]
            && (t.depth < |s.chunks| - 1 ==> u.maybeEmpty)
            && (t.depth == |s.chunks| - 1 ==> u == s.(objects := s.objects[..i]))
  {
    TargetOk(s, i);
    TruncateKeeps(s, i);
    UnwindKeeps(s.(objects := s.objects[..i]), Target(s, i).depth);
  }

  lemma FreeObject(s: State, i: nat, u: State, x: Object)
    requires Inv(s) && i <= |s.objects| && Inv(u) && x in s.objects[..i]
    requires u == Unwind(s.(objects := s.objects[..i]), Target(s, i).depth) && u.objects == s.objects[..i]
    requires u.cfg == s.cfg && u.chunks == s.chunks[..Target(s, i).depth + 1]
    ensures ObjectOk(Free(s, i), x) && Content(Free(s, i), x) == Content(u, x)
  {
  }

  /** Freeing an object leaves exactly the objects finished before it, and an empty growing object. */
  lemma FreeKeeps(s: State, i: nat)
    requires Inv(s) && i <= |s.objects|
    ensures Inv(Free(s, i))
    ensures Abs(Free(s, i)) == Stack(Abs(s).finished[..i], [])
    ensures Target(s, i).depth < |s.chunks| && Free(s, i).chunks == s.chunks[..Target(s, i).depth + 1]
  {
    var u, r := Unwind(s.(objects := s.objects[..i]), Target(s, i).depth), Free(s, i);
    FreeUnwound(s, i);
    SameMemoryOk(u, r);
    forall x | x in r.objects
      ensures ObjectOk(r, x) && Content(r, x) == Content(u, x)
    {
      FreeObject(s, i, u, x);
    }
    SameFinished(u, r);
    TargetOk(s, i);
  }

  // ----- all operations

  lemma GrowKeeps(s: State, b: Block, bytes: seq<Byte>)
    requires Inv(s) && (!HasRoom(s, |bytes|) ==> Suitable(s, |bytes|, b))
    ensures var t := Append(MakeRoom(s, |bytes|, b), bytes);
            Inv(t) && Abs(t) == Abs(s).(growing := Growing(s) + bytes)
  {
    MakeRoomKeeps(s, |bytes|, b);
    AppendKeeps(MakeRoom(s, |bytes|, b), bytes);
  }

  lemma CopyKeeps(s: State, b: Block, bytes: seq<Byte>)
    requires Inv(s) && (!HasRoom(s, |bytes|) ==> Suitable(s, |bytes|, b))
    ensures var t := Finish(Append(MakeRoom(s, |bytes|, b), bytes));
            Inv(t) && Abs(t) == Stack(Abs(s).finished + [Growing(s) + bytes], [])
  {
    GrowKeeps(s, b, bytes);
    FinishKeeps(Append(MakeRoom(s, |bytes|, b), bytes));
  }

  lemma BlankKeeps(s: State, b: Block, n: nat) returns (junk: seq<Byte>)
    requires Inv(s) && (!HasRoom(s, n) ==> Suitable(s, n, b))
    ensures |junk| == n
    ensures var t := Advance(MakeRoom(s, n, b), n);
            Inv(t) && Abs(t) == Abs(s).(growing := Growing(s) + junk)
  {
    MakeRoomKeeps(s, n, b);
    junk := AdvanceKeeps(MakeRoom(s, n, b), n);
  }

  lemma StepGrowKeeps(s: State, op: Op)
    requires Inv(s) && Legal(s, op)
    requires op.Grow? || op.Grow0? || op.Grow1? || op.GrowWord?
    ensures Inv(Step(s, op)) && AbsStep(Abs(s), op, Abs(Step(s, op)))
  {
    hide Inv, MakeRoom, Append;
    match op
    case Grow(src, b) => GrowKeeps(s, b, src);
    case Grow0(src, b) => GrowKeeps(s, b, src + [0]); AppendZero(s, src);
    case Grow1(x, b) => GrowKeeps(s, b, [x]);
    case GrowWord(rep, b) => GrowKeeps(s, b, rep);
  }

  lemma StepBlankKeeps(s: State, op: Op)
    requires Inv(s) && Legal(s, op)
    requires op.Blank? || op.Alloc?
    ensures Inv(Step(s, op)) && AbsStep(Abs(s), op, Abs(Step(s, op)))
  {
    var junk := BlankKeeps(s, op.block, op.length);
    if op.Alloc? {
      FinishKeeps(Advance(MakeRoom(s, op.length, op.block), op.length));
    }
  }

  lemma Copy0Keeps(s: State, b: Block, src: seq<Byte>)
    requires Inv(s) && (!HasRoom(s, |src| + 1) ==> Suitable(s, |src| + 1, b))
    ensures var t := Finish(Append(MakeRoom(s, |src| + 1, b), src + [0]));
            Inv(t) && Abs(t) == Stack(Abs(s).finished + [Growing(s) + src + [0]], [])
  {
    CopyKeeps(s, b, src + [0]);
    AppendZero(s, src);
  }

  /** Every operation keeps the invariant and acts on the plain stack as its abstract counterpart. */
  lemma StepKeeps(s: State, op: Op)
    requires Inv(s) && Legal(s, op)
    ensures Inv(Step(s, op)) && AbsStep(Abs(s), op, Abs(Step(s, op)))
  {
    hide Inv, MakeRoom, Append, Advance, Finish, Free;
    match op
    case MakeRoomOp(n, b) => MakeRoomKeeps(s, n, b);
    case Blank(_, _) => StepBlankKeeps(s, op);
    case Alloc(_, _) => StepBlankKeeps(s, op);
    case Copy(src, b) => CopyKeeps(s, b, src);
    case Copy0(src, b) => Copy0Keeps(s, b, src);
    case FinishOp => FinishKeeps(s);
    case FreeOp(i) => FreeKeeps(s, i);
    case _ => StepGrowKeeps(s, op);
  }

  lemma AppendZero(s: State, src: seq<Byte>)
    ensures Growing(s) + (src + [0]) == Growing(s) + src + [0]
  {
  }
}
