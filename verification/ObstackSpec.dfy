/** What the object-stack operations do, as functions from state to state. */
module ObstackSpec {
  import opened Align
  import opened Heap

  /** A chunk occupies addr, ..., limit - 1: its header, then its contents;
      first is the position in the contents of the first object. */
  datatype Chunk = Chunk(addr: int, first: int, limit: int)

  /** What the chunk allocation function returned: a block for a header and these content bytes. */
  datatype Block = Block(addr: int, contents: seq<Byte>)

  /** A finished object, and how many chunks lay below its chunk when it was finished. */
  datatype Object = Object(addr: int, size: nat, depth: nat) {
    function End(): int {
      addr + size
    }
  }

  /** Calls out of the macros into the two library functions. */
  datatype LibCall = NewChunkCall(length: nat) | FreeCall(obj: int)

  datatype Config = Config(platform: Platform, mask: nat, chunkSize: int) {
    /** Where the contents start, counted from the header: after the limit and prev pointers. */
    function Header(): nat {
      2 * platform.ptrSize
    }

    function Contents(c: Chunk): int {
      c.addr + Header()
    }

    /** p is a place for an object in the chunk at addr. */
    predicate Aligned(addr: int, p: int) {
      Congruent(platform.Origin(addr), p, mask + 1)
    }

    function Round(addr: int, p: int): (r: int)
      ensures p <= r <= p + mask
    {
      AlignUp(platform.Origin(addr), p, mask + 1)
    }

    /** The chunk made of a block. */
    function ChunkOf(b: Block): Chunk {
      Chunk(b.addr, Round(b.addr, b.addr + Header()), b.addr + Header() + |b.contents|)
    }
  }

  /** chunks: oldest first, the current chunk last. objects: the live finished objects, oldest first. */
  datatype State = State(
    cfg: Config, mem: Memory, chunks: seq<Chunk>,
    base: int, next: int, limit: int, maybeEmpty: bool,
    objects: seq<Object>, calls: seq<LibCall>)
  {
    function Top(): Chunk
      requires chunks != []
    {
      chunks[|chunks| - 1]
    }
  }

  /** A block the allocator may return when length more bytes are needed:
      disjoint from every chunk in use, and large enough for any position of the first object. */
  ghost predicate Suitable(s: State, length: nat, b: Block) {
    && b.addr > 0
    && |b.contents| >= s.cfg.mask + (s.next - s.base) + length
    && s.cfg.Header() + |b.contents| >= s.cfg.chunkSize
    && forall k | 0 <= k < |s.chunks| :: Apart(s.cfg.ChunkOf(b), s.chunks[k])
  }

  predicate Apart(c: Chunk, d: Chunk) {
    c.limit <= d.addr || d.limit <= c.addr
  }

  // ----- the steps the operations are made of

  function Begin(cfg: Config, b: Block): State {
    var c := cfg.ChunkOf(b);
    State(cfg, Store(map[], cfg.Contents(c), b.contents), [c], c.first, c.first, c.limit, false, [], [])
  }

  /** Move the growing object to the start of a new chunk, which becomes the current one. */
  function Extend(s: State, length: nat, b: Block): State {
    var c := s.cfg.ChunkOf(b);
    var m := Store(s.mem, s.cfg.Contents(c), b.contents);
    s.(mem := Store(m, c.first, Read(s.mem, s.base, s.next)),
       chunks := s.chunks + [c],
       base := c.first, next := c.first + (s.next - s.base), limit := c.limit,
       maybeEmpty := false,
       calls := s.calls + [NewChunkCall(length)])
  }

  /** Release the chunk just below the current one. */
  function ReleasePrevious(s: State): State
    requires |s.chunks| >= 2
  {
    var n := |s.chunks|;
    var c := s.chunks[n - 2];
    s.(mem := Erase(s.mem, s.cfg.Contents(c), c.limit),
       chunks := s.chunks[..n - 2] + [s.chunks[n - 1]])
  }

  /** The growing object is all there is in the current chunk. */
  predicate Alone(s: State)
    requires s.chunks != []
  {
    !s.maybeEmpty && s.base == s.Top().first
  }

  function NewChunk(s: State, length: nat, b: Block): (r: State)
    requires s.chunks != []
    ensures r.chunks != []
  {
    if Alone(s) then ReleasePrevious(Extend(s, length, b)) else Extend(s, length, b)
  }

  predicate HasRoom(s: State, length: nat) {
    s.limit - s.next >= length
  }

  function MakeRoom(s: State, length: nat, b: Block): (r: State)
    requires s.chunks != []
    ensures r.chunks != []
  {
    if HasRoom(s, length) then s else NewChunk(s, length, b)
  }

  function Append(s: State, bytes: seq<Byte>): State {
    s.(mem := Store(s.mem, s.next, bytes), next := s.next + |bytes|)
  }

  function Advance(s: State, length: nat): State {
    s.(next := s.next + length)
  }

  /** The place for the next object in chunk c, from p on: aligned, or the end of a full chunk. */
  function Follow(cfg: Config, c: Chunk, p: int): (r: int)
    ensures p <= c.limit ==> p <= r <= c.limit
  {
    var up := cfg.Round(c.addr, p);
    if up <= c.limit then up else c.limit
  }

  function Finish(s: State): State
    requires s.chunks != []
  {
    var p := Follow(s.cfg, s.Top(), s.next);
    s.(base := p, next := p,
       maybeEmpty := s.maybeEmpty || s.next == s.base,
       objects := s.objects + [Object(s.base, if s.base <= s.next then s.next - s.base else 0, |s.chunks| - 1)])
  }

  /** Release the current chunk and return to the one below it. */
  function Pop(s: State): State
    requires |s.chunks| >= 2
  {
    var n, top := |s.chunks|, s.Top();
    var below := s.chunks[n - 2].limit;
    s.(mem := Erase(s.mem, s.cfg.Contents(top), top.limit),
       chunks := s.chunks[..n - 1],
       base := below, next := below, limit := below,
       maybeEmpty := true)
  }

  function Unwind(s: State, depth: nat): (r: State)
    requires s.chunks != []
    decreases |s.chunks|
  {
    if |s.chunks| <= depth + 1 then s else Unwind(Pop(s), depth)
  }

  /** The address and chunk of live object i; the growing object counts as the last one. */
  function Target(s: State, i: nat): Object {
    if i < |s.objects| then s.objects[i] else Object(s.base, 0, if |s.chunks| > 0 then |s.chunks| - 1 else 0)
  }

  function Free(s: State, i: nat): State
    requires s.chunks != [] && i <= |s.objects|
  {
    var t := Target(s, i);
    var r := Unwind(s.(objects := s.objects[..i]), t.depth);
    var calls := if t.depth == |s.chunks| - 1 && t.addr < s.limit then [] else [FreeCall(t.addr)];
    r.(base := t.addr, next := t.addr, calls := s.calls + calls)
  }

  // ----- the operations

  datatype Op =
    | MakeRoomOp(length: nat, block: Block)
    | Grow(src: seq<Byte>, block: Block)
    | Grow0(src: seq<Byte>, block: Block)
    | Grow1(datum: Byte, block: Block)
    | GrowWord(rep: seq<Byte>, block: Block)  // ptr_grow and int_grow: the bytes of a pointer or of an int
    | Blank(length: nat, block: Block)
    | FinishOp
    | Alloc(length: nat, block: Block)
    | Copy(src: seq<Byte>, block: Block)
    | Copy0(src: seq<Byte>, block: Block)
    | FreeOp(index: nat)

  /** How much room an operation asks for. */
  function Need(op: Op): nat {
    match op
    case MakeRoomOp(n, _) => n
    case Grow(src, _) => |src|
    case Grow0(src, _) => |src| + 1
    case Grow1(_, _) => 1
    case GrowWord(rep, _) => |rep|
    case Blank(n, _) => n
    case FinishOp => 0
    case Alloc(n, _) => n
    case Copy(src, _) => |src|
    case Copy0(src, _) => |src| + 1
    case FreeOp(_) => 0
  }

  /** What the operation's caller and the allocator provide. */
  ghost predicate Legal(s: State, op: Op) {
    match op
    case FinishOp => true
    case FreeOp(i) => i <= |s.objects|
    case _ =>
      && (op.GrowWord? ==> |op.rep| == s.cfg.platform.ptrSize || |op.rep| == s.cfg.platform.intSize)
      && (!HasRoom(s, Need(op)) ==> Suitable(s, Need(op), op.block))
  }

  function Step(s: State, op: Op): (r: State)
    requires s.chunks != []
    requires op.FreeOp? ==> op.index <= |s.objects|
  {
    match op
    case MakeRoomOp(n, b) => MakeRoom(s, n, b)
    case Grow(src, b) => Append(MakeRoom(s, |src|, b), src)
    case Grow0(src, b) => Append(MakeRoom(s, |src| + 1, b), src + [0])
    case Grow1(x, b) => Append(MakeRoom(s, 1, b), [x])
    case GrowWord(rep, b) => Append(MakeRoom(s, |rep|, b), rep)
    case Blank(n, b) => Advance(MakeRoom(s, n, b), n)
    case FinishOp => Finish(s)
    case Alloc(n, b) => Finish(Advance(MakeRoom(s, n, b), n))
    case Copy(src, b) => Finish(Append(MakeRoom(s, |src|, b), src))
    case Copy0(src, b) => Finish(Append(MakeRoom(s, |src| + 1, b), src + [0]))
    case FreeOp(i) => Free(s, i)
  }

  // ----- the invariant

  /** Address a belongs to the contents of some chunk in use. */
  ghost predicate Owned(s: State, a: int) {
    exists k :: 0 <= k < |s.chunks| && s.cfg.Contents(s.chunks[k]) <= a < s.chunks[k].limit
  }

  ghost predicate ChunksOk(s: State) {
    && s.chunks != []
    && (forall k | 0 <= k < |s.chunks| ::
          s.chunks[k].addr > 0 && s.cfg.Contents(s.chunks[k]) <= s.chunks[k].first <= s.chunks[k].limit)
    && (forall j, k | 0 <= j < k < |s.chunks| :: Apart(s.chunks[j], s.chunks[k]))
  }

  /** Exactly the contents of the chunks in use are allocated. */
  ghost predicate MemoryOk(s: State) {
    forall a :: a in s.mem <==> Owned(s, a)
  }

  ghost predicate GrowingOk(s: State)
    requires s.chunks != []
  {
    && s.limit == s.Top().limit
    && s.Top().first <= s.base <= s.next <= s.limit
  }

  ghost predicate ObjectOk(s: State, x: Object) {
    && x.depth < |s.chunks|
    && var c := s.chunks[x.depth];
    && c.first <= x.addr && x.End() <= c.limit
    && (x.depth == |s.chunks| - 1 ==> x.End() <= s.base && (!s.maybeEmpty ==> x.size > 0))
  }

  predicate Before(x: Object, y: Object) {
    x.depth < y.depth || (x.depth == y.depth && x.End() <= y.addr)
  }

  ghost predicate ObjectsOk(s: State) {
    && (forall i | 0 <= i < |s.objects| :: ObjectOk(s, s.objects[i]))
    && (forall i, j | 0 <= i < j < |s.objects| :: Before(s.objects[i], s.objects[j]))
  }

  ghost predicate Inv(s: State) {
    && s.cfg.platform.ptrSize > 0
    && ChunksOk(s)
    && MemoryOk(s)
    && GrowingOk(s)
    && ObjectsOk(s)
  }

  // ----- the plain stack of byte strings

  datatype Stack = Stack(finished: seq<seq<Byte>>, growing: seq<Byte>)

  function Content(s: State, x: Object): seq<Byte> {
    Read(s.mem, x.addr, x.End())
  }

  function Growing(s: State): seq<Byte> {
    Read(s.mem, s.base, s.next)
  }

  function Abs(s: State): Stack {
    Stack(seq(|s.objects|, i requires 0 <= i < |s.objects| => Content(s, s.objects[i])), Growing(s))
  }

  /** The operations on the plain stack. Blank space may come with any bytes in it. */
  ghost predicate AbsStep(a: Stack, op: Op, z: Stack) {
    match op
    case MakeRoomOp(_, _) => z == a
    case Grow(src, _) => z == a.(growing := a.growing + src)
    case Grow0(src, _) => z == a.(growing := a.growing + src + [0])
    case Grow1(x, _) => z == a.(growing := a.growing + [x])
    case GrowWord(rep, _) => z == a.(growing := a.growing + rep)
    case Blank(n, _) => exists junk | |junk| == n :: z == a.(growing := a.growing + junk)
    case FinishOp => z == Stack(a.finished + [a.growing], [])
    case Alloc(n, _) => exists junk | |junk| == n :: z == Stack(a.finished + [a.growing + junk], [])
    case Copy(src, _) => z == Stack(a.finished + [a.growing + src], [])
    case Copy0(src, _) => z == Stack(a.finished + [a.growing + src + [0]], [])
    case FreeOp(i) => i <= |a.finished| && z == Stack(a.finished[..i], [])
  }

  // ----- runs

  ghost predicate LegalRun(s: State, ops: seq<Op>)
    decreases |ops|
  {
    ops == [] || (s.chunks != [] && Legal(s, ops[0]) && LegalRun(Step(s, ops[0]), ops[1..]))
  }

  ghost function Run(s: State, ops: seq<Op>): State
    requires LegalRun(s, ops)
    decreases |ops|
  {
    if ops == [] then s else Run(Step(s, ops[0]), ops[1..])
  }

  ghost predicate AbsRun(a: Stack, ops: seq<Op>, z: Stack)
    decreases |ops|
  {
    if ops == [] then z == a
    else exists m :: AbsStep(a, ops[0], m) && AbsRun(m, ops[1..], z)
  }
}
