/** The two families of macros, driven by the same client calls. */
module ObstackClients {
  import opened Bits
  import opened ObstackSpec
  import opened ObstackSteps
  import opened ObstackPacked
  import opened ObstackRuns
  import opened Obstacks
  import opened ObstackLengths
  import GnuMacros
  import PortableMacros

  /** The addresses of the live objects, as a client knows them. */
  predicate Knows(addrs: seq<int>, objects: seq<Object>) {
    |addrs| == |objects| && forall i | 0 <= i < |addrs| :: addrs[i] == objects[i].addr
  }

  function Remember(addrs: seq<int>, op: Op, value: int): seq<int> {
    if Returns(op) then addrs + [value]
    else if op.FreeOp? && op.index <= |addrs| then addrs[..op.index]
    else addrs
  }

  lemma MakeRoomObjects(s: State, length: nat, b: Block)
    requires s.chunks != []
    ensures MakeRoom(s, length, b).objects == s.objects
  {
  }

  lemma KnowsAfter(s: State, op: Op, addrs: seq<int>, value: int)
    requires s.chunks != [] && Legal(s, op) && Knows(addrs, s.objects)
    requires Inv(s)
    requires var t := Step(s, op); Returns(op) ==> t.objects != [] && value == t.objects[|t.objects| - 1].addr
    ensures Knows(Remember(addrs, op, value), Step(s, op).objects)
  {
    hide Inv, MakeRoom, Unwind, Follow, Abs;
    if op.FreeOp? {
      FreeUnwound(s, op.index);
    } else if !op.FinishOp? {
      MakeRoomObjects(s, Need(op), op.block);
    }
  }

  /** One client call on an obstack served by the GNU macros; obj is the address to free. */
  method DoGnu(o: Obstack, op: Op, obj: int) returns (value: int)
    requires o.Valid() && Legal(o.View(), op) && GnuFits(o.View(), Length(op), Extra(op))
    requires op.FreeOp? ==> obj == Target(o.View(), op.index).addr
    modifies o
    ensures o.Valid() && o.View() == Step(old(o.View()), op)
    ensures Returns(op) ==> o.objects != [] && value == o.objects[|o.objects| - 1].addr
  {
    hide Inv, Packed, IsPow2, Step, Suitable, HasRoom, Target;
    value := 0;
    match op
    case MakeRoomOp(n, b) => GnuMacros.MakeRoom(o, n, b);
    case Grow(src, b) => GnuMacros.Grow(o, src, b);
    case Grow0(src, b) => GnuMacros.Grow0(o, src, b);
    case Grow1(x, b) => GnuMacros.Grow1(o, x, b);
    case GrowWord(rep, b) =>
      if |rep| == o.platform.ptrSize {
        GnuMacros.GrowPtr(o, rep, b);
      } else {
        GnuMacros.GrowInt(o, rep, b);
      }
    case Blank(n, b) => GnuMacros.Blank(o, n, b);
    case FinishOp => value := GnuMacros.Finish(o);
    case Alloc(n, b) => value := GnuMacros.Alloc(o, n, b);
    case Copy(src, b) => value := GnuMacros.Copy(o, src, b);
    case Copy0(src, b) => value := GnuMacros.Copy0(o, src, b);
    case FreeOp(i) => GnuMacros.Free(o, obj, i);
  }

  /** One client call on an obstack served by the portable macros; obj is the address to free. */
  method DoPortable(o: Obstack, op: Op, obj: int) returns (value: int)
    requires o.Valid() && Legal(o.View(), op) && PortableFits(o.View(), Length(op), Extra(op))
    requires op.FreeOp? ==> obj == Target(o.View(), op.index).addr
    modifies o
    ensures o.Valid() && o.View() == Step(old(o.View()), op)
    ensures Returns(op) ==> o.objects != [] && value == o.objects[|o.objects| - 1].addr
  {
    hide Inv, Packed, IsPow2, Step, Suitable, HasRoom, Target;
    value := 0;
    match op
    case MakeRoomOp(n, b) => PortableMacros.MakeRoom(o, n, b);
    case Grow(src, b) => PortableMacros.Grow(o, src, b);
    case Grow0(src, b) => PortableMacros.Grow0(o, src, b);
    case Grow1(x, b) => PortableMacros.Grow1(o, x, b);
    case GrowWord(rep, b) =>
      if |rep| == o.platform.ptrSize {
        PortableMacros.GrowPtr(o, rep, b);
      } else {
        PortableMacros.GrowInt(o, rep, b);
      }
    case Blank(n, b) => PortableMacros.Blank(o, n, b);
    case FinishOp => value := PortableMacros.Finish(o);
    case Alloc(n, b) => value := PortableMacros.Alloc(o, n, b);
    case Copy(src, b) => value := PortableMacros.Copy(o, src, b);
    case Copy0(src, b) => value := PortableMacros.Copy0(o, src, b);
    case FreeOp(i) => PortableMacros.Free(o, obj, i);
  }

  /** From equal states, any run of client calls leaves the two families in equal states: the same
      memory, chunks, positions, flag and live objects, after the same calls to the library; and the
      addresses they have returned are the same. Each family is freed with the addresses it returned. */
  method RunBoth(g: Obstack, p: Obstack, ops: seq<Op>, known: seq<int>)
    returns (gnuAddrs: seq<int>, portableAddrs: seq<int>)
    requires g != p && g.Valid() && p.Valid() && g.View() == p.View()
    requires LegalRun(g.View(), ops) && FitsRun(g.View(), ops) && Knows(known, g.objects)
    modifies g, p
    ensures g.Valid() && p.Valid()
    ensures g.View() == p.View() == Run(old(g.View()), ops)
    ensures AbsRun(Abs(old(g.View())), ops, Abs(g.View()))
    ensures Knows(gnuAddrs, g.objects) && portableAddrs == gnuAddrs
  {
    hide Inv, Packed, IsPow2, Step, Abs, AbsRun, Legal;
    ghost var s := g.View();
    RunRefines(s, ops);
    gnuAddrs, portableAddrs := known, known;
    for k := 0 to |ops|
      invariant g.Valid() && p.Valid() && g.View() == p.View()
      invariant LegalRun(g.View(), ops[k..]) && FitsRun(g.View(), ops[k..])
      invariant Run(g.View(), ops[k..]) == Run(s, ops)
      invariant Knows(gnuAddrs, g.objects) && portableAddrs == gnuAddrs
    {
      var op := ops[k];
      assert ops[k..][0] == op && ops[k..][1..] == ops[k + 1..];
      TargetKnown(g.View(), op, gnuAddrs);
      LengthsExact(g.View(), Length(op), Extra(op));
      ghost var t := g.View();
      var a := DoGnu(g, op, ToFree(gnuAddrs, op, g.objectBase));
      var b := DoPortable(p, op, ToFree(portableAddrs, op, p.objectBase));
      KnowsAfter(t, op, gnuAddrs, a);
      gnuAddrs := Remember(gnuAddrs, op, a);
      portableAddrs := Remember(portableAddrs, op, b);
    }
  }

  /** What a client passes to free: the address it was given, or the object base. */
  function ToFree(addrs: seq<int>, op: Op, base: int): int {
    if op.FreeOp? && op.index < |addrs| then addrs[op.index] else base
  }

  lemma TargetKnown(s: State, op: Op, addrs: seq<int>)
    requires Legal(s, op) && Knows(addrs, s.objects)
    ensures op.FreeOp? ==> Target(s, op.index).addr == ToFree(addrs, op, s.base)
  {
  }
}
