/** The object-stack macros as defined for GNU C: arguments evaluated once into locals. */
module GnuMacros {
  import opened Bits
  import opened Align
  import opened Heap
  import opened ObstackSpec
  import opened ObstackPacked
  import opened Obstacks
  import opened ObstackLengths

  method MakeRoom(o: Obstack, length: nat, block: Block)
    requires o.Valid() && Legal(o.View(), Op.MakeRoomOp(length, block))
    requires GnuFits(o.View(), length, 0)
    modifies o
    ensures o.Valid() && o.View() == Step(old(o.View()), Op.MakeRoomOp(length, block))
  {
    hide Inv, Packed, NewChunk, Store, IsPow2, Suitable, AsSigned, Pow2;
    StepValid(o.View(), Op.MakeRoomOp(length, block));
    KeptExactly(length, 0x8000_0000);
    var len := AsInt(length);
    RoomIsWritable(o.View(), len, block);
    if o.chunkLimit - o.nextFree < len {
      o.NewChunk(len, block);
    }
  }

  method Grow(o: Obstack, src: seq<Byte>, block: Block)
    requires o.Valid() && Legal(o.View(), Op.Grow(src, block))
    requires GnuFits(o.View(), |src|, 0)
    modifies o
    ensures o.Valid() && o.View() == Step(old(o.View()), Op.Grow(src, block))
  {
    hide Inv, Packed, NewChunk, Store, IsPow2, Suitable, AsSigned, Pow2;
    StepValid(o.View(), Op.Grow(src, block));
    KeptExactly(|src|, 0x8000_0000);
    var len := AsInt(|src|);
    RoomIsWritable(o.View(), len, block);
    if o.nextFree + len > o.chunkLimit {
      o.NewChunk(len, block);
    }
    assert src[..len] == src;
    o.Put(o.nextFree, src[..len]);
    o.nextFree := o.nextFree + len;
  }

  method Grow0(o: Obstack, src: seq<Byte>, block: Block)
    requires o.Valid() && Legal(o.View(), Op.Grow0(src, block))
    requires GnuFits(o.View(), |src|, 1)
    modifies o
    ensures o.Valid() && o.View() == Step(old(o.View()), Op.Grow0(src, block))
  {
    hide Inv, Packed, NewChunk, Store, IsPow2, Suitable, AsSigned, Pow2;
    StepValid(o.View(), Op.Grow0(src, block));
    KeptExactly(|src|, 0x8000_0000);
    var len := AsInt(|src|);
    RoomIsWritable(o.View(), len + 1, block);
    if o.nextFree + len + 1 > o.chunkLimit {
      o.NewChunk(len + 1, block);
    }
    StoreTwice(o.mem, o.nextFree, src, [0]);
    assert src[..len] == src;
    o.Put(o.nextFree, src[..len]);
    o.nextFree := o.nextFree + len;
    o.Put(o.nextFree, [0]);
    o.nextFree := o.nextFree + 1;
  }

  method Grow1(o: Obstack, datum: Byte, block: Block)
    requires o.Valid() && Legal(o.View(), Op.Grow1(datum, block))
    modifies o
    ensures o.Valid() && o.View() == Step(old(o.View()), Op.Grow1(datum, block))
  {
    hide Inv, Packed, NewChunk, Store, IsPow2, Suitable, AsSigned, Pow2;
    StepValid(o.View(), Op.Grow1(datum, block));
    RoomIsWritable(o.View(), 1, block);
    if o.nextFree + 1 > o.chunkLimit {
      o.NewChunk(1, block);
    }
    o.Put(o.nextFree, [datum]);
    o.nextFree := o.nextFree + 1;
  }

  method GrowPtr(o: Obstack, rep: seq<Byte>, block: Block)
    requires o.Valid() && |rep| == o.platform.ptrSize && Legal(o.View(), Op.GrowWord(rep, block))
    modifies o
    ensures o.Valid() && o.View() == Step(old(o.View()), Op.GrowWord(rep, block))
  {
    hide Inv, Packed, NewChunk, Store, IsPow2, Suitable, AsSigned, Pow2;
    StepValid(o.View(), Op.GrowWord(rep, block));
    RoomIsWritable(o.View(), o.platform.ptrSize, block);
    if o.nextFree + o.platform.ptrSize > o.chunkLimit {
      o.NewChunk(o.platform.ptrSize, block);
    }
    var p := o.nextFree;
    o.Put(p, rep);
    o.nextFree := o.nextFree + o.platform.ptrSize;
  }

  method GrowInt(o: Obstack, rep: seq<Byte>, block: Block)
    requires o.Valid() && |rep| == o.platform.intSize && Legal(o.View(), Op.GrowWord(rep, block))
    modifies o
    ensures o.Valid() && o.View() == Step(old(o.View()), Op.GrowWord(rep, block))
  {
    hide Inv, Packed, NewChunk, Store, IsPow2, Suitable, AsSigned, Pow2;
    StepValid(o.View(), Op.GrowWord(rep, block));
    RoomIsWritable(o.View(), o.platform.intSize, block);
    if o.nextFree + o.platform.intSize > o.chunkLimit {
      o.NewChunk(o.platform.intSize, block);
    }
    var p := o.nextFree;
    o.Put(p, rep);
    o.nextFree := o.nextFree + o.platform.intSize;
  }

  method Blank(o: Obstack, length: nat, block: Block)
    requires o.Valid() && Legal(o.View(), Op.Blank(length, block))
    requires GnuFits(o.View(), length, 0)
    modifies o
    ensures o.Valid() && o.View() == Step(old(o.View()), Op.Blank(length, block))
  {
    hide Inv, Packed, NewChunk, Store, IsPow2, Suitable, AsSigned, Pow2;
    StepValid(o.View(), Op.Blank(length, block));
    KeptExactly(length, 0x8000_0000);
    var len := AsInt(length);
    RoomIsWritable(o.View(), len, block);
    if o.chunkLimit - o.nextFree < len {
      o.NewChunk(len, block);
    }
    o.nextFree := o.nextFree + len;
  }

  method Finish(o: Obstack) returns (value: int)
    requires o.Valid() && Legal(o.View(), Op.FinishOp)
    modifies o
    ensures o.Valid() && o.View() == Step(old(o.View()), Op.FinishOp)
    ensures o.maybeEmptyObject <==> old(o.maybeEmptyObject) || old(o.nextFree == o.objectBase)
    ensures o.objects != [] && value == o.objects[|o.objects| - 1].addr
  {
    hide Inv, Packed, PtrAlign, IsPow2, Follow;
    StepValid(o.View(), Op.FinishOp);
    FinishAlign(o.View());
    ghost var made := Object(o.objectBase, o.nextFree - o.objectBase, |o.chunks| - 1);
    value := o.objectBase;
    if o.nextFree == value {
      o.maybeEmptyObject := true;
    }
    o.nextFree := PtrAlign(o.platform, o.objectBase, o.nextFree, o.alignmentMask);
    if o.nextFree - o.Current().addr > o.chunkLimit - o.Current().addr {
      o.nextFree := o.chunkLimit;
    }
    o.objectBase := o.nextFree;
    o.objects := o.objects + [made];
  }

  method Alloc(o: Obstack, length: nat, block: Block) returns (value: int)
    requires o.Valid() && Legal(o.View(), Op.Alloc(length, block))
    requires GnuFits(o.View(), length, 0)
    modifies o
    ensures o.Valid() && o.View() == Step(old(o.View()), Op.Alloc(length, block))
    ensures o.objects != [] && value == o.objects[|o.objects| - 1].addr
  {
    hide Inv, Packed, NewChunk, Store, IsPow2, Suitable, AsSigned, Pow2;
    StepValid(o.View(), Op.Alloc(length, block));
    Blank(o, length, block);
    value := Finish(o);
  }

  method Copy(o: Obstack, src: seq<Byte>, block: Block) returns (value: int)
    requires o.Valid() && Legal(o.View(), Op.Copy(src, block))
    requires GnuFits(o.View(), |src|, 0)
    modifies o
    ensures o.Valid() && o.View() == Step(old(o.View()), Op.Copy(src, block))
    ensures o.objects != [] && value == o.objects[|o.objects| - 1].addr
  {
    hide Inv, Packed, NewChunk, Store, IsPow2, Suitable, AsSigned, Pow2;
    StepValid(o.View(), Op.Copy(src, block));
    Grow(o, src, block);
    value := Finish(o);
  }

  method Copy0(o: Obstack, src: seq<Byte>, block: Block) returns (value: int)
    requires o.Valid() && Legal(o.View(), Op.Copy0(src, block))
    requires GnuFits(o.View(), |src|, 1)
    modifies o
    ensures o.Valid() && o.View() == Step(old(o.View()), Op.Copy0(src, block))
    ensures o.objects != [] && value == o.objects[|o.objects| - 1].addr
  {
    hide Inv, Packed, NewChunk, Store, IsPow2, Suitable, AsSigned, Pow2;
    StepValid(o.View(), Op.Copy0(src, block));
    Grow0(o, src, block);
    value := Finish(o);
  }

  /** obj is the address of live object number i, or the base of the growing object when i is their number. */
  method Free(o: Obstack, obj: int, ghost i: nat)
    requires o.Valid() && i <= |o.objects| && obj == Target(o.View(), i).addr
    modifies o
    ensures o.Valid() && o.View() == Step(old(o.View()), Op.FreeOp(i))
  {
    hide Inv, Packed, IsPow2, Unwind;
    StepValid(o.View(), Op.FreeOp(i));
    if obj > o.Current().addr && obj < o.chunkLimit {
      FreeIsFast(o.View(), i);
      o.objectBase := obj;
      o.nextFree := o.objectBase;
      o.objects := o.objects[..i];
    } else {
      o.FreeSlowly(obj, i);
    }
  }
}
