/** The alignment macros of the object stack. */
module Align {
  import opened Bits

  /** The sizes the macros consult: of the pointer-difference type, of a pointer, of an int. */
  datatype Platform = Platform(ptrIntSize: nat, ptrSize: nat, intSize: nat) {

    /** Sizes a C implementation with 32-bit int may have. */
    predicate Sane() {
      4 <= ptrIntSize && 0 < ptrSize < 0x8000_0000 && intSize < 0x8000_0000
    }

    /** The pointer-difference type holds the values from -Half() up to but not including Half(). */
    function Half(): nat
      requires Sane()
    {
      Pow2(8 * ptrIntSize - 1)
    }

    /** Pointers cannot be converted to integers and back, so alignment is relative to the base. */
    predicate Narrow() {
      ptrIntSize < ptrSize
    }

    /** The address that alignment inside the block at b is relative to. */
    function Origin(b: int): int {
      if Narrow() then b else 0
    }
  }

  function BPtrAlign(b: nat, p: nat, a: nat): nat
    requires b <= p
  {
    b + AndNot(p - b + a, a)
  }

  function PtrAlign(platform: Platform, b: nat, p: nat, a: nat): nat
    requires b <= p
  {
    if platform.Narrow() then BPtrAlign(b, p, a) else BPtrAlign(0, p, a)
  }

  /** Addresses p and b differ by a multiple of m. */
  predicate Congruent(b: int, p: int, m: int)
    requires m > 0
  {
    Rem(p - b, m) == 0
  }

  /** r is the least address at or above p that differs from b by a multiple of m. */
  ghost predicate LeastAligned(b: int, p: int, m: int, r: int)
    requires m > 0
  {
    && p <= r
    && Congruent(b, r, m)
    && forall q | p <= q < r :: !Congruent(b, q, m)
  }

  lemma CongruentTransitive(b: int, c: int, p: int, m: int)
    requires m > 0 && Congruent(b, c, m)
    ensures Congruent(b, p, m) <==> Congruent(c, p, m)
  {
    RemSum(c - b, p - c, m);
  }

  lemma LeastAlignedFromBounds(b: int, p: int, m: int, r: int)
    requires m > 0 && Congruent(b, r, m) && p <= r < p + m
    ensures LeastAligned(b, p, m, r)
  {
    forall q | p <= q < r
      ensures !Congruent(b, q, m)
    {
      RemSum(r - b, q - r, m);
    }
  }

  lemma LeastAlignedUnique(b: int, p: int, m: int, r: int, q: int)
    requires m > 0 && LeastAligned(b, p, m, r) && LeastAligned(b, p, m, q)
    ensures r == q
  {
  }

  /** Rounding up, said arithmetically. */
  function AlignUp(b: int, p: int, m: int): (r: int)
    requires m > 0
    ensures p <= r < p + m
  {
    p + Rem(b - p, m)
  }

  lemma AlignUpIsLeast(b: int, p: int, m: int)
    requires m > 0
    ensures LeastAligned(b, p, m, AlignUp(b, p, m))
  {
    RemRest(b - p, m);
    LeastAlignedFromBounds(b, p, m, AlignUp(b, p, m));
  }

  /** For a power of two, the bit trick rounds up to the next multiple. */
  lemma BPtrAlignIsLeast(b: nat, p: nat, a: nat)
    requires b <= p && IsPow2(a + 1)
    ensures LeastAligned(b, p, a + 1, BPtrAlign(b, p, a))
  {
    hide AndNot, IsPow2, Pow2, LeastAligned;
    var k := Exponent(a + 1);
    var x := p - b + a;
    AndNotMask(x, k);
    RemRest(x, a + 1);
    RemOfMinus(Rem(x, a + 1) - x, a + 1);
    LeastAlignedFromBounds(b, p, a + 1, BPtrAlign(b, p, a));
  }

  lemma RemOfMinus(x: int, m: int)
    requires m > 0 && Rem(x, m) == 0
    ensures Rem(-x, m) == 0
  {
    RemSum(x, -x, m);
  }

  /** The bit trick aligns every address exactly when a + 1 is a power of two. */
  lemma AlignsExactlyForPowersOfTwo(a: nat)
    ensures IsPow2(a + 1) <==>
            forall b: nat, p: nat | b <= p :: LeastAligned(b, p, a + 1, BPtrAlign(b, p, a))
  {
    if IsPow2(a + 1) {
      forall b: nat, p: nat | b <= p
        ensures LeastAligned(b, p, a + 1, BPtrAlign(b, p, a))
      {
        BPtrAlignIsLeast(b, p, a);
      }
    } else {
      // rounding 1 up should give a + 1
      SuccessorTest(a);
      var r := BPtrAlign(0, 1, a);
      AndNotBound(a + 1, a);
      if LeastAligned(0, 1, a + 1, r) {
        assert false;
      }
    }
  }

  lemma SameOrigin(c: int, b: int, p: int, m: int, r: int)
    requires m > 0 && Congruent(c, b, m) && LeastAligned(b, p, m, r)
    ensures LeastAligned(c, p, m, r)
  {
    CongruentTransitive(c, b, r, m);
    forall q | p <= q < r
      ensures !Congruent(c, q, m)
    {
      CongruentTransitive(c, b, q, m);
    }
  }

  /** At every address from b on, aligning relative to b and relative to 0 agree exactly when b is aligned. */
  lemma BaseFormsAgree(b: nat, p: nat, a: nat)
    requires b <= p && IsPow2(a + 1)
    ensures BPtrAlign(b, p, a) == BPtrAlign(0, p, a) <==> Congruent(0, b, a + 1)
  {
    var r, q, m := BPtrAlign(b, p, a), BPtrAlign(0, p, a), a + 1;
    BPtrAlignIsLeast(b, p, a);
    BPtrAlignIsLeast(0, p, a);
    if Congruent(0, b, m) {
      SameOrigin(0, b, p, m, r);
      LeastAlignedUnique(0, p, m, r, q);
    }
    if r == q {
      // r is a multiple of m away from b and from 0
      RemOfMinus(r - b, m);
      RemSum(r, b - r, m);
    }
  }

  lemma BPtrAlignIsAlignUp(b: nat, p: nat, a: nat)
    requires b <= p && IsPow2(a + 1)
    ensures BPtrAlign(b, p, a) == AlignUp(b, p, a + 1)
  {
    BPtrAlignIsLeast(b, p, a);
    AlignUpIsLeast(b, p, a + 1);
    LeastAlignedUnique(b, p, a + 1, BPtrAlign(b, p, a), AlignUp(b, p, a + 1));
  }

  /** The macro, by the sizes it compares: it rounds up to a multiple of a + 1 counted from 0, or from the base
      where the pointer-difference type is the smaller. */
  lemma PtrAlignBySizes(platform: Platform, b: nat, p: nat, a: nat)
    requires b <= p && IsPow2(a + 1)
    ensures var r := PtrAlign(platform, b, p, a);
            && p <= r <= p + a
            && (platform.ptrIntSize >= platform.ptrSize ==> LeastAligned(0, p, a + 1, r) && r % (a + 1) == 0)
            && (platform.ptrIntSize < platform.ptrSize ==> LeastAligned(b, p, a + 1, r) && (r - b) % (a + 1) == 0)
  {
    var o := if platform.ptrIntSize < platform.ptrSize then b else 0;
    var r := BPtrAlign(o, p, a);
    BPtrAlignIsLeast(o, p, a);
    BPtrAlignIsAlignUp(o, p, a);
    RemIsMod(r - o, a + 1);
  }

  lemma OriginBySizes(platform: Platform, b: int)
    ensures platform.Origin(b) == if platform.ptrIntSize >= platform.ptrSize then 0 else b
  {
  }
}
