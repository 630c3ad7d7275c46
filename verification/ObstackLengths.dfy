/** Lengths as C integers: where the macros' conversions begin to matter. */
module ObstackLengths {
  import opened Bits
  import opened ObstackSpec

  /** The value of n after conversion to a signed type that holds -half, ..., half - 1. */
  function AsSigned(n: int, half: int): (r: int)
    requires half > 0
    ensures -half <= r < half
  {
    (n + half) % (2 * half) - half
  }

  /** The value of n after conversion to a 32-bit int. */
  function AsInt(n: int): int {
    AsSigned(n, 0x8000_0000)
  }

  /** The value of n once it is stored in temp.tempint. */
  function AsTemp(s: State, n: int): int
    requires s.cfg.platform.Sane()
  {
    AsSigned(n, s.cfg.platform.Half())
  }

  /** What is passed to _obstack_newchunk, if it is called; Undefined when computing it overflows. */
  datatype Ask = NoCall | Asks(length: int) | Undefined

  /** What one grow or grow0 of a length does: its request, the bytes copied, and how far next_free moves. */
  datatype Plan = Plan(ask: Ask, copies: int, advances: int)

  /** The meaning of lengths in the rest of the model; extra is 1 where a terminator follows. */
  function Intended(s: State, n: nat, extra: nat): Plan {
    Plan(if HasRoom(s, n + extra) then NoCall else Asks(n + extra), n, n + extra)
  }

  /** GNU C: the length is converted to int at once, and the argument computed in int. */
  function Gnu(s: State, n: nat, extra: nat): Plan {
    var len := AsInt(n);
    Plan(if s.next + len + extra <= s.limit then NoCall
         else if len + extra < 0x8000_0000 then Asks(len + extra) else Undefined,
         len, len + extra)
  }

  /** Elsewhere: the length is kept in temp, the argument computed in temp's type and converted to int. */
  function Portable(s: State, n: nat, extra: nat): Plan
    requires s.cfg.platform.Sane()
  {
    var temp := AsTemp(s, n);
    Plan(if s.next + temp + extra <= s.limit then NoCall
         else if temp + extra < s.cfg.platform.Half() then Asks(AsInt(temp + extra)) else Undefined,
         temp, temp + extra)
  }

  predicate GnuFits(s: State, n: nat, extra: nat) {
    n < 0x8000_0000 && (n + extra < 0x8000_0000 || HasRoom(s, n + extra))
  }

  predicate PortableFits(s: State, n: nat, extra: nat)
    requires s.cfg.platform.Sane()
  {
    n < s.cfg.platform.Half() && (n + extra < 0x8000_0000 || HasRoom(s, n + extra))
  }

  lemma EightMore(k: nat)
    ensures Pow2(k + 8) == 0x100 * Pow2(k)
  {
    assert Pow2(k + 4) == 4 * Pow2(k + 2);
    assert Pow2(k + 6) == 4 * Pow2(k + 4);
  }

  lemma {:induction false} Pow2Multiple(k: nat)
    requires k >= 31
    ensures Pow2(k) % 0x8000_0000 == 0 && (k > 31 ==> Pow2(k) > 0x8000_0000)
    ensures k == 31 ==> Pow2(k) == 0x8000_0000
  {
    if k == 31 {
      EightMore(23);
      EightMore(15);
      EightMore(7);
      assert Pow2(3) == 8 && Pow2(5) == 32 && Pow2(7) == 128;
    } else {
      Pow2Multiple(k - 1);
    }
  }

  /** What holds of the width of temp on every platform. */
  lemma HalfFacts(s: State)
    requires s.cfg.platform.Sane()
    ensures var half := s.cfg.platform.Half();
            && half % 0x8000_0000 == 0 && half >= 0x8000_0000
            && (half == 0x8000_0000 <==> s.cfg.platform.ptrIntSize == 4)
  {
    Pow2Multiple(8 * s.cfg.platform.ptrIntSize - 1);
  }

  /** Values below half are kept; those from half to twice half come out negative. */
  lemma SignedValue(n: nat, half: nat)
    requires half > 0 && n < 2 * half
    ensures AsSigned(n, half) == if n < half then n else n - 2 * half
  {
    hide Rem;
    RemIsMod(n + half, 2 * half);
    RemSmall(n + half, 2 * half);
  }

  lemma RemSmall(x: nat, m: nat)
    requires m > 0 && x < 2 * m
    ensures Rem(x, m) == if x < m then x else x - m
  {
  }

  lemma KeptExactly(n: nat, half: nat)
    requires half > 0
    ensures AsSigned(n, half) == n <==> n < half
  {
    if n < half {
      SignedValue(n, half);
    }
  }

  /** Each family does what is meant exactly for the lengths its conversions keep; and a request must fit an
      int, terminator included. */
  lemma LengthsExact(s: State, n: nat, extra: nat)
    requires extra <= 1 && s.cfg.platform.Sane()
    ensures Gnu(s, n, extra) == Intended(s, n, extra) <==> GnuFits(s, n, extra)
    ensures Portable(s, n, extra) == Intended(s, n, extra) <==> PortableFits(s, n, extra)
    ensures GnuFits(s, n, extra) ==> PortableFits(s, n, extra)
  {
    hide AsSigned;
    HalfFacts(s);
    KeptExactly(n, 0x8000_0000);
    KeptExactly(n, s.cfg.platform.Half());
    KeptExactly(n + extra, 0x8000_0000);
  }

  /** The two families do the same, and something defined, exactly when both conversions of the length give the
      same value, unless that is the largest int, a terminator follows and there is no room for it. */
  lemma FamiliesAgreeOnLength(s: State, n: nat, extra: nat)
    requires extra <= 1 && s.cfg.platform.Sane()
    ensures Gnu(s, n, extra) == Portable(s, n, extra) && Gnu(s, n, extra).ask != Undefined <==>
              AsTemp(s, n) == AsInt(n) &&
              !(extra == 1 && AsInt(n) == 0x7FFF_FFFF && s.next + 0x8000_0000 > s.limit)
  {
    hide AsSigned;
    HalfFacts(s);
    var len := AsInt(n);
    IntKeepsInts(len + extra);
  }

  lemma IntKeepsInts(n: int)
    ensures -0x8000_0000 <= n < 0x8000_0000 ==> AsInt(n) == n
  {
  }

  /** The conversions give the same value exactly below 2^31 and within 2^31 of the end of the unsigned range:
      everywhere when temp is as narrow as int. */
  lemma SameConversionExactly(s: State, n: nat)
    requires s.cfg.platform.Sane() && n < 2 * s.cfg.platform.Half()
    ensures AsTemp(s, n) == AsInt(n) <==> n < 0x8000_0000 || n >= 2 * s.cfg.platform.Half() - 0x8000_0000
  {
    HalfFacts(s);
    var half := s.cfg.platform.Half();
    SignedValue(n, half);
    var t := if n < half then n else n - 2 * half;
    SameIntFor(n, t, half);
  }

  lemma SameIntFor(n: int, t: int, half: nat)
    requires half % 0x8000_0000 == 0 && (t == n || t == n - 2 * half)
    ensures AsInt(n) == AsInt(t)
  {
  }

  /** With a 32-bit temp the families treat every length alike. */
  lemma NarrowTempAgrees(s: State, n: nat, extra: nat)
    requires extra <= 1 && s.cfg.platform.Sane() && s.cfg.platform.ptrIntSize == 4
    ensures Gnu(s, n, extra) == Portable(s, n, extra)
  {
    hide AsSigned;
    HalfFacts(s);
    IntKeepsInts(AsInt(n) + extra);
  }

  /** With a wider temp, the smallest length for which they differ: GNU C sees a negative length and requests
      no chunk; the portable macro requests one for that negative length, and copies it all. */
  lemma FirstDifference(s: State)
    requires s.cfg.platform.Sane() && s.cfg.platform.ptrIntSize > 4
    requires 0 <= s.limit - s.next < 0x8000_0000
    ensures var n := 0x8000_0000;
            && Gnu(s, n, 0) == Plan(NoCall, -n, -n)
            && Portable(s, n, 0) == Plan(Asks(-n), n, n)
  {
    HalfFacts(s);
    KeptExactly(0x8000_0000, s.cfg.platform.Half());
  }

  // ----- operations and runs

  /** The length an operation is given, and the room it adds to it. */
  function Length(op: Op): nat {
    match op
    case MakeRoomOp(n, _) => n
    case Grow(src, _) => |src|
    case Grow0(src, _) => |src|
    case Blank(n, _) => n
    case Alloc(n, _) => n
    case Copy(src, _) => |src|
    case Copy0(src, _) => |src|
    case _ => 0
  }

  function Extra(op: Op): nat {
    if op.Grow0? || op.Copy0? then 1 else 0
  }

  /** Every length of a run fits the conversions where it is used. */
  ghost predicate FitsRun(s: State, ops: seq<Op>)
    requires LegalRun(s, ops)
    decreases |ops|
  {
    ops == [] || (GnuFits(s, Length(ops[0]), Extra(ops[0])) && FitsRun(Step(s, ops[0]), ops[1..]))
  }
}
