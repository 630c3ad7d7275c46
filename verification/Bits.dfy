/** Bitwise operators on unbounded non-negative words, defined bit by bit. */
module Bits {

  function Pow2(k: nat): (r: nat)
    ensures r >= 1
  {
    if k == 0 then 1 else 2 * Pow2(k - 1)
  }

  predicate IsPow2(n: int) {
    n == 1 || (n > 1 && n % 2 == 0 && IsPow2(n / 2))
  }

  lemma {:induction false} Exponent(n: int) returns (k: nat)
    requires IsPow2(n)
    ensures n == Pow2(k)
  {
    if n == 1 {
      k := 0;
    } else {
      var j := Exponent(n / 2);
      k := j + 1;
    }
  }

  lemma {:induction false} Pow2IsPow2(k: nat)
    ensures IsPow2(Pow2(k))
  {
    if k == 0 {
    } else {
      Pow2IsPow2(k - 1);
    }
  }

  lemma PowersOfTwo(n: int)
    ensures IsPow2(n) <==> exists k: nat :: n == Pow2(k)
  {
    if IsPow2(n) {
      var k := Exponent(n);
    }
    if k: nat :| n == Pow2(k) {
      Pow2IsPow2(k);
    }
  }

  /** Bit k of x. */
  predicate Bit(x: nat, k: nat) {
    if k == 0 then x % 2 == 1 else Bit(x / 2, k - 1)
  }

  /** x | y */
  function Or(x: nat, y: nat): nat {
    if x == 0 && y == 0 then 0
    else 2 * Or(x / 2, y / 2) + if x % 2 == 1 || y % 2 == 1 then 1 else 0
  }

  /** x & y */
  function And(x: nat, y: nat): nat {
    if x == 0 then 0
    else 2 * And(x / 2, y / 2) + if x % 2 == 1 && y % 2 == 1 then 1 else 0
  }

  /** x & ~y */
  function AndNot(x: nat, y: nat): nat {
    if x == 0 then 0
    else 2 * AndNot(x / 2, y / 2) + if x % 2 == 1 && y % 2 == 0 then 1 else 0
  }

  lemma {:induction false} BitOfZero(k: nat)
    ensures !Bit(0, k)
  {
    if k == 0 {
    } else {
      BitOfZero(k - 1);
    }
  }

  lemma OrHalves(x: nat, y: nat)
    ensures Or(x, y) / 2 == Or(x / 2, y / 2)
    ensures Or(x, y) % 2 == 1 <==> x % 2 == 1 || y % 2 == 1
  {
  }

  lemma AndHalves(x: nat, y: nat)
    ensures And(x, y) / 2 == And(x / 2, y / 2)
    ensures And(x, y) % 2 == 1 <==> x % 2 == 1 && y % 2 == 1
  {
  }

  lemma AndNotHalves(x: nat, y: nat)
    ensures AndNot(x, y) / 2 == AndNot(x / 2, y / 2)
    ensures AndNot(x, y) % 2 == 1 <==> x % 2 == 1 && y % 2 == 0
  {
  }

  /** The operators act independently on every bit. */
  lemma {:induction false} OrBit(x: nat, y: nat, k: nat)
    ensures Bit(Or(x, y), k) <==> Bit(x, k) || Bit(y, k)
    decreases k
  {
    hide Or;
    OrHalves(x, y);
    if k == 0 {
    } else {
      OrBit(x / 2, y / 2, k - 1);
    }
  }

  lemma {:induction false} AndBit(x: nat, y: nat, k: nat)
    ensures Bit(And(x, y), k) <==> Bit(x, k) && Bit(y, k)
    decreases k
  {
    hide And;
    AndHalves(x, y);
    if k == 0 {
    } else {
      AndBit(x / 2, y / 2, k - 1);
    }
  }

  lemma {:induction false} AndNotBit(x: nat, y: nat, k: nat)
    ensures Bit(AndNot(x, y), k) <==> Bit(x, k) && !Bit(y, k)
    decreases k
  {
    hide AndNot;
    AndNotHalves(x, y);
    if k == 0 {
    } else {
      AndNotBit(x / 2, y / 2, k - 1);
    }
  }

  /** 1 << k has bit k and no other. */
  lemma {:induction false} BitOfPow2(k: nat, j: nat)
    ensures Bit(Pow2(k), j) <==> j == k
    decreases j
  {
    if k == 0 {
      if j > 0 {
        BitOfZero(j - 1);
      }
    } else if j > 0 {
      assert Pow2(k) / 2 == Pow2(k - 1);
      BitOfPow2(k - 1, j - 1);
    }
  }

  /** Testing against a non-zero word: x & y is non-zero exactly when some bit is shared. */
  lemma {:induction false} NonzeroHasBit(x: nat) returns (k: nat)
    requires x > 0
    ensures Bit(x, k)
  {
    if x % 2 == 1 {
      k := 0;
    } else {
      var j := NonzeroHasBit(x / 2);
      k := j + 1;
    }
  }

  lemma TestBit(x: nat, k: nat)
    ensures And(x, Pow2(k)) != 0 <==> Bit(x, k)
  {
    AndBit(x, Pow2(k), k);
    BitOfPow2(k, k);
    BitOfZero(k);
    if And(x, Pow2(k)) != 0 {
      var j := NonzeroHasBit(And(x, Pow2(k)));
      AndBit(x, Pow2(k), j);
      BitOfPow2(k, j);
    }
  }

  /** Words stay words: setting or clearing bit k < width keeps the value below 2^width. */
  lemma {:induction false} StaysInWidth(x: nat, k: nat, width: nat)
    requires x < Pow2(width) && k < width
    ensures Or(x, Pow2(k)) < Pow2(width)
    ensures AndNot(x, Pow2(k)) < Pow2(width)
    decreases width
  {
    OrZero(x / 2);
    AndNotBound(x, Pow2(k));
    if k == 0 {
    } else {
      assert Pow2(k) / 2 == Pow2(k - 1);
      StaysInWidth(x / 2, k - 1, width - 1);
    }
  }

  lemma {:induction false} OrZero(x: nat)
    ensures Or(x, 0) == x
  {
    if x == 0 {
    } else {
      OrZero(x / 2);
    }
  }

  lemma {:induction false} AndNotBound(x: nat, y: nat)
    ensures AndNot(x, y) <= x
  {
    if x == 0 {
    } else {
      AndNotBound(x / 2, y / 2);
    }
  }

  /** The remainder of x by m, by repeated addition or subtraction of m. */
  function Rem(x: int, m: int): (r: int)
    requires m > 0
    ensures 0 <= r < m
    decreases if x < 0 then m - x else x
  {
    if x < 0 then Rem(x + m, m) else if x < m then x else Rem(x - m, m)
  }

  /** Clearing the low k bits rounds down to a multiple of 2^k. */
  lemma {:induction false} AndNotMask(x: nat, k: nat)
    ensures AndNot(x, Pow2(k) - 1) == x - Rem(x, Pow2(k))
    decreases k
  {
    if k == 0 {
      AndNotZero(x);
      RemOne(x);
    } else {
      var h := Pow2(k - 1);
      AndNotOddMask(x, h);
      AndNotMask(x / 2, k - 1);
      RemHalf(x, h);
    }
  }

  lemma {:induction false} AndNotZero(x: nat)
    ensures AndNot(x, 0) == x
  {
    if x == 0 {
    } else {
      AndNotZero(x / 2);
    }
  }

  lemma {:induction false} RemOne(x: nat)
    ensures Rem(x, 1) == 0
  {
    if x == 0 {
    } else {
      RemOne(x - 1);
    }
  }

  lemma AndNotOddMask(x: nat, h: nat)
    requires h > 0
    ensures AndNot(x, 2 * h - 1) == 2 * AndNot(x / 2, h - 1)
  {
  }

  lemma {:induction false} RemHalf(x: nat, h: nat)
    requires h > 0
    ensures Rem(x, 2 * h) == 2 * Rem(x / 2, h) + x % 2
    decreases x
  {
    if x < 2 * h {
    } else {
      assert (x - 2 * h) / 2 == x / 2 - h;
      RemHalf(x - 2 * h, h);
    }
  }

  /** Adding a multiple of m does not change the remainder. */
  lemma {:induction false} RemSum(x: int, y: int, m: int)
    requires m > 0 && Rem(x, m) == 0
    ensures Rem(x + y, m) == Rem(y, m)
    decreases if x < 0 then m - x else x
  {
    if x < 0 {
      RemSum(x + m, y, m);
      RemStep(x + y, m);
    } else if x >= m {
      RemSum(x - m, y, m);
      RemStep(x + y - m, m);
    }
  }

  lemma RemStep(x: int, m: int)
    requires m > 0
    ensures Rem(x + m, m) == Rem(x, m)
  {
  }

  lemma {:induction false} RemRest(x: int, m: int)
    requires m > 0
    ensures Rem(Rem(x, m) - x, m) == 0
    decreases if x < 0 then m - x else x
  {
    if x < 0 {
      RemRest(x + m, m);
      RemStep(Rem(x, m) - x - m, m);
    } else if x >= m {
      RemRest(x - m, m);
      RemStep(Rem(x, m) - x, m);
    }
  }

  lemma {:induction false} RemIsMod(x: int, m: int)
    requires m > 0
    ensures Rem(x, m) == x % m
    decreases if x < 0 then m - x else x
  {
    if x < 0 {
      RemIsMod(x + m, m);
      ModStep(x, m);
    } else if x >= m {
      RemIsMod(x - m, m);
      ModStep(x - m, m);
    }
  }

  lemma ModStep(x: int, m: int)
    requires m > 0
    ensures (x + m) % m == x % m
  {
    var d := (x + m) / m - x / m - 1;
    assert m * d == x % m - (x + m) % m;
    if d != 0 {
      ProductIsFar(m, d);
      assert false;
    }
  }

  lemma ProductIsFar(m: int, d: int)
    requires m > 0 && d != 0
    ensures m * d >= m || m * d <= -m
  {
  }

  lemma {:induction false} AndNotSelf(x: nat)
    ensures AndNot(x, x) == 0
  {
    if x == 0 {
    } else {
      AndNotSelf(x / 2);
    }
  }

  /** (a + 1) & ~a is a + 1 exactly when a + 1 is a power of two. */
  lemma {:induction false} SuccessorTest(a: nat)
    ensures AndNot(a + 1, a) == a + 1 <==> IsPow2(a + 1)
  {
    if a == 0 {
      AndNotZero(1);
    } else if a % 2 == 1 {
      assert (a + 1) / 2 == a / 2 + 1;
      SuccessorTest(a / 2);
    } else {
      AndNotSelf(a / 2);
    }
  }

  // ----- bits as digits

  lemma QuotientOf(x: int, m: int, q: int, r: int)
    requires m > 0 && x == m * q + r && 0 <= r < m
    ensures x / m == q
  {
    assert m * (q - x / m) == x % m - r;
    if q != x / m {
      ProductIsFar(m, q - x / m);
      assert false;
    }
  }

  lemma HalfFirst(x: nat, h: nat)
    requires h > 0
    ensures x / 2 / h == x / (2 * h)
  {
    var q, r := x / 2 / h, x / 2 % h;
    assert x / 2 == h * q + r;
    assert 2 * (h * q) == (2 * h) * q;
    QuotientOf(x, 2 * h, q, 2 * r + x % 2);
  }

  /** Bit k is the digit that 2^k counts. */
  lemma {:induction false} BitIsDigit(x: nat, k: nat)
    ensures Bit(x, k) <==> x / Pow2(k) % 2 == 1
    decreases k
  {
    if k == 0 {
    } else {
      BitIsDigit(x / 2, k - 1);
      HalfFirst(x, Pow2(k - 1));
    }
  }

  /** What setting or clearing one bit does to the value of a word. */
  lemma {:induction false} OneBitByValue(x: nat, k: nat)
    ensures Or(x, Pow2(k)) == x + if Bit(x, k) then 0 else Pow2(k)
    ensures AndNot(x, Pow2(k)) == x - if Bit(x, k) then Pow2(k) else 0
    decreases k
  {
    if k == 0 {
      OrZero(x / 2);
      AndNotZero(x / 2);
    } else {
      assert Pow2(k) / 2 == Pow2(k - 1) && Pow2(k) % 2 == 0;
      OneBitByValue(x / 2, k - 1);
      if x == 0 {
        BitOfZero(k);
      }
    }
  }
}
