/** Byte-addressed memory: exactly the allocated addresses are in the map. */
module Heap {

  newtype Byte = x: int | 0 <= x < 256

  type Memory = map<int, Byte>

  /** The bytes at lo, lo + 1, ..., hi - 1. */
  function Read(m: Memory, lo: int, hi: int): (r: seq<Byte>)
    ensures |r| == if lo <= hi then hi - lo else 0
  {
    if lo <= hi then seq(hi - lo, i => if lo + i in m then m[lo + i] else 0) else []
  }

  /** m with bytes placed from address p on. */
  function Store(m: Memory, p: int, bytes: seq<Byte>): Memory
    decreases |bytes|
  {
    if bytes == [] then m else Store(m[p := bytes[0]], p + 1, bytes[1..])
  }

  /** m without the addresses lo, ..., hi - 1. */
  function Erase(m: Memory, lo: int, hi: int): Memory
    decreases hi - lo
  {
    if lo >= hi then m else Erase(m - {lo}, lo + 1, hi)
  }

  lemma {:induction false} StoreAt(m: Memory, p: int, bytes: seq<Byte>, a: int)
    ensures a in Store(m, p, bytes) <==> a in m || p <= a < p + |bytes|
    ensures p <= a < p + |bytes| ==> Store(m, p, bytes)[a] == bytes[a - p]
    ensures a in m && !(p <= a < p + |bytes|) ==> Store(m, p, bytes)[a] == m[a]
    decreases |bytes|
  {
    if bytes == [] {
    } else {
      StoreAt(m[p := bytes[0]], p + 1, bytes[1..], a);
    }
  }

  lemma {:induction false} EraseAt(m: Memory, lo: int, hi: int, a: int)
    ensures a in Erase(m, lo, hi) <==> a in m && !(lo <= a < hi)
    ensures a in m && !(lo <= a < hi) ==> Erase(m, lo, hi)[a] == m[a]
    decreases hi - lo
  {
    if lo >= hi {
    } else {
      EraseAt(m - {lo}, lo + 1, hi, a);
    }
  }

  lemma StoreMeaning(m: Memory, p: int, bytes: seq<Byte>)
    ensures forall a :: a in Store(m, p, bytes) <==> a in m || p <= a < p + |bytes|
    ensures forall a | a in Store(m, p, bytes) ::
              Store(m, p, bytes)[a] == if p <= a < p + |bytes| then bytes[a - p] else m[a]
  {
    forall a
      ensures a in Store(m, p, bytes) <==> a in m || p <= a < p + |bytes|
      ensures a in Store(m, p, bytes) ==>
                Store(m, p, bytes)[a] == if p <= a < p + |bytes| then bytes[a - p] else m[a]
    {
      StoreAt(m, p, bytes, a);
    }
  }

  lemma EraseMeaning(m: Memory, lo: int, hi: int)
    ensures forall a :: a in Erase(m, lo, hi) <==> a in m && !(lo <= a < hi)
    ensures forall a | a in Erase(m, lo, hi) :: Erase(m, lo, hi)[a] == m[a]
  {
    forall a
      ensures a in Erase(m, lo, hi) <==> a in m && !(lo <= a < hi)
      ensures a in Erase(m, lo, hi) ==> Erase(m, lo, hi)[a] == m[a]
    {
      EraseAt(m, lo, hi, a);
    }
  }

  ghost predicate Mapped(m: Memory, lo: int, hi: int) {
    forall a | lo <= a < hi :: a in m
  }

  /** m and n hold the same bytes at lo, ..., hi - 1. */
  ghost predicate Agree(m: Memory, n: Memory, lo: int, hi: int) {
    forall a | lo <= a < hi :: a in m && a in n && m[a] == n[a]
  }

  lemma ReadAgree(m: Memory, n: Memory, lo: int, hi: int)
    requires Agree(m, n, lo, hi)
    ensures Read(m, lo, hi) == Read(n, lo, hi)
  {
  }

  lemma ReadStored(m: Memory, p: int, bytes: seq<Byte>)
    ensures Read(Store(m, p, bytes), p, p + |bytes|) == bytes
  {
    StoreMeaning(m, p, bytes);
    var r := Read(Store(m, p, bytes), p, p + |bytes|);
    forall i | 0 <= i < |bytes|
      ensures r[i] == bytes[i]
    {
      assert p + i in Store(m, p, bytes);
    }
  }

  lemma ReadSplit(m: Memory, lo: int, mid: int, hi: int)
    requires lo <= mid <= hi
    ensures Read(m, lo, hi) == Read(m, lo, mid) + Read(m, mid, hi)
  {
  }

  lemma {:induction false} StoreTwice(m: Memory, p: int, xs: seq<Byte>, ys: seq<Byte>)
    ensures Store(Store(m, p, xs), p + |xs|, ys) == Store(m, p, xs + ys)
    decreases |xs|
  {
    if xs == [] {
      assert xs + ys == ys;
    } else {
      StoreTwice(m[p := xs[0]], p + 1, xs[1..], ys);
      assert (xs + ys)[1..] == xs[1..] + ys;
    }
  }
}
