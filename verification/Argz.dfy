/** Iterating over argz vectors: strings laid out one after another, each followed by a NUL. */
module Argz {

  const NUL := '\0'

  /** A pointer: null, or to the character at an offset from the start of the vector. */
  datatype Pointer = Null | At(offset: nat)

  /** A non-empty vector ends with a NUL. */
  predicate Vector(argz: string) {
    argz == [] || argz[|argz| - 1] == NUL
  }

  /** No NUL at i, ..., e - 1. */
  predicate Clean(argz: string, i: nat, e: nat) {
    e <= |argz| && forall k | i <= k < e :: argz[k] != NUL
  }

  /** strchr(argz + i, '\0') */
  function StrEnd(argz: string, i: nat): (r: nat)
    requires Vector(argz) && i < |argz|
    ensures i <= r < |argz|
    decreases |argz| - i
  {
    if argz[i] == NUL then i else StrEnd(argz, i + 1)
  }

  lemma {:induction false} StrEndMeaning(argz: string, i: nat)
    requires Vector(argz) && i < |argz|
    ensures argz[StrEnd(argz, i)] == NUL && Clean(argz, i, StrEnd(argz, i))
    decreases |argz| - i
  {
    if argz[i] == NUL {
    } else {
      StrEndMeaning(argz, i + 1);
    }
  }

  lemma EndFound(argz: string, i: nat, e: nat)
    requires Vector(argz) && i <= e < |argz| && argz[e] == NUL && Clean(argz, i, e)
    ensures StrEnd(argz, i) == e
  {
    StrEndMeaning(argz, i);
  }

  function ArgzNext(argz: string, entry: Pointer): Pointer
    requires Vector(argz)
  {
    match entry
    case At(i) =>
      var e := if i < |argz| then StrEnd(argz, i) + 1 else i;
      if e >= |argz| then Null else At(e)
    case Null => if |argz| > 0 then At(0) else Null
  }

  /** Offsets of the entries from i on. */
  function Entries(argz: string, i: nat): seq<nat>
    requires Vector(argz)
    decreases |argz| - i
  {
    if i >= |argz| then [] else [i] + Entries(argz, StrEnd(argz, i) + 1)
  }

  /** The strings stored from i on. */
  function Strings(argz: string, i: nat): seq<string>
    requires Vector(argz)
    decreases |argz| - i
  {
    if i >= |argz| then [] else [argz[i..StrEnd(argz, i)]] + Strings(argz, StrEnd(argz, i) + 1)
  }

  /** The vector that stores these strings. */
  function Layout(strings: seq<string>): string {
    if strings == [] then "" else strings[0] + [NUL] + Layout(strings[1..])
  }

  predicate NulFree(strings: seq<string>) {
    forall k | 0 <= k < |strings| :: NUL !in strings[k]
  }

  /** From any pointer into the vector, even inside an entry, the result is the character after the next NUL, or
      null when that NUL is the last character; from a pointer past the end it is null. The null pointer starts
      the iteration, which ends at once for the empty vector. */
  lemma NextIsFollowingEntry(argz: string, i: nat)
    requires Vector(argz)
    ensures match ArgzNext(argz, At(i))
            case Null => forall k | i <= k < |argz| - 1 :: argz[k] != '\0'
            case At(e) => i < e < |argz| && argz[e - 1] == '\0' && forall k | i <= k < e - 1 :: argz[k] != '\0'
    ensures ArgzNext(argz, Null) == if argz == [] then Null else At(0)
  {
    if i < |argz| {
      StrEndMeaning(argz, i);
    }
  }

  /** The number of NULs from i on. */
  function CountNul(argz: string, i: nat): nat
    decreases |argz| - i
  {
    if i >= |argz| then 0 else (if argz[i] == NUL then 1 else 0) + CountNul(argz, i + 1)
  }

  lemma {:induction false} CountSkips(argz: string, i: nat, e: nat)
    requires i <= e < |argz| && argz[e] == NUL && Clean(argz, i, e)
    ensures CountNul(argz, i) == 1 + CountNul(argz, e + 1)
    decreases e - i
  {
    if i == e {
    } else {
      CountSkips(argz, i + 1, e);
    }
  }

  /** A full iteration visits as many entries as there are NULs. */
  lemma {:induction false} OneEntryPerNul(argz: string, i: nat)
    requires Vector(argz)
    ensures |Entries(argz, i)| == CountNul(argz, i)
    decreases |argz| - i
  {
    if i >= |argz| {
    } else {
      var e := StrEnd(argz, i);
      StrEndMeaning(argz, i);
      CountSkips(argz, i, e);
      OneEntryPerNul(argz, e + 1);
    }
  }

  /** Entry k starts at offset Entries[k] and is string number k. */
  lemma {:induction false} EntriesHoldStrings(argz: string, i: nat)
    requires Vector(argz)
    ensures |Entries(argz, i)| == |Strings(argz, i)|
    ensures forall k | 0 <= k < |Entries(argz, i)| ::
              Entries(argz, i)[k] < |argz|
              && argz[Entries(argz, i)[k]..StrEnd(argz, Entries(argz, i)[k])] == Strings(argz, i)[k]
    decreases |argz| - i
  {
    if i >= |argz| {
    } else {
      EntriesHoldStrings(argz, StrEnd(argz, i) + 1);
    }
  }

  lemma LayoutCons(head: string, rest: seq<string>)
    ensures Layout([head] + rest) == head + [NUL] + Layout(rest)
  {
    assert ([head] + rest)[1..] == rest;
  }

  /** A string and its NUL, with anything before and anything after them. */
  lemma InTheMiddle(before: string, s: string, after: string)
    requires NUL !in s
    ensures var argz, i, e := before + (s + [NUL] + after), |before|, |before| + |s|;
            && argz == (before + (s + [NUL])) + after
            && e < |argz| && argz[i..e] == s && argz[e] == NUL && Clean(argz, i, e)
  {
    var argz, i, e := before + (s + [NUL] + after), |before|, |before| + |s|;
    assert forall k | i <= k < e :: argz[k] == s[k - i] && s[k - i] in s;
  }

  /** Laying out strings and reading them back gives the same strings, whatever precedes them. */
  lemma {:induction false} ReadBack(before: string, strings: seq<string>)
    requires NulFree(strings) && (strings == [] ==> Vector(before))
    ensures Vector(before + Layout(strings))
    ensures Strings(before + Layout(strings), |before|) == strings
    decreases |strings|
  {
    if strings == [] {
      assert before + Layout(strings) == before;
    } else {
      hide Layout, StrEnd;
      assert strings == [strings[0]] + strings[1..];
      var rest, e := strings[1..], |before| + |strings[0]|;
      LayoutCons(strings[0], rest);
      InTheMiddle(before, strings[0], Layout(rest));
      assert NulFree(rest);
      ReadBack(before + (strings[0] + [NUL]), rest);
      EndFound(before + Layout(strings), |before|, e);
      assert |before + (strings[0] + [NUL])| == e + 1;
    }
  }

  lemma RoundTrip(strings: seq<string>)
    requires NulFree(strings)
    ensures Vector(Layout(strings)) && Strings(Layout(strings), 0) == strings
  {
    ReadBack([], strings);
    assert [] + Layout(strings) == Layout(strings);
  }

  lemma {:induction false} StringsNulFree(argz: string, i: nat)
    requires Vector(argz)
    ensures NulFree(Strings(argz, i))
    decreases |argz| - i
  {
    if i >= |argz| {
    } else {
      hide StrEnd;
      var e := StrEnd(argz, i);
      StrEndMeaning(argz, i);
      assert NUL !in argz[i..e];
      StringsNulFree(argz, e + 1);
    }
  }

  lemma StringsStep(argz: string, i: nat)
    requires Vector(argz) && i < |argz|
    ensures argz[StrEnd(argz, i)] == NUL
    ensures Strings(argz, i) == [argz[i..StrEnd(argz, i)]] + Strings(argz, StrEnd(argz, i) + 1)
  {
    StrEndMeaning(argz, i);
  }

  lemma {:induction false} LayoutStrings(argz: string, i: nat)
    requires Vector(argz) && i <= |argz|
    ensures Layout(Strings(argz, i)) == argz[i..]
    decreases |argz| - i
  {
    if i == |argz| {
      assert argz[i..] == [];
    } else {
      hide StrEnd, Layout, Strings, Vector;
      var e := StrEnd(argz, i);
      LayoutStrings(argz, e + 1);
      StringsStep(argz, i);
      LayoutCons(argz[i..e], Strings(argz, e + 1));
      CutAt(argz, i, e);
    }
  }

  /** And reading a vector and laying the strings out again gives the same vector. */
  lemma RoundTripBack(argz: string)
    requires Vector(argz)
    ensures NulFree(Strings(argz, 0)) && Layout(Strings(argz, 0)) == argz
  {
    hide Strings, Layout, NulFree;
    StringsNulFree(argz, 0);
    LayoutStrings(argz, 0);
  }

  lemma CutAt(argz: string, i: nat, e: nat)
    requires i <= e < |argz| && argz[e] == NUL
    ensures argz[i..] == argz[i..e] + [NUL] + argz[e + 1..]
  {
  }

  /** The entries a loop visits from a pointer on. A non-null pointer to an empty vector counts once. */
  function From(argz: string, entry: Pointer): seq<nat>
    requires Vector(argz)
  {
    if entry == Null then [] else if argz == [] then [entry.offset] else Entries(argz, entry.offset)
  }

  lemma NextStep(argz: string, i: nat)
    requires Vector(argz) && (i < |argz| || argz == [])
    ensures From(argz, At(i)) == [i] + From(argz, ArgzNext(argz, At(i)))
    ensures var next := ArgzNext(argz, At(i)); next.At? ==> i < next.offset < |argz|
  {
    hide StrEnd;
    assert Entries(argz, i) == if argz == [] then [] else [i] + Entries(argz, StrEnd(argz, i) + 1);
  }

  /** while ((entry = argz_next (argz, argz_len, entry))) */
  method WhileStyle(argz: string) returns (visited: seq<nat>)
    requires Vector(argz)
    ensures visited == Entries(argz, 0)
  {
    hide ArgzNext, From, Vector, Entries;
    visited := [];
    var entry := ArgzNext(argz, Null);
    FirstEntry(argz);
    NothingAfterNull(argz);
    while entry != Null
      invariant entry.At? ==> entry.offset < |argz|
      invariant visited + From(argz, entry) == Entries(argz, 0)
      decreases if entry.At? then |argz| - entry.offset else -1
    {
      NextStep(argz, entry.offset);
      visited := visited + [entry.offset];
      entry := ArgzNext(argz, entry);
    }
  }

  /** for (entry = argz; entry; entry = argz_next (argz, argz_len, entry)), where argz itself may be null. */
  method ForStyle(argz: string, start: Pointer) returns (visited: seq<nat>)
    requires Vector(argz) && (start == At(0) || (start == Null && argz == []))
    ensures visited == if start == Null then [] else if argz == [] then [0] else Entries(argz, 0)
  {
    hide ArgzNext, From, Vector, Entries;
    visited := [];
    var entry := start;
    FromStart(argz, start);
    while entry != Null
      invariant entry.At? && argz != [] ==> entry.offset < |argz|
      invariant visited + From(argz, entry) == From(argz, start)
      decreases if entry.Null? then 0 else if argz == [] then 1 else 1 + |argz| - entry.offset
    {
      NextStep(argz, entry.offset);
      visited := visited + [entry.offset];
      entry := ArgzNext(argz, entry);
    }
    NothingAfterNull(argz);
  }

  lemma FirstEntry(argz: string)
    requires Vector(argz)
    ensures From(argz, ArgzNext(argz, Null)) == Entries(argz, 0)
    ensures ArgzNext(argz, Null).At? ==> ArgzNext(argz, Null).offset < |argz|
  {
  }

  lemma FromStart(argz: string, start: Pointer)
    requires Vector(argz) && (start == At(0) || (start == Null && argz == []))
    ensures From(argz, start) == if start == Null then [] else if argz == [] then [0] else Entries(argz, 0)
  {
  }

  lemma NothingAfterNull(argz: string)
    requires Vector(argz)
    ensures From(argz, Null) == []
  {
  }

  /** The two documented styles visit the same entries exactly when the vector is non-empty or its
      pointer is null: with a non-null pointer to an empty vector the second visits a bogus entry. */
  method BothStyles(argz: string, start: Pointer) returns (a: seq<nat>, b: seq<nat>)
    requires Vector(argz) && (start == At(0) || (start == Null && argz == []))
    ensures a == b <==> argz != [] || start == Null
    ensures a == Entries(argz, 0)
  {
    a := WhileStyle(argz);
    b := ForStyle(argz, start);
  }
}
