// The allocator's bit set, with its rolling scan hint:
// engine/containers/bitset.c and the portable paths of engine/math/bits.h.
module Bitsets {
  import opened Arith
  import Popcounts

  const FULL: bv32 := 0xFFFF_FFFF

  /** Bit j of a word. */
  predicate Bit(w: bv32, j: nat)
    requires j < 32
  {
    (w >> j) & 1 == 1
  }

  // ---- one word; shift counts as bit-vectors first ----

  predicate BitV(w: bv32, j: bv32)
    requires j < 32
  {
    (w >> j) & 1 == 1
  }

  function Or(a: bv32, b: bv32): bv32 { a | b }
  function And(a: bv32, b: bv32): bv32 { a & b }
  function Not(a: bv32): bv32 { !a }
  function AndNot(a: bv32, b: bv32): bv32 { a & !b }
  predicate IsOne(one: bv32, i: bv32)
    requires i < 32
  {
    one == 1 << i
  }

  lemma SetV(w: bv32, one: bv32, i: bv32, j: bv32)
    requires i < 32 && j < 32 && IsOne(one, i)
    ensures BitV(Or(w, one), j) == (i == j || BitV(w, j))
  {}

  lemma ClearV(w: bv32, one: bv32, i: bv32, j: bv32)
    requires i < 32 && j < 32 && IsOne(one, i)
    ensures BitV(AndNot(w, one), j) == (i != j && BitV(w, j))
  {
    TestIsMask(w, j);
    TestIsMask(AndNot(w, one), j);
    DistinctMasks(i, j);
    ClearMask(w, one, 1 << j);
  }

  lemma DistinctMasks(i: bv32, j: bv32)
    requires i < 32 && j < 32
    ensures i != j ==> ((1 as bv32) << i) & (1 << j) == 0
  {}

  lemma ClearMask(w: bv32, a: bv32, b: bv32)
    ensures a & b == 0 ==> (w & !a) & b == w & b
    ensures a == b ==> (w & !a) & b == 0
  {}

  lemma AndV(w: bv32, m: bv32, both: bv32, j: bv32)
    requires j < 32 && both == And(w, m)
    ensures BitV(both, j) == (BitV(w, j) && BitV(m, j))
  {}

  lemma TestIsMask(w: bv32, j: bv32)
    requires j < 32
    ensures BitV(w, j) == (w & (1 << j) != 0)
  {}

  lemma NotV(w: bv32, j: bv32)
    requires j < 32
    ensures BitV(Not(w), j) == !BitV(w, j)
  {}

  lemma ConstV(j: bv32)
    requires j < 32
    ensures BitV(FULL, j) && !BitV(0, j)
  {}

  lemma MaskV(one: bv32, r: bv32, j: bv32)
    requires r < 32 && j < 32 && IsOne(one, r)
    ensures BitV(one - 1, j) == (j < r)
  {}

  // ---- the same, indexed by numbers ----

  function One(i: nat): bv32
    requires i < 32
  {
    1 << i
  }

  function Vec(i: nat): bv32
    requires i < 32
  {
    i as bv32
  }

  lemma VecRoundTrip(i: nat)
    requires i < 32
    ensures Vec(i) as int == i && Vec(i) < 32
  {
    IndexRoundTrip(i);
  }

  lemma IndexRoundTrip(i: nat)
    requires i < 32
    ensures (i as bv32) as int == i && (i as bv32) < 32
  {}

  lemma SameVec(i: nat, j: nat)
    requires i < 32 && j < 32
    ensures Vec(i) < 32 && Vec(j) < 32 && (Vec(i) == Vec(j) <==> i == j)
  {
    VecRoundTrip(i);
    VecRoundTrip(j);
  }

  lemma VectorRoundTrip(b: bv32)
    requires b < 32
    ensures b as int < 32 && Vec(b as int) == b
  {}

  lemma VectorOrder(i: nat, b: bv32)
    requires i < 32 && b < 32
    ensures Vec(i) < b <==> i < b as int
  {
    VecRoundTrip(i);
    VectorRoundTrip(b);
  }

  lemma BitIsVector(w: bv32, j: nat)
    requires j < 32
    ensures Vec(j) < 32 && Bit(w, j) == BitV(w, Vec(j))
  {}

  lemma OneIsVector(i: nat)
    requires i < 32
    ensures Vec(i) < 32 && IsOne(One(i), Vec(i))
  {}

  lemma SetBit(w: bv32, i: nat, j: nat)
    requires i < 32 && j < 32
    ensures Bit(Or(w, One(i)), j) == (i == j || Bit(w, j))
    ensures Bit(AndNot(w, One(i)), j) == (i != j && Bit(w, j))
  {
    hide Bit, BitV, One, Vec, Or, AndNot, IsOne;
    SameVec(i, j);
    OneIsVector(i);
    BitIsVector(w, j);
    BitIsVector(Or(w, One(i)), j);
    BitIsVector(AndNot(w, One(i)), j);
    SetV(w, One(i), Vec(i), Vec(j));
    ClearV(w, One(i), Vec(i), Vec(j));
  }

  lemma ConstBits(j: nat)
    requires j < 32
    ensures Bit(FULL, j) && !Bit(0, j)
  {
    hide Bit, BitV, Vec;
    BitIsVector(FULL, j);
    BitIsVector(0, j);
    ConstV(Vec(j));
  }

  /** A bit of the inverted, masked word. */
  lemma InvertedBit(w: bv32, m: bv32, j: nat)
    requires j < 32
    ensures Bit(Not(w), j) == !Bit(w, j)
    ensures Bit(And(w, m), j) == (Bit(w, j) && Bit(m, j))
  {
    hide Bit, BitV, Vec, And, Not;
    BitIsVector(And(w, m), j);
    BitIsVector(Not(w), j);
    BitIsVector(w, j);
    BitIsVector(m, j);
    NotV(w, Vec(j));
    AndV(w, m, And(w, m), Vec(j));
  }

  /** bits_ctz32, by halving. */
  function Ctz32(x: bv32): bv32 {
    if x == 0 then 32
    else
      var n0, x0 := if x & 0x0000_FFFF == 0 then 16 as bv32 else 0, if x & 0x0000_FFFF == 0 then x >> 16 else x;
      var n1, x1 := if x0 & 0x0000_00FF == 0 then n0 + 8 else n0, if x0 & 0x0000_00FF == 0 then x0 >> 8 else x0;
      var n2, x2 := if x1 & 0x0000_000F == 0 then n1 + 4 else n1, if x1 & 0x0000_000F == 0 then x1 >> 4 else x1;
      var n3, x3 := if x2 & 0x0000_0003 == 0 then n2 + 2 else n2, if x2 & 0x0000_0003 == 0 then x2 >> 2 else x2;
      if x3 & 0x0000_0001 == 0 then n3 + 1 else n3
  }

  lemma CtzV(x: bv32, j: bv32)
    requires x != 0
    ensures Ctz32(x) < 32 && BitV(x, Ctz32(x))
    ensures j < Ctz32(x) ==> j < 32 && !BitV(x, j)
  {}

  /** The halving finds the lowest set bit. */
  lemma CtzIsLowest(x: bv32)
    requires x != 0
    ensures Ctz32(x) as int < 32 && Bit(x, Ctz32(x) as int)
    ensures forall j | 0 <= j < Ctz32(x) as int :: !Bit(x, j)
  {
    hide Ctz32, Bit, BitV, Vec;
    var n := Ctz32(x);
    CtzV(x, 0);
    VectorRoundTrip(n);
    BitIsVector(x, n as int);
    forall j | 0 <= j < n as int
      ensures !Bit(x, j)
    {
      VectorOrder(j, n);
      BitIsVector(x, j);
      CtzV(x, Vec(j));
    }
  }

  /** tail_mask: the valid bits of the last word. */
  function TailMask(nbits: nat): bv32 {
    var rem := nbits % 32;
    if rem != 0 then One(rem) - 1 else FULL
  }

  lemma TailMaskBit(nbits: nat, j: nat)
    requires j < 32
    ensures Bit(TailMask(nbits), j) == (nbits % 32 == 0 || j < nbits % 32)
  {
    hide Bit, BitV, Vec, One;
    var rem := nbits % 32;
    if rem == 0 {
      ConstBits(j);
    } else {
      OneIsVector(rem);
      VecRoundTrip(rem);
      VectorOrder(j, Vec(rem));
      BitIsVector(TailMask(nbits), j);
      MaskV(One(rem), Vec(rem), Vec(j));
    }
  }
  // ---- the set ----

  function WordCount(nbits: nat): nat { (nbits + 31) / 32 }

  /** Bit i of the set; bits past the end read as clear. */
  predicate TestIn(words: seq<bv32>, nbits: nat, i: nat)
    requires |words| == WordCount(nbits)
  {
    i < nbits && Bit(words[i / 32], i % 32)
  }

  /** The set as a row of flags. */
  function FlagsOf(words: seq<bv32>, nbits: nat): (f: seq<bool>)
    requires |words| == WordCount(nbits)
    ensures |f| == nbits
  {
    seq(nbits, i requires 0 <= i < nbits => Bit(words[i / 32], i % 32))
  }

  /** The word the scan looks at: the clear bits of word k that are real bits. */
  function Candidates(words: seq<bv32>, nbits: nat, k: nat): bv32
    requires |words| == WordCount(nbits) && k < |words|
  {
    if k == |words| - 1 then And(Not(words[k]), TailMask(nbits)) else Not(words[k])
  }

  lemma CandidateBit(words: seq<bv32>, nbits: nat, k: nat, j: nat)
    requires |words| == WordCount(nbits) && k < |words| && j < 32
    ensures Bit(Candidates(words, nbits, k), j) <==> k * 32 + j < nbits && !Bit(words[k], j)
  {
    hide Bit, TailMask, And, Not;
    InvertedBit(words[k], 0, j);
    InvertedBit(Not(words[k]), TailMask(nbits), j);
    TailMaskBit(nbits, j);
  }

  /** No candidates: every real bit of the word is set. */
  lemma NoCandidates(words: seq<bv32>, nbits: nat, k: nat, i: nat)
    requires |words| == WordCount(nbits) && k < |words| && Candidates(words, nbits, k) == 0
    requires i / 32 == k && i < nbits
    ensures Bit(words[k], i % 32)
  {
    hide Bit, Candidates;
    CandidateBit(words, nbits, k, i % 32);
    ConstBits(i % 32);
  }

  /** The first candidate of the first word that has one is the lowest clear bit. */
  lemma FirstCandidate(words: seq<bv32>, nbits: nat, k: nat)
    requires |words| == WordCount(nbits) && k < |words| && Candidates(words, nbits, k) != 0
    requires FullBelow(FlagsOf(words, nbits), k * 32)
    ensures Ctz32(Candidates(words, nbits, k)) as int < 32
    ensures var b := k * 32 + Ctz32(Candidates(words, nbits, k)) as int;
            && b < nbits && !FlagsOf(words, nbits)[b]
            && FullBelow(FlagsOf(words, nbits), b)
  {
    hide Bit, Candidates, Ctz32;
    var x := Candidates(words, nbits, k);
    CtzIsLowest(x);
    var n := Ctz32(x) as int;
    CandidateBit(words, nbits, k, n);
    var b := k * 32 + n;
    DivModUnique(b, 32, k, n);
    forall i | 0 <= i < b
      ensures FlagsOf(words, nbits)[i]
    {
      if i / 32 == k {
        CandidateBit(words, nbits, k, i % 32);
      }
    }
  }

  ghost predicate FullBelow(flags: seq<bool>, n: nat) {
    forall i | 0 <= i < |flags| && i < n :: flags[i]
  }

  /** The lowest clear bit, found by looking at the flags one by one. */
  ghost predicate LowestClear(flags: seq<bool>, r: Option<nat>) {
    match r
    case None => FullBelow(flags, |flags|)
    case Some(b) => b < |flags| && !flags[b] && FullBelow(flags, b)
  }

  // ---- counting ----

  function Tally(b: bool): nat { if b then 1 else 0 }

  /** Set bits among the first n of a word. */
  function CountBits(w: bv32, n: nat): nat
    requires n <= 32
  {
    if n == 0 then 0 else CountBits(w, n - 1) + Tally(Bit(w, n - 1))
  }

  lemma LaneBit0(w: bv32, j: nat)
    requires j < 8
    ensures (((w & 0xFF) >> j) & 1 == 1) == Bit(w, 0 + j)
  {
    assert j == 0 || j == 1 || j == 2 || j == 3 || j == 4 || j == 5 || j == 6 || j == 7;
  }

  lemma LaneBit1(w: bv32, j: nat)
    requires j < 8
    ensures ((((w >> 8) & 0xFF) >> j) & 1 == 1) == Bit(w, 8 + j)
  {
    assert j == 0 || j == 1 || j == 2 || j == 3 || j == 4 || j == 5 || j == 6 || j == 7;
  }

  lemma LaneBit2(w: bv32, j: nat)
    requires j < 8
    ensures ((((w >> 16) & 0xFF) >> j) & 1 == 1) == Bit(w, 16 + j)
  {
    assert j == 0 || j == 1 || j == 2 || j == 3 || j == 4 || j == 5 || j == 6 || j == 7;
  }

  lemma LaneBit3(w: bv32, j: nat)
    requires j < 8
    ensures (((w >> 24) >> j) & 1 == 1) == Bit(w, 24 + j)
  {
    assert j == 0 || j == 1 || j == 2 || j == 3 || j == 4 || j == 5 || j == 6 || j == 7;
  }

  /** Bit j of lane k is bit 8k + j of the word. */
  lemma LaneBit(w: bv32, k: nat, j: nat)
    requires k < 4 && j < 8
    ensures Popcounts.On(Popcounts.Lane(w, k), j) == Bit(w, 8 * k + j)
  {
    hide Bit;
    if k == 0 {
      LaneBit0(w, j);
    } else if k == 1 {
      LaneBit1(w, j);
    } else if k == 2 {
      LaneBit2(w, j);
    } else {
      LaneBit3(w, j);
    }
  }

  lemma LaneCount(w: bv32, k: nat)
    requires k < 4
    ensures CountBits(w, 8 * k + 8) == CountBits(w, 8 * k) + Popcounts.CountByte(Popcounts.Lane(w, k))
  {
    hide Bit, Popcounts.On, Popcounts.Lane;
    var n := 8 * k;
    LaneBit(w, k, 0);
    LaneBit(w, k, 1);
    LaneBit(w, k, 2);
    LaneBit(w, k, 3);
    LaneBit(w, k, 4);
    LaneBit(w, k, 5);
    LaneBit(w, k, 6);
    LaneBit(w, k, 7);
    assert CountBits(w, n + 2) == CountBits(w, n) + Tally(Bit(w, n)) + Tally(Bit(w, n + 1));
    assert CountBits(w, n + 4) == CountBits(w, n + 2) + Tally(Bit(w, n + 2)) + Tally(Bit(w, n + 3));
    assert CountBits(w, n + 6) == CountBits(w, n + 4) + Tally(Bit(w, n + 4)) + Tally(Bit(w, n + 5));
    assert CountBits(w, n + 8) == CountBits(w, n + 6) + Tally(Bit(w, n + 6)) + Tally(Bit(w, n + 7));
  }

  /** bits_popcount32 counts the set bits of the word. */
  lemma PopcountCounts(w: bv32)
    ensures Popcounts.Val(Popcounts.Popcount32(w)) == CountBits(w, 32)
  {
    hide Bit, Popcounts.CountByte, Popcounts.Lane, Popcounts.Popcount32, Popcounts.Val;
    Popcounts.PopcountByBytes(w);
    LaneCount(w, 0);
    LaneCount(w, 1);
    LaneCount(w, 2);
    LaneCount(w, 3);
    assert CountBits(w, 0) == 0;
  }

  /** Set bits among the first n of all the words. */
  function CountIn(words: seq<bv32>, n: nat): nat
    requires n <= 32 * |words|
  {
    if n == 0 then 0 else CountIn(words, n - 1) + Tally(Bit(words[(n - 1) / 32], (n - 1) % 32))
  }

  lemma {:induction false} CountWord(words: seq<bv32>, k: nat, j: nat)
    requires k < |words| && j <= 32
    ensures CountIn(words, 32 * k + j) == CountIn(words, 32 * k) + CountBits(words[k], j)
    decreases j
  {
    hide Bit;
    if j == 0 {
    } else {
      CountWord(words, k, j - 1);
      DivModUnique(32 * k + j - 1, 32, k, j - 1);
    }
  }

  /** No bit past the end is set. */
  ghost predicate TailClear(words: seq<bv32>, nbits: nat)
    requires |words| == WordCount(nbits)
  {
    forall i | nbits <= i < 32 * |words| :: !Bit(words[i / 32], i % 32)
  }

  lemma {:induction false} TailAddsNothing(words: seq<bv32>, nbits: nat, n: nat)
    requires |words| == WordCount(nbits) && TailClear(words, nbits) && nbits <= n <= 32 * |words|
    ensures CountIn(words, n) == CountIn(words, nbits)
    decreases n
  {
    hide Bit;
    if n > nbits {
      TailAddsNothing(words, nbits, n - 1);
      assert !Bit(words[(n - 1) / 32], (n - 1) % 32);
    }
  }

  function CountSet(flags: seq<bool>): nat {
    if flags == [] then 0 else CountSet(flags[..|flags| - 1]) + Tally(flags[|flags| - 1])
  }

  lemma {:induction false} CountFlags(words: seq<bv32>, nbits: nat, n: nat)
    requires |words| == WordCount(nbits) && n <= nbits
    ensures CountSet(FlagsOf(words, nbits)[..n]) == CountIn(words, n)
    decreases n
  {
    hide Bit;
    if n == 0 {
    } else {
      CountFlags(words, nbits, n - 1);
      assert FlagsOf(words, nbits)[..n][..n - 1] == FlagsOf(words, nbits)[..n - 1];
    }
  }

  lemma WordsCountFlags(words: seq<bv32>, nbits: nat)
    requires |words| == WordCount(nbits) && TailClear(words, nbits)
    ensures CountIn(words, 32 * |words|) == CountSet(FlagsOf(words, nbits))
  {
    hide Bit;
    TailAddsNothing(words, nbits, 32 * |words|);
    CountFlags(words, nbits, nbits);
    assert FlagsOf(words, nbits)[..nbits] == FlagsOf(words, nbits);
  }

  // ---- what one update does to the flags ----

  lemma SetFlags(words: seq<bv32>, nbits: nat, i: nat)
    requires |words| == WordCount(nbits) && TailClear(words, nbits) && i < nbits
    ensures var now := words[i / 32 := Or(words[i / 32], One(i % 32))];
            TailClear(now, nbits) && FlagsOf(now, nbits) == FlagsOf(words, nbits)[i := true]
  {
    hide Bit, One, Or;
    var now := words[i / 32 := Or(words[i / 32], One(i % 32))];
    forall k | 0 <= k < 32 * |words|
      ensures Bit(now[k / 32], k % 32) == (k == i || Bit(words[k / 32], k % 32))
    {
      SetBit(words[i / 32], i % 32, k % 32);
    }
  }

  lemma ClearFlags(words: seq<bv32>, nbits: nat, i: nat)
    requires |words| == WordCount(nbits) && TailClear(words, nbits) && i < nbits
    ensures var now := words[i / 32 := AndNot(words[i / 32], One(i % 32))];
            TailClear(now, nbits) && FlagsOf(now, nbits) == FlagsOf(words, nbits)[i := false]
  {
    hide Bit, One, AndNot;
    var now := words[i / 32 := AndNot(words[i / 32], One(i % 32))];
    forall k | 0 <= k < 32 * |words|
      ensures Bit(now[k / 32], k % 32) == (k != i && Bit(words[k / 32], k % 32))
    {
      SetBit(words[i / 32], i % 32, k % 32);
    }
  }

  lemma AllSetFlags(words: seq<bv32>, nbits: nat)
    requires |words| == WordCount(nbits) > 0
    requires forall k | 0 <= k < |words| - 1 :: words[k] == FULL
    requires words[|words| - 1] == And(FULL, TailMask(nbits))
    ensures TailClear(words, nbits) && FlagsOf(words, nbits) == seq(nbits, i requires 0 <= i < nbits => true)
    ensures FullBelow(FlagsOf(words, nbits), 0)
  {
    hide Bit, And, TailMask;
    forall i | 0 <= i < 32 * |words|
      ensures Bit(words[i / 32], i % 32) == (i < nbits)
    {
      ConstBits(i % 32);
      InvertedBit(FULL, TailMask(nbits), i % 32);
      TailMaskBit(nbits, i % 32);
    }
  }

  lemma StillFull(flags: seq<bool>, i: nat, n: nat)
    requires FullBelow(flags, n) && i < |flags|
    ensures FullBelow(flags[i := true], n)
  {}

  lemma FullToTheHint(flags: seq<bool>, i: nat, n: nat, m: nat)
    requires FullBelow(flags, n) && i < |flags| && m <= i < m + 32
    ensures n >= m + 32 ==> FullBelow(flags[i := false], m)
    ensures n <= m ==> FullBelow(flags[i := false], n)
  {}

  class Bitset {
    const words: array<bv32>
    const nbits: nat
    var hint: nat

    ghost predicate Valid()
      reads this, words
    {
      && words.Length == WordCount(nbits) && hint <= words.Length
      // THE HINT IS EXACT: no word below it has a clear bit.
      && FullBelow(Flags(), hint * 32)
      && TailClear(words[..], nbits)
    }

    ghost function Flags(): (f: seq<bool>)
      reads this, words
      requires words.Length == WordCount(nbits)
      ensures |f| == nbits
    {
      FlagsOf(words[..], nbits)
    }

    /** bitset_init and bitset_clear_all. */
    constructor (n: nat)
      ensures Valid() && fresh(words) && nbits == n
      ensures Flags() == seq(n, i requires 0 <= i < n => false)
    {
      words := new bv32[WordCount(n)](_ => 0);
      nbits := n;
      hint := 0;
      new;
      forall i | 0 <= i < n
        ensures !Flags()[i]
      {
        ConstBits(i % 32);
      }
    }

    method ClearAll()
      requires Valid()
      modifies this`hint, words
      ensures Valid() && Flags() == seq(nbits, i requires 0 <= i < nbits => false)
    {
      var w := 0;
      while w < words.Length
        invariant 0 <= w <= words.Length
        invariant forall k | 0 <= k < w :: words[k] == 0
      {
        words[w] := 0;
        w := w + 1;
      }
      hint := 0;
      forall i | 0 <= i < nbits
        ensures !Flags()[i]
      {
        ConstBits(i % 32);
      }
    }

    method SetAll()
      requires Valid()
      modifies this`hint, words
      ensures Valid() && Flags() == seq(nbits, i requires 0 <= i < nbits => true)
    {
      if words.Length == 0 { return; }
      hide Bit, FlagsOf, TailClear, FullBelow, And, TailMask;
      var w := 0;
      while w < words.Length
        invariant 0 <= w <= words.Length
        invariant forall k | 0 <= k < w :: words[k] == FULL
      {
        words[w] := FULL;
        w := w + 1;
      }
      words[words.Length - 1] := And(words[words.Length - 1], TailMask(nbits));
      hint := 0;
      AllSetFlags(words[..], nbits);
    }

    method Set(i: nat)
      requires Valid()
      modifies words
      ensures Valid()
      ensures Flags() == if i < nbits then old(Flags())[i := true] else old(Flags())
    {
      if i >= nbits { return; }
      hide Bit, One, Or, FlagsOf, TailClear, FullBelow;
      ghost var before := words[..];
      SetFlags(before, nbits, i);
      StillFull(FlagsOf(before, nbits), i, hint * 32);
      words[i / 32] := Or(words[i / 32], One(i % 32));
      assert words[..] == before[i / 32 := Or(before[i / 32], One(i % 32))];
    }

    method Clear(i: nat)
      requires Valid()
      modifies this`hint, words
      ensures Valid()
      ensures Flags() == if i < nbits then old(Flags())[i := false] else old(Flags())
    {
      if i >= nbits { return; }
      hide Bit, One, AndNot, FlagsOf, TailClear, FullBelow;
      ghost var before := words[..];
      var w := i / 32;
      ClearFlags(before, nbits, i);
      FullToTheHint(FlagsOf(before, nbits), i, hint * 32, w * 32);
      words[w] := AndNot(words[w], One(i % 32));
      assert words[..] == before[w := AndNot(before[w], One(i % 32))];
      if w < hint { hint := w; }
    }

    method Test(i: nat) returns (r: bool)
      requires Valid()
      ensures r == (i < nbits && Flags()[i])
    {
      r := TestIn(words[..], nbits, i);
    }

    /** bitset_popcount. */
    method Popcount() returns (total: nat)
      requires Valid()
      ensures total == CountSet(Flags())
    {
      hide Bit, Popcounts.Popcount32, Popcounts.Val;
      total := 0;
      var w := 0;
      while w < words.Length
        invariant 0 <= w <= words.Length && total == CountIn(words[..], 32 * w)
      {
        CountWord(words[..], w, 32);
        PopcountCounts(words[w]);
        total := total + Popcounts.Val(Popcounts.Popcount32(words[w]));
        w := w + 1;
      }
      WordsCountFlags(words[..], nbits);
    }

    /** bitset_find_first_clear: scan from the hint, then wrap. The answer is
        the lowest clear bit of the whole set; the wrap pass finds nothing. */
    method FindFirstClear() returns (r: Option<nat>)
      requires Valid()
      modifies this`hint
      ensures Valid() && LowestClear(Flags(), r)
      ensures r.Some? ==> hint == r.value / 32
      ensures r == None ==> hint == old(hint)
    {
      hide Bit, Candidates, Ctz32;
      if words.Length == 0 { return None; }
      var pass := 0;
      while pass < 2
        invariant 0 <= pass <= 2 && hint == old(hint) && Valid()
        invariant pass > 0 ==> FullBelow(Flags(), nbits)
      {
        var w := if pass == 0 then hint else 0;
        var end := if pass == 0 then words.Length else hint;
        while w < end
          invariant w <= words.Length && hint == old(hint) && Valid()
          invariant FullBelow(Flags(), w * 32)
          invariant pass > 0 ==> FullBelow(Flags(), nbits)
        {
          var inv := Candidates(words[..], nbits, w);
          if inv != 0 {
            FirstCandidate(words[..], nbits, w);
            var i := w * 32 + Ctz32(inv) as int;
            if i < nbits {
              hint := w;
              return Some(i);
            }
          }
          forall i | 0 <= i < nbits && i / 32 == w
            ensures Flags()[i]
          {
            NoCandidates(words[..], nbits, w, i);
          }
          w := w + 1;
        }
        pass := pass + 1;
      }
      return None;
    }
  }
}
