// Counting the set bits of a 32-bit word in parallel. engine/math/bits.h.
module Popcounts {
  import opened Arith

  // ---- the code: pairs, nibbles, bytes, then one multiplication ----

  function Pairs(x: bv32): bv32 { x - ((x >> 1) & 0x5555_5555) }
  function Nibbles(x: bv32): bv32 { (x & 0x3333_3333) + ((x >> 2) & 0x3333_3333) }
  function Bytes(x: bv32): bv32 { (x + (x >> 4)) & 0x0F0F_0F0F }
  function Total(x: bv32): bv32 { (x * 0x0101_0101) >> 24 }

  function Lanes(x: bv32): bv32 { Bytes(Nibbles(Pairs(x))) }

  function Popcount32(x: bv32): bv32 { Total(Lanes(x)) }

  // ---- one byte ----

  function At(c: bv32, j: nat): bv32
    requires j < 8
  {
    (c >> j) & 1
  }

  function Plus(a: bv32, b: bv32): bv32 { a + b }

  function ByteSum(c: bv32): bv32 {
    Plus(Plus(Plus(Plus(Plus(Plus(Plus(At(c, 0), At(c, 1)), At(c, 2)), At(c, 3)), At(c, 4)), At(c, 5)), At(c, 6)),
         At(c, 7))
  }

  lemma LaneIsByteSum(c: bv32)
    requires c < 256
    ensures Lanes(c) == ByteSum(c)
  {}

  // The lanes do not disturb one another.

  lemma LaneZero(x: bv32)
    ensures Lanes(x) & 0xFF == Lanes(x & 0xFF)
  {}

  lemma LaneOne(x: bv32)
    ensures (Lanes(x) >> 8) & 0xFF == Lanes((x >> 8) & 0xFF)
  {}

  lemma LaneTwo(x: bv32)
    ensures (Lanes(x) >> 16) & 0xFF == Lanes((x >> 16) & 0xFF)
  {}

  lemma LaneThree(x: bv32)
    ensures Lanes(x) >> 24 == Lanes(x >> 24)
  {}

  lemma LanesAreSmall(x: bv32)
    ensures Lanes(x) & 0xF0F0_F0F0 == 0
  {}

  /** The multiplication gathers the four bytes on top. */
  lemma TotalAdds(y: bv32)
    requires y & 0xF0F0_F0F0 == 0
    ensures Total(y) == (y & 0xFF) + ((y >> 8) & 0xFF) + ((y >> 16) & 0xFF) + (y >> 24)
  {}

  function Val(a: bv32): nat { a as int }

  function One(on: bool): nat { if on then 1 else 0 }

  predicate On(c: bv32, j: nat)
    requires j < 8
  {
    At(c, j) == 1
  }

  function CountByte(c: bv32): nat {
    One(On(c, 0)) + One(On(c, 1)) + One(On(c, 2)) + One(On(c, 3)) + One(On(c, 4)) + One(On(c, 5)) + One(On(c, 6)) +
      One(On(c, 7))
  }

  predicate IsBit(b: bv32) { b < 2 }

  lemma AtIsBit(c: bv32, j: nat)
    requires j < 8
    ensures IsBit(At(c, j)) && Val(At(c, j)) == One(On(c, j))
  {}

  lemma AddBit(a: bv32, b: bv32)
    requires Val(a) < 15 && IsBit(b)
    ensures Val(Plus(a, b)) == Val(a) + Val(b)
  {
    Small(a, a as int);
    SumBelow(a, b);
  }

  lemma Small(a: bv32, n: nat)
    requires a as int == n < 15
    ensures a < 15
  {}

  lemma SumBelow(a: bv32, b: bv32)
    requires a < 15 && b < 2
    ensures (a + b) as int == a as int + b as int
  {}

  lemma ByteSumCounts(c: bv32)
    ensures Val(ByteSum(c)) == CountByte(c)
  {
    hide At, Plus, On, IsBit, Val;
    AtIsBit(c, 0);
    AtIsBit(c, 1);
    AtIsBit(c, 2);
    AtIsBit(c, 3);
    AtIsBit(c, 4);
    AtIsBit(c, 5);
    AtIsBit(c, 6);
    AtIsBit(c, 7);
    var s0 := At(c, 0);
    AddBit(s0, At(c, 1));
    var s1 := Plus(s0, At(c, 1));
    AddBit(s1, At(c, 2));
    var s2 := Plus(s1, At(c, 2));
    AddBit(s2, At(c, 3));
    var s3 := Plus(s2, At(c, 3));
    AddBit(s3, At(c, 4));
    var s4 := Plus(s3, At(c, 4));
    AddBit(s4, At(c, 5));
    var s5 := Plus(s4, At(c, 5));
    AddBit(s5, At(c, 6));
    var s6 := Plus(s5, At(c, 6));
    AddBit(s6, At(c, 7));
  }

  // ---- the word ----

  function Lane(x: bv32, k: nat): bv32
    requires k < 4
  {
    if k == 0 then x & 0xFF else if k == 1 then (x >> 8) & 0xFF else if k == 2 then (x >> 16) & 0xFF else x >> 24
  }

  lemma LaneIsByte(x: bv32, k: nat)
    requires k < 4
    ensures Lane(x, k) < 256
  {}

  lemma LaneOfLanes(x: bv32, k: nat)
    requires k < 4
    ensures Lane(Lanes(x), k) == Lanes(Lane(x, k))
  {
    hide Lanes;
    LaneZero(x);
    LaneOne(x);
    LaneTwo(x);
    LaneThree(x);
  }

  lemma LaneCounts(x: bv32, k: nat)
    requires k < 4
    ensures Val(Lane(Lanes(x), k)) == CountByte(Lane(x, k)) <= 8
  {
    hide Lanes, Lane, On, Val;
    LaneOfLanes(x, k);
    LaneIsByte(x, k);
    LaneIsByteSum(Lane(x, k));
    ByteSumCounts(Lane(x, k));
  }

  lemma PlusInt(a: bv32, b: bv32)
    requires Val(a) <= 24 && Val(b) <= 8
    ensures Val(Plus(a, b)) == Val(a) + Val(b)
  {
    Bounded(a, Val(a));
    Bounded(b, Val(b));
    PlusSmall(a, b);
  }

  lemma Bounded(a: bv32, m: nat)
    requires a as int == m <= 24
    ensures a <= 24
  {}

  lemma PlusSmall(a: bv32, b: bv32)
    requires a <= 24 && b <= 24
    ensures (a + b) as int == a as int + b as int
  {}

  lemma TotalOfBytes(y: bv32)
    requires y & 0xF0F0_F0F0 == 0
    ensures Total(y) == Plus(Plus(Plus(Lane(y, 0), Lane(y, 1)), Lane(y, 2)), Lane(y, 3))
  {
    TotalAdds(y);
    hide Total;
  }

  lemma TotalOfLanes(x: bv32)
    ensures Popcount32(x) ==
            Plus(Plus(Plus(Lane(Lanes(x), 0), Lane(Lanes(x), 1)), Lane(Lanes(x), 2)), Lane(Lanes(x), 3))
  {
    hide Lanes, Total, Plus, Lane;
    LanesAreSmall(x);
    TotalOfBytes(Lanes(x));
  }

  /** The parallel sum is the number of set bits, byte by byte. */
  lemma PopcountByBytes(x: bv32)
    ensures Val(Popcount32(x)) ==
            CountByte(Lane(x, 0)) + CountByte(Lane(x, 1)) + CountByte(Lane(x, 2)) + CountByte(Lane(x, 3))
  {
    hide Lanes, Lane, CountByte, Plus, Popcount32, Val;
    TotalOfLanes(x);
    LaneCounts(x, 0);
    LaneCounts(x, 1);
    LaneCounts(x, 2);
    LaneCounts(x, 3);
    var y := Lanes(x);
    PlusInt(Lane(y, 0), Lane(y, 1));
    var s1 := Plus(Lane(y, 0), Lane(y, 1));
    PlusInt(s1, Lane(y, 2));
    var s2 := Plus(s1, Lane(y, 2));
    PlusInt(s2, Lane(y, 3));
  }
}
