// A mask row as a 64-bit word, pixel 0 on top: what shift, AND and the halving
// searches mean pixel by pixel. runtime/hx421_mask.c.
module MaskWords {
  import opened Arith

  const FULL: bv64 := 0xFFFF_FFFF_FFFF_FFFF

  // ---- columns as six-bit numbers ----

  function Vec(i: nat): bv6
    requires i < 64
  {
    i as bv6
  }

  lemma VecInt(i: nat)
    requires i < 64
    ensures Vec(i) as int == i
  {}

  lemma IntVec(b: bv6)
    ensures (b as int) < 64 && Vec(b as int) == b
  {}

  lemma OrderOfInts(a: bv6, b: bv6)
    ensures a < b <==> (a as int) < (b as int)
  {}

  lemma SubOfInts(a: bv6, b: bv6)
    requires b <= a
    ensures (a - b) as int == (a as int) - (b as int)
  {}

  lemma VecOrder(i: nat, j: nat)
    requires i < 64 && j < 64
    ensures Vec(i) < Vec(j) <==> i < j
  {
    VecInt(i);
    VecInt(j);
    OrderOfInts(Vec(i), Vec(j));
  }

  lemma VecSub(i: nat, j: nat)
    requires j <= i < 64
    ensures Vec(j) <= Vec(i) && Vec(i) - Vec(j) == Vec(i - j)
  {
    hide Vec;
    VecInt(i);
    VecInt(j);
    OrderOfInts(Vec(i), Vec(j));
    SubOfInts(Vec(i), Vec(j));
    IntVec(Vec(i) - Vec(j));
  }

  // ---- pixels of a word ----

  /** Pixel x, counted from the most significant bit. */
  predicate PxV(v: bv64, x: bv6) { (v << (x as bv64)) & 0x8000_0000_0000_0000 != 0 }

  predicate Px(v: bv64, x: nat)
    requires x < 64
  {
    PxV(v, Vec(x))
  }

  function And(a: bv64, b: bv64): bv64 { a & b }
  function Or(a: bv64, b: bv64): bv64 { a | b }
  function Up(v: bv64): bv64 { v << 1 }
  function Down(v: bv64): bv64 { v >> 1 }

  /** v >> d and v << d: one place, d times. */
  function Shr(v: bv64, d: nat): bv64
    decreases d
  {
    if d == 0 then v else Shr(Down(v), d - 1)
  }

  function Shl(v: bv64, d: nat): bv64
    decreases d
  {
    if d == 0 then v else Shl(Up(v), d - 1)
  }

  lemma UpV(v: bv64, x: bv6)
    ensures PxV(Up(v), x) == (x < 63 && PxV(v, x + 1))
  {}

  lemma DownV(v: bv64, x: bv6)
    ensures PxV(Down(v), x) == (x > 0 && PxV(v, x - 1))
  {}

  lemma VecConsts()
    ensures Vec(63) == 63 && Vec(0) == 0 && Vec(1) == 1
  {}

  lemma PlusMinus(a: bv6, b: bv6)
    requires a - 1 == b
    ensures a == b + 1
  {}

  lemma UpPx(v: bv64, x: nat)
    requires x < 64
    ensures Px(Up(v), x) == (x < 63 && Px(v, x + 1))
  {
    hide Vec, PxV, Up;
    UpV(v, Vec(x));
    VecConsts();
    VecOrder(x, 63);
    if x < 63 {
      VecSub(x + 1, 1);
      PlusMinus(Vec(x + 1), Vec(x));
    }
  }

  lemma DownPx(v: bv64, x: nat)
    requires x < 64
    ensures Px(Down(v), x) == (x > 0 && Px(v, x - 1))
  {
    hide Vec, PxV, Down;
    DownV(v, Vec(x));
    VecConsts();
    VecOrder(0, x);
    if x > 0 {
      VecSub(x, 1);
    }
  }

  /** A right shift moves pixels right and brings in clear ones. */
  lemma {:induction false} ShrPx(v: bv64, d: nat, x: nat)
    requires x < 64
    ensures Px(Shr(v, d), x) == (x >= d && Px(v, x - d))
    decreases d
  {
    hide Px, Down;
    if d == 0 {
    } else {
      ShrPx(Down(v), d - 1, x);
      if x >= d - 1 {
        DownPx(v, x - (d - 1));
      }
    }
  }

  /** A left shift moves pixels left and brings in clear ones. */
  lemma {:induction false} ShlPx(v: bv64, d: nat, x: nat)
    requires x < 64
    ensures Px(Shl(v, d), x) == (x + d < 64 && Px(v, x + d))
    decreases d
  {
    hide Px, Up;
    if d == 0 {
    } else {
      ShlPx(Up(v), d - 1, x);
      if x + d - 1 < 64 {
        UpPx(v, x + d - 1);
      }
    }
  }

  lemma TopV(v: bv64)
    ensures PxV(v, 0) == (v & 0x8000_0000_0000_0000 != 0)
  {}

  lemma TopAnd(a: bv64, b: bv64)
    ensures ((a & b) & 0x8000_0000_0000_0000 != 0) == (a & 0x8000_0000_0000_0000 != 0 && b & 0x8000_0000_0000_0000 != 0)
  {}

  lemma TopOr(a: bv64, b: bv64)
    ensures ((a | b) & 0x8000_0000_0000_0000 != 0) == (a & 0x8000_0000_0000_0000 != 0 || b & 0x8000_0000_0000_0000 != 0)
  {}

  lemma TopBits(a: bv64, b: bv64)
    ensures PxV(And(a, b), 0) == (PxV(a, 0) && PxV(b, 0)) && PxV(Or(a, b), 0) == (PxV(a, 0) || PxV(b, 0))
  {
    hide PxV;
    TopV(a);
    TopV(b);
    TopV(And(a, b));
    TopV(Or(a, b));
    TopAnd(a, b);
    TopOr(a, b);
  }

  lemma UpAnd(a: bv64, b: bv64)
    ensures Up(And(a, b)) == And(Up(a), Up(b))
  {}

  lemma UpOr(a: bv64, b: bv64)
    ensures Up(Or(a, b)) == Or(Up(a), Up(b))
  {}

  lemma {:induction false} AndPx(a: bv64, b: bv64, x: nat)
    requires x < 64
    ensures Px(And(a, b), x) == (Px(a, x) && Px(b, x)) && Px(Or(a, b), x) == (Px(a, x) || Px(b, x))
    decreases x
  {
    TopBits(a, b);
    UpAnd(a, b);
    UpOr(a, b);
    VecConsts();
    hide Vec, PxV, And, Or, Up;
    if x == 0 {
    } else {
      AndPx(Up(a), Up(b), x - 1);
      UpPx(a, x - 1);
      UpPx(b, x - 1);
      UpPx(And(a, b), x - 1);
      UpPx(Or(a, b), x - 1);
    }
  }

  lemma ConstPx(x: nat)
    requires x < 64
    ensures Px(FULL, x) && !Px(0, x)
  {
    hide Vec;
    ConstPxV(Vec(x));
  }

  lemma ConstPxV(x: bv6)
    ensures PxV(FULL, x) && !PxV(0, x)
  {}

  // ---- the first set pixel, by halving ----

  function L1(v: bv64): bv6 { if v & 0x8000_0000_0000_0000 == 0 then 1 else 0 }
  function L2(v: bv64): bv6 { if v & 0xC000_0000_0000_0000 == 0 then 2 + L1(v << 2) else L1(v) }
  function L4(v: bv64): bv6 { if v & 0xF000_0000_0000_0000 == 0 then 4 + L2(v << 4) else L2(v) }
  function L8(v: bv64): bv6 { if v & 0xFF00_0000_0000_0000 == 0 then 8 + L4(v << 8) else L4(v) }
  function L16(v: bv64): bv6 { if v & 0xFFFF_0000_0000_0000 == 0 then 16 + L8(v << 16) else L8(v) }

  /** first_left: test the top half, move the bottom half up, and so on. */
  function FirstLeftV(v: bv64): bv6 { if v & 0xFFFF_FFFF_0000_0000 == 0 then 32 + L16(v << 32) else L16(v) }

  lemma L8Px(v: bv64, x: bv6)
    requires v & 0xFFFF_0000_0000_0000 != 0
    ensures L8(v) < 16 && PxV(v, L8(v)) && (x < L8(v) ==> !PxV(v, x))
  {}

  lemma NoneAbove16(v: bv64, x: bv6)
    requires v & 0xFFFF_0000_0000_0000 == 0
    ensures x < 16 ==> !PxV(v, x)
  {}

  lemma MoveUp16(v: bv64, x: bv6)
    ensures x < 48 ==> PxV(v << 16, x) == PxV(v, x + 16)
  {}

  lemma SomeMoveUp16(v: bv64)
    requires v & 0xFFFF_0000_0000_0000 == 0
    ensures v & 0xFFFF_FFFF_0000_0000 != 0 ==> (v << 16) & 0xFFFF_0000_0000_0000 != 0
  {}

  lemma L16Px(v: bv64, x: bv6)
    requires v & 0xFFFF_FFFF_0000_0000 != 0
    ensures L16(v) < 32 && PxV(v, L16(v)) && (x < L16(v) ==> !PxV(v, x))
  {
    hide L8, PxV;
    if v & 0xFFFF_0000_0000_0000 == 0 {
      var n := L8(v << 16);
      SomeMoveUp16(v);
      NoneAbove16(v, x);
      MoveUp16(v, n);
      MoveUp16(v, x - 16);
      L8Px(v << 16, x - 16);
    } else {
      L8Px(v, x);
    }
  }

  lemma NoneAbove32(v: bv64, x: bv6)
    requires v & 0xFFFF_FFFF_0000_0000 == 0
    ensures x < 32 ==> !PxV(v, x)
  {}

  lemma MoveUp32(v: bv64, x: bv6)
    ensures x < 32 ==> PxV(v << 32, x) == PxV(v, x + 32)
  {}

  lemma SomeMoveUp32(v: bv64)
    requires v & 0xFFFF_FFFF_0000_0000 == 0
    ensures v != 0 ==> (v << 32) & 0xFFFF_FFFF_0000_0000 != 0
  {}

  lemma FirstLeftPx(v: bv64, x: bv6)
    requires v != 0
    ensures PxV(v, FirstLeftV(v)) && (x < FirstLeftV(v) ==> !PxV(v, x))
  {
    hide L16, PxV;
    if v & 0xFFFF_FFFF_0000_0000 == 0 {
      var n := L16(v << 32);
      SomeMoveUp32(v);
      NoneAbove32(v, x);
      MoveUp32(v, n);
      MoveUp32(v, x - 32);
      L16Px(v << 32, x - 32);
    } else {
      L16Px(v, x);
    }
  }

  /** first_right: the same from the other end. */
  function FirstRightV(v: bv64): bv6 {
    var n0, v0 := if v & 0x0000_0000_FFFF_FFFF == 0 then 31 as bv6 else 63,
                  if v & 0x0000_0000_FFFF_FFFF == 0 then v >> 32 else v;
    var n1, v1 := if v0 & 0x0000_0000_0000_FFFF == 0 then n0 - 16 else n0,
                  if v0 & 0x0000_0000_0000_FFFF == 0 then v0 >> 16 else v0;
    var n2, v2 := if v1 & 0x0000_0000_0000_00FF == 0 then n1 - 8 else n1,
                  if v1 & 0x0000_0000_0000_00FF == 0 then v1 >> 8 else v1;
    var n3, v3 := if v2 & 0x0000_0000_0000_000F == 0 then n2 - 4 else n2,
                  if v2 & 0x0000_0000_0000_000F == 0 then v2 >> 4 else v2;
    var n4, v4 := if v3 & 0x0000_0000_0000_0003 == 0 then n3 - 2 else n3,
                  if v3 & 0x0000_0000_0000_0003 == 0 then v3 >> 2 else v3;
    if v4 & 0x0000_0000_0000_0001 == 0 then n4 - 1 else n4
  }

  lemma FirstRightPx(v: bv64, x: bv6)
    requires v != 0
    ensures PxV(v, FirstRightV(v)) && (x > FirstRightV(v) ==> !PxV(v, x))
  {}

  function FirstLeft(v: bv64): nat { FirstLeftV(v) as int }
  function FirstRight(v: bv64): nat { FirstRightV(v) as int }

  lemma LeftmostPx(v: bv64, x: nat)
    requires v != 0 && x < 64
    ensures FirstLeft(v) < 64 && Px(v, FirstLeft(v)) && (x < FirstLeft(v) ==> !Px(v, x))
  {
    hide Vec, PxV, FirstLeftV;
    IntVec(FirstLeftV(v));
    VecInt(x);
    OrderOfInts(Vec(x), FirstLeftV(v));
    FirstLeftPx(v, Vec(x));
  }

  lemma RightmostPx(v: bv64, x: nat)
    requires v != 0 && x < 64
    ensures FirstRight(v) < 64 && Px(v, FirstRight(v)) && (x > FirstRight(v) ==> !Px(v, x))
  {
    hide Vec, PxV, FirstRightV;
    IntVec(FirstRightV(v));
    VecInt(x);
    OrderOfInts(FirstRightV(v), Vec(x));
    FirstRightPx(v, Vec(x));
  }

  /** The searches find the leftmost and the rightmost set pixel. */
  lemma FirstPixels(v: bv64)
    requires v != 0
    ensures FirstLeft(v) < 64 && Px(v, FirstLeft(v)) && forall x: nat | x < FirstLeft(v) :: !Px(v, x)
    ensures FirstRight(v) < 64 && Px(v, FirstRight(v)) && forall x: nat | FirstRight(v) < x < 64 :: !Px(v, x)
  {
    hide Px, FirstLeft, FirstRight;
    LeftmostPx(v, 0);
    RightmostPx(v, 0);
    forall x: nat | x < 64
      ensures x < FirstLeft(v) ==> !Px(v, x)
      ensures x > FirstRight(v) ==> !Px(v, x)
    {
      LeftmostPx(v, x);
      RightmostPx(v, x);
    }
  }

  // ---- bytes ----

  /** Bit x of a byte, the most significant first. */
  predicate ByteBit(b: bv8, x: nat)
    requires x < 8
  {
    (b >> (7 - x)) & 1 == 1
  }

  function BitWeight(on: bool, w: nat): nat { if on then w else 0 }

  /** The byte is the sum of its bits: bit 0 counts 128, bit 7 counts 1. */
  lemma ByteBitsAre(b: bv8)
    ensures b as nat ==
            BitWeight(ByteBit(b, 0), 128) + BitWeight(ByteBit(b, 1), 64) + BitWeight(ByteBit(b, 2), 32) +
            BitWeight(ByteBit(b, 3), 16) + BitWeight(ByteBit(b, 4), 8) + BitWeight(ByteBit(b, 5), 4) +
            BitWeight(ByteBit(b, 6), 2) + BitWeight(ByteBit(b, 7), 1)
  {}

  function Widen(b: bv8): bv64 { b as bv64 }

  predicate ByteTable(b: bv8, x: nat)
    requires x < 8
  {
    b & (if x == 0 then 0x80 else if x == 1 then 0x40 else if x == 2 then 0x20 else if x == 3 then 0x10
         else if x == 4 then 8 else if x == 5 then 4 else if x == 6 then 2 else 1) != 0
  }

  lemma ByteIsTable(b: bv8, x: nat)
    requires x < 8
    ensures ByteBit(b, x) == ByteTable(b, x)
  {}

  lemma WidenTable(b: bv8, x: nat, z: bv6)
    requires x < 8
    requires z == if x == 0 then 56 else if x == 1 then 57 else if x == 2 then 58 else if x == 3 then 59
                  else if x == 4 then 60 else if x == 5 then 61 else if x == 6 then 62 else 63
    ensures PxV(Widen(b), z) == ByteTable(b, x)
  {}

  lemma WidenHigh(b: bv8, z: bv6)
    requires z < 56
    ensures !PxV(Widen(b), z)
  {}

  lemma VecHigh(x: nat)
    requires x < 8
    ensures Vec(56 + x) == if x == 0 then 56 else if x == 1 then 57 else if x == 2 then 58 else if x == 3 then 59
                           else if x == 4 then 60 else if x == 5 then 61 else if x == 6 then 62 else 63
  {}

  /** A widened byte's pixels are its bits, in the last eight columns. */
  lemma WidenPx(b: bv8, z: nat)
    requires z < 64
    ensures Px(Widen(b), z) == (z >= 56 && ByteBit(b, z - 56))
  {
    hide Vec, PxV, ByteBit, ByteTable, Widen;
    if z >= 56 {
      ByteIsTable(b, z - 56);
      VecHigh(z - 56);
      WidenTable(b, z - 56, Vec(z));
    } else {
      VecHigh(0);
      VecOrder(z, 56);
      WidenHigh(b, Vec(z));
    }
  }
}
