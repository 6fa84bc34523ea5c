// From 64 colour indices to SNES tile bytes: classification and 4bpp packing.
// runtime/hx421_raster.c.
module TilePack {
  import opened Arith
  import opened RasterGeometry

  const TILE_BYTES: nat := 32

  // ---- bitplanes ----

  /** The plane bit of column x; pixel 0 is the most significant. */
  function ColumnBit(x: nat): bv8
    requires x < 8
  {
    0x80 >> x
  }

  predicate On(p: bv8, x: nat)
    requires x < 8
  {
    p & ColumnBit(x) != 0
  }

  function Or(p: bv8, b: bv8): bv8 { p | b }

  function ColumnTable(x: nat): bv8
    requires x < 8
  {
    if x == 0 then 0x80 else if x == 1 then 0x40 else if x == 2 then 0x20 else if x == 3 then 0x10
    else if x == 4 then 8 else if x == 5 then 4 else if x == 6 then 2 else 1
  }

  lemma ColumnIsTable(x: nat)
    requires x < 8
    ensures ColumnBit(x) == ColumnTable(x)
  {}

  lemma TableBits(p: bv8, x: nat, y: nat)
    requires x < 8 && y < 8
    ensures ((p | ColumnTable(x)) & ColumnTable(y) != 0) == (x == y || p & ColumnTable(y) != 0)
  {}

  lemma SetColumn(p: bv8, x: nat, y: nat)
    requires x < 8 && y < 8
    ensures On(Or(p, ColumnBit(x)), y) == (x == y || On(p, y)) && !On(0, y)
  {
    hide ColumnBit, ColumnTable;
    ColumnIsTable(x);
    ColumnIsTable(y);
    TableBits(p, x, y);
  }

  /** Plane k of a colour. */
  predicate Bit(c: Color, k: nat)
    requires k < 4
  {
    (if k == 0 then c else if k == 1 then c / 2 else if k == 2 then c / 4 else c / 8) % 2 == 1
  }

  function Weight(on: bool, w: nat): nat { if on then w else 0 }

  lemma LowNibble(c: Color)
    ensures c % 16 == Weight(Bit(c, 0), 1) + Weight(Bit(c, 1), 2) + Weight(Bit(c, 2), 4) + Weight(Bit(c, 3), 8)
  {
    var h, q, e, s := c / 2, c / 4, c / 8, c / 16;
    assert c == h * 2 + c % 2 && h == q * 2 + h % 2 && q == e * 2 + q % 2 && e == s * 2 + e % 2;
    DivModUnique(c, 16, s, c % 2 + h % 2 * 2 + q % 2 * 4 + e % 2 * 8);
  }

  // ---- a packed tile ----

  /** Where plane k of row y lies: planes 0/1 interleaved, then planes 2/3. */
  function PlaneAt(y: nat, k: nat): nat
    requires y < 8 && k < 4
  {
    if k < 2 then 2 * y + k else 16 + 2 * y + (k - 2)
  }

  /** Pixel o of the tile packed at `base`, as the picture unit reads it. */
  function Unpacked(chr: seq<bv8>, base: nat, o: nat): (c: Color)
    requires o < TPIX && base + TILE_BYTES <= |chr|
    ensures c < 16
  {
    var y, x := o / 8, o % 8;
    Weight(On(chr[base + PlaneAt(y, 0)], x), 1) + Weight(On(chr[base + PlaneAt(y, 1)], x), 2) +
    Weight(On(chr[base + PlaneAt(y, 2)], x), 4) + Weight(On(chr[base + PlaneAt(y, 3)], x), 8)
  }

  /** The bytes at `base` stand for these colours, modulo 16. */
  ghost predicate Packs(chr: seq<bv8>, base: nat, tile: seq<Color>)
    requires base + TILE_BYTES <= |chr| && |tile| == TPIX
  {
    forall o | 0 <= o < TPIX :: Unpacked(chr, base, o) == tile[o] % 16
  }

  // ---- the bytes themselves ----

  lemma ByteValue(p: bv8)
    ensures p as nat ==
            Weight(p & 0x80 != 0, 128) + Weight(p & 0x40 != 0, 64) + Weight(p & 0x20 != 0, 32) +
            Weight(p & 0x10 != 0, 16) + Weight(p & 8 != 0, 8) + Weight(p & 4 != 0, 4) + Weight(p & 2 != 0, 2) +
            Weight(p & 1 != 0, 1)
  {}

  lemma OnIsTable(p: bv8, x: nat)
    requires x < 8
    ensures On(p, x) == (p & ColumnTable(x) != 0)
  {
    ColumnIsTable(x);
    hide ColumnBit, ColumnTable;
  }

  /** Eight colours as one byte: the bit of weight w of colour x in bit 7 - x. */
  ghost predicate IsPlane(p: bv8, row: seq<Color>, w: nat)
    requires |row| == 8 && w > 0
  {
    p as nat == 128 * (row[0] / w % 2) + 64 * (row[1] / w % 2) + 32 * (row[2] / w % 2) + 16 * (row[3] / w % 2) +
                8 * (row[4] / w % 2) + 4 * (row[5] / w % 2) + 2 * (row[6] / w % 2) + row[7] / w % 2
  }

  /** Weight w of colour c is set. */
  ghost predicate Odd(c: nat, w: nat)
    requires w > 0
  {
    c / w % 2 == 1
  }

  lemma OddBit(c: nat, w: nat)
    requires w > 0
    ensures c / w % 2 == Weight(Odd(c, w), 1)
  {}

  lemma ByteOf(p: bv8, row: seq<Color>, w: nat)
    requires |row| == 8 && w > 0 && forall x | 0 <= x < 8 :: On(p, x) == Odd(row[x], w)
    ensures IsPlane(p, row, w)
  {
    hide Odd;
    OnIsTable(p, 0); OnIsTable(p, 1); OnIsTable(p, 2); OnIsTable(p, 3);
    OnIsTable(p, 4); OnIsTable(p, 5); OnIsTable(p, 6); OnIsTable(p, 7);
    OddBit(row[0], w); OddBit(row[1], w); OddBit(row[2], w); OddBit(row[3], w);
    OddBit(row[4], w); OddBit(row[5], w); OddBit(row[6], w); OddBit(row[7], w);
    ByteValue(p);
    hide On;
  }

  lemma SameNibble(a: bool, b: bool, c: bool, d: bool, e: bool, f: bool, g: bool, h: bool)
    requires Weight(a, 1) + Weight(b, 2) + Weight(c, 4) + Weight(d, 8) ==
             Weight(e, 1) + Weight(f, 2) + Weight(g, 4) + Weight(h, 8)
    ensures a == e && b == f && c == g && d == h
  {}

  lemma BitIsOdd(c: Color)
    ensures Bit(c, 0) == Odd(c, 1) && Bit(c, 1) == Odd(c, 2) && Bit(c, 2) == Odd(c, 4) && Bit(c, 3) == Odd(c, 8)
  {}

  /** The 32 bytes of a packed tile: two of bits 0 and 1 a row, then two of bits 2 and 3 a row. */
  ghost predicate PlaneBytes(chr: seq<bv8>, base: nat, tile: seq<Color>)
    requires base + TILE_BYTES <= |chr| && |tile| == TPIX
  {
    forall y | 0 <= y < 8 :: RowBytes(chr, base, y, tile[8 * y..8 * y + 8])
  }

  ghost predicate RowBytes(chr: seq<bv8>, base: nat, y: nat, row: seq<Color>)
    requires base + TILE_BYTES <= |chr| && |row| == 8 && y < 8
  {
    && IsPlane(chr[base + 2 * y], row, 1) && IsPlane(chr[base + 2 * y + 1], row, 2)
    && IsPlane(chr[base + 16 + 2 * y], row, 4) && IsPlane(chr[base + 16 + 2 * y + 1], row, 8)
  }

  /** What the picture unit unpacks to a tile are exactly these bytes. */
  lemma PackedBytes(chr: seq<bv8>, base: nat, tile: seq<Color>)
    requires base + TILE_BYTES <= |chr| && |tile| == TPIX && Packs(chr, base, tile)
    ensures PlaneBytes(chr, base, tile)
  {
    hide IsPlane, On, Odd, Bit, Weight;
    forall y | 0 <= y < 8
      ensures RowBytes(chr, base, y, tile[8 * y..8 * y + 8])
    {
      RowIsPacked(chr, base, tile, y);
    }
  }

  lemma RowIsPacked(chr: seq<bv8>, base: nat, tile: seq<Color>, y: nat)
    requires base + TILE_BYTES <= |chr| && |tile| == TPIX && y < 8 && Packs(chr, base, tile)
    ensures RowBytes(chr, base, y, tile[8 * y..8 * y + 8])
  {
    hide IsPlane, On, Odd, Bit, Weight;
    var row := tile[8 * y..8 * y + 8];
    var p0, p1 := chr[base + 2 * y], chr[base + 2 * y + 1];
    var p2, p3 := chr[base + 16 + 2 * y], chr[base + 16 + 2 * y + 1];
    forall x | 0 <= x < 8
      ensures On(p0, x) == Odd(row[x], 1) && On(p1, x) == Odd(row[x], 2)
      ensures On(p2, x) == Odd(row[x], 4) && On(p3, x) == Odd(row[x], 8)
    {
      var c := row[x];
      assert c == tile[8 * y + x];
      assert Unpacked(chr, base, 8 * y + x) == c % 16;
      LowNibble(c);
      BitIsOdd(c);
      SameNibble(On(p0, x), On(p1, x), On(p2, x), On(p3, x), Bit(c, 0), Bit(c, 1), Bit(c, 2), Bit(c, 3));
    }
    ByteOf(p0, row, 1);
    ByteOf(p1, row, 2);
    ByteOf(p2, row, 4);
    ByteOf(p3, row, 8);
  }

  /** Bytes outside the tile do not matter. */
  lemma PacksElsewhere(chr0: seq<bv8>, chr1: seq<bv8>, base: nat, tile: seq<Color>)
    requires |chr0| == |chr1| && base + TILE_BYTES <= |chr0| && |tile| == TPIX && Packs(chr0, base, tile)
    requires chr0[base..base + TILE_BYTES] == chr1[base..base + TILE_BYTES]
    ensures Packs(chr1, base, tile)
  {
    hide On, Weight;
    forall o | 0 <= o < TPIX
      ensures Unpacked(chr1, base, o) == tile[o] % 16
    {
      forall k | 0 <= k < 4
        ensures chr1[base + PlaneAt(o / 8, k)] == chr0[base + PlaneAt(o / 8, k)]
      {
        assert chr1[base..base + TILE_BYTES][PlaneAt(o / 8, k)] == chr0[base..base + TILE_BYTES][PlaneAt(o / 8, k)];
      }
      assert Unpacked(chr0, base, o) == tile[o] % 16;
    }
  }

  /** The four plane bytes of a row of colours. */
  ghost predicate PlanesOf(idx: seq<Color>, y: nat, x: nat, p0: bv8, p1: bv8, p2: bv8, p3: bv8)
    requires |idx| == TPIX && y < 8 && x <= 8
  {
    forall j | 0 <= j < 8 ::
      && On(p0, j) == (j < x && Bit(idx[y * 8 + j], 0)) && On(p1, j) == (j < x && Bit(idx[y * 8 + j], 1))
      && On(p2, j) == (j < x && Bit(idx[y * 8 + j], 2)) && On(p3, j) == (j < x && Bit(idx[y * 8 + j], 3))
  }

  function Gather(p: bv8, x: nat, on: bool): bv8
    requires x < 8
  {
    if on then Or(p, ColumnBit(x)) else p
  }

  lemma GatherBit(p: bv8, x: nat, on: bool, y: nat)
    requires x < 8 && y < 8
    ensures On(Gather(p, x, on), y) == (On(p, y) || (on && x == y))
  {
    hide On, Or, ColumnBit;
    SetColumn(p, x, y);
  }

  lemma PlanesMore(idx: seq<Color>, y: nat, x: nat, p0: bv8, p1: bv8, p2: bv8, p3: bv8)
    requires |idx| == TPIX && y < 8 && x < 8 && PlanesOf(idx, y, x, p0, p1, p2, p3)
    ensures var c := idx[y * 8 + x];
            PlanesOf(idx, y, x + 1, Gather(p0, x, Bit(c, 0)), Gather(p1, x, Bit(c, 1)), Gather(p2, x, Bit(c, 2)),
                     Gather(p3, x, Bit(c, 3)))
  {
    hide On, Gather, Bit;
    var c := idx[y * 8 + x];
    forall j | 0 <= j < 8
      ensures On(Gather(p0, x, Bit(c, 0)), j) == (j < x + 1 && Bit(idx[y * 8 + j], 0))
      ensures On(Gather(p1, x, Bit(c, 1)), j) == (j < x + 1 && Bit(idx[y * 8 + j], 1))
      ensures On(Gather(p2, x, Bit(c, 2)), j) == (j < x + 1 && Bit(idx[y * 8 + j], 2))
      ensures On(Gather(p3, x, Bit(c, 3)), j) == (j < x + 1 && Bit(idx[y * 8 + j], 3))
    {
      GatherBit(p0, x, Bit(c, 0), j);
      GatherBit(p1, x, Bit(c, 1), j);
      GatherBit(p2, x, Bit(c, 2), j);
      GatherBit(p3, x, Bit(c, 3), j);
    }
  }

  lemma NoPlanes(idx: seq<Color>, y: nat)
    requires |idx| == TPIX && y < 8
    ensures PlanesOf(idx, y, 0, 0, 0, 0, 0)
  {
    hide On;
    forall j | 0 <= j < 8
      ensures !On(0, j)
    {
      SetColumn(0, j, j);
    }
  }

  /** The inner loop of hx421_tile_pack4bpp: one row into four plane bytes. */
  method PackRow(idx: array<Color>, y: nat) returns (p0: bv8, p1: bv8, p2: bv8, p3: bv8)
    requires idx.Length == TPIX && y < 8
    ensures PlanesOf(idx[..], y, 8, p0, p1, p2, p3)
  {
    NoPlanes(idx[..], y);
    hide PlanesOf, Bit, Gather;
    p0, p1, p2, p3 := 0, 0, 0, 0;
    var x := 0;
    while x < 8
      invariant 0 <= x <= 8 && PlanesOf(idx[..], y, x, p0, p1, p2, p3)
    {
      PlanesMore(idx[..], y, x, p0, p1, p2, p3);
      var c := idx[y * 8 + x];
      p0 := Gather(p0, x, Bit(c, 0));
      p1 := Gather(p1, x, Bit(c, 1));
      p2 := Gather(p2, x, Bit(c, 2));
      p3 := Gather(p3, x, Bit(c, 3));
      x := x + 1;
    }
  }

  /** The rows above y are in place. */
  ghost predicate RowsPacked(chr: seq<bv8>, base: nat, idx: seq<Color>, y: nat)
    requires base + TILE_BYTES <= |chr| && |idx| == TPIX && y <= 8
  {
    forall o | 0 <= o < y * 8 :: Unpacked(chr, base, o) == idx[o] % 16
  }

  function WithRow(chr: seq<bv8>, base: nat, y: nat, p0: bv8, p1: bv8, p2: bv8, p3: bv8): (r: seq<bv8>)
    requires base + TILE_BYTES <= |chr| && y < 8
    ensures |r| == |chr|
  {
    chr[base + PlaneAt(y, 0) := p0][base + PlaneAt(y, 1) := p1][base + PlaneAt(y, 2) := p2][base + PlaneAt(y, 3) := p3]
  }

  lemma WithRowAt(chr: seq<bv8>, base: nat, y: nat, p0: bv8, p1: bv8, p2: bv8, p3: bv8, z: nat)
    requires base + TILE_BYTES <= |chr| && y < 8 && z < 8
    ensures var r := WithRow(chr, base, y, p0, p1, p2, p3);
            && r[base + PlaneAt(z, 0)] == (if z == y then p0 else chr[base + PlaneAt(z, 0)])
            && r[base + PlaneAt(z, 1)] == (if z == y then p1 else chr[base + PlaneAt(z, 1)])
            && r[base + PlaneAt(z, 2)] == (if z == y then p2 else chr[base + PlaneAt(z, 2)])
            && r[base + PlaneAt(z, 3)] == (if z == y then p3 else chr[base + PlaneAt(z, 3)])
  {}

  lemma RowLands(chr: seq<bv8>, base: nat, idx: seq<Color>, y: nat, p0: bv8, p1: bv8, p2: bv8, p3: bv8)
    requires base + TILE_BYTES <= |chr| && |idx| == TPIX && y < 8 && RowsPacked(chr, base, idx, y)
    requires PlanesOf(idx, y, 8, p0, p1, p2, p3)
    ensures RowsPacked(WithRow(chr, base, y, p0, p1, p2, p3), base, idx, y + 1)
  {
    hide On, Bit, WithRow, PlaneAt;
    var r := WithRow(chr, base, y, p0, p1, p2, p3);
    forall o | 0 <= o < (y + 1) * 8
      ensures Unpacked(r, base, o) == idx[o] % 16
    {
      WithRowAt(chr, base, y, p0, p1, p2, p3, o / 8);
      if o / 8 == y {
        LowNibble(idx[o]);
        assert idx[o] == idx[y * 8 + o % 8];
      } else {
        assert Unpacked(chr, base, o) == idx[o] % 16;
      }
    }
  }

  /** hx421_tile_pack4bpp: unpacking gives back every colour, modulo 16. */
  method Pack4bpp(idx: array<Color>, chr: array<bv8>, base: nat)
    requires idx.Length == TPIX && base + TILE_BYTES <= chr.Length && idx as object != chr as object
    modifies chr
    ensures Packs(chr[..], base, idx[..]) && PlaneBytes(chr[..], base, idx[..])
    ensures chr[..base] == old(chr[..base]) && chr[base + TILE_BYTES..] == old(chr[base + TILE_BYTES..])
  {
    hide PlanesOf, WithRow, Unpacked, Packs, PlaneBytes;
    var i := 0;
    while i < TILE_BYTES
      invariant 0 <= i <= TILE_BYTES
      invariant chr[..base] == old(chr[..base]) && chr[base + TILE_BYTES..] == old(chr[base + TILE_BYTES..])
    {
      chr[base + i] := 0;
      i := i + 1;
    }
    var y := 0;
    while y < 8
      invariant 0 <= y <= 8 && RowsPacked(chr[..], base, idx[..], y)
      invariant chr[..base] == old(chr[..base]) && chr[base + TILE_BYTES..] == old(chr[base + TILE_BYTES..])
    {
      var p0, p1, p2, p3 := PackRow(idx, y);
      RowLands(chr[..], base, idx[..], y, p0, p1, p2, p3);
      StoreRow(chr, base, y, p0, p1, p2, p3);
      y := y + 1;
    }
    AllRows(chr[..], base, idx[..]);
    PackedBytes(chr[..], base, idx[..]);
  }

  lemma AllRows(chr: seq<bv8>, base: nat, idx: seq<Color>)
    requires base + TILE_BYTES <= |chr| && |idx| == TPIX && RowsPacked(chr, base, idx, 8)
    ensures Packs(chr, base, idx)
  {}

  method StoreRow(chr: array<bv8>, base: nat, y: nat, p0: bv8, p1: bv8, p2: bv8, p3: bv8)
    requires base + TILE_BYTES <= chr.Length && y < 8
    modifies chr
    ensures chr[..] == WithRow(old(chr[..]), base, y, p0, p1, p2, p3)
    ensures chr[..base] == old(chr[..base]) && chr[base + TILE_BYTES..] == old(chr[base + TILE_BYTES..])
  {
    chr[base + 2 * y] := p0;
    chr[base + 2 * y + 1] := p1;
    chr[base + 16 + 2 * y] := p2;
    chr[base + 16 + 2 * y + 1] := p3;
    assert chr[..] == WithRow(old(chr[..]), base, y, p0, p1, p2, p3);
  }

  // ---- classification ----

  datatype Kind = Empty | Solid | Mixed

  function KindOf(tile: seq<Color>): (k: Kind)
    requires |tile| == TPIX
    ensures k == Empty <==> forall o | 0 <= o < TPIX :: tile[o] == 0
    ensures k == Solid <==> tile[0] != 0 && forall o | 0 <= o < TPIX :: tile[o] == tile[0]
  {
    if exists o | 0 <= o < TPIX :: tile[o] != tile[0] then Mixed else if tile[0] == 0 then Empty else Solid
  }

  /** hx421_tile_classify. */
  method Classify(idx: array<Color>) returns (kind: Kind, solid: Color)
    requires idx.Length == TPIX
    ensures kind == KindOf(idx[..])
    ensures kind == Solid ==> forall o | 0 <= o < TPIX :: idx[o] == solid
  {
    var first := idx[0];
    solid := 0;
    var i := 1;
    while i < TPIX
      invariant 1 <= i <= TPIX && forall o | 0 <= o < i :: idx[o] == first
    {
      if idx[i] != first {
        assert idx[..][i] != idx[..][0];
        return Mixed, 0;
      }
      i := i + 1;
    }
    if first == 0 { return Empty, 0; }
    return Solid, first;
  }

  /** Pixels among the first n whose low nibble is c. */
  function CountOf(tile: seq<Color>, n: nat, c: nat): nat
    requires n <= |tile|
  {
    if n == 0 then 0 else CountOf(tile, n - 1, c) + if tile[n - 1] % 16 == c then 1 else 0
  }

  /** The most frequent colour 1..15, the lowest of equals; 0 if there is none. */
  ghost predicate Dominant(tile: seq<Color>, d: nat) {
    if d == 0 then forall c | 1 <= c < 16 :: CountOf(tile, |tile|, c) == 0
    else
      && d < 16 && CountOf(tile, |tile|, d) > 0
      && (forall c | 1 <= c < 16 :: CountOf(tile, |tile|, c) <= CountOf(tile, |tile|, d))
      && (forall c | 1 <= c < d :: CountOf(tile, |tile|, c) < CountOf(tile, |tile|, d))
  }

  /** dominant_index. */
  method DominantIndex(idx: array<Color>) returns (d: nat)
    requires idx.Length == TPIX
    ensures Dominant(idx[..], d) && d < 16
  {
    var hist := new nat[16](_ => 0);
    var i := 0;
    while i < TPIX
      invariant 0 <= i <= TPIX
      invariant forall c | 0 <= c < 16 :: hist[c] == CountOf(idx[..], i, c)
    {
      hist[idx[i] % 16] := hist[idx[i] % 16] + 1;
      i := i + 1;
    }
    var best, bestn := 1, 0;
    var c := 1;
    while c < 16
      invariant 1 <= c <= 16 && 1 <= best < 16
      invariant bestn > 0 ==> best < c && bestn == hist[best]
      invariant forall j | 1 <= j < c :: hist[j] <= bestn && (bestn > 0 && j < best ==> hist[j] < bestn)
    {
      if hist[c] > bestn {
        bestn := hist[c];
        best := c;
      }
      c := c + 1;
    }
    return if bestn > 0 then best else 0;
  }
}
