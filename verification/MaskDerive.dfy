// Deriving an actor's mask from its artwork: every pixel that is not transparent
// becomes a 1. runtime/hx421_mask.c, hx421_derive_mask.
module MaskDerive {
  import opened Arith
  import opened TilePack
  import MaskWords
  import MaskOverlap

  const MAX_SIDE: nat := 64

  /** One sprite of an actor: packed tiles, or none, and where its corner lies. */
  datatype Part = Part(chr: Option<seq<bv8>>, tilesW: nat, tilesH: nat, rowStride: nat, ox: int, oy: int) {
    /** Tiles from one row of tiles to the next. */
    function Stride(): nat { if rowStride != 0 then rowStride else tilesW }

    predicate Drawn() { chr.Some? && tilesW > 0 && tilesH > 0 }

    /** The artwork holds every tile of the sprite. */
    predicate Whole() { Drawn() ==> ((tilesH - 1) * Stride() + tilesW) * TILE_BYTES <= |chr.value| }
  }

  // ---- what a mask must show ----

  lemma TileInside(p: Part, tx: nat, ty: nat)
    requires p.Whole() && p.Drawn() && tx < p.tilesW && ty < p.tilesH
    ensures (ty * p.Stride() + tx) * TILE_BYTES + TILE_BYTES <= |p.chr.value|
  {
    RowsBefore(ty, p.tilesH - 1 - ty, p.Stride());
  }

  lemma RowsBefore(ty: nat, more: nat, n: nat)
    ensures ty * n <= (ty + more) * n
  {
    assert (ty + more) * n == ty * n + more * n;
  }

  /** Pixel (c, r) of tile (tx, ty) has a colour. */
  predicate Coloured(p: Part, tx: nat, ty: nat, c: nat, r: nat)
    requires p.Whole() && p.Drawn() && tx < p.tilesW && ty < p.tilesH && c < 8 && r < 8
  {
    TileInside(p, tx, ty);
    Unpacked(p.chr.value, (ty * p.Stride() + tx) * TILE_BYTES, 8 * r + c) != 0
  }

  /** The part covers pixel (x, y) of the actor, and not with its transparent colour. */
  predicate Opaque(p: Part, x: int, y: int)
    requires p.Whole()
  {
    && p.Drawn() && p.ox <= x < p.ox + 8 * p.tilesW && p.oy <= y < p.oy + 8 * p.tilesH
    && Coloured(p, (x - p.ox) / 8, (y - p.oy) / 8, (x - p.ox) % 8, (y - p.oy) % 8)
  }

  ghost predicate AnyOpaque(parts: seq<Part>, n: nat, x: int, y: int)
    requires n <= |parts| && forall i | 0 <= i < |parts| :: parts[i].Whole()
  {
    exists i: nat :: i < n && Opaque(parts[i], x, y)
  }

  /** In the planes themselves: a colour is some plane's bit, the most significant
      for column 0. */
  lemma ColouredIs(p: Part, tx: nat, ty: nat, c: nat, r: nat, rs: nat)
    requires p.Whole() && p.Drawn() && tx < p.tilesW && ty < p.tilesH && c < 8 && r < 8
    requires rs == if p.rowStride != 0 then p.rowStride else p.tilesW
    ensures var at := 32 * (ty * rs + tx);
            && at + 32 <= |p.chr.value|
            && (Coloured(p, tx, ty, c, r) <==>
                  || MaskWords.ByteBit(p.chr.value[at + 2 * r], c)
                  || MaskWords.ByteBit(p.chr.value[at + 2 * r + 1], c)
                  || MaskWords.ByteBit(p.chr.value[at + 16 + 2 * r], c)
                  || MaskWords.ByteBit(p.chr.value[at + 16 + 2 * r + 1], c))
  {
    TileInside(p, tx, ty);
    var chr, at := p.chr.value, 32 * (ty * rs + tx);
    OnIsByteBit(chr[at + 2 * r], c);
    OnIsByteBit(chr[at + 2 * r + 1], c);
    OnIsByteBit(chr[at + 16 + 2 * r], c);
    OnIsByteBit(chr[at + 16 + 2 * r + 1], c);
    hide On, MaskWords.ByteBit;
  }

  lemma OnIsByteBit(b: bv8, c: nat)
    requires c < 8
    ensures On(b, c) == MaskWords.ByteBit(b, c)
  {
    OnIsTable(b, c);
    MaskWords.ByteIsTable(b, c);
    BothTables(b, c);
    hide On, MaskWords.ByteBit;
  }

  lemma BothTables(b: bv8, c: nat)
    requires c < 8
    ensures (b & ColumnTable(c) != 0) == MaskWords.ByteTable(b, c)
  {}

  // ---- bits ----

  /** Bit (x, y) of a bitmap with rows of `stride` bytes. */
  predicate BitAt(bits: seq<bv8>, stride: nat, x: nat, y: nat)
    requires x < 8 * stride && (y + 1) * stride <= |bits|
  {
    ByteInRow(x, y, stride);
    MaskWords.ByteBit(bits[y * stride + x / 8], x % 8)
  }

  lemma ByteInRow(x: nat, y: nat, stride: nat)
    requires x < 8 * stride
    ensures y * stride + x / 8 < (y + 1) * stride
  {
    assert (y + 1) * stride == y * stride + stride;
  }

  lemma RowsFit(y: nat, h: nat, stride: nat)
    requires y < h
    ensures (y + 1) * stride <= h * stride
  {
    RowsBefore(y + 1, h - (y + 1), stride);
  }

  lemma SameByte(x: nat, y: nat, u: nat, v: nat, stride: nat)
    requires x < 8 * stride && u < 8 * stride
    ensures y * stride + x / 8 == v * stride + u / 8 <==> y == v && x / 8 == u / 8
  {
    if y * stride + x / 8 == v * stride + u / 8 {
      DivModUnique(y * stride + x / 8, stride, y, x / 8);
      DivModUnique(v * stride + u / 8, stride, v, u / 8);
    }
  }

  /** mask_set. */
  method SetBit(bits: array<bv8>, stride: nat, x: nat, y: nat)
    requires x < 8 * stride && (y + 1) * stride <= bits.Length
    modifies bits
    ensures forall u: nat, v: nat | u < 8 * stride && (v + 1) * stride <= bits.Length ::
              BitAt(bits[..], stride, u, v) == (BitAt(old(bits[..]), stride, u, v) || (u == x && v == y))
    ensures bits[(y + 1) * stride..] == old(bits[(y + 1) * stride..])
  {
    hide On, Or, ColumnBit, MaskWords.ByteBit;
    ByteInRow(x, y, stride);
    var at := y * stride + x / 8;
    ghost var before := bits[..];
    bits[at] := Or(bits[at], ColumnBit(x % 8));
    forall u: nat, v: nat | u < 8 * stride && (v + 1) * stride <= bits.Length
      ensures BitAt(bits[..], stride, u, v) == (BitAt(before, stride, u, v) || (u == x && v == y))
    {
      SameByte(x, y, u, v, stride);
      SetColumn(before[at], x % 8, u % 8);
      OnIsByteBit(Or(before[at], ColumnBit(x % 8)), u % 8);
      OnIsByteBit(before[at], u % 8);
    }
  }

  // ---- painting one part ----

  /** The scan has come past this pixel's place: row ty of tiles, tile tx in it, row r
      of that, column c. */
  predicate Reached(p: Part, x: int, y: int, ty: nat, tx: nat, r: nat, c: nat) {
    var a, b, e, f := (y - p.oy) / 8, (x - p.ox) / 8, (y - p.oy) % 8, (x - p.ox) % 8;
    a < ty || (a == ty && (b < tx || (b == tx && (e < r || (e == r && f < c)))))
  }

  lemma ReachedMore(p: Part, x: int, y: int, ty: nat, tx: nat, r: nat, c: nat)
    requires r < 8 && c < 8
    ensures Reached(p, x, y, ty, tx, r, c + 1) <==>
            Reached(p, x, y, ty, tx, r, c) || (x == p.ox + 8 * tx + c && y == p.oy + 8 * ty + r)
  {
    PlaceIs(x - p.ox, tx, c);
    PlaceIs(y - p.oy, ty, r);
  }

  lemma PlaceIs(d: int, t: nat, c: nat)
    requires c < 8
    ensures d == 8 * t + c <==> d / 8 == t && d % 8 == c
  {
    if d == 8 * t + c {
      DivModUnique(d, 8, t, c);
    }
  }

  lemma ReachedEnds(p: Part, x: int, y: int, ty: nat, tx: nat, r: nat)
    ensures Reached(p, x, y, ty, tx, r, 8) <==> Reached(p, x, y, ty, tx, r + 1, 0)
    ensures Reached(p, x, y, ty, tx, 8, 0) <==> Reached(p, x, y, ty, tx + 1, 0, 0)
    ensures p.Whole() && Opaque(p, x, y) ==>
              && !Reached(p, x, y, 0, 0, 0, 0)
              && (Reached(p, x, y, ty, p.tilesW, 0, 0) <==> Reached(p, x, y, ty + 1, 0, 0, 0))
              && Reached(p, x, y, p.tilesH, 0, 0, 0)
  {
    TileOfPlace(x - p.ox, p.tilesW);
    TileOfPlace(y - p.oy, p.tilesH);
    hide Coloured;
  }

  lemma TileOfPlace(d: int, n: nat)
    ensures 0 <= d < 8 * n ==> 0 <= d / 8 < n
    ensures 0 <= d % 8 < 8
  {}

  /** Every opaque pixel reached so far was set; nothing else was. */
  ghost predicate Painted(before: seq<bv8>, now: seq<bv8>, stride: nat, w: nat, h: nat, p: Part,
                          ty: nat, tx: nat, r: nat, c: nat)
    requires h * stride <= |before| == |now| && p.Whole()
  {
    forall x: nat, y: nat | x < 8 * stride && y < h ::
      PixelPainted(before, now, stride, w, h, p, ty, tx, r, c, x, y)
  }

  ghost predicate PixelPainted(before: seq<bv8>, now: seq<bv8>, stride: nat, w: nat, h: nat, p: Part,
                               ty: nat, tx: nat, r: nat, c: nat, x: nat, y: nat)
    requires h * stride <= |before| == |now| && p.Whole() && x < 8 * stride && y < h
  {
    RowsFit(y, h, stride);
    BitAt(now, stride, x, y) ==
      (BitAt(before, stride, x, y) || (x < w && Opaque(p, x, y) && Reached(p, x, y, ty, tx, r, c)))
  }

  /** The scan moves to a place that is past the same opaque pixels. */
  lemma PaintedOn(before: seq<bv8>, now: seq<bv8>, stride: nat, w: nat, h: nat, p: Part,
                  ty: nat, tx: nat, r: nat, c: nat, ty': nat, tx': nat, r': nat, c': nat)
    requires h * stride <= |before| == |now| && p.Whole() && Painted(before, now, stride, w, h, p, ty, tx, r, c)
    requires forall x: nat, y: nat | x < w && y < h && Opaque(p, x, y) ::
               Reached(p, x, y, ty, tx, r, c) == Reached(p, x, y, ty', tx', r', c')
    ensures Painted(before, now, stride, w, h, p, ty', tx', r', c')
  {
    hide Reached, Opaque, BitAt;
    forall x: nat, y: nat | x < 8 * stride && y < h
      ensures PixelPainted(before, now, stride, w, h, p, ty', tx', r', c', x, y)
    {
      assert PixelPainted(before, now, stride, w, h, p, ty, tx, r, c, x, y);
    }
  }

  /** One more column: its pixel was set if it is opaque and inside, and only then. */
  lemma PaintedMore(before: seq<bv8>, mid: seq<bv8>, now: seq<bv8>, stride: nat, w: nat, h: nat, p: Part,
                    ty: nat, tx: nat, r: nat, c: nat)
    requires h * stride <= |before| == |mid| == |now| && p.Whole() && w <= 8 * stride && r < 8 && c < 8
    requires Painted(before, mid, stride, w, h, p, ty, tx, r, c)
    requires forall x: nat, y: nat | x < 8 * stride && y < h :: SetAt(mid, now, stride, w, h, p, ty, tx, r, c, x, y)
    ensures Painted(before, now, stride, w, h, p, ty, tx, r, c + 1)
  {
    hide Reached, Opaque, BitAt;
    var next := c + 1;
    forall x: nat, y: nat | x < 8 * stride && y < h
      ensures PixelPainted(before, now, stride, w, h, p, ty, tx, r, next, x, y)
    {
      assert PixelPainted(before, mid, stride, w, h, p, ty, tx, r, c, x, y);
      assert SetAt(mid, now, stride, w, h, p, ty, tx, r, c, x, y);
      ReachedMore(p, x, y, ty, tx, r, c);
    }
  }

  ghost predicate SetAt(mid: seq<bv8>, now: seq<bv8>, stride: nat, w: nat, h: nat, p: Part,
                        ty: nat, tx: nat, r: nat, c: nat, x: nat, y: nat)
    requires h * stride <= |mid| == |now| && p.Whole() && x < 8 * stride && y < h
  {
    RowsFit(y, h, stride);
    BitAt(now, stride, x, y) ==
      (BitAt(mid, stride, x, y) ||
       (x < w && Opaque(p, x, y) && x == p.ox + 8 * tx + c && y == p.oy + 8 * ty + r))
  }

  /** The pixel at a place of the scan, as the artwork has it. */
  lemma OpaqueAt(p: Part, ty: nat, tx: nat, r: nat, c: nat)
    requires p.Whole() && p.Drawn() && tx < p.tilesW && ty < p.tilesH && c < 8 && r < 8
    ensures Opaque(p, p.ox + 8 * tx + c, p.oy + 8 * ty + r) == Coloured(p, tx, ty, c, r)
  {
    PlaceIs(8 * tx + c, tx, c);
    PlaceIs(8 * ty + r, ty, r);
    hide Coloured;
  }

  /** tile_row_nonzero: the four planes of a row. */
  function RowPlanes(chr: seq<bv8>, at: nat, r: nat): bv8
    requires at + 32 <= |chr| && r < 8
  {
    chr[at + 2 * r] | chr[at + 2 * r + 1] | chr[at + 16 + 2 * r] | chr[at + 16 + 2 * r + 1]
  }

  lemma OrBits(a: bv8, b: bv8, c: bv8, d: bv8, k: nat)
    requires k < 8
    ensures MaskWords.ByteBit(a | b | c | d, k) ==
            (MaskWords.ByteBit(a, k) || MaskWords.ByteBit(b, k) || MaskWords.ByteBit(c, k) || MaskWords.ByteBit(d, k))
    ensures !MaskWords.ByteBit(0, k)
  {
    MaskWords.ByteIsTable(a | b | c | d, k);
    MaskWords.ByteIsTable(a, k);
    MaskWords.ByteIsTable(b, k);
    MaskWords.ByteIsTable(c, k);
    MaskWords.ByteIsTable(d, k);
    MaskWords.ByteIsTable(0, k);
    hide MaskWords.ByteBit;
  }

  lemma PlanesAre(p: Part, tx: nat, ty: nat, c: nat, r: nat)
    requires p.Whole() && p.Drawn() && tx < p.tilesW && ty < p.tilesH && c < 8 && r < 8
    ensures (ty * p.Stride() + tx) * 32 + 32 <= |p.chr.value|
    ensures var nz := RowPlanes(p.chr.value, (ty * p.Stride() + tx) * 32, r);
            Coloured(p, tx, ty, c, r) == MaskWords.ByteBit(nz, c) && (nz == 0 ==> !Coloured(p, tx, ty, c, r))
  {
    ColouredIs(p, tx, ty, c, r, p.Stride());
    var chr, at := p.chr.value, (ty * p.Stride() + tx) * 32;
    OrBits(chr[at + 2 * r], chr[at + 2 * r + 1], chr[at + 16 + 2 * r], chr[at + 16 + 2 * r + 1], c);
    hide MaskWords.ByteBit, Coloured;
  }

  // ---- the loops ----

  /** A bitmap of h rows of w pixels at the start of an array. */
  ghost predicate Fits(bits: array<bv8>, stride: nat, w: nat, h: nat) {
    w <= 8 * stride && h * stride <= bits.Length
  }

  /** The innermost loop: one row of a tile. */
  method PaintRow(p: Part, tx: nat, ty: nat, r: nat, bits: array<bv8>, stride: nat, w: nat, h: nat,
                  ghost before: seq<bv8>)
    requires p.Whole() && p.Drawn() && tx < p.tilesW && ty < p.tilesH && r < 8 && Fits(bits, stride, w, h)
    requires |before| == bits.Length && Painted(before, bits[..], stride, w, h, p, ty, tx, r, 0)
    modifies bits
    ensures Painted(before, bits[..], stride, w, h, p, ty, tx, r + 1, 0)
    ensures bits[h * stride..] == old(bits[h * stride..])
  {
    hide Painted, SetAt, Coloured, Opaque, MaskWords.ByteBit, RowPlanes;
    TileInside(p, tx, ty);
    var nz := RowPlanes(p.chr.value, (ty * p.Stride() + tx) * TILE_BYTES, r);
    var y := p.oy + 8 * ty + r;
    if nz == 0 || y < 0 || y >= h {
      SkippedRow(before, bits[..], stride, w, h, p, ty, tx, r);
      return;
    }
    RowsFit(y, h, stride);
    var c := 0;
    while c < 8
      invariant 0 <= c <= 8 && Painted(before, bits[..], stride, w, h, p, ty, tx, r, c)
      invariant bits[h * stride..] == old(bits[h * stride..])
    {
      ghost var mid := bits[..];
      PlanesAre(p, tx, ty, c, r);
      OpaqueAt(p, ty, tx, r, c);
      var x := p.ox + 8 * tx + c;
      if MaskWords.ByteBit(nz, c) && 0 <= x < w {
        SetBit(bits, stride, x, y);
        BeyondKept(mid, bits[..], (y + 1) * stride, h * stride);
        NowSet(mid, bits[..], stride, w, h, p, ty, tx, r, c, true);
      } else {
        NowSet(mid, bits[..], stride, w, h, p, ty, tx, r, c, false);
      }
      PaintedMore(before, mid, bits[..], stride, w, h, p, ty, tx, r, c);
      c := c + 1;
    }
    RowPainted(before, bits[..], stride, w, h, p, ty, tx, r);
  }

  lemma BeyondKept(mid: seq<bv8>, now: seq<bv8>, a: nat, b: nat)
    requires a <= b <= |mid| == |now| && mid[a..] == now[a..]
    ensures mid[b..] == now[b..]
  {
    assert mid[b..] == mid[a..][b - a..] && now[b..] == now[a..][b - a..];
  }

  /** What one turn of the loop leaves of every bit. */
  lemma NowSet(mid: seq<bv8>, now: seq<bv8>, stride: nat, w: nat, h: nat, p: Part, ty: nat, tx: nat, r: nat, c: nat,
               lit: bool)
    requires h * stride <= |mid| == |now| && p.Whole() && w <= 8 * stride
    requires var x, y := p.ox + 8 * tx + c, p.oy + 8 * ty + r;
             if lit
             then
               0 <= x < w && Opaque(p, x, y) &&
               forall u: nat, v: nat | u < 8 * stride && (v + 1) * stride <= |now| ::
                 BitAt(now, stride, u, v) == (BitAt(mid, stride, u, v) || (u == x && v == y))
             else now == mid && !(0 <= x < w && Opaque(p, x, y))
    ensures forall x: nat, y: nat | x < 8 * stride && y < h :: SetAt(mid, now, stride, w, h, p, ty, tx, r, c, x, y)
  {
    hide Opaque, BitAt;
    forall x: nat, y: nat | x < 8 * stride && y < h
      ensures SetAt(mid, now, stride, w, h, p, ty, tx, r, c, x, y)
    {
      RowsFit(y, h, stride);
    }
  }

  lemma RowPainted(before: seq<bv8>, now: seq<bv8>, stride: nat, w: nat, h: nat, p: Part, ty: nat, tx: nat, r: nat)
    requires h * stride <= |before| == |now| && p.Whole() && Painted(before, now, stride, w, h, p, ty, tx, r, 8)
    ensures Painted(before, now, stride, w, h, p, ty, tx, r + 1, 0)
  {
    hide Painted, Reached, Opaque;
    forall x: nat, y: nat | x < w && y < h && Opaque(p, x, y)
      ensures Reached(p, x, y, ty, tx, r, 8) == Reached(p, x, y, ty, tx, r + 1, 0)
    {
      ReachedEnds(p, x, y, ty, tx, r);
    }
    PaintedOn(before, now, stride, w, h, p, ty, tx, r, 8, ty, tx, r + 1, 0);
  }

  /** A row with nothing in it, or outside the actor. */
  lemma SkippedRow(before: seq<bv8>, now: seq<bv8>, stride: nat, w: nat, h: nat, p: Part, ty: nat, tx: nat, r: nat)
    requires h * stride <= |before| == |now| && p.Whole() && p.Drawn() && tx < p.tilesW && ty < p.tilesH && r < 8
    requires Painted(before, now, stride, w, h, p, ty, tx, r, 0)
    requires var y := p.oy + 8 * ty + r;
             y < 0 || y >= h || ((ty * p.Stride() + tx) * 32 + 32 <= |p.chr.value| &&
                                 RowPlanes(p.chr.value, (ty * p.Stride() + tx) * 32, r) == 0)
    ensures Painted(before, now, stride, w, h, p, ty, tx, r + 1, 0)
  {
    hide Painted, Reached, Opaque, Coloured, RowPlanes;
    forall x: nat, y: nat | x < w && y < h && Opaque(p, x, y)
      ensures Reached(p, x, y, ty, tx, r, 0) == Reached(p, x, y, ty, tx, r + 1, 0)
    {
      SkippedPixel(w, h, p, ty, tx, r, x, y, 8);
      ReachedEnds(p, x, y, ty, tx, r);
    }
    PaintedOn(before, now, stride, w, h, p, ty, tx, r, 0, ty, tx, r + 1, 0);
  }

  lemma {:induction false} SkippedPixel(w: nat, h: nat, p: Part, ty: nat, tx: nat, r: nat, x: nat, y: nat, c: nat)
    requires p.Whole() && p.Drawn() && tx < p.tilesW && ty < p.tilesH && r < 8 && c <= 8
    requires x < w && y < h && Opaque(p, x, y)
    requires var row := p.oy + 8 * ty + r;
             row < 0 || row >= h || ((ty * p.Stride() + tx) * 32 + 32 <= |p.chr.value| &&
                                     RowPlanes(p.chr.value, (ty * p.Stride() + tx) * 32, r) == 0)
    ensures Reached(p, x, y, ty, tx, r, 0) == Reached(p, x, y, ty, tx, r, c)
    decreases c
  {
    hide Reached, Opaque, Coloured, RowPlanes;
    if c > 0 {
      SkippedPixel(w, h, p, ty, tx, r, x, y, c - 1);
      ReachedMore(p, x, y, ty, tx, r, c - 1);
      PlanesAre(p, tx, ty, c - 1, r);
      OpaqueAt(p, ty, tx, r, c - 1);
    }
  }

  /** The loops over one part. */
  method PaintPart(p: Part, bits: array<bv8>, stride: nat, w: nat, h: nat)
    requires p.Whole() && Fits(bits, stride, w, h)
    modifies bits
    ensures Painted(old(bits[..]), bits[..], stride, w, h, p, p.tilesH, 0, 0, 0)
    ensures bits[h * stride..] == old(bits[h * stride..])
  {
    hide Painted, Reached, Opaque;
    ghost var before := bits[..];
    NothingPainted(before, stride, w, h, p);
    if !p.Drawn() {
      NoneOpaque(before, stride, w, h, p);
      return;
    }
    var ty := 0;
    while ty < p.tilesH
      invariant 0 <= ty <= p.tilesH && Painted(before, bits[..], stride, w, h, p, ty, 0, 0, 0)
      invariant bits[h * stride..] == old(bits[h * stride..])
    {
      var tx := 0;
      while tx < p.tilesW
        invariant 0 <= tx <= p.tilesW && Painted(before, bits[..], stride, w, h, p, ty, tx, 0, 0)
        invariant bits[h * stride..] == old(bits[h * stride..])
      {
        var r := 0;
        while r < 8
          invariant 0 <= r <= 8 && Painted(before, bits[..], stride, w, h, p, ty, tx, r, 0)
          invariant bits[h * stride..] == old(bits[h * stride..])
        {
          PaintRow(p, tx, ty, r, bits, stride, w, h, before);
          r := r + 1;
        }
        TilePainted(before, bits[..], stride, w, h, p, ty, tx);
        tx := tx + 1;
      }
      TilesPainted(before, bits[..], stride, w, h, p, ty);
      ty := ty + 1;
    }
  }

  lemma NothingPainted(before: seq<bv8>, stride: nat, w: nat, h: nat, p: Part)
    requires h * stride <= |before| && p.Whole()
    ensures Painted(before, before, stride, w, h, p, 0, 0, 0, 0)
  {
    hide BitAt, Reached, Opaque;
    forall x: nat, y: nat | x < 8 * stride && y < h
      ensures PixelPainted(before, before, stride, w, h, p, 0, 0, 0, 0, x, y)
    {
      ReachedEnds(p, x, y, 0, 0, 0);
    }
  }

  lemma NoneOpaque(before: seq<bv8>, stride: nat, w: nat, h: nat, p: Part)
    requires h * stride <= |before| && p.Whole() && !p.Drawn() && Painted(before, before, stride, w, h, p, 0, 0, 0, 0)
    ensures Painted(before, before, stride, w, h, p, p.tilesH, 0, 0, 0)
  {
    assert forall x, y :: !Opaque(p, x, y);
    hide Opaque, Painted, Reached;
    PaintedOn(before, before, stride, w, h, p, 0, 0, 0, 0, p.tilesH, 0, 0, 0);
  }

  lemma TilePainted(before: seq<bv8>, now: seq<bv8>, stride: nat, w: nat, h: nat, p: Part, ty: nat, tx: nat)
    requires h * stride <= |before| == |now| && p.Whole() && Painted(before, now, stride, w, h, p, ty, tx, 8, 0)
    ensures Painted(before, now, stride, w, h, p, ty, tx + 1, 0, 0)
  {
    hide Painted, Reached, Opaque;
    forall x: nat, y: nat | x < w && y < h && Opaque(p, x, y)
      ensures Reached(p, x, y, ty, tx, 8, 0) == Reached(p, x, y, ty, tx + 1, 0, 0)
    {
      ReachedEnds(p, x, y, ty, tx, 0);
    }
    PaintedOn(before, now, stride, w, h, p, ty, tx, 8, 0, ty, tx + 1, 0, 0);
  }

  lemma TilesPainted(before: seq<bv8>, now: seq<bv8>, stride: nat, w: nat, h: nat, p: Part, ty: nat)
    requires h * stride <= |before| == |now| && p.Whole() && Painted(before, now, stride, w, h, p, ty, p.tilesW, 0, 0)
    ensures Painted(before, now, stride, w, h, p, ty + 1, 0, 0, 0)
  {
    hide Painted, Reached, Opaque;
    forall x: nat, y: nat | x < w && y < h && Opaque(p, x, y)
      ensures Reached(p, x, y, ty, p.tilesW, 0, 0) == Reached(p, x, y, ty + 1, 0, 0, 0)
    {
      ReachedEnds(p, x, y, ty, 0, 0);
    }
    PaintedOn(before, now, stride, w, h, p, ty, p.tilesW, 0, 0, ty + 1, 0, 0, 0);
  }

  /** The first n parts are in the mask, and nothing else; pad bits are clear. */
  ghost predicate Composed(bits: seq<bv8>, stride: nat, w: nat, h: nat, parts: seq<Part>, n: nat)
    requires h * stride <= |bits| && n <= |parts| && forall i | 0 <= i < |parts| :: parts[i].Whole()
  {
    forall x: nat, y: nat | x < 8 * stride && y < h :: PixelComposed(bits, stride, w, h, parts, n, x, y)
  }

  ghost predicate PixelComposed(bits: seq<bv8>, stride: nat, w: nat, h: nat, parts: seq<Part>, n: nat, x: nat, y: nat)
    requires h * stride <= |bits| && n <= |parts| && forall i | 0 <= i < |parts| :: parts[i].Whole()
    requires x < 8 * stride && y < h
  {
    RowsFit(y, h, stride);
    BitAt(bits, stride, x, y) == (x < w && AnyOpaque(parts, n, x, y))
  }

  lemma NoneComposed(bits: seq<bv8>, stride: nat, w: nat, h: nat, parts: seq<Part>)
    requires h * stride <= |bits| && forall i | 0 <= i < |parts| :: parts[i].Whole()
    requires forall i | 0 <= i < h * stride :: bits[i] == 0
    ensures Composed(bits, stride, w, h, parts, 0)
  {
    hide Opaque, MaskWords.ByteBit;
    forall x: nat, y: nat | x < 8 * stride && y < h
      ensures PixelComposed(bits, stride, w, h, parts, 0, x, y)
    {
      RowsFit(y, h, stride);
      ByteInRow(x, y, stride);
      OrBits(0, 0, 0, 0, x % 8);
    }
  }

  lemma ComposedMore(before: seq<bv8>, now: seq<bv8>, stride: nat, w: nat, h: nat, parts: seq<Part>, n: nat)
    requires h * stride <= |before| == |now| && n < |parts| && forall i | 0 <= i < |parts| :: parts[i].Whole()
    requires Composed(before, stride, w, h, parts, n)
    requires Painted(before, now, stride, w, h, parts[n], parts[n].tilesH, 0, 0, 0)
    ensures Composed(now, stride, w, h, parts, n + 1)
  {
    hide Opaque, Reached, BitAt, AnyOpaque;
    var m := n + 1;
    forall x: nat, y: nat | x < 8 * stride && y < h
      ensures PixelComposed(now, stride, w, h, parts, m, x, y)
    {
      assert PixelComposed(before, stride, w, h, parts, n, x, y);
      assert PixelPainted(before, now, stride, w, h, parts[n], parts[n].tilesH, 0, 0, 0, x, y);
      ReachedEnds(parts[n], x, y, 0, 0, 0);
      AnyMore(parts, n, x, y);
    }
  }

  lemma AnyMore(parts: seq<Part>, n: nat, x: int, y: int)
    requires n < |parts| && forall i | 0 <= i < |parts| :: parts[i].Whole()
    ensures AnyOpaque(parts, n + 1, x, y) <==> AnyOpaque(parts, n, x, y) || Opaque(parts[n], x, y)
  {
    hide Opaque;
  }

  /** hx421_derive_mask: the mask shows a pixel exactly where some part is opaque. */
  method DeriveMask(parts: seq<Part>, w: nat, h: nat, bits: array<bv8>, cap: nat) returns (bytes: nat)
    requires cap <= bits.Length && forall i | 0 <= i < |parts| :: parts[i].Whole()
    modifies bits
    ensures var size := (w + 7) / 8 * h;
            && bytes == (if w == 0 || h == 0 || w > 64 || h > 64 || size > cap then 0 else size)
            && bytes <= bits.Length && bits[bytes..] == old(bits[bytes..])
            && (bytes > 0 ==>
                  var m := MaskOverlap.Mask(w, h, (w + 7) / 8, bits[..]); IsMaskOf(m, parts) && PadsClear(m))
  {
    if w == 0 || h == 0 { return 0; }
    if w > MAX_SIDE || h > MAX_SIDE { return 0; }
    var stride := (w + 7) / 8;
    bytes := stride * h;
    if bytes > cap { return 0; }
    hide Composed, Painted, IsMaskOf, PadsClear;
    var i := 0;
    while i < bytes
      invariant 0 <= i <= bytes && forall k | 0 <= k < i :: bits[k] == 0
      invariant bits[bytes..] == old(bits[bytes..])
    {
      bits[i] := 0;
      i := i + 1;
    }
    NoneComposed(bits[..], stride, w, h, parts);
    var n := 0;
    while n < |parts|
      invariant 0 <= n <= |parts| && Composed(bits[..], stride, w, h, parts, n)
      invariant bits[bytes..] == old(bits[bytes..])
    {
      ghost var before := bits[..];
      PaintPart(parts[n], bits, stride, w, h);
      ComposedMore(before, bits[..], stride, w, h, parts, n);
      n := n + 1;
    }
    ComposedIsMask(bits[..], stride, w, h, parts);
  }

  /** Every pixel of the mask, inside its box and outside, is some part's opaque one
      or clear. */
  ghost predicate IsMaskOf(m: MaskOverlap.Mask, parts: seq<Part>)
    requires forall i | 0 <= i < |parts| :: parts[i].Whole()
  {
    && MaskOverlap.Shaped(m)
    && forall x, y :: MaskOverlap.Get(m, x, y) ==
                      (0 <= x < m.w && 0 <= y < m.h && AnyOpaque(parts, |parts|, x, y))
  }

  /** The bits that fill up a row's last byte are 0. */
  ghost predicate PadsClear(m: MaskOverlap.Mask) {
    && MaskOverlap.Shaped(m)
    && forall x: nat, y: nat | m.w <= x < 8 * m.stride && y < m.h :: PadClear(m, x, y)
  }

  ghost predicate PadClear(m: MaskOverlap.Mask, x: nat, y: nat)
    requires MaskOverlap.Shaped(m) && x < 8 * m.stride && y < m.h
  {
    RowsFit(y, m.h, m.stride);
    !BitAt(m.bits, m.stride, x, y)
  }

  lemma ComposedIsMask(bits: seq<bv8>, stride: nat, w: nat, h: nat, parts: seq<Part>)
    requires 1 <= w <= 8 * stride && h * stride <= |bits| && forall i | 0 <= i < |parts| :: parts[i].Whole()
    requires Composed(bits, stride, w, h, parts, |parts|)
    ensures var m := MaskOverlap.Mask(w, h, stride, bits); IsMaskOf(m, parts) && PadsClear(m)
  {
    hide Opaque, AnyOpaque, MaskWords.ByteBit;
    var m := MaskOverlap.Mask(w, h, stride, bits);
    forall x: nat, y: nat | m.w <= x < 8 * m.stride && y < m.h
      ensures PadClear(m, x, y)
    {
      assert PixelComposed(bits, stride, w, h, parts, |parts|, x, y);
    }
    forall x, y
      ensures MaskOverlap.Get(m, x, y) == (0 <= x < w && 0 <= y < h && AnyOpaque(parts, |parts|, x, y))
    {
      if 0 <= x < w && 0 <= y < h {
        assert PixelComposed(bits, stride, w, h, parts, |parts|, x, y);
      }
    }
  }

  /** PIXEL-EXACT COLLISION: two derived masks hit at a world pixel exactly where both
      actors' artwork, inside their boxes, is opaque. */
  lemma HitIsContact(a: MaskOverlap.Placed, pa: seq<Part>, b: MaskOverlap.Placed, pb: seq<Part>, x: int, y: int)
    requires forall i | 0 <= i < |pa| :: pa[i].Whole()
    requires forall i | 0 <= i < |pb| :: pb[i].Whole()
    requires IsMaskOf(a.m, pa) && IsMaskOf(b.m, pb)
    ensures MaskOverlap.Hit(a, b, x, y) <==>
            && 0 <= x - a.x < a.m.w && 0 <= y - a.y < a.m.h && 0 <= x - b.x < b.m.w && 0 <= y - b.y < b.m.h
            && (exists i: nat :: i < |pa| && Opaque(pa[i], x - a.x, y - a.y))
            && (exists i: nat :: i < |pb| && Opaque(pb[i], x - b.x, y - b.y))
  {
    hide Opaque, MaskOverlap.Get;
  }
}
