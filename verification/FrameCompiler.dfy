// Compiling a frame: rasterise every tile, give mixed ones a CHR slot, fill the
// tilemap, count. runtime/hx421_raster.c.
module FrameCompiler {
  import opened Arith
  import opened RasterGeometry
  import opened TileRaster
  import opened TilePack

  const DYN_BASE: nat := 16
  const DYN_SLOTS: nat := 750
  const MAP_W: nat := 32
  const MAP_H: nat := 32

  /** The colours tile (tx, ty) rasterises to, on cleared buffers. */
  function TileOf(tris: seq<Tri>, tx: nat, ty: nat): (tile: seq<Color>)
    ensures |tile| == TPIX
  {
    Colors(Shaded(tris, |tris|, tx, ty, seq(TPIX, o => Pix(ZFAR, 0))))
  }

  function Colors(s: seq<Pix>): (c: seq<Color>)
    ensures |c| == |s|
  {
    seq(|s|, o requires 0 <= o < |s| => s[o].color)
  }

  lemma ColorsOfBuffers(idx: seq<Color>, zbuf: seq<Depth>)
    requires |idx| == |zbuf| == TPIX
    ensures Colors(Buffers(idx, zbuf)) == idx
  {}

  // ---- the order of the scan ----

  datatype Place = Place(x: nat, y: nat)

  /** Tiles of kind k met before (x, y), row by row, in a screen w tiles wide. */
  function MetBefore(tris: seq<Tri>, w: nat, k: Kind, x: nat, y: nat): nat
    decreases y, x
  {
    if x > 0 then MetBefore(tris, w, k, x - 1, y) + if KindOf(TileOf(tris, x - 1, y)) == k then 1 else 0
    else if y > 0 then MetBefore(tris, w, k, w, y - 1)
    else 0
  }

  // ---- what an entry must say ----

  /** Pixel o that a tilemap entry puts on screen: a resident tile or a CHR slot. */
  function ShownBy(entry: nat, chr: seq<bv8>, o: nat): nat
    requires o < TPIX && |chr| == DYN_SLOTS * TILE_BYTES
  {
    var n := entry % 1024;
    if n < DYN_BASE then n
    else if n - DYN_BASE < DYN_SLOTS then Unpacked(chr, (n - DYN_BASE) * TILE_BYTES, o)
    else 0
  }

  /** The entry of a tile that met `before` mixed tiles earlier. */
  ghost predicate EntryOk(entry: nat, attr: nat, chr: seq<bv8>, tile: seq<Color>, before: nat)
    requires |tile| == TPIX && |chr| == DYN_SLOTS * TILE_BYTES
  {
    match KindOf(tile)
    case Empty => entry == attr
    case Solid => entry == attr + tile[0]
    case Mixed =>
      if before < DYN_SLOTS then entry == attr + DYN_BASE + before && Packs(chr, before * TILE_BYTES, tile)
      else entry >= attr && Dominant(tile, entry - attr)
  }

  /** Scanned before (x, y). */
  predicate Earlier(i: nat, j: nat, x: nat, y: nat) { j < y || (j == y && i < x) }

  /** The entries of all tiles scanned before (x, y) are right. */
  ghost predicate ScannedOk(tris: seq<Tri>, w: nat, attr: nat, cells: seq<nat>, chr: seq<bv8>, x: nat, y: nat)
    requires |cells| == MAP_W * MAP_H && |chr| == DYN_SLOTS * TILE_BYTES && w <= MAP_W && y <= MAP_H
  {
    forall i: nat, j: nat | i < w && j < MAP_H && Earlier(i, j, x, y) ::
      EntryOk(cells[j * MAP_W + i], attr, chr, TileOf(tris, i, j), MetBefore(tris, w, Mixed, i, j))
  }

  lemma {:induction false} MetGrows(tris: seq<Tri>, w: nat, k: Kind, i: nat, j: nat, x: nat, y: nat)
    requires i < w && x <= w && Earlier(i, j, x, y)
    ensures MetBefore(tris, w, k, i, j) + (if KindOf(TileOf(tris, i, j)) == k then 1 else 0) <=
            MetBefore(tris, w, k, x, y)
    decreases y, x
  {
    hide KindOf, TileOf;
    if x > 0 {
      if !(j == y && i == x - 1) {
        MetGrows(tris, w, k, i, j, x - 1, y);
      }
    } else {
      MetGrows(tris, w, k, i, j, w, y - 1);
    }
  }

  /** A tile's entry does not change when another tile takes a later slot. */
  lemma EntryStays(entry: nat, attr: nat, chr0: seq<bv8>, chr1: seq<bv8>, tile: seq<Color>, before: nat, slot: nat)
    requires |tile| == TPIX && |chr0| == |chr1| == DYN_SLOTS * TILE_BYTES && slot < DYN_SLOTS
    requires EntryOk(entry, attr, chr0, tile, before) && (KindOf(tile) == Mixed ==> before < slot)
    requires chr0[..slot * TILE_BYTES] == chr1[..slot * TILE_BYTES]
    ensures EntryOk(entry, attr, chr1, tile, before)
  {
    hide Packs, Dominant;
    if KindOf(tile) == Mixed && before < DYN_SLOTS {
      var b := before * TILE_BYTES;
      SamePrefix(chr0, chr1, b, b + TILE_BYTES, slot * TILE_BYTES);
      PacksElsewhere(chr0, chr1, b, tile);
    }
  }

  /** One more entry, at a cell no earlier tile uses. */
  lemma ScannedMore(tris: seq<Tri>, w: nat, attr: nat, cells0: seq<nat>, chr0: seq<bv8>, chr1: seq<bv8>, x: nat,
                    y: nat, entry: nat)
    requires |cells0| == MAP_W * MAP_H && |chr0| == |chr1| == DYN_SLOTS * TILE_BYTES && x < w <= MAP_W && y < MAP_H
    requires ScannedOk(tris, w, attr, cells0, chr0, x, y)
    requires EntryOk(entry, attr, chr1, TileOf(tris, x, y), MetBefore(tris, w, Mixed, x, y))
    requires chr1 == chr0 ||
             (MetBefore(tris, w, Mixed, x, y) < DYN_SLOTS &&
              chr0[..MetBefore(tris, w, Mixed, x, y) * TILE_BYTES] ==
                chr1[..MetBefore(tris, w, Mixed, x, y) * TILE_BYTES])
    ensures ScannedOk(tris, w, attr, cells0[y * MAP_W + x := entry], chr1, x + 1, y)
  {
    hide EntryOk, TileOf, KindOf, MetBefore;
    var cells1 := cells0[y * MAP_W + x := entry];
    forall i: nat, j: nat | i < w && j < MAP_H && Earlier(i, j, x + 1, y)
      ensures EntryOk(cells1[j * MAP_W + i], attr, chr1, TileOf(tris, i, j), MetBefore(tris, w, Mixed, i, j))
    {
      if Earlier(i, j, x, y) {
        assert EntryOk(cells0[j * MAP_W + i], attr, chr0, TileOf(tris, i, j), MetBefore(tris, w, Mixed, i, j));
        MetGrows(tris, w, Mixed, i, j, x, y);
        if chr1 != chr0 {
          EntryStays(cells0[j * MAP_W + i], attr, chr0, chr1, TileOf(tris, i, j), MetBefore(tris, w, Mixed, i, j),
                     MetBefore(tris, w, Mixed, x, y));
        }
      } else {
        assert i == x && j == y;
      }
    }
  }

  /** The entries not scanned yet are blank. */
  ghost predicate RestBlank(w: nat, cells: seq<nat>, x: nat, y: nat)
    requires |cells| == MAP_W * MAP_H
  {
    forall c | 0 <= c < MAP_W * MAP_H && !(c % MAP_W < w && Earlier(c % MAP_W, c / MAP_W, x, y)) :: cells[c] == 0
  }

  lemma BlankMore(w: nat, cells: seq<nat>, x: nat, y: nat, entry: nat)
    requires |cells| == MAP_W * MAP_H && x < w <= MAP_W && y < MAP_H && RestBlank(w, cells, x, y)
    ensures RestBlank(w, cells[y * MAP_W + x := entry], x + 1, y)
  {
    var now := cells[y * MAP_W + x := entry];
    forall c | 0 <= c < MAP_W * MAP_H && !(c % MAP_W < w && Earlier(c % MAP_W, c / MAP_W, x + 1, y))
      ensures now[c] == 0
    {
      DivModUnique(y * MAP_W + x, MAP_W, y, x);
      assert cells[c] == 0;
    }
  }

  lemma BlankRow(w: nat, cells: seq<nat>, y: nat)
    requires |cells| == MAP_W * MAP_H && RestBlank(w, cells, w, y)
    ensures RestBlank(w, cells, 0, y + 1)
  {}

  // ---- the picture ----

  /** THE BITS OF AN ENTRY: the palette above ten bits of tile number, which is the
      colour of a tile all of one colour, 0 for a blank one, or 16 more than the
      mixed tiles before it; past 750 of those it is a mixed tile's dominant colour. */
  lemma EntryIs(tris: seq<Tri>, w: nat, h: nat, palette: nat, cells: seq<nat>, chr: seq<bv8>, i: nat, j: nat, c: nat)
    requires |cells| == MAP_W * MAP_H && |chr| == DYN_SLOTS * TILE_BYTES && i < w <= MAP_W && j < h <= MAP_H
    requires ScannedOk(tris, w, palette * 1024, cells, chr, 0, h)
    ensures EntryBits(cells[32 * j + i], palette, chr, TileOf(tris, i, j), MetBefore(tris, w, Mixed, i, j), c)
  {
    hide TileOf, MetBefore, ScannedOk, EntryOk, EntryBits;
    EntryAt(tris, w, h, palette, cells, chr, i, j);
    BitsAre(cells[32 * j + i], palette, chr, TileOf(tris, i, j), MetBefore(tris, w, Mixed, i, j), c);
  }

  ghost predicate EntryBits(entry: nat, palette: nat, chr: seq<bv8>, tile: seq<Color>, before: nat, c: nat)
    requires |tile| == TPIX && |chr| == DYN_SLOTS * TILE_BYTES
  {
    && entry / 1024 == palette
    && ((forall o | 0 <= o < 64 :: tile[o] == c) ==> entry % 1024 == c)
    && ((exists o | 0 <= o < 64 :: tile[o] != tile[0]) ==>
          if before < 750 then entry % 1024 == 16 + before && PlaneBytes(chr, 32 * before, tile)
          else Dominant(tile, entry % 1024))
  }

  lemma BitsAre(entry: nat, palette: nat, chr: seq<bv8>, tile: seq<Color>, before: nat, c: nat)
    requires |tile| == TPIX && |chr| == DYN_SLOTS * TILE_BYTES && EntryOk(entry, palette * 1024, chr, tile, before)
    ensures EntryBits(entry, palette, chr, tile, before, c)
  {
    hide EntryOk, Dominant, PlaneBytes, Packs, KindOf;
    TileNumber(entry, palette, chr, tile, before);
    KindIs(tile, c);
    if KindOf(tile) == Mixed && before < 750 {
      PackedBytes(chr, before * TILE_BYTES, tile);
    }
  }

  lemma KindIs(tile: seq<Color>, c: nat)
    requires |tile| == TPIX
    ensures (exists o | 0 <= o < 64 :: tile[o] != tile[0]) ==> KindOf(tile) == Mixed
    ensures (forall o | 0 <= o < 64 :: tile[o] == c) ==>
              (c == 0 && KindOf(tile) == Empty) || (c == tile[0] && KindOf(tile) == Solid)
  {}

  lemma EntryAt(tris: seq<Tri>, w: nat, h: nat, palette: nat, cells: seq<nat>, chr: seq<bv8>, i: nat, j: nat)
    requires |cells| == MAP_W * MAP_H && |chr| == DYN_SLOTS * TILE_BYTES && i < w <= MAP_W && j < h <= MAP_H
    requires ScannedOk(tris, w, palette * 1024, cells, chr, 0, h)
    ensures EntryOk(cells[32 * j + i], palette * 1024, chr, TileOf(tris, i, j), MetBefore(tris, w, Mixed, i, j))
  {
    hide EntryOk, TileOf, MetBefore;
    assert Earlier(i, j, 0, h);
    assert cells[32 * j + i] == cells[j * MAP_W + i];
  }

  lemma TileNumber(entry: nat, palette: nat, chr: seq<bv8>, tile: seq<Color>, before: nat)
    requires |tile| == TPIX && |chr| == DYN_SLOTS * TILE_BYTES && EntryOk(entry, palette * 1024, chr, tile, before)
    ensures entry / 1024 == palette
    ensures KindOf(tile) == Empty ==> entry % 1024 == 0
    ensures KindOf(tile) == Solid ==> entry % 1024 == tile[0]
    ensures KindOf(tile) == Mixed ==>
              if before < DYN_SLOTS then entry % 1024 == DYN_BASE + before && Packs(chr, before * TILE_BYTES, tile)
              else Dominant(tile, entry % 1024)
  {
    hide Packs;
    DivModUnique(entry, 1024, palette, entry - palette * 1024);
  }

  /** Row y of a tile of colour c alone: all ones or all zeros in each plane. */
  ghost predicate PlainRow(out: seq<bv8>, base: nat, y: nat, c: Color)
    requires base + TILE_BYTES <= |out| && y < 8
  {
    && out[base + 2 * y] as nat == 255 * (c % 2) && out[base + 2 * y + 1] as nat == 255 * (c / 2 % 2)
    && out[base + 16 + 2 * y] as nat == 255 * (c / 4 % 2) && out[base + 16 + 2 * y + 1] as nat == 255 * (c / 8 % 2)
  }

  lemma PlainBytes(out: seq<bv8>, base: nat, c: Color)
    requires base + TILE_BYTES <= |out| && Packs(out, base, Plain(c)) && c < 16
    ensures forall y | 0 <= y < 8 :: PlainRow(out, base, y, c)
  {
    hide Packs, RowBytes, PlainRow;
    var tile := Plain(c);
    assert forall o | 0 <= o < TPIX :: tile[o] == c;
    hide Plain;
    PackedBytes(out, base, tile);
    forall y | 0 <= y < 8
      ensures PlainRow(out, base, y, c)
    {
      assert RowBytes(out, base, y, tile[8 * y..8 * y + 8]);
      RowIsPlain(out, base, y, tile[8 * y..8 * y + 8], c);
    }
  }

  lemma RowIsPlain(out: seq<bv8>, base: nat, y: nat, row: seq<Color>, c: Color)
    requires base + TILE_BYTES <= |out| && y < 8 && |row| == 8 && RowBytes(out, base, y, row)
    requires forall x | 0 <= x < 8 :: row[x] == c
    ensures PlainRow(out, base, y, c)
  {
    hide IsPlane;
    PlainPlane(out[base + 2 * y], row, 1, c);
    PlainPlane(out[base + 2 * y + 1], row, 2, c);
    PlainPlane(out[base + 16 + 2 * y], row, 4, c);
    PlainPlane(out[base + 16 + 2 * y + 1], row, 8, c);
  }

  lemma PlainPlane(p: bv8, row: seq<Color>, w: nat, c: Color)
    requires |row| == 8 && w > 0 && IsPlane(p, row, w) && forall x | 0 <= x < 8 :: row[x] == c
    ensures p as nat == 255 * (c / w % 2)
  {}

  lemma {:induction false} ShadeKeepsLow(tris: seq<Tri>, n: nat, p: Point, s: Pix)
    requires n <= |tris| && s.color < 16 && forall i | 0 <= i < |tris| :: tris[i].color < 16
    ensures Shade(tris, n, p, s).color < 16
  {
    hide Wins;
    if n == 0 {
    } else {
      ShadeKeepsLow(tris, n - 1, p, s);
    }
  }

  lemma TileIsLow(tris: seq<Tri>, tx: nat, ty: nat)
    requires forall i | 0 <= i < |tris| :: tris[i].color < 16
    ensures forall o | 0 <= o < TPIX :: TileOf(tris, tx, ty)[o] < 16
  {
    hide Shade, Centre;
    forall o | 0 <= o < TPIX
      ensures TileOf(tris, tx, ty)[o] < 16
    {
      ShadeKeepsLow(tris, |tris|, Centre(tx, ty, o), Pix(ZFAR, 0));
    }
  }

  /** THE PICTURE IS PRESERVED: with colours below 16 and no more mixed tiles
      than slots, every entry shows exactly the rasterised colours. */
  lemma EntryShowsTile(entry: nat, palette: nat, chr: seq<bv8>, tile: seq<Color>, before: nat, o: nat)
    requires |tile| == TPIX && |chr| == DYN_SLOTS * TILE_BYTES && o < TPIX
    requires EntryOk(entry, palette * 1024, chr, tile, before) && forall k | 0 <= k < TPIX :: tile[k] < 16
    requires KindOf(tile) == Mixed ==> before < DYN_SLOTS
    ensures ShownBy(entry, chr, o) == tile[o]
  {
    hide Unpacked;
    var n := entry - palette * 1024;
    assert tile[0] < 16;
    DivModUnique(entry, 1024, palette, n);
    if KindOf(tile) == Mixed {
      assert Unpacked(chr, before * TILE_BYTES, o) == tile[o] % 16;
    }
  }

  predicate LowColours(tris: seq<Tri>) { forall k | 0 <= k < |tris| :: tris[k].color < 16 }

  /** Every pixel the tilemap puts on screen is the rasterised one. */
  ghost predicate ShowsPicture(tris: seq<Tri>, w: nat, h: nat, cells: seq<nat>, chr: seq<bv8>)
    requires |cells| == MAP_W * MAP_H && |chr| == DYN_SLOTS * TILE_BYTES && w <= MAP_W && h <= MAP_H
  {
    forall i: nat, j: nat, o: nat | i < w && j < h && o < TPIX ::
      ShownBy(cells[j * MAP_W + i], chr, o) == TileOf(tris, i, j)[o]
  }

  /** A pixel of a frame with at most 750 mixed tiles. */
  lemma FrameShowsPicture(tris: seq<Tri>, w: nat, h: nat, palette: nat, cells: seq<nat>, chr: seq<bv8>, i: nat,
                          j: nat, o: nat)
    requires |cells| == MAP_W * MAP_H && |chr| == DYN_SLOTS * TILE_BYTES && i < w <= MAP_W && j < h <= MAP_H && o < TPIX
    requires ScannedOk(tris, w, palette * 1024, cells, chr, 0, h)
    requires forall k | 0 <= k < |tris| :: tris[k].color < 16
    requires MetBefore(tris, w, Mixed, 0, h) <= DYN_SLOTS
    ensures ShownBy(cells[j * MAP_W + i], chr, o) == TileOf(tris, i, j)[o]
  {
    hide EntryOk, ShownBy, KindOf, TileOf, MetBefore;
    MetGrows(tris, w, Mixed, i, j, 0, h);
    TileIsLow(tris, i, j);
    EntryShowsTile(cells[j * MAP_W + i], palette, chr, TileOf(tris, i, j), MetBefore(tris, w, Mixed, i, j), o);
  }

  /** Every tile met so far is of one kind. */
  lemma {:induction false} CensusAddsUp(tris: seq<Tri>, w: nat, x: nat, y: nat)
    requires x <= w
    ensures MetBefore(tris, w, Empty, x, y) + MetBefore(tris, w, Solid, x, y) + MetBefore(tris, w, Mixed, x, y) ==
            y * w + x
    decreases y, x
  {
    hide KindOf, TileOf;
    if x > 0 {
      CensusAddsUp(tris, w, x - 1, y);
    } else if y > 0 {
      CensusAddsUp(tris, w, w, y - 1);
      assert y * w == (y - 1) * w + w;
    }
  }

  class RenderOut {
    const tilemap: array<nat>
    const chr: array<bv8>
    var used: nat
    var nEmpty: nat
    var nSolid: nat
    var nMixed: nat
    var nDegraded: nat

    ghost predicate Shape()
      reads this
    {
      tilemap.Length == MAP_W * MAP_H && chr.Length == DYN_SLOTS * TILE_BYTES && tilemap as object != chr as object
    }

    constructor ()
      ensures Shape() && fresh(tilemap) && fresh(chr)
    {
      tilemap := new nat[MAP_W * MAP_H](_ => 0);
      chr := new bv8[DYN_SLOTS * TILE_BYTES](_ => 0);
      used, nEmpty, nSolid, nMixed, nDegraded := 0, 0, 0, 0, 0;
    }

    /** The counters after the tiles before (x, y). */
    ghost predicate Counted(tris: seq<Tri>, w: nat, x: nat, y: nat)
      reads this
    {
      && nEmpty == MetBefore(tris, w, Empty, x, y)
      && nSolid == MetBefore(tris, w, Solid, x, y)
      && nMixed == MetBefore(tris, w, Mixed, x, y)
      && used == Min(nMixed, DYN_SLOTS) && nDegraded == nMixed - used
    }

    /** The switch on the tile's kind: its number, a slot if it needs one. */
    method PlaceTile(tris: seq<Tri>, w: nat, x: nat, y: nat, idx: array<Color>, ghost attr: nat) returns (tile: nat)
      requires Shape() && Counted(tris, w, x, y) && idx.Length == TPIX && idx[..] == TileOf(tris, x, y)
      requires idx as object !in {chr as object, tilemap}
      modifies this`used, this`nEmpty, this`nSolid, this`nMixed, this`nDegraded, chr
      ensures Counted(tris, w, x + 1, y)
      ensures EntryOk(tile + attr, attr, chr[..], TileOf(tris, x, y), MetBefore(tris, w, Mixed, x, y))
      ensures chr[..] == old(chr[..]) ||
              (MetBefore(tris, w, Mixed, x, y) < DYN_SLOTS &&
               chr[..MetBefore(tris, w, Mixed, x, y) * TILE_BYTES] ==
                 old(chr[..MetBefore(tris, w, Mixed, x, y) * TILE_BYTES]))
    {
      hide TileOf, Packs, Dominant, KindOf;
      var kind, solid := Classify(idx);
      match kind {
        case Empty =>
          nEmpty := nEmpty + 1;
          tile := 0;
        case Solid =>
          nSolid := nSolid + 1;
          tile := solid;
        case Mixed =>
          nMixed := nMixed + 1;
          if used < DYN_SLOTS {
            Pack4bpp(idx, chr, used * TILE_BYTES);
            tile := DYN_BASE + used;
            used := used + 1;
          } else {
            nDegraded := nDegraded + 1;
            tile := DominantIndex(idx);
          }
      }
    }

    /** hx421_render_frame; tile | attr is a sum, as tile numbers stay below 1024. */
    method RenderFrame(tris: seq<Tri>, tilesW: int, tilesH: int, palette: nat)
      requires Shape() && palette < 256
      modifies this, tilemap, chr
      ensures Shape()
      ensures tris == [] || tilesW <= 0 || tilesH <= 0 ==>
                used == nEmpty == nSolid == nMixed == nDegraded == 0 && forall c | 0 <= c < MAP_W * MAP_H ::
                    tilemap[c] == 0
      ensures tris != [] && tilesW > 0 && tilesH > 0 ==>
                var w, h := Min(tilesW, MAP_W), Min(tilesH, MAP_H);
                && Counted(tris, w, 0, h)
                && ScannedOk(tris, w, palette % 8 * 1024, tilemap[..], chr[..], 0, h)
                && RestBlank(w, tilemap[..], 0, h)
    {
      hide EntryOk, ScannedOk, RestBlank, MetBefore, TileOf, Shaded;
      used, nEmpty, nSolid, nMixed, nDegraded := 0, 0, 0, 0, 0;
      var i := 0;
      while i < MAP_W * MAP_H
        invariant 0 <= i <= MAP_W * MAP_H && Shape()
        invariant forall c | 0 <= c < i :: tilemap[c] == 0
        invariant used == nEmpty == nSolid == nMixed == nDegraded == 0
      {
        tilemap[i] := 0;
        i := i + 1;
      }
      if tris == [] || tilesW <= 0 || tilesH <= 0 { return; }
      var w, h := Min(tilesW, MAP_W), Min(tilesH, MAP_H);
      var attr := palette % 8 * 1024;
      AllBlank(w, tilemap[..]);
      var idx := new Color[TPIX];
      var zb := new Depth[TPIX];
      NothingMet(tris, w, attr, tilemap[..], chr[..]);
      var ty := 0;
      while ty < h
        invariant 0 <= ty <= h && Shape()
        invariant Counted(tris, w, 0, ty) && ScannedOk(tris, w, attr, tilemap[..], chr[..], 0, ty)
        invariant RestBlank(w, tilemap[..], 0, ty)
      {
        var tx := 0;
        while tx < w
          invariant 0 <= tx <= w && Shape()
          invariant Counted(tris, w, tx, ty) && ScannedOk(tris, w, attr, tilemap[..], chr[..], tx, ty)
          invariant RestBlank(w, tilemap[..], tx, ty)
        {
          RenderTile(tris, w, tx, ty, attr, idx, zb);
          tx := tx + 1;
        }
        NextRow(tris, w, attr, tilemap[..], chr[..], ty);
        BlankRow(w, tilemap[..], ty);
        ty := ty + 1;
      }
    }

    /** The body of the tile loop. */
    method RenderTile(tris: seq<Tri>, w: nat, tx: nat, ty: nat, attr: nat, idx: array<Color>, zb: array<Depth>)
      requires Shape() && tx < w <= MAP_W && ty < MAP_H && idx.Length == zb.Length == TPIX
      requires idx as object != zb as object && {idx as object, zb} !! {tilemap as object, chr}
      requires Counted(tris, w, tx, ty) && ScannedOk(tris, w, attr, tilemap[..], chr[..], tx, ty)
      requires RestBlank(w, tilemap[..], tx, ty)
      modifies this`used, this`nEmpty, this`nSolid, this`nMixed, this`nDegraded, tilemap, chr, idx, zb
      ensures Shape()
      ensures Counted(tris, w, tx + 1, ty) && ScannedOk(tris, w, attr, tilemap[..], chr[..], tx + 1, ty)
      ensures RestBlank(w, tilemap[..], tx + 1, ty)
    {
      hide EntryOk, ScannedOk, RestBlank, MetBefore, Shaded, Buffers, Counted;
      Clear(idx, zb);
      var written := RasterTile(tris, tx, ty, idx, zb);
      ColorsOfBuffers(idx[..], zb[..]);
      assert idx[..] == TileOf(tris, tx, ty);
      hide TileOf;
      ghost var cells0, chr0 := tilemap[..], chr[..];
      var tile := PlaceTile(tris, w, tx, ty, idx, attr);
      var entry: nat := tile + attr;
      ScannedMore(tris, w, attr, cells0, chr0, chr[..], tx, ty, entry);
      BlankMore(w, cells0, tx, ty, entry);
      tilemap[ty * MAP_W + tx] := entry;
      assert tilemap[..] == cells0[ty * MAP_W + tx := entry];
    }
  }

  lemma NothingMet(tris: seq<Tri>, w: nat, attr: nat, cells: seq<nat>, chr: seq<bv8>)
    requires |cells| == MAP_W * MAP_H && |chr| == DYN_SLOTS * TILE_BYTES && w <= MAP_W
    ensures ScannedOk(tris, w, attr, cells, chr, 0, 0) && forall k :: MetBefore(tris, w, k, 0, 0) == 0
  {}

  lemma AllBlank(w: nat, cells: seq<nat>)
    requires |cells| == MAP_W * MAP_H && forall c | 0 <= c < MAP_W * MAP_H :: cells[c] == 0
    ensures RestBlank(w, cells, 0, 0)
  {}

  lemma NextRow(tris: seq<Tri>, w: nat, attr: nat, cells: seq<nat>, chr: seq<bv8>, y: nat)
    requires |cells| == MAP_W * MAP_H && |chr| == DYN_SLOTS * TILE_BYTES && w <= MAP_W && y < MAP_H
    requires ScannedOk(tris, w, attr, cells, chr, w, y)
    ensures ScannedOk(tris, w, attr, cells, chr, 0, y + 1)
    ensures forall k :: MetBefore(tris, w, k, 0, y + 1) == MetBefore(tris, w, k, w, y)
  {
    hide EntryOk, TileOf;
  }

  lemma SamePrefix(s: seq<bv8>, t: seq<bv8>, a: nat, b: nat, n: nat)
    requires a <= b <= n <= |s| == |t| && s[..n] == t[..n]
    ensures s[a..b] == t[a..b]
  {
    forall k | 0 <= k < b - a
      ensures s[a..b][k] == t[a..b][k]
    {
      assert s[..n][a + k] == t[..n][a + k];
    }
  }

  function Plain(c: Color): (tile: seq<Color>)
    ensures |tile| == TPIX
  {
    seq(TPIX, o => c)
  }

  /** hx421_build_solid_tiles: resident tile c shows colour c everywhere. */
  method BuildSolidTiles(out: array<bv8>)
    requires out.Length == 16 * TILE_BYTES
    modifies out
    ensures forall c | 0 <= c < 16 :: Packs(out[..], c * TILE_BYTES, Plain(c))
    ensures forall c, y | 0 <= c < 16 && 0 <= y < 8 :: PlainRow(out[..], 32 * c, y, c)
  {
    hide Packs, PlaneBytes, PlainRow;
    var px := new Color[TPIX];
    var c := 0;
    while c < 16
      invariant 0 <= c <= 16
      invariant forall d | 0 <= d < c :: Packs(out[..], d * TILE_BYTES, Plain(d))
    {
      ghost var before := out[..];
      var i := 0;
      while i < TPIX
        invariant 0 <= i <= TPIX && out[..] == before && forall o | 0 <= o < i :: px[o] == c
      {
        px[i] := c;
        i := i + 1;
      }
      assert px[..] == Plain(c);
      Pack4bpp(px, out, c * TILE_BYTES);
      forall d | 0 <= d < c
        ensures Packs(out[..], d * TILE_BYTES, Plain(d))
      {
        var b := d * TILE_BYTES;
        SamePrefix(before, out[..], b, b + TILE_BYTES, c * TILE_BYTES);
        PacksElsewhere(before, out[..], b, Plain(d));
      }
      c := c + 1;
    }
    forall c | 0 <= c < 16
      ensures forall y | 0 <= y < 8 :: PlainRow(out[..], 32 * c, y, c)
    {
      PlainBytes(out[..], c * TILE_BYTES, c);
    }
  }
}
