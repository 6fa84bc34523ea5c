// When a compiled frame is the rasterised picture, and on which screens it
// always is. runtime/hx421_raster.c.
module FrameExactness {
  import opened Arith
  import opened RasterGeometry
  import opened TileRaster
  import opened TilePack
  import opened FrameCompiler

  // ---- one frame ----

  lemma MixedDiffers(tile: seq<Color>, d: nat)
    requires |tile| == TPIX && KindOf(tile) == Mixed
    ensures exists o: nat :: o < TPIX && tile[o] != d
  {
    var k :| 0 <= k < TPIX && tile[k] != tile[0];
    if tile[0] == d {
      assert tile[k] != d;
    } else {
      assert tile[0] != d;
    }
  }

  /** Past the slots there is a mixed tile that got none. */
  lemma {:induction false} OneTooMany(tris: seq<Tri>, w: nat, x: nat, y: nat) returns (i: nat, j: nat)
    requires x <= w && MetBefore(tris, w, Mixed, x, y) > DYN_SLOTS
    ensures i < w && Earlier(i, j, x, y)
    ensures KindOf(TileOf(tris, i, j)) == Mixed && MetBefore(tris, w, Mixed, i, j) >= DYN_SLOTS
    decreases y, x
  {
    hide KindOf, TileOf;
    if x > 0 {
      if MetBefore(tris, w, Mixed, x - 1, y) > DYN_SLOTS {
        i, j := OneTooMany(tris, w, x - 1, y);
      } else {
        i, j := x - 1, y;
      }
    } else {
      i, j := OneTooMany(tris, w, w, y - 1);
    }
  }

  lemma DegradedEntryLies(entry: nat, palette: nat, chr: seq<bv8>, tile: seq<Color>, before: nat)
    requires |tile| == TPIX && |chr| == DYN_SLOTS * TILE_BYTES
    requires KindOf(tile) == Mixed && before >= DYN_SLOTS && EntryOk(entry, palette * 1024, chr, tile, before)
    ensures exists o: nat :: o < TPIX && ShownBy(entry, chr, o) != tile[o]
  {
    hide Unpacked, KindOf;
    var d := entry - palette * 1024;
    DominantIsLow(tile, d);
    DivModUnique(entry, 1024, palette, d);
    MixedDiffers(tile, d);
    var o: nat :| o < TPIX && tile[o] != d;
    assert ShownBy(entry, chr, o) == d;
  }

  lemma DominantIsLow(tile: seq<Color>, d: nat)
    requires |tile| == TPIX && Dominant(tile, d)
    ensures d < 16
  {}

  /** THE PICTURE, EXACTLY: with colours below 16 the compiled frame shows the
      rasterised picture if and only if no more than 750 of its tiles are mixed. */
  lemma ShownIff(tris: seq<Tri>, w: nat, h: nat, palette: nat, cells: seq<nat>, chr: seq<bv8>)
    requires |cells| == MAP_W * MAP_H && |chr| == DYN_SLOTS * TILE_BYTES && w <= MAP_W && h <= MAP_H
    requires ScannedOk(tris, w, palette * 1024, cells, chr, 0, h)
    requires LowColours(tris)
    ensures ShowsPicture(tris, w, h, cells, chr) <==> MetBefore(tris, w, Mixed, 0, h) <= DYN_SLOTS
  {
    hide EntryOk, ShownBy, KindOf, TileOf, MetBefore;
    if MetBefore(tris, w, Mixed, 0, h) <= DYN_SLOTS {
      forall i: nat, j: nat, o: nat | i < w && j < h && o < TPIX
        ensures ShownBy(cells[j * MAP_W + i], chr, o) == TileOf(tris, i, j)[o]
      {
        FrameShowsPicture(tris, w, h, palette, cells, chr, i, j, o);
      }
    } else {
      var i, j := OneTooMany(tris, w, 0, h);
      DegradedEntryLies(cells[j * MAP_W + i], palette, chr, TileOf(tris, i, j), MetBefore(tris, w, Mixed, i, j));
    }
  }

  // ---- every frame of a screen ----

  /** A triangle over the first pixel of a tile and no other pixel at all. */
  function Dot(x: int, y: int): Tri {
    var px, py := x * 2048 + 128, y * 2048 + 128;
    Tri(Vtx(px, py, 0), Vtx(px + 100, py, 0), Vtx(px, py + 100, 0), 1)
  }

  /** One dot in every tile of the map. */
  function Dots(): (tris: seq<Tri>)
    ensures |tris| == MAP_W * MAP_H
  {
    seq(MAP_W * MAP_H, t => Dot(t % MAP_W, t / MAP_W))
  }

  lemma DotCovers(x: nat, y: nat)
    ensures Faces(Dot(x, y)) && Covers(Dot(x, y), Centre(x, y, 0)) && PlaneDepth(Dot(x, y), Centre(x, y, 0)) == 0
  {}

  lemma DotMisses(x: int, y: int, tx: nat, ty: nat, o: nat)
    requires 0 < o < TPIX
    ensures !Covers(Dot(x, y), Centre(tx, ty, o))
  {
    DotArea(x, y);
    DotBox(x, y);
    CentreIs(tx, ty, o);
    OffTheBox(x, tx, o % 8);
    OffTheBox(y, ty, o / 8);
    hide Covers, Dot, Area, Min3, Max3, Centre;
    var t, p := Dot(x, y), Centre(tx, ty, o);
    if Covers(t, p) {
      CoveredInBox(t, p);
      assert false;
    }
  }

  lemma CentreIs(tx: nat, ty: nat, o: nat)
    requires 0 < o < TPIX
    ensures Centre(tx, ty, o) == Point(tx * 2048 + o % 8 * 256 + 128, ty * 2048 + o / 8 * 256 + 128)
    ensures 0 <= o / 8 < 8 && (o % 8 > 0 || o / 8 > 0)
  {}

  /** A pixel that is not the first of its row is off every dot's box. */
  lemma OffTheBox(x: int, tx: int, u: int)
    requires 0 <= u < 8
    ensures x * 2048 + 128 <= tx * 2048 + u * 256 + 128 <= x * 2048 + 228 ==> u == 0
  {
    var k := (tx - x) * 8 + u;
    assert k * 256 == tx * 2048 + u * 256 - x * 2048;
  }

  lemma DotBox(x: int, y: int)
    ensures var t := Dot(x, y);
            && Min3(t.a.x, t.b.x, t.c.x) == x * 2048 + 128 && Max3(t.a.x, t.b.x, t.c.x) == x * 2048 + 228
            && Min3(t.a.y, t.b.y, t.c.y) == y * 2048 + 128 && Max3(t.a.y, t.b.y, t.c.y) == y * 2048 + 228
  {}

  lemma DotArea(x: int, y: int)
    ensures Area(Dot(x, y)) > 0
  {}

  lemma {:induction false} UncoveredStays(tris: seq<Tri>, n: nat, p: Point, s: Pix)
    requires n <= |tris| && forall t | 0 <= t < n :: !Covers(tris[t], p)
    ensures Shade(tris, n, p, s) == s
  {
    hide Covers, Faces, PlaneDepth;
    if n == 0 {
    } else {
      UncoveredStays(tris, n - 1, p, s);
    }
  }

  /** Once a triangle of colour 1 covers a pixel nearer than the horizon, and all
      triangles have that colour, the pixel has it. */
  lemma {:induction false} CoveredShows(tris: seq<Tri>, n: nat, p: Point, k: nat)
    requires n <= |tris| && forall t | 0 <= t < |tris| :: tris[t].color == 1
    requires k < |tris| && Faces(tris[k]) && Covers(tris[k], p) && PlaneDepth(tris[k], p) < ZFAR
    ensures var s := Shade(tris, n, p, Pix(ZFAR, 0));
            s.color == 1 || (s == Pix(ZFAR, 0) && n <= k)
  {
    hide Covers, Faces, PlaneDepth;
    if n == 0 {
    } else {
      CoveredShows(tris, n - 1, p, k);
    }
  }

  lemma DotAt(x: nat, y: nat)
    requires x < MAP_W && y < MAP_H
    ensures y * MAP_W + x < |Dots()| && Dots()[y * MAP_W + x] == Dot(x, y)
  {
    DivModUnique(y * MAP_W + x, MAP_W, y, x);
  }

  /** A tile with one pixel of colour 1, in its corner. */
  function DotTile(): (tile: seq<Color>)
    ensures |tile| == TPIX
  {
    seq(TPIX, o => if o == 0 then 1 else 0)
  }

  lemma DottedTile(x: nat, y: nat)
    requires x < MAP_W && y < MAP_H
    ensures TileOf(Dots(), x, y) == DotTile()
  {
    var tris := Dots();
    hide Covers, Faces, PlaneDepth, Shade, Centre, Dots, Dot;
    DotAt(x, y);
    DotCovers(x, y);
    DotsAreOne();
    CoveredShows(tris, |tris|, Centre(x, y, 0), y * MAP_W + x);
    forall o | 0 <= o < TPIX
      ensures TileOf(tris, x, y)[o] == DotTile()[o]
    {
      if o > 0 {
        forall t | 0 <= t < |tris|
          ensures !Covers(tris[t], Centre(x, y, o))
        {
          DotIs(t);
          DotMisses(t % MAP_W, t / MAP_W, x, y, o);
        }
        UncoveredStays(tris, |tris|, Centre(x, y, o), Pix(ZFAR, 0));
      }
    }
  }

  /** The scene needs a slot for every tile. */
  lemma DottedIsMixed(x: nat, y: nat)
    requires x < MAP_W && y < MAP_H
    ensures KindOf(TileOf(Dots(), x, y)) == Mixed
  {
    DottedTile(x, y);
    hide TileOf, Dots;
    assert DotTile()[0] == 1 && DotTile()[1] == 0;
  }

  lemma DotIs(t: nat)
    requires t < |Dots()|
    ensures Dots()[t] == Dot(t % MAP_W, t / MAP_W)
  {}

  lemma DotsAreOne()
    ensures forall t | 0 <= t < |Dots()| :: Dots()[t].color == 1
  {}

  lemma {:induction false} AllMixed(w: nat, x: nat, y: nat)
    requires x <= w <= MAP_W && (y < MAP_H || (y == MAP_H && x == 0))
    ensures MetBefore(Dots(), w, Mixed, x, y) == y * w + x
    decreases y, x
  {
    hide KindOf, TileOf, Dots;
    if x > 0 {
      AllMixed(w, x - 1, y);
      DottedIsMixed(x - 1, y);
    } else if y > 0 {
      AllMixed(w, w, y - 1);
      assert y * w == (y - 1) * w + w;
    } else {
    }
  }

  // ---- that scene compiled ----

  /** Every slot holds the dotted tile. */
  function DotChr(): (chr: seq<bv8>)
    ensures |chr| == DYN_SLOTS * TILE_BYTES
  {
    seq(DYN_SLOTS * TILE_BYTES, b => if b % TILE_BYTES == 0 then 0x80 else 0)
  }

  lemma DotByte(slot: nat, b: nat)
    requires slot < DYN_SLOTS && b < TILE_BYTES
    ensures slot * TILE_BYTES + b < |DotChr()| && DotChr()[slot * TILE_BYTES + b] == if b == 0 then 0x80 else 0
  {
    DivModUnique(slot * TILE_BYTES + b, TILE_BYTES, slot, b);
  }

  lemma CornerBit(x: nat)
    requires x < 8
    ensures On(0x80, x) == (x == 0) && !On(0, x)
  {
    ColumnIsTable(x);
  }

  lemma DotPacks(slot: nat)
    requires slot < DYN_SLOTS
    ensures (slot + 1) * TILE_BYTES <= |DotChr()| && Packs(DotChr(), slot * TILE_BYTES, DotTile())
  {
    hide On, DotChr;
    forall o | 0 <= o < TPIX
      ensures Unpacked(DotChr(), slot * TILE_BYTES, o) == DotTile()[o] % 16
    {
      var y, x := o / 8, o % 8;
      CornerBit(x);
      DotByte(slot, PlaneAt(y, 0));
      DotByte(slot, PlaneAt(y, 1));
      DotByte(slot, PlaneAt(y, 2));
      DotByte(slot, PlaneAt(y, 3));
    }
  }

  lemma {:induction false} DotCount(n: nat, c: nat)
    requires n <= TPIX
    ensures CountOf(DotTile(), n, c) == if n == 0 then 0 else if c == 0 then n - 1 else if c == 1 then 1 else 0
  {
    if n == 0 {
    } else {
      DotCount(n - 1, c);
    }
  }

  lemma DotDominant()
    ensures Dominant(DotTile(), 1)
  {
    forall c | 1 <= c < 16
      ensures CountOf(DotTile(), TPIX, c) <= CountOf(DotTile(), TPIX, 1) == 1
    {
      DotCount(TPIX, c);
      DotCount(TPIX, 1);
    }
    DotCount(TPIX, 1);
    hide CountOf;
  }

  /** The entry of the n-th tile. */
  function DotEntry(attr: nat, n: nat): nat { if n < DYN_SLOTS then attr + DYN_BASE + n else attr + 1 }

  function DotCells(w: nat, attr: nat): (cells: seq<nat>)
    ensures |cells| == MAP_W * MAP_H
  {
    seq<nat>(MAP_W * MAP_H, c requires 0 <= c => DotEntry(attr, c / MAP_W * w + c % MAP_W))
  }

  lemma DotCellAt(w: nat, attr: nat, i: nat, j: nat)
    requires i < MAP_W && j < MAP_H
    ensures DotCells(w, attr)[j * MAP_W + i] == DotEntry(attr, j * w + i)
  {
    DivModUnique(j * MAP_W + i, MAP_W, j, i);
  }

  /** The compiler's map and slots for the scene, on any screen. */
  lemma DotsCompile(w: nat, h: nat, attr: nat)
    requires w <= MAP_W && h <= MAP_H
    ensures ScannedOk(Dots(), w, attr, DotCells(w, attr), DotChr(), 0, h)
  {
    hide TileOf, MetBefore, Packs, Dominant, DotCells, DotChr, Dots, DotTile, KindOf;
    forall i: nat, j: nat | i < w && j < MAP_H && Earlier(i, j, 0, h)
      ensures EntryOk(DotCells(w, attr)[j * MAP_W + i], attr, DotChr(), TileOf(Dots(), i, j),
                      MetBefore(Dots(), w, Mixed, i, j))
    {
      AllMixed(w, i, j);
      DotCellAt(w, attr, i, j);
      DottedTile(i, j);
      DottedIsMixed(i, j);
      DotDominant();
      if j * w + i < DYN_SLOTS {
        DotPacks(j * w + i);
      }
    }
  }

  /** Whatever the triangles, the compiled frame of a screen of w by h tiles shows
      the rasterised picture. */
  ghost predicate AlwaysShown(w: nat, h: nat, palette: nat)
    requires w <= MAP_W && h <= MAP_H
  {
    forall tris: seq<Tri>, cells: seq<nat>, chr: seq<bv8> |
      && LowColours(tris) && |cells| == MAP_W * MAP_H && |chr| == DYN_SLOTS * TILE_BYTES
      && ScannedOk(tris, w, palette * 1024, cells, chr, 0, h) ::
      ShowsPicture(tris, w, h, cells, chr)
  }

  /** WHICH SCREENS ARE SAFE: every triangle list of colours below 16 is shown
      exactly as rasterised if and only if the screen has no more tiles than there
      are slots. */
  lemma ScreenSizeIff(w: nat, h: nat, palette: nat)
    requires w <= MAP_W && h <= MAP_H
    ensures AlwaysShown(w, h, palette) <==> w * h <= DYN_SLOTS
  {
    hide MetBefore, Dots, ScannedOk, ShowsPicture, DotCells, DotChr;
    if w * h <= DYN_SLOTS {
      forall tris: seq<Tri>, cells: seq<nat>, chr: seq<bv8> |
        && LowColours(tris) && |cells| == MAP_W * MAP_H && |chr| == DYN_SLOTS * TILE_BYTES
        && ScannedOk(tris, w, palette * 1024, cells, chr, 0, h)
        ensures ShowsPicture(tris, w, h, cells, chr)
      {
        CensusAddsUp(tris, w, 0, h);
        ShownIff(tris, w, h, palette, cells, chr);
      }
    } else {
      DotsAreOne();
      AllMixed(w, 0, h);
      var cells, chr := DotCells(w, palette * 1024), DotChr();
      DotsCompile(w, h, palette * 1024);
      ShownIff(Dots(), w, h, palette, cells, chr);
    }
  }
}
