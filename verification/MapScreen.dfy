// The registers at the head of a map body, and the picture they show.
// runtime/hx421_runtime.c, hx_map_stage, e_bg_scroll_reg and tm_bgsc.
module MapScreen {
  import opened Arith
  import opened Vram
  import opened MapSeams
  import opened MapRuns

  /** One 8-bit register write of the body. */
  datatype Poke = Poke(addr: nat, value: nat)

  const BGMODE: nat := 0x2105
  const TM: nat := 0x212C
  const BG12NBA: nat := 0x210B

  // The three registers of layer i: tilemap, horizontal and vertical scroll.
  function ScReg(i: nat): nat { 0x2107 + i }
  function HofsReg(i: nat): nat { 0x210D + 2 * i }
  function VofsReg(i: nat): nat { 0x210E + 2 * i }

  /** The values written to one register, in order. */
  function Put(ps: seq<Poke>, addr: nat): seq<nat> {
    if ps == [] then []
    else
      var before, p := Put(ps[..|ps| - 1], addr), ps[|ps| - 1];
      if p.addr == addr then before + [p.value] else before
  }

  lemma PutMore(ps: seq<Poke>, p: Poke, addr: nat)
    ensures Put(ps + [p], addr) == if p.addr == addr then Put(ps, addr) + [p.value] else Put(ps, addr)
  {
    assert (ps + [p])[..|ps|] == ps;
  }

  /** A scroll register takes its low byte, then the two bits above it. */
  function ScrollOf(vs: seq<nat>): nat
    requires |vs| == 2
  {
    vs[0] + vs[1] % 4 * 256
  }

  /** tm_bgsc for a 64x32 map, and the tilemap the console reads for a value. */
  function BgSc(base: nat): nat { base / 1024 * 4 + 1 }
  function MapOf(sc: nat): nat { sc / 4 * 1024 }

  /** THE REGISTER NAMES THE TILEMAP exactly when that lies on a 1024-word boundary. */
  lemma ScNamesTheMapIff(base: nat)
    ensures BgSc(base) / 4 == base / 1024 && BgSc(base) % 4 == 1
    ensures MapOf(BgSc(base)) == base <==> base % 1024 == 0
  {}

  /** A scroll value as its two bytes, cut to ten bits. */
  function TwoBytes(v: nat): seq<nat> { [v % 256, v / 256 % 4] }

  /** The writes for one layer: its tilemap, then both scrolls. */
  function LayerPokes(i: nat, s: LayerState): seq<Poke> {
    var h, v := TwoBytes(s.camX % 0x1_0000), TwoBytes((s.camY % 0x1_0000 - 1) % 0x400);
    [Poke(ScReg(i), BgSc(s.base)), Poke(HofsReg(i), h[0]), Poke(HofsReg(i), h[1]),
     Poke(VofsReg(i), v[0]), Poke(VofsReg(i), v[1])]
  }

  lemma BytesScroll(s: LayerState)
    ensures ScrollOf(TwoBytes(s.camX % 0x1_0000)) == Hofs(s.camX)
    ensures ScrollOf(TwoBytes((s.camY % 0x1_0000 - 1) % 0x400)) == Vofs(s.camY)
  {}

  /** Mode 1 with both layers on, their tiles where the tile set goes, and every
      layer's tilemap and scroll as its state asks. */
  ghost predicate ShowsLayers(ps: seq<Poke>, ls: seq<LayerState>) {
    && Put(ps, BGMODE) == [1] && Put(ps, TM) == [3]
    && (Put(ps, BG12NBA) == [0x22] && 0x22 % 16 * 4096 == 0x22 / 16 * 4096 == CHR_VWORD)
    && forall i | 0 <= i < |ls| :: LayerShown(ps, i, ls[i])
  }

  ghost predicate LayerShown(ps: seq<Poke>, i: nat, s: LayerState) {
    && Put(ps, ScReg(i)) == [BgSc(s.base)]
    && |Put(ps, HofsReg(i))| == 2 && ScrollOf(Put(ps, HofsReg(i))) == Hofs(s.camX)
    && |Put(ps, VofsReg(i))| == 2 && ScrollOf(Put(ps, VofsReg(i))) == Vofs(s.camY)
  }

  /** The tile the console fetches for a pixel of layer i, from the tilemap and at
      the scroll the writes select, is the map tile that lies there. */
  ghost predicate PixelShown(w: World, s: LayerState, ps: seq<Poke>, vram: seq<Word>, i: nat, sx: nat, sy: nat) {
    && LayerShown(ps, i, s) && MapOf(Put(ps, ScReg(i))[0]) + SCREEN_PAIR <= |vram|
    && Fetched(TilesAt(MapOf(Put(ps, ScReg(i))[0]), vram), ScrollOf(Put(ps, HofsReg(i))),
               ScrollOf(Put(ps, VofsReg(i))), sx, sy) ==
       w((s.camX + sx) / 8, (s.camY + sy) / 8)
  }

  lemma PixelIs(w: World, s: LayerState, ps: seq<Poke>, vram: seq<Word>, i: nat, sx: nat, sy: nat)
    requires LayerShown(ps, i, s) && s.base + SCREEN_PAIR <= |vram| && s.base % 1024 == 0
    requires Fetched(TilesAt(s.base, vram), Hofs(s.camX), Vofs(s.camY), sx, sy) ==
             w((s.camX + sx) / 8, (s.camY + sy) / 8)
    ensures PixelShown(w, s, ps, vram, i, sx, sy)
  {
    ScNamesTheMapIff(s.base);
    hide Hofs, Vofs, Fetched, TilesAt, Put, ScrollOf, MapOf, BgSc;
  }

  /** In the console's own terms: the tilemap register's upper six bits and the two
      scroll registers, ten bits in two writes each, lead to the word with the tile. */
  lemma PixelThroughRegisters(w: World, s: LayerState, ps: seq<Poke>, vram: seq<Word>, i: nat, sx: nat, sy: nat)
    requires PixelShown(w, s, ps, vram, i, sx, sy)
    ensures |Put(ps, 0x2107 + i)| == 1 && |Put(ps, 0x210D + 2 * i)| == 2 && |Put(ps, 0x210E + 2 * i)| == 2
    ensures var tiles, h, v := Put(ps, 0x2107 + i)[0] / 4 * 1024, Put(ps, 0x210D + 2 * i), Put(ps, 0x210E + 2 * i);
            var col := (h[0] + 256 * (h[1] % 4) + sx) % 512 / 8;
            var row := (v[0] + 256 * (v[1] % 4) + sy + 1) % 256 / 8;
            var at := tiles + col / 32 * 1024 + row * 32 + col % 32;
            at < |vram| && vram[at] == w((s.camX + sx) / 8, (s.camY + sy) / 8)
  {
    hide Put, Hofs, Vofs;
  }

  /** And the writes themselves, for a frame of two layers. */
  lemma HeadIs(ps: seq<Poke>, ls: seq<LayerState>, i: nat)
    requires ShowsLayers(ps, ls) && i < |ls|
    ensures Put(ps, 0x2105) == [1] && Put(ps, 0x212C) == [3] && Put(ps, 0x210B) == [0x22]
    ensures Put(ps, 0x2107 + i) == [ls[i].base / 1024 * 4 + 1]
    ensures |Put(ps, 0x210D + 2 * i)| == 2 && |Put(ps, 0x210E + 2 * i)| == 2
    ensures Put(ps, 0x210D + 2 * i)[0] + 256 * (Put(ps, 0x210D + 2 * i)[1] % 4) == ls[i].camX % 1024
    ensures Put(ps, 0x210E + 2 * i)[0] + 256 * (Put(ps, 0x210E + 2 * i)[1] % 4) == (ls[i].camY - 1) % 1024
  {
    LayerOf(ps, ls, i);
    HofsIs(ls[i].camX);
    VofsIs(ls[i].camY);
    hide Put, Hofs, Vofs;
  }

  lemma LayerOf(ps: seq<Poke>, ls: seq<LayerState>, i: nat)
    requires ShowsLayers(ps, ls) && i < |ls|
    ensures LayerShown(ps, i, ls[i])
  {}

  /** THE PICTURE THROUGH THE REGISTERS: whenever the field is revealed, every
      pixel of every layer is shown right by the body's own register writes. */
  lemma ShownThroughRegisters(ws: seq<World>, sys: System, ps: seq<Poke>, i: nat, sx: nat, sy: nat)
    requires Inv(ws, sys) && sys.revealed && ShowsLayers(ps, sys.layers)
    requires i < |ws| == |sys.layers| && sx < 256 && sy < 224 && sys.layers[i].base % 1024 == 0
    ensures PixelShown(ws[i], sys.layers[i], ps, sys.vram, i, sx, sy)
  {
    hide Inv, ShowsLayers, PixelShown, LayerShown, Fetched, TilesAt, Hofs, Vofs, WantL, WantT;
    RevealedWindow(ws, sys, i);
    RevealedIsCorrect(ws, sys, i, sx, sy);
    LayerOf(ps, sys.layers, i);
    PixelIs(ws[i], sys.layers[i], ps, sys.vram, i, sx, sy);
  }
}
