// Double-buffered video streaming: four bands a frame into two CHR buffers
// that overlap by 13 tiles. runtime/hx421_runtime.c, fmv_band_run,
// hx_emit_fmv_band and the FRAME_DONE branch of hx421_cart_read.
module Fmv {
  import opened Arith
  import opened Vram

  const TILES: nat := 781                  // 780 content tiles and the blank
  const TILE_WORDS: nat := 16
  const CHR_TOTAL: nat := TILES * TILE_WORDS
  const MAP_TOTAL: nat := 1024
  const PAL_TOTAL: nat := 128
  const CONTESTED: nat := 13
  const OBJ_VWORD: nat := 28880
  const OBJ_WORDS: nat := 192
  const OAM_WORDS: nat := 272              // all 128 sprites and their high table
  const OAM_ACTIVE: nat := 128             // sprites 0..63, without it

  /** One decoded frame: palette, tilemap, tiles. */
  datatype Picture = Picture(pal: seq<Word>, cells: seq<Word>, chr: seq<Word>) {
    predicate Whole() { |pal| == PAL_TOTAL && |cells| == MAP_TOTAL && |chr| == CHR_TOTAL }
  }

  datatype Buffer = A | B

  function Other(b: Buffer): Buffer { if b == A then B else A }
  function ChrBase(b: Buffer): nat { if b == A then 0x0000 else 0x3000 }
  function MapBase(b: Buffer): nat { if b == A then 0x7C00 else 0x7800 }

  /** The BG1SC and BG12NBA values that show a buffer. */
  function ScOf(b: Buffer): nat { if b == A then 0x7C else 0x78 }
  function NbaOf(b: Buffer): nat { if b == A then 0x00 else 0x03 }

  /** fmv_band_run: the first tile and the tile count of each band's run. */
  function RunStart(band: nat): nat
    requires band < 4
  {
    if band == 0 then 13 else if band == 1 then 221 else if band == 2 then 409 else 617
  }

  function RunCount(band: nat): nat
    requires band < 4
  {
    if band == 0 then 208 else if band == 1 then 188 else if band == 2 then 208 else 164
  }

  /** The runs tile 13 .. 780 without gap or overlap. */
  lemma RunsAbut()
    ensures RunStart(0) == CONTESTED && RunStart(3) + RunCount(3) == TILES
    ensures forall b | 0 <= b < 3 :: RunStart(b) + RunCount(b) == RunStart(b + 1)
  {}

  lemma RunBounds(band: nat)
    requires band < 4
    ensures RunCount(band) <= 208 && CONTESTED <= RunStart(band) && RunStart(band) + RunCount(band) <= TILES
  {}

  /** Sprite data: OBJ tiles and the upper half of CGRAM ride band 1, the sprite
      table every band. */
  datatype Sprites = Sprites(chr: seq<Word>, pal: seq<Word>, oam: seq<Word>) {
    predicate Whole() { |chr| == OBJ_WORDS && |pal| == 128 && |oam| == OAM_WORDS }
  }

  /** The VRAM bursts of one band, in order. */
  function BandStrips(band: nat, back: Buffer, p: Picture, sp: Sprites): seq<Strip>
    requires band < 4 && p.Whole() && sp.Whole()
  {
    var lo, hi := RunStart(band) * TILE_WORDS, (RunStart(band) + RunCount(band)) * TILE_WORDS;
    [Strip(MapBase(back) + band * 256, 1, p.cells[band * 256..band * 256 + 256]),
     Strip(ChrBase(back) + lo, 1, p.chr[lo..hi])]
    + (if band == 3 then [Strip(ChrBase(back), 1, p.chr[..CONTESTED * TILE_WORDS])] else [])
    + (if band == 1 then [Strip(OBJ_VWORD, 1, sp.chr)] else [])
  }

  /** The registers band 0 sets: background mode, sprite sizes and tiles, the
      layers on the main screen, and BG1's scroll. */
  datatype Setup = Setup(mode: nat, obsel: nat, tm: nat, hofs: nat, vofs: nat)

  /** Mode 1, BG1 and sprites on, scrolled to the top left corner. */
  const SETUP: Setup := Setup(0x01, 0x03, 0x11, 0, 0x3FF)

  /** The console's side: VRAM, CGRAM, the sprite table, the two registers that
      pick BG1's tilemap and tiles, and the others. */
  datatype Console = Console(vram: seq<Word>, cgram: seq<Word>, oam: seq<Word>, sc: nat, nba: nat, setup: Setup) {
    predicate Fits() { |vram| == VRAM_WORDS && |cgram| == 256 && |oam| == OAM_WORDS }

    /** BG1SC counts 1024-word units in its upper six bits; BG12NBA counts
        4096-word granules in its low nibble. */
    function MapShown(): nat { (sc / 4) * 1024 }
    function ChrShown(): nat { (nba % 16) * 4096 }

    predicate ShowsBuffers() {
      Fits() && MapShown() + MAP_TOTAL <= VRAM_WORDS && ChrShown() + CHR_TOTAL <= VRAM_WORDS
    }

    /** The picture the PPU would draw from now. */
    function Shown(): Picture
      requires ShowsBuffers()
    {
      Picture(cgram[..PAL_TOTAL], vram[MapShown()..MapShown() + MAP_TOTAL], vram[ChrShown()..ChrShown() + CHR_TOTAL])
    }
  }

  /** Run one band's body. Band 0 sets the console up and holds the registers on
      the front buffers; band 3 loads the palette, flips both registers to the
      back buffers and sends the sprite table whole. */
  function RunBand(c: Console, band: nat, back: Buffer, p: Picture, sp: Sprites): (c': Console)
    requires c.Fits() && band < 4 && p.Whole() && sp.Whole()
    ensures c'.Fits()
  {
    Console(ApplyAll(c.vram, BandStrips(band, back, p, sp)),
            if band == 3 then p.pal + c.cgram[PAL_TOTAL..]
            else if band == 1 then c.cgram[..PAL_TOTAL] + sp.pal
            else c.cgram,
            if band == 3 then sp.oam else sp.oam[..OAM_ACTIVE] + c.oam[OAM_ACTIVE..],
            if band == 0 then ScOf(Other(back)) else if band == 3 then ScOf(back) else c.sc,
            if band == 0 then NbaOf(Other(back)) else if band == 3 then NbaOf(back) else c.nba,
            if band == 0 then SETUP else c.setup)
  }

  /** What the two registers show, word by word: the tilemap at 7C00 or 7800 and
      the tiles at 0000 or 3000. */
  lemma ShownIs(c: Console)
    requires c.Fits()
    ensures c.sc == 0x7C && c.nba == 0 ==>
              c.ShowsBuffers() && c.Shown() == Picture(c.cgram[..128], c.vram[0x7C00..0x8000], c.vram[..12496])
    ensures c.sc == 0x78 && c.nba == 3 ==>
              c.ShowsBuffers() && c.Shown() == Picture(c.cgram[..128], c.vram[0x7800..0x7C00], c.vram[0x3000..24784])
  {}

  // ---- who writes a word ----

  predicate Hits(s: Strip, a: int) { s.vword <= a < s.vword + |s.data| }

  lemma {:induction false} Untouched(v: seq<Word>, ss: seq<Strip>, a: nat)
    requires a < |v|
    requires forall i | 0 <= i < |ss| :: ss[i].step == 1 && !Hits(ss[i], a)
    ensures ApplyAll(v, ss)[a] == v[a]
    decreases |ss|
  {
    if ss == [] {
    } else {
      var n := |ss| - 1;
      Untouched(v, ss[..n], a);
      BurstLands(ApplyAll(v, ss[..n]), ss[n].vword, 1, ss[n].data, a);
    }
  }

  /** A word written by exactly one burst holds what that burst sent. */
  lemma {:induction false} OnlyWriter(v: seq<Word>, ss: seq<Strip>, k: nat, a: nat)
    requires a < |v| && k < |ss| && Hits(ss[k], a)
    requires forall i | 0 <= i < |ss| :: ss[i].step == 1 && (i != k ==> !Hits(ss[i], a))
    ensures ApplyAll(v, ss)[a] == ss[k].data[a - ss[k].vword]
    decreases |ss|
  {
    var n := |ss| - 1;
    if k == n {
      Untouched(v, ss[..n], a);
    } else {
      OnlyWriter(v, ss[..n], k, a);
    }
    BurstLands(ApplyAll(v, ss[..n]), ss[n].vword, 1, ss[n].data, a);
  }

  /** The words the PPU reads while a buffer is shown. */
  predicate Displayed(b: Buffer, a: int) {
    || ChrBase(b) <= a < ChrBase(b) + CHR_TOTAL
    || MapBase(b) <= a < MapBase(b) + MAP_TOTAL
  }

  /** The two buffers share 208 words: tiles 768..780 of A are tiles 0..12 of B. */
  lemma OverlapIsContested(a: int)
    ensures Displayed(A, a) && Displayed(B, a) <==> ChrBase(B) <= a < ChrBase(B) + CONTESTED * TILE_WORDS
    ensures Displayed(A, a) && Displayed(B, a) ==> 768 <= a / TILE_WORDS < TILES
  {}

  /** Bands 0 to 2 write no word of the displayed tiles or tilemap. */
  lemma EarlyBandsSpareTheFront(band: nat, back: Buffer, p: Picture, sp: Sprites, i: nat, a: int)
    requires band < 3 && p.Whole() && sp.Whole()
    requires i < |BandStrips(band, back, p, sp)| && Displayed(Other(back), a)
    ensures !Hits(BandStrips(band, back, p, sp)[i], a)
  {}

  /** Band 3 has to: it overwrites 208 words of the front tiles, which is why
      those 13 tiles wait for the flip. */
  lemma LastBandOverwritesTheFront(back: Buffer, p: Picture, sp: Sprites, a: int)
    requires p.Whole() && sp.Whole() && Displayed(A, a) && Displayed(B, a)
    ensures exists i :: 0 <= i < |BandStrips(3, back, p, sp)| && Hits(BandStrips(3, back, p, sp)[i], a)
  {
    var ss := BandStrips(3, back, p, sp);
    assert back == A ==> Hits(ss[1], a);
    assert back == B ==> Hits(ss[2], a);
  }

  // ---- filling the back buffer ----

  /** Tiles 13 .. tiles-1 and the first `words` map words of `p` are in place. */
  ghost predicate Filled(v: seq<Word>, back: Buffer, p: Picture, tiles: nat, words: nat)
    requires |v| == VRAM_WORDS && p.Whole() && tiles <= TILES && words <= MAP_TOTAL
  {
    && (forall i | CONTESTED * TILE_WORDS <= i < tiles * TILE_WORDS :: v[ChrBase(back) + i] == p.chr[i])
    && (forall i | 0 <= i < words :: v[MapBase(back) + i] == p.cells[i])
  }

  /** A tile word up to the band's run: sent by that run, or not touched. */
  lemma ChrWord(v: seq<Word>, band: nat, back: Buffer, p: Picture, sp: Sprites, i: nat)
    requires |v| == VRAM_WORDS && band < 4 && p.Whole() && sp.Whole()
    requires CONTESTED * TILE_WORDS <= i < (RunStart(band) + RunCount(band)) * TILE_WORDS
    ensures ChrBase(back) + i < VRAM_WORDS && i < CHR_TOTAL
    ensures ApplyAll(v, BandStrips(band, back, p, sp))[ChrBase(back) + i] ==
            if i < RunStart(band) * TILE_WORDS then v[ChrBase(back) + i] else p.chr[i]
  {
    hide ApplyAll;
    if i < RunStart(band) * TILE_WORDS {
      Untouched(v, BandStrips(band, back, p, sp), ChrBase(back) + i);
    } else {
      OnlyWriter(v, BandStrips(band, back, p, sp), 1, ChrBase(back) + i);
    }
  }

  /** And so with the words of the map. */
  lemma MapWord(v: seq<Word>, band: nat, back: Buffer, p: Picture, sp: Sprites, i: nat)
    requires |v| == VRAM_WORDS && band < 4 && p.Whole() && sp.Whole() && i < band * 256 + 256
    ensures MapBase(back) + i < VRAM_WORDS && i < MAP_TOTAL
    ensures ApplyAll(v, BandStrips(band, back, p, sp))[MapBase(back) + i] ==
            if i < band * 256 then v[MapBase(back) + i] else p.cells[i]
  {
    hide ApplyAll;
    if i < band * 256 {
      Untouched(v, BandStrips(band, back, p, sp), MapBase(back) + i);
    } else {
      OnlyWriter(v, BandStrips(band, back, p, sp), 0, MapBase(back) + i);
    }
  }

  /** Each band adds its run and its quarter of the map to what is in place. */
  lemma BandFills(v: seq<Word>, band: nat, back: Buffer, p: Picture, sp: Sprites)
    requires |v| == VRAM_WORDS && band < 4 && p.Whole() && sp.Whole()
    requires Filled(v, back, p, RunStart(band), band * 256)
    ensures Filled(ApplyAll(v, BandStrips(band, back, p, sp)), back, p, RunStart(band) + RunCount(band),
                   band * 256 + 256)
  {
    RunBounds(band);
    hide ApplyAll, BandStrips, RunStart, RunCount, ChrBase, MapBase;
    var v' := ApplyAll(v, BandStrips(band, back, p, sp));
    forall i | CONTESTED * TILE_WORDS <= i < (RunStart(band) + RunCount(band)) * TILE_WORDS
      ensures v'[ChrBase(back) + i] == p.chr[i]
    {
      ChrWord(v, band, back, p, sp, i);
    }
    forall i | 0 <= i < band * 256 + 256
      ensures v'[MapBase(back) + i] == p.cells[i]
    {
      MapWord(v, band, back, p, sp, i);
    }
  }

  /** Band 3 also brings the contested tiles, which nothing else of it touches. */
  lemma ContestedWord(v: seq<Word>, back: Buffer, p: Picture, sp: Sprites, i: nat)
    requires |v| == VRAM_WORDS && p.Whole() && sp.Whole() && i < CONTESTED * TILE_WORDS
    ensures ApplyAll(v, BandStrips(3, back, p, sp))[ChrBase(back) + i] == p.chr[i]
  {
    hide ApplyAll;
    OnlyWriter(v, BandStrips(3, back, p, sp), 2, ChrBase(back) + i);
  }

  lemma SliceIs(v: seq<Word>, at: nat, data: seq<Word>)
    requires at + |data| <= |v| && forall i | 0 <= i < |data| :: v[at + i] == data[i]
    ensures v[at..at + |data|] == data
  {}

  lemma FilledTo(v: seq<Word>, back: Buffer, p: Picture)
    requires |v| == VRAM_WORDS && p.Whole() && Filled(v, back, p, TILES, MAP_TOTAL)
    ensures forall i | CONTESTED * TILE_WORDS <= i < CHR_TOTAL :: v[ChrBase(back) + i] == p.chr[i]
    ensures v[MapBase(back)..MapBase(back) + MAP_TOTAL] == p.cells
  {
    SliceIs(v, MapBase(back), p.cells);
  }

  /** So the back buffer is complete. */
  lemma LastBandCompletes(v: seq<Word>, back: Buffer, p: Picture, sp: Sprites)
    requires |v| == VRAM_WORDS && p.Whole() && sp.Whole()
    requires Filled(v, back, p, RunStart(3), 768)
    ensures var v' := ApplyAll(v, BandStrips(3, back, p, sp));
            && v'[ChrBase(back)..ChrBase(back) + CHR_TOTAL] == p.chr
            && v'[MapBase(back)..MapBase(back) + MAP_TOTAL] == p.cells
  {
    BandFills(v, 3, back, p, sp);
    var v' := ApplyAll(v, BandStrips(3, back, p, sp));
    hide ApplyAll, BandStrips, Filled;
    FilledTo(v', back, p);
    forall i | 0 <= i < CHR_TOTAL
      ensures v'[ChrBase(back) + i] == p.chr[i]
    {
      if i < CONTESTED * TILE_WORDS {
        ContestedWord(v, back, p, sp, i);
      }
    }
    SliceIs(v', ChrBase(back), p.chr);
  }

  // ---- the producer's state machine ----

  /** The engine between frames: the band whose body the console runs next, the
      displayed buffer, whether a new frame is due, and the decoded frame. */
  datatype Player = Player(band: nat, front: Buffer, needDecode: bool, preroll: nat, store: Picture) {
    predicate Valid() { band < 4 && store.Whole() }
  }

  /** What the outside world brings to one FRAME_DONE: whether playback runs,
      the next decoded frame if the queue has one, and the sprite data. */
  datatype Tick = Tick(playing: bool, next: Option<Picture>, sprites: Sprites) {
    predicate Whole() { sprites.Whole() && (next.Some? ==> next.value.Whole()) }
  }

  /** hx_produce_fmv_band's decode step: only band 0 may replace the frame. */
  function Produced(pl: Player, t: Tick): (r: Player)
    requires pl.Valid() && t.Whole()
    ensures r.Valid()
  {
    var decodes := pl.band == 0 && pl.needDecode && pl.preroll == 0 && t.playing && t.next.Some?;
    pl.(store := if decodes then t.next.value else pl.store,
        needDecode := pl.needDecode && !decodes,
        preroll := if pl.preroll > 0 then pl.preroll - 1 else 0)
  }

  /** FRAME_DONE: the next band, and after band 3 the other buffer is in front. */
  function Advanced(pl: Player): (r: Player)
    requires pl.Valid()
    ensures r.Valid()
  {
    var band := (pl.band + 1) % 4;
    if band == 0 then pl.(band := 0, front := Other(pl.front), needDecode := true)
    else pl.(band := band)
  }

  /** Player and console together; `onScreen` records the last frame revealed. */
  datatype System = System(player: Player, console: Console, onScreen: Option<Picture>)

  /** The console runs the band the player has staged. */
  function Ran(sys: System, t: Tick): System
    requires sys.player.Valid() && sys.console.Fits() && t.Whole()
  {
    var pl := sys.player;
    System(pl, RunBand(sys.console, pl.band, Other(pl.front), pl.store, t.sprites),
           if pl.band == 3 then Some(pl.store) else sys.onScreen)
  }

  /** One FRAME_DONE: advance, produce, and run the new band's body. */
  function Step(sys: System, t: Tick): System
    requires sys.player.Valid() && sys.console.Fits() && t.Whole()
  {
    Ran(System(Produced(Advanced(sys.player), t), sys.console, sys.onScreen), t)
  }

  /** Which buffer the registers show once `band`'s body has run. */
  function Revealed(pl: Player): Buffer { if pl.band == 3 then Other(pl.front) else pl.front }

  ghost predicate Shows(c: Console, b: Buffer) {
    c.Fits() && c.sc == ScOf(b) && c.nba == NbaOf(b)
  }

  ghost predicate Inv(sys: System) {
    var pl, c := sys.player, sys.console;
    && pl.Valid() && Shows(c, Revealed(pl)) && c.setup == SETUP
    && (sys.onScreen.Some? ==> c.Shown() == sys.onScreen.value)
    && (pl.band < 3 ==>
        Filled(c.vram, Other(pl.front), pl.store, RunStart(pl.band) + RunCount(pl.band), pl.band * 256 + 256))
  }

  lemma ShowsFits(c: Console, b: Buffer)
    requires Shows(c, b)
    ensures c.ShowsBuffers() && c.MapShown() == MapBase(b) && c.ChrShown() == ChrBase(b)
  {}

  /** So they leave every displayed word alone. */
  lemma EarlyBandWrites(v: seq<Word>, band: nat, front: Buffer, p: Picture, sp: Sprites)
    requires |v| == VRAM_WORDS && band < 3 && p.Whole() && sp.Whole()
    ensures forall a | 0 <= a < VRAM_WORDS && Displayed(front, a) ::
              ApplyAll(v, BandStrips(band, Other(front), p, sp))[a] == v[a]
  {
    var ss := BandStrips(band, Other(front), p, sp);
    assert forall i | 0 <= i < |ss| :: ss[i].step == 1;
    hide BandStrips, ApplyAll, Hits, Displayed;
    forall a | 0 <= a < VRAM_WORDS && Displayed(front, a)
      ensures ApplyAll(v, ss)[a] == v[a]
    {
      forall i | 0 <= i < |ss|
        ensures !Hits(ss[i], a)
      {
        EarlyBandsSpareTheFront(band, Other(front), p, sp, i, a);
      }
      Untouched(v, ss, a);
    }
  }

  lemma SameDisplay(v: seq<Word>, v': seq<Word>, front: Buffer)
    requires |v| == |v'| == VRAM_WORDS
    requires forall a | 0 <= a < VRAM_WORDS && Displayed(front, a) :: v'[a] == v[a]
    ensures v'[MapBase(front)..MapBase(front) + MAP_TOTAL] == v[MapBase(front)..MapBase(front) + MAP_TOTAL]
    ensures v'[ChrBase(front)..ChrBase(front) + CHR_TOTAL] == v[ChrBase(front)..ChrBase(front) + CHR_TOTAL]
  {}

  /** While bands 0 to 2 run, the displayed picture does not change. */
  lemma EarlyBandKeepsPicture(c: Console, band: nat, front: Buffer, p: Picture, sp: Sprites)
    requires Shows(c, front) && band < 3 && p.Whole() && sp.Whole()
    ensures var c' := RunBand(c, band, Other(front), p, sp);
            Shows(c', front) && c'.Shown() == c.Shown()
  {
    EarlyBandWrites(c.vram, band, front, p, sp);
    var c' := RunBand(c, band, Other(front), p, sp);
    hide BandStrips, ApplyAll, Displayed;
    SameDisplay(c.vram, c'.vram, front);
    ShowsFits(c, front);
    ShowsFits(c', front);
    assert c'.cgram[..PAL_TOTAL] == c.cgram[..PAL_TOTAL];
  }

  /** What producing the next band leaves of the player. */
  lemma NextBand(pl: Player, t: Tick)
    requires pl.Valid() && t.Whole()
    ensures var q := Produced(Advanced(pl), t);
            && q.Valid() && q.band == (pl.band + 1) % 4 &&
               q.front == (if pl.band == 3 then Other(pl.front) else pl.front)
            && (q.band > 0 ==> q.store == pl.store)
  {}

  /** Bands 0 to 2: one more part is filled, nothing shown changes. */
  lemma EarlyStep(c: Console, pl: Player, sp: Sprites, onScreen: Option<Picture>)
    requires pl.Valid() && sp.Whole() && pl.band < 3 && Shows(c, pl.front) && (pl.band > 0 ==> c.setup == SETUP)
    requires onScreen.Some? ==> c.Shown() == onScreen.value
    requires Filled(c.vram, Other(pl.front), pl.store, RunStart(pl.band), pl.band * 256)
    ensures Inv(System(pl, RunBand(c, pl.band, Other(pl.front), pl.store, sp), onScreen))
  {
    EarlyBandKeepsPicture(c, pl.band, pl.front, pl.store, sp);
    BandFills(c.vram, pl.band, Other(pl.front), pl.store, sp);
    hide Filled, BandStrips, ApplyAll;
  }

  /** Band 3: the frame is whole and comes up. */
  lemma LastStep(c: Console, pl: Player, sp: Sprites)
    requires pl.Valid() && sp.Whole() && pl.band == 3 && Shows(c, pl.front) && c.setup == SETUP
    requires Filled(c.vram, Other(pl.front), pl.store, RunStart(3), 768)
    ensures Inv(System(pl, RunBand(c, 3, Other(pl.front), pl.store, sp), Some(pl.store)))
  {
    var c' := RunBand(c, 3, Other(pl.front), pl.store, sp);
    LastBandCompletes(c.vram, Other(pl.front), pl.store, sp);
    ShowsFits(c', Other(pl.front));
    assert c'.cgram[..PAL_TOTAL] == pl.store.pal;
    hide Filled, BandStrips, ApplyAll;
  }

  /** A buffer of which nothing is asked yet. */
  lemma NothingFilled(v: seq<Word>, back: Buffer, p: Picture)
    requires |v| == VRAM_WORDS && p.Whole()
    ensures Filled(v, back, p, RunStart(0), 0)
  {}

  /** One step of the run. */
  lemma StepKeepsInv(sys: System, t: Tick)
    requires Inv(sys) && t.Whole()
    ensures Inv(Step(sys, t))
  {
    var pl := Produced(Advanced(sys.player), t);
    NextBand(sys.player, t);
    assert Shows(sys.console, pl.front);
    if pl.band == 0 {
      NothingFilled(sys.console.vram, Other(pl.front), pl.store);
    }
    hide Filled, RunBand, Produced, Advanced, Shows;
    if pl.band < 3 {
      EarlyStep(sys.console, pl, t.sprites, sys.onScreen);
    } else {
      LastStep(sys.console, pl, t.sprites);
    }
  }

  /** As started: band 0 of the first frame kicked into an arbitrary console. */
  function Kicked(c: Console, pl: Player, t: Tick): System
    requires c.Fits() && pl.Valid() && t.Whole()
  {
    Ran(System(Produced(pl, t), c, None), t)
  }

  ghost function Run(sys: System, ts: seq<Tick>): (r: System)
    requires Inv(sys) && forall i | 0 <= i < |ts| :: ts[i].Whole()
    ensures Inv(r)
    decreases |ts|
  {
    if ts == [] then sys
    else
      var before := Run(sys, ts[..|ts| - 1]);
      StepKeepsInv(before, ts[|ts| - 1]);
      Step(before, ts[|ts| - 1])
  }

  /** The kick itself establishes the invariant, whatever VRAM held. */
  lemma KickStartsWell(c: Console, pl: Player, t: Tick)
    requires c.Fits() && pl.Valid() && t.Whole() && pl.band == 0
    ensures Inv(Kicked(c, pl, t))
  {
    var q := Produced(pl, t);
    BandFills(c.vram, 0, Other(q.front), q.store, t.sprites);
  }

  /** One step, seen on screen. */
  lemma StepOnScreen(sys: System, t: Tick)
    requires Inv(sys) && t.Whole()
    ensures var next := Step(sys, t);
            && Inv(next) && sys.console.ShowsBuffers() && next.console.ShowsBuffers()
            && next.player.band == (sys.player.band + 1) % 4
            && (next.player.band == 0 ==> next.player.front == Other(sys.player.front))
            && (next.player.band != 0 ==>
                  next.player.front == sys.player.front && next.player.store == sys.player.store)
            && (next.player.band != 3 ==>
                  next.console.Shown() == sys.console.Shown() && next.onScreen == sys.onScreen)
            && (next.player.band == 3 ==>
                  next.console.Shown() == sys.player.store && next.onScreen == Some(sys.player.store))
            && next.console.setup == SETUP
            && next.console.oam == (if next.player.band == 3 then t.sprites.oam
                                    else t.sprites.oam[..OAM_ACTIVE] + sys.console.oam[OAM_ACTIVE..])
  {
    var pl := Produced(Advanced(sys.player), t);
    StepKeepsInv(sys, t);
    ShowsFits(sys.console, Revealed(sys.player));
    ShowsFits(Step(sys, t).console, Revealed(pl));
    if pl.band < 3 {
      EarlyBandKeepsPicture(sys.console, pl.band, pl.front, pl.store, t.sprites);
    }
  }

  /** NO TEARING over every run of FRAME_DONE steps: once a frame has been
      revealed, the tiles, tilemap and palette on screen are those of exactly
      one decoded frame, and they change only at a band-3 flip. */
  lemma OneFrameOnScreen(c: Console, pl: Player, kick: Tick, ts: seq<Tick>, t: Tick)
    requires c.Fits() && pl.Valid() && kick.Whole() && pl.band == 0 && t.Whole()
    requires forall i | 0 <= i < |ts| :: ts[i].Whole()
    ensures Inv(Kicked(c, pl, kick))
    ensures var now := Run(Kicked(c, pl, kick), ts);
            var after := Step(now, t);
            && now.console.ShowsBuffers() && after.console.ShowsBuffers()
            && (now.onScreen.Some? ==> now.console.Shown() == now.onScreen.value)
            && (after.player.band != 3 ==> after.console.Shown() == now.console.Shown())
            && (after.player.band == 3 ==> after.console.Shown() == now.player.store)
  {
    KickStartsWell(c, pl, kick);
    hide Step, Run, Kicked, Shows;
    StepOnScreen(Run(Kicked(c, pl, kick), ts), t);
  }

  /** Four steps make a frame: what band 3 reveals is the frame that stood in
      the store when its band 0 was produced, in the buffer that was hidden. */
  lemma RevealedFrameIsTheDecodedOne(sys: System, t0: Tick, t1: Tick, t2: Tick, t3: Tick)
    requires Inv(sys) && sys.player.band == 3
    requires t0.Whole() && t1.Whole() && t2.Whole() && t3.Whole()
    ensures var s0 := Step(sys, t0);
            Inv(s0) && Inv(Step(s0, t1)) && Inv(Step(Step(s0, t1), t2))
    ensures var s0 := Step(sys, t0);
            var s3 := Step(Step(Step(s0, t1), t2), t3);
            && s3.player.band == 3 && Revealed(s3.player) == Other(Revealed(sys.player))
            && s3.console.ShowsBuffers() && s3.console.Shown() == s0.player.store
  {
    hide Step, Filled;
    var s0 := Step(sys, t0);
    StepOnScreen(sys, t0);
    var s1 := Step(s0, t1);
    StepOnScreen(s0, t1);
    var s2 := Step(s1, t2);
    StepOnScreen(s1, t2);
    StepOnScreen(s2, t3);
  }
}
