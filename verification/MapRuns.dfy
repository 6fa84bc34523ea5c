// Whole runs of the scrolling map: every frame stages all layers under a
// budget of one reseed, the console sends the strips and then shows or blanks
// the field. runtime/hx421_runtime.c, hx_map_stage and hx_produce_map_frame.
module MapRuns {
  import opened Arith
  import opened Vram
  import opened MapSeams

  datatype Camera = Camera(x: int, y: int)

  /** One frame's input: a camera for each layer, and the shared tile set when
      a new one is due (`g_map_assets_pending`). */
  datatype Frame = Frame(cams: seq<Camera>, assets: Option<seq<Word>>)

  const CHR_VWORD: nat := 0x2000
  const CHR_WORDS: nat := 256

  datatype Staged = Staged(layers: seq<LayerState>, left: int, strips: seq<Strip>)

  /** The first k layers told where they are, in index order. */
  function StageFirst(ws: seq<World>, ls: seq<LayerState>, cams: seq<Camera>, k: nat): (p: Staged)
    requires |ws| == |ls| == |cams| && k <= |ls|
    requires forall i | 0 <= i < |ls| :: ls[i].Ready()
    ensures |p.layers| == |ls|
    ensures forall i | k <= i < |ls| :: p.layers[i] == ls[i]
    ensures forall i | 0 <= i < |ls| :: p.layers[i].base == ls[i].base
  {
    if k == 0 then Staged(ls, 1, [])
    else
      var p := StageFirst(ws, ls, cams, k - 1);
      var m := Goto(ws[k - 1], ls[k - 1], cams[k - 1].x, cams[k - 1].y, p.left);
      Staged(p.layers[k - 1 := m.state], m.reseedsLeft, p.strips + m.strips)
  }

  function AssetStrips(f: Frame): seq<Strip> {
    if f.assets.Some? then [Strip(CHR_VWORD, 1, f.assets.value)] else []
  }

  /** The console and the engine between frames. */
  datatype System = System(layers: seq<LayerState>, vram: seq<Word>, revealed: bool)

  ghost predicate Shape(ws: seq<World>, ls: seq<LayerState>, f: Frame) {
    && |ws| == |ls| == |f.cams|
    && (f.assets.Some? ==> |f.assets.value| == CHR_WORDS)
    && forall i | 0 <= i < |ls| :: ls[i].Ready()
  }

  /** Stage a frame, run its DMA body, and act on its action table. */
  ghost function Step(ws: seq<World>, sys: System, f: Frame): System
    requires Shape(ws, sys.layers, f)
  {
    var p := StageFirst(ws, sys.layers, f.cams, |ws|);
    System(p.layers, ApplyAll(sys.vram, AssetStrips(f) + p.strips),
           forall i | 0 <= i < |p.layers| :: !p.layers[i].Stale())
  }

  // ---- the invariant ----

  ghost predicate Disjoint(ls: seq<LayerState>) {
    forall i, j | 0 <= i < |ls| && 0 <= j < |ls| && i != j ::
      ls[i].base + SCREEN_PAIR <= ls[j].base || ls[j].base + SCREEN_PAIR <= ls[i].base
  }

  ghost predicate BelowChr(ls: seq<LayerState>) {
    forall i | 0 <= i < |ls| :: ls[i].base + SCREEN_PAIR <= CHR_VWORD
  }

  /** The window is where the camera wants it. */
  predicate Current(s: LayerState) {
    s.winL == WantL(s.camX) && s.winT == WantT(s.camY)
  }

  ghost predicate AllCoherent(ws: seq<World>, ls: seq<LayerState>, v: seq<Word>)
    requires |ws| == |ls| && |v| == VRAM_WORDS
    requires forall i | 0 <= i < |ls| :: ls[i].Ready()
  {
    forall i | 0 <= i < |ls| :: ls[i].seeded ==> Coherent(ws[i], ls[i], v)
  }

  ghost predicate Inv(ws: seq<World>, sys: System) {
    && |ws| == |sys.layers| && |sys.vram| == VRAM_WORDS
    && (forall i | 0 <= i < |ws| :: sys.layers[i].Ready())
    && Disjoint(sys.layers) && BelowChr(sys.layers)
    && AllCoherent(ws, sys.layers, sys.vram)
    && (forall i | 0 <= i < |ws| :: !sys.layers[i].Stale() ==> Current(sys.layers[i]))
    && (sys.revealed ==> forall i | 0 <= i < |ws| :: !sys.layers[i].Stale())
  }

  lemma CoherentElsewhere(w: World, s: LayerState, base: nat, v: seq<Word>, v': seq<Word>)
    requires s.Ready() && |v| == VRAM_WORDS && OnlyOwn(base, v, v')
    requires s.base + SCREEN_PAIR <= base || base + SCREEN_PAIR <= s.base
    requires Coherent(w, s, v)
    ensures Coherent(w, s, v')
  {
    var g, g' := TilesAt(s.base, v), TilesAt(s.base, v');
    forall c, r | s.winL <= c < s.winL + 64 && s.winT <= r < s.winT + 32
      ensures g'(c % 64, r % 32) == w(c, r)
    {
      assert g(c % 64, r % 32) == w(c, r);
    }
  }

  /** Moving one layer keeps every layer coherent. */
  lemma OneMoveCoherent(ws: seq<World>, ls: seq<LayerState>, v: seq<Word>, i: nat, nx: int, ny: int, left: int)
    requires |ws| == |ls| && i < |ls| && |v| == VRAM_WORDS
    requires forall j | 0 <= j < |ls| :: ls[j].Ready()
    requires Disjoint(ls) && AllCoherent(ws, ls, v)
    ensures var m := Goto(ws[i], ls[i], nx, ny, left);
            AllCoherent(ws, ls[i := m.state], ApplyAll(v, m.strips))
  {
    var m := Goto(ws[i], ls[i], nx, ny, left);
    var v' := ApplyAll(v, m.strips);
    GotoKeepsCoherence(ws[i], ls[i], v, nx, ny, left);
    forall j | 0 <= j < |ls| && j != i && ls[j].seeded
      ensures Coherent(ws[j], ls[j], v')
    {
      CoherentElsewhere(ws[j], ls[j], ls[i].base, v, v');
    }
  }

  lemma NothingToSend(v: seq<Word>)
    ensures ApplyAll(v, []) == v
  {}

  lemma {:induction false} StageCoherent(ws: seq<World>, ls: seq<LayerState>, cams: seq<Camera>, v: seq<Word>, k: nat)
    requires |ws| == |ls| == |cams| && k <= |ls| && |v| == VRAM_WORDS
    requires forall i | 0 <= i < |ls| :: ls[i].Ready()
    requires Disjoint(ls) && AllCoherent(ws, ls, v)
    ensures var p := StageFirst(ws, ls, cams, k);
            AllCoherent(ws, p.layers, ApplyAll(v, p.strips))
  {
    hide Goto, AllCoherent, ApplyAll;
    if k == 0 {
      assert ApplyAll(v, []) == v by { NothingToSend(v); }
    } else {
      StageCoherent(ws, ls, cams, v, k - 1);
      var p := StageFirst(ws, ls, cams, k - 1);
      var m := Goto(ws[k - 1], ls[k - 1], cams[k - 1].x, cams[k - 1].y, p.left);
      OneMoveCoherent(ws, p.layers, ApplyAll(v, p.strips), k - 1, cams[k - 1].x, cams[k - 1].y, p.left);
      ApplyAllConcat(v, p.strips, m.strips);
    }
  }

  lemma {:induction false} StageCurrent(ws: seq<World>, ls: seq<LayerState>, cams: seq<Camera>, k: nat, i: nat)
    requires |ws| == |ls| == |cams| && i < k <= |ls|
    requires forall j | 0 <= j < |ls| :: ls[j].Ready()
    ensures var s := StageFirst(ws, ls, cams, k).layers[i];
            && s.camX == cams[i].x && s.camY == cams[i].y
            && (!s.Stale() ==> Current(s))
  {
    hide Columns, Rows, SeedStrip;
    if i < k - 1 {
      StageCurrent(ws, ls, cams, k - 1, i);
    }
  }

  lemma AssetsElsewhere(v: seq<Word>, f: Frame, a: nat)
    requires a < |v| && a < CHR_VWORD
    ensures ApplyAll(v, AssetStrips(f))[a] == v[a]
  {
    if f.assets.Some? {
      var s := Strip(CHR_VWORD, 1, f.assets.value);
      assert [s][..0] == [];
      BurstLands(v, CHR_VWORD, 1, f.assets.value, a);
    }
  }

  /** One cell below the tile set is not touched by it. */
  lemma AssetsSpareTile(base: nat, v: seq<Word>, f: Frame, x: nat, y: nat)
    requires |v| == VRAM_WORDS && base + SCREEN_PAIR <= CHR_VWORD && x < 64 && y < 32
    ensures TilesAt(base, ApplyAll(v, AssetStrips(f)))(x, y) == TilesAt(base, v)(x, y)
  {
    CellInside(base, x, y);
    AssetsElsewhere(v, f, Cell(base, x, y));
    hide ApplyAll, AssetStrips, Cell;
  }

  lemma CellInside(base: nat, x: nat, y: nat)
    requires x < 64 && y < 32
    ensures base <= Cell(base, x, y) < base + SCREEN_PAIR
  {}

  lemma AssetsKeepOne(w: World, s: LayerState, v: seq<Word>, f: Frame)
    requires |v| == VRAM_WORDS && s.base + SCREEN_PAIR <= CHR_VWORD && s.Ready() && Coherent(w, s, v)
    ensures Coherent(w, s, ApplyAll(v, AssetStrips(f)))
  {
    hide ApplyAll, AssetStrips, TilesAt;
    forall c, r | s.winL <= c < s.winL + 64 && s.winT <= r < s.winT + 32
      ensures TilesAt(s.base, ApplyAll(v, AssetStrips(f)))(c % 64, r % 32) == w(c, r)
    {
      AssetsSpareTile(s.base, v, f, c % 64, r % 32);
      assert TilesAt(s.base, v)(c % 64, r % 32) == w(c, r);
    }
  }

  lemma AssetsKeepCoherence(ws: seq<World>, ls: seq<LayerState>, v: seq<Word>, f: Frame)
    requires Shape(ws, ls, f) && |v| == VRAM_WORDS && BelowChr(ls) && AllCoherent(ws, ls, v)
    ensures AllCoherent(ws, ls, ApplyAll(v, AssetStrips(f)))
  {
    hide Coherent, ApplyAll, AssetStrips;
    forall i | 0 <= i < |ls| && ls[i].seeded
      ensures Coherent(ws[i], ls[i], ApplyAll(v, AssetStrips(f)))
    {
      AssetsKeepOne(ws[i], ls[i], v, f);
    }
  }

  /** One frame, any cameras: the invariant survives. */
  lemma StepKeepsInv(ws: seq<World>, sys: System, f: Frame)
    requires Inv(ws, sys) && Shape(ws, sys.layers, f)
    ensures Inv(ws, Step(ws, sys, f))
    ensures forall i | 0 <= i < |ws| ::
              Step(ws, sys, f).layers[i].camX == f.cams[i].x && Step(ws, sys, f).layers[i].camY == f.cams[i].y
  {
    var p := StageFirst(ws, sys.layers, f.cams, |ws|);
    AssetsKeepCoherence(ws, sys.layers, sys.vram, f);
    StageCoherent(ws, sys.layers, f.cams, ApplyAll(sys.vram, AssetStrips(f)), |ws|);
    ApplyAllConcat(sys.vram, AssetStrips(f), p.strips);
    forall i | 0 <= i < |ws|
      ensures p.layers[i].camX == f.cams[i].x && p.layers[i].camY == f.cams[i].y
      ensures !p.layers[i].Stale() ==> Current(p.layers[i])
    {
      StageCurrent(ws, sys.layers, f.cams, |ws|, i);
    }
  }

  // ---- runs ----

  ghost predicate Frames(n: nat, fs: seq<Frame>) {
    forall k | 0 <= k < |fs| ::
      |fs[k].cams| == n && (fs[k].assets.Some? ==> |fs[k].assets.value| == CHR_WORDS)
  }

  ghost function Run(ws: seq<World>, sys: System, fs: seq<Frame>): (r: System)
    requires Inv(ws, sys) && Frames(|ws|, fs)
    ensures Inv(ws, r)
    decreases |fs|
  {
    if fs == [] then sys
    else
      var before := Run(ws, sys, fs[..|fs| - 1]);
      StepKeepsInv(ws, before, fs[|fs| - 1]);
      Step(ws, before, fs[|fs| - 1])
  }

  /** As built: no layer seeded, the field blank, VRAM arbitrary. */
  ghost predicate Boot(ws: seq<World>, sys: System) {
    && |ws| == |sys.layers| && |sys.vram| == VRAM_WORDS && !sys.revealed
    && (forall i | 0 <= i < |ws| :: sys.layers[i].Ready() && !sys.layers[i].seeded)
    && Disjoint(sys.layers) && BelowChr(sys.layers)
  }

  lemma BootHolds(ws: seq<World>, sys: System)
    requires Boot(ws, sys)
    ensures Inv(ws, sys)
  {}

  /** CACHE COHERENCE over every run: after any sequence of camera positions,
      jumps and signs included, the word of each seeded layer's cell (c mod 64,
      r mod 32), two screens of 1024 words side by side, holds tile (c, r) for
      every (c, r) of its window. */
  lemma RunIsCoherent(ws: seq<World>, sys: System, fs: seq<Frame>, i: nat, c: int, r: int, at: int)
    requires Boot(ws, sys) && Frames(|ws|, fs) && i < |ws|
    requires at == sys.layers[i].base + c % 64 / 32 * 1024 + r % 32 * 32 + c % 32
    ensures Inv(ws, sys)
    ensures var s := Run(ws, sys, fs).layers[i];
            && s.base == sys.layers[i].base
            && (s.seeded && s.winL <= c < s.winL + 64 && s.winT <= r < s.winT + 32 ==>
                  0 <= at < |Run(ws, sys, fs).vram| && Run(ws, sys, fs).vram[at] == ws[i](c, r))
  {
    var end := Run(ws, sys, fs);
    var s := end.layers[i];
    RunKeepsBases(ws, sys, fs, i);
    FitsMemory(ws, end, i);
    hide Inv, Run, Coherent, Boot, Disjoint;
    if s.seeded && s.winL <= c < s.winL + 64 && s.winT <= r < s.winT + 32 {
      CoherentAt(ws, end, i, c, r);
      TileWord(s.base, end.vram, c, r);
    }
  }

  lemma FitsMemory(ws: seq<World>, sys: System, i: nat)
    requires Inv(ws, sys) && i < |ws|
    ensures |sys.layers| == |ws| && sys.layers[i].base + SCREEN_PAIR <= |sys.vram|
  {}

  lemma {:induction false} RunKeepsBases(ws: seq<World>, sys: System, fs: seq<Frame>, i: nat)
    requires Inv(ws, sys) && Frames(|ws|, fs) && i < |ws|
    ensures Run(ws, sys, fs).layers[i].base == sys.layers[i].base
    decreases |fs|
  {
    if fs == [] {
    } else {
      RunKeepsBases(ws, sys, fs[..|fs| - 1], i);
    }
  }

  // ---- the tile set ----

  /** The words no layer's tilemap reaches are as they were. */
  ghost predicate SameAbove(v: seq<Word>, v': seq<Word>) {
    |v| == |v'| && forall a | 0x2000 <= a < |v| :: v'[a] == v[a]
  }

  lemma SameAboveChains(a: seq<Word>, b: seq<Word>, c: seq<Word>)
    requires SameAbove(a, b) && SameAbove(b, c)
    ensures SameAbove(a, c)
  {}

  lemma OwnIsBelow(base: nat, v: seq<Word>, v': seq<Word>)
    requires base + SCREEN_PAIR <= CHR_VWORD && OnlyOwn(base, v, v')
    ensures SameAbove(v, v')
  {}

  lemma {:induction false} StageSparesTiles(ws: seq<World>, ls: seq<LayerState>, cams: seq<Camera>, v: seq<Word>,
                                            k: nat)
    requires |ws| == |ls| == |cams| && k <= |ls| && |v| == VRAM_WORDS
    requires forall i | 0 <= i < |ls| :: ls[i].Ready()
    requires Disjoint(ls) && BelowChr(ls) && AllCoherent(ws, ls, v)
    ensures SameAbove(v, ApplyAll(v, StageFirst(ws, ls, cams, k).strips))
  {
    hide Goto, ApplyAll, SameAbove;
    if k == 0 {
      NothingToSend(v);
      SameAboveSelf(v);
    } else {
      StageSparesTiles(ws, ls, cams, v, k - 1);
      StageCoherent(ws, ls, cams, v, k - 1);
      var p := StageFirst(ws, ls, cams, k - 1);
      var m := Goto(ws[k - 1], ls[k - 1], cams[k - 1].x, cams[k - 1].y, p.left);
      var mid := ApplyAll(v, p.strips);
      assert AllCoherent(ws, p.layers, mid);
      GotoKeepsCoherence(ws[k - 1], ls[k - 1], mid, cams[k - 1].x, cams[k - 1].y, p.left);
      ApplyAllConcat(v, p.strips, m.strips);
      OwnIsBelow(ls[k - 1].base, mid, ApplyAll(mid, m.strips));
      SameAboveChains(v, mid, ApplyAll(mid, m.strips));
    }
  }

  lemma SameAboveSelf(v: seq<Word>)
    ensures SameAbove(v, v)
  {}

  lemma AssetsLand(v: seq<Word>, f: Frame)
    requires |v| == VRAM_WORDS && (f.assets.Some? ==> |f.assets.value| == CHR_WORDS)
    ensures ApplyAll(v, AssetStrips(f))[0x2000..0x2100] == if f.assets.Some? then f.assets.value else v[0x2000..0x2100]
  {
    match f.assets {
      case None => NothingToSend(v);
      case Some(tiles) =>
        ApplyOne(v, Strip(CHR_VWORD, 1, tiles));
        var now := Burst(v, CHR_VWORD, 1, tiles);
        hide ApplyAll, Burst;
        forall a | 0x2000 <= a < 0x2100
          ensures now[a] == tiles[a - 0x2000]
        {
          PlainBurst(v, CHR_VWORD, tiles, a);
        }
        assert now[0x2000..0x2100] == tiles;
    }
  }

  /** A frame that brings a tile set leaves it at word 2000, any other leaves the one
      that is there. */
  lemma StepTileSet(ws: seq<World>, sys: System, f: Frame)
    requires Inv(ws, sys) && Shape(ws, sys.layers, f)
    ensures Step(ws, sys, f).vram[0x2000..0x2100] ==
            if f.assets.Some? then f.assets.value else sys.vram[0x2000..0x2100]
  {
    StepSends(ws, sys, f);
    AssetsLand(sys.vram, f);
    hide Step, Inv, ApplyAll, AssetStrips;
    SameTiles(ApplyAll(sys.vram, AssetStrips(f)), Step(ws, sys, f).vram);
  }

  lemma StepSends(ws: seq<World>, sys: System, f: Frame)
    requires Inv(ws, sys) && Shape(ws, sys.layers, f)
    ensures |sys.vram| == VRAM_WORDS && SameAbove(ApplyAll(sys.vram, AssetStrips(f)), Step(ws, sys, f).vram)
  {
    var v := ApplyAll(sys.vram, AssetStrips(f));
    AssetsKeepCoherence(ws, sys.layers, sys.vram, f);
    StageSparesTiles(ws, sys.layers, f.cams, v, |ws|);
    ApplyAllConcat(sys.vram, AssetStrips(f), StageFirst(ws, sys.layers, f.cams, |ws|).strips);
    hide ApplyAll, StageFirst, Coherent, AssetStrips, SameAbove;
  }

  lemma SameTiles(v: seq<Word>, v': seq<Word>)
    requires SameAbove(v, v') && |v| == VRAM_WORDS
    ensures v'[0x2000..0x2100] == v[0x2000..0x2100]
  {}

  /** THE TILE SET of a run is the last one that came due, whole. */
  lemma {:induction false} RunTileSet(ws: seq<World>, sys: System, fs: seq<Frame>, k: nat)
    requires Inv(ws, sys) && Frames(|ws|, fs) && k < |fs| && fs[k].assets.Some?
    requires forall j | k < j < |fs| :: fs[j].assets == None
    ensures Run(ws, sys, fs).vram[0x2000..0x2100] == fs[k].assets.value
    decreases |fs|
  {
    var n := |fs| - 1;
    hide Inv, Step;
    if k < n {
      RunTileSet(ws, sys, fs[..n], k);
    }
    LastShape(ws, sys, fs);
    StepTileSet(ws, Run(ws, sys, fs[..n]), fs[n]);
  }

  lemma LastShape(ws: seq<World>, sys: System, fs: seq<Frame>)
    requires Inv(ws, sys) && Frames(|ws|, fs) && fs != []
    ensures var before := Run(ws, sys, fs[..|fs| - 1]);
            && Shape(ws, before.layers, fs[|fs| - 1]) && |Step(ws, before, fs[|fs| - 1]).vram| == VRAM_WORDS
            && Run(ws, sys, fs) == Step(ws, before, fs[|fs| - 1]) && |before.vram| == VRAM_WORDS
  {
    StepKeepsInv(ws, Run(ws, sys, fs[..|fs| - 1]), fs[|fs| - 1]);
  }

  // ---- what is on screen ----

  /** A write-twice scroll register keeps ten bits. */
  function Scroll10(v: nat): nat { v % 256 + 256 * ((v / 256) % 4) }

  function Hofs(camX: int): nat { Scroll10(camX % 0x1_0000) }

  /** VOFS carries a -1 because the first visible line shows BG line VOFS + 1. */
  function Vofs(camY: int): nat { Scroll10((camY % 0x1_0000 - 1) % 0x400) }

  /** The map column and row under screen pixel (sx, sy) of a 64x32 map. */
  function ScreenColumn(hofs: nat, sx: nat): nat { ((hofs + sx) % 512) / 8 }
  function ScreenRow(vofs: nat, sy: nat): nat { ((vofs + sy + 1) % 256) / 8 }

  /** The entry the PPU fetches there. */
  function Fetched(g: Tiles, hofs: nat, vofs: nat, sx: nat, sy: nat): Word {
    g(ScreenColumn(hofs, sx), ScreenRow(vofs, sy))
  }

  lemma HofsIs(camX: int)
    ensures Hofs(camX) == camX % 1024
  {
    var u := camX % 0x1_0000;
    ModShift(u, 0x400, camX / 0x1_0000 * 64);
    LowTenBits(u);
  }

  lemma VofsIs(camY: int)
    ensures Vofs(camY) == (camY - 1) % 1024
  {
    ModShift(camY % 0x1_0000 - 1, 0x400, camY / 0x1_0000 * 64);
    LowTenBits((camY - 1) % 0x400);
  }

  lemma ScrollX(camX: int, sx: nat)
    ensures ScreenColumn(Hofs(camX), sx) == ((camX + sx) / 8) % 64
  {
    HofsIs(camX);
    var v := camX % 0x400;
    hide Hofs;
    ModShift(v + sx, 512, camX / 0x400 * 2);
    assert v + sx + camX / 0x400 * 2 * 512 == camX + sx;
    TileColumn(camX + sx);
  }

  lemma LowTenBits(u: nat)
    ensures Scroll10(u) == u % 0x400
  {}

  lemma TileColumn(x: int)
    ensures (x % 512) / 8 == (x / 8) % 64
  {
    var q := x / 8;
    DivModUnique(x, 512, q / 64, (q % 64) * 8 + x % 8);
    DivModUnique((q % 64) * 8 + x % 8, 8, q % 64, x % 8);
  }

  lemma ScrollY(camY: int, sy: nat)
    ensures ScreenRow(Vofs(camY), sy) == ((camY + sy) / 8) % 32
  {
    VofsIs(camY);
    var v := (camY - 1) % 0x400;
    hide Vofs;
    ModShift(v + sy + 1, 256, (camY - 1) / 0x400 * 4);
    assert v + sy + 1 + (camY - 1) / 0x400 * 4 * 256 == camY + sy;
    TileRow(camY + sy);
  }

  lemma TileRow(y: int)
    ensures (y % 256) / 8 == (y / 8) % 32
  {
    var q := y / 8;
    DivModUnique(y, 256, q / 32, (q % 32) * 8 + y % 8);
    DivModUnique((q % 32) * 8 + y % 8, 8, q % 32, y % 8);
  }

  /** The view lies inside the window the camera wants. */
  lemma ViewInWindow(camX: int, camY: int, sx: nat, sy: nat)
    requires sx < 256 && sy < 224
    ensures WantL(camX) <= (camX + sx) / 8 < WantL(camX) + 64
    ensures WantT(camY) <= (camY + sy) / 8 < WantT(camY) + 32
  {}

  lemma RevealedWindow(ws: seq<World>, sys: System, i: nat)
    requires Inv(ws, sys) && sys.revealed && i < |ws|
    ensures i < |sys.layers| && sys.layers[i].seeded && sys.layers[i].base + SCREEN_PAIR <= |sys.vram|
    ensures sys.layers[i].winL == WantL(sys.layers[i].camX) && sys.layers[i].winT == WantT(sys.layers[i].camY)
  {
    assert !sys.layers[i].Stale() && Current(sys.layers[i]);
  }

  lemma CoherentAt(ws: seq<World>, sys: System, i: nat, c: int, r: int)
    requires Inv(ws, sys) && i < |ws| && sys.layers[i].seeded
    requires sys.layers[i].winL <= c < sys.layers[i].winL + 64 && sys.layers[i].winT <= r < sys.layers[i].winT + 32
    ensures TilesAt(sys.layers[i].base, sys.vram)(c % 64, r % 32) == ws[i](c, r)
  {
    assert Coherent(ws[i], sys.layers[i], sys.vram);
  }

  /** SAFE DISPLAY: whenever the field is revealed, the tile fetched for every
      pixel of the 256x224 view of every layer is the map tile that lies there. */
  lemma RevealedIsCorrect(ws: seq<World>, sys: System, i: nat, sx: nat, sy: nat)
    requires Inv(ws, sys) && sys.revealed && i < |ws| && sx < 256 && sy < 224
    ensures var s := sys.layers[i];
            Fetched(TilesAt(s.base, sys.vram), Hofs(s.camX), Vofs(s.camY), sx, sy) ==
            ws[i]((s.camX + sx) / 8, (s.camY + sy) / 8)
  {
    hide Hofs, Vofs, ScreenColumn, ScreenRow, Inv, WantL, WantT, TilesAt;
    RevealedWindow(ws, sys, i);
    var s := sys.layers[i];
    ScrollX(s.camX, sx);
    ScrollY(s.camY, sy);
    ViewInWindow(s.camX, s.camY, sx, sy);
    CoherentAt(ws, sys, i, (s.camX + sx) / 8, (s.camY + sy) / 8);
  }

  // ---- the reseed budget ----

  /** How many of the first k layers cannot be served by seams this frame. */
  function NeedCount(ls: seq<LayerState>, cams: seq<Camera>, k: nat): nat
    requires |ls| == |cams| && k <= |ls|
  {
    if k == 0 then 0
    else NeedCount(ls, cams, k - 1) + if NeedsReseed(ls[k - 1], cams[k - 1].x, cams[k - 1].y) then 1 else 0
  }

  function StaleCount(ls: seq<LayerState>, k: nat): nat
    requires k <= |ls|
  {
    if k == 0 then 0 else StaleCount(ls, k - 1) + if ls[k - 1].Stale() then 1 else 0
  }

  lemma {:induction false} StaleCountFrame(ls: seq<LayerState>, ms: seq<LayerState>, k: nat)
    requires k <= |ls| && k <= |ms|
    requires forall i | 0 <= i < k :: ls[i] == ms[i]
    ensures StaleCount(ls, k) == StaleCount(ms, k)
  {
    if k == 0 {
    } else {
      StaleCountFrame(ls, ms, k - 1);
    }
  }

  lemma {:induction false} StaleCountZero(ls: seq<LayerState>, k: nat)
    requires k <= |ls|
    ensures StaleCount(ls, k) == 0 <==> forall i | 0 <= i < k :: !ls[i].Stale()
  {
    if k == 0 {
    } else {
      StaleCountZero(ls, k - 1);
    }
  }

  /** What a move does to the budget, and whether it leaves the layer stale. */
  lemma GotoBudget(w: World, s: LayerState, nx: int, ny: int, left: int)
    requires s.Ready()
    ensures var m := Goto(w, s, nx, ny, left);
            && m.reseedsLeft == (if NeedsReseed(s, nx, ny) && left > 0 then left - 1 else left)
            && (m.state.Stale() <==> NeedsReseed(s, nx, ny) && left <= 0)
  {
    hide Columns, Rows, SeedStrip;
  }

  /** The first layer in need takes the whole budget and the rest go stale. */
  lemma {:induction false} BudgetGoesToTheFirst(ws: seq<World>, ls: seq<LayerState>, cams: seq<Camera>, k: nat)
    requires |ws| == |ls| == |cams| && k <= |ls|
    requires forall i | 0 <= i < |ls| :: ls[i].Ready()
    ensures var p, need := StageFirst(ws, ls, cams, k), NeedCount(ls, cams, k);
            && p.left == (if need == 0 then 1 else 0)
            && StaleCount(p.layers, k) == (if need == 0 then 0 else need - 1)
  {
    hide Goto, NeedsReseed;
    if k == 0 {
    } else {
      BudgetGoesToTheFirst(ws, ls, cams, k - 1);
      var p0, p := StageFirst(ws, ls, cams, k - 1), StageFirst(ws, ls, cams, k);
      GotoBudget(ws[k - 1], ls[k - 1], cams[k - 1].x, cams[k - 1].y, p0.left);
      StaleCountFrame(p0.layers, p.layers, k - 1);
    }
  }

  /** The field is shown exactly when at most one layer needed a reseed. */
  lemma RevealedIff(ws: seq<World>, sys: System, f: Frame)
    requires Shape(ws, sys.layers, f)
    ensures Step(ws, sys, f).revealed <==> NeedCount(sys.layers, f.cams, |ws|) <= 1
  {
    BudgetGoesToTheFirst(ws, sys.layers, f.cams, |ws|);
    StaleCountZero(StageFirst(ws, sys.layers, f.cams, |ws|).layers, |ws|);
  }

  function Bytes(ss: seq<Strip>): nat {
    if ss == [] then 0 else Bytes(ss[..|ss| - 1]) + 2 * |ss[|ss| - 1].data|
  }

  lemma {:induction false} BytesConcat(xs: seq<Strip>, ys: seq<Strip>)
    ensures Bytes(xs + ys) == Bytes(xs) + Bytes(ys)
    decreases |ys|
  {
    if ys == [] {
      assert xs + ys == xs;
    } else {
      BytesConcat(xs, ys[..|ys| - 1]);
      assert (xs + ys)[..|xs + ys| - 1] == xs + ys[..|ys| - 1];
    }
  }

  lemma {:induction false} ColumnsBytes(w: World, s: LayerState, dl: int, t: int, k: nat)
    requires s.Ready()
    ensures Bytes(Columns(w, s, dl, t, k)) == 64 * k
  {
    if k == 0 {
    } else {
      ColumnsBytes(w, s, dl, t, k - 1);
      assert Columns(w, s, dl, t, k)[..k - 1] == Columns(w, s, dl, t, k - 1);
    }
  }

  lemma {:induction false} RowsBytes(w: World, s: LayerState, dt: int, l: int, k: nat)
    requires s.Ready()
    ensures Bytes(Rows(w, s, dt, l, k)) == 128 * k
  {
    if k == 0 {
    } else {
      RowsBytes(w, s, dt, l, k - 1);
      var ty := EnteringRow(s.winT, dt, k - 1);
      var a, b := RowStrip(w, s, ty, l, 0), RowStrip(w, s, ty, l, 1);
      BytesConcat(Rows(w, s, dt, l, k - 1), [a, b]);
      BytesConcat([a], [b]);
      assert [a] + [b] == [a, b];
    }
  }

  /** A move costs 64 bytes a column and 128 a row, never more than 1024 in
      all, unless it spends one unit of budget on the 4096 bytes of a reseed. */
  lemma GotoBytes(w: World, s: LayerState, nx: int, ny: int, left: int)
    requires s.Ready()
    ensures var m := Goto(w, s, nx, ny, left);
            && m.reseedsLeft <= left
            && Bytes(m.strips) <= 4096 * (left - m.reseedsLeft) + 1024
            && (!NeedsReseed(s, nx, ny) ==>
                  Bytes(m.strips) == 64 * Abs(WantL(nx) - s.winL) + 128 * Abs(WantT(ny) - s.winT))
  {
    hide Columns, Rows, Bytes, SeedStrip;
    var l', t' := WantL(nx), WantT(ny);
    if !NeedsReseed(s, nx, ny) {
      var dl, dt := l' - s.winL, t' - s.winT;
      ColumnsBytes(w, s, dl, t', Abs(dl));
      RowsBytes(w, s, dt, l', Abs(dt));
      BytesConcat(Columns(w, s, dl, t', Abs(dl)), Rows(w, s, dt, l', Abs(dt)));
    } else if left > 0 {
      SeedBytes(w, s, l', t');
    } else {
      NoBytes();
    }
  }

  lemma NoBytes()
    ensures Bytes([]) == 0
  {}

  lemma SeedBytes(w: World, s: LayerState, l: int, t: int)
    requires s.Ready()
    ensures Bytes([SeedStrip(w, s, l, t, 0), SeedStrip(w, s, l, t, 1)]) == 4096
  {
    var a, b := SeedStrip(w, s, l, t, 0), SeedStrip(w, s, l, t, 1);
    BytesConcat([a], [b]);
    assert [a] + [b] == [a, b];
  }

  /** ONE RESEED A FRAME: with n layers a frame never stages more than one
      reseed and n seam budgets, 4096 + 1024 n bytes of tilemap. */
  lemma {:induction false} FrameBytes(ws: seq<World>, ls: seq<LayerState>, cams: seq<Camera>, k: nat)
    requires |ws| == |ls| == |cams| && k <= |ls|
    requires forall i | 0 <= i < |ls| :: ls[i].Ready()
    ensures var p := StageFirst(ws, ls, cams, k);
            0 <= p.left <= 1 && Bytes(p.strips) <= 4096 * (1 - p.left) + 1024 * k
  {
    hide Goto, Bytes;
    if k == 0 {
      NoBytes();
    } else {
      FrameBytes(ws, ls, cams, k - 1);
      BudgetGoesToTheFirst(ws, ls, cams, k);
      var p := StageFirst(ws, ls, cams, k - 1);
      var m := Goto(ws[k - 1], ls[k - 1], cams[k - 1].x, cams[k - 1].y, p.left);
      GotoBytes(ws[k - 1], ls[k - 1], cams[k - 1].x, cams[k - 1].y, p.left);
      BytesConcat(p.strips, m.strips);
    }
  }

  // ---- settling ----

  /** Every camera moves by no more tiles than the seams can carry. */
  ghost predicate Gentle(ls: seq<LayerState>, f: Frame)
    requires |ls| == |f.cams|
  {
    forall i | 0 <= i < |ls| ::
      && Abs(WantL(f.cams[i].x) - WantL(ls[i].camX)) <= MAX_COLS
      && Abs(WantT(f.cams[i].y) - WantT(ls[i].camY)) <= MAX_ROWS
  }

  ghost predicate GentleRun(ws: seq<World>, sys: System, fs: seq<Frame>)
    requires Inv(ws, sys) && Frames(|ws|, fs)
    decreases |fs|
  {
    var n := |fs| - 1;
    fs == [] || (GentleRun(ws, sys, fs[..n]) && Gentle(Run(ws, sys, fs[..n]).layers, fs[n]))
  }

  lemma {:induction false} GentleNeeds(ws: seq<World>, sys: System, f: Frame, k: nat)
    requires Inv(ws, sys) && Shape(ws, sys.layers, f) && Gentle(sys.layers, f) && k <= |ws|
    ensures NeedCount(sys.layers, f.cams, k) == StaleCount(sys.layers, k)
  {
    if k == 0 {
    } else {
      GentleNeeds(ws, sys, f, k - 1);
      var s := sys.layers[k - 1];
      assert !s.Stale() ==> Current(s);
    }
  }

  lemma OneLayerDrains(ws: seq<World>, sys: System, f: Frame)
    requires Inv(ws, sys) && Shape(ws, sys.layers, f) && Gentle(sys.layers, f)
    ensures var stale, after := StaleCount(sys.layers, |ws|), StaleCount(Step(ws, sys, f).layers, |ws|);
            after == if stale >= 1 then stale - 1 else 0
  {
    GentleNeeds(ws, sys, f, |ws|);
    BudgetGoesToTheFirst(ws, sys.layers, f.cams, |ws|);
  }

  /** While cameras stay gentle, each frame brings one more layer up to date. */
  lemma {:induction false} StaleLayersDrain(ws: seq<World>, sys: System, fs: seq<Frame>)
    requires Inv(ws, sys) && Frames(|ws|, fs) && GentleRun(ws, sys, fs)
    ensures var stale, end := StaleCount(sys.layers, |ws|), StaleCount(Run(ws, sys, fs).layers, |ws|);
            end == if stale >= |fs| then stale - |fs| else 0
    decreases |fs|
  {
    if fs == [] {
    } else {
      var n := |fs| - 1;
      StaleLayersDrain(ws, sys, fs[..n]);
      OneLayerDrains(ws, Run(ws, sys, fs[..n]), fs[n]);
    }
  }

  /** SETTLING: after as many gentle frames as there are layers, at least one,
      every deferred layer is current and the field is shown. */
  lemma SettledWithinLayerCount(ws: seq<World>, sys: System, fs: seq<Frame>)
    requires Inv(ws, sys) && Frames(|ws|, fs) && GentleRun(ws, sys, fs)
    requires |fs| >= |ws| && |fs| >= 1
    ensures Run(ws, sys, fs).revealed
    ensures forall i | 0 <= i < |ws| :: Current(Run(ws, sys, fs).layers[i])
  {
    StaleLayersDrain(ws, sys, fs);
    StaleAtMost(sys.layers, |ws|);
    StaleCountZero(Run(ws, sys, fs).layers, |ws|);
  }

  lemma {:induction false} StaleAtMost(ls: seq<LayerState>, k: nat)
    requires k <= |ls|
    ensures StaleCount(ls, k) <= k
  {
    if k == 0 {
    } else {
      StaleAtMost(ls, k - 1);
    }
  }

  // ---- starving ----

  /** WHICH LAYER GOES WITHOUT, exactly: one that needs a reseed behind another
      that needs one too. */
  lemma {:induction false} StaleIff(ws: seq<World>, ls: seq<LayerState>, cams: seq<Camera>, k: nat, i: nat)
    requires |ws| == |ls| == |cams| && i < k <= |ls|
    requires forall j | 0 <= j < |ls| :: ls[j].Ready()
    ensures StageFirst(ws, ls, cams, k).layers[i].Stale() <==>
            NeedsReseed(ls[i], cams[i].x, cams[i].y) && NeedCount(ls, cams, i) >= 1
  {
    hide Goto, NeedsReseed, NeedCount;
    if k == i + 1 {
      BudgetGoesToTheFirst(ws, ls, cams, i);
      GotoBudget(ws[i], ls[i], cams[i].x, cams[i].y, StageFirst(ws, ls, cams, i).left);
    } else {
      StaleIff(ws, ls, cams, k - 1, i);
    }
  }

  /** Layer i is stale after every frame of the run. */
  ghost predicate StaysStale(ws: seq<World>, sys: System, fs: seq<Frame>, i: nat)
    requires Inv(ws, sys) && Frames(|ws|, fs) && i < |ws|
    decreases |fs|
  {
    fs == [] || (StaysStale(ws, sys, fs[..|fs| - 1], i) && Run(ws, sys, fs).layers[i].Stale())
  }

  /** In every frame some layer in front of i is out of reach of its seams. */
  ghost predicate AlwaysBehind(ws: seq<World>, sys: System, fs: seq<Frame>, i: nat)
    requires Inv(ws, sys) && Frames(|ws|, fs) && i < |ws|
    decreases |fs|
  {
    var n := |fs| - 1;
    fs == [] || (AlwaysBehind(ws, sys, fs[..n], i) && NeedCount(Run(ws, sys, fs[..n]).layers, fs[n].cams, i) >= 1)
  }

  /** STARVATION, EXACTLY: a stale layer is never served, and the field never
      shown, as long as and only as long as a layer in front of it needs a
      reseed in every frame. */
  lemma {:induction false} StarvedIff(ws: seq<World>, sys: System, fs: seq<Frame>, i: nat)
    requires Inv(ws, sys) && Frames(|ws|, fs) && i < |ws| && sys.layers[i].Stale()
    ensures StaysStale(ws, sys, fs, i) <==> AlwaysBehind(ws, sys, fs, i)
    ensures StaysStale(ws, sys, fs, i) ==> Run(ws, sys, fs).layers[i].Stale() && !Run(ws, sys, fs).revealed
    decreases |fs|
  {
    hide Step, Inv, NeedCount;
    if fs == [] {
      StaleIsHidden(ws, sys, i);
    } else {
      var n := |fs| - 1;
      StarvedIff(ws, sys, fs[..n], i);
      LastHasShape(ws, Run(ws, sys, fs[..n]), fs);
      StaleAfterStep(ws, Run(ws, sys, fs[..n]), fs[n], i);
      StaleIsHidden(ws, Run(ws, sys, fs), i);
    }
  }

  lemma LastHasShape(ws: seq<World>, sys: System, fs: seq<Frame>)
    requires Inv(ws, sys) && Frames(|ws|, fs) && fs != []
    ensures Shape(ws, sys.layers, fs[|fs| - 1])
  {}

  lemma StaleIsHidden(ws: seq<World>, sys: System, i: nat)
    requires Inv(ws, sys) && i < |ws|
    ensures i < |sys.layers| && (sys.layers[i].Stale() ==> !sys.revealed)
  {}

  lemma StaleAfterStep(ws: seq<World>, sys: System, f: Frame, i: nat)
    requires Inv(ws, sys) && Shape(ws, sys.layers, f) && i < |ws|
    ensures sys.layers[i].Stale() ==>
              (Step(ws, sys, f).layers[i].Stale() <==> NeedCount(sys.layers, f.cams, i) >= 1)
  {
    hide NeedCount, StageFirst;
    StaleIff(ws, sys.layers, f.cams, |ws|, i);
  }

  /** Two cameras: the front one races on by 1000 pixels a frame, the back one
      stands still. */
  function Racing(n: nat): (fs: seq<Frame>)
    ensures |fs| == n
  {
    seq(n, k => Frame([Camera(1000 * k, 0), Camera(0, 0)], None))
  }

  lemma RacingIsFrames(n: nat)
    ensures Frames(2, Racing(n)) && (n > 0 ==> Racing(n)[..n - 1] == Racing(n - 1))
    ensures n > 0 ==> Racing(n)[n - 1] == Frame([Camera(1000 * (n - 1), 0), Camera(0, 0)], None)
  {}

  /** So a run that starves exists from every boot, as long as one likes. */
  lemma {:induction false} RacingFrontStarvesBack(ws: seq<World>, sys: System, n: nat)
    requires |ws| == 2 && Boot(ws, sys)
    ensures Inv(ws, sys)
    ensures Frames(2, Racing(n)) && AlwaysBehind(ws, sys, Racing(n), 1) && StaysStale(ws, sys, Racing(n), 1)
    ensures n > 0 ==>
              var s := Run(ws, sys, Racing(n)).layers[0];
              s.seeded && !s.wantReseed && s.winL == WantL(1000 * (n - 1))
  {
    BootHolds(ws, sys);
    hide Inv, Step, Frames;
    RacingIsFrames(n);
    StarvedIff(ws, sys, Racing(n), 1);
    if n == 0 {
    } else {
      RacingIsFrames(n - 1);
      RacingFrontStarvesBack(ws, sys, n - 1);
      RacingStep(ws, Run(ws, sys, Racing(n - 1)), n - 1);
    }
  }

  lemma RacingStep(ws: seq<World>, sys: System, k: nat)
    requires |ws| == 2 && Inv(ws, sys)
    requires k > 0 ==> sys.layers[0].winL == WantL(1000 * (k - 1))
    requires k == 0 ==> !sys.layers[0].seeded
    ensures var f := Frame([Camera(1000 * k, 0), Camera(0, 0)], None);
            && Shape(ws, sys.layers, f) && NeedCount(sys.layers, f.cams, 1) >= 1
            && var s := Step(ws, sys, f).layers[0];
            s.seeded && !s.wantReseed && s.winL == WantL(1000 * k)
  {
    var f := Frame([Camera(1000 * k, 0), Camera(0, 0)], None);
    assert NeedsReseed(sys.layers[0], f.cams[0].x, f.cams[0].y);
    assert NeedCount(sys.layers, f.cams, 0) == 0;
    StepKeepsInv(ws, sys, f);
    StaleIff(ws, sys.layers, f.cams, 2, 0);
    hide StageFirst, NeedsReseed;
  }
}
