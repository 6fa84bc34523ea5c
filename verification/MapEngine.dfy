// The scrolling-map producer: it stages strips in the window, emits the DMA
// body that sends them, and builds the field's action table.
// runtime/hx421_runtime.c:429-600.
module MapEngine {
  import opened Arith
  import opened Metatile
  import opened Vram
  import opened Window
  import opened MapSeams
  import opened MapRuns
  import opened MapScreen

  const MAP_LAYERS: nat := 2

  // Staging offsets inside a window buffer, in words (half the byte offsets).
  const OFF_SEED: nat := 0x200        // two screens, 2048 words
  const OFF_SEAM: nat := 0xA00        // one area of SEAM_STRIDE words a layer
  const SEAM_STRIDE: nat := 0x200     // 8 columns of 32 words, 4 rows of 64
  const ROW_AREA: nat := 0x100
  const OFF_CHR: nat := 0xE00         // the shared tile set
  const OFF_CGRAM: nat := 0xF00       // its palette
  const PAL_WORDS: nat := 16
  const BUFFER_WORDS: nat := 0x1800   // the second buffer follows the first

  /** Where a buffer may start: the first one's tile set is the master copy. */
  predicate BufferAt(base: nat) { (base == 0 || base >= BUFFER_WORDS) && base + BUFFER_WORDS <= WINDOW_WORDS }

  function SeamArea(base: nat, li: nat): nat { base + OFF_SEAM + li * SEAM_STRIDE }

  function ColumnSlot(at: nat, vbase: nat, tx: int): Dma {
    Dma(at, 32, TmWord(Home(vbase), tx % 64, 0), 32)
  }

  function RowSlots(at: nat, vbase: nat, ty: int): seq<Dma> {
    [Dma(at, 32, TmWord(Home(vbase), 0, ty % 32), 1), Dma(at + 32, 32, TmWord(Home(vbase), 32, ty % 32), 1)]
  }

  function SeedSlots(at: nat, vbase: nat): seq<Dma> {
    [Dma(at, 1024, TmWord(Home(vbase), 0, 0), 1), Dma(at + 1024, 1024, TmWord(Home(vbase), 32, 0), 1)]
  }

  lemma ColumnSlotSends(w: World, s: LayerState, at: nat, tx: int, t: int, win: seq<Word>)
    requires s.Ready() && |win| == WINDOW_WORDS && at + 32 <= WINDOW_WORDS
    requires win[at..at + 32] == ColumnData(w, tx, t)
    ensures Inside([ColumnSlot(at, s.base, tx)], at, 32)
    ensures Resolved([ColumnSlot(at, s.base, tx)], win) == [ColumnStrip(w, s, tx, t)]
  {}

  lemma RowSlotsSend(w: World, s: LayerState, at: nat, ty: int, l: int, win: seq<Word>)
    requires s.Ready() && |win| == WINDOW_WORDS && at + 64 <= WINDOW_WORDS
    requires win[at..at + 32] == RowData(w, ty, l, 0) && win[at + 32..at + 64] == RowData(w, ty, l, 1)
    ensures Inside(RowSlots(at, s.base, ty), at, 64)
    ensures Resolved(RowSlots(at, s.base, ty), win) == [RowStrip(w, s, ty, l, 0), RowStrip(w, s, ty, l, 1)]
  {}

  lemma SeedSlotsSend(w: World, s: LayerState, at: nat, l: int, t: int, win: seq<Word>)
    requires s.Ready() && |win| == WINDOW_WORDS && at + SCREEN_PAIR <= WINDOW_WORDS
    requires win[at..at + 1024] == SeedData(w, l, t, 0) && win[at + 1024..at + 2048] == SeedData(w, l, t, 1)
    ensures Inside(SeedSlots(at, s.base), at, SCREEN_PAIR)
    ensures Resolved(SeedSlots(at, s.base), win) == [SeedStrip(w, s, l, t, 0), SeedStrip(w, s, l, t, 1)]
  {}

  lemma HalfSlot(c: int)
    ensures (if c % 64 < 32 then 0 else 32) + c % 32 == c % 64
  {}

  lemma SeedPayload(w: World, l: int, t: int, at: nat, win: seq<Word>)
    requires at + SCREEN_PAIR <= |win|
    requires forall x, y | 0 <= x < 64 && 0 <= y < 32 ::
               TilesAt(at, win)(x, y) == w(Onto(l, x, 64), Onto(t, y, 32))
    ensures win[at..at + 1024] == SeedData(w, l, t, 0)
    ensures win[at + 1024..at + 2048] == SeedData(w, l, t, 1)
  {
    forall i | 0 <= i < 1024
      ensures win[at + i] == SeedData(w, l, t, 0)[i]
      ensures win[at + 1024 + i] == SeedData(w, l, t, 1)[i]
    {
      SeedWord(w, l, t, 0, at, win, i);
      SeedWord(w, l, t, 1, at, win, i);
    }
  }

  lemma SeedCell(at: nat, half: nat, i: nat)
    requires half < 2 && i < 1024
    ensures Cell(at, half * 32 + i % 32, i / 32) == at + half * 1024 + i
  {}

  lemma SeedWord(w: World, l: int, t: int, half: nat, at: nat, win: seq<Word>, i: nat)
    requires at + SCREEN_PAIR <= |win| && half < 2 && i < 1024
    requires forall x, y | 0 <= x < 64 && 0 <= y < 32 ::
               TilesAt(at, win)(x, y) == w(Onto(l, x, 64), Onto(t, y, 32))
    ensures win[at + half * 1024 + i] == SeedData(w, l, t, half)[i]
  {
    hide Cell, SeedData;
    SeedCell(at, half, i);
    SeedEntryIs(w, l, t, half, i);
    var x, y := half * 32 + i % 32, i / 32;
    assert TilesAt(at, win)(x, y) == w(Onto(l, x, 64), Onto(t, y, 32));
  }

  lemma SeedEntryIs(w: World, l: int, t: int, half: nat, i: nat)
    requires half < 2 && i < 1024
    ensures SeedData(w, l, t, half)[i] == w(Onto(l, half * 32 + i % 32, 64), Onto(t, i / 32, 32))
  {}

  // The strips depend on the old window and the layer's home alone.

  lemma {:induction false} ColumnsOfMoved(w: World, s: LayerState, s1: LayerState, dl: int, t: int, k: nat)
    requires s.Ready() && s1.base == s.base && s1.winL == s.winL
    ensures Columns(w, s1, dl, t, k) == Columns(w, s, dl, t, k)
  {
    if k == 0 {
    } else {
      ColumnsOfMoved(w, s, s1, dl, t, k - 1);
    }
  }

  lemma {:induction false} RowsOfMoved(w: World, s: LayerState, s1: LayerState, dt: int, l: int, k: nat)
    requires s.Ready() && s1.base == s.base && s1.winT == s.winT
    ensures Rows(w, s1, dt, l, k) == Rows(w, s, dt, l, k)
  {
    if k == 0 {
    } else {
      RowsOfMoved(w, s, s1, dt, l, k - 1);
    }
  }

  /** A seam move, told of a state whose camera was already updated. */
  lemma GotoBySeams(w: World, s: LayerState, nx: int, ny: int, left: int)
    requires s.Ready() && !NeedsReseed(s, nx, ny)
    ensures var s1, l, t := s.(camX := nx, camY := ny), WantL(nx), WantT(ny);
            Goto(w, s, nx, ny, left) ==
            Moved(s1.(winL := l, winT := t), left,
                  Columns(w, s1, l - s1.winL, t, Abs(l - s1.winL)) + Rows(w, s1, t - s1.winT, l, Abs(t - s1.winT)))
  {
    hide Columns, Rows, SeedStrip;
    var s1 := s.(camX := nx, camY := ny);
    ColumnsOfMoved(w, s, s1, WantL(nx) - s.winL, WantT(ny), Abs(WantL(nx) - s.winL));
    RowsOfMoved(w, s, s1, WantT(ny) - s.winT, WantL(nx), Abs(WantT(ny) - s.winT));
  }

  lemma GotoByReseed(w: World, s: LayerState, nx: int, ny: int, left: int)
    requires s.Ready() && NeedsReseed(s, nx, ny) && left > 0
    ensures var s1, l, t := s.(camX := nx, camY := ny, wantReseed := false), WantL(nx), WantT(ny);
            Goto(w, s, nx, ny, left) ==
            Moved(s1.(winL := l, winT := t, seeded := true), left - 1,
                  [SeedStrip(w, s1, l, t, 0), SeedStrip(w, s1, l, t, 1)])
  {}

  function Aimed(s: LayerState, c: Camera): LayerState { s.(camX := c.x, camY := c.y) }

  function CamerasOf(ls: seq<LayerState>): seq<Camera> {
    seq(|ls|, i requires 0 <= i < |ls| => Camera(ls[i].camX, ls[i].camY))
  }

  /** Aiming the layers first does not change what a frame stages. */
  lemma {:induction false} AimingIsFree(ws: seq<World>, ls: seq<LayerState>, aimed: seq<LayerState>,
                                        cams: seq<Camera>, k: nat)
    requires |ws| == |ls| == |aimed| == |cams| && k <= |ls|
    requires forall i | 0 <= i < |ls| :: ls[i].Ready()
    requires forall i | 0 <= i < |aimed| :: aimed[i].Ready()
    requires forall i | 0 <= i < |ls| :: aimed[i] == Aimed(ls[i], cams[i])
    ensures var p, q := StageFirst(ws, ls, cams, k), StageFirst(ws, aimed, cams, k);
            && p.strips == q.strips && p.left == q.left
            && forall i | 0 <= i < k :: p.layers[i] == q.layers[i]
  {
    hide Goto;
    if k == 0 {
    } else {
      AimingIsFree(ws, ls, aimed, cams, k - 1);
      var left := StageFirst(ws, ls, cams, k - 1).left;
      GotoIgnoresAim(ws[k - 1], ls[k - 1], cams[k - 1], left);
    }
  }

  lemma GotoIgnoresAim(w: World, s: LayerState, c: Camera, left: int)
    requires s.Ready()
    ensures Goto(w, Aimed(s, c), c.x, c.y, left) == Goto(w, s, c.x, c.y, left)
  {
    hide Columns, Rows, SeedStrip;
    if !NeedsReseed(s, c.x, c.y) {
      GotoBySeams(w, s, c.x, c.y, left);
      GotoBySeams(w, Aimed(s, c), c.x, c.y, left);
    } else if left > 0 {
      GotoByReseed(w, s, c.x, c.y, left);
      GotoByReseed(w, Aimed(s, c), c.x, c.y, left);
    }
  }

  lemma LinesShown(act: seq<int>, stale: bool)
    requires |act| == 512
    requires forall u | 0 <= u < 512 ::
               act[u] == if (if stale then 0 else 224) <= u < 262 then 1 else if u == 0 then 2 else 0
    ensures forall v | 0 <= v < 262 :: LineShown(act, v) <==> !stale && v < 224
  {
    forall v | 0 <= v < 262
      ensures LineShown(act, v) <==> !stale && v < 224
    {
      if !stale && v < 224 {
        assert act[0] == 2;
      } else {
        assert act[v] == 1;
      }
    }
  }

  /** The tile set and the palette stand in the buffer, one after the other. */
  lemma AssetsStaged(w0: seq<Word>, w1: seq<Word>, w2: seq<Word>, base: nat)
    requires BufferAt(base) && |w0| == WINDOW_WORDS
    requires Holds(w1, base + OFF_CHR, w0[OFF_CHR..OFF_CHR + CHR_WORDS])
    requires SameOutside(w0, w1, base + OFF_CHR, CHR_WORDS)
    requires Holds(w2, base + OFF_CGRAM, w1[OFF_CGRAM..OFF_CGRAM + PAL_WORDS])
    requires SameOutside(w1, w2, base + OFF_CGRAM, PAL_WORDS)
    ensures SameOutside(w0, w2, base + OFF_CHR, CHR_WORDS + PAL_WORDS)
    ensures Holds(w2, base + OFF_CGRAM, w0[OFF_CGRAM..OFF_CGRAM + PAL_WORDS])
    ensures Resolved([Dma(base + OFF_CHR, CHR_WORDS, CHR_VWORD, 1)], w2) ==
            [Strip(CHR_VWORD, 1, w0[OFF_CHR..OFF_CHR + CHR_WORDS])]
  {
    HoldsKept(w1, w2, base + OFF_CGRAM, PAL_WORDS, base + OFF_CHR, w0[OFF_CHR..OFF_CHR + CHR_WORDS]);
    assert w1[OFF_CGRAM..OFF_CGRAM + PAL_WORDS] == w0[OFF_CGRAM..OFF_CGRAM + PAL_WORDS];
  }

  lemma PaletteSends(win: seq<Word>, base: nat, colours: seq<Word>)
    requires |colours| == PAL_WORDS && Holds(win, base + OFF_CGRAM, colours)
    ensures Resolved([Dma(base + OFF_CGRAM, PAL_WORDS, 0, 1)], win) == [Strip(0, 1, colours)]
  {}

  // ---- many frames ----

  /** What is asked of the producer for one frame, and the buffer it may write. */
  datatype Job = Job(cams: seq<Camera>, assetsPending: bool, base: nat)

  ghost predicate Asked(jobs: seq<Job>, fs: seq<Frame>) {
    |fs| == |jobs| && forall k | 0 <= k < |fs| ::
      fs[k].cams == jobs[k].cams && (fs[k].assets.Some? <==> jobs[k].assetsPending)
  }

  lemma AskedMore(jobs: seq<Job>, fs: seq<Frame>, k: nat, f: Frame)
    requires k < |jobs| && Asked(jobs[..k], fs)
    requires f.cams == jobs[k].cams && (f.assets.Some? <==> jobs[k].assetsPending)
    ensures Asked(jobs[..k + 1], fs + [f])
  {}

  lemma BootIsOk(ws: seq<World>, sys: System)
    requires Boot(ws, sys)
    ensures Inv(ws, sys) && |ws| == |sys.layers| && Run(ws, sys, []) == sys
  {}

  lemma NothingSent(v: seq<Word>)
    ensures ApplyAll(v, []) == v
  {}

  lemma RunOneMore(ws: seq<World>, sys: System, fs: seq<Frame>, f: Frame)
    requires Inv(ws, sys) && Frames(|ws|, fs) && Frames(|ws|, [f])
    ensures Frames(|ws|, fs + [f]) && Shape(ws, Run(ws, sys, fs).layers, f)
    ensures Run(ws, sys, fs + [f]) == Step(ws, Run(ws, sys, fs), f)
  {
    assert (fs + [f])[..|fs|] == fs;
    assert Frames(|ws|, fs + [f]) by {
      assert [f][0] == f;
    }
  }

  // ---- the head of the body ----

  /** None of layer j's registers has been written. */
  ghost predicate Unset(ps: seq<Poke>, j: nat) {
    Put(ps, ScReg(j)) == Put(ps, HofsReg(j)) == Put(ps, VofsReg(j)) == []
  }

  lemma HeadStarts()
    ensures var ps := [Poke(BGMODE, 0x01), Poke(TM, 0x03), Poke(BG12NBA, 0x22)];
            ShowsLayers(ps, []) && forall j | 0 <= j < MAP_LAYERS :: Unset(ps, j)
  {
    var a, b, c := Poke(BGMODE, 0x01), Poke(TM, 0x03), Poke(BG12NBA, 0x22);
    forall addr: nat
      ensures Put([a, b, c], addr) == if addr == BGMODE then [1] else if addr == TM then [3]
                                      else if addr == BG12NBA then [0x22] else []
    {
      PutThree(a, b, c, addr);
    }
    hide Put;
  }

  lemma PutThree(a: Poke, b: Poke, c: Poke, addr: nat)
    ensures Put([a, b, c], addr) ==
            Only(a, addr) + Only(b, addr) + Only(c, addr)
  {
    assert [a, b, c] == [] + [a] + [b] + [c];
    PutMore([], a, addr);
    PutMore([] + [a], b, addr);
    PutMore([] + [a] + [b], c, addr);
  }

  function Only(p: Poke, addr: nat): seq<nat> { if p.addr == addr then [p.value] else [] }

  function LayerPut(i: nat, s: LayerState, addr: nat): seq<nat> {
    if addr == ScReg(i) then [BgSc(s.base)]
    else if addr == HofsReg(i) then TwoBytes(s.camX % 0x1_0000)
    else if addr == VofsReg(i) then TwoBytes((s.camY % 0x1_0000 - 1) % 0x400) else []
  }

  /** What a layer's five writes add to each register. */
  lemma PutLayer(ps: seq<Poke>, i: nat, s: LayerState, addr: nat)
    requires i < MAP_LAYERS
    ensures Put(ps + LayerPokes(i, s), addr) ==
            Put(ps, addr) + LayerPut(i, s, addr)
  {
    hide BgSc, Put;
    var l := LayerPokes(i, s);
    var p1 := ps + [l[0]];
    var p2 := p1 + [l[1]];
    var p3 := p2 + [l[2]];
    var p4 := p3 + [l[3]];
    assert ps + l == p4 + [l[4]];
    PutMore(ps, l[0], addr);
    PutMore(p1, l[1], addr);
    PutMore(p2, l[2], addr);
    PutMore(p3, l[3], addr);
    PutMore(p4, l[4], addr);
  }

  /** The layer's own registers, fresh before. */
  lemma OwnRegisters(ps: seq<Poke>, i: nat, s: LayerState)
    requires i < MAP_LAYERS && Unset(ps, i)
    ensures LayerShown(ps + LayerPokes(i, s), i, s)
  {
    PutLayer(ps, i, s, ScReg(i));
    PutLayer(ps, i, s, HofsReg(i));
    PutLayer(ps, i, s, VofsReg(i));
    BytesScroll(s);
    hide Put, LayerPokes, Hofs, Vofs, BgSc;
  }

  /** Every other register is as it was. */
  lemma OtherRegisters(ps: seq<Poke>, i: nat, s: LayerState, j: nat)
    requires i < MAP_LAYERS && j < MAP_LAYERS && i != j
    ensures var now := ps + LayerPokes(i, s);
            && Put(now, ScReg(j)) == Put(ps, ScReg(j)) && Put(now, HofsReg(j)) == Put(ps, HofsReg(j))
            && Put(now, VofsReg(j)) == Put(ps, VofsReg(j))
            && Put(now, BGMODE) == Put(ps, BGMODE) && Put(now, TM) == Put(ps, TM)
            && Put(now, BG12NBA) == Put(ps, BG12NBA)
  {
    PutLayer(ps, i, s, ScReg(j));
    PutLayer(ps, i, s, HofsReg(j));
    PutLayer(ps, i, s, VofsReg(j));
    PutLayer(ps, i, s, BGMODE);
    PutLayer(ps, i, s, TM);
    PutLayer(ps, i, s, BG12NBA);
    hide Put, LayerPokes;
  }

  lemma HeadMore(ps: seq<Poke>, ls: seq<LayerState>, i: nat)
    requires |ls| == MAP_LAYERS && i < MAP_LAYERS && ShowsLayers(ps, ls[..i])
    requires forall j | i <= j < MAP_LAYERS :: Unset(ps, j)
    ensures ShowsLayers(ps + LayerPokes(i, ls[i]), ls[..i + 1])
    ensures forall j | i + 1 <= j < MAP_LAYERS :: Unset(ps + LayerPokes(i, ls[i]), j)
  {
    hide Hofs, Vofs, BgSc, Put, LayerPokes, ScrollOf, ScReg, HofsReg, VofsReg;
    var now := ps + LayerPokes(i, ls[i]);
    OwnRegisters(ps, i, ls[i]);
    OtherRegisters(ps, i, ls[i], 1 - i);
    forall j | 0 <= j < i
      ensures LayerShown(now, j, ls[j])
    {
      assert ls[..i][j] == ls[j] && LayerShown(ps, j, ls[j]);
      OtherRegisters(ps, i, ls[i], j);
    }
    forall j | i + 1 <= j < MAP_LAYERS
      ensures Unset(now, j)
    {
      assert Unset(ps, j);
      OtherRegisters(ps, i, ls[i], j);
    }
    hide LayerShown, Unset;
  }

  /** Staging leaves homes and cameras as they are aimed. */
  lemma {:induction false} CamerasStay(ws: seq<World>, ls: seq<LayerState>, cams: seq<Camera>, k: nat)
    requires |ws| == |ls| == |cams| && k <= |ls|
    requires forall i | 0 <= i < |ls| :: ls[i].Ready() && ls[i].camX == cams[i].x && ls[i].camY == cams[i].y
    ensures forall i | 0 <= i < |ls| ::
              && StageFirst(ws, ls, cams, k).layers[i].camX == ls[i].camX
              && StageFirst(ws, ls, cams, k).layers[i].camY == ls[i].camY
  {
    hide Goto, LayerState.Ready;
    if k == 0 {
    } else {
      CamerasStay(ws, ls, cams, k - 1);
      GotoAims(ws[k - 1], ls[k - 1], cams[k - 1], StageFirst(ws, ls, cams, k - 1).left);
    }
  }

  lemma GotoAims(w: World, s: LayerState, c: Camera, left: int)
    requires s.Ready()
    ensures Goto(w, s, c.x, c.y, left).state.camX == c.x && Goto(w, s, c.x, c.y, left).state.camY == c.y
  {
    hide Columns, Rows, SeedStrip;
  }

  lemma HeadOfSame(ps: seq<Poke>, ls: seq<LayerState>, ls1: seq<LayerState>)
    requires ShowsLayers(ps, ls) && |ls1| == |ls|
    requires forall i | 0 <= i < |ls| ::
               ls1[i].base == ls[i].base && ls1[i].camX == ls[i].camX && ls1[i].camY == ls[i].camY
    ensures ShowsLayers(ps, ls1)
  {
    hide Put, Hofs, Vofs, BgSc, ScrollOf;
    forall i | 0 <= i < |ls1|
      ensures LayerShown(ps, i, ls1[i])
    {
      assert LayerShown(ps, i, ls[i]);
    }
  }

  predicate AllReady(maps: seq<MapLayer>) {
    forall i | 0 <= i < |maps| :: maps[i].Ready()
  }

  /** What the maps mean, layer by layer. */
  ghost function WorldsOf(maps: seq<MapLayer>): (ws: seq<World>)
    requires AllReady(maps)
    ensures |ws| == |maps|
  {
    seq(|maps|, i requires 0 <= i < |maps| => WorldOf(maps[i]))
  }

  class Engine {
    const maps: seq<MapLayer>
    const window: array<Word>
    const action: array<int>
    var rt: seq<LayerState>
    // The emitted body, by target: register writes, VRAM slots, CGRAM slots.
    var head: seq<Poke>
    var body: seq<Dma>
    var pal: seq<Dma>
    var reseedsLeft: int

    ghost predicate Valid()
      reads this
    {
      && window.Length == WINDOW_WORDS && action.Length == 512
      && |maps| == |rt| == MAP_LAYERS && AllReady(maps)
      && (forall i | 0 <= i < |rt| :: rt[i].Ready())
    }

    constructor (maps: seq<MapLayer>, bases: seq<nat>)
      requires |maps| == |bases| == MAP_LAYERS
      requires forall i | 0 <= i < |maps| :: maps[i].Ready()
      requires forall i | 0 <= i < |bases| :: bases[i] + SCREEN_PAIR <= VRAM_WORDS
      ensures Valid() && fresh(window) && fresh(action) && this.maps == maps
      ensures rt == seq(MAP_LAYERS, i requires 0 <= i < MAP_LAYERS =>
                      LayerState(bases[i], 0, 0, 0, 0, false, false))
    {
      this.maps := maps;
      window := new Word[WINDOW_WORDS](_ => 0);
      action := new int[512];
      rt := seq(MAP_LAYERS, i requires 0 <= i < MAP_LAYERS =>
              LayerState(bases[i], 0, 0, 0, 0, false, false));
      head, body, pal := [], [], [];
      reseedsLeft := 1;
    }

    /** Fill both screens of the seed area, column by column in wrap order. */
    method StageSeed(at: nat, li: nat, l: int, t: int)
      requires Valid() && li < MAP_LAYERS && at + SCREEN_PAIR <= WINDOW_WORDS
      modifies window
      ensures SameOutside(old(window[..]), window[..], at, SCREEN_PAIR)
      ensures window[at..at + 1024] == SeedData(WorldsOf(maps)[li], l, t, 0)
      ensures window[at + 1024..at + 2048] == SeedData(WorldsOf(maps)[li], l, t, 1)
    {
      hide TileAt;
      ghost var w := WorldsOf(maps)[li];
      var col := new Word[32];
      var i := 0;
      while i < 64
        invariant 0 <= i <= 64
        invariant SameOutside(old(window[..]), window[..], at, SCREEN_PAIR)
        invariant forall x, y | 0 <= x < 64 && 0 <= y < 32 && Onto(l, x, 64) - l < i ::
                    TilesAt(at, window[..])(x, y) == w(Onto(l, x, 64), Onto(t, y, 32))
      {
        var tx := l + i;
        Column(maps[li], tx, t, 32, col);
        StageSeedColumn(at, tx % 64, t, col);
        OntoIs(l, 64, tx);
        forall x, y | 0 <= x < 64 && 0 <= y < 32 && Onto(l, x, 64) - l < i + 1
          ensures TilesAt(at, window[..])(x, y) == w(Onto(l, x, 64), Onto(t, y, 32))
        {
          if x == tx % 64 {
            assert col[Onto(t, y, 32) - t] == TileAt(maps[li], tx, t + (Onto(t, y, 32) - t));
          }
        }
        i := i + 1;
      }
      SeedPayload(w, l, t, at, window[..]);
    }

    method StageSeedColumn(at: nat, x: nat, t: int, col: array<Word>)
      requires Valid() && x < 64 && at + SCREEN_PAIR <= WINDOW_WORDS
      requires col.Length == 32 && col != window
      modifies window
      ensures SameOutside(old(window[..]), window[..], at, SCREEN_PAIR)
      ensures forall a, b | 0 <= a < 64 && 0 <= b < 32 ::
                TilesAt(at, window[..])(a, b) ==
                if a == x then col[Onto(t, b, 32) - t] else TilesAt(at, old(window[..]))(a, b)
    {
      var rr := 0;
      while rr < 32
        invariant 0 <= rr <= 32
        invariant col[..] == old(col[..])
        invariant SameOutside(old(window[..]), window[..], at, SCREEN_PAIR)
        invariant forall a, b | 0 <= a < 64 && 0 <= b < 32 ::
                    TilesAt(at, window[..])(a, b) ==
                    if a == x && Onto(t, b, 32) - t < rr then col[Onto(t, b, 32) - t]
                    else TilesAt(at, old(window[..]))(a, b)
      {
        var y := (t + rr) % 32;
        OntoIs(t, 32, t + rr);
        TilesUpdate(at, window[..], x, y, col[rr]);
        ghost var before := window[..];
        window[Cell(at, x, y)] := col[rr];
        assert window[..] == before[Cell(at, x, y) := col[rr]];
        forall a, b | 0 <= a < 64 && 0 <= b < 32
          ensures TilesAt(at, window[..])(a, b) ==
                  if a == x && Onto(t, b, 32) - t < rr + 1 then col[Onto(t, b, 32) - t]
                  else TilesAt(at, old(window[..]))(a, b)
        {
          assert TilesAt(at, window[..])(a, b) == if a == x && b == y then col[rr] else TilesAt(at, before)(a, b);
        }
        rr := rr + 1;
      }
    }

    /** Rotate one column into wrap order at `at`. */
    method StageColumn(at: nat, li: nat, tx: int, t: int)
      requires Valid() && li < MAP_LAYERS && at + 32 <= WINDOW_WORDS
      modifies window
      ensures SameOutside(old(window[..]), window[..], at, 32)
      ensures window[at..at + 32] == ColumnData(WorldsOf(maps)[li], tx, t)
    {
      hide TileAt;
      ghost var w := WorldsOf(maps)[li];
      var raw := new Word[32];
      Column(maps[li], tx, t, 32, raw);
      var i := 0;
      while i < 32
        invariant 0 <= i <= 32
        invariant SameOutside(old(window[..]), window[..], at, 32)
        invariant forall k | 0 <= k < 32 :: raw[k] == w(tx, t + k)
        invariant forall y | 0 <= y < 32 && Onto(t, y, 32) - t < i :: window[at + y] == w(tx, Onto(t, y, 32))
      {
        OntoIs(t, 32, t + i);
        window[at + (t + i) % 32] := raw[i];
        i := i + 1;
      }
    }

    /** Stage one row: its two halves, each in wrap order. */
    method StageRow(at: nat, li: nat, ty: int, l: int)
      requires Valid() && li < MAP_LAYERS && at + 64 <= WINDOW_WORDS
      modifies window
      ensures SameOutside(old(window[..]), window[..], at, 64)
      ensures window[at..at + 32] == RowData(WorldsOf(maps)[li], ty, l, 0)
      ensures window[at + 32..at + 64] == RowData(WorldsOf(maps)[li], ty, l, 1)
    {
      hide TileAt;
      ghost var w := WorldsOf(maps)[li];
      var one := new Word[1];
      var i := 0;
      while i < 64
        invariant 0 <= i <= 64
        invariant SameOutside(old(window[..]), window[..], at, 64)
        invariant forall x | 0 <= x < 64 && Onto(l, x, 64) - l < i :: window[at + x] == w(Onto(l, x, 64), ty)
      {
        Row(maps[li], ty, l + i, 1, one);
        assert one[0] == w(l + i, ty) by {
          assert one[0] == TileAt(maps[li], l + i + 0, ty);
        }
        OntoIs(l, 64, l + i);
        var x := (l + i) % 64;
        var half := if x < 32 then at else at + 32;
        HalfSlot(l + i);
        window[half + (l + i) % 32] := one[0];
        i := i + 1;
      }
    }

    /** hx_map_seed_layer. */
    method SeedLayer(base: nat, li: nat) returns (ghost added: seq<Dma>)
      requires Valid() && li < MAP_LAYERS && base + OFF_CHR <= WINDOW_WORDS
      modifies window, this`rt, this`body
      ensures Valid()
      ensures var s := old(rt[li]);
              rt == old(rt)[li := s.(winL := WantL(s.camX), winT := WantT(s.camY), seeded := true)]
      ensures body == old(body) + added
      ensures Inside(added, base + OFF_SEED, SCREEN_PAIR)
      ensures var s, w := old(rt[li]), WorldsOf(maps)[li];
              Resolved(added, window[..]) ==
              [SeedStrip(w, s, WantL(s.camX), WantT(s.camY), 0), SeedStrip(w, s, WantL(s.camX), WantT(s.camY), 1)]
      ensures SameOutside(old(window[..]), window[..], base + OFF_SEED, SCREEN_PAIR)
    {
      hide SeedStrip, SeedSlots, Resolved, WorldsOf;
      var s := rt[li];
      var l, t := s.camX / 8 - 16, s.camY / 8 - 2;
      StageSeed(base + OFF_SEED, li, l, t);
      added := SeedSlots(base + OFF_SEED, s.base);
      body := body + SeedSlots(base + OFF_SEED, s.base);
      SeedSlotsSend(WorldsOf(maps)[li], s, base + OFF_SEED, l, t, window[..]);
      rt := rt[li := s.(winL := l, winT := t, seeded := true)];
    }

    /** Stage and emit the entering columns, slot by slot. */
    method SendColumns(area: nat, li: nat, dl: int, wantT: int) returns (ghost added: seq<Dma>)
      requires Valid() && li < MAP_LAYERS && Abs(dl) <= MAX_COLS && area + SEAM_STRIDE <= WINDOW_WORDS
      modifies window, this`body
      ensures Valid() && body == old(body) + added
      ensures Inside(added, area, ROW_AREA)
      ensures Resolved(added, window[..]) == Columns(WorldsOf(maps)[li], rt[li], dl, wantT, Abs(dl))
      ensures SameOutside(old(window[..]), window[..], area, ROW_AREA)
    {
      hide ColumnStrip, ColumnSlot, Resolved, WorldsOf;
      ghost var w := WorldsOf(maps)[li];
      added := [];
      var k := 0;
      while k < Abs(dl)
        invariant 0 <= k <= Abs(dl) && Valid() && body == old(body) + added
        invariant Inside(added, area, k * 32)
        invariant Resolved(added, window[..]) == Columns(w, rt[li], dl, wantT, k)
        invariant SameOutside(old(window[..]), window[..], area, ROW_AREA)
      {
        var tx := if dl > 0 then rt[li].winL + 64 + k else rt[li].winL - 1 - k;
        ghost var before := window[..];
        StageColumn(area + k * 32, li, tx, wantT);
        var d := ColumnSlot(area + k * 32, rt[li].base, tx);
        body := body + [d];
        ColumnSlotSends(w, rt[li], area + k * 32, tx, wantT, window[..]);
        InsideGrows(added, [d], area, k * 32, 32);
        Extends(added, [d], before, window[..], area + k * 32, 32);
        added := added + [d];
        k := k + 1;
      }
    }

    /** Stage and emit the entering rows, two slots each. */
    method SendRows(area: nat, li: nat, dt: int) returns (ghost added: seq<Dma>)
      requires Valid() && li < MAP_LAYERS && Abs(dt) <= MAX_ROWS && area + SEAM_STRIDE <= WINDOW_WORDS
      modifies window, this`body
      ensures Valid() && body == old(body) + added
      ensures Inside(added, area + ROW_AREA, ROW_AREA)
      ensures Resolved(added, window[..]) == Rows(WorldsOf(maps)[li], rt[li], dt, rt[li].winL, Abs(dt))
      ensures SameOutside(old(window[..]), window[..], area + ROW_AREA, ROW_AREA)
    {
      hide RowStrip, RowSlots, Resolved, WorldsOf;
      ghost var w := WorldsOf(maps)[li];
      added := [];
      var k := 0;
      while k < Abs(dt)
        invariant 0 <= k <= Abs(dt) && Valid() && body == old(body) + added
        invariant Inside(added, area + ROW_AREA, k * 64)
        invariant Resolved(added, window[..]) == Rows(w, rt[li], dt, rt[li].winL, k)
        invariant SameOutside(old(window[..]), window[..], area + ROW_AREA, ROW_AREA)
      {
        var ty := if dt > 0 then rt[li].winT + 32 + k else rt[li].winT - 1 - k;
        var at := area + ROW_AREA + k * 64;
        ghost var before := window[..];
        StageRow(at, li, ty, rt[li].winL);
        var ds := RowSlots(at, rt[li].base, ty);
        body := body + ds;
        RowSlotsSend(w, rt[li], at, ty, rt[li].winL, window[..]);
        InsideGrows(added, ds, area + ROW_AREA, k * 64, 64);
        Extends(added, ds, before, window[..], at, 64);
        added := added + ds;
        k := k + 1;
      }
    }

    /** The incremental half of hx_map_layer_goto. */
    method SendSeams(area: nat, li: nat, wantL: int, wantT: int) returns (ghost added: seq<Dma>)
      requires Valid() && li < MAP_LAYERS && area + SEAM_STRIDE <= WINDOW_WORDS
      requires Abs(wantL - rt[li].winL) <= MAX_COLS && Abs(wantT - rt[li].winT) <= MAX_ROWS
      modifies window, this`rt, this`body
      ensures Valid() && body == old(body) + added
      ensures rt == old(rt)[li := old(rt[li]).(winL := wantL, winT := wantT)]
      ensures Inside(added, area, SEAM_STRIDE)
      ensures var s, w := old(rt[li]), WorldsOf(maps)[li];
              var dl, dt := wantL - s.winL, wantT - s.winT;
              Resolved(added, window[..]) ==
              Columns(w, s, dl, wantT, Abs(dl)) + Rows(w, s, dt, wantL, Abs(dt))
      ensures SameOutside(old(window[..]), window[..], area, SEAM_STRIDE)
    {
      hide Columns, Rows, Resolved, WorldsOf;
      ghost var s, w := rt[li], WorldsOf(maps)[li];
      var dl, dt := wantL - rt[li].winL, wantT - rt[li].winT;
      ghost var cols := SendColumns(area, li, dl, wantT);
      rt := rt[li := rt[li].(winL := wantL)];
      ghost var before := window[..];
      ghost var rows := SendRows(area, li, dt);
      rt := rt[li := rt[li].(winT := wantT)];
      InsideGrows(cols, rows, area, ROW_AREA, ROW_AREA);
      Extends(cols, rows, before, window[..], area + ROW_AREA, ROW_AREA);
      RowsOfMoved(w, s, s.(winL := wantL), dt, wantL, Abs(dt));
      added := cols + rows;
    }

    /** hx_map_layer_goto: put a layer at (nx, ny) and let the strips follow. */
    method LayerGoto(base: nat, li: nat, nx: int, ny: int) returns (ghost added: seq<Dma>)
      requires Valid() && li < MAP_LAYERS && base + OFF_CHR <= WINDOW_WORDS
      modifies window, this`rt, this`body, this`reseedsLeft
      ensures Valid() && body == old(body) + added
      ensures var m := Goto(WorldsOf(maps)[li], old(rt[li]), nx, ny, old(reseedsLeft));
              && rt == old(rt)[li := m.state] && reseedsLeft == m.reseedsLeft
              && Resolved(added, window[..]) == m.strips
      ensures reseedsLeft == old(reseedsLeft) || reseedsLeft == old(reseedsLeft) - 1 >= 0
      ensures reseedsLeft == old(reseedsLeft) ==>
                && SameOutside(old(window[..]), window[..], SeamArea(base, li), SEAM_STRIDE)
                && Inside(added, SeamArea(base, li), SEAM_STRIDE)
      ensures reseedsLeft < old(reseedsLeft) ==>
                && SameOutside(old(window[..]), window[..], base + OFF_SEED, SCREEN_PAIR)
                && Inside(added, base + OFF_SEED, SCREEN_PAIR)
    {
      hide Columns, Rows, Resolved, SeedStrip, WorldsOf;
      ghost var s, w := rt[li], WorldsOf(maps)[li];
      rt := rt[li := rt[li].(camX := nx, camY := ny)];
      var wantL, wantT := nx / 8 - 16, ny / 8 - 2;
      var dl, dt := wantL - rt[li].winL, wantT - rt[li].winT;
      var needsReseed := !rt[li].seeded || rt[li].wantReseed
                      || dl > MAX_COLS || dl < -MAX_COLS || dt > MAX_ROWS || dt < -MAX_ROWS;
      if !needsReseed {
        GotoBySeams(w, s, nx, ny, reseedsLeft);
        added := SendSeams(base + OFF_SEAM + li * SEAM_STRIDE, li, wantL, wantT);
      } else if reseedsLeft <= 0 {
        rt := rt[li := rt[li].(wantReseed := true)];
        added := [];
      } else {
        GotoByReseed(w, s, nx, ny, reseedsLeft);
        reseedsLeft := reseedsLeft - 1;
        rt := rt[li := rt[li].(wantReseed := false)];
        added := SeedLayer(base, li);
      }
    }

    /** memcpy inside the window, to where nothing is read from. */
    method CopyWithin(at: nat, src: nat, n: nat)
      requires Valid() && at + n <= WINDOW_WORDS && src + n <= WINDOW_WORDS
      requires at == src || at + n <= src || src + n <= at
      modifies window
      ensures Holds(window[..], at, old(window[src..src + n]))
      ensures SameOutside(old(window[..]), window[..], at, n)
    {
      ghost var data := window[src..src + n];
      var i := 0;
      while i < n
        invariant 0 <= i <= n
        invariant SameOutside(old(window[..]), window[..], at, n)
        invariant forall k | src <= k < src + n :: window[k] == old(window[k])
        invariant forall k | at <= k < at + i :: window[k] == data[k - at]
      {
        window[at + i] := window[src + i];
        i := i + 1;
      }
    }

    /** The bulk tile set and its palette: copied into this buffer and sent home. */
    method SendAssets(base: nat) returns (ghost added: seq<Dma>)
      requires Valid() && BufferAt(base)
      modifies window, this`body, this`pal
      ensures Valid() && body == old(body) + added
      ensures Resolved(added, window[..]) == [Strip(CHR_VWORD, 1, old(window[OFF_CHR..OFF_CHR + CHR_WORDS]))]
      ensures Inside(added, base + OFF_CHR, CHR_WORDS)
      ensures pal == old(pal) + [Dma(base + OFF_CGRAM, PAL_WORDS, 0, 1)]
      ensures Holds(window[..], base + OFF_CGRAM, old(window[OFF_CGRAM..OFF_CGRAM + PAL_WORDS]))
      ensures SameOutside(old(window[..]), window[..], base + OFF_CHR, CHR_WORDS + PAL_WORDS)
    {
      hide Holds, SameOutside;
      ghost var w0 := window[..];
      CopyWithin(base + OFF_CHR, OFF_CHR, CHR_WORDS);
      ghost var w1 := window[..];
      CopyWithin(base + OFF_CGRAM, OFF_CGRAM, PAL_WORDS);
      AssetsStaged(w0, w1, window[..], base);
      var d := Dma(base + OFF_CHR, CHR_WORDS, CHR_VWORD, 1);
      body := body + [d];
      pal := pal + [Dma(base + OFF_CGRAM, PAL_WORDS, 0, 1)];
      added := [d];
    }

    /** The head of the body: background mode, layers shown, tile base, and every
        layer's tilemap and scroll. */
    method EmitHead()
      requires Valid()
      modifies this`head
      ensures Valid() && ShowsLayers(head, rt)
    {
      hide Put, ShowsLayers, Unset, LayerPokes;
      head := [Poke(BGMODE, 0x01), Poke(TM, 0x03), Poke(BG12NBA, 0x22)];
      HeadStarts();
      var i := 0;
      while i < MAP_LAYERS
        invariant 0 <= i <= MAP_LAYERS && Valid()
        invariant ShowsLayers(head, rt[..i])
        invariant forall j | i <= j < MAP_LAYERS :: Unset(head, j)
      {
        HeadMore(head, rt, i);
        head := head + LayerPokes(i, rt[i]);
        i := i + 1;
      }
      assert rt[..MAP_LAYERS] == rt;
    }

    /** The field's action table: 1 blanks from that line on, 2 unblanks. */
    method BuildActions(stale: bool)
      requires Valid()
      modifies action
      ensures stale ==> forall u | 0 <= u < action.Length :: action[u] == if u < 262 then 1 else 0
      ensures !stale ==> forall u | 0 <= u < action.Length ::
                           action[u] == if u == 0 then 2 else if 224 <= u < 262 then 1 else 0
      ensures forall v | 0 <= v < 262 :: LineShown(action[..], v) <==> !stale && v < 224
    {
      var v := 0;
      while v < 512
        invariant 0 <= v <= 512
        invariant forall u | 0 <= u < v :: action[u] == 0
      {
        action[v] := 0;
        v := v + 1;
      }
      if !stale { action[0] := 2; }
      var from := if stale then 0 else 224;
      v := from;
      while v < 262
        invariant from <= v <= 262
        invariant forall u | 0 <= u < 512 ::
                    action[u] == if from <= u < v then 1 else if u == 0 && !stale then 2 else 0
      {
        action[v] := 1;
        v := v + 1;
      }
      LinesShown(action[..], stale);
    }

    /** Every layer in turn, after the assets. */
    method StageLayers(base: nat, ghost assets: seq<Strip>)
      requires Valid() && BufferAt(base) && reseedsLeft == 1
      requires Resolved(body, window[..]) == assets && Inside(body, base + OFF_CHR, CHR_WORDS)
      modifies window, this`rt, this`body, this`reseedsLeft
      ensures Valid()
      ensures var p := StageFirst(WorldsOf(maps), old(rt), CamerasOf(old(rt)), MAP_LAYERS);
              && rt == p.layers && reseedsLeft == p.left
              && Resolved(body, window[..]) == assets + p.strips
      ensures SameOutside(old(window[..]), window[..], base + OFF_SEED, OFF_CHR - OFF_SEED)
    {
      hide Resolved, WorldsOf, Goto, MapLayer.Ready, SameOutside;
      ghost var ws, rt0, cams := WorldsOf(maps), rt, CamerasOf(rt);
      StagedNothing(window[..], base + OFF_SEED, OFF_CHR - OFF_SEED);
      assert assets + [] == assets;
      var i := 0;
      while i < MAP_LAYERS
        invariant 0 <= i <= MAP_LAYERS && Valid()
        invariant var p := StageFirst(ws, rt0, cams, i);
                  && rt == p.layers && reseedsLeft == p.left
                  && Resolved(body, window[..]) == assets + p.strips
        invariant SameOutside(old(window[..]), window[..], base + OFF_SEED, OFF_CHR - OFF_SEED)
        invariant forall j | i <= j < MAP_LAYERS :: Outside(body, SeamArea(base, j), SEAM_STRIDE)
        invariant reseedsLeft <= 1 && (reseedsLeft > 0 ==> Outside(body, base + OFF_SEED, SCREEN_PAIR))
      {
        ghost var before, sent, left := window[..], body, reseedsLeft;
        ghost var p := StageFirst(ws, rt0, cams, i);
        ghost var added := LayerGoto(base, i, rt[i].camX, rt[i].camY);
        ghost var lo := if reseedsLeft == left then SeamArea(base, i) else base + OFF_SEED;
        ghost var n := if reseedsLeft == left then SEAM_STRIDE else SCREEN_PAIR;
        Extends(sent, added, before, window[..], lo, n);
        StagedMore(old(window[..]), before, window[..], base + OFF_SEED, OFF_CHR - OFF_SEED, lo, n);
        assert Resolved(body, window[..]) ==
               assets + (p.strips + Goto(ws[i], rt0[i], rt0[i].camX, rt0[i].camY, p.left).strips);
        i := i + 1;
      }
    }

    method AnyStale() returns (stale: bool)
      requires Valid()
      ensures stale <==> exists j | 0 <= j < MAP_LAYERS :: rt[j].Stale()
    {
      stale := false;
      var i := 0;
      while i < MAP_LAYERS
        invariant 0 <= i <= MAP_LAYERS
        invariant stale <==> exists j :: 0 <= j < i && rt[j].Stale()
      {
        if !rt[i].seeded || rt[i].wantReseed { stale := true; }
        i := i + 1;
      }
    }

    /** hx_map_stage: stage this frame into the buffer at `base`. */
    method Stage(base: nat, assetsPending: bool)
      requires Valid() && BufferAt(base)
      modifies window, action, this`rt, this`head, this`body, this`pal, this`reseedsLeft
      ensures Valid()
      ensures var f := Frame(CamerasOf(old(rt)),
                             if assetsPending then Some(old(window[OFF_CHR..OFF_CHR + CHR_WORDS])) else None);
              var p := StageFirst(WorldsOf(maps), old(rt), f.cams, MAP_LAYERS);
              && rt == p.layers && reseedsLeft == p.left
              && Resolved(body, window[..]) == AssetStrips(f) + p.strips
      ensures ShowsLayers(head, old(rt))
      ensures Resolved(pal, window[..]) ==
              if assetsPending then [Strip(0, 1, old(window[OFF_CGRAM..OFF_CGRAM + PAL_WORDS]))] else []
      ensures forall v | 0 <= v < 262 ::
                LineShown(action[..], v) <==> v < 224 && forall i | 0 <= i < MAP_LAYERS :: !rt[i].Stale()
    {
      hide Resolved, WorldsOf, StageFirst, MapLayer.Ready, LineShown, ShowsLayers, Holds;
      ghost var tiles, colours := window[OFF_CHR..OFF_CHR + CHR_WORDS], window[OFF_CGRAM..OFF_CGRAM + PAL_WORDS];
      ghost var assets := AssetStrips(Frame(CamerasOf(rt), if assetsPending then Some(tiles) else None));
      EmitHead();
      body, pal := [], [];
      reseedsLeft := 1;
      EmptyBody(window[..]);
      if assetsPending {
        ghost var sent := SendAssets(base);
        assert body == sent && pal == [Dma(base + OFF_CGRAM, PAL_WORDS, 0, 1)];
      }
      ghost var before := window[..];
      StageLayers(base, assets);
      if assetsPending {
        HoldsKept(before, window[..], base + OFF_SEED, OFF_CHR - OFF_SEED, base + OFF_CGRAM, colours);
        PaletteSends(window[..], base, colours);
      } else {
        EmptyBody(window[..]);
      }
      var stale := AnyStale();
      BuildActions(stale);
    }

    /** hx_produce_map_frame, given this frame's cameras: aim every layer, stage,
        and hand over what the console will do with it. */
    method Produce(base: nat, cams: seq<Camera>, assetsPending: bool, ghost sys: System)
      requires Valid() && BufferAt(base) && |cams| == MAP_LAYERS
      requires sys.layers == rt
      modifies window, action, this`rt, this`head, this`body, this`pal, this`reseedsLeft
      ensures Valid()
      ensures var f := Frame(cams, if assetsPending then Some(old(window[OFF_CHR..OFF_CHR + CHR_WORDS])) else None);
              && Shape(WorldsOf(maps), sys.layers, f)
              && var next := Step(WorldsOf(maps), sys, f);
              && rt == next.layers
              && ApplyAll(sys.vram, Resolved(body, window[..])) == next.vram
              && ShowsLayers(head, next.layers)
              && forall v | 0 <= v < 262 :: LineShown(action[..], v) <==> next.revealed && v < 224
      ensures Resolved(pal, window[..]) ==
              if assetsPending then [Strip(0, 1, old(window[OFF_CGRAM..OFF_CGRAM + PAL_WORDS]))] else []
    {
      hide WorldsOf, Resolved, StageFirst, ApplyAll, LayerShown, LineShown;
      ghost var rt0 := rt;
      var i := 0;
      while i < MAP_LAYERS
        invariant 0 <= i <= MAP_LAYERS && Valid() && window[..] == old(window[..])
        invariant forall j | 0 <= j < MAP_LAYERS :: rt[j] == if j < i then Aimed(rt0[j], cams[j]) else rt0[j]
      {
        rt := rt[i := rt[i].(camX := cams[i].x, camY := cams[i].y)];
        i := i + 1;
      }
      AimingIsFree(WorldsOf(maps), rt0, rt, cams, MAP_LAYERS);
      assert StageFirst(WorldsOf(maps), rt0, cams, MAP_LAYERS).layers ==
             StageFirst(WorldsOf(maps), rt, cams, MAP_LAYERS).layers;
      assert CamerasOf(rt) == cams;
      ghost var aimed := rt;
      Stage(base, assetsPending);
      CamerasStay(WorldsOf(maps), aimed, cams, MAP_LAYERS);
      HeadOfSame(head, aimed, rt);
    }

    /** MANY FRAMES FROM BOOT, the console running each body as it comes: layers and
        VRAM are those of the specified run, and on every line the action table
        shows, every pixel of every layer is the map's, through the registers. */
    method ProduceAll(jobs: seq<Job>, ghost vram0: seq<Word>) returns (ghost fs: seq<Frame>, ghost sent: seq<Strip>)
      requires Valid() && Boot(WorldsOf(maps), System(rt, vram0, false))
      requires forall k | 0 <= k < |jobs| :: BufferAt(jobs[k].base) && |jobs[k].cams| == MAP_LAYERS
      modifies window, action, this`rt, this`head, this`body, this`pal, this`reseedsLeft
      ensures Valid() && Frames(MAP_LAYERS, fs) && |fs| == |jobs| && Asked(jobs, fs)
      ensures Inv(WorldsOf(maps), System(old(rt), vram0, false))
      ensures var end := Run(WorldsOf(maps), System(old(rt), vram0, false), fs);
              && rt == end.layers && ApplyAll(vram0, sent) == end.vram
              && (jobs != [] ==> forall v | 0 <= v < 262 :: LineShown(action[..], v) <==> end.revealed && v < 224)
      ensures forall i, sx, sy | 0 <= i < MAP_LAYERS && 0 <= sx < 256 && 0 <= sy < 262 ::
                jobs != [] && LineShown(action[..], sy) && rt[i].base % 1024 == 0 ==>
                  PixelShown(WorldsOf(maps)[i], rt[i], head, ApplyAll(vram0, sent), i, sx, sy)
    {
      hide WorldsOf, Resolved, ApplyAll, LineShown, Step, Inv, Boot, ShowsLayers, Shape;
      ghost var ws, boot := WorldsOf(maps), System(rt, vram0, false);
      BootIsOk(ws, boot);
      fs, sent := [], [];
      NothingSent(vram0);
      var k := 0;
      while k < |jobs|
        invariant 0 <= k <= |jobs| && Valid() && Frames(MAP_LAYERS, fs) && |fs| == k && Asked(jobs[..k], fs)
        invariant var now := Run(ws, boot, fs);
                  && rt == now.layers && ApplyAll(vram0, sent) == now.vram
                  && (k > 0 ==> ShowsLayers(head, rt))
                  && (k > 0 ==> forall v | 0 <= v < 262 :: LineShown(action[..], v) <==> now.revealed && v < 224)
      {
        ghost var now, j := Run(ws, boot, fs), jobs[k];
        ghost var tiles := window[OFF_CHR..OFF_CHR + CHR_WORDS];
        ghost var f := Frame(j.cams, if j.assetsPending then Some(tiles) else None);
        Produce(jobs[k].base, jobs[k].cams, jobs[k].assetsPending, now);
        RunOneMore(ws, boot, fs, f);
        ApplyAllConcat(vram0, sent, Resolved(body, window[..]));
        AskedMore(jobs, fs, k, f);
        sent := sent + Resolved(body, window[..]);
        fs := fs + [f];
        k := k + 1;
      }
      assert jobs[..k] == jobs;
      if jobs != [] && Run(ws, boot, fs).revealed {
        forall i, sx, sy | 0 <= i < MAP_LAYERS && 0 <= sx < 256 && 0 <= sy < 262 && LineShown(action[..], sy) &&
                           rt[i].base % 1024 == 0
          ensures PixelShown(ws[i], rt[i], head, ApplyAll(vram0, sent), i, sx, sy)
        {
          ShownThroughRegisters(ws, Run(ws, boot, fs), head, i, sx, sy);
        }
      }
    }
  }
}
