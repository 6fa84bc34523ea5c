// The FMV band producer: it copies one band of the decoded frame into the
// window, emits the band's body, and advances on FRAME_DONE.
// runtime/hx421_runtime.c:1370-1415, 1801-1822, 1889-1954.
module FmvEngine {
  import opened Arith
  import opened Vram
  import opened Window
  import opened Fmv
  import FmvFrames

  // Staging offsets inside a window buffer, in words.
  const OFF_CGRAM: nat := 0x200
  const OFF_MAP: nat := 0x280
  const OFF_CHR: nat := 0x680
  const OFF_CHR_C: nat := 0x1480
  const BUFFER_WORDS: nat := 0x1800
  // Sprite data, shared above both buffers.
  const SPR_CHR: nat := 0x3000
  const SPR_PAL: nat := 0x30C0
  const SPR_OAM: nat := 0x3140
  // The letterbox: lines 8 .. 215 are shown.
  const TOP_LB: nat := 8
  const VIS_END: nat := 216

  /** One instruction group of the emitted body. */
  datatype Slot =
    | ToVram(d: Dma)
    | ToCgram(src: nat, size: nat, at: nat)
    | ToOam(src: nat, size: nat)
    | SetMode(value: nat)
    | SetObsel(value: nat)
    | SetTm(value: nat)
    | SetScroll(hofs: nat, vofs: nat)
    | SetSc(value: nat)
    | SetNba(value: nat)

  function RunSlot(c: Console, s: Slot, win: seq<Word>): (c': Console)
    requires c.Fits() && |win| == WINDOW_WORDS
    ensures c'.Fits()
  {
    match s
    case ToVram(d) => c.(vram := Apply(c.vram, Resolve(d, win)))
    case ToCgram(src, size, at) =>
      c.(cgram := Burst(c.cgram, at, 1, if src + size <= |win| then win[src..src + size] else []))
    case ToOam(src, size) => c.(oam := Burst(c.oam, 0, 1, if src + size <= |win| then win[src..src + size] else []))
    case SetMode(v) => c.(setup := c.setup.(mode := v))
    case SetObsel(v) => c.(setup := c.setup.(obsel := v))
    case SetTm(v) => c.(setup := c.setup.(tm := v))
    case SetScroll(h, v) => c.(setup := c.setup.(hofs := h, vofs := v))
    case SetSc(v) => c.(sc := v)
    case SetNba(v) => c.(nba := v)
  }

  /** The bytes a body transfers. */
  function Sent(body: seq<Slot>): nat {
    if body == [] then 0 else Sent(body[..|body| - 1]) + SlotBytes(body[|body| - 1])
  }

  function SlotBytes(s: Slot): nat {
    match s
    case ToVram(d) => 2 * d.size
    case ToCgram(_, size, _) => 2 * size
    case ToOam(_, size) => 2 * size
    case _ => 0
  }

  /** Run a body against the window, slot after slot. */
  function RunBody(c: Console, body: seq<Slot>, win: seq<Word>): (c': Console)
    requires c.Fits() && |win| == WINDOW_WORDS
    ensures c'.Fits()
    decreases |body|
  {
    if body == [] then c else RunSlot(RunBody(c, body[..|body| - 1], win), body[|body| - 1], win)
  }

  lemma RunSnoc(c: Console, body: seq<Slot>, s: Slot, win: seq<Word>)
    requires c.Fits() && |win| == WINDOW_WORDS
    ensures RunBody(c, body + [s], win) == RunSlot(RunBody(c, body, win), s, win)
    ensures Sent(body + [s]) == Sent(body) + SlotBytes(s)
  {
    assert (body + [s])[..|body + [s]| - 1] == body;
  }

  lemma PaletteBurst(cg: seq<Word>, at: nat, data: seq<Word>)
    requires at + |data| <= |cg|
    ensures Burst(cg, at, 1, data) == cg[..at] + data + cg[at + |data|..]
  {
    forall a | 0 <= a < |cg|
      ensures Burst(cg, at, 1, data)[a] == (cg[..at] + data + cg[at + |data|..])[a]
    {
      BurstLands(cg, at, 1, data, a);
    }
  }

  function SpritesIn(win: seq<Word>): (sp: Sprites)
    requires |win| == WINDOW_WORDS
    ensures sp.Whole()
  {
    Sprites(win[SPR_CHR..SPR_CHR + OBJ_WORDS], win[SPR_PAL..SPR_PAL + 128], win[SPR_OAM..SPR_OAM + OAM_WORDS])
  }

  lemma SpritesKept(a: seq<Word>, b: seq<Word>, base: nat)
    requires |a| == |b| == WINDOW_WORDS && SameOutside(a, b, base, BUFFER_WORDS) && base + BUFFER_WORDS <= SPR_CHR
    ensures SpritesIn(a) == SpritesIn(b)
  {}

  function MapSlot(base: nat, band: nat, buf: Buffer): Dma {
    Dma(base + OFF_MAP, 256, MapBase(buf) + band * 256, 1)
  }

  function ChrSlot(base: nat, band: nat, buf: Buffer): Dma
    requires band < 4
  {
    Dma(base + OFF_CHR, RunCount(band) * TILE_WORDS, ChrBase(buf) + RunStart(band) * TILE_WORDS, 1)
  }

  lemma SlotSizes(base: nat, band: nat, buf: Buffer)
    requires band < 4
    ensures SlotBytes(ToVram(MapSlot(base, band, buf))) == 512
    ensures SlotBytes(ToVram(ChrSlot(base, band, buf))) == 32 * RunCount(band)
  {}

  lemma HeadStrips(band: nat, buf: Buffer, p: Picture, sp: Sprites)
    requires band < 4 && p.Whole() && sp.Whole()
    ensures var ss, lo := BandStrips(band, buf, p, sp), RunStart(band) * TILE_WORDS;
            && |ss| >= 2 && lo + RunCount(band) * TILE_WORDS <= CHR_TOTAL
            && ss[0] == Strip(MapBase(buf) + band * 256, 1, p.cells[band * 256..band * 256 + 256])
            && ss[1] == Strip(ChrBase(buf) + lo, 1, p.chr[lo..lo + RunCount(band) * TILE_WORDS])
  {
    RunBounds(band);
    hide RunStart, RunCount;
  }

  lemma HeadSlotsSend(win: seq<Word>, base: nat, band: nat, buf: Buffer, p: Picture, sp: Sprites)
    requires |win| == WINDOW_WORDS && base + BUFFER_WORDS <= SPR_CHR && band < 4 && p.Whole() && sp.Whole()
    requires StagedBand(win, base, band, p)
    ensures |BandStrips(band, buf, p, sp)| >= 2
    ensures Resolve(MapSlot(base, band, buf), win) == BandStrips(band, buf, p, sp)[0]
    ensures Resolve(ChrSlot(base, band, buf), win) == BandStrips(band, buf, p, sp)[1]
  {
    hide RunStart, RunCount, BandStrips, MapBase, ChrBase;
    HeadStrips(band, buf, p, sp);
  }

  /** What a staged buffer holds for one band. */
  ghost predicate StagedBand(win: seq<Word>, base: nat, band: nat, p: Picture)
    requires |win| == WINDOW_WORDS && base + BUFFER_WORDS <= SPR_CHR && band < 4 && p.Whole()
  {
    var lo, n := RunStart(band) * TILE_WORDS, RunCount(band) * TILE_WORDS;
    && Holds(win, base + OFF_CHR, p.chr[lo..lo + n])
    && Holds(win, base + OFF_MAP, p.cells[band * 256..band * 256 + 256])
    && (band == 3 ==>
          && Holds(win, base + OFF_CHR_C, p.chr[..CONTESTED * TILE_WORDS])
          && Holds(win, base + OFF_CGRAM, p.pal))
  }

  /** Only the letterbox is shown, and nothing of it during the preroll. */
  lemma LetterboxShows(act: seq<int>, dark: bool)
    requires |act| == 512
    requires forall u | 0 <= u < 512 ::
               act[u] == if (dark && u < 262) || u < TOP_LB || VIS_END <= u < 262 then 1
                         else if u == TOP_LB then 2 else 0
    ensures forall v | 0 <= v < 262 :: LineShown(act, v) <==> !dark && TOP_LB <= v < VIS_END
  {
    forall v | 0 <= v < 262
      ensures LineShown(act, v) <==> !dark && TOP_LB <= v < VIS_END
    {
      if !dark && TOP_LB <= v < VIS_END {
        assert act[TOP_LB] == 2;
      } else {
        assert act[v] == 1;
      }
    }
  }

  class Engine {
    const window: array<Word>
    const action: array<int>
    var ready: nat                // the window buffer published to the console, plus one
    var back: nat                 // which window buffer is written, 0 or 1
    var band: nat
    var front: Buffer
    var needDecode: bool
    var preroll: nat
    var store: Picture
    var body: seq<Slot>

    ghost predicate Valid()
      reads this
    {
      window.Length == WINDOW_WORDS && action.Length == 512 && Player().Valid() && back < 2
    }

    ghost function Player(): Player
      reads this
    {
      Fmv.Player(band, front, needDecode, preroll, store)
    }

    constructor (first: Picture, preroll: nat)
      requires first.Whole()
      ensures Valid() && fresh(window) && fresh(action)
      ensures Player() == Fmv.Player(0, A, true, preroll, first)
    {
      window := new Word[WINDOW_WORDS](_ => 0);
      action := new int[512](_ => 0);
      ready := 0;
      back, band, front, needDecode, store, body := 0, 0, A, true, first, [];
      this.preroll := preroll;
    }

    /** memcpy into the window. */
    method CopyIn(at: nat, data: seq<Word>)
      requires Valid() && at + |data| <= WINDOW_WORDS
      modifies window
      ensures Holds(window[..], at, data)
      ensures SameOutside(old(window[..]), window[..], at, |data|)
    {
      var i := 0;
      while i < |data|
        invariant 0 <= i <= |data|
        invariant forall k | 0 <= k < i :: window[at + k] == data[k]
        invariant SameOutside(old(window[..]), window[..], at, |data|)
      {
        window[at + i] := data[i];
        i := i + 1;
      }
    }

    /** Copy only this band from the frame store into the buffer at `base`. */
    method StageBand(base: nat)
      requires Valid() && base + BUFFER_WORDS <= SPR_CHR
      modifies window
      ensures StagedBand(window[..], base, band, store)
      ensures SameOutside(old(window[..]), window[..], base, BUFFER_WORDS)
    {
      hide RunStart, RunCount, Holds, SameOutside;
      RunBounds(band);
      var lo, n := RunStart(band) * TILE_WORDS, RunCount(band) * TILE_WORDS;
      var chr, cells := store.chr[lo..lo + n], store.cells[band * 256..band * 256 + 256];
      ghost var w0 := window[..];
      assert SameOutside(w0, w0, base, BUFFER_WORDS) by { StagedNothing(w0, base, BUFFER_WORDS); }
      CopyIn(base + OFF_CHR, chr);
      StagedMore(w0, w0, window[..], base, BUFFER_WORDS, base + OFF_CHR, n);
      ghost var w1 := window[..];
      CopyIn(base + OFF_MAP, cells);
      HoldsKept(w1, window[..], base + OFF_MAP, 256, base + OFF_CHR, chr);
      StagedMore(w0, w1, window[..], base, BUFFER_WORDS, base + OFF_MAP, 256);
      if band == 3 {
        StageFlip(base, w0, chr, cells);
      }
    }

    method StageFlip(base: nat, ghost w0: seq<Word>, ghost chr: seq<Word>, ghost cells: seq<Word>)
      requires Valid() && base + BUFFER_WORDS <= SPR_CHR && |chr| <= 208 * TILE_WORDS && |cells| == 256
      requires Holds(window[..], base + OFF_CHR, chr) && Holds(window[..], base + OFF_MAP, cells)
      requires SameOutside(w0, window[..], base, BUFFER_WORDS)
      modifies window
      ensures Holds(window[..], base + OFF_CHR, chr) && Holds(window[..], base + OFF_MAP, cells)
      ensures Holds(window[..], base + OFF_CHR_C, store.chr[..CONTESTED * TILE_WORDS])
      ensures Holds(window[..], base + OFF_CGRAM, store.pal)
      ensures SameOutside(w0, window[..], base, BUFFER_WORDS)
    {
      hide Holds, SameOutside;
      var contested := store.chr[..CONTESTED * TILE_WORDS];
      ghost var w1 := window[..];
      CopyIn(base + OFF_CHR_C, contested);
      ghost var w2 := window[..];
      CopyIn(base + OFF_CGRAM, store.pal);
      HoldsKept(w1, w2, base + OFF_CHR_C, |contested|, base + OFF_CHR, chr);
      HoldsKept(w1, w2, base + OFF_CHR_C, |contested|, base + OFF_MAP, cells);
      HoldsKept(w2, window[..], base + OFF_CGRAM, PAL_TOTAL, base + OFF_CHR, chr);
      HoldsKept(w2, window[..], base + OFF_CGRAM, PAL_TOTAL, base + OFF_MAP, cells);
      HoldsKept(w2, window[..], base + OFF_CGRAM, PAL_TOTAL, base + OFF_CHR_C, contested);
      StagedMore(w0, w1, w2, base, BUFFER_WORDS, base + OFF_CHR_C, |contested|);
      StagedMore(w0, w2, window[..], base, BUFFER_WORDS, base + OFF_CGRAM, PAL_TOTAL);
    }

    /** hx_emit_fmv_band. */
    method EmitBand(base: nat, backBuf: Buffer, ghost c: Console)
      requires Valid() && base + BUFFER_WORDS <= SPR_CHR && c.Fits()
      requires StagedBand(window[..], base, band, store)
      modifies this`body
      ensures RunBody(c, body, window[..]) == RunBand(c, band, backBuf, store, SpritesIn(window[..]))
      ensures Sent(body) == if band == 3 then 6976 else 7424
    {
      hide RunBody, ApplyAll, Burst, Sent;
      ghost var ss := BandStrips(band, backBuf, store, SpritesIn(window[..]));
      EmitHead(base, backBuf, c);
      if band == 3 {
        EmitFlip(base, backBuf, c);
        ApplyThree(c.vram, ss[0], ss[1], ss[2]);
        assert ss == [ss[0], ss[1], ss[2]];
      } else if band == 1 {
        EmitSprites(c);
        ApplyThree(c.vram, ss[0], ss[1], ss[2]);
        assert ss == [ss[0], ss[1], ss[2]];
      } else {
        ApplyTwo(c.vram, ss[0], ss[1]);
        assert ss == [ss[0], ss[1]];
      }
      EmitOam(c);
    }

    /** Every band's tail: sprites 0..63, or on band 3 the whole sprite table. */
    method EmitOam(ghost c: Console)
      requires Valid() && c.Fits()
      modifies this`body
      ensures var before, sp := old(RunBody(c, body, window[..])), SpritesIn(window[..]);
              RunBody(c, body, window[..]) ==
              before.(oam := if band == 3 then sp.oam else sp.oam[..OAM_ACTIVE] + before.oam[OAM_ACTIVE..])
      ensures Sent(body) == old(Sent(body)) + if band == 3 then 544 else 256
    {
      hide RunBody, Burst, Sent;
      ghost var oam, sp := RunBody(c, body, window[..]).oam, SpritesIn(window[..]);
      var n := if band == 3 then OAM_WORDS else OAM_ACTIVE;
      PaletteBurst(oam, 0, window[SPR_OAM..SPR_OAM + n]);
      Put(ToOam(SPR_OAM, n), c);
      assert window[SPR_OAM..SPR_OAM + n] == sp.oam[..n];
    }

    /** Every band: its quarter of the map and its CHR run; band 0 first sets the
        console up and holds the registers on the front buffers. */
    method EmitHead(base: nat, backBuf: Buffer, ghost c: Console)
      requires Valid() && base + BUFFER_WORDS <= SPR_CHR && c.Fits()
      requires StagedBand(window[..], base, band, store)
      modifies this`body
      ensures var ss := BandStrips(band, backBuf, store, SpritesIn(window[..]));
              && |ss| >= 2
              && RunBody(c, body, window[..]) ==
                 Console(Apply(Apply(c.vram, ss[0]), ss[1]), c.cgram, c.oam,
                         if band == 0 then ScOf(Other(backBuf)) else c.sc,
                         if band == 0 then NbaOf(Other(backBuf)) else c.nba,
                         if band == 0 then SETUP else c.setup)
      ensures Sent(body) == 512 + 32 * RunCount(band)
    {
      hide RunBody, Sent, Apply, Resolve, BandStrips, StagedBand;
      SlotSizes(base, band, backBuf);
      hide MapSlot, ChrSlot, RunCount;
      HeadSlotsSend(window[..], base, band, backBuf, store, SpritesIn(window[..]));
      body := [];
      EmptyRuns(c, window[..]);
      if band == 0 {
        EmitSetup(backBuf, c);
      }
      Put(ToVram(MapSlot(base, band, backBuf)), c);
      Put(ToVram(ChrSlot(base, band, backBuf)), c);
    }

    /** Band 0's head: the background setup, and the front buffers held. */
    method EmitSetup(backBuf: Buffer, ghost c: Console)
      requires Valid() && c.Fits()
      modifies this`body
      ensures RunBody(c, body, window[..]) ==
              old(RunBody(c, body, window[..])).(setup := SETUP, sc := ScOf(Other(backBuf)),
                                                 nba := NbaOf(Other(backBuf)))
      ensures Sent(body) == old(Sent(body))
    {
      hide RunBody, Sent, ScOf, NbaOf;
      Put(SetMode(0x01), c);
      Put(SetObsel(0x03), c);
      Put(SetTm(0x11), c);
      Put(SetScroll(0, 0x3FF), c);
      Put(SetSc(ScOf(Other(backBuf))), c);
      Put(SetNba(NbaOf(Other(backBuf))), c);
    }

    /** Band 3's tail: the contested tiles, the palette, and the flip. */
    method EmitFlip(base: nat, backBuf: Buffer, ghost c: Console)
      requires Valid() && base + BUFFER_WORDS <= SPR_CHR && c.Fits() && band == 3
      requires StagedBand(window[..], base, band, store)
      modifies this`body
      ensures var before := old(RunBody(c, body, window[..]));
              RunBody(c, body, window[..]) ==
              Console(Apply(before.vram, Strip(ChrBase(backBuf), 1, store.chr[..CONTESTED * TILE_WORDS])),
                      store.pal + before.cgram[PAL_TOTAL..], before.oam, ScOf(backBuf), NbaOf(backBuf), before.setup)
      ensures Sent(body) == old(Sent(body)) + 416 + 256
    {
      hide RunBody, Sent, ApplyAll, Burst;
      PaletteBurst(RunBody(c, body, window[..]).cgram, 0, store.pal);
      Put(ToVram(Dma(base + OFF_CHR_C, CONTESTED * TILE_WORDS, ChrBase(backBuf), 1)), c);
      Put(ToCgram(base + OFF_CGRAM, PAL_TOTAL, 0), c);
      Put(SetSc(ScOf(backBuf)), c);
      Put(SetNba(NbaOf(backBuf)), c);
    }

    /** Band 1's tail: the OBJ tiles and both OBJ palette blocks. */
    method EmitSprites(ghost c: Console)
      requires Valid() && c.Fits()
      modifies this`body
      ensures var before, sp := old(RunBody(c, body, window[..])), SpritesIn(window[..]);
              RunBody(c, body, window[..]) ==
              before.(vram := Apply(before.vram, Strip(OBJ_VWORD, 1, sp.chr)),
                      cgram := before.cgram[..PAL_TOTAL] + sp.pal)
      ensures Sent(body) == old(Sent(body)) + 384 + 256
    {
      hide RunBody, Sent, ApplyAll, Burst;
      ghost var win, cg := window[..], RunBody(c, body, window[..]).cgram;
      PaletteBurst(cg, 128, win[SPR_PAL..SPR_PAL + 64]);
      ghost var cg1 := Burst(cg, 128, 1, win[SPR_PAL..SPR_PAL + 64]);
      PaletteBurst(cg1, 192, win[SPR_PAL + 64..SPR_PAL + 128]);
      Put(ToVram(Dma(SPR_CHR, OBJ_WORDS, OBJ_VWORD, 1)), c);
      Put(ToCgram(SPR_PAL, 64, 128), c);
      Put(ToCgram(SPR_PAL + 64, 64, 192), c);
      assert Burst(cg1, 192, 1, win[SPR_PAL + 64..SPR_PAL + 128]) == cg[..PAL_TOTAL] + win[SPR_PAL..SPR_PAL + 128];
    }

    /** Append one slot; what the body does is what it did, then this. */
    method Put(s: Slot, ghost c: Console)
      requires Valid() && c.Fits()
      modifies this`body
      ensures body == old(body) + [s] && Sent(body) == old(Sent(body)) + SlotBytes(s)
      ensures RunBody(c, body, window[..]) == RunSlot(old(RunBody(c, body, window[..])), s, window[..])
    {
      RunSnoc(c, body, s, window[..]);
      body := body + [s];
    }

    /** The field's action table: the letterbox, or all blank during the preroll. */
    method BuildActions(dark: bool)
      requires Valid()
      modifies action
      ensures forall u | 0 <= u < action.Length ::
                action[u] == if u < 262 && (dark || u < 8 || u >= 216) then 1 else if u == 8 then 2 else 0
      ensures forall v | 0 <= v < 262 :: LineShown(action[..], v) <==> !dark && TOP_LB <= v < VIS_END
    {
      var v := 0;
      while v < 512
        invariant 0 <= v <= 512
        invariant forall u | 0 <= u < v :: action[u] == 0
      {
        action[v] := 0;
        v := v + 1;
      }
      var top := if dark then 262 else TOP_LB;
      v := 0;
      while v < top
        invariant 0 <= v <= top
        invariant forall u | 0 <= u < 512 :: action[u] == if u < v then 1 else 0
      {
        action[v] := 1;
        v := v + 1;
      }
      if !dark {
        action[TOP_LB] := 2;
        v := VIS_END;
        while v < 262
          invariant VIS_END <= v <= 262
          invariant forall u | 0 <= u < 512 ::
                      action[u] == if u < TOP_LB || VIS_END <= u < v then 1 else if u == TOP_LB then 2 else 0
        {
          action[v] := 1;
          v := v + 1;
        }
      }
      LetterboxShows(action[..], dark);
    }

    /** hx_produce_fmv_band: decode at most one frame, then stage, emit, and
        publish the buffer. The field is black until the preroll is over. */
    method ProduceBand(t: Tick, ghost c: Console)
      requires Valid() && c.Fits() && t.Whole()
      modifies window, action, this`needDecode, this`preroll, this`store, this`body, this`ready
      ensures Valid()
      ensures Player() == Produced(old(Player()), t)
      ensures SpritesIn(window[..]) == old(SpritesIn(window[..]))
      ensures RunBody(c, body, window[..]) == RunBand(c, band, Other(front), store, SpritesIn(window[..]))
      ensures forall v | 0 <= v < 262 :: LineShown(action[..], v) <==> old(preroll) == 0 && TOP_LB <= v < VIS_END
      ensures ready == back + 1 && Sent(body) == if band == 3 then 6976 else 7424
    {
      hide RunBand, RunBody, LineShown, Sent;
      var base := if back == 1 then 0x1800 else 0;
      if band == 0 && needDecode && preroll == 0 && t.playing {
        if t.next.Some? {
          store := t.next.value;
          needDecode := false;
        }
      }
      BuildActions(preroll > 0);
      if preroll > 0 { preroll := preroll - 1; }
      ghost var before := window[..];
      StageBand(base);
      SpritesKept(before, window[..], base);
      EmitBand(base, Other(front), c);
      ready := back + 1;
    }

    /** The FRAME_DONE branch of hx421_cart_read, in FMV mode. With the console's
        state as the ghost argument, the new body takes it where `Step` says. */
    method FrameDone(t: Tick, ghost sys: System)
      requires Valid() && t.Whole() && sys.console.Fits() && sys.player == Player()
      requires t.sprites == SpritesIn(window[..])
      modifies window, action, this
      ensures Valid()
      ensures Player() == Step(sys, t).player
      ensures RunBody(sys.console, body, window[..]) == Step(sys, t).console
      ensures forall v | 0 <= v < 262 :: LineShown(action[..], v) <==> old(preroll) == 0 && TOP_LB <= v < VIS_END
      ensures back == 1 - old(back) && ready == back + 1
      ensures band == (old(band) + 1) % 4 && (band != 0 ==> store == old(store) && front == old(front))
      ensures band == 0 ==>
                && front == (if old(front) == A then B else A)
                && store == (if old(preroll) == 0 && t.playing && t.next.Some? then t.next.value else old(store))
      ensures Sent(body) == if band == 3 then 6976 else 7424
    {
      hide RunBand, RunBody, LineShown, Sent;
      back := 1 - back;
      band := (band + 1) % 4;
      if band == 0 {
        front := Other(front);
        needDecode := true;
      }
      assert Player() == Advanced(sys.player);
      ProduceBand(t, sys.console);
    }

    /** The sprite overlay writes its data, shared above both buffers. */
    method StoreSprites(sp: Sprites)
      requires Valid() && sp.Whole()
      modifies window
      ensures SpritesIn(window[..]) == sp
    {
      hide SameOutside;
      ghost var w0 := window[..];
      CopyIn(SPR_CHR, sp.chr);
      ghost var w1 := window[..];
      CopyIn(SPR_PAL, sp.pal);
      HoldsKept(w1, window[..], SPR_PAL, 128, SPR_CHR, sp.chr);
      ghost var w2 := window[..];
      CopyIn(SPR_OAM, sp.oam);
      HoldsKept(w2, window[..], SPR_OAM, OAM_WORDS, SPR_CHR, sp.chr);
      HoldsKept(w2, window[..], SPR_OAM, OAM_WORDS, SPR_PAL, sp.pal);
    }

    /** A WHOLE PLAYBACK: the first band kicked off into any console, then one
        FRAME_DONE after another, the console running each emitted body. It ends
        where the specified run does, with one decoded frame on screen. */
    method PlayAll(kick: Tick, ts: seq<Tick>, ghost c: Console) returns (ghost console: Console)
      requires Valid() && band == 0 && c.Fits() && kick.Whole()
      requires forall i | 0 <= i < |ts| :: ts[i].Whole()
      modifies window, action, this
      ensures Valid() && Fmv.Inv(Kicked(c, old(Player()), kick))
      ensures var end := Run(Kicked(c, old(Player()), kick), ts);
              && Player() == end.player && console == end.console && console.ShowsBuffers()
              && (end.onScreen.Some? ==> console.Shown() == end.onScreen.value)
      ensures forall m: nat | 4 * m + 3 <= |ts| && |ts| <= 4 * m + 6 ::
                console.Shown() == FmvFrames.Flip(c, old(Player()), kick, ts, m)
      ensures |ts| >= 7 ==>
                var m := (|ts| - 3) / 4;
                var t := ts[4 * m - 1];
                old(preroll) <= 4 * m && t.playing && t.next.Some? ==> console.Shown() == t.next.value
    {
      hide RunBody, RunBand, LineShown, Kicked, Run, Step, Fmv.Inv, Produced, SpritesIn, Console.ShowsBuffers,
        Console.Shown;
      ghost var start := Kicked(c, Player(), kick);
      KickStartsWell(c, Player(), kick);
      StoreSprites(kick.sprites);
      KickIs(c, Player(), kick);
      ProduceBand(kick, c);
      console := RunBody(c, body, window[..]);
      RunNothing(start);
      var i := 0;
      while i < |ts|
        invariant 0 <= i <= |ts| && Valid() && Fmv.Inv(Run(start, ts[..i]))
        invariant Player() == Run(start, ts[..i]).player && console == Run(start, ts[..i]).console
      {
        ghost var now := Run(start, ts[..i]);
        StoreSprites(ts[i].sprites);
        InvFits(now);
        FrameDone(ts[i], now);
        FmvFrames.OneMore(start, ts, i);
        console := RunBody(console, body, window[..]);
        i := i + 1;
      }
      assert ts[..i] == ts;
      InvFits(Run(start, ts));
      if |ts| >= 3 {
        var m := (|ts| - 3) / 4;
        FmvFrames.BetweenFlips(c, old(Player()), kick, ts, m, |ts|);
        FmvFrames.FlipShows(c, old(Player()), kick, ts, m);
        assert ts[..|ts|] == ts;
      }
      hide FmvFrames.Flip, Console.ShowsBuffers, Console.Shown;
    }
  }

  lemma InvFits(sys: System)
    requires Fmv.Inv(sys)
    ensures sys.console.Fits() && sys.console.ShowsBuffers()
    ensures sys.onScreen.Some? ==> sys.console.Shown() == sys.onScreen.value
  {
    ShowsFits(sys.console, Revealed(sys.player));
  }

  lemma KickIs(c: Console, pl: Player, t: Tick)
    requires c.Fits() && pl.Valid() && t.Whole()
    ensures var q := Produced(pl, t);
            Kicked(c, pl, t).player == q &&
              Kicked(c, pl, t).console == RunBand(c, q.band, Other(q.front), q.store, t.sprites)
  {}

  lemma RunNothing(sys: System)
    requires Fmv.Inv(sys)
    ensures Run(sys, []) == sys
  {}

  lemma EmptyRuns(c: Console, win: seq<Word>)
    requires c.Fits() && |win| == WINDOW_WORDS
    ensures RunBody(c, [], win) == c && Sent([]) == 0
  {}

  lemma ApplyThree(v: seq<Word>, a: Strip, b: Strip, c: Strip)
    ensures ApplyAll(v, [a, b, c]) == Apply(Apply(Apply(v, a), b), c)
  {
    ApplyTwo(v, a, b);
    ApplyAllConcat(v, [a, b], [c]);
    assert [a, b] + [c] == [a, b, c];
  }
}
