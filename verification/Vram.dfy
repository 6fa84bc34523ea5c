// VRAM as the SNES sees it: DMA bursts and the tilemap's cell addresses.
// runtime/hx421_runtime.c, tm_word and the DMA slots.
module Vram {
  import opened Arith

  const VRAM_WORDS: nat := 0x8000

  /** One DMA slot with its source already fetched: `data` goes to `vword`, and
      the VRAM address advances by `step` words after each word (VMAIN). */
  datatype Strip = Strip(vword: nat, step: nat, data: seq<Word>)

  /** The burst itself, word by word. */
  function Burst(v: seq<Word>, at: nat, step: nat, data: seq<Word>): (r: seq<Word>)
    ensures |r| == |v|
    decreases |data|
  {
    if data == [] then v
    else Burst(if at < |v| then v[at := data[0]] else v, at + step, step, data[1..])
  }

  function Apply(v: seq<Word>, s: Strip): (r: seq<Word>)
    ensures |r| == |v|
  {
    Burst(v, s.vword, s.step, s.data)
  }

  function ApplyAll(v: seq<Word>, ss: seq<Strip>): (r: seq<Word>)
    ensures |r| == |v|
    decreases |ss|
  {
    if ss == [] then v else Apply(ApplyAll(v, ss[..|ss| - 1]), ss[|ss| - 1])
  }

  /** Distance d is a whole number of steps, and how many. */
  predicate OnStep(d: int, step: nat)
    requires step > 0
  {
    d % step == 0
  }

  function StepsIn(d: int, step: nat): int
    requires step > 0
  {
    d / step
  }

  lemma StepBack(d: int, step: nat)
    requires step > 0
    ensures OnStep(0, step) && StepsIn(0, step) == 0
    ensures 0 < d < step ==> !OnStep(d, step)
    ensures OnStep(d - step, step) == OnStep(d, step) && StepsIn(d - step, step) == StepsIn(d, step) - 1
    ensures d >= 0 ==> StepsIn(d, step) >= 0
    ensures d >= step ==> StepsIn(d, step) >= 1
  {
    ModShift(d, step, -1);
    DivModUnique(0, step, 0, 0);
    if 0 < d < step {
      DivModUnique(d, step, 0, d);
    }
    NotNegative(d, step);
    NotNegative(d - step, step);
  }

  lemma NotNegative(d: int, step: nat)
    requires step > 0
    ensures d >= 0 ==> d / step >= 0
  {
    assert d == d / step * step + d % step;
    if d / step < 0 {
      MultipleGrows(d / step, step);
    }
  }

  lemma {:induction false} BurstStep(v: seq<Word>, at: nat, step: nat, data: seq<Word>, a: nat)
    requires step > 0 && a < |v|
    ensures a >= at ==> StepsIn(a - at, step) >= 0
    ensures Burst(v, at, step, data)[a] ==
            if a >= at && OnStep(a - at, step) && StepsIn(a - at, step) < |data| then data[StepsIn(a - at, step)]
            else v[a]
    decreases |data|
  {
    hide OnStep, StepsIn;
    StepBack(a - at, step);
    if data != [] {
      var v1 := if at < |v| then v[at := data[0]] else v;
      BurstStep(v1, at + step, step, data[1..], a);
      assert a - (at + step) == a - at - step;
    }
  }

  /** Where a burst lands: word `a` receives entry (a - at) / step, or keeps its value. */
  lemma BurstLands(v: seq<Word>, at: nat, step: nat, data: seq<Word>, a: nat)
    requires step > 0 && a < |v|
    ensures a >= at ==> (a - at) / step >= 0
    ensures Burst(v, at, step, data)[a] ==
            if a >= at && (a - at) % step == 0 && (a - at) / step < |data|
            then data[(a - at) / step] else v[a]
  {
    BurstStep(v, at, step, data, a);
    hide Burst;
  }

  /** A plain burst puts its words one after another. */
  lemma PlainBurst(v: seq<Word>, at: nat, data: seq<Word>, a: nat)
    requires a < |v|
    ensures Burst(v, at, 1, data)[a] == if at <= a < at + |data| then data[a - at] else v[a]
  {
    BurstLands(v, at, 1, data, a);
    DivModUnique(a - at, 1, a - at, 0);
    hide Burst;
  }

  lemma ApplyOne(v: seq<Word>, s: Strip)
    ensures ApplyAll(v, [s]) == Burst(v, s.vword, s.step, s.data)
  {
    assert [s][..0] == [];
  }

  lemma ApplyTwo(v: seq<Word>, a: Strip, b: Strip)
    ensures ApplyAll(v, [a, b]) == Apply(Apply(v, a), b)
  {
    ApplyAllConcat(v, [a], [b]);
    assert [a] + [b] == [a, b];
  }

  lemma {:induction false} ApplyAllConcat(v: seq<Word>, xs: seq<Strip>, ys: seq<Strip>)
    ensures ApplyAll(v, xs + ys) == ApplyAll(ApplyAll(v, xs), ys)
    decreases |ys|
  {
    if ys == [] {
      assert xs + ys == xs;
    } else {
      var n := |ys| - 1;
      ApplyAllConcat(v, xs, ys[..n]);
      assert (xs + ys)[..|xs + ys| - 1] == xs + ys[..n];
    }
  }

  // ---- tilemap geometry ----

  datatype Geom = Geom(base: nat, wTiles: nat, hTiles: nat)

  /** tm_word: the VRAM word of tilemap cell (cx, cy), with the uint16_t casts. */
  function TmWord(g: Geom, cx: nat, cy: nat): nat {
    var sx := if g.wTiles == 64 then (cx / 32) % 2 else 0;
    var sy := if g.hTiles == 64 then (cy / 32) % 2 else 0;
    var screensWide := if g.wTiles == 64 then 2 else 1;
    (g.base + ((sy * screensWide + sx) * 0x400) % 0x1_0000 + ((cy % 32) * 32 + cx % 32)) % 0x1_0000
  }

  const SCREEN_PAIR: nat := 0x800      // words of a 64x32 map: two 32x32 screens

  /** Cell (cx, cy) of a 64x32 map: two screens side by side. */
  function Cell(base: nat, cx: nat, cy: nat): nat
    requires cx < 64 && cy < 32
  {
    base + (cx / 32) * 0x400 + cy * 32 + cx % 32
  }

  lemma TmWordIsCell(base: nat, cx: nat, cy: nat)
    requires base + SCREEN_PAIR <= VRAM_WORDS && cx < 64 && cy < 32
    ensures TmWord(Geom(base, 64, 32), cx, cy) == Cell(base, cx, cy)
    ensures base <= Cell(base, cx, cy) < base + SCREEN_PAIR
  {
    var screen := cx / 32;
    assert screen % 2 == screen && cy % 32 == cy && (screen * 0x400) % 0x1_0000 == screen * 0x400;
  }

  /** A tilemap as the PPU sees it: an entry for each cell. */
  type Tiles = (int, int) -> Word

  function TilesAt(base: nat, v: seq<Word>): Tiles
    requires base + SCREEN_PAIR <= |v|
  {
    (x, y) => if 0 <= x < 64 && 0 <= y < 32 then v[Cell(base, x, y)] else 0
  }

  /** Tile (c, r) of an endless map lies in its cell of the two screens. */
  lemma TileWord(base: nat, v: seq<Word>, c: int, r: int)
    requires base + SCREEN_PAIR <= |v|
    ensures 0 <= base + c % 64 / 32 * 1024 + r % 32 * 32 + c % 32 < |v|
    ensures TilesAt(base, v)(c % 64, r % 32) == v[base + c % 64 / 32 * 1024 + r % 32 * 32 + c % 32]
  {
    LowHalf(c);
  }

  lemma LowHalf(c: int)
    ensures c % 64 % 32 == c % 32 && 0 <= c % 64 / 32 <= 1
  {
    var k, h, l := c / 64, c % 64 / 32, c % 64 % 32;
    assert c == k * 64 + h * 32 + l;
    DivModUnique(c, 32, 2 * k + h, l);
  }

  /** Words outside the 64x32 map at `base` are as they were. */
  ghost predicate OnlyOwn(base: nat, v: seq<Word>, v': seq<Word>)
  {
    |v'| == |v| && forall a | 0 <= a < |v| && !(base <= a < base + SCREEN_PAIR) :: v'[a] == v[a]
  }

  /** What one step-32 burst of 32 words at the top of column cx does. */
  lemma ColumnBurst(v: seq<Word>, base: nat, cx: nat, data: seq<Word>)
    requires |v| == VRAM_WORDS && base + SCREEN_PAIR <= VRAM_WORDS && cx < 64 && |data| == 32
    ensures var v' := Burst(v, TmWord(Geom(base, 64, 32), cx, 0), 32, data);
            && OnlyOwn(base, v, v')
            && (forall x, y | 0 <= x < 64 && 0 <= y < 32 ::
                  TilesAt(base, v')(x, y) == if x == cx then data[y] else TilesAt(base, v)(x, y))
  {
    hide Burst, TmWord, OnStep, StepsIn;
    TmWordIsCell(base, cx, 0);
    var at := Cell(base, cx, 0);
    var v' := Burst(v, at, 32, data);
    forall x, y | 0 <= x < 64 && 0 <= y < 32
      ensures TilesAt(base, v')(x, y) == if x == cx then data[y] else TilesAt(base, v)(x, y)
    {
      ColumnHit(base, cx, x, y);
      BurstStep(v, at, 32, data, Cell(base, x, y));
    }
    forall a | 0 <= a < |v| && !(base <= a < base + SCREEN_PAIR)
      ensures v'[a] == v[a]
    {
      ColumnMiss(base, cx, a);
      BurstStep(v, at, 32, data, a);
    }
  }

  lemma ColumnHit(base: nat, cx: nat, x: nat, y: nat)
    requires cx < 64 && x < 64 && y < 32
    ensures var at, a := Cell(base, cx, 0), Cell(base, x, y);
            if x == cx then a >= at && OnStep(a - at, 32) && StepsIn(a - at, 32) == y
            else !(a >= at && OnStep(a - at, 32) && StepsIn(a - at, 32) < 32)
  {
    var d := Cell(base, x, y) - Cell(base, cx, 0);
    var h, l := x / 32 - cx / 32, x % 32 - cx % 32;
    assert d == 32 * (32 * h + y) + l;
    if l >= 0 {
      DivModUnique(d, 32, 32 * h + y, l);
    } else {
      DivModUnique(d, 32, 32 * h + y - 1, l + 32);
    }
  }

  /** No word outside the two screens is in a column. */
  lemma ColumnMiss(base: nat, cx: nat, a: nat)
    requires cx < 64 && !(base <= a < base + SCREEN_PAIR)
    ensures var at := Cell(base, cx, 0);
            !(a >= at && OnStep(a - at, 32) && StepsIn(a - at, 32) < 32)
  {
    var d := a - Cell(base, cx, 0);
    assert d == d / 32 * 32 + d % 32;
  }

  /** What one linear burst of whole rows does, from row cy of the screen that
      holds columns 32 * half .. 32 * half + 31. */
  lemma ScreenBurst(v: seq<Word>, base: nat, half: nat, cy: nat, data: seq<Word>)
    requires |v| == VRAM_WORDS && base + SCREEN_PAIR <= VRAM_WORDS && half < 2 && cy < 32
    requires |data| % 32 == 0 && cy * 32 + |data| <= 1024
    ensures var v' := Burst(v, TmWord(Geom(base, 64, 32), half * 32, cy), 1, data);
            && OnlyOwn(base, v, v')
            && (forall x, y | 0 <= x < 64 && 0 <= y < 32 ::
                  TilesAt(base, v')(x, y) ==
                  if x / 32 == half && cy <= y < cy + |data| / 32 then data[(y - cy) * 32 + x % 32]
                  else TilesAt(base, v)(x, y))
  {
    hide Burst, TmWord;
    TmWordIsCell(base, half * 32, cy);
    var at := Cell(base, half * 32, cy);
    var v' := Burst(v, at, 1, data);
    forall x, y | 0 <= x < 64 && 0 <= y < 32
      ensures TilesAt(base, v')(x, y) ==
              if x / 32 == half && cy <= y < cy + |data| / 32 then data[(y - cy) * 32 + x % 32]
              else TilesAt(base, v)(x, y)
    {
      ScreenHit(base, half, cy, |data| / 32, x, y);
      BurstLands(v, at, 1, data, Cell(base, x, y));
    }
    forall a | 0 <= a < |v| && !(base <= a < base + SCREEN_PAIR)
      ensures v'[a] == v[a]
    {
      BurstLands(v, at, 1, data, a);
    }
  }

  lemma ScreenHit(base: nat, half: nat, cy: nat, rows: nat, x: nat, y: nat)
    requires half < 2 && cy + rows <= 32 && cy < 32 && x < 64 && y < 32
    ensures var at, a := Cell(base, half * 32, cy), Cell(base, x, y);
            if x / 32 == half && cy <= y < cy + rows then a - at == (y - cy) * 32 + x % 32 < rows * 32
            else !(0 <= a - at < rows * 32)
  {}

  /** Writing one cell of a map. */
  lemma TilesUpdate(base: nat, v: seq<Word>, x: nat, y: nat, e: Word)
    requires base + SCREEN_PAIR <= |v| && x < 64 && y < 32
    ensures forall a, b | 0 <= a < 64 && 0 <= b < 32 ::
              TilesAt(base, v[Cell(base, x, y) := e])(a, b) ==
              if a == x && b == y then e else TilesAt(base, v)(a, b)
  {
    var v' := v[Cell(base, x, y) := e];
    forall a, b | 0 <= a < 64 && 0 <= b < 32
      ensures TilesAt(base, v')(a, b) == if a == x && b == y then e else TilesAt(base, v)(a, b)
    {
      CellInverse(base, a, b);
      CellInverse(base, x, y);
      assert TilesAt(base, v')(a, b) == v'[Cell(base, a, b)];
    }
  }

  lemma CellInverse(base: nat, x: nat, y: nat)
    requires x < 64 && y < 32
    ensures var o := Cell(base, x, y) - base;
            0 <= o < SCREEN_PAIR && (o / 0x400) * 32 + o % 32 == x && (o % 0x400) / 32 == y
  {
    var o, inner := Cell(base, x, y) - base, y * 32 + x % 32;
    DivModUnique(o, 0x400, x / 32, inner);
    DivModUnique(inner, 32, y, x % 32);
    DivModUnique(o, 32, (x / 32) * 32 + y, x % 32);
  }

  /** The map's words are determined by its cells. */
  lemma TilesDetermine(base: nat, v: seq<Word>, u: seq<Word>)
    requires |v| == |u| == VRAM_WORDS && base + SCREEN_PAIR <= VRAM_WORDS
    requires forall x, y | 0 <= x < 64 && 0 <= y < 32 :: TilesAt(base, v)(x, y) == TilesAt(base, u)(x, y)
    ensures v[base..base + SCREEN_PAIR] == u[base..base + SCREEN_PAIR]
  {
    forall a | base <= a < base + SCREEN_PAIR
      ensures v[a] == u[a]
    {
      var o := a - base;
      var x, y := (o / 0x400) * 32 + o % 32, (o % 0x400) / 32;
      assert Cell(base, x, y) == a;
      assert TilesAt(base, v)(x, y) == TilesAt(base, u)(x, y);
    }
  }
}
