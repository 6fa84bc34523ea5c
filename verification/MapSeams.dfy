// Which tile strips a layer move emits, and why they keep the tilemap a
// correct cache of the world: runtime/hx421_runtime.c, hx_map_seed_layer and
// hx_map_layer_goto, seen as values.
module MapSeams {
  import opened Arith
  import opened Metatile
  import opened Vram

  const MAX_COLS: int := 8
  const MAX_ROWS: int := 4

  /** The tile at every world coordinate; for a layer, `WorldOf` below. */
  type World = (int, int) -> Word

  function WorldOf(L: MapLayer): World
    requires L.Ready()
  {
    (tx, ty) => TileAt(L, tx, ty)
  }

  /** MapLayerRT: a layer's VRAM home, its camera and its valid window. */
  datatype LayerState = LayerState(
    base: nat, camX: int, camY: int,
    winL: int, winT: int, seeded: bool, wantReseed: bool)
  {
    predicate Ready() {
      base + SCREEN_PAIR <= VRAM_WORDS
    }

    predicate Stale() { !seeded || wantReseed }
  }

  function WantL(nx: int): int { nx / 8 - 16 }
  function WantT(ny: int): int { ny / 8 - 2 }
  function Abs(n: int): nat { if n >= 0 then n else -n }

  predicate NeedsReseed(s: LayerState, nx: int, ny: int) {
    || !s.seeded || s.wantReseed
    || WantL(nx) - s.winL > MAX_COLS || WantL(nx) - s.winL < -MAX_COLS
    || WantT(ny) - s.winT > MAX_ROWS || WantT(ny) - s.winT < -MAX_ROWS
  }

  /** The one coordinate in lo .. lo + n - 1 whose residue is k. */
  function Onto(lo: int, k: int, n: int): (r: int)
    requires n > 0 && 0 <= k < n
    ensures lo <= r < lo + n && r % n == k
  {
    ModShift(lo + (k - lo) % n, n, (k - lo) / n);
    assert lo + (k - lo) % n + (k - lo) / n * n == k;
    DivModUnique(k, n, 0, k);
    lo + (k - lo) % n
  }

  lemma OntoIs(lo: int, n: int, c: int)
    requires n > 0 && lo <= c < lo + n
    ensures 0 <= c % n < n && Onto(lo, c % n, n) == c
  {
    SameResidueNear(Onto(lo, c % n, n), c, n);
  }

  // ---- the strips ----

  function ColumnData(w: World, tx: int, t: int): (d: seq<Word>)
    ensures |d| == 32
  {
    seq(32, y requires 0 <= y < 32 => w(tx, Onto(t, y, 32)))
  }

  function RowData(w: World, ty: int, l: int, half: nat): (d: seq<Word>)
    requires half < 2
    ensures |d| == 32
  {
    seq(32, x requires 0 <= x < 32 => w(Onto(l, half * 32 + x, 64), ty))
  }

  function SeedData(w: World, l: int, t: int, half: nat): (d: seq<Word>)
    requires half < 2
    ensures |d| == 1024
  {
    seq(1024, i requires 0 <= i < 1024 =>
      w(Onto(l, half * 32 + i % 32, 64), Onto(t, i / 32, 32)))
  }

  function Home(base: nat): Geom { Geom(base, 64, 32) }

  function ColumnStrip(w: World, s: LayerState, tx: int, t: int): Strip
    requires s.Ready()
  {
    Strip(TmWord(Home(s.base), tx % 64, 0), 32, ColumnData(w, tx, t))
  }

  function RowStrip(w: World, s: LayerState, ty: int, l: int, half: nat): Strip
    requires s.Ready() && half < 2
  {
    Strip(TmWord(Home(s.base), half * 32, ty % 32), 1, RowData(w, ty, l, half))
  }

  function SeedStrip(w: World, s: LayerState, l: int, t: int, half: nat): Strip
    requires s.Ready() && half < 2
  {
    Strip(TmWord(Home(s.base), half * 32, 0), 1, SeedData(w, l, t, half))
  }

  /** The k-th column to enter when the left edge moves by dl. */
  function EnteringColumn(l: int, dl: int, k: nat): int {
    if dl > 0 then l + 64 + k else l - 1 - k
  }

  function EnteringRow(t: int, dt: int, k: nat): int {
    if dt > 0 then t + 32 + k else t - 1 - k
  }

  /** The first k column strips; each spans the new vertical window. */
  function Columns(w: World, s: LayerState, dl: int, wantT: int, k: nat): (ss: seq<Strip>)
    requires s.Ready()
    ensures |ss| == k
  {
    if k == 0 then []
    else Columns(w, s, dl, wantT, k - 1) + [ColumnStrip(w, s, EnteringColumn(s.winL, dl, k - 1), wantT)]
  }

  /** The first k rows, two strips each; each spans the new horizontal window. */
  function Rows(w: World, s: LayerState, dt: int, wantL: int, k: nat): (ss: seq<Strip>)
    requires s.Ready()
    ensures |ss| == 2 * k
  {
    if k == 0 then []
    else
      var ty := EnteringRow(s.winT, dt, k - 1);
      Rows(w, s, dt, wantL, k - 1) + [RowStrip(w, s, ty, wantL, 0), RowStrip(w, s, ty, wantL, 1)]
  }

  datatype Moved = Moved(state: LayerState, reseedsLeft: int, strips: seq<Strip>)

  /** Put a layer at (nx, ny): the new state, the remaining reseed budget, and
      the strips that follow. */
  function Goto(w: World, s: LayerState, nx: int, ny: int, reseedsLeft: int): (m: Moved)
    requires s.Ready()
    ensures m.state.base == s.base
  {
    var s1 := s.(camX := nx, camY := ny);
    if NeedsReseed(s, nx, ny) then
      if reseedsLeft <= 0 then Moved(s1.(wantReseed := true), reseedsLeft, [])
      else
        Moved(s1.(winL := WantL(nx), winT := WantT(ny), seeded := true, wantReseed := false),
              reseedsLeft - 1,
              [SeedStrip(w, s, WantL(nx), WantT(ny), 0), SeedStrip(w, s, WantL(nx), WantT(ny), 1)])
    else
      var dl := WantL(nx) - s.winL;
      var dt := WantT(ny) - s.winT;
      Moved(s1.(winL := WantL(nx), winT := WantT(ny)), reseedsLeft,
            Columns(w, s, dl, WantT(ny), Abs(dl)) + Rows(w, s, dt, WantL(nx), Abs(dt)))
  }

  lemma WantIs(nx: int, ny: int, c: int, r: int)
    requires 8 * c <= nx < 8 * c + 8 && 8 * r <= ny < 8 * r + 8
    ensures WantL(nx) == c - 16 && WantT(ny) == r - 2
  {}

  /** WHAT A MOVE DOES, with the camera's corner in tile (c, r): a layer whose window
      lies within 8 columns and 4 rows of its new place, 16 tiles left of the camera
      and 2 above it, gets as many strips as columns and twice as many as rows enter;
      any other is filled anew as long as the budget lasts, and waits when it is spent. */
  lemma GotoIs(w: World, s: LayerState, nx: int, ny: int, left: int, c: int, r: int)
    requires s.Ready() && 8 * c <= nx < 8 * c + 8 && 8 * r <= ny < 8 * r + 8
    ensures var m, dl, dt := Goto(w, s, nx, ny, left), c - 16 - s.winL, r - 2 - s.winT;
            var near := s.seeded && !s.wantReseed && -8 <= dl <= 8 && -4 <= dt <= 4;
            && (near ==>
                  && m.state == s.(camX := nx, camY := ny, winL := c - 16, winT := r - 2)
                  && m.reseedsLeft == left
                  && |m.strips| == (if dl < 0 then -dl else dl) + 2 * (if dt < 0 then -dt else dt))
            && (!near && left > 0 ==>
                  && m.state ==
                     s.(camX := nx, camY := ny, winL := c - 16, winT := r - 2, seeded := true, wantReseed := false)
                  && m.reseedsLeft == left - 1 && |m.strips| == 2)
            && (!near && left <= 0 ==>
                  && m.state == s.(camX := nx, camY := ny, wantReseed := true)
                  && m.reseedsLeft == left && m.strips == [])
  {
    WantIs(nx, ny, c, r);
    hide WantL, WantT, Columns, Rows, SeedStrip;
  }

  // ---- coherence ----

  /** Columns l .. l+63 and rows lo .. hi-1 of the world sit in their cells. */
  ghost predicate Cached(w: World, g: Tiles, l: int, lo: int, hi: int)
  {
    forall c, r {:trigger w(c, r)} | l <= c < l + 64 && lo <= r < hi :: g(c % 64, r % 32) == w(c, r)
  }

  /** The layer's whole window is cached. */
  ghost predicate Coherent(w: World, s: LayerState, v: seq<Word>)
    requires s.Ready() && |v| == VRAM_WORDS
  {
    Cached(w, TilesAt(s.base, v), s.winL, s.winT, s.winT + 32)
  }

  /** What a column strip leaves in each cell. */
  lemma ColumnStripCells(w: World, s: LayerState, v: seq<Word>, tx: int, t: int)
    requires s.Ready() && |v| == VRAM_WORDS
    ensures var v' := Apply(v, ColumnStrip(w, s, tx, t));
            && OnlyOwn(s.base, v, v')
            && forall x, y | 0 <= x < 64 && 0 <= y < 32 ::
                 TilesAt(s.base, v')(x, y) ==
                 if x == tx % 64 then w(tx, Onto(t, y, 32)) else TilesAt(s.base, v)(x, y)
  {
    ColumnBurst(v, s.base, tx % 64, ColumnData(w, tx, t));
  }

  lemma RowStripHalf(w: World, s: LayerState, v: seq<Word>, ty: int, l: int, half: nat)
    requires s.Ready() && |v| == VRAM_WORDS && half < 2
    ensures var v' := Apply(v, RowStrip(w, s, ty, l, half));
            && OnlyOwn(s.base, v, v')
            && forall x, y | 0 <= x < 64 && 0 <= y < 32 ::
                 TilesAt(s.base, v')(x, y) ==
                 if x / 32 == half && y == ty % 32 then w(Onto(l, x, 64), ty) else TilesAt(s.base, v)(x, y)
  {
    var d := RowData(w, ty, l, half);
    ScreenBurst(v, s.base, half, ty % 32, d);
    hide OnlyOwn, TilesAt, Onto, RowData, Burst, TmWord;
    var v' := Apply(v, RowStrip(w, s, ty, l, half));
    forall x, y | 0 <= x < 64 && 0 <= y < 32
      ensures TilesAt(s.base, v')(x, y) ==
              if x / 32 == half && y == ty % 32 then w(Onto(l, x, 64), ty) else TilesAt(s.base, v)(x, y)
    {
      if x / 32 == half && y == ty % 32 {
        RowDatum(w, ty, l, half, x);
      }
    }
  }

  lemma RowDatum(w: World, ty: int, l: int, half: nat, x: nat)
    requires half < 2 && x < 64 && x / 32 == half
    ensures RowData(w, ty, l, half)[x % 32] == w(Onto(l, x, 64), ty)
  {
    assert half * 32 + x % 32 == x;
  }

  /** What both strips of a row leave in each cell. */
  lemma RowStripCells(w: World, s: LayerState, v: seq<Word>, ty: int, l: int)
    requires s.Ready() && |v| == VRAM_WORDS
    ensures var v' := Apply(Apply(v, RowStrip(w, s, ty, l, 0)), RowStrip(w, s, ty, l, 1));
            && OnlyOwn(s.base, v, v')
            && forall x, y | 0 <= x < 64 && 0 <= y < 32 ::
                 TilesAt(s.base, v')(x, y) ==
                 if y == ty % 32 then w(Onto(l, x, 64), ty) else TilesAt(s.base, v)(x, y)
  {
    RowStripHalf(w, s, v, ty, l, 0);
    RowStripHalf(w, s, Apply(v, RowStrip(w, s, ty, l, 0)), ty, l, 1);
  }

  /** One entering column slides the window one column to the right or the left. */
  lemma ColumnSlides(w: World, g: Tiles, g': Tiles, l: int, tx: int, l': int, t: int, lo: int, hi: int)
    requires (tx == l + 64 && l' == l + 1) || (tx == l - 1 && l' == l - 1)
    requires t <= lo && hi <= t + 32
    requires Cached(w, g, l, lo, hi)
    requires forall x, y | 0 <= x < 64 && 0 <= y < 32 ::
               g'(x, y) == if x == tx % 64 then w(tx, Onto(t, y, 32)) else g(x, y)
    ensures Cached(w, g', l', lo, hi)
  {
    forall c, r | l' <= c < l' + 64 && lo <= r < hi
      ensures g'(c % 64, r % 32) == w(c, r)
    {
      if c == tx {
        OntoIs(t, 32, r);
      } else {
        if c % 64 == tx % 64 {
          SameResidueNear(c, tx, 64);
        }
        assert g(c % 64, r % 32) == w(c, r);
      }
    }
  }

  /** One entering row adds itself to the band of cached rows. */
  lemma RowExtends(w: World, g: Tiles, g': Tiles, l: int, lo: int, hi: int, ty: int)
    requires lo <= hi && hi - lo < 32 && (ty == hi || ty == lo - 1)
    requires Cached(w, g, l, lo, hi)
    requires forall x, y | 0 <= x < 64 && 0 <= y < 32 ::
               g'(x, y) == if y == ty % 32 then w(Onto(l, x, 64), ty) else g(x, y)
    ensures Cached(w, g', l, if ty == hi then lo else ty, if ty == hi then hi + 1 else hi)
  {
    forall c, r | l <= c < l + 64 && (lo <= r < hi || r == ty)
      ensures g'(c % 64, r % 32) == w(c, r)
    {
      OntoIs(l, 64, c);
      if r != ty {
        assert r % 32 != ty % 32;
        assert g(c % 64, r % 32) == w(c, r);
      }
    }
  }

  lemma OwnTwice(base: nat, v: seq<Word>, v1: seq<Word>, v2: seq<Word>)
    requires OnlyOwn(base, v, v1) && OnlyOwn(base, v1, v2)
    ensures OnlyOwn(base, v, v2)
  {}

  lemma {:induction false} ColumnsSlide(w: World, s: LayerState, v: seq<Word>, dl: int, t: int, lo: int, hi: int,
                                        k: nat)
    requires s.Ready() && |v| == VRAM_WORDS
    requires t <= lo && hi <= t + 32
    requires Cached(w, TilesAt(s.base, v), s.winL, lo, hi)
    ensures var v' := ApplyAll(v, Columns(w, s, dl, t, k));
            && Cached(w, TilesAt(s.base, v'), if dl > 0 then s.winL + k else s.winL - k, lo, hi)
            && OnlyOwn(s.base, v, v')
  {
    if k == 0 {
    } else {
      hide TilesAt, Cached, Apply, OnlyOwn;
      ColumnsSlide(w, s, v, dl, t, lo, hi, k - 1);
      var v1 := ApplyAll(v, Columns(w, s, dl, t, k - 1));
      var tx := EnteringColumn(s.winL, dl, k - 1);
      var l := if dl > 0 then s.winL + (k - 1) else s.winL - (k - 1);
      var v2 := Apply(v1, ColumnStrip(w, s, tx, t));
      ColumnStripCells(w, s, v1, tx, t);
      ColumnSlides(w, TilesAt(s.base, v1), TilesAt(s.base, v2), l, tx, if dl > 0 then l + 1 else l - 1, t, lo, hi);
      assert Columns(w, s, dl, t, k)[..k - 1] == Columns(w, s, dl, t, k - 1);
      OwnTwice(s.base, v, v1, v2);
    }
  }

  /** One more row, in its two strips. */
  lemma OneRowExtends(w: World, s: LayerState, v: seq<Word>, ty: int, l: int, lo: int, hi: int)
    requires s.Ready() && |v| == VRAM_WORDS && lo <= hi && hi - lo < 32 && (ty == hi || ty == lo - 1)
    requires Cached(w, TilesAt(s.base, v), l, lo, hi)
    ensures var v' := ApplyAll(v, [RowStrip(w, s, ty, l, 0), RowStrip(w, s, ty, l, 1)]);
            && Cached(w, TilesAt(s.base, v'), l, if ty == hi then lo else ty, if ty == hi then hi + 1 else hi)
            && OnlyOwn(s.base, v, v')
  {
    var a, b := RowStrip(w, s, ty, l, 0), RowStrip(w, s, ty, l, 1);
    ApplyTwo(v, a, b);
    RowStripCells(w, s, v, ty, l);
    hide TilesAt, Cached, Apply, RowStrip, OnlyOwn, ApplyAll;
    RowExtends(w, TilesAt(s.base, v), TilesAt(s.base, Apply(Apply(v, a), b)), l, lo, hi, ty);
  }

  lemma {:induction false} RowsExtend(w: World, s: LayerState, v: seq<Word>, dt: int, l: int, lo: int, hi: int, k: nat)
    requires s.Ready() && |v| == VRAM_WORDS
    requires lo <= hi && hi - lo + k <= 32
    requires if dt > 0 then hi == s.winT + 32 else lo == s.winT
    requires Cached(w, TilesAt(s.base, v), l, lo, hi)
    ensures var v' := ApplyAll(v, Rows(w, s, dt, l, k));
            && Cached(w, TilesAt(s.base, v'), l, if dt > 0 then lo else lo - k, if dt > 0 then hi + k else hi)
            && OnlyOwn(s.base, v, v')
  {
    if k == 0 {
    } else {
      hide TilesAt, Cached, ApplyAll, RowStrip, OnlyOwn;
      RowsExtend(w, s, v, dt, l, lo, hi, k - 1);
      var ty := EnteringRow(s.winT, dt, k - 1);
      var done := Rows(w, s, dt, l, k - 1);
      var v1 := ApplyAll(v, done);
      var pair := [RowStrip(w, s, ty, l, 0), RowStrip(w, s, ty, l, 1)];
      OneRowExtends(w, s, v1, ty, l, if dt > 0 then lo else lo - (k - 1), if dt > 0 then hi + (k - 1) else hi);
      ApplyAllConcat(v, done, pair);
      OwnTwice(s.base, v, v1, ApplyAll(v1, pair));
    }
  }

  lemma SeedEntry(w: World, l: int, t: int, half: nat, x: nat, y: nat)
    requires half < 2 && x < 32 && y < 32
    ensures SeedData(w, l, t, half)[y * 32 + x] == w(Onto(l, half * 32 + x, 64), Onto(t, y, 32))
  {
    DivModUnique(y * 32 + x, 32, y, x);
  }

  lemma SeedStripIsBurst(w: World, s: LayerState, v: seq<Word>, l: int, t: int, half: nat)
    requires s.Ready() && half < 2
    ensures Apply(v, SeedStrip(w, s, l, t, half)) ==
            Burst(v, TmWord(Geom(s.base, 64, 32), half * 32, 0), 1, SeedData(w, l, t, half))
  {}

  lemma SeedHalf(w: World, s: LayerState, v: seq<Word>, l: int, t: int, half: nat)
    requires s.Ready() && |v| == VRAM_WORDS && half < 2
    ensures var v' := Apply(v, SeedStrip(w, s, l, t, half));
            && OnlyOwn(s.base, v, v')
            && forall x, y | 0 <= x < 64 && 0 <= y < 32 ::
                 TilesAt(s.base, v')(x, y) ==
                 if x / 32 == half then w(Onto(l, x, 64), Onto(t, y, 32)) else TilesAt(s.base, v)(x, y)
  {
    hide Apply, SeedStrip, Burst, TmWord, SeedData, TilesAt, Onto, OnlyOwn;
    var data := SeedData(w, l, t, half);
    SeedStripIsBurst(w, s, v, l, t, half);
    ScreenBurst(v, s.base, half, 0, data);
    var v' := Apply(v, SeedStrip(w, s, l, t, half));
    forall x, y | 0 <= x < 64 && 0 <= y < 32
      ensures TilesAt(s.base, v')(x, y) ==
              if x / 32 == half then w(Onto(l, x, 64), Onto(t, y, 32)) else TilesAt(s.base, v)(x, y)
    {
      if x / 32 == half {
        SeedEntry(w, l, t, half, x % 32, y);
        assert half * 32 + x % 32 == x;
        assert TilesAt(s.base, v')(x, y) == data[(y - 0) * 32 + x % 32];
      }
    }
  }

  /** A reseed caches the whole new window whatever VRAM held. */
  lemma SeedCaches(w: World, s: LayerState, v: seq<Word>, l: int, t: int)
    requires s.Ready() && |v| == VRAM_WORDS
    ensures var v' := ApplyAll(v, [SeedStrip(w, s, l, t, 0), SeedStrip(w, s, l, t, 1)]);
            && Cached(w, TilesAt(s.base, v'), l, t, t + 32)
            && OnlyOwn(s.base, v, v')
  {
    var a, b := SeedStrip(w, s, l, t, 0), SeedStrip(w, s, l, t, 1);
    ApplyTwo(v, a, b);
    SeedHalf(w, s, v, l, t, 0);
    SeedHalf(w, s, Apply(v, a), l, t, 1);
    var g := TilesAt(s.base, Apply(Apply(v, a), b));
    forall c, r | l <= c < l + 64 && t <= r < t + 32
      ensures g(c % 64, r % 32) == w(c, r)
    {
      OntoIs(l, 64, c);
      OntoIs(t, 32, r);
    }
  }

  lemma CachedLess(w: World, g: Tiles, l: int, lo: int, hi: int, lo': int, hi': int)
    requires Cached(w, g, l, lo, hi) && lo <= lo' && hi' <= hi
    ensures Cached(w, g, l, lo', hi')
  {}

  /** The incremental half of a move. */
  lemma SeamsCache(w: World, s: LayerState, v: seq<Word>, l': int, t': int)
    requires s.Ready() && |v| == VRAM_WORDS && Coherent(w, s, v)
    requires -32 <= t' - s.winT <= 32
    ensures var dl, dt := l' - s.winL, t' - s.winT;
            var v' := ApplyAll(v, Columns(w, s, dl, t', Abs(dl)) + Rows(w, s, dt, l', Abs(dt)));
            && Cached(w, TilesAt(s.base, v'), l', t', t' + 32)
            && OnlyOwn(s.base, v, v')
  {
    var dl, dt := l' - s.winL, t' - s.winT;
    var lo := if dt > 0 then t' else s.winT;
    var hi := if dt > 0 then s.winT + 32 else t' + 32;
    var cs, rs := Columns(w, s, dl, t', Abs(dl)), Rows(w, s, dt, l', Abs(dt));
    CachedLess(w, TilesAt(s.base, v), s.winL, s.winT, s.winT + 32, lo, hi);
    hide Columns, Rows, TilesAt, Cached, Coherent, ApplyAll, OnlyOwn;
    ColumnsSlide(w, s, v, dl, t', lo, hi, Abs(dl));
    assert lo <= hi && hi - lo + Abs(dt) <= 32;
    RowsExtend(w, s, ApplyAll(v, cs), dt, l', lo, hi, Abs(dt));
    ApplyAllConcat(v, cs, rs);
    OwnTwice(s.base, v, ApplyAll(v, cs), ApplyAll(ApplyAll(v, cs), rs));
  }

  lemma SeamMoveKeepsCoherence(w: World, s: LayerState, v: seq<Word>, nx: int, ny: int, reseedsLeft: int)
    requires s.Ready() && |v| == VRAM_WORDS && Coherent(w, s, v)
    requires !NeedsReseed(s, nx, ny)
    ensures var m := Goto(w, s, nx, ny, reseedsLeft);
            var v' := ApplyAll(v, m.strips);
            m.state.Ready() && Coherent(w, m.state, v') && OnlyOwn(s.base, v, v')
  {
    hide Columns, Rows, ApplyAll, Cached;
    SeamsCache(w, s, v, WantL(nx), WantT(ny));
  }

  lemma ReseedKeepsCoherence(w: World, s: LayerState, v: seq<Word>, nx: int, ny: int, reseedsLeft: int)
    requires s.Ready() && |v| == VRAM_WORDS
    requires NeedsReseed(s, nx, ny) && reseedsLeft > 0
    ensures var m := Goto(w, s, nx, ny, reseedsLeft);
            var v' := ApplyAll(v, m.strips);
            m.state.Ready() && Coherent(w, m.state, v') && OnlyOwn(s.base, v, v')
  {
    SeedCaches(w, s, v, WantL(nx), WantT(ny));
  }

  /** THE STEP: whatever the move, a seeded layer that was coherent is coherent
      after its strips are sent, and no word outside its own screens changes. */
  lemma GotoKeepsCoherence(w: World, s: LayerState, v: seq<Word>, nx: int, ny: int, reseedsLeft: int)
    requires s.Ready() && |v| == VRAM_WORDS
    requires s.seeded ==> Coherent(w, s, v)
    ensures var m := Goto(w, s, nx, ny, reseedsLeft);
            var v' := ApplyAll(v, m.strips);
            && m.state.Ready()
            && (m.state.seeded ==> Coherent(w, m.state, v'))
            && OnlyOwn(s.base, v, v')
  {
    if !NeedsReseed(s, nx, ny) {
      SeamMoveKeepsCoherence(w, s, v, nx, ny, reseedsLeft);
    } else if reseedsLeft > 0 {
      ReseedKeepsCoherence(w, s, v, nx, ny, reseedsLeft);
    }
  }

  /** Every cell of the map holds exactly one tile of the window, so two
      coherent tilemaps with the same window are equal word for word. */
  lemma CoherentIsUnique(w: World, s: LayerState, v: seq<Word>, u: seq<Word>)
    requires s.Ready() && |v| == |u| == VRAM_WORDS
    requires Coherent(w, s, v) && Coherent(w, s, u)
    ensures v[s.base..s.base + SCREEN_PAIR] == u[s.base..s.base + SCREEN_PAIR]
  {
    forall x, y | 0 <= x < 64 && 0 <= y < 32
      ensures TilesAt(s.base, v)(x, y) == TilesAt(s.base, u)(x, y)
    {
      var c, r := Onto(s.winL, x, 64), Onto(s.winT, y, 32);
      assert TilesAt(s.base, v)(c % 64, r % 32) == w(c, r);
    }
    TilesDetermine(s.base, v, u);
  }

  /** Seams refine reseeding: the strips of any move that stays within the seam
      limits leave the same VRAM, word for word, as a full reseed at the new camera. */
  lemma SeamsEqualReseed(w: World, s: LayerState, v: seq<Word>, nx: int, ny: int)
    requires s.Ready() && |v| == VRAM_WORDS && Coherent(w, s, v)
    requires !NeedsReseed(s, nx, ny)
    ensures ApplyAll(v, Goto(w, s, nx, ny, 1).strips) ==
            ApplyAll(v, Goto(w, s.(wantReseed := true), nx, ny, 1).strips)
  {
    hide Columns, Rows, SeedStrip, ApplyAll, Cached, OnlyOwn, TilesAt;
    var s0 := s.(wantReseed := true);
    var slid := Goto(w, s, nx, ny, 1);
    var a, b := ApplyAll(v, slid.strips), ApplyAll(v, Goto(w, s0, nx, ny, 1).strips);
    GotoKeepsCoherence(w, s0, v, nx, ny, 1);
    GotoKeepsCoherence(w, s, v, nx, ny, 1);
    CoherentIsUnique(w, slid.state, a, b);
    SameAllOver(s.base, v, a, b);
  }

  lemma SameAllOver(base: nat, v: seq<Word>, a: seq<Word>, b: seq<Word>)
    requires OnlyOwn(base, v, a) && OnlyOwn(base, v, b) && base + SCREEN_PAIR <= |v|
    requires a[base..base + SCREEN_PAIR] == b[base..base + SCREEN_PAIR]
    ensures a == b
  {
    forall i | 0 <= i < |v|
      ensures a[i] == b[i]
    {
      if base <= i < base + SCREEN_PAIR {
        assert a[base..base + SCREEN_PAIR][i - base] == b[base..base + SCREEN_PAIR][i - base];
      }
    }
  }
}
