// The metatile expander: runtime/hx421_metatile.c.
module Metatile {
  import opened Arith

  /** A map layer. `cols`, when present, is the transposed copy of `rows`. */
  datatype MapLayer = MapLayer(
    rows: seq<Word>, cols: Option<seq<Word>>, w: nat, h: nat,
    defs: seq<Word>, defCount: nat, side: nat, oob: Word, wrap: bool)
  {
    predicate Usable() {
      w > 0 && h > 0 && defCount > 0 && side in {2, 4, 8}
    }

    /** The tables have the sizes the header asks of the caller. */
    predicate Stored() {
      && |rows| == w * h
      && (cols.Some? ==> |cols.value| == w * h)
      && |defs| == defCount * (side * side)
    }

    predicate Ready() {
      && Usable() && Stored()
      && (cols.Some? ==> IsTranspose(rows, cols.value, w, h))
    }
  }

  predicate IsTranspose(rows: seq<Word>, cols: seq<Word>, w: nat, h: nat)
    requires |rows| == w * h && |cols| == w * h
  {
    forall x, y | 0 <= x < w && 0 <= y < h :: GridAt(cols, h, w, x, y) == GridAt(rows, w, h, y, x)
  }

  /** Entry (major, minor) of a table with `majors` runs of `minors` entries each. */
  function GridAt(g: seq<Word>, minors: nat, majors: nat, major: nat, minor: nat): Word
    requires |g| == minors * majors || |g| == majors * minors
    requires major < majors && minor < minors
  {
    GridIndex(minor, major, minors, majors);
    g[major * minors + minor]
  }

  /** The entry at tile (tx, ty), read as the C code reads it. */
  function Lookup(L: MapLayer, tx: int, ty: int, preferCols: bool): Word
    requires L.Usable() && L.Stored()
  {
    var mx0 := tx / L.side;
    var my0 := ty / L.side;
    var mx := if L.wrap then CRem(CRem(mx0, L.w) + L.w, L.w) else mx0;
    var my := if L.wrap then CRem(CRem(my0, L.h) + L.h, L.h) else my0;
    WrapIsResidue(mx0, L.w);
    WrapIsResidue(my0, L.h);
    if !L.wrap && (mx < 0 || my < 0 || mx >= L.w || my >= L.h) then L.oob
    else
      var mt := if preferCols && L.cols.Some? then GridAt(L.cols.value, L.h, L.w, mx, my)
                else GridAt(L.rows, L.w, L.h, my, mx);
      if mt >= L.defCount then L.oob
      else
        var sub := (ty % L.side) * L.side + tx % L.side;
        DefIndex(L, mt, tx % L.side, ty % L.side);
        L.defs[mt * (L.side * L.side) + sub]
  }

  lemma DefIndex(L: MapLayer, mt: nat, sx: nat, sy: nat)
    requires L.Usable() && L.Stored() && mt < L.defCount && sx < L.side && sy < L.side
    ensures 0 <= mt * (L.side * L.side) + (sy * L.side + sx) < |L.defs|
  {
    GridIndex(sx, sy, L.side, L.side);
    GridIndex(sy * L.side + sx, mt, L.side * L.side, L.defCount);
  }

  /** What tile (tx, ty) of the world is: the meaning every strip must reproduce. */
  function TileAt(L: MapLayer, tx: int, ty: int): Word
    requires L.Usable() && L.Stored()
  {
    Lookup(L, tx, ty, false)
  }

  /** The place of column x, row y in a table of rows of n. */
  function Place(x: nat, y: nat, n: nat): nat { y * n + x }

  /** Coordinate t lies in metatile m of n, at its tile s, on lap i of the torus; a
      map that does not wrap has the one lap. */
  predicate Lies(L: MapLayer, t: int, n: nat, m: nat, s: nat, i: int) {
    t == (m + i * n) * L.side + s && m < n && s < L.side && (L.wrap || i == 0)
  }

  lemma LiesThere(L: MapLayer, t: int, n: nat, m: nat, s: nat, i: int)
    requires L.Usable() && n > 0 && Lies(L, t, n, m, s, i)
    ensures t / L.side == m + i * n && t % L.side == s
    ensures (t / L.side) % n == m && (!L.wrap ==> t / L.side == m)
  {
    DivModUnique(t, L.side, m + i * n, s);
    DivModUnique(m + i * n, n, i, m);
  }

  /** WHICH TILE IT IS: tile (sx, sy) of the metatile that the map has at (mx, my)
      is entry (sx, sy) of that metatile's definition, row by row, on every lap; a
      metatile without a definition is out of bounds. */
  lemma TileIs(L: MapLayer, tx: int, ty: int, mx: nat, my: nat, sx: nat, sy: nat, i: int, j: int)
    requires L.Usable() && L.Stored() && mx < L.w && my < L.h && sx < L.side && sy < L.side
    requires tx == (mx + i * L.w) * L.side + sx && ty == (my + j * L.h) * L.side + sy
    requires L.wrap || i == j == 0
    ensures my * L.w + mx < |L.rows|
    ensures var mt: nat := L.rows[my * L.w + mx];
            && (mt >= L.defCount ==> TileAt(L, tx, ty) == L.oob)
            && (mt < L.defCount ==>
                  && mt * (L.side * L.side) + (sy * L.side + sx) < |L.defs|
                  && TileAt(L, tx, ty) == L.defs[mt * (L.side * L.side) + (sy * L.side + sx)])
  {
    LiesThere(L, tx, L.w, mx, sx, i);
    LiesThere(L, ty, L.h, my, sy, j);
    GridIndex(mx, my, L.w, L.h);
    var mt: nat := L.rows[Place(mx, my, L.w)];
    if mt < L.defCount {
      DefIndex(L, mt, sx, sy);
    }
    LookupAt(L, tx, ty, mx, my);
  }

  lemma LookupAt(L: MapLayer, tx: int, ty: int, mx: nat, my: nat)
    requires L.Usable() && L.Stored() && mx < L.w && my < L.h
    requires (tx / L.side) % L.w == mx && (ty / L.side) % L.h == my
    requires L.wrap || (tx / L.side == mx && ty / L.side == my)
    ensures Place(mx, my, L.w) < |L.rows|
    ensures var mt: nat := L.rows[Place(mx, my, L.w)];
            && (mt >= L.defCount ==> TileAt(L, tx, ty) == L.oob)
            && (mt < L.defCount ==>
                  && mt * (L.side * L.side) + Place(tx % L.side, ty % L.side, L.side) < |L.defs|
                  && TileAt(L, tx, ty) ==
                     L.defs[mt * (L.side * L.side) + Place(tx % L.side, ty % L.side, L.side)])
  {
    WrapIsResidue(tx / L.side, L.w);
    WrapIsResidue(ty / L.side, L.h);
    GridIndex(mx, my, L.w, L.h);
    var mt: nat := L.rows[Place(mx, my, L.w)];
    if mt < L.defCount {
      DefIndex(L, mt, tx % L.side, ty % L.side);
    }
  }

  /** Off a map that does not wrap everything is out of bounds. */
  lemma OffTheMap(L: MapLayer, tx: int, ty: int)
    requires L.Usable() && L.Stored() && !L.wrap
    requires !(0 <= tx < L.w * L.side && 0 <= ty < L.h * L.side)
    ensures TileAt(L, tx, ty) == L.oob
  {
    OffAxis(tx, L.w, L.side);
    OffAxis(ty, L.h, L.side);
  }

  lemma OffAxis(t: int, n: nat, side: nat)
    requires side > 0
    ensures 0 <= t / side < n ==> 0 <= t < n * side
  {
    var q := t / side;
    assert t == q * side + t % side;
    if 0 <= q < n {
      assert q * side <= (n - 1) * side && (n - 1) * side == n * side - side;
    }
  }

  /** Tile (sx, sy) of the metatile at (mx, my) of the map. */
  ghost predicate IsEntry(L: MapLayer, mx: nat, my: nat, sx: nat, sy: nat, tile: Word) {
    && Place(mx, my, L.w) < |L.rows|
    && var mt: nat := L.rows[Place(mx, my, L.w)];
    if mt >= L.defCount then tile == L.oob
    else
      && mt * (L.side * L.side) + Place(sx, sy, L.side) < |L.defs|
      && tile == L.defs[mt * (L.side * L.side) + Place(sx, sy, L.side)]
  }

  /** What the map, its metatiles and its edges make of tile (tx, ty). */
  ghost predicate IsTile(L: MapLayer, tx: int, ty: int, tile: Word)
    requires L.Usable() && L.Stored()
  {
    && (!L.wrap && !(0 <= tx < L.w * L.side && 0 <= ty < L.h * L.side) ==> tile == L.oob)
    && forall mx: nat, my: nat, sx: nat, sy: nat, i: int, j: int |
         Lies(L, tx, L.w, mx, sx, i) && Lies(L, ty, L.h, my, sy, j) :: IsEntry(L, mx, my, sx, sy, tile)
  }

  lemma TileIsTile(L: MapLayer, tx: int, ty: int)
    requires L.Usable() && L.Stored()
    ensures IsTile(L, tx, ty, TileAt(L, tx, ty))
  {
    hide TileAt, Place;
    if !L.wrap && !(0 <= tx < L.w * L.side && 0 <= ty < L.h * L.side) {
      OffTheMap(L, tx, ty);
    }
    forall mx: nat, my: nat, sx: nat, sy: nat, i: int, j: int |
      Lies(L, tx, L.w, mx, sx, i) && Lies(L, ty, L.h, my, sy, j)
      ensures IsEntry(L, mx, my, sx, sy, TileAt(L, tx, ty))
    {
      OneEntry(L, tx, ty, mx, my, sx, sy, i, j);
    }
    hide Lies, IsEntry;
  }

  lemma OneEntry(L: MapLayer, tx: int, ty: int, mx: nat, my: nat, sx: nat, sy: nat, i: int, j: int)
    requires L.Usable() && L.Stored() && Lies(L, tx, L.w, mx, sx, i) && Lies(L, ty, L.h, my, sy, j)
    ensures IsEntry(L, mx, my, sx, sy, TileAt(L, tx, ty))
  {
    hide TileAt;
    TileIs(L, tx, ty, mx, my, sx, sy, i, j);
  }

  /** No other tile will do. */
  lemma TileIsUnique(L: MapLayer, tx: int, ty: int, tile: Word)
    requires L.Usable() && L.Stored() && IsTile(L, tx, ty, tile)
    ensures tile == TileAt(L, tx, ty)
  {
    TileIsTile(L, tx, ty);
    var mx0, my0 := tx / L.side, ty / L.side;
    if L.wrap || (0 <= mx0 < L.w && 0 <= my0 < L.h) {
      SomewhereOn(L, tx, L.w);
      SomewhereOn(L, ty, L.h);
      var i, j := if L.wrap then mx0 / L.w else 0, if L.wrap then my0 / L.h else 0;
      assert Lies(L, tx, L.w, mx0 - i * L.w, tx % L.side, i) && Lies(L, ty, L.h, my0 - j * L.h, ty % L.side, j);
    } else {
      OffAxisBack(tx, L.w, L.side);
      OffAxisBack(ty, L.h, L.side);
    }
  }

  lemma OffAxisBack(t: int, n: nat, side: nat)
    requires side > 0
    ensures 0 <= t < n * side ==> 0 <= t / side < n
  {
    var q := t / side;
    assert t == q * side + t % side;
    if q >= n {
      assert q * side >= n * side;
    }
  }

  lemma SomewhereOn(L: MapLayer, t: int, n: nat)
    requires L.Usable() && n > 0 && (L.wrap || 0 <= t / L.side < n)
    ensures var i := if L.wrap then t / L.side / n else 0;
            0 <= t / L.side - i * n && Lies(L, t, n, t / L.side - i * n, t % L.side, i)
  {
    var q := t / L.side;
    assert t == q * L.side + t % L.side;
    assert q == q / n * n + q % n;
  }

  /** The transposed copy and the row-major map describe the same world. */
  lemma TransposedAgrees(L: MapLayer, tx: int, ty: int)
    requires L.Ready()
    ensures Lookup(L, tx, ty, true) == TileAt(L, tx, ty)
  {
    WrapIsResidue(tx / L.side, L.w);
    WrapIsResidue(ty / L.side, L.h);
  }

  /** On a torus the world repeats every `w * side` by `h * side` tiles, for
      coordinates of either sign. */
  lemma {:induction false} TorusPeriod(L: MapLayer, tx: int, ty: int, i: int, j: int)
    requires L.Ready() && L.wrap
    ensures TileAt(L, tx + i * (L.w * L.side), ty + j * (L.h * L.side)) == TileAt(L, tx, ty)
  {
    AxisPeriod(tx, L.w, L.side, i);
    AxisPeriod(ty, L.h, L.side, j);
    WrapIsResidue((tx + i * (L.w * L.side)) / L.side, L.w);
    WrapIsResidue((ty + j * (L.h * L.side)) / L.side, L.h);
    WrapIsResidue(tx / L.side, L.w);
    WrapIsResidue(ty / L.side, L.h);
  }

  lemma AxisPeriod(t: int, n: nat, side: nat, i: int)
    requires n > 0 && side > 0
    ensures ((t + i * (n * side)) / side) % n == (t / side) % n
    ensures (t + i * (n * side)) % side == t % side
  {
    assert t + i * (n * side) == t + (i * n) * side;
    ModShift(t, side, i * n);
    ModShift(t / side, n, i);
  }

  /** Build the transposed copy of a row-major map. */
  method Transpose(src: seq<Word>, w: nat, h: nat, dst: array<Word>)
    requires |src| == w * h && dst.Length == w * h
    modifies dst
    ensures IsTranspose(src, dst[..], w, h)
  {
    var y := 0;
    while y < h
      invariant 0 <= y <= h
      invariant forall x, v | 0 <= x < w && 0 <= v < y :: GridAt(dst[..], h, w, x, v) == GridAt(src, w, h, v, x)
    {
      var x := 0;
      while x < w
        invariant 0 <= x <= w
        invariant forall u, v | 0 <= u < w && 0 <= v < y :: GridAt(dst[..], h, w, u, v) == GridAt(src, w, h, v, u)
        invariant forall u | 0 <= u < x :: GridAt(dst[..], h, w, u, y) == GridAt(src, w, h, y, u)
      {
        GridIndex(x, y, w, h);
        GridIndex(y, x, h, w);
        ghost var before := dst[..];
        dst[x * h + y] := src[y * w + x];
        forall u, v | 0 <= u < w && 0 <= v < h && !(u == x && v == y)
          ensures GridAt(dst[..], h, w, u, v) == GridAt(before, h, w, u, v)
        {
          GridIndex(v, u, h, w);
        }
        x := x + 1;
      }
      y := y + 1;
    }
  }

  /** Expand a vertical strip, through the transposed copy when there is one. */
  method Column(L: MapLayer, tx: int, ty0: int, count: int, out: array<Word>)
    requires L.Usable() ==> L.Ready()
    requires count <= out.Length
    modifies out
    ensures L.Usable() ==> forall i | 0 <= i < count :: out[i] == TileAt(L, tx, ty0 + i)
    ensures L.Usable() ==> forall i | 0 <= i < count :: IsTile(L, tx, ty0 + i, out[i])
    ensures !L.Usable() ==> out[..] == old(out[..])
    ensures count >= 0 ==> out[count..] == old(out[count..])
  {
    if count <= 0 || !L.Usable() { return; }
    var i := 0;
    while i < count
      invariant 0 <= i <= count
      invariant forall k | 0 <= k < i :: out[k] == TileAt(L, tx, ty0 + k) && IsTile(L, tx, ty0 + k, out[k])
      invariant out[count..] == old(out[count..])
    {
      TransposedAgrees(L, tx, ty0 + i);
      TileIsTile(L, tx, ty0 + i);
      hide IsTile, TileAt, Lookup;
      out[i] := Lookup(L, tx, ty0 + i, true);
      i := i + 1;
    }
  }

  /** Expand a horizontal strip, always from the row-major map. */
  method Row(L: MapLayer, ty: int, tx0: int, count: int, out: array<Word>)
    requires L.Usable() ==> L.Stored()
    requires count <= out.Length
    modifies out
    ensures L.Usable() ==> forall i | 0 <= i < count :: out[i] == TileAt(L, tx0 + i, ty)
    ensures L.Usable() ==> forall i | 0 <= i < count :: IsTile(L, tx0 + i, ty, out[i])
    ensures !L.Usable() ==> out[..] == old(out[..])
    ensures count >= 0 ==> out[count..] == old(out[count..])
  {
    if count <= 0 || !L.Usable() { return; }
    var i := 0;
    while i < count
      invariant 0 <= i <= count
      invariant forall k | 0 <= k < i :: out[k] == TileAt(L, tx0 + k, ty) && IsTile(L, tx0 + k, ty, out[k])
      invariant out[count..] == old(out[count..])
    {
      TileIsTile(L, tx0 + i, ty);
      assert Lookup(L, tx0 + i, ty, false) == TileAt(L, tx0 + i, ty);
      hide IsTile, TileAt, Lookup;
      out[i] := Lookup(L, tx0 + i, ty, false);
      i := i + 1;
    }
  }
}
