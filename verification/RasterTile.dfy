// Rasterising one tile: running edge accumulators, depth test, pixel writes.
// runtime/hx421_raster.c.
module TileRaster {
  import opened Arith
  import Counting
  import opened RasterGeometry

  /** The tile's two buffers, pixel by pixel. */
  function Buffers(idx: seq<Color>, zbuf: seq<Depth>): (s: seq<Pix>)
    requires |idx| == |zbuf| == TPIX
    ensures |s| == TPIX
  {
    seq(TPIX, o requires 0 <= o < TPIX && |idx| == |zbuf| == TPIX => Pix(zbuf[o], idx[o]))
  }

  /** The first k pixels with triangle t drawn over them. */
  function Drawn(t: Tri, tx: int, ty: int, s: seq<Pix>, k: nat): (r: seq<Pix>)
    requires |s| == TPIX
    ensures |r| == TPIX
  {
    seq(TPIX, o requires 0 <= o < TPIX => if o < k then Draw(t, Centre(tx, ty, o), s[o]) else s[o])
  }

  /** How many of the first k pixels t wins. */
  function CountWins(t: Tri, tx: int, ty: int, s: seq<Pix>, k: nat): nat
    requires |s| == TPIX && k <= TPIX
  {
    if k == 0 then 0 else CountWins(t, tx, ty, s, k - 1) + if Wins(t, Centre(tx, ty, k - 1), s[k - 1]) then 1 else 0
  }

  /** The whole tile after the first n triangles. */
  function Shaded(tris: seq<Tri>, n: nat, tx: int, ty: int, s: seq<Pix>): (r: seq<Pix>)
    requires |s| == TPIX && n <= |tris|
    ensures |r| == TPIX
  {
    seq(TPIX, o requires 0 <= o < TPIX => Shade(tris, n, Centre(tx, ty, o), s[o]))
  }

  function CountAll(tris: seq<Tri>, n: nat, tx: int, ty: int, s: seq<Pix>): nat
    requires |s| == TPIX && n <= |tris|
  {
    if n == 0 then 0
    else CountAll(tris, n - 1, tx, ty, s) + CountWins(tris[n - 1], tx, ty, Shaded(tris, n - 1, tx, ty, s), TPIX)
  }

  lemma ShadedNext(tris: seq<Tri>, n: nat, tx: int, ty: int, s: seq<Pix>)
    requires |s| == TPIX && n < |tris|
    ensures Shaded(tris, n + 1, tx, ty, s) == Drawn(tris[n], tx, ty, Shaded(tris, n, tx, ty, s), TPIX)
  {
    hide Draw;
    var a, b := Shaded(tris, n + 1, tx, ty, s), Drawn(tris[n], tx, ty, Shaded(tris, n, tx, ty, s), TPIX);
    forall o | 0 <= o < TPIX
      ensures a[o] == b[o]
    {
      ShadeNext(tris, n, Centre(tx, ty, o), s[o]);
    }
  }

  lemma ShadeNext(tris: seq<Tri>, n: nat, p: Point, s: Pix)
    requires n < |tris|
    ensures Shade(tris, n + 1, p, s) == Draw(tris[n], p, Shade(tris, n, p, s))
  {}

  /** A triangle that is skipped would have changed nothing. */
  lemma SkippedDrawsNothing(t: Tri, tx: int, ty: int, s: seq<Pix>, k: nat)
    requires |s| == TPIX && k <= TPIX && (!Faces(t) || !Touches(t, tx, ty))
    ensures Drawn(t, tx, ty, s, k) == s && CountWins(t, tx, ty, s, k) == 0
  {
    hide Covers, PlaneDepth, Area, Touches, Centre;
    forall o | 0 <= o < TPIX
      ensures !Wins(t, Centre(tx, ty, o), s[o])
    {
      if Faces(t) && Covers(t, Centre(tx, ty, o)) {
        CoveredTouches(t, tx, ty, o);
      }
    }
    NobodyWins(t, tx, ty, s, k);
  }

  lemma {:induction false} NobodyWins(t: Tri, tx: int, ty: int, s: seq<Pix>, k: nat)
    requires |s| == TPIX && k <= TPIX && forall o | 0 <= o < TPIX :: !Wins(t, Centre(tx, ty, o), s[o])
    ensures CountWins(t, tx, ty, s, k) == 0
  {
    hide Wins, Centre;
    if k == 0 {
    } else {
      NobodyWins(t, tx, ty, s, k - 1);
    }
  }

  /** The pixels among the first k that a drawable triangle covers at less than the
      depth they show. */
  ghost function Won(t: Tri, tx: int, ty: int, s: seq<Pix>, k: nat): set<int>
    requires |s| == TPIX && k <= TPIX
  {
    set o: int | 0 <= o < k && Faces(t) && Covers(t, Centre(tx, ty, o)) && PlaneDepth(t, Centre(tx, ty, o)) < s[o].z
  }

  /** The count of one triangle is the number of those pixels. */
  lemma {:induction false} WinsAreCounted(t: Tri, tx: int, ty: int, s: seq<Pix>, k: nat)
    requires |s| == TPIX && k <= TPIX
    ensures CountWins(t, tx, ty, s, k) == |Won(t, tx, ty, s, k)|
  {
    if k > 0 {
      WinsAreCounted(t, tx, ty, s, k - 1);
      var last: int := k - 1;
      assert Won(t, tx, ty, s, k) ==
             Won(t, tx, ty, s, k - 1) + if Wins(t, Centre(tx, ty, k - 1), s[k - 1]) then {last} else {};
    } else {
      assert Won(t, tx, ty, s, 0) == {};
    }
  }

  /** So far no pixel is farther than it was, and one is nearer if any was written. */
  ghost predicate Nearer(s: seq<Pix>, r: seq<Pix>, written: nat)
    requires |s| == |r| == TPIX
  {
    && (forall o | 0 <= o < TPIX :: r[o].z <= s[o].z)
    && (written > 0 ==> exists o :: 0 <= o < TPIX && r[o].z < s[o].z)
    && (written == 0 ==> r == s)
  }

  lemma NearerByOne(t: Tri, tx: int, ty: int, s: seq<Pix>, r: seq<Pix>, written: nat)
    requires |s| == |r| == TPIX && Nearer(s, r, written)
    ensures Nearer(s, Drawn(t, tx, ty, r, TPIX), written + CountWins(t, tx, ty, r, TPIX))
  {
    var d := Drawn(t, tx, ty, r, TPIX);
    WinsAreCounted(t, tx, ty, r, TPIX);
    hide Covers, PlaneDepth, Centre, Faces, CountWins;
    var won := Won(t, tx, ty, r, TPIX);
    forall o | 0 <= o < TPIX
      ensures if o in won then d[o].z < r[o].z else d[o] == r[o]
    {}
    if |won| > 0 {
      var o := Counting.Pick(won);
    } else {
      assert won == {};
      assert d == r;
    }
  }

  /** NOTHING WRITTEN means nothing changed: the count is 0 exactly when every pixel is
      as it was, and otherwise some pixel is nearer. */
  lemma {:induction false} WrittenIff(tris: seq<Tri>, n: nat, tx: int, ty: int, s: seq<Pix>)
    requires |s| == TPIX && n <= |tris|
    ensures Nearer(s, Shaded(tris, n, tx, ty, s), CountAll(tris, n, tx, ty, s))
    ensures CountAll(tris, n, tx, ty, s) == 0 <==> Shaded(tris, n, tx, ty, s) == s
  {
    hide Shade, Centre, Drawn, CountWins;
    if n == 0 {
      ShadedNothing(tris, tx, ty, s);
    } else {
      WrittenIff(tris, n - 1, tx, ty, s);
      ShadedNext(tris, n - 1, tx, ty, s);
      NearerByOne(tris[n - 1], tx, ty, s, Shaded(tris, n - 1, tx, ty, s), CountAll(tris, n - 1, tx, ty, s));
    }
  }

  /** hx421_tile_clear. */
  method Clear(idx: array<Color>, zbuf: array<Depth>)
    requires idx.Length == zbuf.Length == TPIX && idx as object != zbuf as object
    modifies idx, zbuf
    ensures Buffers(idx[..], zbuf[..]) == seq(TPIX, o => Pix(ZFAR, 0))
  {
    var i := 0;
    while i < TPIX
      invariant 0 <= i <= TPIX
      invariant forall o | 0 <= o < i :: idx[o] == 0 && zbuf[o] == ZFAR
    {
      idx[i], zbuf[i] := 0, ZFAR;
      i := i + 1;
    }
  }

  /** The sample point of column px, row py of a tile. */
  function At(tx: int, ty: int, px: nat, py: nat): Point {
    Point(tx * TILE * ONE + ONE / 2 + px * ONE, ty * TILE * ONE + ONE / 2 + py * ONE)
  }

  lemma AtIsCentre(tx: int, ty: int, px: nat, py: nat)
    requires px < TILE && py < TILE
    ensures py * TILE + px < TPIX && At(tx, ty, px, py) == Centre(tx, ty, py * TILE + px)
  {}

  /** The edge accumulators of a triangle at a point. */
  predicate EdgesAt(t: Tri, p: Point, r0: int, r1: int, r2: int) {
    r0 == E0(t, p) && r1 == E1(t, p) && r2 == E2(t, p)
  }

  lemma EdgesStep(t: Tri, p: Point, r0: int, r1: int, r2: int)
    requires EdgesAt(t, p, r0, r1, r2)
    ensures EdgesAt(t, Point(p.x + ONE, p.y), r0 + -(t.b.y - t.a.y) * ONE, r1 + -(t.c.y - t.b.y) * ONE,
                    r2 + -(t.a.y - t.c.y) * ONE)
    ensures EdgesAt(t, Point(p.x, p.y + ONE), r0 + (t.b.x - t.a.x) * ONE, r1 + (t.c.x - t.b.x) * ONE,
                    r2 + (t.a.x - t.c.x) * ONE)
  {
    hide Edge;
    EdgeSteps(t.a, t.b, p);
    EdgeSteps(t.b, t.c, p);
    EdgeSteps(t.c, t.a, p);
  }

  lemma EdgesStart(t: Tri, p: Point)
    ensures EdgesAt(t, p, -(t.b.y - t.a.y) * (p.x - t.a.x) + (t.b.x - t.a.x) * (p.y - t.a.y),
                    -(t.c.y - t.b.y) * (p.x - t.b.x) + (t.c.x - t.b.x) * (p.y - t.b.y),
                    -(t.a.y - t.c.y) * (p.x - t.c.x) + (t.a.x - t.c.x) * (p.y - t.c.y))
  {
    hide Edge;
    EdgeSetUp(t.a, t.b, p);
    EdgeSetUp(t.b, t.c, p);
    EdgeSetUp(t.c, t.a, p);
  }

  /** Test and write one pixel; the accumulators are the pixel's edge values. */
  method Pixel(t: Tri, p: Point, o: nat, r0: int, r1: int, r2: int, zdx: int, zdy: int, area: int,
               idx: array<Color>, zbuf: array<Depth>) returns (wrote: bool)
    requires idx.Length == zbuf.Length == TPIX && idx as object != zbuf as object && o < TPIX
    requires Faces(t) && EdgesAt(t, p, r0, r1, r2) && zdx == ZdxNum(t) && zdy == ZdyNum(t) && area == Area(t)
    modifies idx, zbuf
    ensures wrote == old(Wins(t, p, Pix(zbuf[o], idx[o])))
    ensures Pix(zbuf[o], idx[o]) == old(Draw(t, p, Pix(zbuf[o], idx[o])))
    ensures forall k | 0 <= k < TPIX && k != o :: zbuf[k] == old(zbuf[k]) && idx[k] == old(idx[k])
  {
    hide Edge, Area, ZdxNum, ZdyNum, CDiv;
    wrote := false;
    if r0 >= 0 && r1 >= 0 && r2 >= 0 {
      var dx, dy := p.x - t.a.x, p.y - t.a.y;
      var zz := t.a.z + CDiv(zdx * dx + zdy * dy, area);
      DepthBetweenVertices(t, p);
      var z := Clamped(zz);
      if z < zbuf[o] {
        zbuf[o] := z;
        idx[o] := t.color;
        wrote := true;
      }
    }
  }

  lemma DrawnMore(t: Tri, tx: int, ty: int, s: seq<Pix>, k: nat, before: seq<Pix>, after: seq<Pix>)
    requires |s| == |before| == |after| == TPIX && k < TPIX && before == Drawn(t, tx, ty, s, k)
    requires after == before[k := Draw(t, Centre(tx, ty, k), before[k])]
    ensures after == Drawn(t, tx, ty, s, k + 1)
    ensures before[k] == s[k]
  {
    hide Draw, Centre;
  }

  lemma BuffersChanged(idx0: seq<Color>, zbuf0: seq<Depth>, idx1: seq<Color>, zbuf1: seq<Depth>, o: nat)
    requires |idx0| == |zbuf0| == |idx1| == |zbuf1| == TPIX && o < TPIX
    requires forall k | 0 <= k < TPIX && k != o :: zbuf1[k] == zbuf0[k] && idx1[k] == idx0[k]
    ensures Buffers(idx1, zbuf1) == Buffers(idx0, zbuf0)[o := Pix(zbuf1[o], idx1[o])]
    ensures Buffers(idx0, zbuf0)[o] == Pix(zbuf0[o], idx0[o])
  {}

  /** One row of pixels. */
  method Row(t: Tri, tx: int, ty: int, py: nat, e0: int, e1: int, e2: int, zdx: int, zdy: int, area: int,
             idx: array<Color>, zbuf: array<Depth>, ghost s: seq<Pix>) returns (written: nat)
    requires idx.Length == zbuf.Length == TPIX && idx as object != zbuf as object && py < TILE && |s| == TPIX
    requires Faces(t) && EdgesAt(t, At(tx, ty, 0, py), e0, e1, e2) && zdx == ZdxNum(t) && zdy == ZdyNum(t) &&
             area == Area(t)
    requires Buffers(idx[..], zbuf[..]) == Drawn(t, tx, ty, s, py * TILE)
    modifies idx, zbuf
    ensures Buffers(idx[..], zbuf[..]) == Drawn(t, tx, ty, s, (py + 1) * TILE)
    ensures CountWins(t, tx, ty, s, py * TILE) + written == CountWins(t, tx, ty, s, (py + 1) * TILE)
  {
    hide Edge, Area, ZdxNum, ZdyNum, Faces, Buffers, Drawn, Draw, Wins, Centre, EdgesAt;
    written := 0;
    var r0, r1, r2 := e0, e1, e2;
    var px := 0;
    while px < TILE
      invariant 0 <= px <= TILE
      invariant EdgesAt(t, At(tx, ty, px, py), r0, r1, r2)
      invariant Buffers(idx[..], zbuf[..]) == Drawn(t, tx, ty, s, py * TILE + px)
      invariant CountWins(t, tx, ty, s, py * TILE) + written == CountWins(t, tx, ty, s, py * TILE + px)
    {
      ghost var i0, z0 := idx[..], zbuf[..];
      var o := py * TILE + px;
      AtIsCentre(tx, ty, px, py);
      var wrote := Pixel(t, At(tx, ty, px, py), o, r0, r1, r2, zdx, zdy, area, idx, zbuf);
      BuffersChanged(i0, z0, idx[..], zbuf[..], o);
      DrawnMore(t, tx, ty, s, o, Buffers(i0, z0), Buffers(idx[..], zbuf[..]));
      if wrote { written := written + 1; }
      EdgesStep(t, At(tx, ty, px, py), r0, r1, r2);
      r0 := r0 + -(t.b.y - t.a.y) * ONE;
      r1 := r1 + -(t.c.y - t.b.y) * ONE;
      r2 := r2 + -(t.a.y - t.c.y) * ONE;
      px := px + 1;
    }
  }

  /** One triangle over the whole tile. */
  method Triangle(t: Tri, tx: int, ty: int, idx: array<Color>, zbuf: array<Depth>) returns (written: nat)
    requires idx.Length == zbuf.Length == TPIX && idx as object != zbuf as object
    modifies idx, zbuf
    ensures Buffers(idx[..], zbuf[..]) == Drawn(t, tx, ty, old(Buffers(idx[..], zbuf[..])), TPIX)
    ensures written == CountWins(t, tx, ty, old(Buffers(idx[..], zbuf[..])), TPIX)
  {
    hide Edge, ZdxNum, ZdyNum, Buffers, Drawn, Wins, Centre, EdgesAt, Touches;
    ghost var s := Buffers(idx[..], zbuf[..]);
    if t.color == 0 || !Touches(t, tx, ty) || Area(t) <= 0 {
      SkippedDrawsNothing(t, tx, ty, s, TPIX);
      return 0;
    }
    assert Faces(t);
    hide Area, Faces;
    var p := At(tx, ty, 0, 0);
    EdgesStart(t, p);
    var e0 := -(t.b.y - t.a.y) * (p.x - t.a.x) + (t.b.x - t.a.x) * (p.y - t.a.y);
    var e1 := -(t.c.y - t.b.y) * (p.x - t.b.x) + (t.c.x - t.b.x) * (p.y - t.b.y);
    var e2 := -(t.a.y - t.c.y) * (p.x - t.c.x) + (t.a.x - t.c.x) * (p.y - t.c.y);
    var zdx, zdy, area := ZdxNum(t), ZdyNum(t), Area(t);
    DrawnNothing(t, tx, ty, s);
    written := 0;
    var py := 0;
    while py < TILE
      invariant 0 <= py <= TILE
      invariant EdgesAt(t, At(tx, ty, 0, py), e0, e1, e2)
      invariant Buffers(idx[..], zbuf[..]) == Drawn(t, tx, ty, s, py * TILE)
      invariant written == CountWins(t, tx, ty, s, py * TILE)
    {
      var n := Row(t, tx, ty, py, e0, e1, e2, zdx, zdy, area, idx, zbuf, s);
      written := written + n;
      EdgesStep(t, At(tx, ty, 0, py), e0, e1, e2);
      e0 := e0 + (t.b.x - t.a.x) * ONE;
      e1 := e1 + (t.c.x - t.b.x) * ONE;
      e2 := e2 + (t.a.x - t.c.x) * ONE;
      py := py + 1;
    }
  }

  lemma DrawnNothing(t: Tri, tx: int, ty: int, s: seq<Pix>)
    requires |s| == TPIX
    ensures Drawn(t, tx, ty, s, 0) == s
  {}

  /** hx421_raster_tile: every pixel ends as the triangle list says it must. */
  method RasterTile(tris: seq<Tri>, tx: int, ty: int, idx: array<Color>, zbuf: array<Depth>) returns (written: nat)
    requires idx.Length == zbuf.Length == TPIX && idx as object != zbuf as object
    modifies idx, zbuf
    ensures Buffers(idx[..], zbuf[..]) == Shaded(tris, |tris|, tx, ty, old(Buffers(idx[..], zbuf[..])))
    ensures written == CountAll(tris, |tris|, tx, ty, old(Buffers(idx[..], zbuf[..])))
  {
    hide Buffers, Drawn, Shade, Shaded;
    ghost var s := Buffers(idx[..], zbuf[..]);
    ShadedNothing(tris, tx, ty, s);
    written := 0;
    var n := 0;
    while n < |tris|
      invariant 0 <= n <= |tris|
      invariant Buffers(idx[..], zbuf[..]) == Shaded(tris, n, tx, ty, s)
      invariant written == CountAll(tris, n, tx, ty, s)
    {
      ShadedNext(tris, n, tx, ty, s);
      var k := Triangle(tris[n], tx, ty, idx, zbuf);
      written := written + k;
      n := n + 1;
    }
  }

  lemma ShadedNothing(tris: seq<Tri>, tx: int, ty: int, s: seq<Pix>)
    requires |s| == TPIX
    ensures Shaded(tris, 0, tx, ty, s) == s
  {}
}
