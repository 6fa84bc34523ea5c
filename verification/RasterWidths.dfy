// The rasteriser's numbers in the widths the code gives them: when 32 and 64 bits
// are enough, and where they are not. runtime/hx421_raster.c.
module RasterWidths {
  import opened Arith
  import opened RasterGeometry

  const NEAR: int := 0x40_0000       // 2^22, 16384 pixels
  const SPAN: int := 0x80_0000       // 2^23
  const SCREEN: int := 0x1_0080      // one step past the last pixel centre of 32 tiles

  predicate I32(x: int) { -0x8000_0000 <= x < 0x8000_0000 }
  predicate I64(x: int) { -0x8000_0000_0000_0000 <= x < 0x8000_0000_0000_0000 }

  /** A 64-bit sum or product, as two's complement leaves it. */
  function W64(x: int): int {
    (x + 0x8000_0000_0000_0000) % 0x1_0000_0000_0000_0000 - 0x8000_0000_0000_0000
  }

  predicate Within(v: Vtx, bound: int) { -bound <= v.x <= bound && -bound <= v.y <= bound }

  /** The bound a caller can check: every vertex within 16384 pixels of the corner. */
  predicate Close(t: Tri) { Within(t.a, NEAR) && Within(t.b, NEAR) && Within(t.c, NEAR) }

  /** A pixel centre of the 32 by 32 tiles, or one step past the last. */
  predicate OnScreen(p: Point) { 0 <= p.x <= SCREEN && 0 <= p.y <= SCREEN }

  predicate Bounded(x: int, m: int) { -m <= x <= m }

  lemma ProductBounded(x: int, y: int, m: int, n: int)
    requires Bounded(x, m) && Bounded(y, n)
    ensures Bounded(x * y, m * n)
  {
    if x >= 0 {
      MulLe(x, y, n);
      MulLe(x, -n, y);
      MulLe(n, x, m);
      assert x * n == n * x && x * (-n) == -(n * x);
    } else {
      MulLe(-x, y, n);
      MulLe(-x, -n, y);
      MulLe(n, -x, m);
      assert (-x) * n == n * (-x) && (-x) * (-n) == -(n * (-x)) && (-x) * y == -(x * y);
    }
    assert n * m == m * n;
  }

  /** Differences of coordinates, and the edges' steps, in 32 bits. */
  predicate DifferencesFit(t: Tri) {
    && I32(t.b.x - t.a.x) && I32(t.c.x - t.a.x) && I32(t.c.x - t.b.x) && I32(t.a.x - t.c.x)
    && I32(t.b.y - t.a.y) && I32(t.c.y - t.a.y) && I32(t.c.y - t.b.y) && I32(t.a.y - t.c.y)
    && I32(-(t.b.y - t.a.y)) && I32(-(t.c.y - t.b.y)) && I32(-(t.a.y - t.c.y))
    && I32(t.b.z - t.a.z) && I32(t.c.z - t.a.z)
  }

  /** Twice the area, its two products included. */
  predicate AreaFits(t: Tri) {
    I64((t.b.x - t.a.x) * (t.c.y - t.a.y)) && I64((t.b.y - t.a.y) * (t.c.x - t.a.x)) && I64(Area(t))
  }

  /** One edge value at p: the offsets in 32 bits, the products, the sum and both
      steps in 64. */
  predicate EdgeFits(a: Vtx, b: Vtx, p: Point) {
    && I32(p.x - a.x) && I32(p.y - a.y)
    && I64(-(b.y - a.y) * (p.x - a.x)) && I64((b.x - a.x) * (p.y - a.y)) && I64(Edge(a, b, p))
    && I64(-(b.y - a.y) * ONE) && I64((b.x - a.x) * ONE)
  }

  /** The depth plane's numerators. */
  predicate PlaneFits(t: Tri) {
    && I64((t.b.z - t.a.z) * (t.c.y - t.a.y)) && I64((t.c.z - t.a.z) * (t.b.y - t.a.y)) && I64(ZdxNum(t))
    && I64((t.c.z - t.a.z) * (t.b.x - t.a.x)) && I64((t.b.z - t.a.z) * (t.c.x - t.a.x)) && I64(ZdyNum(t))
  }

  /** The depth at a pixel. */
  predicate DepthFits(t: Tri, p: Point)
    requires Area(t) > 0
  {
    && I64(ZdxNum(t) * (p.x - t.a.x)) && I64(ZdyNum(t) * (p.y - t.a.y))
    && I64(ZdxNum(t) * (p.x - t.a.x) + ZdyNum(t) * (p.y - t.a.y)) && I64(PlaneDepth(t, p))
  }

  lemma SetupFits(t: Tri)
    requires Close(t)
    ensures DifferencesFit(t) && AreaFits(t) && PlaneFits(t)
    ensures Bounded(Area(t), 2 * (SPAN * SPAN))
    ensures Bounded(ZdxNum(t), 2 * (0xFFFF * SPAN)) && Bounded(ZdyNum(t), 2 * (0xFFFF * SPAN))
  {
    ProductBounded(t.b.x - t.a.x, t.c.y - t.a.y, SPAN, SPAN);
    ProductBounded(t.b.y - t.a.y, t.c.x - t.a.x, SPAN, SPAN);
    ProductBounded(t.b.z - t.a.z, t.c.y - t.a.y, 0xFFFF, SPAN);
    ProductBounded(t.c.z - t.a.z, t.b.y - t.a.y, 0xFFFF, SPAN);
    ProductBounded(t.c.z - t.a.z, t.b.x - t.a.x, 0xFFFF, SPAN);
    ProductBounded(t.b.z - t.a.z, t.c.x - t.a.x, 0xFFFF, SPAN);
  }

  lemma EdgeValueFits(a: Vtx, b: Vtx, p: Point)
    requires Within(a, NEAR) && Within(b, NEAR) && OnScreen(p)
    ensures EdgeFits(a, b, p)
  {
    ProductBounded(-(b.y - a.y), p.x - a.x, SPAN, SPAN);
    ProductBounded(b.x - a.x, p.y - a.y, SPAN, SPAN);
    assert -(b.y - a.y) * (p.x - a.x) == -((b.y - a.y) * (p.x - a.x));
  }

  lemma DepthValueFits(t: Tri, p: Point)
    requires Close(t) && OnScreen(p) && Area(t) > 0 && Covers(t, p)
    ensures DepthFits(t, p)
  {
    SetupFits(t);
    DepthBetweenVertices(t, p);
    WeightedSum(t, p);
    hide Covers, PlaneDepth, ZdxNum, ZdyNum, Area;
    ProductBounded(ZdxNum(t), p.x - t.a.x, 2 * (0xFFFF * SPAN), NEAR + SCREEN);
    ProductBounded(ZdyNum(t), p.y - t.a.y, 2 * (0xFFFF * SPAN), NEAR + SCREEN);
  }

  /** The plane's sum is an average of depths, times the area. */
  lemma WeightedSum(t: Tri, p: Point)
    requires Area(t) > 0 && Covers(t, p)
    ensures Bounded(ZdxNum(t) * (p.x - t.a.x) + ZdyNum(t) * (p.y - t.a.y), 0xFFFF * Area(t))
  {
    hide Edge, Area, E0, E1, E2, ZdxNum, ZdyNum;
    EdgesWeighVertices(t, p);
    PlaneIsWeighted(t, p);
    WeightedBounds(E1(t, p), E2(t, p), E0(t, p), Area(t), t.b.z - t.a.z, t.c.z - t.a.z, -0xFFFF, 0xFFFF);
    assert (-0xFFFF) * Area(t) == -(0xFFFF * Area(t));
  }

  /** EVERYTHING FITS: for a triangle within 16384 pixels of the corner, no 32-bit
      and no 64-bit number the rasteriser forms on the screen overflows. */
  lemma CloseFits(t: Tri, p: Point)
    requires Close(t) && OnScreen(p)
    ensures DifferencesFit(t) && AreaFits(t) && PlaneFits(t)
    ensures EdgeFits(t.a, t.b, p) && EdgeFits(t.b, t.c, p) && EdgeFits(t.c, t.a, p)
    ensures Area(t) > 0 && Covers(t, p) ==> DepthFits(t, p)
  {
    hide EdgeFits, DepthFits;
    SetupFits(t);
    EdgeValueFits(t.a, t.b, p);
    EdgeValueFits(t.b, t.c, p);
    EdgeValueFits(t.c, t.a, p);
    if Area(t) > 0 && Covers(t, p) {
      DepthValueFits(t, p);
    }
  }

  // ---- the depth as the machine has it ----

  /** The depth expression with its products and its sum wrapped to 64 bits. */
  function MachineDepth(t: Tri, p: Point): Depth
    requires Area(t) > 0
  {
    Clamped(t.a.z + CDiv(W64(W64(ZdxNum(t) * (p.x - t.a.x)) + W64(ZdyNum(t) * (p.y - t.a.y))), Area(t)))
  }

  lemma Unwrapped(x: int)
    ensures W64(x) == x <==> I64(x)
  {
    if I64(x) {
      DivModUnique(x + 0x8000_0000_0000_0000, 0x1_0000_0000_0000_0000, 0, x + 0x8000_0000_0000_0000);
    }
  }

  /** THE DEPTH IS THE PLANE'S on every covered pixel of such a triangle, and both
      clamps do nothing. */
  lemma CloseDepthIsExact(t: Tri, p: Point)
    requires Close(t) && OnScreen(p) && Area(t) > 0 && Covers(t, p)
    ensures MachineDepth(t, p) == PlaneDepth(t, p)
  {
    DepthValueFits(t, p);
    DepthBetweenVertices(t, p);
    hide W64, I64, ZdxNum, ZdyNum, Covers, Area, Clamped;
    Unwrapped(ZdxNum(t) * (p.x - t.a.x));
    Unwrapped(ZdyNum(t) * (p.y - t.a.y));
    Unwrapped(ZdxNum(t) * (p.x - t.a.x) + ZdyNum(t) * (p.y - t.a.y));
  }

  /** Corners twice as far out, at 2^23. */
  function Distant(): Tri {
    Tri(Vtx(-SPAN, -SPAN, 0), Vtx(SPAN, 1024 - SPAN, 0xFFFF), Vtx(1024 - SPAN, SPAN, 0xFFFF), 1)
  }

  lemma DistantNumbers()
    ensures var t, p := Distant(), Centre(0, 0, 0);
            && Area(t) == 281474975662080 && Faces(t) && Covers(t, p)
            && ZdxNum(t) == 1099427742720 && ZdyNum(t) == 1099427742720 && p.x - t.a.x == 8388736 == p.y - t.a.y
  {}

  /** There it is not: a pixel of this triangle that is almost as far as can be
      comes out as near as can be. */
  lemma DistantWraps()
    ensures var t, p := Distant(), Centre(0, 0, 0);
            && Within(t.a, SPAN) && Within(t.b, SPAN) && Within(t.c, SPAN) && OnScreen(p)
            && Faces(t) && Covers(t, p)
            && PlaneDepth(t, p) == 65532 && MachineDepth(t, p) == 0
  {
    DistantNumbers();
    var product := 9222809084754001920;
    assert 1099427742720 * 8388736 == product == 1099427742720 * 8388736;
    Unwrapped(product);
    DivModUnique(18445618169508003840, 281474975662080, 65532, 64420577280);
    DivModUnique(18445618169508003840 + 0x8000_0000_0000_0000, 0x1_0000_0000_0000_0000, 1, 9222246132653228032);
    DivModUnique(1125904201547776, 281474975662080, 4, 4298899456);
    hide Area, ZdxNum, ZdyNum, Covers, Faces;
  }
}
