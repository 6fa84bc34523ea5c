// The tile rasteriser's geometry: edges, coverage, depth, and what a pixel must
// show. runtime/hx421_raster.c.
module RasterGeometry {
  import opened Arith

  const TILE: nat := 8
  const TPIX: nat := 64
  const ONE: nat := 256
  const ZFAR: nat := 0xFFFF

  type Depth = z: int | 0 <= z <= 0xFFFF
  type Color = c: int | 0 <= c < 256

  /** A vertex in 24.8 screen coordinates; smaller z is nearer. */
  datatype Vtx = Vtx(x: int, y: int, z: Depth)
  datatype Tri = Tri(a: Vtx, b: Vtx, c: Vtx, color: Color)
  datatype Point = Point(x: int, y: int)

  // ---- the definitions ----

  /** The cross product (b - a) x (p - a). */
  function Edge(a: Vtx, b: Vtx, p: Point): int {
    (b.x - a.x) * (p.y - a.y) - (b.y - a.y) * (p.x - a.x)
  }

  function Area(t: Tri): int { (t.b.x - t.a.x) * (t.c.y - t.a.y) - (t.b.y - t.a.y) * (t.c.x - t.a.x) }

  function E0(t: Tri, p: Point): int { Edge(t.a, t.b, p) }
  function E1(t: Tri, p: Point): int { Edge(t.b, t.c, p) }
  function E2(t: Tri, p: Point): int { Edge(t.c, t.a, p) }

  predicate Covers(t: Tri, p: Point) { E0(t, p) >= 0 && E1(t, p) >= 0 && E2(t, p) >= 0 }

  /** Drawn at all: coloured and front-facing. */
  predicate Faces(t: Tri) { t.color != 0 && Area(t) > 0 }

  function ZdxNum(t: Tri): int { (t.b.z - t.a.z) * (t.c.y - t.a.y) - (t.c.z - t.a.z) * (t.b.y - t.a.y) }
  function ZdyNum(t: Tri): int { (t.c.z - t.a.z) * (t.b.x - t.a.x) - (t.b.z - t.a.z) * (t.c.x - t.a.x) }

  /** Depth at a point, from the triangle's plane, before any clamp. */
  function PlaneDepth(t: Tri, p: Point): int
    requires Area(t) > 0
  {
    t.a.z + CDiv(ZdxNum(t) * (p.x - t.a.x) + ZdyNum(t) * (p.y - t.a.y), Area(t))
  }

  function Clamped(z: int): Depth { if z < 0 then 0 else if z > ZFAR then ZFAR else z }

  /** Centre of pixel o of tile (tx, ty). */
  function Centre(tx: int, ty: int, o: nat): Point {
    Point((tx * TILE + o % TILE) * ONE + ONE / 2, (ty * TILE + o / TILE) * ONE + ONE / 2)
  }

  function Min3(a: int, b: int, c: int): int { var m := if b < a then b else a; if c < m then c else m }
  function Max3(a: int, b: int, c: int): int { var m := if b > a then b else a; if c > m then c else m }

  /** hx421_tri_touches_tile. */
  predicate Touches(t: Tri, tx: int, ty: int) {
    var x0, y0 := tx * TILE * ONE, ty * TILE * ONE;
    && !(Max3(t.a.x, t.b.x, t.c.x) < x0) && !(Min3(t.a.x, t.b.x, t.c.x) >= x0 + TILE * ONE)
    && !(Max3(t.a.y, t.b.y, t.c.y) < y0) && !(Min3(t.a.y, t.b.y, t.c.y) >= y0 + TILE * ONE)
  }

  // ---- barycentric identities ----

  /** The three edge values are the weights of the vertices: they add up to the
      area and balance the point between them, in x and in y. */
  lemma EdgesWeighVertices(t: Tri, p: Point)
    ensures E0(t, p) + E1(t, p) + E2(t, p) == Area(t)
    ensures E1(t, p) * (t.a.x - p.x) + E2(t, p) * (t.b.x - p.x) + E0(t, p) * (t.c.x - p.x) == 0
    ensures E1(t, p) * (t.a.y - p.y) + E2(t, p) * (t.b.y - p.y) + E0(t, p) * (t.c.y - p.y) == 0
  {
    var a1, a2, b1, b2, c1, c2 := t.a.x - p.x, t.a.y - p.y, t.b.x - p.x, t.b.y - p.y, t.c.x - p.x, t.c.y - p.y;
    RelativeEdge(t.a, t.b, p);
    RelativeEdge(t.b, t.c, p);
    RelativeEdge(t.c, t.a, p);
    RelativeArea(a1, a2, b1, b2, c1, c2);
    Balance(a1, a2, b1, b2, c1, c2);
  }

  /** An edge value, from the two vertices seen from the point. */
  lemma RelativeEdge(a: Vtx, b: Vtx, p: Point)
    ensures Edge(a, b, p) == (a.x - p.x) * (b.y - p.y) - (a.y - p.y) * (b.x - p.x)
  {
    var a1, a2, b1, b2 := a.x - p.x, a.y - p.y, b.x - p.x, b.y - p.y;
    assert (b1 - a1) * (-a2) == a1 * a2 - b1 * a2;
    assert (b2 - a2) * (-a1) == a2 * a1 - b2 * a1;
  }

  lemma RelativeArea(a1: int, a2: int, b1: int, b2: int, c1: int, c2: int)
    ensures (a1 * b2 - a2 * b1) + (b1 * c2 - b2 * c1) + (c1 * a2 - c2 * a1) ==
            (b1 - a1) * (c2 - a2) - (b2 - a2) * (c1 - a1)
  {
    assert (b1 - a1) * (c2 - a2) == b1 * c2 - b1 * a2 - a1 * c2 + a1 * a2;
    assert (b2 - a2) * (c1 - a1) == b2 * c1 - b2 * a1 - a2 * c1 + a2 * a1;
  }

  lemma Balance(a1: int, a2: int, b1: int, b2: int, c1: int, c2: int)
    ensures (b1 * c2 - b2 * c1) * a1 + (c1 * a2 - c2 * a1) * b1 + (a1 * b2 - a2 * b1) * c1 == 0
    ensures (b1 * c2 - b2 * c1) * a2 + (c1 * a2 - c2 * a1) * b2 + (a1 * b2 - a2 * b1) * c2 == 0
  {
    Expand3(b1, c2, b2, c1, a1);
    Expand3(c1, a2, c2, a1, b1);
    Expand3(a1, b2, a2, b1, c1);
    Expand3(b1, c2, b2, c1, a2);
    Expand3(c1, a2, c2, a1, b2);
    Expand3(a1, b2, a2, b1, c2);
  }

  lemma Expand3(a: int, b: int, c: int, d: int, k: int)
    ensures (a * b - c * d) * k == a * b * k - c * d * k
  {}

  // ---- what is covered ----

  /** Where these weights hold the three points in balance about p. */
  ghost predicate Balances(u: int, v: int, w: int, a: Vtx, b: Vtx, c: Vtx, p: Point) {
    && u * (a.x - p.x) + v * (b.x - p.x) + w * (c.x - p.x) == 0
    && u * (a.y - p.y) + v * (b.y - p.y) + w * (c.y - p.y) == 0
  }

  /** An edge value is affine: at a balance point it is the weighted sum. */
  lemma EdgeIsAffine(m: Vtx, n: Vtx, u: int, v: int, w: int, a: Vtx, b: Vtx, c: Vtx, p: Point)
    requires Balances(u, v, w, a, b, c, p)
    ensures (u + v + w) * Edge(m, n, p) ==
            u * Edge(m, n, Point(a.x, a.y)) + v * Edge(m, n, Point(b.x, b.y)) + w * Edge(m, n, Point(c.x, c.y))
  {
    var dx, dy := n.x - m.x, n.y - m.y;
    EdgeShift(m, n, p, Point(a.x, a.y), u);
    EdgeShift(m, n, p, Point(b.x, b.y), v);
    EdgeShift(m, n, p, Point(c.x, c.y), w);
    hide Edge;
    Gather3(dx, u * (a.y - p.y), v * (b.y - p.y), w * (c.y - p.y));
    Gather3(dy, u * (a.x - p.x), v * (b.x - p.x), w * (c.x - p.x));
    assert (u + v + w) * Edge(m, n, p) == u * Edge(m, n, p) + v * Edge(m, n, p) + w * Edge(m, n, p);
  }

  lemma EdgeShift(m: Vtx, n: Vtx, p: Point, q: Point, k: int)
    ensures k * Edge(m, n, q) ==
            k * Edge(m, n, p) + (n.x - m.x) * (k * (q.y - p.y)) - (n.y - m.y) * (k * (q.x - p.x))
  {
    var dx, dy := n.x - m.x, n.y - m.y;
    assert dx * (q.y - m.y) == dx * (p.y - m.y) + dx * (q.y - p.y);
    assert dy * (q.x - m.x) == dy * (p.x - m.x) + dy * (q.x - p.x);
    assert Edge(m, n, q) == Edge(m, n, p) + dx * (q.y - p.y) - dy * (q.x - p.x);
    hide Edge;
    Spread(k, Edge(m, n, p), dx, q.y - p.y, dy, q.x - p.x);
  }

  lemma Spread(k: int, e: int, dx: int, y: int, dy: int, x: int)
    ensures k * (e + dx * y - dy * x) == k * e + dx * (k * y) - dy * (k * x)
  {
    assert k * (dx * y) == dx * (k * y) && k * (dy * x) == dy * (k * x);
    assert k * (e + dx * y - dy * x) == k * e + k * (dx * y) - k * (dy * x);
  }

  lemma Gather3(d: int, a: int, b: int, c: int)
    ensures a + b + c == 0 ==> d * a + d * b + d * c == 0
  {
    assert d * a + d * b + d * c == d * (a + b + c);
  }

  /** Each edge value is the area at the vertex across, and nothing at its own. */
  lemma EdgeAtVertices(t: Tri)
    ensures E0(t, Point(t.a.x, t.a.y)) == 0 == E0(t, Point(t.b.x, t.b.y)) && E0(t, Point(t.c.x, t.c.y)) == Area(t)
    ensures E1(t, Point(t.b.x, t.b.y)) == 0 == E1(t, Point(t.c.x, t.c.y)) && E1(t, Point(t.a.x, t.a.y)) == Area(t)
    ensures E2(t, Point(t.c.x, t.c.y)) == 0 == E2(t, Point(t.a.x, t.a.y)) && E2(t, Point(t.b.x, t.b.y)) == Area(t)
  {
    var pa, pb, pc := Point(t.a.x, t.a.y), Point(t.b.x, t.b.y), Point(t.c.x, t.c.y);
    EdgeAtEnds(t.a, t.b);
    EdgeAtEnds(t.b, t.c);
    EdgeAtEnds(t.c, t.a);
    EdgesWeighVertices(t, pa);
    EdgesWeighVertices(t, pb);
    EdgesWeighVertices(t, pc);
    hide Edge, Area;
  }

  lemma EdgeAtEnds(a: Vtx, b: Vtx)
    ensures Edge(a, b, Point(a.x, a.y)) == 0 && Edge(a, b, Point(b.x, b.y)) == 0
  {
    var dx, dy := b.x - a.x, b.y - a.y;
    assert dx * dy == dy * dx;
  }

  /** COVERED MEANS INSIDE: a front-facing triangle covers exactly the points that
      its corners balance about with some weights, none of them negative. */
  lemma CoversIff(t: Tri, p: Point)
    requires Area(t) > 0
    ensures Covers(t, p) <==>
            exists u: nat, v: nat, w: nat :: u + v + w > 0 && Balances(u, v, w, t.a, t.b, t.c, p)
  {
    EdgesWeighVertices(t, p);
    hide Edge, Area;
    if Covers(t, p) {
      assert Balances(E1(t, p), E2(t, p), E0(t, p), t.a, t.b, t.c, p);
    }
    forall u: nat, v: nat, w: nat | u + v + w > 0 && Balances(u, v, w, t.a, t.b, t.c, p)
      ensures Covers(t, p)
    {
      BalancedIsCovered(t, u, v, w, p);
    }
  }

  lemma BalancedIsCovered(t: Tri, u: nat, v: nat, w: nat, p: Point)
    requires Area(t) > 0 && u + v + w > 0 && Balances(u, v, w, t.a, t.b, t.c, p)
    ensures Covers(t, p)
  {
    EdgeAtVertices(t);
    EdgeIsAffine(t.a, t.b, u, v, w, t.a, t.b, t.c, p);
    EdgeIsAffine(t.b, t.c, u, v, w, t.a, t.b, t.c, p);
    EdgeIsAffine(t.c, t.a, u, v, w, t.a, t.b, t.c, p);
    hide Edge, Area, Balances;
    SameSign(u + v + w, E0(t, p), w, Area(t));
    SameSign(u + v + w, E1(t, p), u, Area(t));
    SameSign(u + v + w, E2(t, p), v, Area(t));
  }

  lemma SameSign(s: nat, e: int, w: nat, area: nat)
    requires s > 0 && s * e == w * area
    ensures e >= 0
  {
    NonNegative(w, area);
    if e < 0 {
      Scales(s, e);
    }
  }

  /** Which way round is the front: the turn from the first side to the second is
      the one from x to y. */
  lemma FrontIs(t: Tri)
    ensures Faces(t) <==>
            t.color != 0 && (t.b.x - t.a.x) * (t.c.y - t.a.y) > (t.b.y - t.a.y) * (t.c.x - t.a.x)
  {}

  /** The pixel centres of a tile, 256 apart. */
  lemma CentreIs(tx: int, ty: int, px: nat, py: nat)
    requires px < 8 && py < 8
    ensures Centre(tx, ty, 8 * py + px) == Point(256 * (8 * tx + px) + 128, 256 * (8 * ty + py) + 128)
  {
    DivModUnique(8 * py + px, 8, py, px);
  }

  // ---- shared edges ----

  lemma EdgeBackwards(a: Vtx, b: Vtx, p: Point)
    ensures Edge(b, a, p) == -Edge(a, b, p)
  {
    RelativeEdge(a, b, p);
    RelativeEdge(b, a, p);
    hide Edge;
    assert (a.x - p.x) * (b.y - p.y) == (b.y - p.y) * (a.x - p.x);
    assert (a.y - p.y) * (b.x - p.x) == (b.x - p.x) * (a.y - p.y);
  }

  /** NO GAPS: a point on the inner side of the four outer sides of two triangles
      that share an edge is covered by one of them. */
  lemma NoGap(t: Tri, u: Tri, p: Point)
    requires t.a == u.b && t.b == u.a
    requires E1(t, p) >= 0 && E2(t, p) >= 0 && E1(u, p) >= 0 && E2(u, p) >= 0
    ensures Covers(t, p) || Covers(u, p)
  {
    EdgeBackwards(t.a, t.b, p);
  }

  /** COVERED TWICE, EXACTLY: of two front-facing triangles that share an edge, the
      other one covers a covered point as well if and only if it lies on that edge. */
  lemma CoveredTwiceIff(t: Tri, u: Tri, p: Point)
    requires t.a == u.b && t.b == u.a && Area(t) > 0 && Area(u) > 0 && Covers(t, p)
    ensures Covers(u, p) <==> Edge(t.a, t.b, p) == 0
  {
    EdgeBackwards(t.a, t.b, p);
    if Edge(t.a, t.b, p) == 0 {
      EdgesWeighVertices(t, p);
      var v, w := E1(t, p), E2(t, p);
      OnTheEdge(v, w, t.a, t.b, t.c, u.c, p);
      hide Edge, Area, Balances;
      BalancedIsCovered(u, w, v, 0, p);
    }
  }

  /** Two weights that balance on an edge do so whatever the third corner is. */
  lemma OnTheEdge(v: int, w: int, a: Vtx, b: Vtx, c: Vtx, d: Vtx, p: Point)
    requires v * (a.x - p.x) + w * (b.x - p.x) + 0 * (c.x - p.x) == 0
    requires v * (a.y - p.y) + w * (b.y - p.y) + 0 * (c.y - p.y) == 0
    ensures Balances(w, v, 0, b, a, d, p)
  {}

  /** So centres do not keep pixels from being covered twice: those on the diagonal
      between the two halves of a tile are. */
  lemma DiagonalCoveredTwice(tx: int, ty: int, k: nat, t: Tri, u: Tri)
    requires k < 8
    requires t.a == u.b == Vtx(2048 * tx, 2048 * ty, 0) && t.b == u.a == Vtx(2048 * tx + 2048, 2048 * ty + 2048, 0)
    requires t.c == Vtx(2048 * tx, 2048 * ty + 2048, 0) && u.c == Vtx(2048 * tx + 2048, 2048 * ty, 0)
    ensures Area(t) > 0 && Area(u) > 0
    ensures Covers(t, Centre(tx, ty, 9 * k)) && Covers(u, Centre(tx, ty, 9 * k))
  {
    CentreIs(tx, ty, k, k);
    var p, s, m := Centre(tx, ty, 9 * k), 2048, 256 * k + 128;
    AreaFrom(t, s, s, s, 0);
    AreaFrom(u, -s, -s, -s, 0);
    EdgeFrom(t.a, t.b, p, s, m, s, m);
    EdgeFrom(t.b, t.c, p, -s, m - s, 0, m - s);
    EdgeFrom(t.c, t.a, p, 0, m - s, -s, m);
    EdgeBackwards(t.a, t.b, p);
    EdgeFrom(u.b, u.c, p, s, m, 0, m);
    EdgeFrom(u.c, u.a, p, 0, m, s, m - s);
    hide Centre, Edge, Area;
  }

  lemma AreaFrom(t: Tri, ux: int, vy: int, uy: int, vx: int)
    requires ux == t.b.x - t.a.x && uy == t.b.y - t.a.y && vx == t.c.x - t.a.x && vy == t.c.y - t.a.y
    ensures Area(t) == ux * vy - uy * vx
  {}

  lemma EdgeFrom(a: Vtx, b: Vtx, p: Point, ux: int, py: int, uy: int, px: int)
    requires ux == b.x - a.x && uy == b.y - a.y && px == p.x - a.x && py == p.y - a.y
    ensures Edge(a, b, p) == ux * py - uy * px
  {}

  // ---- coverage stays in the bounding box ----

  lemma WeightsPull(w0: int, w1: int, w2: int, d0: int, d1: int, d2: int)
    requires w0 >= 0 && w1 >= 0 && w2 >= 0 && w0 + w1 + w2 > 0
    ensures d0 > 0 && d1 > 0 && d2 > 0 ==> w0 * d0 + w1 * d1 + w2 * d2 > 0
    ensures d0 < 0 && d1 < 0 && d2 < 0 ==> w0 * d0 + w1 * d1 + w2 * d2 < 0
  {
    Scales(w0, d0);
    Scales(w1, d1);
    Scales(w2, d2);
  }

  lemma Scales(w: int, d: int)
    requires w >= 0
    ensures d > 0 ==> w * d >= w
    ensures d < 0 ==> w * d <= -w
    ensures d >= 0 ==> w * d >= 0
    ensures d <= 0 ==> w * d <= 0
  {
    if d > 0 {
      NonNegative(w, d - 1);
      assert w * (d - 1) == w * d - w;
    } else if d < 0 {
      NonNegative(w, -d - 1);
      assert w * (-d - 1) == -(w * d) - w;
    }
  }

  lemma NonNegative(w: int, d: int)
    requires w >= 0 && d >= 0
    ensures w * d >= 0
  {}

  /** A covered point lies in the triangle's bounding box. */
  lemma CoveredInBox(t: Tri, p: Point)
    requires Area(t) > 0 && Covers(t, p)
    ensures Min3(t.a.x, t.b.x, t.c.x) <= p.x <= Max3(t.a.x, t.b.x, t.c.x)
    ensures Min3(t.a.y, t.b.y, t.c.y) <= p.y <= Max3(t.a.y, t.b.y, t.c.y)
  {
    hide Edge, Area, E0, E1, E2;
    EdgesWeighVertices(t, p);
    WeightsPull(E1(t, p), E2(t, p), E0(t, p), t.a.x - p.x, t.b.x - p.x, t.c.x - p.x);
    WeightsPull(E1(t, p), E2(t, p), E0(t, p), t.a.y - p.y, t.b.y - p.y, t.c.y - p.y);
  }

  /** THE REJECT IS SAFE: a triangle that covers some pixel of a tile touches it. */
  lemma CoveredTouches(t: Tri, tx: int, ty: int, o: nat)
    requires o < TPIX && Area(t) > 0 && Covers(t, Centre(tx, ty, o))
    ensures Touches(t, tx, ty)
  {
    hide Area, Covers, Min3, Max3;
    CoveredInBox(t, Centre(tx, ty, o));
  }

  // ---- depth ----

  lemma PlaneIsWeighted(t: Tri, p: Point)
    ensures ZdxNum(t) * (p.x - t.a.x) + ZdyNum(t) * (p.y - t.a.y) ==
            E2(t, p) * (t.b.z - t.a.z) + E0(t, p) * (t.c.z - t.a.z)
  {
    var dx, dy, ux, uy, vx, vy := p.x - t.a.x, p.y - t.a.y, t.b.x - t.a.x, t.b.y - t.a.y, t.c.x - t.a.x, t.c.y - t.a.y;
    EdgeFromEnd(t.c, t.a, p);
    assert E2(t, p) == vy * dx - vx * dy;
    assert E0(t, p) == ux * dy - uy * dx;
    PlaneExpands(t.b.z - t.a.z, t.c.z - t.a.z, dx, dy, ux, uy, vx, vy);
  }

  lemma EdgeFromEnd(a: Vtx, b: Vtx, p: Point)
    ensures Edge(a, b, p) == (b.x - a.x) * (p.y - b.y) - (b.y - a.y) * (p.x - b.x)
  {
    var ux, uy := b.x - a.x, b.y - a.y;
    assert ux * (p.y - a.y) == ux * (p.y - b.y) + ux * uy;
    assert uy * (p.x - a.x) == uy * (p.x - b.x) + uy * ux;
  }

  lemma PlaneExpands(m: int, n: int, dx: int, dy: int, ux: int, uy: int, vx: int, vy: int)
    ensures (m * vy - n * uy) * dx + (n * ux - m * vx) * dy == (vy * dx - vx * dy) * m + (ux * dy - uy * dx) * n
  {}

  lemma WeightedBounds(w1: int, w2: int, w0: int, area: int, m: int, n: int, lo: int, hi: int)
    requires w1 >= 0 && w2 >= 0 && w0 >= 0 && w1 + w2 + w0 == area
    requires lo <= 0 <= hi && lo <= m <= hi && lo <= n <= hi
    ensures lo * area <= w2 * m + w0 * n <= hi * area
  {
    MulLe(w2, m, hi);
    MulLe(w0, n, hi);
    MulLe(w2, lo, m);
    MulLe(w0, lo, n);
    Scales(w1, hi);
    Scales(w1, lo);
    Distribute3(w1, w2, w0, hi);
    Distribute3(w1, w2, w0, lo);
  }

  lemma MulLe(w: int, a: int, b: int)
    requires w >= 0 && a <= b
    ensures w * a <= w * b
  {
    Scales(w, b - a);
    assert w * (b - a) == w * b - w * a;
  }

  lemma Distribute3(a: int, b: int, c: int, k: int)
    ensures k * (a + b + c) == a * k + b * k + c * k
  {}

  lemma CDivBounds(a: int, n: int, lo: int, hi: int)
    requires n > 0 && lo <= 0 <= hi && lo * n <= a <= hi * n
    ensures lo <= CDiv(a, n) <= hi
  {
    if a >= 0 {
      assert a == a / n * n + a % n;
      assert (a / n - hi) * n == a / n * n - hi * n;
      MultipleGrows(a / n - hi, n);
      MultipleGrows(-(a / n), n);
    } else {
      var q := (-a) / n;
      assert -a == q * n + (-a) % n;
      assert (q + lo) * n == q * n + lo * n;
      MultipleGrows(q + lo, n);
    }
  }

  /** BOTH CLAMPS ARE NO-OPS: on a covered point the depth lies between the least
      and the greatest vertex depth. */
  lemma DepthBetweenVertices(t: Tri, p: Point)
    requires Area(t) > 0 && Covers(t, p)
    ensures Min3(t.a.z, t.b.z, t.c.z) <= PlaneDepth(t, p) <= Max3(t.a.z, t.b.z, t.c.z)
    ensures Clamped(PlaneDepth(t, p)) == PlaneDepth(t, p)
  {
    hide Edge, Area, E0, E1, E2, ZdxNum, ZdyNum, CDiv;
    EdgesWeighVertices(t, p);
    PlaneIsWeighted(t, p);
    var lo, hi := Min3(t.a.z, t.b.z, t.c.z) - t.a.z, Max3(t.a.z, t.b.z, t.c.z) - t.a.z;
    WeightedBounds(E1(t, p), E2(t, p), E0(t, p), Area(t), t.b.z - t.a.z, t.c.z - t.a.z, lo, hi);
    CDivBounds(ZdxNum(t) * (p.x - t.a.x) + ZdyNum(t) * (p.y - t.a.y), Area(t), lo, hi);
  }

  /** The depth of a covered point: the first corner's, plus the share of the others'
      differences that their weights give them, cut off toward zero. */
  lemma DepthIs(t: Tri, p: Point, d: int)
    requires Area(t) > 0
    ensures PlaneDepth(t, p) == t.a.z + d <==>
            var n := E2(t, p) * (t.b.z - t.a.z) + E0(t, p) * (t.c.z - t.a.z);
            && (d > 0 ==> n > 0) && (d < 0 ==> n < 0)
            && (d >= 0 && n >= 0 ==> d * Area(t) <= n < (d + 1) * Area(t))
            && (d <= 0 && n <= 0 ==> -d * Area(t) <= -n < (-d + 1) * Area(t))
  {
    PlaneIsWeighted(t, p);
    CutIs(E2(t, p) * (t.b.z - t.a.z) + E0(t, p) * (t.c.z - t.a.z), Area(t), d);
    hide Area, E0, E2, ZdxNum, ZdyNum, CDiv;
  }

  lemma CutIs(n: int, area: int, d: int)
    requires area > 0
    ensures CDiv(n, area) == d <==>
            && (d > 0 ==> n > 0) && (d < 0 ==> n < 0)
            && (d >= 0 && n >= 0 ==> d * area <= n < (d + 1) * area)
            && (d <= 0 && n <= 0 ==> -d * area <= -n < (-d + 1) * area)
  {
    CutParts(if n >= 0 then n else -n, area);
    var q := CDiv(n, area);
    var e := if d >= 0 then d else -d;
    var m := if n >= 0 then n else -n;
    assert (e + 1) * area == e * area + area;
    if e * area <= m < (e + 1) * area {
      DivModUnique(m, area, e, m - e * area);
    }
  }

  lemma CutParts(m: int, area: int)
    requires area > 0 && m >= 0
    ensures m / area >= 0 && m / area * area <= m < (m / area + 1) * area && (m / area > 0 ==> m > 0)
  {
    assert m == m / area * area + m % area;
    assert (m / area + 1) * area == m / area * area + area;
  }

  // ---- what a pixel shows ----

  datatype Pix = Pix(z: int, color: Color)

  /** Triangle t wins a pixel that so far shows s. */
  predicate Wins(t: Tri, p: Point, s: Pix) { Faces(t) && Covers(t, p) && PlaneDepth(t, p) < s.z }

  function Draw(t: Tri, p: Point, s: Pix): Pix {
    if Wins(t, p, s) then Pix(PlaneDepth(t, p), t.color) else s
  }

  /** The pixel after the first n triangles. */
  function Shade(tris: seq<Tri>, n: nat, p: Point, s: Pix): Pix
    requires n <= |tris|
  {
    if n == 0 then s else Draw(tris[n - 1], p, Shade(tris, n - 1, p, s))
  }

  /** Triangle i is the first in the list to attain the least depth below s. */
  ghost predicate FirstNearest(tris: seq<Tri>, n: nat, p: Point, s: Pix, i: nat)
    requires n <= |tris|
  {
    && i < n && Wins(tris[i], p, s)
    && forall j | 0 <= j < n && Wins(tris[j], p, s) ::
         PlaneDepth(tris[i], p) <= PlaneDepth(tris[j], p) && (j < i ==> PlaneDepth(tris[i], p) < PlaneDepth(tris[j], p))
  }

  /** It does, and the pixel shows it. */
  ghost predicate Winner(tris: seq<Tri>, n: nat, p: Point, s: Pix, i: nat, r: Pix)
    requires n <= |tris|
  {
    FirstNearest(tris, n, p, s, i) && r == Pix(PlaneDepth(tris[i], p), tris[i].color)
  }

  /** EVERY PIXEL shows the first triangle of the least depth, or what was there. */
  lemma {:induction false} ShadeIsFirstNearest(tris: seq<Tri>, n: nat, p: Point, s: Pix)
    requires n <= |tris|
    ensures (forall i | 0 <= i < n :: !Wins(tris[i], p, s)) ==> Shade(tris, n, p, s) == s
    ensures (exists i | 0 <= i < n :: Wins(tris[i], p, s)) ==>
              exists i: nat :: i < n && Winner(tris, n, p, s, i, Shade(tris, n, p, s))
  {
    hide Winner, Wins, Draw;
    if n == 0 {
    } else {
      ShadeIsFirstNearest(tris, n - 1, p, s);
      var r, t := Shade(tris, n - 1, p, s), tris[n - 1];
      if exists i | 0 <= i < n - 1 :: Wins(tris[i], p, s) {
        var i: nat :| i < n - 1 && Winner(tris, n - 1, p, s, i, r);
        NextWinner(tris, n, p, s, i, r);
        var r' := Draw(t, p, r);
        assert Shade(tris, n, p, s) == r';
        if !Winner(tris, n, p, s, i, r') {
          assert Winner(tris, n, p, s, n - 1, r');
        }
      } else {
        FirstWinner(tris, n, p, s);
        if Wins(t, p, s) {
          assert Winner(tris, n, p, s, n - 1, Shade(tris, n, p, s));
        }
      }
    }
  }

  /** The n-th triangle against the winner so far. */
  lemma NextWinner(tris: seq<Tri>, n: nat, p: Point, s: Pix, i: nat, r: Pix)
    requires 0 < n <= |tris| && i < n - 1 && Winner(tris, n - 1, p, s, i, r)
    ensures Wins(tris[i], p, s)
    ensures var r' := Draw(tris[n - 1], p, r);
            Winner(tris, n, p, s, i, r') || Winner(tris, n, p, s, n - 1, r')
  {
    hide Covers, PlaneDepth, Faces;
  }

  lemma FirstWinner(tris: seq<Tri>, n: nat, p: Point, s: Pix)
    requires 0 < n <= |tris| && forall i | 0 <= i < n - 1 :: !Wins(tris[i], p, s)
    ensures if Wins(tris[n - 1], p, s) then Winner(tris, n, p, s, n - 1, Draw(tris[n - 1], p, s))
            else Draw(tris[n - 1], p, s) == s
  {
    hide Covers, PlaneDepth, Faces;
  }

  // ---- stepping the accumulators ----

  /** One pixel right adds A * ONE to an edge value, one down adds B * ONE. */
  lemma EdgeSteps(a: Vtx, b: Vtx, p: Point)
    ensures Edge(a, b, Point(p.x + ONE, p.y)) == Edge(a, b, p) + -(b.y - a.y) * ONE
    ensures Edge(a, b, Point(p.x, p.y + ONE)) == Edge(a, b, p) + (b.x - a.x) * ONE
  {
    var ux, uy := b.x - a.x, b.y - a.y;
    assert uy * (p.x + ONE - a.x) == uy * (p.x - a.x) + uy * ONE;
    assert ux * (p.y + ONE - a.y) == ux * (p.y - a.y) + ux * ONE;
  }

  lemma EdgeSetUp(a: Vtx, b: Vtx, p: Point)
    ensures Edge(a, b, p) == -(b.y - a.y) * (p.x - a.x) + (b.x - a.x) * (p.y - a.y)
  {}
}
