// Per-pixel overlap of two placed sprite masks, a row at a time.
// runtime/hx421_mask.c.
module MaskOverlap {
  import opened Arith
  import opened MaskWords

  const MAX_W: nat := 64

  /** A 1-bit mask: h rows of `stride` bytes, w pixels of each are real. */
  datatype Mask = Mask(w: nat, h: nat, stride: nat, bits: seq<bv8>)

  /** The shape every mask has: at least a pixel wide, whole rows present. */
  ghost predicate Shaped(m: Mask) {
    1 <= m.w && m.w <= m.stride * 8 && m.h * m.stride <= |m.bits|
  }

  lemma RowInside(m: Mask, y: nat)
    requires Shaped(m) && y < m.h
    ensures y * m.stride + m.stride <= |m.bits|
  {
    RowsFit(y, m.h - (y + 1), m.stride);
  }

  lemma RowsFit(y: nat, rest: nat, n: nat)
    ensures (y + 1 + rest) * n == y * n + n + rest * n && rest * n >= 0
  {}

  /** hx421_mask_get: clear outside the mask. */
  predicate Get(m: Mask, x: int, y: int)
    requires Shaped(m)
  {
    if x < 0 || y < 0 || x >= m.w || y >= m.h then false
    else
      RowInside(m, y);
      ByteBit(m.bits[y * m.stride + x / 8], x % 8)
  }

  // ---- a row as a word ----

  /** Byte i of a row, moved to its place in the word. */
  function Place(b: bv8, i: nat): bv64
    requires i < 8
  {
    Shl(Widen(b), 56 - 8 * i)
  }

  lemma PlacePx(b: bv8, i: nat, x: nat)
    requires i < 8 && x < 64
    ensures Px(Place(b, i), x) == (x / 8 == i && ByteBit(b, x % 8))
  {
    hide Px, Shl, Widen, ByteBit;
    ShlPx(Widen(b), 56 - 8 * i, x);
    if x + (56 - 8 * i) < 64 {
      WidenPx(b, x + (56 - 8 * i));
    }
  }

  /** The first n bytes of row y have been gathered. */
  ghost predicate Gathered(acc: bv64, row: seq<bv8>, n: nat)
    requires n <= |row|
  {
    forall x: nat | x < 64 :: Px(acc, x) == (x / 8 < n && ByteBit(row[x / 8], x % 8))
  }

  lemma GatherNothing(row: seq<bv8>)
    ensures Gathered(0, row, 0)
  {
    forall x: nat | x < 64
      ensures !Px(0, x)
    {
      ConstPx(x);
    }
  }

  lemma GatherMore(acc: bv64, row: seq<bv8>, n: nat)
    requires n < |row| && n < 8 && Gathered(acc, row, n)
    ensures Gathered(Or(acc, Place(row[n], n)), row, n + 1)
  {
    hide Px, ByteBit, Place, Or;
    forall x: nat | x < 64
      ensures Px(Or(acc, Place(row[n], n)), x) == (x / 8 < n + 1 && ByteBit(row[x / 8], x % 8))
    {
      AndPx(acc, Place(row[n], n), x);
      PlacePx(row[n], n, x);
    }
  }

  /** The word shows exactly the row's pixels: junk in the pad bits is gone. */
  ghost predicate ShowsRow(word: bv64, m: Mask, y: int)
    requires Shaped(m)
  {
    forall x: nat | x < 64 :: Px(word, x) == Get(m, x, y)
  }

  lemma ClearPad(acc: bv64, m: Mask, y: nat, n: nat)
    requires Shaped(m) && m.w <= MAX_W && y < m.h && n == if m.stride < 8 then m.stride else 8
    requires y * m.stride + m.stride <= |m.bits|
    requires Gathered(acc, m.bits[y * m.stride..y * m.stride + m.stride], n)
    ensures ShowsRow(if m.w < 64 then And(acc, Shl(FULL, 64 - m.w)) else acc, m, y)
  {
    hide Px, ByteBit, And, Shl;
    var word := if m.w < 64 then And(acc, Shl(FULL, 64 - m.w)) else acc;
    var row := m.bits[y * m.stride..y * m.stride + m.stride];
    forall x: nat | x < 64
      ensures Px(word, x) == Get(m, x, y)
    {
      if m.w < 64 {
        AndPx(acc, Shl(FULL, 64 - m.w), x);
        ShlPx(FULL, 64 - m.w, x);
        if x + (64 - m.w) < 64 {
          ConstPx(x + (64 - m.w));
        }
      }
      if x < m.w {
        assert row[x / 8] == m.bits[y * m.stride + x / 8];
      }
    }
  }

  /** row_word. */
  method RowWord(m: Mask, y: nat) returns (word: bv64)
    requires Shaped(m) && m.w <= MAX_W && y < m.h
    ensures ShowsRow(word, m, y)
  {
    hide Gathered, ShowsRow, Place, Or, And, Shl;
    RowInside(m, y);
    ghost var row := m.bits[y * m.stride..y * m.stride + m.stride];
    GatherNothing(row);
    var acc: bv64 := 0;
    var i := 0;
    while i < m.stride && i < 8
      invariant 0 <= i <= m.stride && i <= 8 && Gathered(acc, row, i)
    {
      GatherMore(acc, row, i);
      assert row[i] == m.bits[y * m.stride + i];
      acc := Or(acc, Place(m.bits[y * m.stride + i], i));
      i := i + 1;
    }
    ClearPad(acc, m, y, i);
    word := if m.w < 64 then And(acc, Shl(FULL, 64 - m.w)) else acc;
  }

  // ---- overlap ----

  /** A mask with its top-left corner at (x, y) in world pixels. */
  datatype Placed = Placed(m: Mask, x: int, y: int)

  /** World pixel (x, y) is set in both placed masks. */
  predicate Hit(a: Placed, b: Placed, x: int, y: int)
    requires Shaped(a.m) && Shaped(b.m)
  {
    Get(a.m, x - a.x, y - a.y) && Get(b.m, x - b.x, y - b.y)
  }

  datatype Order = TopLeft | TopRight | BottomLeft | BottomRight

  predicate Downward(o: Order) { o == TopLeft || o == TopRight }
  predicate Leftward(o: Order) { o == TopLeft || o == BottomLeft }

  /** (x, y) does not come after (u, v) in the scan order. */
  predicate NotAfter(o: Order, x: int, y: int, u: int, v: int) {
    if y == v then (if Leftward(o) then x <= u else x >= u)
    else if Downward(o) then y < v else y > v
  }

  /** THE FOUR ORDERS: from the top or from the bottom, and in a row from the left
      or from the right. */
  predicate ScansFirst(o: Order, x: int, y: int, u: int, v: int) {
    match o
    case TopLeft => y < v || (y == v && x <= u)
    case TopRight => y < v || (y == v && x >= u)
    case BottomLeft => y > v || (y == v && x <= u)
    case BottomRight => y > v || (y == v && x >= u)
  }

  lemma OrderIs(o: Order, x: int, y: int, u: int, v: int)
    ensures NotAfter(o, x, y, u, v) <==>
            match o
            case TopLeft => y < v || (y == v && x <= u)
            case TopRight => y < v || (y == v && x >= u)
            case BottomLeft => y > v || (y == v && x <= u)
            case BottomRight => y > v || (y == v && x >= u)
  {}

  lemma FirstScanned(a: Placed, b: Placed, o: Order, x: int, y: int)
    requires Shaped(a.m) && Shaped(b.m) && forall u, v | Hit(a, b, u, v) :: NotAfter(o, x, y, u, v)
    ensures forall u, v | Hit(a, b, u, v) :: ScansFirst(o, x, y, u, v)
  {
    hide Hit, Shaped, NotAfter;
    forall u, v | Hit(a, b, u, v)
      ensures ScansFirst(o, x, y, u, v)
    {
      OrderIs(o, x, y, u, v);
    }
  }

  /** hx421_mask_aabb. */
  predicate BoxesMeet(a: Placed, b: Placed) {
    && !(a.x + a.m.w <= b.x || b.x + b.m.w <= a.x)
    && !(a.y + a.m.h <= b.y || b.y + b.m.h <= a.y)
  }

  /** No hit in world row y. */
  ghost predicate RowClear(a: Placed, b: Placed, y: int)
    requires Shaped(a.m) && Shaped(b.m)
  {
    forall x :: !Hit(a, b, x, y)
  }

  /** (x, y) is a hit, and the first of its row. */
  ghost predicate RowFirst(a: Placed, b: Placed, o: Order, x: int, y: int)
    requires Shaped(a.m) && Shaped(b.m)
  {
    Hit(a, b, x, y) && forall u | Hit(a, b, u, y) :: NotAfter(o, x, y, u, y)
  }

  lemma NoMeetNoHit(a: Placed, b: Placed, x: int, y: int)
    requires Shaped(a.m) && Shaped(b.m) && Hit(a, b, x, y)
    ensures BoxesMeet(a, b) && 0 <= x - a.x < a.m.w && 0 <= y - a.y < a.m.h
    ensures 0 <= x - b.x < b.m.w && 0 <= y - b.y < b.m.h
  {}

  /** Row word of b, moved into a's columns; dx is b's offset from a. */
  function Aligned(wb: bv64, dx: int): bv64 {
    if dx >= 0 then (if dx >= 64 then 0 else Shr(wb, dx)) else (if -dx >= 64 then 0 else Shl(wb, -dx))
  }

  /** One AND compares a whole row. */
  lemma RowAnd(a: Placed, b: Placed, y: int, wa: bv64, wb: bv64, x: nat)
    requires Shaped(a.m) && Shaped(b.m) && a.m.w <= MAX_W && b.m.w <= MAX_W && x < 64
    requires ShowsRow(wa, a.m, y - a.y) && ShowsRow(wb, b.m, y - b.y)
    ensures Px(And(wa, Aligned(wb, b.x - a.x)), x) == Hit(a, b, a.x + x, y)
  {
    hide Px, And, Shr, Shl, Get;
    var dx := b.x - a.x;
    AndPx(wa, Aligned(wb, dx), x);
    assert Px(wa, x) == Get(a.m, x, y - a.y);
    if dx >= 64 || dx <= -64 {
      ConstPx(x);
    } else if dx >= 0 {
      ShrPx(wb, dx, x);
    } else {
      ShlPx(wb, -dx, x);
    }
    OutsideIsClear(b.m, x - dx, y - b.y);
  }

  lemma OutsideIsClear(m: Mask, x: int, y: int)
    requires Shaped(m) && m.w <= MAX_W
    ensures x < 0 || x >= 64 ==> !Get(m, x, y)
  {}

  /** The word shows the hits of world row y, from column a.x on. */
  ghost predicate ShowsHits(both: bv64, a: Placed, b: Placed, y: int)
    requires Shaped(a.m) && Shaped(b.m)
  {
    forall x: nat | x < 64 :: Px(both, x) == Hit(a, b, a.x + x, y)
  }

  lemma HitHasPixel(both: bv64, a: Placed, b: Placed, x: int, y: int)
    requires Shaped(a.m) && Shaped(b.m) && a.m.w <= MAX_W && ShowsHits(both, a, b, y) && Hit(a, b, x, y)
    ensures 0 <= x - a.x < 64 && Px(both, x - a.x)
  {
    hide Px;
    NoMeetNoHit(a, b, x, y);
    hide Hit;
    var c: nat := x - a.x;
    assert Px(both, c) == Hit(a, b, a.x + c, y);
  }

  lemma ZeroIsClear(both: bv64, a: Placed, b: Placed, y: int)
    requires Shaped(a.m) && Shaped(b.m) && a.m.w <= MAX_W && ShowsHits(both, a, b, y) && both == 0
    ensures RowClear(a, b, y)
  {
    hide Px, Hit, ShowsHits;
    forall x
      ensures !Hit(a, b, x, y)
    {
      if Hit(a, b, x, y) {
        HitHasPixel(both, a, b, x, y);
        ConstPx(x - a.x);
      }
    }
  }

  /** The searches give the first hit of the row in the scan's direction. */
  lemma SearchIsFirst(both: bv64, a: Placed, b: Placed, y: int, o: Order)
    requires Shaped(a.m) && Shaped(b.m) && a.m.w <= MAX_W && ShowsHits(both, a, b, y) && both != 0
    ensures RowFirst(a, b, o, a.x + (if Leftward(o) then FirstLeft(both) else FirstRight(both)), y)
  {
    hide Px, Hit, FirstLeft, FirstRight;
    FirstPixels(both);
    var col := if Leftward(o) then FirstLeft(both) else FirstRight(both);
    assert Px(both, col) == Hit(a, b, a.x + col, y);
    forall u | Hit(a, b, u, y)
      ensures NotAfter(o, a.x + col, y, u, y)
    {
      HitHasPixel(both, a, b, u, y);
    }
  }

  lemma RowAt(word: bv64, m: Mask, y: int, c: nat)
    requires Shaped(m) && ShowsRow(word, m, y) && c < 64
    ensures Px(word, c) == Get(m, c, y)
  {}

  /** A row where either mask's word is zero is clear. */
  lemma ZeroWordClears(a: Placed, b: Placed, y: int, word: bv64, ofB: bool)
    requires Shaped(a.m) && Shaped(b.m) && a.m.w <= MAX_W && b.m.w <= MAX_W && word == 0
    requires if ofB then ShowsRow(word, b.m, y - b.y) else ShowsRow(word, a.m, y - a.y)
    ensures RowClear(a, b, y)
  {
    forall x
      ensures !Hit(a, b, x, y)
    {
      if Hit(a, b, x, y) {
        NoMeetNoHit(a, b, x, y);
        hide Px, Get;
        var c: nat := if ofB then x - b.x else x - a.x;
        ConstPx(c);
        RowAt(word, if ofB then b.m else a.m, if ofB then y - b.y else y - a.y, c);
      }
    }
  }

  /** One row of the scan. */
  method TestRow(a: Placed, b: Placed, y: int, o: Order) returns (r: Option<nat>)
    requires Shaped(a.m) && Shaped(b.m) && a.m.w <= MAX_W && b.m.w <= MAX_W
    requires 0 <= y - a.y < a.m.h && 0 <= y - b.y < b.m.h
    ensures r == None ==> RowClear(a, b, y)
    ensures r.Some? ==> RowFirst(a, b, o, a.x + r.value, y)
  {
    hide ShowsRow, Hit, Aligned, And, RowClear, RowFirst, FirstLeft, FirstRight, Px;
    var wa := RowWord(a.m, y - a.y);
    if wa == 0 {
      ZeroWordClears(a, b, y, wa, false);
      return None;
    }
    var wb := RowWord(b.m, y - b.y);
    if wb == 0 {
      ZeroWordClears(a, b, y, wb, true);
      return None;
    }
    var both := And(wa, Aligned(wb, b.x - a.x));
    forall x: nat | x < 64
      ensures Px(both, x) == Hit(a, b, a.x + x, y)
    {
      RowAnd(a, b, y, wa, wb, x);
    }
    if both == 0 {
      ZeroIsClear(both, a, b, y);
      return None;
    }
    SearchIsFirst(both, a, b, y, o);
    return Some(if Leftward(o) then FirstLeft(both) else FirstRight(both));
  }

  /** Row number k of the scan over a's rows y0 .. y1-1, from the top or from the bottom. */
  function ScanRow(o: Order, y0: int, y1: int, k: int): int { if Downward(o) then k else y1 - 1 - (k - y0) }

  function BandTop(a: Placed, b: Placed): int { if b.y - a.y > 0 then b.y - a.y else 0 }
  function BandEnd(a: Placed, b: Placed): int { if b.y - a.y + b.m.h > a.m.h then a.m.h else b.y - a.y + b.m.h }

  /** The rows scanned before number k are clear. */
  ghost predicate ScannedClear(a: Placed, b: Placed, o: Order, k: int)
    requires Shaped(a.m) && Shaped(b.m)
  {
    forall j | BandTop(a, b) <= j < k && j < BandEnd(a, b) ::
      RowClear(a, b, a.y + ScanRow(o, BandTop(a, b), BandEnd(a, b), j))
  }

  /** Every hit lies in the band; so does the number of its row. */
  lemma HitInBand(a: Placed, b: Placed, o: Order, x: int, y: int) returns (j: int)
    requires Shaped(a.m) && Shaped(b.m) && Hit(a, b, x, y)
    ensures BandTop(a, b) <= j < BandEnd(a, b) && a.y + ScanRow(o, BandTop(a, b), BandEnd(a, b), j) == y
    ensures Downward(o) ==> j == y - a.y
    ensures !Downward(o) ==> j == BandEnd(a, b) - 1 + BandTop(a, b) - (y - a.y)
  {
    NoMeetNoHit(a, b, x, y);
    j := ScanRow(o, BandTop(a, b), BandEnd(a, b), y - a.y);
  }

  lemma ScannedAt(a: Placed, b: Placed, o: Order, k: int, j: int)
    requires Shaped(a.m) && Shaped(b.m) && ScannedClear(a, b, o, k) && BandTop(a, b) <= j < BandEnd(a, b) && j < k
    ensures RowClear(a, b, a.y + ScanRow(o, BandTop(a, b), BandEnd(a, b), j))
  {}

  lemma NoneInBand(a: Placed, b: Placed, o: Order, k: int)
    requires Shaped(a.m) && Shaped(b.m) && k >= BandEnd(a, b) && ScannedClear(a, b, o, k)
    ensures forall x, y :: !Hit(a, b, x, y)
  {
    hide Hit, Shaped, BandTop, BandEnd, ScanRow;
    forall x, y
      ensures !Hit(a, b, x, y)
    {
      if Hit(a, b, x, y) {
        var j := HitInBand(a, b, o, x, y);
        ScannedAt(a, b, o, k, j);
      }
    }
  }

  /** Rows before the first hit row are clear, so its first hit is the first of all. */
  lemma FirstInBand(a: Placed, b: Placed, o: Order, k: int, x: int, y: int)
    requires Shaped(a.m) && Shaped(b.m) && BandTop(a, b) <= k < BandEnd(a, b) && ScannedClear(a, b, o, k)
    requires y == a.y + ScanRow(o, BandTop(a, b), BandEnd(a, b), k) && RowFirst(a, b, o, x, y)
    ensures forall u, v | Hit(a, b, u, v) :: NotAfter(o, x, y, u, v)
  {
    hide Hit, Shaped, BandTop, BandEnd;
    forall u, v | Hit(a, b, u, v)
      ensures NotAfter(o, x, y, u, v)
    {
      var j := HitInBand(a, b, o, u, v);
      if j < k {
        ScannedAt(a, b, o, k, j);
      }
    }
  }

  lemma ScannedMore(a: Placed, b: Placed, o: Order, k: int)
    requires Shaped(a.m) && Shaped(b.m) && ScannedClear(a, b, o, k)
    requires RowClear(a, b, a.y + ScanRow(o, BandTop(a, b), BandEnd(a, b), k))
    ensures ScannedClear(a, b, o, k + 1)
  {}

  lemma RowsInBand(a: Placed, b: Placed, o: Order, k: int)
    requires BandTop(a, b) <= k < BandEnd(a, b)
    ensures var r := ScanRow(o, BandTop(a, b), BandEnd(a, b), k); 0 <= r < a.m.h && 0 <= a.y + r - b.y < b.m.h
  {}

  /** A coordinate as it is stored in 16 bits. */
  function Int16(x: int): int { (x + 0x8000) % 0x1_0000 - 0x8000 }

  /** The stored contact is the contact exactly on a world of 16-bit coordinates. */
  lemma Int16Exact(x: int)
    ensures Int16(x) == x <==> -0x8000 <= x < 0x8000
  {
    if -0x8000 <= x < 0x8000 {
      DivModUnique(x + 0x8000, 0x1_0000, 0, x + 0x8000);
    }
  }

  /** hx421_mask_overlap: a hit if and only if some world pixel is set in both,
      and then the first such pixel in the scan order, stored in 16 bits. */
  method Overlap(a: Placed, b: Placed, o: Order) returns (hit: Option<(int, int)>, ghost at: Option<(int, int)>)
    requires Shaped(a.m) && Shaped(b.m)
    ensures a.m.w > MAX_W || b.m.w > MAX_W ==> hit == None
    ensures a.m.w <= MAX_W && b.m.w <= MAX_W ==>
              && (hit == None <==> forall x, y :: !Hit(a, b, x, y))
              && (hit.Some? <==> at.Some?)
              && (hit.Some? ==>
                    Hit(a, b, at.value.0, at.value.1)
                    && (forall x, y | Hit(a, b, x, y) :: NotAfter(o, at.value.0, at.value.1, x, y))
                    && hit.value == (Int16(at.value.0), Int16(at.value.1))
                    && (forall x, y | Hit(a, b, x, y) :: ScansFirst(o, at.value.0, at.value.1, x, y)))
  {
    if a.m.w > MAX_W || b.m.w > MAX_W { return None, None; }
    if !BoxesMeet(a, b) {
      BoxesApart(a, b);
      return None, None;
    }
    var y0 := BandTop(a, b);
    var y1 := BandEnd(a, b);
    var k := y0;
    assert ScannedClear(a, b, o, k);
    hide Hit, Shaped, ScannedClear, RowClear, ScanRow, BandTop, BandEnd, BoxesMeet, NotAfter, ScansFirst, Int16;
    while k < y1
      invariant y0 <= k && ScannedClear(a, b, o, k)
    {
      var y := ScanRow(o, y0, y1, k);
      RowsInBand(a, b, o, k);
      var col := TestRow(a, b, a.y + y, o);
      if col.Some? {
        FirstInBand(a, b, o, k, a.x + col.value, a.y + y);
        FirstScanned(a, b, o, a.x + col.value, a.y + y);
        at := Some((a.x + col.value, a.y + y));
        return Some((Int16(a.x + col.value), Int16(a.y + y))), at;
      }
      ScannedMore(a, b, o, k);
      k := k + 1;
    }
    NoneInBand(a, b, o, k);
    return None, None;
  }

  lemma BoxesApart(a: Placed, b: Placed)
    requires Shaped(a.m) && Shaped(b.m) && !BoxesMeet(a, b)
    ensures forall x, y :: !Hit(a, b, x, y)
  {
    hide Get;
    forall x, y
      ensures !Hit(a, b, x, y)
    {
      if Hit(a, b, x, y) { NoMeetNoHit(a, b, x, y); }
    }
  }
}
