// The streaming rings as values: where the writer and the reader stand, and
// what an unread byte must be. firmware/audio/hx421_stream.c.
module Streams {
  import opened Arith

  const FRAME: nat := 4
  const STREAMS: nat := 4
  const U32: nat := 0x1_0000_0000

  /** The last two fields are the model's own account of a start or a seek, which
      move the writer to the ring's base wherever the reader is: the bytes written
      from `since` on are the source's from `origin` on, those before are stale. */
  datatype Stream = Stream(
    base: nat, ringSize: nat, dataOff: nat, dataBytes: nat, primeBytes: nat,
    writePos: nat, filePos: nat, active: bool, looping: bool, primed: bool, prio: nat,
    since: nat := 0, origin: nat := 0)

  /** x & ~(FRAME - 1). */
  function Trim(x: nat): (r: nat)
    ensures r <= x < r + FRAME && r % FRAME == 0
  {
    x - x % FRAME
  }

  /** The refill size hx421_stream_arb_init settles on. */
  function ChunkOf(chunk: nat): (r: nat)
    ensures r >= FRAME && r % FRAME == 0
  {
    if chunk == 0 then 4096 else if Trim(chunk) < FRAME then FRAME else Trim(chunk)
  }

  /** The ring and data sizes hx421_stream_start accepts. */
  predicate StartOk(ringSize: nat, chunk: nat, dataBytes: nat) {
    ringSize >= 2 * chunk && ringSize % FRAME == 0 && dataBytes >= FRAME
  }

  // ---- pointers ----

  /** Where byte k of a stream lies in a cycle of n. */
  function Pos(k: nat, n: nat): (p: nat)
    requires n > 0
    ensures p < n
  {
    k % n
  }

  lemma PosAdd(w: nat, j: nat, n: nat)
    requires n > 0 && Pos(w, n) + j <= n
    ensures Pos(w + j, n) == if Pos(w, n) + j == n then 0 else Pos(w, n) + j
  {
    assert w == w / n * n + w % n;
    if w % n + j == n {
      DivModUnique(w + j, n, w / n + 1, 0);
    } else {
      DivModUnique(w + j, n, w / n, w % n + j);
    }
  }

  lemma PosDistinct(a: nat, b: nat, n: nat)
    requires n > 0 && Pos(a, n) == Pos(b, n) && a < b + n && b < a + n
    ensures a == b
  {
    SameResidueNear(a, b, n);
  }

  /** Positions in a frame-aligned cycle are frame-aligned. */
  lemma PosAligned(w: nat, n: nat)
    requires n > 0 && w % FRAME == 0 && n % FRAME == 0
    ensures Pos(w, n) % FRAME == 0
  {
    var q, f, g := w / n, w / FRAME, n / FRAME;
    assert w == q * n + w % n && w == f * FRAME && n == g * FRAME;
    assert q * n == q * g * FRAME;
    assert w % n == (f - q * g) * FRAME;
    DivModUnique(w % n, FRAME, f - q * g, 0);
  }

  /** The next place at or after r where a ring of n begins. */
  function Lap(r: nat, n: nat): nat {
    if n == 0 || Pos(r, n) == 0 then r else r + (n - Pos(r, n))
  }

  lemma LapIs(r: nat, n: nat)
    requires n > 0
    ensures r <= Lap(r, n) < r + n && Pos(Lap(r, n), n) == 0
    ensures r % FRAME == 0 && n % FRAME == 0 ==> Lap(r, n) % FRAME == 0 && Lap(r, n) - r + FRAME <= n
  {
    hide Pos;
    if Pos(r, n) > 0 {
      PosAdd(r, n - Pos(r, n), n);
    }
    if r % FRAME == 0 && n % FRAME == 0 {
      PosAligned(r, n);
      AlignedMoves(r, n, Pos(r, n));
    }
  }

  lemma AlignedMoves(r: nat, n: nat, p: nat)
    requires r % FRAME == 0 && n % FRAME == 0 && p % FRAME == 0 && p <= n
    ensures (r + (n - p)) % FRAME == 0 && (p > 0 ==> n - p + FRAME <= n)
  {}

  /** fill_of's arithmetic, in 32 bits. */
  function FillArith(writePos: nat, ringSize: nat, rp: nat): nat
    requires ringSize > 0
  {
    var r := if rp >= ringSize then rp % ringSize else rp;
    (writePos + ringSize - r) % U32 % ringSize
  }

  /** The bytes written and not consumed, from two positions in the ring. */
  lemma FillIsUnread(w: nat, r: nat, ringSize: nat)
    requires 0 < ringSize <= U32 / 2 && r <= w < r + ringSize
    ensures FillArith(Pos(w, ringSize), ringSize, Pos(r, ringSize)) == w - r
  {
    var n, a, b := ringSize, w % ringSize, r % ringSize;
    var q := w / n - r / n;
    assert w == w / n * n + a && r == r / n * n + b;
    assert w - r == q * n + (a - b);
    assert 0 < a + n - b < U32;
    DivModUnique(a + n - b, U32, 0, a + n - b);
    assert a + n - b == (1 - q) * n + (w - r);
    DivModUnique(a + n - b, n, 1 - q, w - r);
  }

  ghost predicate FillAlwaysExact(ringSize: nat)
    requires ringSize > 0
  {
    forall a, b | 0 <= a < ringSize && 0 <= b < ringSize :: FillArith(a, ringSize, b) == (a - b) % ringSize
  }

  /** The 32-bit sum is safe exactly for rings of at most half the address space. */
  lemma FillExactIff(ringSize: nat)
    requires 0 < ringSize < U32
    ensures FillAlwaysExact(ringSize) <==> ringSize <= U32 / 2
  {
    if ringSize <= U32 / 2 {
      forall a, b | 0 <= a < ringSize && 0 <= b < ringSize
        ensures FillArith(a, ringSize, b) == (a - b) % ringSize
      {
        DivModUnique(a + ringSize - b, U32, 0, a + ringSize - b);
        ModShift(a - b, ringSize, 1);
      }
    } else {
      var a := ringSize - 1;
      DivModUnique(a + ringSize, U32, 1, a + ringSize - U32);
      DivModUnique(a + ringSize - U32, ringSize, 0, a + ringSize - U32);
      DivModUnique(a - 0, ringSize, 0, a);
      assert FillArith(a, ringSize, 0) != (a - 0) % ringSize;
    }
  }

  /** target_of. */
  function Target(st: Stream, chunk: nat, highWm: nat): nat {
    var rs := st.ringSize;
    var t := if rs > chunk then rs - chunk else if rs > FRAME then rs - FRAME else 0;
    if highWm != 0 && highWm < t then highWm else t
  }

  /** The primed head: how much must be buffered before the stream is ready. */
  function Head(st: Stream, target: nat): nat {
    var head := if st.primeBytes != 0 then st.primeBytes else target;
    if head > target then target else head
  }

  /** The refill size: the one asked for in whole frames, one frame at least, or
      4096 bytes if none was asked for. */
  lemma ChunkIs(asked: nat, k: nat)
    ensures ChunkOf(0) == 4096
    ensures 0 < asked < 4 ==> ChunkOf(asked) == 4
    ensures k > 0 && 4 * k <= asked < 4 * k + 4 ==> ChunkOf(asked) == 4 * k
  {
    if k > 0 && 4 * k <= asked < 4 * k + 4 {
      DivModUnique(asked, FRAME, k, asked - 4 * k);
    }
  }

  /** How full a started ring is kept: to a chunk short of its size, or to the
      high-water mark if that is less; and the head is what the start asked for,
      if that is less again. */
  lemma TargetIs(st: Stream, chunk: nat, highWm: nat)
    requires 0 < chunk && 2 * chunk <= st.ringSize
    ensures var full := st.ringSize - chunk;
            Target(st, chunk, highWm) == if 0 < highWm < full then highWm else full
    ensures var t := Target(st, chunk, highWm);
            Head(st, t) == if 0 < st.primeBytes < t then st.primeBytes else t
  {}

  // ---- the meaning of a ring ----

  /** Byte k of what the stream delivers, `since` or later: the data region from
      `origin` on, once, or over and over. */
  function Source(st: Stream, file: seq<Byte>, k: nat): Byte
    requires st.since <= k
  {
    var j := st.origin + (k - st.since);
    var i := st.dataOff + if st.looping && st.dataBytes > 0 then Pos(j, st.dataBytes) else j;
    if i < |file| then file[i] else 0
  }

  /** WHAT A STREAM DELIVERS: j bytes after a start or a seek to `origin`, the
      file's byte there, and for a loop the data region again and again. */
  lemma SourceIs(st: Stream, file: seq<Byte>, j: nat, lap: nat)
    requires st.dataOff + st.dataBytes <= |file|
    ensures st.origin + j < st.dataBytes ==> Source(st, file, st.since + j) == file[st.dataOff + st.origin + j]
    ensures st.looping && st.origin + j < st.dataBytes ==>
              Source(st, file, st.since + (lap * st.dataBytes + j)) == file[st.dataOff + st.origin + j]
    ensures st.looping && j < st.dataBytes && st.origin <= lap * st.dataBytes + j ==>
              Source(st, file, st.since + (lap * st.dataBytes + j - st.origin)) == file[st.dataOff + j]
  {
    if st.looping && st.origin + j < st.dataBytes {
      DivModUnique(st.origin + j, st.dataBytes, 0, st.origin + j);
      DivModUnique(st.origin + (lap * st.dataBytes + j), st.dataBytes, lap, st.origin + j);
    }
    if st.looping && j < st.dataBytes && st.origin <= lap * st.dataBytes + j {
      DivModUnique(lap * st.dataBytes + j, st.dataBytes, lap, j);
    }
  }

  /** A stream that was started on a ring inside the memory. */
  ghost predicate Started(st: Stream, chunk: nat, memSize: nat, file: seq<Byte>) {
    && FRAME <= chunk && chunk % FRAME == 0
    && 2 * chunk <= st.ringSize <= U32 / 2 && st.ringSize % FRAME == 0
    && st.base + st.ringSize <= memSize
    && FRAME <= st.dataBytes && st.dataBytes % FRAME == 0 && st.dataOff + st.dataBytes <= |file|
    && st.primeBytes % FRAME == 0 && st.prio <= 3
  }

  /** w bytes were written and r of them read since the start. */
  ghost predicate Positions(st: Stream, w: nat, r: nat)
    requires st.ringSize > 0 && st.dataBytes > 0
  {
    && w % FRAME == 0 && r % FRAME == 0 && st.since % FRAME == 0 && st.origin % FRAME == 0
    && r <= w && w - r + FRAME <= st.ringSize && st.since <= w && st.origin <= st.dataBytes
    && st.writePos == Pos(w, st.ringSize)
    && var j := st.origin + (w - st.since);
    if st.looping then st.filePos == Pos(j, st.dataBytes) else st.filePos == j <= st.dataBytes
  }

  /** THE UNREAD BYTES of the ring, stale ones aside, are the next source bytes, in
      order. */
  ghost predicate Unread(st: Stream, file: seq<Byte>, mem: seq<Byte>, w: nat, r: nat)
    requires st.ringSize > 0 && st.base + st.ringSize <= |mem|
  {
    forall k | r <= k < w && st.since <= k :: RingByte(st, mem, k) == Source(st, file, k)
  }

  function RingByte(st: Stream, mem: seq<Byte>, k: nat): Byte
    requires st.ringSize > 0 && st.base + st.ringSize <= |mem|
  {
    mem[st.base + Pos(k, st.ringSize)]
  }

  /** Ready only with its head loaded; not ready only while the head is not, or
      nothing was loaded yet. */
  ghost predicate PrimedOk(st: Stream, chunk: nat, highWm: nat, w: nat, r: nat) {
    var head := Head(st, Target(st, chunk, highWm));
    && (st.primed ==> w >= head)
    && (!st.primed ==> w - r < head || w == st.since)
  }

  ghost predicate StreamOk(st: Stream, chunk: nat, highWm: nat, file: seq<Byte>, mem: seq<Byte>, w: nat, r: nat) {
    && Started(st, chunk, |mem|, file)
    && Positions(st, w, r)
    && Unread(st, file, mem, w, r)
    && PrimedOk(st, chunk, highWm, w, r)
  }

  /** Memory after `len` file bytes were copied to `addr`. */
  function Copied(mem: seq<Byte>, addr: nat, file: seq<Byte>, off: nat, len: nat): (m: seq<Byte>)
    requires addr + len <= |mem| && off + len <= |file|
    ensures |m| == |mem|
  {
    mem[..addr] + file[off..off + len] + mem[addr + len..]
  }

  // ---- one refill ----

  /** How much one refill may carry. */
  function RunOf(st: Stream, chunk: nat, room: nat): nat
    requires st.writePos <= st.ringSize && st.filePos <= st.dataBytes
  {
    Trim(Min(Min(Min(chunk, room), st.ringSize - st.writePos), st.dataBytes - st.filePos))
  }

  /** THE LARGEST WHOLE FRAMES that fit the chunk, the room, the rest of the ring
      and the rest of the data. */
  lemma RunIsLargest(st: Stream, chunk: nat, room: nat, m: nat)
    requires st.writePos <= st.ringSize && st.filePos <= st.dataBytes
    ensures var run := RunOf(st, chunk, room);
            run % 4 == 0 && run <= chunk && run <= room && st.writePos + run <= st.ringSize &&
            st.filePos + run <= st.dataBytes
    ensures m % 4 == 0 && m <= chunk && m <= room && st.writePos + m <= st.ringSize && st.filePos + m <= st.dataBytes
            ==> m <= RunOf(st, chunk, room)
  {}

  /** The stream after a refill of `run` bytes; `primed` is decided separately. */
  function AfterRefill(st: Stream, run: nat): Stream {
    var w := st.writePos + run;
    var f := st.filePos + run;
    st.(writePos := if w >= st.ringSize then w - st.ringSize else w,
        filePos := if f >= st.dataBytes && st.looping then 0 else f)
  }

  lemma RefillKeepsPositions(st: Stream, chunk: nat, highWm: nat, file: seq<Byte>, memSize: nat, w: nat, r: nat,
                             room: nat)
    requires Started(st, chunk, memSize, file) && Positions(st, w, r)
    requires st.filePos < st.dataBytes
    requires w - r + room <= Target(st, chunk, highWm)
    ensures st.writePos < st.ringSize
    ensures var run := RunOf(st, chunk, room);
            && run % FRAME == 0 && run <= chunk && run <= room
            && st.writePos + run <= st.ringSize && st.filePos + run <= st.dataBytes
            && Positions(AfterRefill(st, run), w + run, r)
    ensures room >= FRAME ==> RunOf(st, chunk, room) >= FRAME
  {
    PositionsAlign(st, chunk, memSize, file, w, r);
    TargetBound(st, chunk, highWm);
    hide Pos, RunOf, Target, Positions, Started, AfterRefill;
    RunFits(st, chunk, room);
    RefillPositions(st, chunk, w, r, RunOf(st, chunk, room));
  }

  lemma TargetBound(st: Stream, chunk: nat, highWm: nat)
    ensures FRAME <= chunk && 2 * chunk <= st.ringSize ==> Target(st, chunk, highWm) + chunk <= st.ringSize
  {}

  lemma PositionsAlign(st: Stream, chunk: nat, memSize: nat, file: seq<Byte>, w: nat, r: nat)
    requires Started(st, chunk, memSize, file) && Positions(st, w, r)
    ensures FRAME <= chunk && 2 * chunk <= st.ringSize && r <= w && st.dataBytes > 0
    ensures st.writePos + FRAME <= st.ringSize && st.filePos <= st.dataBytes
    ensures st.filePos < st.dataBytes ==> st.filePos + FRAME <= st.dataBytes
  {
    hide Pos;
    PosAligned(w, st.ringSize);
    AlignedPlace(st.origin, w, st.since);
    if st.looping {
      PosAligned(st.origin + (w - st.since), st.dataBytes);
    }
    FrameBefore(st.writePos, st.ringSize);
    FrameBefore(st.filePos, st.dataBytes);
  }

  lemma AlignedPlace(origin: nat, w: nat, since: nat)
    requires origin % FRAME == 0 && w % FRAME == 0 && since % FRAME == 0 && since <= w
    ensures (origin + (w - since)) % FRAME == 0
  {}

  lemma FrameBefore(p: nat, n: nat)
    ensures p < n && p % FRAME == 0 && n % FRAME == 0 ==> p + FRAME <= n
  {}

  lemma RunFits(st: Stream, chunk: nat, room: nat)
    requires st.writePos <= st.ringSize && st.filePos <= st.dataBytes
    ensures var run := RunOf(st, chunk, room);
            && run % FRAME == 0 && run <= chunk && run <= room
            && st.writePos + run <= st.ringSize && st.filePos + run <= st.dataBytes
    ensures room >= FRAME && chunk >= FRAME && st.writePos + FRAME <= st.ringSize &&
            st.filePos + FRAME <= st.dataBytes ==>
              RunOf(st, chunk, room) >= FRAME
  {}

  lemma RefillPositions(st: Stream, chunk: nat, w: nat, r: nat, run: nat)
    requires st.ringSize > 0 && st.dataBytes > 0 && Positions(st, w, r)
    requires run % FRAME == 0 && st.writePos + run <= st.ringSize && st.filePos + run <= st.dataBytes
    requires w + run - r + FRAME <= st.ringSize
    ensures Positions(AfterRefill(st, run), w + run, r)
  {
    hide Pos;
    PosAdd(w, run, st.ringSize);
    if st.looping {
      PosAdd(st.origin + (w - st.since), run, st.dataBytes);
    }
  }

  /** NO OFFLOAD TOUCHES AN UNREAD BYTE, and what it writes is the next source data. */
  lemma RefillKeepsUnread(st: Stream, chunk: nat, highWm: nat, file: seq<Byte>, mem: seq<Byte>, w: nat, r: nat,
                          run: nat)
    requires Started(st, chunk, |mem|, file) && Positions(st, w, r) && Unread(st, file, mem, w, r)
    requires w + run - r < st.ringSize
    requires st.writePos + run <= st.ringSize && st.filePos + run <= st.dataBytes
    ensures Unread(AfterRefill(st, run), file,
                   Copied(mem, st.base + st.writePos, file, st.dataOff + st.filePos, run), w + run, r)
  {
    hide Pos, Positions, Copied;
    var now := Copied(mem, st.base + st.writePos, file, st.dataOff + st.filePos, run);
    var after := AfterRefill(st, run);
    forall k | r <= k < w + run && after.since <= k
      ensures RingByte(after, now, k) == Source(after, file, k)
    {
      if k < w {
        assert RingByte(st, mem, k) == Source(st, file, k);
        OldByte(st, file, mem, w, r, k, run);
      } else {
        NewByte(st, file, mem, w, r, k - w, run);
      }
    }
  }

  lemma OldByte(st: Stream, file: seq<Byte>, mem: seq<Byte>, w: nat, r: nat, k: nat, run: nat)
    requires st.ringSize > 0 && st.dataBytes > 0 && st.base + st.ringSize <= |mem| && Positions(st, w, r)
    requires st.dataOff + st.dataBytes <= |file|
    requires k < w && w + run < k + st.ringSize && st.since <= k
    requires st.writePos + run <= st.ringSize && st.filePos + run <= st.dataBytes
    ensures RingByte(st, Copied(mem, st.base + st.writePos, file, st.dataOff + st.filePos, run), k) ==
            RingByte(st, mem, k)
  {
    hide Pos;
    OldByteStays(st, w, k, run);
  }

  /** Byte j of the run is the source's next but j. */
  lemma NewByte(st: Stream, file: seq<Byte>, mem: seq<Byte>, w: nat, r: nat, j: nat, run: nat)
    requires st.ringSize > 0 && st.dataBytes > 0 && st.base + st.ringSize <= |mem| && Positions(st, w, r)
    requires st.dataOff + st.dataBytes <= |file| && j < run
    requires st.writePos + run <= st.ringSize && st.filePos + run <= st.dataBytes
    ensures st.since <= w + j
    ensures RingByte(st, Copied(mem, st.base + st.writePos, file, st.dataOff + st.filePos, run), w + j) ==
            Source(st, file, w + j)
  {
    hide Pos;
    PosAdd(w, j, st.ringSize);
    if st.looping {
      PosAdd(st.origin + (w - st.since), j, st.dataBytes);
    }
    assert st.origin + (w + j - st.since) == st.origin + (w - st.since) + j;
  }

  /** An unread byte lies outside the run about to be written. */
  lemma OldByteStays(st: Stream, w: nat, k: nat, run: nat)
    requires st.ringSize > 0 && k < w && w + run < k + st.ringSize
    requires st.writePos == Pos(w, st.ringSize) && st.writePos + run <= st.ringSize
    ensures Pos(k, st.ringSize) < st.writePos || st.writePos + run <= Pos(k, st.ringSize)
  {
    hide Pos;
    var d := Pos(k, st.ringSize) - st.writePos;
    if 0 <= d < run {
      PosAdd(w, d, st.ringSize);
      PosDistinct(w + d, k, st.ringSize);
    }
  }

  /** A copy outside a ring leaves its unread bytes alone. */
  lemma CopyElsewhere(st: Stream, file: seq<Byte>, mem: seq<Byte>, w: nat, r: nat,
                      addr: nat, src: seq<Byte>, off: nat, len: nat)
    requires st.ringSize > 0 && st.base + st.ringSize <= |mem| && Unread(st, file, mem, w, r)
    requires addr + len <= |mem| && off + len <= |src|
    requires addr + len <= st.base || st.base + st.ringSize <= addr
    ensures Unread(st, file, Copied(mem, addr, src, off, len), w, r)
  {
    var now := Copied(mem, addr, src, off, len);
    forall k | r <= k < w && st.since <= k
      ensures RingByte(st, now, k) == Source(st, file, k)
    {
      assert RingByte(st, mem, k) == Source(st, file, k);
    }
  }

  /** The reader moves on: everything still holds. */
  lemma ReadingKeeps(st: Stream, chunk: nat, highWm: nat, file: seq<Byte>, mem: seq<Byte>, w: nat, r: nat, r': nat)
    requires StreamOk(st, chunk, highWm, file, mem, w, r)
    requires r <= r' <= w && r' % FRAME == 0
    ensures StreamOk(st, chunk, highWm, file, mem, w, r')
  {}

  // ---- readiness ----

  /** Nothing is left to load: less than a frame of room, or the source is spent. */
  ghost predicate Settled(st: Stream, chunk: nat, highWm: nat, w: nat, r: nat) {
    w - r + FRAME > Target(st, chunk, highWm) || (!st.looping && st.filePos >= st.dataBytes)
  }

  /** READINESS, EXACTLY. Once nothing is left to load and nothing was read, a
      looping stream is ready exactly when its head fits the whole frames of its
      target; a one-shot stream must also be long enough. */
  lemma ReadyIff(st: Stream, chunk: nat, highWm: nat, file: seq<Byte>, mem: seq<Byte>, w: nat)
    requires StreamOk(st, chunk, highWm, file, mem, w, 0) && Settled(st, chunk, highWm, w, 0)
    requires w <= Target(st, chunk, highWm) && st.since == st.origin == 0
    ensures var head, whole := Head(st, Target(st, chunk, highWm)), Trim(Target(st, chunk, highWm));
            && (st.looping ==> (st.primed <==> head <= whole))
            && (!st.looping ==> (st.primed <==> head <= Min(whole, st.dataBytes)))
  {
    var t := Target(st, chunk, highWm);
    WrittenFrames(st, chunk, highWm, file, mem, w);
    hide Target, Head, StreamOk;
    LastFrame(w, t);
  }

  lemma WrittenFrames(st: Stream, chunk: nat, highWm: nat, file: seq<Byte>, mem: seq<Byte>, w: nat)
    requires StreamOk(st, chunk, highWm, file, mem, w, 0) && st.since == st.origin == 0
    ensures w % FRAME == 0 && (!st.looping ==> st.filePos == w <= st.dataBytes)
    ensures w > 0 ==> (st.primed <==> w >= Head(st, Target(st, chunk, highWm)))
    ensures w == 0 ==> (st.primed ==> Head(st, Target(st, chunk, highWm)) == 0)
  {
    hide Unread, Target, Head;
  }

  /** Less than a frame below t, w is the last whole frame. */
  lemma LastFrame(w: nat, t: nat)
    requires w <= t && w % FRAME == 0
    ensures w + FRAME > t <==> w == Trim(t)
    ensures w <= Trim(t)
  {}

  /** A one-shot shorter than its head never becomes ready, however long it is served. */
  lemma ShortOneShotNeverReady(st: Stream, chunk: nat, highWm: nat, file: seq<Byte>, mem: seq<Byte>, w: nat, r: nat)
    requires StreamOk(st, chunk, highWm, file, mem, w, r)
    requires !st.looping && st.dataBytes < Head(st, Target(st, chunk, highWm)) && st.since == 0
    ensures !st.primed
  {}
}
