// The arbiter that keeps the streaming rings filled, with the mixer reading them
// at its own pace. firmware/audio/hx421_stream.c.
module StreamArbiter {
  import opened Arith
  import opened Streams
  import opened StreamUrgency
  import opened StreamPriming

  /** Where a reader that wants to have read `want` bytes gets to. */
  function ReaderMoves(r: nat, want: nat, w: nat): (r': nat)
    ensures r <= w && r % FRAME == 0 && w % FRAME == 0 ==> r <= r' <= w && r' % FRAME == 0
    ensures want == 0 ==> r' == r
  {
    if Trim(want) <= r then r else if Trim(want) > w then w else Trim(want)
  }

  /** One offload happened: `run` source bytes went to the write position, and
      nothing else changed but this stream's cursors and its readiness. */
  ghost predicate RefillDone(b: nat, run: nat, str0: seq<Stream>, mem0: seq<Byte>, written0: seq<nat>,
                             str1: seq<Stream>, mem1: seq<Byte>, written1: seq<nat>, chunk: nat,
                               files: seq<seq<Byte>>) {
    && b < |str0| == |str1| == |written0| == |files|
    && 0 < run <= chunk && run % FRAME == 0
    && str0[b].writePos + run <= str0[b].ringSize && str0[b].filePos + run <= str0[b].dataBytes
    && str0[b].base + str0[b].ringSize <= |mem0| && str0[b].dataOff + str0[b].dataBytes <= |files[b]|
    && (str0[b].primed ==> str1[b].primed)
    && str1 == str0[b := AfterRefill(str0[b], run).(primed := str1[b].primed)]
    && mem1 == Copied(mem0, str0[b].base + str0[b].writePos, files[b], str0[b].dataOff + str0[b].filePos, run)
    && written1 == written0[b := written0[b] + run]
  }

  function Prefer(str: seq<Stream>, chunk: nat, highWm: nat, fills: seq<nat>, i: nat, best: Option<nat>,
                  fill: nat): Option<nat>
    requires i < |str| == |fills| && (best.Some? ==> best.value < |str|)
  {
    if Eligible(str[i], chunk, highWm, fill) &&
       (best == None || Score(str[i], chunk, highWm, fill) > Score(str[best.value], chunk, highWm, fills[best.value]))
    then Some(i) else best
  }

  lemma UrgentStep(str: seq<Stream>, chunk: nat, highWm: nat, fills: seq<nat>, i: nat, best: Option<nat>, fill: nat)
    requires i < |str| == |fills| && MostUrgent(str, chunk, highWm, fills, i, best)
    ensures best.Some? ==> best.value < i
    ensures MostUrgent(str, chunk, highWm, fills[i := fill], i + 1, Prefer(str, chunk, highWm, fills, i, best, fill))
  {
    hide Score, Eligible;
  }

  /** The fill seen for each of the first n streams that have data: no less than
      it is now, no more than it was at first. */
  ghost predicate FillsSeen(str: seq<Stream>, written: seq<nat>, read0: seq<nat>, read: seq<nat>, fills: seq<nat>,
                            n: nat)
    requires |str| == |fills| == STREAMS && n <= STREAMS
  {
    && |written| == |read0| == |read| == STREAMS
    && forall j | 0 <= j < n && str[j].active && !Spent(str[j]) ::
         written[j] <= fills[j] + read[j] && fills[j] + read0[j] <= written[j]
  }

  lemma NoneSeen(str: seq<Stream>, chunk: nat, highWm: nat, fills: seq<nat>, written: seq<nat>, read: seq<nat>)
    requires |str| == |fills| == |written| == |read| == STREAMS
    ensures FillsSeen(str, written, read, read, fills, 0) && MostUrgent(str, chunk, highWm, fills, 0, None)
  {}

  lemma SeenLater(str: seq<Stream>, written: seq<nat>, read0: seq<nat>, read1: seq<nat>, read: seq<nat>,
                  fills: seq<nat>, n: nat)
    requires |str| == |fills| == STREAMS && n < STREAMS && str[n].active
    requires FillsSeen(str, written, read0, read1, fills, n)
    requires Onward(str, written, read0, read1) && Onward(str, written, read1, read)
    ensures FillsSeen(str, written, read0, read, fills, n) && Onward(str, written, read0, read)
    ensures read0[n] <= read[n] <= written[n]
  {}

  lemma SeenMore(str: seq<Stream>, written: seq<nat>, read0: seq<nat>, read: seq<nat>, fills: seq<nat>, n: nat,
                 fill: nat)
    requires |str| == |fills| == STREAMS && n < STREAMS && FillsSeen(str, written, read0, read, fills, n)
    requires str[n].active && !Spent(str[n]) ==> written[n] <= fill + read[n] && fill + read0[n] <= written[n]
    ensures FillsSeen(str, written, read0, read, fills[n := fill], n + 1)
  {}

  /** Two active streams never share ring memory. */
  ghost predicate RingsApart(str: seq<Stream>) {
    forall i, j | 0 <= i < j < |str| && str[i].active && str[j].active ::
      str[i].base + str[i].ringSize <= str[j].base || str[j].base + str[j].ringSize <= str[i].base
  }

  ghost predicate AllOk(str: seq<Stream>, chunk: nat, highWm: nat, files: seq<seq<Byte>>, mem: seq<Byte>,
                        written: seq<nat>, read: seq<nat>) {
    && |str| == |files| == |written| == |read| == STREAMS
    && FRAME <= chunk && chunk % FRAME == 0
    && RingsApart(str)
    && forall s | 0 <= s < STREAMS && str[s].active ::
         StreamOk(str[s], chunk, highWm, files[s], mem, written[s], read[s])
  }

  /** Readers only move forward, and never past the writer. */
  ghost predicate Onward(str: seq<Stream>, written: seq<nat>, before: seq<nat>, now: seq<nat>) {
    && |str| == |written| == |before| == |now| == STREAMS
    && forall s | 0 <= s < STREAMS && str[s].active :: before[s] <= now[s] <= written[s]
  }

  lemma NobodyAhead(str: seq<Stream>, chunk: nat, highWm: nat, files: seq<seq<Byte>>, mem: seq<Byte>,
                    written: seq<nat>, read: seq<nat>)
    requires AllOk(str, chunk, highWm, files, mem, written, read)
    ensures Onward(str, written, read, read)
  {
    hide Started, Unread, PrimedOk, RingsApart;
    forall s | 0 <= s < STREAMS && str[s].active
      ensures read[s] <= read[s] <= written[s]
    {
      assert StreamOk(str[s], chunk, highWm, files[s], mem, written[s], read[s]);
      CountsAlign(str[s], chunk, highWm, files[s], mem, written[s], read[s]);
    }
  }

  lemma Sized(str: seq<Stream>, chunk: nat, highWm: nat, files: seq<seq<Byte>>, mem: seq<Byte>,
              written: seq<nat>, read: seq<nat>)
    requires AllOk(str, chunk, highWm, files, mem, written, read)
    ensures |str| == |files| == |written| == |read| == STREAMS
  {}

  lemma AllMoved(str: seq<Stream>, chunk: nat, highWm: nat, files: seq<seq<Byte>>, mem: seq<Byte>,
                 written: seq<nat>, read: seq<nat>, want: nat -> nat)
    requires AllOk(str, chunk, highWm, files, mem, written, read)
    ensures AllOk(str, chunk, highWm, files, mem, written, AllMove(read, written, want))
    ensures Onward(str, written, read, AllMove(read, written, want))
    ensures Stay(read, AllMove(read, written, want), want)
  {
    Sized(str, chunk, highWm, files, mem, written, read);
    var now := AllMove(read, written, want);
    hide AllOk, StreamOk, AllMove, Onward, ReaderMoves;
    forall s | 0 <= s < STREAMS && str[s].active
      ensures read[s] <= now[s] <= written[s] && now[s] % FRAME == 0
    {
      AllOkAt(str, chunk, highWm, files, mem, written, read, s);
      CountsAlign(str[s], chunk, highWm, files[s], mem, written[s], read[s]);
      AllMoveAt(read, written, want, s);
    }
    OnwardIs(str, written, read, now);
    AllStill(read, written, want);
    AllRead(str, chunk, highWm, files, mem, written, read, now);
  }

  lemma AllRead(str: seq<Stream>, chunk: nat, highWm: nat, files: seq<seq<Byte>>, mem: seq<Byte>,
                written: seq<nat>, read: seq<nat>, read': seq<nat>)
    requires AllOk(str, chunk, highWm, files, mem, written, read) && |read'| == STREAMS
    requires forall s | 0 <= s < STREAMS && str[s].active :: read[s] <= read'[s] <= written[s] && read'[s] % FRAME == 0
    ensures AllOk(str, chunk, highWm, files, mem, written, read')
  {
    hide StreamOk;
    forall s | 0 <= s < STREAMS && str[s].active
      ensures StreamOk(str[s], chunk, highWm, files[s], mem, written[s], read'[s])
    {
      ReadingKeeps(str[s], chunk, highWm, files[s], mem, written[s], read[s], read'[s]);
    }
  }

  /** The stream after a refill, with its readiness decided from a fresh fill. */
  function Refilled(st: Stream, chunk: nat, highWm: nat, run: nat, fill: nat): Stream {
    var after := AfterRefill(st, run);
    after.(primed := st.primed || fill >= Head(st, Target(st, chunk, highWm)))
  }

  /** A refill of run bytes, during which the reader moves from r to r2. */
  lemma RefilledIsOk(st: Stream, chunk: nat, highWm: nat, file: seq<Byte>, mem: seq<Byte>, w: nat, r: nat, run: nat,
                     r2: nat)
    requires StreamOk(st, chunk, highWm, file, mem, w, r) && FRAME <= chunk
    requires st.writePos + run <= st.ringSize && st.filePos + run <= st.dataBytes && run % FRAME == 0
    requires w + run - r <= Target(st, chunk, highWm)
    requires r <= r2 <= w + run && r2 % FRAME == 0
    ensures StreamOk(Refilled(st, chunk, highWm, run, w + run - r2), chunk, highWm, file,
                     Copied(mem, st.base + st.writePos, file, st.dataOff + st.filePos, run), w + run, r2)
  {
    hide Unread, Copied, Positions;
    TargetLeavesAChunk(st, chunk, highWm, |mem|, file);
    PositionsBound(st, chunk, w, r);
    RefillPositions(st, chunk, w, r, run);
    RefillKeepsUnread(st, chunk, highWm, file, mem, w, r, run);
    FlagAndReader(AfterRefill(st, run), Refilled(st, chunk, highWm, run, w + run - r2).primed, chunk, file,
                  Copied(mem, st.base + st.writePos, file, st.dataOff + st.filePos, run), w + run, r, r2);
  }

  /** One refill, with the readers playing on, keeps every stream's unread bytes. */
  lemma AllRefilled(str: seq<Stream>, chunk: nat, highWm: nat, files: seq<seq<Byte>>, mem: seq<Byte>,
                    written: seq<nat>, read: seq<nat>, b: nat, run: nat, read2: seq<nat>)
    requires AllOk(str, chunk, highWm, files, mem, written, read) && b < STREAMS && str[b].active
    requires str[b].writePos + run <= str[b].ringSize && str[b].filePos + run <= str[b].dataBytes && run % FRAME == 0
    requires written[b] + run - read[b] <= Target(str[b], chunk, highWm)
    requires Onward(str, written[b := written[b] + run], read, read2)
    requires forall s | 0 <= s < STREAMS && str[s].active :: read2[s] % FRAME == 0
    ensures str[b].base + str[b].ringSize <= |mem| && str[b].dataOff + str[b].dataBytes <= |files[b]|
    ensures AllOk(str[b := Refilled(str[b], chunk, highWm, run, written[b] + run - read2[b])], chunk, highWm, files,
                  Copied(mem, str[b].base + str[b].writePos, files[b], str[b].dataOff + str[b].filePos, run),
                  written[b := written[b] + run], read2)
  {
    hide Unread, Copied, Positions, PrimedOk, Target, Head, AfterRefill;
    var st := str[b];
    assert StreamOk(st, chunk, highWm, files[b], mem, written[b], read[b]);
    var now := Copied(mem, st.base + st.writePos, files[b], st.dataOff + st.filePos, run);
    var after := Refilled(st, chunk, highWm, run, written[b] + run - read2[b]);
    RefilledIsOk(st, chunk, highWm, files[b], mem, written[b], read[b], run, read2[b]);
    forall s | 0 <= s < STREAMS && str[s].active && s != b
      ensures StreamOk(str[s], chunk, highWm, files[s], now, written[s], read2[s])
    {
      assert StreamOk(str[s], chunk, highWm, files[s], mem, written[s], read[s]);
      CopyElsewhere(str[s], files[s], mem, written[s], read[s], st.base + st.writePos, files[b],
                    st.dataOff + st.filePos, run);
      ReadingKeeps(str[s], chunk, highWm, files[s], now, written[s], read[s], read2[s]);
    }
    RefilledSame(st, chunk, highWm, run, written[b] + run - read2[b]);
    StaysApart(str, b, st, after);
  }

  lemma RefilledSame(st: Stream, chunk: nat, highWm: nat, run: nat, fill: nat)
    ensures var after := Refilled(st, chunk, highWm, run, fill);
            after.base == st.base && after.ringSize == st.ringSize && after.active == st.active
  {}

  lemma StaysApart(str: seq<Stream>, b: nat, st: Stream, after: Stream)
    requires RingsApart(str) && b < |str| && str[b] == st
    requires after.base == st.base && after.ringSize == st.ringSize && after.active == st.active
    ensures RingsApart(str[b := after])
  {
    var now := str[b := after];
    forall i, j | 0 <= i < j < |now| && now[i].active && now[j].active
      ensures now[i].base + now[i].ringSize <= now[j].base || now[j].base + now[j].ringSize <= now[i].base
    {
      assert str[i].active && str[j].active;
    }
  }

  lemma PositionsBound(st: Stream, chunk: nat, w: nat, r: nat)
    requires st.ringSize > 0 && st.dataBytes > 0 && Positions(st, w, r)
    ensures r <= w && st.filePos <= st.dataBytes && st.writePos <= st.ringSize
  {}

  lemma TargetLeavesAChunk(st: Stream, chunk: nat, highWm: nat, memSize: nat, file: seq<Byte>)
    requires Started(st, chunk, memSize, file)
    ensures Target(st, chunk, highWm) + chunk <= st.ringSize
    ensures highWm % FRAME == 0 ==> Target(st, chunk, highWm) % FRAME == 0
  {}

  /** The ready flag is not part of where a stream stands, and reading on only
      shortens what is unread. */
  lemma FlagAndReader(st: Stream, primed: bool, chunk: nat, file: seq<Byte>, mem: seq<Byte>, w: nat, r: nat, r2: nat)
    requires st.ringSize > 0 && st.dataBytes > 0 && st.base + st.ringSize <= |mem|
    requires Positions(st, w, r) && Unread(st, file, mem, w, r) && r <= r2 <= w && r2 % FRAME == 0
    ensures Positions(st.(primed := primed), w, r2) && Unread(st.(primed := primed), file, mem, w, r2)
  {
    hide Pos;
    forall k | r2 <= k < w && st.since <= k
      ensures RingByte(st.(primed := primed), mem, k) == Source(st.(primed := primed), file, k)
    {
      assert RingByte(st, mem, k) == Source(st, file, k);
      FlagAndByte(st, primed, file, mem, k);
    }
    hide RingByte, Source;
  }

  lemma FlagAndByte(st: Stream, primed: bool, file: seq<Byte>, mem: seq<Byte>, k: nat)
    requires st.ringSize > 0 && st.base + st.ringSize <= |mem| && st.since <= k
    ensures RingByte(st.(primed := primed), mem, k) == RingByte(st, mem, k)
    ensures Source(st.(primed := primed), file, k) == Source(st, file, k)
  {
    hide Pos;
  }

  function AllMove(read: seq<nat>, written: seq<nat>, want: nat -> nat): (r: seq<nat>)
    requires |read| == |written|
    ensures |r| == |read|
  {
    seq<nat>(|read|, s requires 0 <= s < |read| && |read| == |written| => ReaderMoves(read[s], want(s), written[s]))
  }

  /** What one stream still lacks to its target. */
  function Lack(st: Stream, chunk: nat, highWm: nat, w: nat, r: nat): nat {
    if st.active && r <= w && w - r < Target(st, chunk, highWm) then Target(st, chunk, highWm) - (w - r) else 0
  }

  /** A stream after a seek to `arg` with its reader at r. */
  function Sought(st: Stream, arg: nat, r: nat): Stream {
    var off := if Trim(arg) >= st.dataBytes then 0 else Trim(arg);
    st.(filePos := off, writePos := 0, primed := false, since := Lap(r, st.ringSize), origin := off)
  }

  lemma SoughtIs(st: Stream, arg: nat, r: nat)
    ensures var off := if Trim(arg) >= st.dataBytes then 0 else Trim(arg);
            Sought(st, arg, r) ==
              st.(filePos := off, writePos := 0, primed := false, since := Lap(r, st.ringSize), origin := off)
  {}

  lemma SoughtBegins(st: Stream, chunk: nat, highWm: nat, file: seq<Byte>, mem: seq<Byte>, w: nat, r: nat, arg: nat)
    requires StreamOk(st, chunk, highWm, file, mem, w, r)
    ensures !Sought(st, arg, r).primed && Sought(st, arg, r).writePos == 0 && !Spent(Sought(st, arg, r))
  {
    hide Lap, Unread, PrimedOk;
  }

  lemma SoughtSame(st: Stream, arg: nat, r: nat)
    ensures var now := Sought(st, arg, r);
            now.base == st.base && now.ringSize == st.ringSize && now.active == st.active
  {}

  lemma SoughtIsOk(st: Stream, chunk: nat, highWm: nat, file: seq<Byte>, mem: seq<Byte>, w: nat, r: nat, arg: nat)
    requires StreamOk(st, chunk, highWm, file, mem, w, r)
    ensures var now := Sought(st, arg, r);
            StreamOk(now, chunk, highWm, file, mem, now.since, r)
  {
    var now := Sought(st, arg, r);
    hide Unread, Lap, Trim;
    assert Started(now, chunk, |mem|, file);
    hide StreamOk, PrimedOk;
    BegunIsOk(now, chunk, highWm, file, mem, r);
  }

  const NO_STREAM: Stream := Stream(0, 0, 0, 0, 0, 0, 0, false, false, false, 0)

  class StreamArb {
    const mem: array<Byte>
    const chunk: nat
    const highWm: nat
    var str: seq<Stream>
    var rr: nat
    /** The file open on each slot. */
    var files: seq<seq<Byte>>
    /** The mixer: how many bytes it would have read by each tick, at any pace. */
    const plan: nat -> nat -> nat
    /** Whether the platform refuses an offload at a tick. */
    const busy: nat -> bool
    var tick: nat
    /** Bytes written and read on each slot since its start. */
    var written: seq<nat>
    var read: seq<nat>

    ghost predicate Valid()
      reads this, mem
    {
      AllOk(str, chunk, highWm, files, mem[..], written, read)
    }

    /** hx421_stream_arb_init. */
    constructor (mem: array<Byte>, chunk: nat, highWm: nat, plan: nat -> nat -> nat, busy: nat -> bool)
      ensures Valid() && this.mem == mem && this.highWm == highWm && this.plan == plan && this.busy == busy
      ensures this.chunk == ChunkOf(chunk)
      ensures |str| == STREAMS && forall s | 0 <= s < STREAMS :: str[s] == NO_STREAM
    {
      this.mem := mem;
      this.highWm := highWm;
      this.plan := plan;
      this.busy := busy;
      this.chunk := ChunkOf(chunk);
      str := seq(STREAMS, s => NO_STREAM);
      files := seq(STREAMS, s => []);
      written, read := seq(STREAMS, s => 0), seq(STREAMS, s => 0);
      rr, tick := 0, 0;
    }

    /** The mixer never reads on on slot s, or on any. */
    ghost predicate StillAt(s: nat) { forall t: nat :: plan(t)(s) == 0 }

    ghost predicate Still() { forall s: nat :: StillAt(s) }

    /** Every reader that stands still is where it was. */
    ghost predicate Stayed(before: seq<nat>)
      reads this
    {
      |before| == |read| == STREAMS && forall s | 0 <= s < STREAMS && StillAt(s) :: read[s] == before[s]
    }

    lemma AllStayed(before: seq<nat>)
      requires Stayed(before) && Still()
      ensures read == before
    {}

    lemma NowhereYet()
      requires |read| == STREAMS
      ensures Stayed(read)
    {}

    /** The readers play on for a while. */
    method MoveReaders()
      requires Valid()
      modifies this`read, this`tick
      ensures Valid() && tick == old(tick) + 1
      ensures Onward(str, written, old(read), read) && Stayed(old(read))
    {
      AllMoved(str, chunk, highWm, files, mem[..], written, read, plan(tick));
      hide AllOk, AllMove, Onward;
      read := AllMove(read, written, plan(tick));
      tick := tick + 1;
    }

    ghost predicate NeverBusy() { forall t: nat :: !busy(t) }

    /** fill_of: the reader's position is asked for, and the reader plays on. */
    method FillOf(s: nat) returns (fill: nat)
      requires Valid() && s < STREAMS && str[s].active
      modifies this`read, this`tick
      ensures Valid() && fill == written[s] - read[s]
      ensures Onward(str, written, old(read), read) && Stayed(old(read))
    {
      hide StreamOk, RingsApart;
      MoveReaders();
      FillFacts(str[s], chunk, highWm, files[s], mem[..], written[s], read[s]);
      var rp := Pos(read[s], str[s].ringSize);
      fill := FillArith(str[s].writePos, str[s].ringSize, rp);
    }

    /** What the platform must see to when it lays out a ring: it lies in memory, it
        shares none of it with another active stream's, it is not over half the
        address space, the data lies in the file, and the mixer stands at a frame. */
    ghost predicate WellPlaced(s: int, base: nat, ringSize: nat, dataOff: nat, dataBytes: nat, file: seq<Byte>, at: nat)
      reads this
    {
      && at % FRAME == 0 && ringSize <= U32 / 2 && base + ringSize <= mem.Length && dataOff + dataBytes <= |file|
      && forall i | 0 <= i < |str| && i != s && str[i].active ::
           base + ringSize <= str[i].base || str[i].base + str[i].ringSize <= base
    }

    /** hx421_stream_start: any arguments are answered; on a well placed ring the
        stream starts in order, wherever in the ring the mixer stands (`at`). */
    method Start(s: int, base: nat, ringSize: nat, dataOff: nat, dataBytes: nat, looping: bool, primeBytes: nat,
                 prio: int,
                 file: seq<Byte>, at: nat) returns (res: int)
      requires Valid()
      modifies this`str, this`files, this`written, this`read
      ensures res == if s < 0 || s >= STREAMS then -1
                     else if ringSize < 2 * chunk || ringSize % FRAME != 0 then -2
                     else if dataBytes < FRAME then -3 else 0
      ensures res != 0 ==> str == old(str) && files == old(files) && written == old(written) && read == old(read)
      ensures |old(str)| == |old(files)| == |old(written)| == |old(read)| == STREAMS
      ensures res == 0 ==>
                && str ==
                   old(str)[s := Stream(base, ringSize, dataOff, Trim(dataBytes), Trim(primeBytes), 0, 0, true,
                                        looping, false, if prio < 0 then 0 else if prio > 3 then 3 else prio,
                                        Lap(at, ringSize), 0)]
                && written == old(written)[s := Lap(at, ringSize)] && read == old(read)[s := at]
                && files == old(files)[s := file]
      ensures res != 0 || old(WellPlaced(s, base, ringSize, dataOff, dataBytes, file, at)) ==> Valid()
    {
      if s < 0 || s >= STREAMS { return -1; }
      if ringSize < 2 * chunk || ringSize % FRAME != 0 { return -2; }
      if dataBytes < FRAME { return -3; }
      var st := Stream(base, ringSize, dataOff, Trim(dataBytes), Trim(primeBytes), 0, 0, true, looping, false,
                       if prio < 0 then 0 else if prio > 3 then 3 else prio, Lap(at, ringSize), 0);
      if WellPlaced(s, base, ringSize, dataOff, dataBytes, file, at) {
        BegunIsOk(st, chunk, highWm, file, mem[..], at);
      }
      hide StreamOk, Trim, Lap;
      ghost var before := str;
      str := str[s := st];
      files, written, read := files[s := file], written[s := st.since], read[s := at];
      forall i | 0 <= i < STREAMS && str[i].active && i != s
        ensures StreamOk(str[i], chunk, highWm, files[i], mem[..], written[i], read[i])
      {
        assert before[i].active;
      }
      return 0;
    }

    /** What cmd_seek of the media service does to an active stream: the source and
        the write cursor move, the reader stays where it is. */
    method Seek(s: nat, arg: nat)
      requires Valid() && s < STREAMS && s < |str| && str[s].active
      modifies this`str, this`written
      ensures Valid() && |old(read)| == |old(str)| == |old(written)| == STREAMS
      ensures var now := Sought(old(str)[s], arg, old(read)[s]);
              str == old(str)[s := now] && written == old(written)[s := now.since]
    {
      SoughtIsOk(str[s], chunk, highWm, files[s], mem[..], written[s], read[s], arg);
      SoughtSame(str[s], arg, read[s]);
      hide StreamOk, Sought;
      ghost var before := str;
      var off := if Trim(arg) >= str[s].dataBytes then 0 else Trim(arg);
      var now := Lap(read[s], str[s].ringSize);
      assert Sought(str[s], arg, read[s]) ==
             str[s].(filePos := off, writePos := 0, primed := false, since := now, origin := off) by {
        SoughtIs(str[s], arg, read[s]);
      }
      str := str[s := str[s].(filePos := off, writePos := 0, primed := false, since := now, origin := off)];
      written := written[s := now];
      forall i | 0 <= i < STREAMS && str[i].active && i != s
        ensures StreamOk(str[i], chunk, highWm, files[i], mem[..], written[i], read[i])
      {
        assert before[i].active;
      }
      StaysApart(before, s, before[s], str[s]);
    }

    /** hx421_stream_stop. */
    method Stop(s: int)
      requires Valid()
      modifies this`str
      ensures Valid()
      ensures str == if 0 <= s < STREAMS then old(str)[s := old(str)[s].(active := false)] else old(str)
    {
      if 0 <= s < STREAMS {
        hide StreamOk;
        ghost var before := str;
        str := str[s := str[s].(active := false)];
        assert forall i | 0 <= i < STREAMS && str[i].active :: before[i].active;
      }
    }

    /** The scan of hx421_stream_service; fills are the values it saw. */
    method Choose() returns (best: Option<nat>, ghost fills: seq<nat>)
      requires Valid()
      modifies this`read, this`tick
      ensures Valid() && |fills| == STREAMS
      ensures MostUrgent(str, chunk, highWm, fills, STREAMS, best)
      ensures Onward(str, written, old(read), read)
      ensures |str| == STREAMS && FillsSeen(str, written, old(read), read, fills, STREAMS)
      ensures Stayed(old(read))
    {
      hide AllOk, Target, Score, Spent, MostUrgent, Onward, FillsSeen;
      Sizes();
      NowhereYet();
      best := None;
      fills := seq(STREAMS, i => 0);
      var bestScore := 0;
      NobodyAhead(str, chunk, highWm, files, mem[..], written, read);
      NoneSeen(str, chunk, highWm, fills, written, read);
      var i := 0;
      while i < STREAMS
        invariant 0 <= i <= STREAMS && Valid() && |fills| == |str| == STREAMS
        invariant MostUrgent(str, chunk, highWm, fills, i, best)
        invariant best.Some? ==>
                    best.value < STREAMS && bestScore == Score(str[best.value], chunk, highWm, fills[best.value])
        invariant Onward(str, written, old(read), read) && FillsSeen(str, written, old(read), read, fills, i)
        invariant Stayed(old(read))
      {
        ghost var read1 := read;
        var fill := 0;
        if str[i].active && !Spent(str[i]) {
          fill := FillOf(i);
          SeenLater(str, written, old(read), read1, read, fills, i);
        }
        SeenMore(str, written, old(read), read, fills, i, fill);
        UrgentStep(str, chunk, highWm, fills, i, best, fill);
        fills := fills[i := fill];
        if Eligible(str[i], chunk, highWm, fill) {
          var score := Score(str[i], chunk, highWm, fill);
          if best == None || score > bestScore {
            bestScore := score;
            best := Some(i);
          }
        }
        i := i + 1;
      }
    }

    /** The platform's copy from the file into the ring. */
    method CopyIn(addr: nat, file: seq<Byte>, off: nat, len: nat)
      requires addr + len <= mem.Length && off + len <= |file|
      modifies mem
      ensures mem[..] == Copied(old(mem[..]), addr, file, off, len)
    {
      var i := 0;
      while i < len
        invariant 0 <= i <= len && mem[..] == Copied(old(mem[..]), addr, file, off, i)
      {
        CopiedMore(old(mem[..]), addr, file, off, i);
        hide Copied;
        mem[addr + i] := file[off + i];
        i := i + 1;
      }
    }

    lemma Sizes()
      requires Valid()
      ensures |str| == |files| == |written| == |read| == STREAMS
    {}

    /** Refill the chosen stream, if the platform takes the offload. */
    method Refill(best: nat) returns (did: bool, ghost run: nat)
      requires Valid() && best < |str| == |written| == |read| == STREAMS && str[best].active && !Spent(str[best])
      requires written[best] < read[best] + Target(str[best], chunk, highWm)
      modifies this`str, this`read, this`written, this`tick, this`rr, mem
      ensures Valid()
      ensures !did ==> str == old(str) && written == old(written) && mem[..] == old(mem[..])
      ensures !did && !busy(tick) && |read| == STREAMS ==>
                Target(str[best], chunk, highWm) < written[best] - old(read)[best] + FRAME
      ensures rr == (if did then (best + 1) % STREAMS else old(rr)) && (did ==> tick > 0 && !busy(tick - 1))
      ensures did ==> RefillDone(best, run, old(str), old(mem[..]), old(written), str, mem[..], written, chunk, files)
      ensures Onward(old(str), written, old(read), read) && Stayed(old(read))
      ensures did && Still() ==>
                |read| == |written| > best && written[best] <= read[best] + Target(old(str)[best], chunk, highWm)
      ensures did && Still() ==> TakenAsPlanned(old(str)[best], str, old(written), read, best, run, chunk, highWm)
    {
      hide AllOk, Onward, RunOf, Target, RefillDone, Copied, Spent, AfterRefill, Head;
      Sizes();
      var fill := FillOf(best);
      var st := WrapCursor(str[best]);
      OnwardAt(str, written, old(read), read, best);
      RoomIsLeft(str, chunk, highWm, files, mem[..], written, read, best, old(read)[best]);
      var room := Target(st, chunk, highWm) - fill;
      var n := RunOf(st, chunk, room);
      run := n;
      if n == 0 { return false, 0; }
      ghost var read1 := read;
      MoveReaders();
      OnwardAt(str, written, read1, read, best);
      OnwardTrans(str, written, old(read), read1, written, read);
      if busy(tick) { return false, 0; }
      did := true;
      ghost var before, read2 := mem[..], read;
      CopyIn(st.base + st.writePos, files[best], st.dataOff + st.filePos, n);
      CommitRefill(best, n, before);
      WrittenGrows(old(str), old(written), best, n, old(read), read2);
      OnwardTrans(old(str), old(written)[best := old(written)[best] + n], old(read), read2, written, read);
    }

    /** After the offload: move the cursors on and see whether the head is loaded. */
    method CommitRefill(best: nat, run: nat, ghost before: seq<Byte>)
      requires AllOk(str, chunk, highWm, files, before, written, read)
      requires best < |str| == |written| == |read| == |files| == STREAMS && str[best].active
      requires 0 < run <= chunk && run % FRAME == 0
      requires str[best].writePos + run <= str[best].ringSize && str[best].filePos + run <= str[best].dataBytes
      requires written[best] + run <= read[best] + Target(str[best], chunk, highWm)
      requires str[best].base + str[best].ringSize <= |before| &&
               str[best].dataOff + str[best].dataBytes <= |files[best]|
      requires mem[..] ==
               Copied(before, str[best].base + str[best].writePos, files[best],
                      str[best].dataOff + str[best].filePos, run)
      modifies this`str, this`read, this`written, this`tick, this`rr
      ensures Valid()
      ensures RefillDone(best, run, old(str), before, old(written), str, mem[..], written, chunk, files)
      ensures Onward(old(str), written, old(read), read) && Stayed(old(read))
      ensures written == old(written)[best := old(written)[best] + run]
      ensures rr == (best + 1) % STREAMS && tick == old(tick) + 1
      ensures Still() ==>
                && |read| == |str| == |written| > best && read[best] <= written[best]
                && str[best].primed == (old(str)[best].primed ||
                     written[best] - read[best] >= Head(old(str)[best], Target(old(str)[best], chunk, highWm)))
    {
      hide AllOk, Copied, RunOf, Target, FillArith, Head, AllMove, Onward, AfterRefill, Pos;
      AllRefilledOn(str, chunk, highWm, files, before, written, read, best, run, plan(tick));
      RefilledParts(str[best], chunk, highWm, run);
      written := written[best := written[best] + run];
      read := AllMove(read, written, plan(tick));
      tick := tick + 1;
      var st := str[best];
      var after := AfterRefill(st, run);
      var primed := st.primed;
      if !primed {
        var fill := FillArith(after.writePos, after.ringSize, Pos(read[best], after.ringSize));
        primed := fill >= Head(st, Target(st, chunk, highWm));
      }
      str := str[best := after.(primed := primed)];
      rr := (best + 1) % STREAMS;
    }

    /** hx421_stream_service: at most one refill, of the most urgent stream. With
        a willing platform none is issued only when no stream wants data, or the
        most urgent one has less than a frame of room. */
    method Service() returns (did: bool, ghost choice: Option<nat>, ghost run: nat, ghost fills: seq<nat>)
      requires Valid()
      modifies this`str, this`read, this`written, this`tick, this`rr, mem
      ensures Valid() && |old(str)| == |fills| == STREAMS == |old(written)| == |old(read)| == |read|
      ensures MostUrgent(old(str), chunk, highWm, fills, STREAMS, choice)
      ensures FillsExact(old(str), old(written), old(read), fills) <== Still()
      ensures !did ==> str == old(str) && written == old(written) && mem[..] == old(mem[..])
      ensures did ==> choice.Some? && old(str)[choice.value].active
      ensures did ==>
                RefillDone(choice.value, run, old(str), old(mem[..]), old(written), str, mem[..], written, chunk, files)
      ensures Onward(old(str), written, old(read), read) && Stayed(old(read))
      ensures did ==>
                old(written)[choice.value] < read[choice.value] + Target(old(str)[choice.value], chunk, highWm)
      ensures did && Still() ==>
                && |written| > choice.value &&
                   written[choice.value] <= read[choice.value] + Target(old(str)[choice.value], chunk, highWm)
                && TakenAsPlanned(old(str)[choice.value], str, old(written), read, choice.value, run, chunk, highWm)
      ensures !did && !busy(tick) && choice.Some? ==>
                Target(str[choice.value], chunk, highWm) < written[choice.value] - old(read)[choice.value] + FRAME
      ensures rr == (if did then (choice.value + 1) % STREAMS else old(rr)) && (did ==> tick > 0 && !busy(tick - 1))
      ensures choice == None ==>
                forall s | 0 <= s < STREAMS && str[s].active :: Settled(str[s], chunk, highWm, written[s], old(read)[s])
    {
      hide AllOk, RunOf, Target, RefillDone, Onward, MostUrgent, TakenAsPlanned, FillsSeen, FillsExact;
      Sizes();
      run := 0;
      var b: Option<nat>;
      b, fills := Choose();
      choice := b;
      ghost var read1 := read;
      Sizes();
      if Still() {
        AllStayed(old(read));
        SeenIsExact(str, written, old(read), fills);
      }
      if b == None {
        NothingWanted(str, chunk, highWm, fills, written, old(read), read, files, mem[..]);
        return false, None, 0, fills;
      }
      Sizes();
      ChosenHasRoom(str, chunk, highWm, fills, written, old(read), read, b.value);
      OnwardAt(str, written, old(read), read, b.value);
      did, run := Refill(b.value);
      Sizes();
      OnwardAt(old(str), written, read1, read, b.value);
      if did {
        WrittenMoves(old(str), old(written), written, b.value, run, str, old(mem[..]), mem[..], chunk, files,
                     old(read), read1);
      }
      ghost var mid := if did then old(written)[b.value := old(written)[b.value] + run] else written;
      OnwardTrans(old(str), mid, old(read), read1, written, read);
    }

    /** hx421_stream_ready, of several streams. */
    predicate AllReady(wanted: seq<nat>)
      reads this
    {
      forall k | 0 <= k < |wanted| :: wanted[k] < |str| && str[wanted[k]].active && str[wanted[k]].primed
    }

    ghost predicate Can(s: nat)
      reads this
    {
      |str| == |written| == |read| && CanReady(str, chunk, highWm, Fills(written, read), s)
    }

    /** Stream s is not ready and wants nothing: it holds its target or more. */
    ghost predicate Full(s: nat)
      reads this
    {
      && s < |str| == |written| == |read| && str[s].active && !str[s].primed
      && read[s] + Target(str[s], chunk, highWm) <= written[s]
    }

    /** Nobody reads, and every offload is taken. */
    ghost predicate Quiet() { Still() && NeverBusy() }

    /** One service. While all is quiet it changes nobody's chances, and if nobody
        was served, nobody not yet ready has any. */
    method ServeOnce() returns (did: bool, ghost choice: Option<nat>, ghost run: nat)
      requires Valid()
      modifies this`str, this`read, this`written, this`tick, this`rr, mem
      ensures Valid() && |str| == |written| == |read| == STREAMS == |old(written)| == |old(str)| == |old(read)|
      ensures !did ==> str == old(str) && written == old(written) && mem[..] == old(mem[..])
      ensures did ==>
                && choice.Some? && choice.value < STREAMS && old(str)[choice.value].active
                && RefillDone(choice.value, run, old(str), old(mem[..]), old(written), str, mem[..], written, chunk,
                              files)
      ensures forall s | 0 <= s < STREAMS :: str[s].active == old(str)[s].active
      ensures Stayed(old(read))
      ensures did ==>
                old(written)[choice.value] < read[choice.value] + Target(old(str)[choice.value], chunk, highWm)
      ensures forall s: nat | s < STREAMS && StillAt(s) :: old(Full(s)) ==> Full(s)
      ensures Quiet() ==> read == old(read) && forall s: nat | s < STREAMS :: Can(s) <==> old(Can(s))
      ensures Quiet() && !did ==> forall s: nat | s < STREAMS && Can(s) :: str[s].active && str[s].primed
      ensures Quiet() && did ==>
                TotalLack(str, chunk, highWm, written, read) < old(TotalLack(str, chunk, highWm, written, read))
    {
      hide AllOk, RunOf, Target, RefillDone, Onward, MostUrgent, TakenAsPlanned, FillsExact, CanReady, TotalLack,
        Fills;
      ghost var str0, mem0, written0, read0 := str, mem[..], written, read;
      NobodyAhead(str, chunk, highWm, files, mem[..], written, read);
      ghost var fills;
      did, choice, run, fills := Service();
      Sizes();
      if did {
        RefillKeepsActive(choice.value, run, str0, mem0, written0, str, mem[..], written, chunk, files);
      }
      assert forall s: nat | s < STREAMS && StillAt(s) :: read[s] == read0[s];
      if Quiet() {
        AllStayed(read0);
        UrgentOfFills(str0, chunk, highWm, fills, written0, read0, choice);
        if did {
          LackShrinks(choice.value, run, str0, mem0, written0, str, mem[..], written, chunk, highWm, files, read);
          OneServed(str0, mem0, written0, str, mem[..], written, read, chunk, highWm, files, choice.value, run);
        } else {
          NobodyServed(str, chunk, highWm, files, mem[..], written, read, choice);
        }
      }
    }

    /** THE PRIMING LOOP ENDS, with every wanted stream ready, when each of them
        can become ready; `NeverReady` below is the other half. */
    method Prime(wanted: seq<nat>)
      requires Valid() && Quiet()
      requires forall k | 0 <= k < |wanted| :: wanted[k] < STREAMS && Can(wanted[k])
      modifies this`str, this`read, this`written, this`tick, this`rr, mem
      ensures Valid() && AllReady(wanted)
    {
      hide AllOk, CanReady, TotalLack, Fills;
      Sizes();
      while !AllReady(wanted)
        invariant Valid() && read == old(read) && |str| == |written| == |read| == STREAMS
        invariant forall k | 0 <= k < |wanted| :: wanted[k] < STREAMS && Can(wanted[k])
        decreases !AllReady(wanted), TotalLack(str, chunk, highWm, written, read)
      {
        var did;
        ghost var choice, run;
        did, choice, run := ServeOnce();
      }
    }

    /** And when a stream cannot, no number of services makes it ready. */
    method NeverReady(n: nat, s: nat)
      requires Valid() && Quiet() && s < STREAMS && !Can(s)
      modifies this`str, this`read, this`written, this`tick, this`rr, mem
      ensures Valid() && !AllReady([s])
    {
      hide AllOk, TotalLack, Fills, Target, Head;
      Sizes();
      for i := 0 to n
        invariant Valid() && !Can(s) && |str| == |written| == |read| == STREAMS
      {
        var did;
        ghost var choice, run;
        did, choice, run := ServeOnce();
      }
      CursorsOf(s);
      assert [s][0] == s;
    }

    /** WHICH STARTS AND SEEKS COME BACK, without a high-water mark, the readers
        standing still and no offload refused: exactly those with the reader at the
        ring's base or past its first chunk and, for a one-shot stream, with its
        head in what is stale ahead of the reader and left of the data. */
    lemma BegunChance(s: nat)
      requires Valid() && s < STREAMS && |str| == |read| == STREAMS && highWm == 0
      requires str[s].active && !str[s].primed && str[s].writePos == 0 && !Spent(str[s])
      ensures str[s].ringSize > chunk && str[s].filePos <= str[s].dataBytes
      ensures var st := str[s];
              var p := Pos(read[s], st.ringSize);
              Can(s) <==> && (p == 0 || p >= chunk + FRAME)
                          && (st.looping || Head(st, st.ringSize - chunk) <= Behind(p, st.ringSize) + Left(st))
    {
      Sizes();
      var fills := Fills(written, read);
      hide AllOk, CanReady, CanReadyAt, BarOf, Fills, Head, Target;
      forall i | 0 <= i < STREAMS && str[i].active
        ensures Aligned(str[i], chunk) && fills[i] % FRAME == 0
      {
        AllOkAt(str, chunk, highWm, files, mem[..], written, read, i);
        ActiveIsAligned(str[i], chunk, highWm, files[i], mem[..], written[i], read[i]);
        FillsAt(written, read, i);
      }
      EvenMarkHasNoBar(str, chunk, 0, fills);
      AllOkAt(str, chunk, highWm, files, mem[..], written, read, s);
      AtTheBase(str[s], chunk, highWm, files[s], mem[..], written[s], read[s]);
      FillsAt(written, read, s);
      CanReadyIs(str, chunk, 0, fills, s);
      BegunReadyIff(str[s], chunk, s, Pos(read[s], str[s].ringSize));
    }

    /** A seek with the reader inside the ring's first chunk finds the ring full. */
    lemma SoughtIsFull(s: nat)
      requires Valid() && s < STREAMS && |str| == |read| == STREAMS && highWm == 0
      requires str[s].active && !str[s].primed && str[s].writePos == 0 && !Spent(str[s]) && str[s].ringSize > 0
      requires 0 < Pos(read[s], str[s].ringSize) < chunk + FRAME
      ensures Full(s)
    {
      Sizes();
      AllOkAt(str, chunk, highWm, files, mem[..], written, read, s);
      AtTheBase(str[s], chunk, highWm, files[s], mem[..], written[s], read[s]);
      ActiveIsAligned(str[s], chunk, highWm, files[s], mem[..], written[s], read[s]);
      StuffedRing(str[s], chunk, Pos(read[s], str[s].ringSize));
      hide AllOk, Target, Pos, Behind;
    }

    lemma CursorsOf(s: nat)
      requires Valid() && s < STREAMS
      ensures s < |str| && (str[s].active ==> Cursors(str[s]))
    {
      if str[s].active {
        AllOkAt(str, chunk, highWm, files, mem[..], written, read, s);
        PositionsBound(str[s], chunk, written[s], read[s]);
      }
    }
  }

  /** Under a still reader, what a refill took and whether the stream is ready. */
  ghost predicate TakenAsPlanned(st: Stream, str1: seq<Stream>, written0: seq<nat>, read: seq<nat>, b: nat, run: nat,
                                 chunk: nat, highWm: nat) {
    && b < |str1| == |written0| == |read| && Cursors(st)
    && read[b] <= written0[b] < read[b] + Target(st, chunk, highWm)
    && run == RunOf(st, chunk, Target(st, chunk, highWm) - (written0[b] - read[b]))
    && str1[b].primed == (st.primed || written0[b] + run - read[b] >= Head(st, Target(st, chunk, highWm)))
  }

  /** The fills seen are the unread bytes. */
  ghost predicate FillsExact(str: seq<Stream>, written: seq<nat>, read: seq<nat>, fills: seq<nat>) {
    && |str| == |written| == |read| == |fills|
    && forall s | 0 <= s < |str| && str[s].active && !Spent(str[s]) ::
         read[s] <= written[s] && fills[s] == written[s] - read[s]
  }

  lemma SeenIsExact(str: seq<Stream>, written: seq<nat>, read: seq<nat>, fills: seq<nat>)
    requires |str| == |fills| == STREAMS && FillsSeen(str, written, read, read, fills, STREAMS)
    ensures FillsExact(str, written, read, fills)
  {}

  lemma UrgentOfFills(str: seq<Stream>, chunk: nat, highWm: nat, fills: seq<nat>, written: seq<nat>, read: seq<nat>,
                      choice: Option<nat>)
    requires |str| == |fills| == STREAMS && MostUrgent(str, chunk, highWm, fills, STREAMS, choice)
    requires FillsExact(str, written, read, fills)
    ensures MostUrgent(str, chunk, highWm, Fills(written, read), STREAMS, choice)
  {
    hide Score, Target;
  }

  lemma OneServed(str0: seq<Stream>, mem0: seq<Byte>, written0: seq<nat>, str1: seq<Stream>, mem1: seq<Byte>,
                  written1: seq<nat>,
                  read: seq<nat>, chunk: nat, highWm: nat, files: seq<seq<Byte>>, b: nat, run: nat)
    requires RefillDone(b, run, str0, mem0, written0, str1, mem1, written1, chunk, files)
    requires |str0| == |read| == |written1| == STREAMS &&
             TakenAsPlanned(str0[b], str1, written0, read, b, run, chunk, highWm)
    requires MostUrgent(str0, chunk, highWm, Fills(written0, read), STREAMS, Some(b))
    ensures forall s: nat | s < STREAMS ::
              CanReady(str1, chunk, highWm, Fills(written1, read), s) <==>
                  CanReady(str0, chunk, highWm, Fills(written0, read), s)
    ensures forall s | 0 <= s < STREAMS :: str1[s].active == str0[s].active
  {
    hide RunOf, Target, Head, MostUrgent, Copied, AfterRefill;
    var fills0, fills1 := Fills(written0, read), Fills(written1, read);
    assert fills1 == fills0[b := fills0[b] + run];
    assert Served(str0, fills0, str1, fills1, chunk, highWm, b);
    forall s: nat | s < STREAMS
      ensures CanReady(str1, chunk, highWm, fills1, s) <==> CanReady(str0, chunk, highWm, fills0, s)
      ensures str1[s].active == str0[s].active
    {
      ServedKeepsEnds(str0, fills0, str1, fills1, chunk, highWm, b, s);
      ServedClogs(str0, fills0, str1, fills1, chunk, highWm, b, s);
    }
  }

  lemma RefillKeepsActive(b: nat, run: nat, str0: seq<Stream>, mem0: seq<Byte>, written0: seq<nat>, str1: seq<Stream>,
                          mem1: seq<Byte>, written1: seq<nat>, chunk: nat, files: seq<seq<Byte>>)
    requires RefillDone(b, run, str0, mem0, written0, str1, mem1, written1, chunk, files)
    ensures b < |str1| == |str0| && forall s | 0 <= s < |str0| :: str1[s].active == str0[s].active
    ensures |written1| == |written0| == |str0|
    ensures forall s | 0 <= s < |str0| && s != b :: str1[s] == str0[s] && written1[s] == written0[s]
  {
    hide Copied;
  }

  lemma NobodyServed(str: seq<Stream>, chunk: nat, highWm: nat, files: seq<seq<Byte>>, mem: seq<Byte>,
                     written: seq<nat>, read: seq<nat>, choice: Option<nat>)
    requires AllOk(str, chunk, highWm, files, mem, written, read) && |str| == |written| == |read| == STREAMS
    requires MostUrgent(str, chunk, highWm, Fills(written, read), STREAMS, choice)
    requires choice.Some? ==>
               Target(str[choice.value], chunk, highWm) < written[choice.value] - read[choice.value] + FRAME
    ensures forall s: nat | s < STREAMS && CanReady(str, chunk, highWm, Fills(written, read), s) ::
              str[s].active && str[s].primed
  {
    var fills := Fills(written, read);
    hide AllOk, MostUrgent, Target, Head, Fills, EndFill;
    forall s | 0 <= s < STREAMS && str[s].active
      ensures Cursors(str[s])
    {
      AllOkAt(str, chunk, highWm, files, mem, written, read, s);
      ActiveIsPlaced(str[s], chunk, highWm, files[s], mem, written[s], read[s]);
    }
    ChoiceIsActive(str, chunk, highWm, fills, choice);
    forall s: nat | s < STREAMS && CanReady(str, chunk, highWm, fills, s)
      ensures str[s].active && str[s].primed
    {
      StuckAtTheEnd(str, chunk, highWm, fills, choice, s);
    }
  }

  lemma ChoiceIsActive(str: seq<Stream>, chunk: nat, highWm: nat, fills: seq<nat>, choice: Option<nat>)
    requires |str| == |fills| == STREAMS && MostUrgent(str, chunk, highWm, fills, STREAMS, choice)
    ensures choice.Some? ==> choice.value < STREAMS && str[choice.value].active
  {}

  lemma FillsAt(written: seq<nat>, read: seq<nat>, s: nat)
    requires s < |written| == |read| && read[s] <= written[s]
    ensures Fills(written, read)[s] == written[s] - read[s]
  {}

  lemma ActiveIsPlaced(st: Stream, chunk: nat, highWm: nat, file: seq<Byte>, mem: seq<Byte>, w: nat, r: nat)
    requires StreamOk(st, chunk, highWm, file, mem, w, r)
    ensures Cursors(st) && r <= w
  {
    hide Unread;
  }

  lemma ActiveIsAligned(st: Stream, chunk: nat, highWm: nat, file: seq<Byte>, mem: seq<Byte>, w: nat, r: nat)
    requires StreamOk(st, chunk, highWm, file, mem, w, r)
    ensures Aligned(st, chunk) && r <= w && (w - r) % FRAME == 0
  {
    hide Pos, Unread, PrimedOk, Target, Head;
    AlignedPlace(st.origin, w, st.since);
    if st.looping {
      PosAligned(st.origin + (w - st.since), st.dataBytes);
    }
  }

  /** A reader in the first chunk has at least the target before it. */
  lemma StuffedRing(st: Stream, chunk: nat, p: nat)
    requires Aligned(st, chunk) && p % FRAME == 0 && 0 < p < chunk + FRAME
    ensures Target(st, chunk, 0) <= Behind(p, st.ringSize)
  {}

  /** With the writer at the base, the reader's place gives the fill. */
  lemma AtTheBase(st: Stream, chunk: nat, highWm: nat, file: seq<Byte>, mem: seq<Byte>, w: nat, r: nat)
    requires StreamOk(st, chunk, highWm, file, mem, w, r) && st.writePos == 0 && !Spent(st)
    ensures st.ringSize > chunk && r <= w && w - r == Behind(Pos(r, st.ringSize), st.ringSize)
    ensures Pos(r, st.ringSize) % FRAME == 0 && st.filePos < st.dataBytes
  {
    hide Unread;
    LapIs(r, st.ringSize);
    PosAligned(r, st.ringSize);
    var lap := Lap(r, st.ringSize);
    hide Pos;
    if w < lap {
      PosDistinct(w, lap, st.ringSize);
    } else if lap < w {
      PosDistinct(lap, w, st.ringSize);
    }
  }

  function TotalLack(str: seq<Stream>, chunk: nat, highWm: nat, written: seq<nat>, read: seq<nat>): nat
    requires |str| == |written| == |read| == STREAMS
  {
    Lack(str[0], chunk, highWm, written[0], read[0]) + Lack(str[1], chunk, highWm, written[1], read[1]) +
    Lack(str[2], chunk, highWm, written[2], read[2]) + Lack(str[3], chunk, highWm, written[3], read[3])
  }

  /** A refill shortens what is lacking by exactly what it brought. */
  lemma LackShrinks(b: nat, run: nat, str0: seq<Stream>, mem0: seq<Byte>, written0: seq<nat>, str1: seq<Stream>,
                    mem1: seq<Byte>,
                    written1: seq<nat>, chunk: nat, highWm: nat, files: seq<seq<Byte>>, read: seq<nat>)
    requires RefillDone(b, run, str0, mem0, written0, str1, mem1, written1, chunk, files)
    requires Onward(str0, written0, read, read) && str0[b].active
    requires written1[b] <= read[b] + Target(str0[b], chunk, highWm)
    ensures |written1| == |str1| == |written0| == STREAMS && run > 0
    ensures TotalLack(str1, chunk, highWm, written1, read) + run == TotalLack(str0, chunk, highWm, written0, read)
    ensures forall s | 0 <= s < STREAMS && str1[s].active :: str0[s].active
  {
    hide Copied, Target, AfterRefill;
    LackOfOne(str0[b], str1[b].primed, run, chunk, highWm, written0[b], read[b]);
  }

  lemma LackOfOne(st: Stream, primed: bool, run: nat, chunk: nat, highWm: nat, w: nat, r: nat)
    requires st.active && r <= w && w + run <= r + Target(st, chunk, highWm)
    ensures Lack(AfterRefill(st, run).(primed := primed), chunk, highWm, w + run, r) + run ==
            Lack(st, chunk, highWm, w, r)
    ensures AfterRefill(st, run).active
  {}

  lemma OnwardAt(str: seq<Stream>, written: seq<nat>, before: seq<nat>, now: seq<nat>, s: nat)
    requires Onward(str, written, before, now) && s < STREAMS && str[s].active
    ensures before[s] <= now[s] <= written[s]
  {}

  lemma OnwardTrans(str: seq<Stream>, written1: seq<nat>, before: seq<nat>, mid: seq<nat>, written2: seq<nat>,
                    now: seq<nat>)
    requires Onward(str, written1, before, mid) && Onward(str, written2, mid, now)
    ensures Onward(str, written2, before, now)
  {}

  lemma WrittenGrows(str: seq<Stream>, written: seq<nat>, b: nat, run: nat, before: seq<nat>, now: seq<nat>)
    requires Onward(str, written, before, now) && b < STREAMS
    ensures Onward(str, written[b := written[b] + run], before, now)
  {}

  lemma WrittenMoves(str0: seq<Stream>, written0: seq<nat>, written1: seq<nat>, b: nat, run: nat, str1: seq<Stream>,
                     mem0: seq<Byte>, mem1: seq<Byte>, chunk: nat, files: seq<seq<Byte>>, before: seq<nat>,
                       now: seq<nat>)
    requires RefillDone(b, run, str0, mem0, written0, str1, mem1, written1, chunk, files)
    requires Onward(str0, written0, before, now)
    ensures b < |written0| == STREAMS && Onward(str0, written0[b := written0[b] + run], before, now)
  {}

  lemma ChosenHasRoom(str: seq<Stream>, chunk: nat, highWm: nat, fills: seq<nat>, written: seq<nat>,
                      read0: seq<nat>, read: seq<nat>, best: nat)
    requires |str| == |fills| == STREAMS && MostUrgent(str, chunk, highWm, fills, STREAMS, Some(best))
    requires Onward(str, written, read0, read)
    requires FillsSeen(str, written, read0, read, fills, STREAMS)
    ensures best < STREAMS && str[best].active && !Spent(str[best])
    ensures written[best] < read[best] + Target(str[best], chunk, highWm)
  {}

  lemma NothingWanted(str: seq<Stream>, chunk: nat, highWm: nat, fills: seq<nat>, written: seq<nat>,
                      read0: seq<nat>, read: seq<nat>, files: seq<seq<Byte>>, mem: seq<Byte>)
    requires AllOk(str, chunk, highWm, files, mem, written, read)
    requires |str| == |fills| == STREAMS && MostUrgent(str, chunk, highWm, fills, STREAMS, None)
    requires Onward(str, written, read0, read)
    requires FillsSeen(str, written, read0, read, fills, STREAMS)
    ensures forall s | 0 <= s < STREAMS && str[s].active :: Settled(str[s], chunk, highWm, written[s], read0[s])
  {
    hide Started, Unread, PrimedOk, Target;
    forall s | 0 <= s < STREAMS && str[s].active
      ensures Settled(str[s], chunk, highWm, written[s], read0[s])
    {
      assert StreamOk(str[s], chunk, highWm, files[s], mem, written[s], read[s]);
      assert !Eligible(str[s], chunk, highWm, fills[s]);
    }
  }

  /** Below its target and not spent, a stream has a run to fetch. */
  lemma RoomIsLeft(str: seq<Stream>, chunk: nat, highWm: nat, files: seq<seq<Byte>>, mem: seq<Byte>,
                   written: seq<nat>, read: seq<nat>, b: nat, r0: nat)
    requires AllOk(str, chunk, highWm, files, mem, written, read) && b < STREAMS && str[b].active && !Spent(str[b])
    requires r0 <= read[b] <= written[b] && written[b] < r0 + Target(str[b], chunk, highWm)
    ensures var st := str[b];
            && written[b] - read[b] < Target(st, chunk, highWm) && WrapCursor(st) == st
            && st.filePos < st.dataBytes && st.writePos <= st.ringSize
            && var run := RunOf(st, chunk, Target(st, chunk, highWm) - (written[b] - read[b]));
            && run % FRAME == 0 && run <= chunk
            && st.writePos + run <= st.ringSize && st.filePos + run <= st.dataBytes
            && written[b] + run <= read[b] + Target(st, chunk, highWm)
            && st.base + st.ringSize <= |mem| && st.dataOff + st.dataBytes <= |files[b]|
            && (written[b] - read[b] + FRAME <= Target(st, chunk, highWm) ==> run > 0)
  {
    hide AllOk, StreamOk, Target, RunOf, Spent;
    AllOkAt(str, chunk, highWm, files, mem, written, read, b);
    RoomOfStream(str[b], chunk, highWm, files[b], mem, written[b], read[b]);
  }

  lemma RoomOfStream(st: Stream, chunk: nat, highWm: nat, file: seq<Byte>, mem: seq<Byte>, w: nat, r: nat)
    requires StreamOk(st, chunk, highWm, file, mem, w, r) && FRAME <= chunk && !Spent(st)
    requires r <= w < r + Target(st, chunk, highWm)
    ensures st.filePos < st.dataBytes && st.writePos <= st.ringSize
    ensures var run := RunOf(st, chunk, Target(st, chunk, highWm) - (w - r));
            && run % FRAME == 0 && run <= chunk
            && st.writePos + run <= st.ringSize && st.filePos + run <= st.dataBytes
            && w + run <= r + Target(st, chunk, highWm)
            && st.base + st.ringSize <= |mem| && st.dataOff + st.dataBytes <= |file|
            && (w - r + FRAME <= Target(st, chunk, highWm) ==> run > 0)
  {
    hide Unread, PrimedOk, Positions, Started, Spent, Target, RunOf;
    StartedInside(st, chunk, |mem|, file);
    CursorsAlign(st, chunk, |mem|, file, w, r);
    RunFits(st, chunk, Target(st, chunk, highWm) - (w - r));
  }

  lemma StartedInside(st: Stream, chunk: nat, memSize: nat, file: seq<Byte>)
    requires Started(st, chunk, memSize, file)
    ensures st.base + st.ringSize <= memSize && st.dataOff + st.dataBytes <= |file|
  {}

  /** The source cursor is wrapped before a run is sized; a refill has already
      wrapped it, so this never does anything. */
  function WrapCursor(st: Stream): Stream { if st.filePos >= st.dataBytes then st.(filePos := 0) else st }

  lemma CursorsAlign(st: Stream, chunk: nat, memSize: nat, file: seq<Byte>, w: nat, r: nat)
    requires Started(st, chunk, memSize, file) && Positions(st, w, r)
    ensures st.writePos + FRAME <= st.ringSize
    ensures !Spent(st) ==> st.filePos + FRAME <= st.dataBytes
  {
    hide Pos;
    PosAligned(w, st.ringSize);
    AlignedPlace(st.origin, w, st.since);
    if st.looping {
      PosAligned(st.origin + (w - st.since), st.dataBytes);
    }
  }

  lemma AllRefilledOn(str: seq<Stream>, chunk: nat, highWm: nat, files: seq<seq<Byte>>, mem: seq<Byte>,
                      written: seq<nat>, read: seq<nat>, b: nat, run: nat, want: nat -> nat)
    requires |str| == |files| == |written| == |read| == STREAMS
    requires AllOk(str, chunk, highWm, files, mem, written, read) && b < STREAMS && str[b].active
    requires str[b].writePos + run <= str[b].ringSize && str[b].filePos + run <= str[b].dataBytes && run % FRAME == 0
    requires written[b] + run <= read[b] + Target(str[b], chunk, highWm)
    ensures str[b].base + str[b].ringSize <= |mem| && str[b].dataOff + str[b].dataBytes <= |files[b]|
    ensures var w1 := written[b := written[b] + run];
            var read2 := AllMove(read, w1, want);
            && Onward(str, w1, read, read2) && read2[b] <= w1[b]
            && AllOk(str[b := Refilled(str[b], chunk, highWm, run, w1[b] - read2[b])], chunk, highWm, files,
                     Copied(mem, str[b].base + str[b].writePos, files[b], str[b].dataOff + str[b].filePos, run), w1,
                       read2)
            && str[b].ringSize > 0
            && FillArith(AfterRefill(str[b], run).writePos, str[b].ringSize, Pos(read2[b], str[b].ringSize)) ==
               w1[b] - read2[b]
            && Stay(read, read2, want)
  {
    hide AllOk, Target, Copied, FillArith, Pos, Onward, AllMove, Refilled, AfterRefill, Stay;
    var w1 := written[b := written[b] + run];
    var read2 := AllMove(read, w1, want);
    MovedOn(str, chunk, highWm, files, mem, written, read, b, run, want);
    OnwardAt(str, w1, read, read2, b);
    AllRefilled(str, chunk, highWm, files, mem, written, read, b, run, read2);
    RefilledSame(str[b], chunk, highWm, run, w1[b] - read2[b]);
    RefilledParts(str[b], chunk, highWm, run);
    AllOkAt(str[b := Refilled(str[b], chunk, highWm, run, w1[b] - read2[b])], chunk, highWm, files,
            Copied(mem, str[b].base + str[b].writePos, files[b], str[b].dataOff + str[b].filePos, run), w1, read2, b);
    FillFacts(Refilled(str[b], chunk, highWm, run, w1[b] - read2[b]), chunk, highWm, files[b],
              Copied(mem, str[b].base + str[b].writePos, files[b], str[b].dataOff + str[b].filePos, run), w1[b],
                read2[b]);
  }

  lemma RefilledParts(st: Stream, chunk: nat, highWm: nat, run: nat)
    ensures AfterRefill(st, run).ringSize == st.ringSize
    ensures forall fill: nat :: Refilled(st, chunk, highWm, run, fill) ==
              AfterRefill(st, run).(primed := st.primed || fill >= Head(st, Target(st, chunk, highWm)))
  {}

  lemma AllOkAt(str: seq<Stream>, chunk: nat, highWm: nat, files: seq<seq<Byte>>, mem: seq<Byte>,
                written: seq<nat>, read: seq<nat>, s: nat)
    requires AllOk(str, chunk, highWm, files, mem, written, read) && s < STREAMS && str[s].active
    ensures |str| == |files| == |written| == |read| == STREAMS && FRAME <= chunk
    ensures StreamOk(str[s], chunk, highWm, files[s], mem, written[s], read[s])
  {}

  lemma MovedOn(str: seq<Stream>, chunk: nat, highWm: nat, files: seq<seq<Byte>>, mem: seq<Byte>,
                written: seq<nat>, read: seq<nat>, b: nat, run: nat, want: nat -> nat)
    requires |str| == |files| == |written| == |read| == STREAMS
    requires AllOk(str, chunk, highWm, files, mem, written, read) && b < STREAMS && run % FRAME == 0
    ensures var w1 := written[b := written[b] + run];
            var read2 := AllMove(read, w1, want);
            && Onward(str, w1, read, read2)
            && (forall s | 0 <= s < STREAMS && str[s].active :: read2[s] % FRAME == 0)
            && Stay(read, read2, want)
  {
    hide AllOk, AllMove, Onward;
    forall s | 0 <= s < STREAMS && str[s].active
      ensures read[s] <= AllMove(read, written[b := written[b] + run], want)[s] <= written[b := written[b] + run][s]
      ensures AllMove(read, written[b := written[b] + run], want)[s] % FRAME == 0
    {
      MovedOnAt(str, chunk, highWm, files, mem, written, read, b, run, want, s);
    }
    OnwardIs(str, written[b := written[b] + run], read, AllMove(read, written[b := written[b] + run], want));
    AllStill(read, written[b := written[b] + run], want);
  }

  lemma OnwardIs(str: seq<Stream>, written: seq<nat>, before: seq<nat>, now: seq<nat>)
    requires |str| == |written| == |before| == |now| == STREAMS
    requires forall s | 0 <= s < STREAMS && str[s].active :: before[s] <= now[s] <= written[s]
    ensures Onward(str, written, before, now)
  {}

  lemma MovedOnAt(str: seq<Stream>, chunk: nat, highWm: nat, files: seq<seq<Byte>>, mem: seq<Byte>,
                  written: seq<nat>, read: seq<nat>, b: nat, run: nat, want: nat -> nat, s: nat)
    requires |str| == |files| == |written| == |read| == STREAMS
    requires AllOk(str, chunk, highWm, files, mem, written, read) && b < STREAMS && run % FRAME == 0
    requires s < STREAMS && str[s].active
    ensures read[s] <= AllMove(read, written[b := written[b] + run], want)[s] <= written[b := written[b] + run][s]
    ensures AllMove(read, written[b := written[b] + run], want)[s] % FRAME == 0
  {
    hide AllOk, StreamOk, AllMove, ReaderMoves;
    AllOkAt(str, chunk, highWm, files, mem, written, read, s);
    CountsAlign(str[s], chunk, highWm, files[s], mem, written[s], read[s]);
    AllMoveAt(read, written[b := written[b] + run], want, s);
  }

  lemma AllMoveAt(read: seq<nat>, written: seq<nat>, want: nat -> nat, s: nat)
    requires s < |read| == |written|
    ensures AllMove(read, written, want)[s] == ReaderMoves(read[s], want(s), written[s])
  {}

  /** Readers that want nothing more stay where they are. */
  ghost predicate Stay(before: seq<nat>, now: seq<nat>, want: nat -> nat) {
    |before| == |now| && forall s | 0 <= s < |now| && want(s) == 0 :: now[s] == before[s]
  }

  lemma AllStill(read: seq<nat>, written: seq<nat>, want: nat -> nat)
    requires |read| == |written|
    ensures Stay(read, AllMove(read, written, want), want)
  {}

  lemma CopiedMore(mem: seq<Byte>, addr: nat, file: seq<Byte>, off: nat, i: nat)
    requires addr + i < |mem| && off + i < |file|
    ensures Copied(mem, addr, file, off, i)[addr + i := file[off + i]] == Copied(mem, addr, file, off, i + 1)
  {}

  lemma FillFacts(st: Stream, chunk: nat, highWm: nat, file: seq<Byte>, mem: seq<Byte>, w: nat, r: nat)
    requires StreamOk(st, chunk, highWm, file, mem, w, r) && FRAME <= chunk
    ensures st.ringSize > 0 && FillArith(st.writePos, st.ringSize, Pos(r, st.ringSize)) == w - r
  {
    hide Pos, FillArith;
    FillIsUnread(w, r, st.ringSize);
  }

  /** A stream started or sought is in order: nothing of the new source is in the
      ring yet, and what the reader comes by before the ring's base is stale. */
  lemma BegunIsOk(st: Stream, chunk: nat, highWm: nat, file: seq<Byte>, mem: seq<Byte>, r: nat)
    requires Started(st, chunk, |mem|, file) && st.writePos == 0 && st.filePos == st.origin < st.dataBytes
    requires !st.primed && r % FRAME == 0 && st.origin % FRAME == 0 && st.since == Lap(r, st.ringSize)
    ensures StreamOk(st, chunk, highWm, file, mem, st.since, r)
  {
    LapIs(r, st.ringSize);
    hide Lap;
    PosSmall(st.origin, st.dataBytes);
    hide Pos;
  }

  lemma PosSmall(k: nat, n: nat)
    requires k < n
    ensures Pos(k, n) == k
  {
    DivModUnique(k, n, 0, k);
  }

  lemma CountsAlign(st: Stream, chunk: nat, highWm: nat, file: seq<Byte>, mem: seq<Byte>, w: nat, r: nat)
    requires StreamOk(st, chunk, highWm, file, mem, w, r)
    ensures r <= w && r % FRAME == 0 && w % FRAME == 0
  {}
}
