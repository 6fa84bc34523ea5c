// The lock-free audio ring between one pushing and one reading thread, step by
// interleaved step. engine/audio/audio_ring_stream.c.
module AudioRing {
  import opened Arith

  const FRAMES: nat := 32768
  const U32: nat := 0x1_0000_0000

  datatype Frame = Frame(l: int, r: int)

  /** The pushing thread: idle; its own cursor read; copying the accepted frames. */
  datatype Producer = PIdle | PHaveW(offer: seq<Frame>, w: nat) | PCopying(accept: seq<Frame>, w: nat, i: nat)

  /** The reading thread: idle; its own cursor read; copying out; left with less
      than it wanted, the end-of-stream flag still to be looked at. */
  datatype Consumer = CIdle | CHaveR(want: nat, r: nat) | CCopying(want: nat, r: nat, take: nat, dst: seq<Frame>)
                    | CShort(lacking: nat)

  /** Shared cursors, flag, buffer and counters, both threads, and what happened so
      far: every frame accepted and published, every real frame delivered, and how
      many silent ones. */
  datatype State = State(
    w: nat, r: nat, eof: bool, buf: seq<Frame>, overflows: nat, underruns: nat,
    prod: Producer, cons: Consumer,
    accepted: seq<Frame>, delivered: seq<Frame>, offered: nat, padded: nat)

  datatype Step = Push(offer: seq<Frame>) | PushLoad | PushCopy | PushStore | SetEof
                | Read(want: nat) | ReadLoad | ReadCopy | ReadStore | ReadEnd

  // ---- the code's arithmetic ----

  /** w - r in 32 bits. */
  function Gap(w: nat, r: nat): nat
    requires w < U32 && r < U32
  {
    (w - r) % U32
  }

  /** (cursor + i) & mask. */
  function Slot(cursor: nat, i: nat): (s: nat)
    ensures s < FRAMES
  {
    (cursor + i) % U32 % FRAMES
  }

  // ---- the steps ----

  /** One step of one thread; a step that is not due changes nothing. */
  function Next(s: State, e: Step): State {
    match e
    case Push(offer) =>
      if s.prod.PIdle? && offer != [] then s.(prod := PHaveW(offer, s.w)) else s
    case PushLoad =>
      if s.prod.PHaveW? && s.prod.w < U32 && s.r < U32 then
        var n := Min(|s.prod.offer|, (FRAMES - Gap(s.prod.w, s.r)) % U32);
        s.(prod := PCopying(s.prod.offer[..n], s.prod.w, 0), overflows := s.overflows + (|s.prod.offer| - n),
           offered := s.offered + |s.prod.offer|)
      else s
    case PushCopy =>
      if s.prod.PCopying? && s.prod.i < |s.prod.accept| && |s.buf| == FRAMES then
        s.(buf := s.buf[Slot(s.prod.w, s.prod.i) := s.prod.accept[s.prod.i]], prod := s.prod.(i := s.prod.i + 1))
      else s
    case PushStore =>
      if s.prod.PCopying? && s.prod.i == |s.prod.accept| then
        s.(w := (s.prod.w + |s.prod.accept|) % U32, prod := PIdle, accepted := s.accepted + s.prod.accept)
      else s
    case SetEof => if s.prod.PIdle? then s.(eof := true) else s
    case Read(want) =>
      if s.cons.CIdle? && want > 0 then s.(cons := CHaveR(want, s.r)) else s
    case ReadLoad =>
      if s.cons.CHaveR? && s.w < U32 && s.cons.r < U32 then
        s.(cons := CCopying(s.cons.want, s.cons.r, Min(Gap(s.w, s.cons.r), s.cons.want), []))
      else s
    case ReadCopy =>
      if s.cons.CCopying? && |s.cons.dst| < s.cons.take && |s.buf| == FRAMES then
        s.(cons := s.cons.(dst := s.cons.dst + [s.buf[Slot(s.cons.r, |s.cons.dst|)]]))
      else s
    case ReadStore =>
      if s.cons.CCopying? && |s.cons.dst| == s.cons.take then
        s.(r := (s.cons.r + s.cons.take) % U32, delivered := s.delivered + s.cons.dst,
           cons := if s.cons.take < s.cons.want then CShort(s.cons.want - s.cons.take) else CIdle)
      else s
    case ReadEnd =>
      if s.cons.CShort? then
        if s.eof then s.(cons := CIdle)
        else s.(cons := CIdle, underruns := s.underruns + 1, padded := s.padded + s.cons.lacking)
      else s
  }

  /** A ring after reset. */
  ghost predicate Fresh(s: State) {
    && s.w == s.r == s.overflows == s.underruns == s.offered == s.padded == 0 && |s.buf| == FRAMES && !s.eof
    && s.prod == PIdle && s.cons == CIdle && s.accepted == [] && s.delivered == []
  }

  function Run(s: State, es: seq<Step>): State {
    if es == [] then s else Next(Run(s, es[..|es| - 1]), es[|es| - 1])
  }

  // ---- the invariant ----

  /** Frames published and frames consumed, ever. */
  function W(s: State): nat { |s.accepted| }
  function R(s: State): nat { |s.delivered| }

  function Pos(k: nat): (p: nat)
    ensures p < FRAMES
  {
    k % FRAMES
  }

  ghost predicate CursorsOk(s: State) {
    && s.w == W(s) % U32 && s.r == R(s) % U32
    && R(s) <= W(s) <= R(s) + FRAMES
  }

  /** Every published, unread frame is in its slot. */
  ghost predicate DataOk(s: State) {
    && |s.buf| == FRAMES
    && forall k | R(s) <= k < W(s) :: s.buf[Pos(k)] == s.accepted[k]
  }

  ghost predicate ProdOk(s: State)
    requires |s.buf| == FRAMES
  {
    match s.prod
    case PIdle => true
    case PHaveW(_, w) => w == s.w
    case PCopying(accept, w, i) =>
      && w == s.w && i <= |accept| && W(s) + |accept| <= R(s) + FRAMES
      && forall j | 0 <= j < i :: s.buf[Pos(W(s) + j)] == accept[j]
  }

  ghost predicate ConsOk(s: State) {
    match s.cons
    case CIdle => true
    case CHaveR(_, r) => r == s.r
    case CCopying(want, r, take, dst) =>
      && r == s.r && |dst| <= take <= want && R(s) + take <= W(s)
      && forall j | 0 <= j < |dst| :: dst[j] == s.accepted[R(s) + j]
    case CShort(lacking) => lacking > 0
  }

  function InFlight(s: State): nat { if s.prod.PCopying? then |s.prod.accept| else 0 }

  ghost predicate Inv(s: State) {
    && CursorsOk(s) && DataOk(s) && ProdOk(s) && ConsOk(s)
    && s.delivered == s.accepted[..R(s)]
    && s.offered == W(s) + InFlight(s) + s.overflows
  }

  // ---- arithmetic ----

  lemma GapIsCount(w: nat, r: nat)
    requires r <= w <= r + FRAMES
    ensures Gap(w % U32, r % U32) == w - r
  {
    var a, b := w % U32, r % U32;
    assert w == w / U32 * U32 + a && r == r / U32 * U32 + b;
    var q := w / U32 - r / U32;
    assert a - b == (-q) * U32 + (w - r);
    DivModUnique(a - b, U32, -q, w - r);
  }

  lemma WrapAdd(k: nat, n: nat)
    ensures (k % U32 + n) % U32 == (k + n) % U32
  {
    assert k == k / U32 * U32 + k % U32;
    ModShift(k % U32 + n, U32, k / U32);
  }

  /** The wrap of the cursors falls on a wrap of the ring. */
  lemma SlotIsPos(k: nat, i: nat)
    ensures Slot(k % U32, i) == Pos(k + i)
  {
    WrapAdd(k, i);
    var m := k + i;
    assert m == m / U32 * U32 + m % U32;
    assert m == m / U32 * 131072 * FRAMES + m % U32;
    ModShift(m % U32, FRAMES, m / U32 * 131072);
  }

  lemma PosDistinct(j: nat, k: nat)
    requires j < k < j + FRAMES
    ensures Pos(j) != Pos(k)
  {
    if Pos(j) == Pos(k) {
      SameResidueNear(k, j, FRAMES);
    }
  }

  // ---- every step keeps it ----

  lemma PushLoadKeeps(s: State)
    requires Inv(s)
    ensures Inv(Next(s, PushLoad))
  {
    hide Gap, Pos;
    if s.prod.PHaveW? {
      GapIsCount(W(s), R(s));
    }
  }

  /** The slot about to be written holds no frame anyone may read. */
  lemma PushCopyKeeps(s: State)
    requires Inv(s)
    ensures Inv(Next(s, PushCopy))
  {
    hide Slot, Pos;
    if s.prod.PCopying? && s.prod.i < |s.prod.accept| {
      var t, at := Next(s, PushCopy), W(s) + s.prod.i;
      SlotIsPos(W(s), s.prod.i);
      forall k | R(s) <= k < at
        ensures Pos(k) != Pos(at)
      {
        PosDistinct(k, at);
      }
      CopyKeepsProd(s, t);
    }
  }

  lemma CopyKeepsProd(s: State, t: State)
    requires Inv(s) && s.prod.PCopying? && s.prod.i < |s.prod.accept|
    requires t == s.(buf := s.buf[Pos(W(s) + s.prod.i) := s.prod.accept[s.prod.i]], prod := s.prod.(i := s.prod.i + 1))
    requires forall k | R(s) <= k < W(s) + s.prod.i :: Pos(k) != Pos(W(s) + s.prod.i)
    ensures Inv(t)
  {
    hide Pos;
    forall j | 0 <= j < s.prod.i + 1
      ensures t.buf[Pos(W(s) + j)] == s.prod.accept[j]
    {
      if j < s.prod.i {
        assert Pos(W(s) + j) != Pos(W(s) + s.prod.i);
      }
    }
  }

  lemma PushStoreKeeps(s: State)
    requires Inv(s)
    ensures Inv(Next(s, PushStore))
  {
    hide Pos;
    if s.prod.PCopying? && s.prod.i == |s.prod.accept| {
      var t, n := Next(s, PushStore), |s.prod.accept|;
      WrapAdd(W(s), n);
      forall k | R(t) <= k < W(t)
        ensures t.buf[Pos(k)] == t.accepted[k]
      {
        if k >= W(s) {
          assert s.buf[Pos(W(s) + (k - W(s)))] == s.prod.accept[k - W(s)];
        }
      }
    }
  }

  lemma ReadLoadKeeps(s: State)
    requires Inv(s)
    ensures Inv(Next(s, ReadLoad))
  {
    hide Gap, Pos;
    if s.cons.CHaveR? {
      GapIsCount(W(s), R(s));
    }
  }

  lemma ReadCopyKeeps(s: State)
    requires Inv(s)
    ensures Inv(Next(s, ReadCopy))
  {
    hide Slot, Pos;
    if s.cons.CCopying? && |s.cons.dst| < s.cons.take {
      SlotIsPos(R(s), |s.cons.dst|);
      var at := R(s) + |s.cons.dst|;
      assert s.buf[Pos(at)] == s.accepted[at];
    }
  }

  lemma ReadStoreKeeps(s: State)
    requires Inv(s)
    ensures Inv(Next(s, ReadStore))
  {
    hide Pos;
    if s.cons.CCopying? && |s.cons.dst| == s.cons.take {
      var t := Next(s, ReadStore);
      WrapAdd(R(s), s.cons.take);
      assert s.cons.dst == s.accepted[R(s)..R(s) + s.cons.take];
      assert t.delivered == s.accepted[..R(s) + s.cons.take];
    }
  }

  /** The steps that move no frame. */
  lemma OtherStepsKeep(s: State, e: Step)
    requires Inv(s) && (e.Push? || e.SetEof? || e.Read? || e.ReadEnd?)
    ensures Inv(Next(s, e))
  {
    hide Pos;
  }

  lemma NextKeepsInv(s: State, e: Step)
    requires Inv(s)
    ensures Inv(Next(s, e))
  {
    hide Inv, Next;
    match e
    case PushLoad => PushLoadKeeps(s);
    case PushCopy => PushCopyKeeps(s);
    case PushStore => PushStoreKeeps(s);
    case ReadLoad => ReadLoadKeeps(s);
    case ReadCopy => ReadCopyKeeps(s);
    case ReadStore => ReadStoreKeeps(s);
    case _ => OtherStepsKeep(s, e);
  }

  lemma {:induction false} RunKeepsInv(s: State, es: seq<Step>)
    requires Fresh(s)
    ensures Inv(Run(s, es))
    decreases |es|
  {
    if es == [] {
    } else {
      RunKeepsInv(s, es[..|es| - 1]);
      NextKeepsInv(Run(s, es[..|es| - 1]), es[|es| - 1]);
    }
  }

  // ---- what it means ----

  /** WHAT A THREAD DECIDES when it looks at the other's cursor, wherever the other
      is: a push accepts as many frames as there is room for and counts the rest, a
      read takes as many as are published, up to what it wants. */
  lemma LoadsDecide(s: State)
    requires Inv(s)
    ensures s.prod.PHaveW? ==>
              var offer, room := s.prod.offer, 32768 - (|s.accepted| - |s.delivered|);
              var n := if |offer| < room then |offer| else room;
              Next(s, PushLoad) == s.(prod := PCopying(offer[..n], s.w, 0), overflows := s.overflows + (|offer| - n),
                                      offered := s.offered + |offer|)
    ensures s.cons.CHaveR? ==>
              var want, ready := s.cons.want, |s.accepted| - |s.delivered|;
              Next(s, ReadLoad) == s.(cons := CCopying(want, s.r, if ready < want then ready else want, []))
  {
    GapIsCount(W(s), R(s));
    hide Gap, Pos;
  }

  /** UNDER EVERY INTERLEAVING the reader gets exactly the accepted frames, in
      order, and never more than a ringful behind; every frame offered was
      accepted or counted as an overflow. */
  lemma EveryInterleaving(s: State, es: seq<Step>)
    requires Fresh(s)
    ensures var t := Run(s, es);
            && t.delivered <= t.accepted && |t.accepted| <= |t.delivered| + FRAMES
            && t.w < U32 && t.r < U32 && Gap(t.w, t.r) == |t.accepted| - |t.delivered|
            && (t.prod.PIdle? ==> t.offered == |t.accepted| + t.overflows)
  {
    RunKeepsInv(s, es);
    var t := Run(s, es);
    GapIsCount(W(t), R(t));
  }

  /** THE END OF THE STREAM is final: after it no read is padded or counted as an
      underrun, whatever the threads do, and all that was accepted can still be
      delivered. */
  lemma {:induction false} AfterEofNoSilence(s: State, es: seq<Step>)
    requires s.eof
    ensures var t := Run(s, es); t.eof && t.padded == s.padded && t.underruns == s.underruns
    decreases |es|
  {
    hide Gap, Slot;
    if es == [] {
    } else {
      AfterEofNoSilence(s, es[..|es| - 1]);
    }
  }

  /** A slot being written is never one being read, nor one still to be read. */
  lemma NoSlotIsShared(s: State, es: seq<Step>, j: nat, k: nat)
    requires Fresh(s)
    ensures var t := Run(s, es);
            t.prod.PCopying? && t.cons.CCopying? && j < |t.prod.accept| && k < t.cons.take ==>
              Slot(t.prod.w, j) != Slot(t.cons.r, k)
  {
    RunKeepsInv(s, es);
    var t := Run(s, es);
    if t.prod.PCopying? && t.cons.CCopying? && j < |t.prod.accept| && k < t.cons.take {
      SlotIsPos(W(t), j);
      SlotIsPos(R(t), k);
      PosDistinct(R(t) + k, W(t) + j);
    }
  }
}
