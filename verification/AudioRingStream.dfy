// The audio ring's two calls, each running its steps without a break.
// engine/audio/audio_ring_stream.c.
module AudioRingStream {
  import opened Arith
  import opened AudioRing

  const SILENCE := Frame(0, 0)

  function Silence(n: nat): seq<Frame> { seq(n, _ => SILENCE) }

  lemma RunMore(s: State, es: seq<Step>, e: Step)
    ensures Run(s, es + [e]) == Next(Run(s, es), e)
  {
    assert (es + [e])[..|es + [e]| - 1] == es;
  }

  lemma RunTwo(s: State, a: Step, b: Step)
    ensures Run(s, [a, b]) == Next(Next(s, a), b)
  {
    hide Next;
    RunMore(s, [], a);
    RunMore(s, [a], b);
    assert [] + [a] == [a] && [a] + [b] == [a, b];
  }

  /** The first two steps of a call, then its copy step i times. */
  function Begun(a: Step, b: Step, copy: Step, i: nat): seq<Step> {
    [a, b] + seq(i, _ => copy)
  }

  /** The steps of one push that copies n frames, and of one read. */
  function PushSteps(offer: seq<Frame>, n: nat): seq<Step> {
    Begun(Push(offer), PushLoad, PushCopy, n) + [PushStore]
  }

  function ReadSteps(want: nat, n: nat): seq<Step> {
    Begun(Read(want), ReadLoad, ReadCopy, n) + [ReadStore] + [ReadEnd]
  }

  lemma BegunMore(s: State, a: Step, b: Step, copy: Step, i: nat)
    ensures Run(s, Begun(a, b, copy, 0)) == Next(Next(s, a), b)
    ensures Run(s, Begun(a, b, copy, i + 1)) == Next(Run(s, Begun(a, b, copy, i)), copy)
  {
    hide Run, Next;
    RunTwo(s, a, b);
    assert Begun(a, b, copy, 0) == [a, b];
    assert Begun(a, b, copy, i + 1) == Begun(a, b, copy, i) + [copy];
    RunMore(s, Begun(a, b, copy, i), copy);
  }

  lemma PushStepsEnd(s: State, offer: seq<Frame>, n: nat)
    ensures Run(s, PushSteps(offer, n)) == Next(Run(s, Begun(Push(offer), PushLoad, PushCopy, n)), PushStore)
  {
    hide Run, Next, Begun;
    RunMore(s, Begun(Push(offer), PushLoad, PushCopy, n), PushStore);
  }

  lemma ReadStepsEnd(s: State, want: nat, n: nat)
    ensures Run(s, ReadSteps(want, n)) ==
            Next(Next(Run(s, Begun(Read(want), ReadLoad, ReadCopy, n)), ReadStore), ReadEnd)
  {
    hide Run, Next, Begun;
    var es := Begun(Read(want), ReadLoad, ReadCopy, n);
    RunMore(s, es, ReadStore);
    RunMore(s, es + [ReadStore], ReadEnd);
  }

  lemma IdlePush(s: State)
    requires s.prod.PIdle?
    ensures Run(s, PushSteps([], 0)) == s
  {
    BegunMore(s, Push([]), PushLoad, PushCopy, 0);
    PushStepsEnd(s, [], 0);
    hide Run, PushSteps, Begun, Gap, Slot;
  }

  lemma IdleRead(s: State)
    requires s.cons.CIdle?
    ensures Run(s, ReadSteps(0, 0)) == s
  {
    BegunMore(s, Read(0), ReadLoad, ReadCopy, 0);
    ReadStepsEnd(s, 0, 0);
    hide Run, ReadSteps, Begun, Gap, Slot;
  }

  /** What the load step decides when nothing else runs. */
  lemma PushDecides(s: State, offer: seq<Frame>)
    requires Inv(s) && s.prod.PIdle? && offer != []
    ensures s.w < U32 && s.r < U32 && Gap(s.w, s.r) == |s.accepted| - |s.delivered| <= FRAMES
    ensures var n := Min(|offer|, FRAMES - (|s.accepted| - |s.delivered|));
            var t := Next(Next(s, Push(offer)), PushLoad);
            Inv(t) && t == s.(prod := PCopying(offer[..n], s.w, 0), overflows := s.overflows + (|offer| - n),
                              offered := s.offered + |offer|)
  {
    GapIsCount(|s.accepted|, |s.delivered|);
    NextKeepsInv(s, Push(offer));
    NextKeepsInv(Next(s, Push(offer)), PushLoad);
    hide Gap, DataOk, ProdOk, ConsOk;
  }

  lemma ReadDecides(s: State, want: nat)
    requires Inv(s) && s.cons.CIdle? && want > 0
    ensures s.w < U32 && s.r < U32 && Gap(s.w, s.r) == |s.accepted| - |s.delivered| <= FRAMES
    ensures var take := Min(|s.accepted| - |s.delivered|, want);
            var t := Next(Next(s, Read(want)), ReadLoad);
            Inv(t) && t == s.(cons := CCopying(want, s.r, take, []))
  {
    GapIsCount(|s.accepted|, |s.delivered|);
    NextKeepsInv(s, Read(want));
    NextKeepsInv(Next(s, Read(want)), ReadLoad);
    hide Gap, DataOk, ProdOk, ConsOk;
  }

  lemma PushCopies(t: State)
    requires Inv(t) && t.prod.PCopying? && t.prod.i < |t.prod.accept|
    ensures |t.buf| == FRAMES && Slot(t.prod.w, t.prod.i) < FRAMES
    ensures Next(t, PushCopy) == t.(buf := t.buf[Slot(t.prod.w, t.prod.i) := t.prod.accept[t.prod.i]],
                                    prod := t.prod.(i := t.prod.i + 1))
    ensures Inv(Next(t, PushCopy))
  {
    NextKeepsInv(t, PushCopy);
  }

  /** The store ends the push: frames accepted so far, then the new ones. */
  lemma PushEnds(t: State, n: nat)
    requires Inv(t) && t.prod.PCopying? && t.prod.i == |t.prod.accept| == n
    ensures Next(t, PushStore) == t.(w := (t.prod.w + n) % U32, prod := PIdle, accepted := t.accepted + t.prod.accept)
    ensures Inv(Next(t, PushStore)) && |t.delivered| <= |t.accepted|
  {
    PushStoreKeeps(t);
    hide DataOk, ProdOk, ConsOk, Pos;
  }

  lemma AppendedTail<T>(xs: seq<T>, ys: seq<T>, k: nat)
    requires k <= |xs|
    ensures (xs + ys)[k..] == xs[k..] + ys
  {}

  lemma ReadCopies(t: State)
    requires Inv(t) && t.cons.CCopying? && |t.cons.dst| < t.cons.take
    ensures |t.buf| == FRAMES && Slot(t.cons.r, |t.cons.dst|) < FRAMES
    ensures Next(t, ReadCopy) == t.(cons := t.cons.(dst := t.cons.dst + [t.buf[Slot(t.cons.r, |t.cons.dst|)]]))
    ensures Inv(Next(t, ReadCopy))
  {
    NextKeepsInv(t, ReadCopy);
  }

  /** The store ends the copying: what was copied is the oldest unread frames. */
  lemma ReadStores(t: State, take: nat)
    requires Inv(t) && t.cons.CCopying? && |t.cons.dst| == t.cons.take == take
    ensures Next(t, ReadStore) == t.(r := (t.cons.r + take) % U32, delivered := t.delivered + t.cons.dst,
                                     cons := if take < t.cons.want then CShort(t.cons.want - take) else CIdle)
    ensures Inv(Next(t, ReadStore)) && |t.delivered| + take <= |t.accepted|
    ensures t.cons.dst == t.accepted[|t.delivered|..][..take]
  {
    ReadStoreKeeps(t);
    hide DataOk, ProdOk, Pos;
  }

  /** And the flag decides what is missing. */
  lemma ReadEnds(t: State)
    requires Inv(t) && (t.cons.CShort? || t.cons.CIdle?)
    ensures Inv(Next(t, ReadEnd))
    ensures Next(t, ReadEnd) == if t.cons.CShort? && !t.eof
                                then t.(cons := CIdle, underruns := t.underruns + 1,
                                        padded := t.padded + t.cons.lacking)
                                else t.(cons := CIdle)
  {
    NextKeepsInv(t, ReadEnd);
    hide Inv;
  }

  lemma DroppedTwice<T>(xs: seq<T>, k: nat, n: nat)
    requires k + n <= |xs|
    ensures xs[k + n..] == xs[k..][n..]
  {}

  lemma CopiedOne<T>(taken: seq<T>, was: seq<T>, i: nat, x: T)
    requires i == |taken| < |was|
    ensures (taken + was[i..])[i := x] == taken + [x] + was[i + 1..]
  {}

  lemma Spliced<T>(taken: seq<T>, was: seq<T>, want: nat)
    requires |taken| <= want <= |was|
    ensures (taken + was[|taken|..])[..|taken|] == taken
    ensures (taken + was[|taken|..])[want..] == was[want..]
  {}

  /** memset over part of the reader's buffer. */
  method FillSilence(dst: array<Frame>, from: nat, to: nat)
    requires from <= to <= dst.Length
    modifies dst
    ensures dst[..] == old(dst[..])[..from] + Silence(to - from) + old(dst[..])[to..]
  {
    ghost var was := dst[..];
    for j := from to to
      invariant dst[..] == was[..from] + Silence(j - from) + was[j..]
    {
      dst[j] := SILENCE;
    }
  }

  class RingStream {
    const buf: array<Frame>
    var w: nat
    var r: nat
    var eof: bool
    var overflows: nat
    var underruns: nat
    ghost var padded: nat
    ghost var accepted: seq<Frame>
    ghost var delivered: seq<Frame>
    ghost var offered: nat

    /** The ring as the step machine sees it, with the given threads under way. */
    ghost function During(prod: Producer, cons: Consumer): State
      reads this, buf
    {
      State(w, r, eof, buf[..], overflows, underruns, prod, cons, accepted, delivered, offered, padded)
    }

    /** ... and between two calls. */
    ghost function Now(): State
      reads this, buf
    {
      During(PIdle, CIdle)
    }

    ghost predicate Valid()
      reads this, buf
    {
      Inv(Now())
    }

    /** The frames a reader will get next. */
    ghost function Unread(): seq<Frame>
      reads this, buf
      requires Valid()
    {
      accepted[|delivered|..]
    }

    constructor ()
      ensures Valid() && fresh(buf) && Fresh(Now()) && Unread() == []
    {
      buf := new Frame[FRAMES](_ => SILENCE);
      w, r, eof, overflows, underruns := 0, 0, false, 0, 0;
      accepted, delivered, offered, padded := [], [], 0, 0;
    }

    /** The copy loop of a push: its copy steps, one by one. */
    method CopyIn(frames: seq<Frame>, n: nat, ghost s0: State)
      requires n <= |frames| && Inv(During(PCopying(frames[..n], w, 0), CIdle))
      requires During(PCopying(frames[..n], w, 0), CIdle) == Next(Next(s0, Push(frames)), PushLoad)
      modifies buf
      ensures During(PCopying(frames[..n], w, n), CIdle) == Run(s0, Begun(Push(frames), PushLoad, PushCopy, n))
      ensures Inv(During(PCopying(frames[..n], w, n), CIdle))
    {
      hide Inv, Next, Run, Begun, Slot;
      ghost var accept := frames[..n];
      BegunMore(s0, Push(frames), PushLoad, PushCopy, 0);
      var i := 0;
      while i < n
        invariant i <= n
        invariant During(PCopying(accept, w, i), CIdle) == Run(s0, Begun(Push(frames), PushLoad, PushCopy, i))
        invariant Inv(During(PCopying(accept, w, i), CIdle))
      {
        PushCopies(During(PCopying(accept, w, i), CIdle));
        BegunMore(s0, Push(frames), PushLoad, PushCopy, i);
        buf[Slot(w, i)] := frames[i];
        i := i + 1;
      }
    }

    /** The copy loop of a read. */
    method CopyOut(dst: array<Frame>, want: nat, take: nat, ghost s0: State) returns (ghost taken: seq<Frame>)
      requires take <= dst.Length && dst != buf && Inv(During(PIdle, CCopying(want, r, take, [])))
      requires During(PIdle, CCopying(want, r, take, [])) == Next(Next(s0, Read(want)), ReadLoad)
      modifies dst
      ensures |taken| == take && dst[..] == taken + old(dst[..])[take..]
      ensures During(PIdle, CCopying(want, r, take, taken)) == Run(s0, Begun(Read(want), ReadLoad, ReadCopy, take))
      ensures Inv(During(PIdle, CCopying(want, r, take, taken)))
    {
      hide Inv, Next, Run, Begun, Slot;
      BegunMore(s0, Read(want), ReadLoad, ReadCopy, 0);
      ghost var was := dst[..];
      taken := [];
      var i := 0;
      while i < take
        invariant i == |taken| <= take
        invariant During(PIdle, CCopying(want, r, take, taken)) == Run(s0, Begun(Read(want), ReadLoad, ReadCopy, i))
        invariant Inv(During(PIdle, CCopying(want, r, take, taken)))
        invariant dst[..] == taken + was[i..]
      {
        ReadCopies(During(PIdle, CCopying(want, r, take, taken)));
        BegunMore(s0, Read(want), ReadLoad, ReadCopy, i);
        dst[i] := buf[Slot(r, i)];
        CopiedOne(taken, was, i, dst[i]);
        taken := taken + [dst[i]];
        i := i + 1;
      }
    }

    /** As many frames as fit are accepted, in order; the rest are counted. */
    method PushFrames(frames: seq<Frame>) returns (n: nat)
      requires Valid()
      modifies this, buf
      ensures Valid()
      ensures n == Min(|frames|, FRAMES - |old(Unread())|)
      ensures Unread() == old(Unread()) + frames[..n]
      ensures overflows == old(overflows) + (|frames| - n) && underruns == old(underruns) && eof == old(eof)
      ensures Now() == Run(old(Now()), PushSteps(frames, n))
    {
      ghost var s0 := Now();
      hide Inv, Next, Run, Begun, PushSteps, Gap, Slot;
      if |frames| == 0 {
        IdlePush(s0);
        return 0;
      }
      PushDecides(s0, frames);
      var w0 := w;
      var free := (FRAMES - Gap(w0, r)) % U32;
      n := |frames|;
      if n > free {
        overflows := overflows + (n - free);
        n := free;
      }
      offered := offered + |frames|;
      ghost var accept := frames[..n];
      CopyIn(frames, n, s0);
      PushEnds(During(PCopying(accept, w0, n), CIdle), n);
      PushStepsEnd(s0, frames, n);
      AppendedTail(accepted, accept, |delivered|);
      w := (w0 + n) % U32;
      accepted := accepted + accept;
    }

    /** audio_ring_stream_set_eof. */
    method EndOfStream()
      requires Valid()
      modifies this`eof
      ensures Valid() && eof && Unread() == old(Unread())
      ensures Now() == Next(old(Now()), SetEof)
    {
      hide Inv;
      NextKeepsInv(Now(), SetEof);
      eof := true;
    }

    /** The frames a read finds, and the cursor moved past them; what is missing
        is left to the end of the call. */
    method TakeFrames(dst: array<Frame>, want: nat) returns (take: nat)
      requires Valid() && 0 < want <= dst.Length && dst != buf
      modifies this`r, this`delivered, dst
      ensures take == Min(|old(Unread())|, want)
      ensures dst[..] == old(Unread())[..take] + old(dst[..])[take..]
      ensures |delivered| <= |accepted| && accepted[|delivered|..] == old(Unread())[take..]
      ensures var short := During(PIdle, if take < want then CShort(want - take) else CIdle);
              && Inv(short)
              && short == Next(Run(old(Now()), Begun(Read(want), ReadLoad, ReadCopy, take)), ReadStore)
    {
      ghost var s0 := Now();
      hide Inv, Next, Run, Begun, Gap, Slot;
      ReadDecides(s0, want);
      var r0 := r;
      take := Min(Gap(w, r0), want);
      ghost var taken := CopyOut(dst, want, take, s0);
      ReadStores(During(PIdle, CCopying(want, r0, take, taken)), take);
      DroppedTwice(accepted, |delivered|, take);
      r := (r0 + take) % U32;
      delivered := delivered + taken;
    }

    /** The oldest unread frames land in `dst`. Short of the request, silence fills
        the rest until the end of the stream; after it the read is just short. */
    method ReadFrames(dst: array<Frame>, want: nat) returns (got: nat)
      requires Valid() && want <= dst.Length && dst != buf
      modifies this, dst
      ensures Valid() && eof == old(eof)
      ensures var take := Min(|old(Unread())|, want);
              && got == (if eof then take else want)
              && dst[..] == old(Unread())[..take] + Silence(got - take) + old(dst[..])[got..]
              && Unread() == old(Unread())[take..]
              && underruns == old(underruns) + (if take < got then 1 else 0) && overflows == old(overflows)
              && Now() == Run(old(Now()), ReadSteps(want, take))
    {
      ghost var s0, was, unread := Now(), dst[..], Unread();
      hide Inv, Next, Run, Begun, ReadSteps, Gap, Slot;
      if want == 0 {
        IdleRead(s0);
        return 0;
      }
      var take := TakeFrames(dst, want);
      ReadStepsEnd(s0, want, take);
      ReadEnds(During(PIdle, if take < want then CShort(want - take) else CIdle));
      got := take;
      if take < want && !eof {
        underruns := underruns + 1;
        padded := padded + (want - take);
        got := want;
      }
      Spliced(unread[..take], was, got);
      FillSilence(dst, take, got);
    }
  }
}
