// One channel of the mixer: its ring of source frames and its tap window.
// engine/audio/audio_mixer.c.
module MixerChannels {
  import opened Arith
  import opened Resampler
  import opened LoopResampler
  import opened Rings

  /** What a ring's contents show: the frames in it, then silence. */
  function Shown<Raw>(q: seq<Raw>, conv: Raw -> Frame): View {
    (j: nat) => if j < |q| then conv(q[j]) else SILENCE
  }

  /** The queue after m attempts to pop. */
  function Rest<Raw>(q: seq<Raw>, m: nat): seq<Raw> { if m <= |q| then q[m..] else [] }

  lemma PoppedView<Raw>(q: seq<Raw>, conv: Raw -> Frame, m: nat, off: int)
    ensures Resampler.LoadTap(Shown(Rest(q, m), conv), off) == Resampler.LoadTap(Later(Shown(q, conv), m), off)
  {
    if off >= 0 {
      LoadOf(Shown(q, conv), m, off, m + off);
    }
  }

  /** A ring that holds the source from frame idx on shows it. */
  lemma FullRingShows<Raw>(q: seq<Raw>, conv: Raw -> Frame, src: nat -> Frame, idx: nat, need: nat)
    requires need <= |q| && forall j: nat | j < |q| :: conv(q[j]) == src(idx + j)
    ensures Shows(Shown(q, conv), src, idx, need)
  {
    forall j: nat | j < need
      ensures Shown(q, conv)(j) == src(idx + j)
    {
      assert conv(q[j]) == src(idx + j);
    }
  }

  function Shifted(taps: seq<Frame>, nTaps: nat, n: nat): (r: seq<Frame>)
    requires |taps| == 4 >= nTaps
    ensures |r| == 4
  {
    seq(4, u requires 0 <= u < 4 => if u + n < nTaps then taps[u + n] else taps[u])
  }

  lemma LoopTapIs(src: nat -> Frame, p: nat, off: int)
    ensures off >= 0 ==> SrcAt(src, p + off) == Resampler.LoadTap(Later(src, p), off)
  {}

  class MixerChannel<Raw> {
    const rb: Ring<Raw>
    const conv: Raw -> Frame
    const kernels: Kernels
    const interp: Interp
    const taps: array<Frame>
    var needsResample: bool
    /** The step without drift correction, and the one in use. */
    var baseStep: nat
    var step: nat
    var phase: nat
    var tapPrimed: bool
    var loop: bool
    var loopReadPos: nat

    ghost predicate Valid()
      reads this, rb
    {
      && rb.Valid() && taps.Length == 4 && taps as object != rb.storage as object
      && rb.storage.Length < WRAP / 2 && phase < WRAP && step < WRAP
    }

    ghost function State(): Channel
      reads this, taps
    {
      Channel(phase, taps[..], tapPrimed)
    }

    constructor (rb: Ring<Raw>, conv: Raw -> Frame, kernels: Kernels, interp: Interp)
      requires rb.Valid() && rb.storage.Length < WRAP / 2
      ensures Valid() && fresh(taps) && this.rb == rb && this.conv == conv && this.kernels == kernels &&
              this.interp == interp
      ensures State() == Channel(0, [SILENCE, SILENCE, SILENCE, SILENCE], false) && !needsResample && !loop &&
              loopReadPos == 0
    {
      this.rb := rb;
      this.conv := conv;
      this.kernels := kernels;
      this.interp := interp;
      taps := new Frame[4](_ => SILENCE);
      needsResample, baseStep, step, phase, tapPrimed := false, 0, 0, 0, false;
      loop, loopReadPos := false, 0;
    }

    /** The frame `off` places from the current one. */
    ghost function Tap(off: int): Frame
      reads this, rb, rb.storage
      requires Valid()
    {
      if loop
         then SrcAt(Looped(rb.Contents(), conv), loopReadPos + off)
           else Resampler.LoadTap(Shown(rb.Contents(), conv), off)
    }

    /** read_loop_frame_q15. */
    method ReadLoopFrame(pos: nat) returns (f: Frame)
      requires Valid()
      ensures f == Looped(rb.Contents(), conv)(pos)
    {
      if rb.count == 0 { return SILENCE; }
      var slot := SlotAt(rb.tail, pos % rb.count, rb.storage.Length);
      assert rb.Contents()[pos % rb.count] == rb.storage[slot];
      return conv(rb.storage[slot]);
    }

    /** load_tap, the offset converted to size_t; in a loop the sum wraps back. */
    method LoadTap(t: nat, off: int)
      requires Valid() && t < 4 && -4 <= off < 4 && (loop ==> loopReadPos + off >= 0)
      modifies taps
      ensures taps[..] == old(taps[..])[t := Tap(off)]
    {
      if loop {
        taps[t] := ReadLoopFrame(loopReadPos + off);
      } else {
        var peeked := rb.PeekAt(if off < 0 then WRAP + off else off);
        taps[t] := if peeked == None then SILENCE else conv(peeked.value);
      }
    }

    /** prime_tap_window. */
    method PrimeTapWindow()
      requires Valid()
      modifies this`tapPrimed, taps
      ensures Valid() && tapPrimed
      ensures taps[..] ==
              Prime(interp, if loop
                then Later(Looped(rb.Contents(), conv), loopReadPos) else Shown(rb.Contents(), conv))
    {
      hide Ring.Valid, Ring.Contents, Shown, Looped, Tap, Prime;
      var t := 0;
      while t < 4
        invariant 0 <= t <= 4 && forall u | 0 <= u < t :: taps[u] == SILENCE
      {
        taps[t] := SILENCE;
        t := t + 1;
      }
      t := Cur(interp);
      while t < Taps(interp)
        invariant Cur(interp) <= t <= Taps(interp)
        invariant forall u | 0 <= u < 4 ::
                    taps[u] == if Cur(interp) <= u < t then Tap(u - Cur(interp)) else SILENCE
      {
        LoadTap(t, t - Cur(interp));
        t := t + 1;
      }
      TapsPrimed();
      tapPrimed := true;
    }

    /** Loading every tap from its place primes the window. */
    lemma TapsPrimed()
      requires Valid()
      requires forall u | 0 <= u < 4 ::
                 taps[u] == if Cur(interp) <= u < Taps(interp) then Tap(u - Cur(interp)) else SILENCE
      ensures taps[..] ==
              Prime(interp, if loop
                then Later(Looped(rb.Contents(), conv), loopReadPos) else Shown(rb.Contents(), conv))
    {
      hide Ring.Valid, Ring.Contents, Shown, Looped;
      if loop {
        var src := Looped(rb.Contents(), conv);
        forall u | 0 <= u < 4
          ensures taps[..][u] == Prime(interp, Later(src, loopReadPos))[u]
        {
          LoopTapIs(src, loopReadPos, u - Cur(interp));
        }
      } else {
        assert taps[..] == Prime(interp, Shown(rb.Contents(), conv));
      }
    }

    /** Consume frames; popping an empty ring does nothing. */
    method PopFrames(n: nat)
      requires Valid()
      modifies rb
      ensures Valid() && rb.Contents() == Rest(old(rb.Contents()), n)
    {
      var i := 0;
      while i < n
        invariant 0 <= i <= n && Valid() && rb.Contents() == Rest(old(rb.Contents()), i)
      {
        var scratch := rb.Pop();
        i := i + 1;
      }
    }

    /** The shifting loop of advance_tap_window. */
    method ShiftTaps(n: nat)
      requires taps.Length == 4 && 0 < n <= Taps(interp)
      modifies taps
      ensures taps[..] == Shifted(old(taps[..]), Taps(interp), n)
    {
      var t := 0;
      ghost var before := taps[..];
      while t < Taps(interp) - n
        invariant 0 <= t <= Taps(interp) - n
        invariant forall u | 0 <= u < t :: taps[u] == before[u + n]
        invariant forall u | t <= u < 4 :: taps[u] == before[u]
      {
        taps[t] := taps[t + n];
        t := t + 1;
      }
    }

    /** The refilling loop of advance_tap_window. */
    method RefillTaps(n: nat)
      requires Valid() && 0 < n <= Taps(interp) && (loop ==> n <= loopReadPos)
      modifies taps
      ensures Valid()
      ensures forall u | 0 <= u < 4 ::
                taps[u] == if Taps(interp) - n <= u < Taps(interp) then Tap(u - Cur(interp)) else old(taps[..])[u]
    {
      hide Ring.Valid, Ring.Contents, Shown, Looped, Tap;
      ghost var before := taps[..];
      var t := Taps(interp) - n;
      while t < Taps(interp)
        invariant Taps(interp) - n <= t <= Taps(interp) && Valid()
        invariant forall u | 0 <= u < 4 ::
                    taps[u] == if Taps(interp) - n <= u < t then Tap(u - Cur(interp)) else before[u]
      {
        LoadTap(t, t - Cur(interp));
        t := t + 1;
      }
    }

    /** advance_tap_window: a ring is consumed, a loop only read further on. */
    method AdvanceTapWindow(nAdvance: int)
      requires Valid()
      modifies taps, rb, this`loopReadPos
      ensures Valid()
      ensures !loop ==>
                && taps[..] == Advance(interp, old(taps[..]), old(Shown(rb.Contents(), conv)), nAdvance)
                && rb.Contents() == Rest(old(rb.Contents()), Popped(interp, nAdvance)) &&
                   loopReadPos == old(loopReadPos)
      ensures loop ==>
                && taps[..] ==
                   LoopAdvance(interp, old(taps[..]), Looped(rb.Contents(), conv), old(loopReadPos), nAdvance)
                && rb.Contents() == old(rb.Contents()) && loopReadPos == old(loopReadPos) + Popped(interp, nAdvance)
    {
      if nAdvance <= 0 { return; }
      hide Ring.Valid, Ring.Contents, Shown, Looped, Advance, LoopAdvance;
      if loop {
        AdvanceLoop(nAdvance);
      } else {
        AdvanceRing(nAdvance);
      }
    }

    method AdvanceRing(nAdvance: int)
      requires Valid() && !loop && nAdvance > 0
      modifies taps, rb
      ensures Valid()
      ensures taps[..] == Advance(interp, old(taps[..]), old(Shown(rb.Contents(), conv)), nAdvance)
      ensures rb.Contents() == Rest(old(rb.Contents()), Popped(interp, nAdvance))
    {
      hide Ring.Valid, Ring.Contents, Shown, Looped, Resampler.LoadTap, Later;
      ghost var q := rb.Contents();
      var n := if nAdvance >= Taps(interp) then Taps(interp) else nAdvance;
      ShiftTaps(n);
      PopFrames(n);
      RefillTaps(n);
      forall u | 0 <= u < 4
        ensures taps[..][u] == Advance(interp, old(taps[..]), Shown(q, conv), nAdvance)[u]
      {
        PoppedView(q, conv, n, u - Cur(interp));
      }
    }

    method AdvanceLoop(nAdvance: int)
      requires Valid() && loop && nAdvance > 0
      modifies taps, this`loopReadPos
      ensures Valid() && rb.Contents() == old(rb.Contents())
      ensures taps[..] == LoopAdvance(interp, old(taps[..]), Looped(rb.Contents(), conv), old(loopReadPos), nAdvance)
      ensures loopReadPos == old(loopReadPos) + Popped(interp, nAdvance)
    {
      hide Ring.Valid, Ring.Contents, Shown, Looped, SrcAt;
      var n := if nAdvance >= Taps(interp) then Taps(interp) else nAdvance;
      ShiftTaps(n);
      loopReadPos := loopReadPos + n;
      RefillTaps(n);
    }

    /** produce_channel_sample. */
    method ProduceSample() returns (ok: bool, out: Frame)
      requires Valid()
      modifies this`phase, this`tapPrimed, this`loopReadPos, taps, rb
      ensures Valid()
      ensures !needsResample && !loop && old(rb.count) == 0 ==>
                !ok && out == SILENCE && rb.Contents() == [] && State() == old(State())
      ensures !needsResample && !loop && old(rb.count) > 0 ==>
                ok && out == conv(old(rb.Contents())[0]) && rb.Contents() == old(rb.Contents())[1..] &&
                  State() == old(State())
      ensures (needsResample || loop) && old(rb.count) == 0 && !old(tapPrimed) ==>
                !ok && out == SILENCE && State() == old(State()) && rb.Contents() == old(rb.Contents())
      ensures needsResample && !loop && (old(rb.count) > 0 || old(tapPrimed)) ==>
                var (c, sample, popped) := Produce(kernels, interp, old(State()), old(Shown(rb.Contents(), conv)),
                                                   step);
                ok && out == sample && State() == c && rb.Contents() == Rest(old(rb.Contents()), popped)
      ensures loop && (old(rb.count) > 0 || old(tapPrimed)) ==>
                var (c, sample, moved) := LoopProduce(kernels, interp, old(State()), Looped(old(rb.Contents()), conv),
                                                      old(loopReadPos), if needsResample then step else ONE);
                ok && out == sample && State() == c && rb.Contents() == old(rb.Contents()) &&
                  loopReadPos == old(loopReadPos) + moved
    {
      hide Ring.Valid, Ring.Contents, Shown, Looped, Sample, Advance, LoopAdvance, Prime;
      if !needsResample && !loop {
        var popped := rb.Pop();
        if popped == None { return false, SILENCE; }
        return true, conv(popped.value);
      }
      if rb.count == 0 && !tapPrimed { return false, SILENCE; }
      if !tapPrimed {
        PrimeTapWindow();
      }
      out := Sample(kernels, interp, taps[..], phase % ONE);
      Step();
      return true, out;
    }

    /** The phase moves on, and the window with it. */
    method Step()
      requires Valid()
      modifies this`phase, this`loopReadPos, taps, rb
      ensures Valid()
      ensures var width := if needsResample then step else ONE;
              var n := NAdvance(old(phase), width);
              && phase == NextPhase(old(phase), width)
              && (!loop ==>
                    && taps[..] == Advance(interp, old(taps[..]), old(Shown(rb.Contents(), conv)), n)
                    && rb.Contents() == Rest(old(rb.Contents()), Popped(interp, n)) && loopReadPos == old(loopReadPos))
              && (loop ==>
                    && taps[..] == LoopAdvance(interp, old(taps[..]), Looped(rb.Contents(), conv), old(loopReadPos), n)
                    && rb.Contents() == old(rb.Contents()) && loopReadPos == old(loopReadPos) + Popped(interp, n))
    {
      hide Ring.Valid, Ring.Contents, Shown, Looped, Advance, LoopAdvance;
      var oldPhase := phase;
      phase := (phase + if needsResample then step else ONE) % WRAP;
      var nAdvance := AsInt32(phase / ONE - oldPhase / ONE);
      if nAdvance > 0 {
        AdvanceTapWindow(nAdvance);
        phase := (phase - nAdvance * ONE) % WRAP;
      } else {
        NoAdvance(interp, taps[..], Shown(rb.Contents(), conv), nAdvance);
        NoLoopAdvance(interp, taps[..], Looped(rb.Contents(), conv), loopReadPos, nAdvance);
      }
    }
  }

  lemma NoLoopAdvance(interp: Interp, taps: seq<Frame>, src: nat -> Frame, p: nat, n: int)
    requires |taps| == 4 && n <= 0
    ensures LoopAdvance(interp, taps, src, p, n) == taps
  {}

  /** update_channel_steps: every resampling channel gets its base step corrected;
      nothing else changes. */
  method UpdateChannelSteps<Raw>(channels: seq<MixerChannel<Raw>>, corr: int)
    requires Size(corr) <= SYNC_ACC_ONE
    requires forall i | 0 <= i < |channels| :: channels[i].Valid() && channels[i].baseStep < WRAP / 4
    modifies (set i | 0 <= i < |channels| :: channels[i])`step
    ensures forall i | 0 <= i < |channels| :: channels[i].Valid()
    ensures forall i | 0 <= i < |channels| ::
              channels[i].step == if channels[i].needsResample then CorrectedStep(channels[i].baseStep, corr)
                                  else old(channels[i].step)
  {
    var i := 0;
    while i < |channels|
      invariant 0 <= i <= |channels|
      invariant forall k | 0 <= k < |channels| :: channels[k].Valid()
      invariant forall k | 0 <= k < |channels| ::
                  || channels[k].step == old(channels[k].step)
                  || (channels[k].needsResample && channels[k].step == CorrectedStep(channels[k].baseStep, corr))
      invariant forall k | 0 <= k < i ::
                  channels[k].step == if channels[k].needsResample then CorrectedStep(channels[k].baseStep, corr)
                                      else old(channels[k].step)
    {
      var c := channels[i];
      if c.needsResample {
        StepFits(c.baseStep, corr);
        var delta := CDiv(c.baseStep * corr, SYNC_ACC_ONE);
        var step := c.baseStep + delta;
        if step < 1 { step := 1; }
        hide CorrectedStep;
        c.step := step;
      }
      i := i + 1;
    }
  }

  lemma StepFits(base: nat, corr: int)
    requires Size(corr) <= SYNC_ACC_ONE
    ensures 1 <= CorrectedStep(base, corr) <= 2 * base + 1
    ensures var step := base + CDiv(base * corr, SYNC_ACC_ONE);
            CorrectedStep(base, corr) == if step < 1 then 1 else step
  {
    if corr >= 0 {
      ShareBelow(base, corr);
      CDivBelow(base * corr, SYNC_ACC_ONE, base);
    } else {
      ShareBelow(base, -corr);
      assert base * corr == -(base * -corr);
      NoShareAbove(base * corr);
    }
    hide CDiv;
  }

  lemma ShareBelow(base: nat, corr: nat)
    requires corr <= SYNC_ACC_ONE
    ensures 0 <= base * corr <= base * SYNC_ACC_ONE
  {}

  lemma NoShareAbove(p: int)
    requires p <= 0
    ensures CDiv(p, SYNC_ACC_ONE) <= 0
  {}
}
