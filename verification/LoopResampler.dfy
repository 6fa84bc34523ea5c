// The resampler of a looping channel: the window slides over a source that
// repeats and is never consumed. engine/audio/audio_mixer.c.
module LoopResampler {
  import opened Arith
  import opened Resampler

  /** The loop buffer read over and over; silence when it is empty. */
  function Looped<Raw>(q: seq<Raw>, conv: Raw -> Frame): nat -> Frame {
    (i: nat) => if q == [] then SILENCE else conv(q[i % |q|])
  }

  /** WHAT A LOOP PLAYS: its frames in order, over and over. */
  lemma LoopedIs<Raw>(q: seq<Raw>, conv: Raw -> Frame, lap: nat, i: nat)
    ensures i < |q| ==> Looped(q, conv)(lap * |q| + i) == conv(q[i])
    ensures q == [] ==> Looped(q, conv)(i) == SILENCE
  {
    if i < |q| {
      DivModUnique(lap * |q| + i, |q|, lap, i);
    }
  }

  /** advance_tap_window in loop mode, from read position p. */
  function LoopAdvance(interp: Interp, taps: seq<Frame>, src: nat -> Frame, p: nat, n: int): (r: seq<Frame>)
    requires |taps| == 4
    ensures |r| == 4
  {
    if n <= 0 then taps
    else
      var m := Popped(interp, n);
      seq(4, t requires 0 <= t < 4 =>
        if t + m < Taps(interp) then taps[t + m]
        else if t < Taps(interp) then SrcAt(src, p + m + t - Cur(interp))
        else taps[t])
  }

  function LoopReady(c: Channel, interp: Interp, src: nat -> Frame, p: nat): (r: Channel)
    requires Shaped(c)
    ensures Shaped(r)
  {
    Ready(c, interp, Later(src, p))
  }

  /** produce_channel_sample in loop mode: new state, sample, and how far the
      read position moves. */
  function LoopProduce(k: Kernels, interp: Interp, c: Channel, src: nat -> Frame, p: nat, step: nat)
    : (r: (Channel, Frame, nat))
    requires Shaped(c)
    ensures Shaped(r.0)
  {
    var c1 := LoopReady(c, interp, src, p);
    var n := NAdvance(c1.phase, step);
    (Channel(NextPhase(c1.phase, step), LoopAdvance(interp, c1.taps, src, p, n), true),
     Sample(k, interp, c1.taps, c1.phase % ONE),
     Popped(interp, n))
  }

  /** Up to a whole window at a time the window follows; unlike a ring, the loop
      still has the frame behind the current one. */
  lemma LoopAdvanceIsWindow(interp: Interp, src: nat -> Frame, idx: nat, n: nat)
    requires n <= Taps(interp)
    ensures LoopAdvance(interp, Window(interp, src, idx), src, idx, n) == Window(interp, src, idx + n)
    ensures Popped(interp, n) == n
  {
    var a, w := LoopAdvance(interp, Window(interp, src, idx), src, idx, n), Window(interp, src, idx + n);
    forall t | 0 <= t < 4
      ensures a[t] == w[t]
    {
      var at := (idx + n) + t - Cur(interp);
      if t < Taps(interp) {
        TapOf(interp, src, idx + n, t, at);
        if t + n < Taps(interp) {
          TapOf(interp, src, idx, t + n, at);
        }
      }
    }
  }

  /** ONE SAMPLE of a loop: the source interpolated at pos, then pos + step. */
  lemma LoopProduceIsIdeal(k: Kernels, interp: Interp, c: Channel, src: nat -> Frame, pos: nat, step: nat)
    requires StandsAt(c, interp, src, pos) && step <= Taps(interp) * ONE
    ensures var (c', out, moved) := LoopProduce(k, interp, c, src, pos / ONE, step);
            && StandsAt(c', interp, src, pos + step) && c'.primed && c'.phase < ONE
            && out == Ideal(k, interp, src, pos)
            && moved == (pos + step) / ONE - pos / ONE
  {
    hide Ideal, Sample, LoopAdvance, Prime, Window, NAdvance, NextPhase;
    var n := (pos + step) / ONE - pos / ONE;
    IndexMoves(pos, step);
    PhaseSplits(pos % ONE, step);
    assert (pos % ONE + step) / ONE <= Taps(interp);
    if !c.primed {
      assert pos / ONE == 0;
      LaterNone(src, 0);
      PrimeIsWindow(interp, Later(src, 0), src);
    }
    LoopAdvanceIsWindow(interp, src, pos / ONE, n);
    WindowSamplesIdeal(k, interp, src, pos);
    DivModUnique(pos % ONE, ONE, 0, pos % ONE);
  }

  lemma LaterNone(src: nat -> Frame, need: nat)
    ensures forall n: nat :: Shows(Later(src, 0), src, 0, n)
  {}

  // ---- runs ----

  datatype LoopTrace = LoopTrace(last: Channel, out: seq<Frame>, at: nat)

  function LoopRun(k: Kernels, interp: Interp, c: Channel, src: nat -> Frame, steps: seq<nat>): (t: LoopTrace)
    requires Shaped(c)
    ensures Shaped(t.last) && |t.out| == |steps|
  {
    if steps == [] then LoopTrace(c, [], 0)
    else
      var n := |steps| - 1;
      var t := LoopRun(k, interp, c, src, steps[..n]);
      var (c', out, moved) := LoopProduce(k, interp, t.last, src, t.at, steps[n]);
      LoopTrace(c', t.out + [out], t.at + moved)
  }

  /** THE WHOLE RUN OF A LOOP, for as long as one likes and with changing steps:
      output k is the repeating source interpolated at the sum of the earlier
      steps, and the read position is its whole part. */
  lemma {:induction false} LoopRunIsResampling(k: Kernels, interp: Interp, c: Channel, src: nat -> Frame,
                                               steps: seq<nat>)
    requires Shaped(c) && c.phase == 0 && !c.primed
    requires forall i | 0 <= i < |steps| :: steps[i] <= Taps(interp) * ONE
    ensures var t := LoopRun(k, interp, c, src, steps);
            Resampled(k, interp, Trace(t.last, t.out, t.at), steps, src)
    decreases |steps|
  {
    hide LoopProduce, Ideal, Position, Resampled, StandsAt;
    if steps == [] {
      ResampledNothing(k, interp, c, src);
    } else {
      var n := |steps| - 1;
      LoopRunIsResampling(k, interp, c, src, steps[..n]);
      LoopResampledMore(k, interp, LoopRun(k, interp, c, src, steps[..n]), steps, src);
    }
  }

  lemma LoopResampledMore(k: Kernels, interp: Interp, t: LoopTrace, steps: seq<nat>, src: nat -> Frame)
    requires steps != [] && steps[|steps| - 1] <= Taps(interp) * ONE
    requires Resampled(k, interp, Trace(t.last, t.out, t.at), steps[..|steps| - 1], src)
    ensures Shaped(t.last)
    ensures var (c', out, moved) := LoopProduce(k, interp, t.last, src, t.at, steps[|steps| - 1]);
            Resampled(k, interp, Trace(c', t.out + [out], t.at + moved), steps, src)
  {
    hide LoopProduce, Ideal;
    var n := |steps| - 1;
    Prefixes(steps, n);
    LoopProduceIsIdeal(k, interp, t.last, src, Position(steps[..n]), steps[n]);
    var out := t.out + [LoopProduce(k, interp, t.last, src, t.at, steps[n]).1];
    forall i | 0 <= i < |steps|
      ensures out[i] == Ideal(k, interp, src, Position(steps[..i]))
    {
      if i < n {
        assert steps[..n][..i] == steps[..i];
      }
    }
  }

  // ---- how large a step may be ----

  ghost predicate LoopFollows(interp: Interp, step: nat, src: nat -> Frame, idx: nat, phase: nat) {
    var n := NAdvance(phase, step);
    && Popped(interp, n) == (phase + step) / ONE
    && NextPhase(phase, step) < ONE
    && LoopAdvance(interp, Window(interp, src, idx), src, idx, n) == Window(interp, src, idx + (phase + step) / ONE)
  }

  ghost predicate LoopFollowsAlways(interp: Interp, step: nat) {
    forall src: nat -> Frame, idx: nat, phase: nat | phase < ONE :: LoopFollows(interp, step, src, idx, phase)
  }

  /** A loop follows one frame further than a ring: exactly up to a whole window,
      four frames a sample (cubic) or two (linear). */
  lemma LoopStepLimitIsExact(interp: Interp, step: nat)
    requires step < WRAP
    ensures LoopFollowsAlways(interp, step) <==> step <= Taps(interp) * ONE
  {
    hide LoopAdvance, Window, NAdvance, NextPhase, Popped;
    if step <= Taps(interp) * ONE {
      forall src: nat -> Frame, idx: nat, phase: nat | phase < ONE
        ensures LoopFollows(interp, step, src, idx, phase)
      {
        PhaseSplits(phase, step);
        LoopAdvanceIsWindow(interp, src, idx, (phase + step) / ONE);
      }
    } else {
      LoopTooFar(interp, step);
      var src: nat -> Frame := _ => SILENCE;
      assert !LoopFollows(interp, step, src, 0, ONE - 1);
    }
  }

  lemma LoopTooFar(interp: Interp, step: nat)
    requires Taps(interp) * ONE < step
    ensures Popped(interp, NAdvance(ONE - 1, step)) != (ONE - 1 + step) / ONE
  {
    hide NAdvance;
    assert (ONE - 1 + step) / ONE > Taps(interp);
  }
}
