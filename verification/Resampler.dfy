// The resampler of a mixer channel as values: a 32.32 phase, a sliding window
// of taps, and what they must amount to. engine/audio/audio_mixer.c.
module Resampler {
  import opened Arith

  const ONE: nat := 0x1_0000_0000
  const WRAP: nat := 0x1_0000_0000_0000_0000

  datatype Interp = Linear | Cubic
  datatype Frame = Frame(l: int, r: int)
  const SILENCE: Frame := Frame(0, 0)

  /** The interpolation kernels, as the numbers they return. */
  datatype Kernels = Kernels(linear: (int, int, nat) -> int, cubic: (int, int, int, int, nat) -> int)

  /** The source as a channel sees it: frame j ahead of the read position. */
  type View = nat -> Frame

  function Taps(interp: Interp): nat { if interp == Cubic then 4 else 2 }

  /** The tap interpolation starts from. */
  function Cur(interp: Interp): nat { if interp == Cubic then 1 else 0 }

  /** The largest whole advance the window can follow in one sample. */
  function MaxAdvance(interp: Interp): nat { if interp == Cubic then 3 else 2 }

  datatype Channel = Channel(phase: nat, taps: seq<Frame>, primed: bool)

  ghost predicate Shaped(c: Channel) { |c.taps| == 4 && c.phase < WRAP }

  // ---- the code ----

  /** load_tap: a negative offset, converted to size_t, lies past any ring. */
  function LoadTap(view: View, off: int): Frame { if off < 0 then SILENCE else view(off) }

  /** The view after m frames were popped. */
  function Later(view: View, m: nat): View { (j: nat) => view(m + j) }

  /** prime_tap_window. */
  function Prime(interp: Interp, view: View): (taps: seq<Frame>)
    ensures |taps| == 4
  {
    seq(4, t requires 0 <= t < 4 =>
      if Cur(interp) <= t < Taps(interp) then LoadTap(view, t - Cur(interp)) else SILENCE)
  }

  function Popped(interp: Interp, n: int): nat {
    if n <= 0 then 0 else if n >= Taps(interp) then Taps(interp) else n
  }

  /** advance_tap_window: shift, consume, refill from the right. */
  function Advance(interp: Interp, taps: seq<Frame>, view: View, n: int): (r: seq<Frame>)
    requires |taps| == 4
    ensures |r| == 4
  {
    if n <= 0 then taps
    else
      var m := Popped(interp, n);
      seq(4, t requires 0 <= t < 4 =>
        if t + m < Taps(interp) then taps[t + m]
        else if t < Taps(interp) then LoadTap(Later(view, m), t - Cur(interp))
        else taps[t])
  }

  lemma NoAdvance(interp: Interp, taps: seq<Frame>, view: View, n: int)
    requires |taps| == 4 && n <= 0
    ensures Advance(interp, taps, view, n) == taps && Popped(interp, n) == 0
  {}

  /** A 32-bit difference read as a signed int. */
  function AsInt32(x: int): int {
    var u := x % ONE;
    if u < 0x8000_0000 then u else u - ONE
  }

  /** How far one sample moves the window, in the source's 64- and 32-bit arithmetic. */
  function NAdvance(phase: nat, step: nat): int {
    AsInt32((phase + step) % WRAP / ONE - phase / ONE)
  }

  function NextPhase(phase: nat, step: nat): nat {
    var n := NAdvance(phase, step);
    if n > 0 then ((phase + step) % WRAP - n * ONE) % WRAP else (phase + step) % WRAP
  }

  function Sample(k: Kernels, interp: Interp, taps: seq<Frame>, frac: nat): Frame
    requires |taps| == 4
  {
    if interp == Cubic then
      Frame(k.cubic(taps[0].l, taps[1].l, taps[2].l, taps[3].l, frac),
            k.cubic(taps[0].r, taps[1].r, taps[2].r, taps[3].r, frac))
    else
      Frame(k.linear(taps[0].l, taps[1].l, frac), k.linear(taps[0].r, taps[1].r, frac))
  }

  function Ready(c: Channel, interp: Interp, view: View): (r: Channel)
    requires Shaped(c)
    ensures Shaped(r)
  {
    if c.primed then c else c.(taps := Prime(interp, view), primed := true)
  }

  /** The tap-window path of produce_channel_sample: new state, sample, frames popped. */
  function Produce(k: Kernels, interp: Interp, c: Channel, view: View, step: nat): (r: (Channel, Frame, nat))
    requires Shaped(c)
    ensures Shaped(r.0)
  {
    var c1 := Ready(c, interp, view);
    var n := NAdvance(c1.phase, step);
    (Channel(NextPhase(c1.phase, step), Advance(interp, c1.taps, view, n), true),
     Sample(k, interp, c1.taps, c1.phase % ONE),
     Popped(interp, n))
  }

  // ---- the meaning ----

  /** Source frame i; silence before the start. */
  function SrcAt(src: nat -> Frame, i: int): Frame { if i < 0 then SILENCE else src(i) }

  /** INTERPOLATE THE SOURCE AT POSITION pos (32.32). */
  function Ideal(k: Kernels, interp: Interp, src: nat -> Frame, pos: nat): Frame {
    var i, frac := pos / ONE, pos % ONE;
    match interp
    case Cubic =>
      Frame(k.cubic(SrcAt(src, i - 1).l, SrcAt(src, i).l, SrcAt(src, i + 1).l, SrcAt(src, i + 2).l, frac),
            k.cubic(SrcAt(src, i - 1).r, SrcAt(src, i).r, SrcAt(src, i + 1).r, SrcAt(src, i + 2).r, frac))
    case Linear =>
      Frame(k.linear(SrcAt(src, i).l, SrcAt(src, i + 1).l, frac), k.linear(SrcAt(src, i).r, SrcAt(src, i + 1).r, frac))
  }

  /** The taps a window standing at source frame idx should hold. */
  function Window(interp: Interp, src: nat -> Frame, idx: nat): (w: seq<Frame>)
    ensures |w| == 4
  {
    seq(4, t requires 0 <= t < 4 => if t < Taps(interp) then SrcAt(src, idx + t - Cur(interp)) else SILENCE)
  }

  /** The ring shows the source from frame idx on, for at least `need` frames. */
  ghost predicate Shows(view: View, src: nat -> Frame, idx: nat, need: nat) {
    forall j: nat | j < need :: view(j) == src(idx + j)
  }

  /** Frames looked at by a sample that advances n. */
  function Need(interp: Interp, n: nat): nat { n + Taps(interp) - Cur(interp) }

  lemma TapOf(interp: Interp, src: nat -> Frame, idx: nat, t: nat, at: int)
    requires t < Taps(interp) && at == idx + t - Cur(interp)
    ensures Window(interp, src, idx)[t] == SrcAt(src, at)
  {}

  lemma LoadOf(view: View, m: nat, off: int, j: nat)
    requires off >= 0 && j == m + off
    ensures LoadTap(Later(view, m), off) == view(j)
  {}

  lemma PrimeIsWindow(interp: Interp, view: View, src: nat -> Frame)
    requires Shows(view, src, 0, Need(interp, 0))
    ensures Prime(interp, view) == Window(interp, src, 0)
  {
    forall t | 0 <= t < 4
      ensures Prime(interp, view)[t] == Window(interp, src, 0)[t]
    {
      if Cur(interp) <= t < Taps(interp) {
        assert view(t - Cur(interp)) == src(0 + (t - Cur(interp)));
      }
    }
  }

  lemma AdvanceIsWindow(interp: Interp, view: View, src: nat -> Frame, idx: nat, n: nat)
    requires n <= MaxAdvance(interp) && Shows(view, src, idx, Need(interp, n))
    ensures Advance(interp, Window(interp, src, idx), view, n) == Window(interp, src, idx + n)
    ensures Popped(interp, n) == n
  {
    var a, w := Advance(interp, Window(interp, src, idx), view, n), Window(interp, src, idx + n);
    forall t | 0 <= t < 4
      ensures a[t] == w[t]
    {
      var at := (idx + n) + t - Cur(interp);
      if t < Taps(interp) {
        TapOf(interp, src, idx + n, t, at);
        if t + n < Taps(interp) {
          TapOf(interp, src, idx, t + n, at);
        } else if n > 0 {
          var j: nat := n + (t - Cur(interp));
          LoadOf(view, n, t - Cur(interp), j);
          assert view(j) == src(idx + j);
        }
      }
    }
  }

  /** Without wrap-around the advance is the whole part of the new phase. */
  lemma PhaseSplits(phase: nat, step: nat)
    requires phase < ONE && phase + step < 0x8000_0000 * ONE
    ensures NAdvance(phase, step) == (phase + step) / ONE
    ensures NextPhase(phase, step) == (phase + step) % ONE < ONE
  {
    var n, f := (phase + step) / ONE, (phase + step) % ONE;
    DivModUnique(phase + step, WRAP, 0, phase + step);
    DivModUnique(phase, ONE, 0, phase);
    DivModUnique(n, ONE, 0, n);
    DivModUnique(f, WRAP, 0, f);
  }

  /** The carry out of the fraction moves the index. */
  lemma IndexMoves(pos: nat, step: nat)
    ensures (pos + step) / ONE == pos / ONE + (pos % ONE + step) / ONE
    ensures (pos + step) % ONE == (pos % ONE + step) % ONE
  {
    var a := pos % ONE + step;
    DivModUnique(pos + step, ONE, pos / ONE + a / ONE, a % ONE);
  }

  /** A channel that has resampled up to position pos. */
  ghost predicate StandsAt(c: Channel, interp: Interp, src: nat -> Frame, pos: nat) {
    && Shaped(c) && c.phase == pos % ONE
    && if c.primed then c.taps == Window(interp, src, pos / ONE) else pos == 0
  }

  lemma WindowSamplesIdeal(k: Kernels, interp: Interp, src: nat -> Frame, pos: nat)
    ensures Sample(k, interp, Window(interp, src, pos / ONE), pos % ONE) == Ideal(k, interp, src, pos)
  {
    var i := pos / ONE;
    var w := Window(interp, src, i);
    TapOf(interp, src, i, 0, i - Cur(interp));
    TapOf(interp, src, i, 1, i + 1 - Cur(interp));
    if interp == Cubic {
      TapOf(interp, src, i, 2, i + 1);
      TapOf(interp, src, i, 3, i + 2);
    }
  }

  /** ONE SAMPLE. From position pos the channel outputs the source interpolated
      there, moves to pos + step, and pops the frames it moved past. */
  lemma ProduceIsIdeal(k: Kernels, interp: Interp, c: Channel, view: View, src: nat -> Frame, pos: nat, step: nat)
    requires StandsAt(c, interp, src, pos) && step <= MaxAdvance(interp) * ONE
    requires Shows(view, src, pos / ONE, Need(interp, (pos + step) / ONE - pos / ONE))
    ensures var (c', out, popped) := Produce(k, interp, c, view, step);
            && StandsAt(c', interp, src, pos + step) && c'.primed && c'.phase < ONE
            && out == Ideal(k, interp, src, pos)
            && popped == (pos + step) / ONE - pos / ONE
  {
    hide Ideal, Sample, Advance, Prime, Window, NAdvance, NextPhase;
    var n := (pos + step) / ONE - pos / ONE;
    IndexMoves(pos, step);
    PhaseSplits(pos % ONE, step);
    assert (pos % ONE + step) / ONE <= MaxAdvance(interp);
    if !c.primed {
      assert pos / ONE == 0;
      PrimeIsWindow(interp, view, src);
    }
    AdvanceIsWindow(interp, view, src, pos / ONE, n);
    WindowSamplesIdeal(k, interp, src, pos);
    DivModUnique(pos % ONE, ONE, 0, pos % ONE);
  }

  // ---- runs ----

  /** Where the source is read before sample i: the sum of the earlier steps. */
  function Position(steps: seq<nat>): nat {
    if steps == [] then 0 else Position(steps[..|steps| - 1]) + steps[|steps| - 1]
  }

  /** A channel, its samples so far, and the frames it has moved past. */
  datatype Trace = Trace(last: Channel, out: seq<Frame>, popped: nat)

  lemma Prefixes<T>(s: seq<T>, n: nat)
    requires n <= |s|
    ensures forall i | 0 <= i <= n :: s[..n][..i] == s[..i]
  {}

  /** Every output is the source interpolated at the sum of the earlier steps;
      the channel has popped the whole part and keeps the fraction. */
  ghost predicate Resampled(k: Kernels, interp: Interp, t: Trace, steps: seq<nat>, src: nat -> Frame) {
    && |t.out| == |steps|
    && (forall i | 0 <= i < |steps| :: t.out[i] == Ideal(k, interp, src, Position(steps[..i])))
    && t.popped == Position(steps) / ONE
    && StandsAt(t.last, interp, src, Position(steps)) && t.last.phase < ONE
  }

  lemma ResampledNothing(k: Kernels, interp: Interp, c: Channel, src: nat -> Frame)
    requires Shaped(c) && c.phase == 0 && !c.primed
    ensures Resampled(k, interp, Trace(c, [], 0), [], src)
  {}

  lemma ResampledMore(k: Kernels, interp: Interp, t: Trace, steps: seq<nat>, view: View, src: nat -> Frame)
    requires steps != [] && steps[|steps| - 1] <= MaxAdvance(interp) * ONE
    requires Resampled(k, interp, t, steps[..|steps| - 1], src)
    requires var pos, step := Position(steps[..|steps| - 1]), steps[|steps| - 1];
             Shows(view, src, pos / ONE, Need(interp, (pos + step) / ONE - pos / ONE))
    ensures Shaped(t.last)
    ensures var (c', out, popped) := Produce(k, interp, t.last, view, steps[|steps| - 1]);
            Resampled(k, interp, Trace(c', t.out + [out], t.popped + popped), steps, src)
  {
    hide Produce, Ideal, Shows;
    var n := |steps| - 1;
    Prefixes(steps, n);
    ProduceIsIdeal(k, interp, t.last, view, src, Position(steps[..n]), steps[n]);
    var out := t.out + [Produce(k, interp, t.last, view, steps[n]).1];
    forall i | 0 <= i < |steps|
      ensures out[i] == Ideal(k, interp, src, Position(steps[..i]))
    {
      if i < n {
        assert steps[..n][..i] == steps[..i];
      }
    }
  }

  // ---- how large a step may be ----

  /** From a window standing at frame idx with fraction `phase`, one sample of
      this step leaves the window where it should stand. */
  ghost predicate Follows(interp: Interp, step: nat, src: nat -> Frame, idx: nat, phase: nat) {
    var n := NAdvance(phase, step);
    && Popped(interp, n) == (phase + step) / ONE
    && NextPhase(phase, step) < ONE
    && Advance(interp, Window(interp, src, idx), Later(src, idx), n) == Window(interp, src, idx + (phase + step) / ONE)
  }

  ghost predicate FollowsAlways(interp: Interp, step: nat) {
    forall src: nat -> Frame, idx: nat, phase: nat | phase < ONE :: Follows(interp, step, src, idx, phase)
  }

  lemma TooFarFails(interp: Interp, step: nat)
    requires MaxAdvance(interp) * ONE < step < WRAP
    ensures exists src: nat -> Frame, phase: nat | phase < ONE :: !Follows(interp, step, src, 0, phase)
  {
    hide Window, Advance;
    var src: nat -> Frame := _ => Frame(1, 1);
    var p := if step >= WRAP - ONE then 0 else ONE - 1;
    var sum := p + step;
    DivModUnique(sum, WRAP, 0, sum);
    DivModUnique(p, ONE, 0, p);
    var q := sum / ONE;
    DivModUnique(q, ONE, 0, q);
    if q == 4 && interp == Cubic {
      FourLosesHistory(src, 0);
    }
    assert !Follows(interp, step, src, 0, p);
  }

  /** A cubic advance of four reloads even the history tap, which the ring no
      longer holds: it comes back silent. */
  lemma FourLosesHistory(src: nat -> Frame, idx: nat)
    ensures Advance(Cubic, Window(Cubic, src, idx), Later(src, idx), 4)[0] == SILENCE
    ensures Window(Cubic, src, idx + 4)[0] == src(idx + 3)
  {
    Refilled(Cubic, Window(Cubic, src, idx), Later(src, idx), 4, 0);
    TapOf(Cubic, src, idx + 4, 0, idx + 3);
  }

  lemma Refilled(interp: Interp, taps: seq<Frame>, view: View, n: nat, t: nat)
    requires |taps| == 4 && n > 0 && t < Taps(interp) <= t + Popped(interp, n)
    ensures Advance(interp, taps, view, n)[t] == LoadTap(Later(view, Popped(interp, n)), t - Cur(interp))
  {}

  /** The window follows every source at every phase exactly when the step is at
      most three frames (cubic) or two (linear). */
  lemma StepLimitIsExact(interp: Interp, step: nat)
    requires step < WRAP
    ensures FollowsAlways(interp, step) <==> step <= MaxAdvance(interp) * ONE
  {
    hide Advance, Window, NAdvance, NextPhase, Popped;
    if step <= MaxAdvance(interp) * ONE {
      forall src: nat -> Frame, idx: nat, phase: nat | phase < ONE
        ensures Follows(interp, step, src, idx, phase)
      {
        PhaseSplits(phase, step);
        AdvanceIsWindow(interp, Later(src, idx), src, idx, (phase + step) / ONE);
      }
    } else {
      TooFarFails(interp, step);
      var src: nat -> Frame, phase: nat :| phase < ONE && !Follows(interp, step, src, 0, phase);
    }
  }

  // ---- the drift-corrected step ----

  const SYNC_ACC_ONE: nat := 0x7FFF * 0x1_0000

  /** update_channel_steps for one channel. */
  function CorrectedStep(base: nat, corr: int): nat {
    var s := base + CDiv(base * corr, SYNC_ACC_ONE);
    if s < 1 then 1 else s
  }

  function Size(n: int): nat { if n < 0 then -n else n }

  /** d is the quotient of p by SYNC_ACC_ONE, cut off toward zero. */
  predicate Cut(p: int, d: int) {
    && (d > 0 ==> p > 0) && (d < 0 ==> p < 0)
    && Size(d) * SYNC_ACC_ONE <= Size(p) < (Size(d) + 1) * SYNC_ACC_ONE
  }

  /** THE CORRECTED STEP: the base and its share of the correction, base * corr in
      units of SYNC_ACC_ONE cut off toward zero, but never less than 1. */
  lemma CorrectedStepIs(base: nat, corr: int, d: int)
    requires d > 0 ==> base * corr > 0
    requires d < 0 ==> base * corr < 0
    requires Size(d) * SYNC_ACC_ONE <= Size(base * corr) < (Size(d) + 1) * SYNC_ACC_ONE
    ensures CorrectedStep(base, corr) == if base + d >= 1 then base + d else 1
  {
    var p := base * corr;
    if p >= 0 {
      DivModUnique(p, SYNC_ACC_ONE, d, p - d * SYNC_ACC_ONE);
    } else {
      DivModUnique(-p, SYNC_ACC_ONE, -d, -p + d * SYNC_ACC_ONE);
    }
  }

  /** There is one such share, and above 1 the step differs from the base by it. */
  lemma CorrectionIsCut(base: nat, corr: int)
    ensures CorrectedStep(base, corr) >= 1
    ensures CorrectedStep(base, corr) > 1 ==> Cut(base * corr, CorrectedStep(base, corr) - base)
    ensures exists d :: Cut(base * corr, d)
  {
    var p := base * corr;
    var d := if p >= 0 then p / SYNC_ACC_ONE else -(-p / SYNC_ACC_ONE);
    assert Cut(p, d);
    CorrectedStepIs(base, corr, d);
  }

  lemma CDivBelow(a: int, n: nat, b: int)
    requires n > 0 && 0 <= a <= b * n
    ensures CDiv(a, n) <= b
  {
    assert a == a / n * n + a % n;
    assert (a / n - b) * n == a / n * n - b * n;
    MultipleGrows(a / n - b, n);
  }

  /** A correction that keeps base * (1 + corr) within the window's limit keeps
      the step within it, and the step never reaches zero. */
  lemma CorrectedStepIsSafe(interp: Interp, base: nat, corr: int)
    requires if corr >= 0 then base * (SYNC_ACC_ONE + corr) <= MaxAdvance(interp) * ONE * SYNC_ACC_ONE
             else base <= MaxAdvance(interp) * ONE
    ensures 1 <= CorrectedStep(base, corr) <= MaxAdvance(interp) * ONE
    ensures corr == 0 && base >= 1 ==> CorrectedStep(base, corr) == base
  {
    var n, limit := SYNC_ACC_ONE, MaxAdvance(interp) * ONE;
    if corr >= 0 {
      assert base * (n + corr) == base * n + base * corr;
      assert base * corr <= (limit - base) * n;
      CDivBelow(base * corr, n, limit - base);
    } else {
      assert base * corr <= 0;
    }
  }
}
