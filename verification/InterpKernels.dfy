// The interpolation kernels in their own 32-bit arithmetic, and what they make of
// a resampled source. engine/audio/audio_mixer.c, interp_linear_q15 and
// interp_cubic_q15.
module InterpKernels {
  import opened Arith
  import opened Resampler
  import opened ChannelRuns

  // ---- widths ----

  /** A 16-bit sample. */
  predicate Q15(x: int) { -0x8000 <= x < 0x8000 }

  /** The cast to a sample. */
  function AsQ15(x: int): int {
    (x + 0x8000) % 0x1_0000 - 0x8000
  }

  /** `>>` on a signed number, which rounds down. */
  function Shr15(x: int): int { x / 0x8000 }
  function Shr16(x: int): int { x / 0x1_0000 }

  lemma AsQ15Is(x: int, k: int)
    requires Q15(x - k * 0x1_0000)
    ensures AsQ15(x) == x - k * 0x1_0000
  {
    DivModUnique(x + 0x8000, 0x1_0000, k, x - k * 0x1_0000 + 0x8000);
  }

  /** The 32-bit value of a number: it is off by a multiple of 2^32, and right when
      it fits. */
  lemma AsInt32Is(x: int) returns (k: int)
    ensures AsInt32(x) == x - k * ONE
    ensures -0x8000_0000 <= x < 0x8000_0000 ==> k == 0
  {
    var u := x % ONE;
    if u < 0x8000_0000 {
      k := x / ONE;
    } else {
      k := x / ONE + 1;
    }
    if 0 <= x < 0x8000_0000 {
      DivModUnique(x, ONE, 0, x);
    } else if -0x8000_0000 <= x < 0 {
      DivModUnique(x, ONE, -1, x + ONE);
    }
  }

  // ---- linear ----

  /** interp_linear_q15; its product is a 32-bit one. */
  function LinearKernel(a: int, b: int, frac: nat): int {
    AsQ15(a + Shr16(AsInt32((b - a) * (frac / 0x1_0000))))
  }

  lemma Between(d: int, f: nat)
    requires f < 0x1_0000
    ensures 0 <= d ==> 0 <= d * f / 0x1_0000 <= d
    ensures d <= 0 ==> d <= d * f / 0x1_0000 <= 0
  {
    if d >= 0 {
      assert 0 <= d * f <= d * 0x1_0000;
    } else {
      assert d * 0x1_0000 <= d * f <= 0;
    }
    Quotient(d * f, d);
  }

  lemma Quotient(p: int, d: int)
    ensures 0 <= p <= d * 0x1_0000 ==> 0 <= p / 0x1_0000 <= d
    ensures d * 0x1_0000 <= p <= 0 ==> d <= p / 0x1_0000 <= 0
  {}

  lemma ShrOff(p: int, k: int)
    ensures Shr16(p - k * ONE) == p / 0x1_0000 - k * 0x1_0000
  {
    ModShift(p, 0x1_0000, -k * 0x1_0000);
    assert p + -k * 0x1_0000 * 0x1_0000 == p - k * ONE;
  }

  /** THE LINEAR KERNEL IS ALWAYS RIGHT: its product overflows 32 bits for samples
      more than half the range apart, but the cast to a sample takes the overflow
      back. The result is a + (b - a) * f / 2^16 rounded down, between a and b. */
  lemma LinearIs(a: int, b: int, frac: nat)
    requires Q15(a) && Q15(b) && frac < ONE
    ensures LinearKernel(a, b, frac) == a + (b - a) * (frac / 65536) / 65536
    ensures a <= b ==> a <= LinearKernel(a, b, frac) <= b
    ensures b <= a ==> b <= LinearKernel(a, b, frac) <= a
    ensures frac < 65536 ==> LinearKernel(a, b, frac) == a
  {
    var f := frac / 0x1_0000;
    var p := (b - a) * f;
    var k := AsInt32Is(p);
    hide AsInt32, AsQ15;
    ShrOff(p, k);
    Between(b - a, f);
    hide Shr16;
    AsQ15Is(a + Shr16(p - k * ONE), -k);
  }

  /** And it does overflow: half the range and one more apart. */
  lemma LinearOverflows()
    ensures AsInt32((16384 - -16385) * 65535) != (16384 - -16385) * 65535
  {}

  // ---- cubic ----

  /** The four coefficients of the doubled spline. */
  function CoefA(p0: int, p1: int, p2: int, p3: int): int { -p0 + 3 * p1 - 3 * p2 + p3 }
  function CoefB(p0: int, p1: int, p2: int, p3: int): int { 2 * p0 - 5 * p1 + 4 * p2 - p3 }
  function CoefC(p0: int, p2: int): int { -p0 + p2 }

  function Sat(v: int): int { if v > 32767 then 32767 else if v < -32768 then -32768 else v }

  /** interp_cubic_q15; its three products are 32-bit ones. */
  function CubicKernel(p0: int, p1: int, p2: int, p3: int, frac: nat): int {
    var t := frac / 0x2_0000;
    var t2 := t * t / 0x8000;
    var t3 := t2 * t / 0x8000;
    Sat((Shr15(AsInt32(CoefA(p0, p1, p2, p3) * t3)) + Shr15(AsInt32(CoefB(p0, p1, p2, p3) * t2)) +
         Shr15(AsInt32(CoefC(p0, p2) * t)) + 2 * p1) / 2)
  }

  /** The same spline with nothing cut off but the fraction: t of 2^15, its powers
      and each term rounded down, the sum halved and held to 16 bits. */
  ghost predicate Spline(p0: int, p1: int, p2: int, p3: int, frac: nat, r: int) {
    var t := frac / 131072;
    var t2 := t * t / 32768;
    var t3 := t2 * t / 32768;
    var v := (-p0 + 3 * p1 - 3 * p2 + p3) * t3 / 32768 + (2 * p0 - 5 * p1 + 4 * p2 - p3) * t2 / 32768 +
             (p2 - p0) * t / 32768 + 2 * p1;
    r == if v / 2 > 32767 then 32767 else if v / 2 < -32768 then -32768 else v / 2
  }

  /** No tap is louder than m. */
  ghost predicate Quiet(p0: int, p1: int, p2: int, p3: int, m: nat) {
    Size(p0) <= m && Size(p1) <= m && Size(p2) <= m && Size(p3) <= m
  }

  ghost predicate CubicExactUpTo(m: nat) {
    forall p0, p1, p2, p3, frac: nat | frac < ONE && Quiet(p0, p1, p2, p3, m) ::
      Spline(p0, p1, p2, p3, frac, CubicKernel(p0, p1, p2, p3, frac))
  }

  lemma Powers(t: nat)
    requires t < 0x8000
    ensures 0 <= t * t / 0x8000 <= 32766 && 0 <= t * t / 0x8000 * t / 0x8000 <= 32766
  {
    ProductBelow(t, t, 32767, 32767);
    assert t * t / 0x8000 <= 32766;
    var t2 := t * t / 0x8000;
    ProductBelow(t2, t, 32766, 32767);
  }

  lemma ProductBelow(a: nat, b: nat, m: nat, n: nat)
    requires a <= m && b <= n
    ensures 0 <= a * b <= m * n
  {
    assert a * b <= m * b <= m * n;
  }

  lemma Fits32(c: int, t: nat, m: nat)
    requires Size(c) <= m && t <= 32767 && m * t < 0x8000_0000
    ensures AsInt32(c * t) == c * t
  {
    ProductBelow(Size(c), t, m, t);
    assert c * t == if c < 0 then -(Size(c) * t) else Size(c) * t;
    var k := AsInt32Is(c * t);
  }

  /** Up to 5461, a sixth of the range, no product overflows. */
  lemma QuietIsExact(p0: int, p1: int, p2: int, p3: int, frac: nat)
    requires frac < ONE && Quiet(p0, p1, p2, p3, 5461)
    ensures Spline(p0, p1, p2, p3, frac, CubicKernel(p0, p1, p2, p3, frac))
  {
    var t := frac / 0x2_0000;
    Powers(t);
    var t2 := t * t / 0x8000;
    var t3 := t2 * t / 0x8000;
    Fits32(CoefA(p0, p1, p2, p3), t3, 8 * 5461);
    Fits32(CoefB(p0, p1, p2, p3), t2, 12 * 5461);
    Fits32(CoefC(p0, p2), t, 2 * 5461);
    hide AsInt32;
  }

  /** At 5462 one does: taps that alternate at that level, just before the next tap,
      come out at full scale on the wrong side. */
  lemma LoudFails()
    ensures CubicKernel(-5462, 5462, -5462, 5462, 0xFFFF_FFFF) == 32767
    ensures Spline(-5462, 5462, -5462, 5462, 0xFFFF_FFFF, -5463)
  {
    LoudPowers();
    DivModUnique(1431699440, ONE, 0, 1431699440);
    DivModUnique(-2147614704, ONE, -1, 2147352592);
    hide AsInt32;
    LoudTerms();
  }

  lemma LoudPowers()
    ensures 0xFFFF_FFFF / 0x2_0000 == 32767
    ensures 32767 * 32767 / 0x8000 == 32766 && 32766 * 32767 / 0x8000 == 32765
    ensures 43696 * 32765 == 1431699440 && -65544 * 32766 == -2147614704
  {}

  lemma LoudTerms()
    ensures AsInt32(1431699440) == 1431699440 && AsInt32(-2147614704) == 2147352592 && AsInt32(0) == 0
  {}

  lemma SplineIsOne(p0: int, p1: int, p2: int, p3: int, frac: nat, r: int, s: int)
    requires Spline(p0, p1, p2, p3, frac, r) && Spline(p0, p1, p2, p3, frac, s)
    ensures r == s
  {}

  /** THE CUBIC KERNEL, EXACTLY: it computes its spline for all taps of a level and
      all fractions if and only if the level is at most 5461. */
  lemma CubicExactIff(m: nat)
    ensures CubicExactUpTo(m) <==> m <= 5461
  {
    if m <= 5461 {
      forall p0, p1, p2, p3, frac: nat | frac < ONE && Quiet(p0, p1, p2, p3, m)
        ensures Spline(p0, p1, p2, p3, frac, CubicKernel(p0, p1, p2, p3, frac))
      {
        QuietIsExact(p0, p1, p2, p3, frac);
      }
    } else {
      LoudFails();
      assert Quiet(-5462, 5462, -5462, 5462, m);
      if Spline(-5462, 5462, -5462, 5462, 0xFFFF_FFFF, 32767) {
        SplineIsOne(-5462, 5462, -5462, 5462, 0xFFFF_FFFF, -5463, 32767);
      }
      hide Spline, CubicKernel;
    }
  }

  lemma CubicAtTap(p0: int, p1: int, p2: int, p3: int, frac: nat)
    requires Q15(p1)
    ensures frac < 131072 || (p0 == p1 && p1 == p2 && p2 == p3) ==> CubicKernel(p0, p1, p2, p3, frac) == p1
  {
    if frac < 0x2_0000 {
      DivModUnique(frac, 0x2_0000, 0, frac);
    }
    if frac < 131072 || (p0 == p1 && p1 == p2 && p2 == p3) {
      var t := frac / 0x2_0000;
      var t2 := t * t / 0x8000;
      var t3 := t2 * t / 0x8000;
      assert CoefA(p0, p1, p2, p3) * t3 == 0 && CoefB(p0, p1, p2, p3) * t2 == 0 && CoefC(p0, p2) * t == 0;
      hide CoefA, CoefB, CoefC;
    }
  }

  // ---- a source through the kernels ----

  const KERNELS: Kernels := Kernels(LinearKernel, CubicKernel)

  /** A source of 16-bit samples. */
  ghost predicate Sampled(src: nat -> Frame) { forall i: nat :: Q15(src(i).l) && Q15(src(i).r) }

  /** Linear playback at position pos: on the line between two neighbours. */
  lemma LinearPlays(src: nat -> Frame, pos: nat, i: nat, f: nat)
    requires Sampled(src) && f < 65536 && pos / ONE == i && pos % ONE / 65536 == f
    ensures Ideal(KERNELS, Linear, src, pos) ==
            Frame(src(i).l + (src(i + 1).l - src(i).l) * f / 65536, src(i).r + (src(i + 1).r - src(i).r) * f / 65536)
  {
    LinearIs(src(i).l, src(i + 1).l, pos % ONE);
    LinearIs(src(i).r, src(i + 1).r, pos % ONE);
    hide LinearKernel;
  }

  /** Cubic playback: the spline through the neighbours, left from left and right
      from right, for a source no louder than 5461. */
  lemma CubicPlays(src: nat -> Frame, pos: nat, i: nat)
    requires pos / ONE == i > 0
    requires forall j: nat :: Size(src(j).l) <= 5461 && Size(src(j).r) <= 5461
    ensures var out := Ideal(KERNELS, Cubic, src, pos);
            && Spline(src(i - 1).l, src(i).l, src(i + 1).l, src(i + 2).l, pos % ONE, out.l)
            && Spline(src(i - 1).r, src(i).r, src(i + 1).r, src(i + 2).r, pos % ONE, out.r)
  {
    QuietIsExact(src(i - 1).l, src(i).l, src(i + 1).l, src(i + 2).l, pos % ONE);
    QuietIsExact(src(i - 1).r, src(i).r, src(i + 1).r, src(i + 2).r, pos % ONE);
    hide CubicKernel, Spline;
  }

  /** At a whole position either kernel gives the source frame itself. */
  lemma WholePosition(interp: Interp, src: nat -> Frame, n: nat)
    requires Sampled(src)
    ensures Ideal(KERNELS, interp, src, n * ONE) == src(n)
  {
    DivModUnique(n * ONE, ONE, n, 0);
    match interp {
      case Linear =>
        LinearIs(src(n).l, src(n + 1).l, 0);
        LinearIs(src(n).r, src(n + 1).r, 0);
      case Cubic =>
        CubicAtTap(SrcAt(src, n - 1).l, src(n).l, src(n + 1).l, src(n + 2).l, 0);
        CubicAtTap(SrcAt(src, n - 1).r, src(n).r, src(n + 1).r, src(n + 2).r, 0);
    }
    hide LinearKernel, CubicKernel;
  }

  /** Where the source stands still, so does what is played, whatever the rate. */
  lemma SteadyStays(interp: Interp, src: nat -> Frame, pos: nat, x: Frame)
    requires Q15(x.l) && Q15(x.r) && pos >= ONE
    requires forall j: nat | pos / ONE <= j + 1 && j <= pos / ONE + 2 :: src(j) == x
    ensures Ideal(KERNELS, interp, src, pos) == x
  {
    var i := pos / ONE;
    assert i >= 1 && src(i - 1) == x && src(i) == x && src(i + 1) == x && src(i + 2) == x;
    LinearIs(x.l, x.l, pos % ONE);
    LinearIs(x.r, x.r, pos % ONE);
    CubicAtTap(x.l, x.l, x.l, x.l, pos % ONE);
    CubicAtTap(x.r, x.r, x.r, x.r, pos % ONE);
    hide LinearKernel, CubicKernel;
  }

  lemma {:induction false} EvenPace(steps: seq<nat>, pace: nat)
    requires forall i | 0 <= i < |steps| :: steps[i] == pace * ONE
    ensures Position(steps) == |steps| * pace * ONE
    decreases |steps|
  {
    if steps != [] {
      EvenPace(steps[..|steps| - 1], pace);
      OneMorePace(|steps|, pace);
    }
  }

  lemma OneMorePace(n: nat, pace: nat)
    requires n > 0
    ensures n * pace * ONE == (n - 1) * pace * ONE + pace * ONE
  {
    assert n * pace == (n - 1) * pace + pace;
  }

  /** AT ITS OWN RATE, or at a whole multiple of it up to the limit, a channel plays
      exactly its source: output k is source frame k * pace. */
  lemma WholeRatePlaysSource<Raw>(rig: Rig<Raw>, c: Channel, es: seq<Event<Raw>>, src: nat -> Frame, pace: nat)
    requires rig.cap > 0 && Shaped(c) && c.phase == 0 && !c.primed && rig.k == KERNELS && Sampled(src)
    requires WellFed(rig.interp, es) && Roomy(rig.cap, es) && Agrees(rig, Source(es), src)
    requires forall i | 0 <= i < |Steps(es)| :: Steps(es)[i] == pace * ONE
    ensures var out := Run(rig, c, es).out;
            |out| == |Steps(es)| && forall k | 0 <= k < |out| :: out[k] == Out(true, src(k * pace))
  {
    hide Run, Resamples, WellFed, Roomy, Agrees, Ideal, Position, Source, Steps;
    RunIsResampling(rig, c, es, src);
    OutputsAre(rig, Run(rig, c, es), es, src);
    var out := Run(rig, c, es).out;
    forall k | 0 <= k < |out|
      ensures out[k] == Out(true, src(k * pace))
    {
      WholeAt(rig.interp, src, Steps(es), k, pace);
    }
  }

  lemma WholeAt(interp: Interp, src: nat -> Frame, steps: seq<nat>, k: nat, pace: nat)
    requires Sampled(src) && k <= |steps| && forall i | 0 <= i < |steps| :: steps[i] == pace * ONE
    ensures Ideal(KERNELS, interp, src, Position(steps[..k])) == src(k * pace)
  {
    EvenPace(steps[..k], pace);
    hide Position, Ideal, Sampled;
    WholePosition(interp, src, k * pace);
  }
}
