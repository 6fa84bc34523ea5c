// The mixer's clock feedback: from pairs of counter readings to a smoothed
// correction, and from that to every channel's step. engine/audio/audio_mixer.c.
module DriftSync {
  import opened Arith
  import opened Resampler
  import opened MixerChannels

  const Q15_ONE: nat := 0x7FFF

  /** What mixer_create_with_sync was given: the output rate, the external clock's
      nominal rate, the filter's coefficient and the largest correction, both q15. */
  datatype Config = Config(rate: nat, ticksPerSecond: nat, smoothing: nat, maxCorrection: nat) {
    predicate Valid() { rate > 0 && ticksPerSecond > 0 && smoothing <= Q15_ONE && maxCorrection <= Q15_ONE }

    /** The clamp in the accumulator's units. */
    function Bound(): nat { maxCorrection * 0x1_0000 }
  }

  /** The last pair of readings, and the correction in units of SYNC_ACC_ONE. */
  datatype Clock = Clock(have: bool, internal: int, external: int, corr: int)

  function Clamped(x: int, bound: nat): int {
    if x > bound then bound else if x < -(bound as int) then -(bound as int) else x
  }

  // ---- the code ----

  /** The filter: the correction drawn toward the raw value, then clamped. */
  function Drawn(cfg: Config, corr: int, raw: int): int {
    Clamped(corr + CDiv((raw - corr) * cfg.smoothing, Q15_ONE), cfg.Bound())
  }

  /** The external ticks that di internal frames should take. */
  function Expected(cfg: Config, di: nat): nat
    requires cfg.Valid()
  {
    di * cfg.ticksPerSecond / cfg.rate
  }

  /** mixer_observe_sync, past the first observation, as to the correction. */
  function Corrected(cfg: Config, corr: int, di: int, de: int): int
    requires cfg.Valid()
  {
    if di <= 0 || Expected(cfg, di) == 0 then corr
    else
      var expected := Expected(cfg, di);
      var drift := de - expected;
      if drift > expected / 16 || drift < -(expected / 16) then corr
      else Drawn(cfg, corr, CDiv(drift * SYNC_ACC_ONE, expected))
  }

  function Observed(cfg: Config, s: Clock, internal: int, external: int): Clock
    requires cfg.Valid()
  {
    Clock(true, internal, external,
          if s.have then Corrected(cfg, s.corr, internal - s.internal, external - s.external) else s.corr)
  }

  // ---- one observation ----

  /** q is p / n cut off toward zero. */
  ghost predicate Quotient(p: int, n: nat, q: int) {
    && (q > 0 ==> p > 0) && (q < 0 ==> p < 0)
    && Size(q) * n <= Size(p) < (Size(q) + 1) * n
  }

  lemma CDivIs(p: int, n: nat, q: int)
    requires n > 0
    ensures CDiv(p, n) == q <==> Quotient(p, n, q)
  {
    if p >= 0 {
      assert p == p / n * n + p % n;
      FromParts(p, n, p / n, p % n);
    } else {
      assert -p == -p / n * n + -p % n;
      FromParts(-p, n, -p / n, -p % n);
    }
    OneQuotient(p, n, CDiv(p, n), q);
    hide Quotient;
  }

  lemma FromParts(p: int, n: nat, q: int, r: int)
    requires p >= 0 && p == q * n + r && 0 <= r < n
    ensures q >= 0 && Quotient(p, n, q) && Quotient(-p, n, -q)
  {
    if q < 0 {
      MultipleGrows(q, n);
      assert false;
    }
    assert (q + 1) * n == q * n + n;
    if q > 0 {
      MultipleGrows(q, n);
    }
  }

  lemma OneQuotient(p: int, n: nat, c: int, q: int)
    requires n > 0 && Quotient(p, n, c)
    ensures Quotient(p, n, q) <==> q == c
  {
    if Quotient(p, n, q) {
      DivModUnique(Size(p), n, Size(q), Size(p) - Size(q) * n);
      DivModUnique(Size(p), n, Size(c), Size(p) - Size(c) * n);
    }
  }

  /** WHICH OBSERVATIONS COUNT, and what they draw the correction toward: time must
      have passed and the drift be at most a sixteenth of the ticks expected; then it
      is the drift's share of them, in units of SYNC_ACC_ONE cut off toward zero. */
  lemma CorrectedIs(cfg: Config, corr: int, di: int, de: int, expected: nat, raw: int)
    requires cfg.Valid()
    requires di > 0 ==> expected * cfg.rate <= di * cfg.ticksPerSecond < (expected + 1) * cfg.rate
    ensures di <= 0 || expected == 0 || 16 * Size(de - expected) > expected ==> Corrected(cfg, corr, di, de) == corr
    ensures di > 0 && expected > 0 && 16 * Size(de - expected) <= expected &&
            Quotient((de - expected) * (32767 * 65536), expected, raw) ==>
              Corrected(cfg, corr, di, de) == Drawn(cfg, corr, raw)
  {
    if di > 0 {
      var p := di * cfg.ticksPerSecond;
      DivModUnique(p, cfg.rate, expected, p - expected * cfg.rate);
      if expected > 0 {
        CDivIs((de - expected) * SYNC_ACC_ONE, expected, raw);
      }
    }
    hide Drawn, CDiv, Quotient;
  }

  /** The share of an error the filter takes: never more than the error, all of it
      only at full smoothing, and nothing when the error is too small. */
  lemma ShareOf(e: int, smoothing: nat)
    requires smoothing <= Q15_ONE
    ensures var d := CDiv(e * smoothing, Q15_ONE);
            && (e >= 0 ==> 0 <= d <= e) && (e <= 0 ==> e <= d <= 0)
            && (d == 0 <==> Size(e) * smoothing < Q15_ONE)
            && (d == e <==> e == 0 || smoothing == Q15_ONE)
  {
    if e >= 0 {
      ShareOfSize(e, smoothing);
    } else {
      assert e * smoothing == -(-e * smoothing);
      ShareOfSize(-e, smoothing);
    }
  }

  lemma ShareOfSize(e: nat, smoothing: nat)
    requires smoothing <= Q15_ONE
    ensures var d := e * smoothing / Q15_ONE;
            && 0 <= d <= e
            && (d == 0 <==> e * smoothing < Q15_ONE)
            && (d == e <==> e == 0 || smoothing == Q15_ONE)
  {
    var p := e * smoothing;
    assert 0 <= p <= e * Q15_ONE;
    if e > 0 && smoothing < Q15_ONE {
      assert p < e * Q15_ONE;
    }
    WholeShare(p, e);
  }

  lemma WholeShare(p: nat, e: nat)
    requires p <= e * Q15_ONE
    ensures p / Q15_ONE <= e && (p / Q15_ONE == e <==> p == e * Q15_ONE)
    ensures p / Q15_ONE == 0 <==> p < Q15_ONE
  {}

  /** Nothing moves the correction any more: the error is too small for the filter,
      or the clamp holds it. */
  ghost predicate AtRest(cfg: Config, corr: int, raw: int) {
    || Size(raw - corr) * cfg.smoothing < Q15_ONE
    || (raw > corr == cfg.maxCorrection * 0x1_0000)
    || (raw < corr && -corr == cfg.maxCorrection * 0x1_0000)
  }

  /** NO OVERSHOOT: an observation moves the correction toward the raw value and
      never past it or the clamp; it stands still exactly at rest, and meets the
      raw value exactly at full smoothing within the clamp, or if it was there. */
  lemma DrawnIs(cfg: Config, corr: int, raw: int)
    requires cfg.Valid() && Size(corr) <= cfg.Bound()
    ensures var next := Drawn(cfg, corr, raw);
            && Size(next) <= cfg.maxCorrection * 65536
            && (corr <= raw ==> corr <= next <= raw) && (raw <= corr ==> raw <= next <= corr)
            && (next == corr <==> AtRest(cfg, corr, raw))
            && (next == raw <==> corr == raw || (cfg.smoothing == 32767 && Size(raw) <= cfg.maxCorrection * 65536))
  {
    ShareOf(raw - corr, cfg.smoothing);
    hide CDiv;
  }

  // ---- a steady drift ----

  /** The correction after n observations of one and the same drift. */
  function Drawing(cfg: Config, corr: int, raw: int, n: nat): int {
    if n == 0 then corr else Drawn(cfg, Drawing(cfg, corr, raw, n - 1), raw)
  }

  lemma {:induction false} DrawingStays(cfg: Config, corr: int, raw: int, n: nat)
    requires cfg.Valid() && Size(corr) <= cfg.Bound()
    ensures var now := Drawing(cfg, corr, raw, n);
            && Size(now) <= cfg.Bound()
            && (corr <= raw ==> corr <= now <= raw) && (raw <= corr ==> raw <= now <= corr)
  {
    hide Drawn;
    if n > 0 {
      DrawingStays(cfg, corr, raw, n - 1);
      DrawnIs(cfg, Drawing(cfg, corr, raw, n - 1), raw);
    }
  }

  /** Every observation before the rest brings the correction nearer. */
  lemma {:induction false} NearerByOne(cfg: Config, corr: int, raw: int, n: nat)
    requires cfg.Valid() && Size(corr) <= cfg.Bound()
    ensures var now := Drawing(cfg, corr, raw, n);
            AtRest(cfg, now, raw) || Size(raw - now) + n <= Size(raw - corr)
  {
    hide Drawn, AtRest;
    if n > 0 {
      NearerByOne(cfg, corr, raw, n - 1);
      DrawingStays(cfg, corr, raw, n - 1);
      DrawnIs(cfg, Drawing(cfg, corr, raw, n - 1), raw);
    }
  }

  /** A STEADY DRIFT COMES TO REST, after as many observations as the first error is
      large at the latest, and stays there. */
  lemma ComesToRest(cfg: Config, corr: int, raw: int, n: nat)
    requires cfg.Valid() && Size(corr) <= cfg.Bound() && n >= Size(raw - corr)
    ensures AtRest(cfg, Drawing(cfg, corr, raw, n), raw)
    ensures Drawing(cfg, corr, raw, n + 1) == Drawing(cfg, corr, raw, n)
  {
    hide Drawn;
    NearerByOne(cfg, corr, raw, n);
    DrawingStays(cfg, corr, raw, n);
    DrawnIs(cfg, Drawing(cfg, corr, raw, n), raw);
  }

  /** BUT NOT AT THE DRIFT: a steady drift is ever met exactly if and only if the
      correction started there, or the smoothing is full and the clamp allows it. */
  lemma MeetsTheDriftIff(cfg: Config, corr: int, raw: int)
    requires cfg.Valid() && Size(corr) <= cfg.Bound()
    ensures (exists n: nat :: Drawing(cfg, corr, raw, n) == raw) <==>
            corr == raw || (cfg.smoothing == 32767 && Size(raw) <= cfg.maxCorrection * 65536)
  {
    hide Drawn;
    if corr == raw {
      var n: nat := 0;
      assert Drawing(cfg, corr, raw, n) == raw;
    } else if cfg.smoothing == 32767 && Size(raw) <= cfg.maxCorrection * 65536 {
      DrawnIs(cfg, corr, raw);
      assert Drawing(cfg, corr, raw, 0) == corr;
      assert Drawing(cfg, corr, raw, 1) == raw;
    } else {
      forall n: nat
        ensures Drawing(cfg, corr, raw, n) != raw
      {
        NeverMeets(cfg, corr, raw, n);
      }
    }
  }

  lemma {:induction false} NeverMeets(cfg: Config, corr: int, raw: int, n: nat)
    requires cfg.Valid() && Size(corr) <= cfg.Bound() && corr != raw
    requires !(cfg.smoothing == 32767 && Size(raw) <= cfg.maxCorrection * 65536)
    ensures Drawing(cfg, corr, raw, n) != raw
  {
    hide Drawn;
    if n > 0 {
      NeverMeets(cfg, corr, raw, n - 1);
      DrawingStays(cfg, corr, raw, n - 1);
      DrawnIs(cfg, Drawing(cfg, corr, raw, n - 1), raw);
    }
  }

  // ---- whole runs of readings ----

  /** A pair of counter readings. */
  datatype Reading = Reading(internal: int, external: int)

  function Watched(cfg: Config, s: Clock, rs: seq<Reading>): Clock
    requires cfg.Valid()
  {
    if rs == [] then s
    else
      var before, r := Watched(cfg, s, rs[..|rs| - 1]), rs[|rs| - 1];
      Observed(cfg, before, r.internal, r.external)
  }

  lemma {:induction false} WatchedStays(cfg: Config, s: Clock, rs: seq<Reading>)
    requires cfg.Valid() && Size(s.corr) <= cfg.Bound()
    ensures Size(Watched(cfg, s, rs).corr) <= cfg.Bound()
    ensures rs != [] ==>
              var w, r := Watched(cfg, s, rs), rs[|rs| - 1];
              w.have && w.internal == r.internal && w.external == r.external
    decreases |rs|
  {
    hide Corrected;
    if rs != [] {
      var n := |rs| - 1;
      WatchedStays(cfg, s, rs[..n]);
      var before, r := Watched(cfg, s, rs[..n]), rs[n];
      CorrectedStays(cfg, before.corr, r.internal - before.internal, r.external - before.external);
    }
  }

  lemma CorrectedStays(cfg: Config, corr: int, di: int, de: int)
    requires cfg.Valid() && Size(corr) <= cfg.Bound()
    ensures Size(Corrected(cfg, corr, di, de)) <= cfg.Bound()
  {
    if di > 0 && Expected(cfg, di) > 0 {
      DrawnIs(cfg, corr, CDiv((de - Expected(cfg, di)) * SYNC_ACC_ONE, Expected(cfg, di)));
    }
    hide Drawn, CDiv;
  }

  /** Readings at an even pace, from the k-th on. */
  ghost predicate EvenlyRead(s: Clock, rs: seq<Reading>, di: int, de: int) {
    forall k | 0 <= k < |rs| :: rs[k] == Reading(s.internal + (k + 1) * di, s.external + (k + 1) * de)
  }

  /** Readings at an even pace whose drift counts draw the correction as above. */
  lemma {:induction false} EvenReadings(cfg: Config, s: Clock, rs: seq<Reading>, di: nat, de: int, expected: nat,
                                        raw: int)
    requires cfg.Valid() && s.have && EvenlyRead(s, rs, di, de)
    requires di > 0 && expected * cfg.rate <= di * cfg.ticksPerSecond < (expected + 1) * cfg.rate
    requires expected > 0 && 16 * Size(de - expected) <= expected
    requires Quotient((de - expected) * (32767 * 65536), expected, raw)
    ensures Watched(cfg, s, rs).corr == Drawing(cfg, s.corr, raw, |rs|)
    decreases |rs|
  {
    hide Corrected, Drawn, Quotient;
    if rs != [] {
      var n := |rs| - 1;
      EvenReadings(cfg, s, rs[..n], di, de, expected, raw);
      LastReading(cfg, s, rs[..n], di, de);
      Paced(s.internal, n, di);
      Paced(s.external, n, de);
      CorrectedIs(cfg, Watched(cfg, s, rs[..n]).corr, di, de, expected, raw);
    }
  }

  lemma Paced(at: int, n: nat, d: int)
    ensures at + (n + 1) * d - (at + n * d) == d
  {}

  lemma LastReading(cfg: Config, s: Clock, rs: seq<Reading>, di: int, de: int)
    requires cfg.Valid() && s.have && EvenlyRead(s, rs, di, de)
    ensures var w := Watched(cfg, s, rs);
            w.have && w.internal == s.internal + |rs| * di && w.external == s.external + |rs| * de
  {
    hide Corrected;
  }

  // ---- the mixer ----

  class SyncMixer<Raw> {
    const cfg: Config
    const enabled: bool
    const channels: seq<MixerChannel<Raw>>
    var haveLast: bool
    var lastInternal: int
    var lastExternal: int
    var corrAcc: int

    ghost predicate Valid()
      reads this, set i | 0 <= i < |channels| :: channels[i], set i | 0 <= i < |channels| :: channels[i].rb
    {
      && cfg.Valid() && Size(corrAcc) <= cfg.Bound()
      && forall i | 0 <= i < |channels| ::
           channels[i].Valid() && channels[i].baseStep < WRAP / 4 && (enabled ==> channels[i].needsResample)
    }

    ghost function Now(): Clock
      reads this
    {
      Clock(haveLast, lastInternal, lastExternal, corrAcc)
    }

    /** Every channel's step is its base step under this correction. */
    ghost predicate InStep()
      reads this, set i | 0 <= i < |channels| :: channels[i]
    {
      forall i | 0 <= i < |channels| && channels[i].needsResample ::
        channels[i].step == CorrectedStep(channels[i].baseStep, corrAcc)
    }

    constructor (cfg: Config, enabled: bool, channels: seq<MixerChannel<Raw>>)
      requires cfg.Valid()
      requires forall i | 0 <= i < |channels| ::
                 channels[i].Valid() && channels[i].baseStep < WRAP / 4 && (enabled ==> channels[i].needsResample)
      ensures Valid() && this.cfg == cfg && this.enabled == enabled && this.channels == channels
      ensures Now() == Clock(false, 0, 0, 0)
      ensures (forall i | 0 <= i < |channels| :: channels[i].step == channels[i].baseStep >= 1) ==> InStep()
    {
      this.cfg := cfg;
      this.enabled := enabled;
      this.channels := channels;
      haveLast, lastInternal, lastExternal, corrAcc := false, 0, 0, 0;
    }

    method UpdateSteps()
      requires Valid()
      modifies (set i | 0 <= i < |channels| :: channels[i])`step
      ensures Valid() && InStep()
    {
      BoundIsShare(cfg);
      UpdateChannelSteps(channels, corrAcc);
    }

    /** mixer_observe_sync; the answer is the correction in parts per million. */
    method ObserveSync(internal: int, external: int) returns (ppm: int)
      requires Valid()
      modifies this`haveLast, this`lastInternal, this`lastExternal, this`corrAcc,
               (set i | 0 <= i < |channels| :: channels[i])`step
      ensures Valid()
      ensures Now() == if enabled then Observed(cfg, old(Now()), internal, external) else old(Now())
      ensures old(InStep()) ==> InStep()
      ensures if enabled && old(haveLast) && internal > old(lastInternal) &&
                 (internal - old(lastInternal)) * cfg.ticksPerSecond >= cfg.rate
              then Quotient(corrAcc * 1000000, 32767 * 65536, ppm) else ppm == 0
    {
      hide InStep, Quotient, Drawn, CDiv;
      if !enabled { return 0; }
      if !haveLast {
        lastInternal, lastExternal, haveLast := internal, external, true;
        KeepsStep();
        return 0;
      }
      var deltaInternal, deltaExternal := internal - lastInternal, external - lastExternal;
      lastInternal, lastExternal := internal, external;
      CDivIs(corrAcc * 1000000, SYNC_ACC_ONE, CDiv(corrAcc * 1000000, SYNC_ACC_ONE));
      KeepsStep();
      if deltaInternal <= 0 { return 0; }
      var expected := deltaInternal * cfg.ticksPerSecond / cfg.rate;
      SomeExpected(deltaInternal * cfg.ticksPerSecond, cfg.rate);
      if expected <= 0 { return 0; }
      var drift := deltaExternal - expected;
      var reject := expected / 16;
      if drift > reject || drift < -reject { return CDiv(corrAcc * 1000000, SYNC_ACC_ONE); }
      var raw := CDiv(drift * SYNC_ACC_ONE, expected);
      Draw(raw);
      CDivIs(corrAcc * 1000000, SYNC_ACC_ONE, CDiv(corrAcc * 1000000, SYNC_ACC_ONE));
      return CDiv(corrAcc * 1000000, SYNC_ACC_ONE);
    }

    twostate lemma KeepsStep()
      requires corrAcc == old(corrAcc)
      requires forall i | 0 <= i < |channels| :: unchanged(channels[i])
      ensures old(InStep()) ==> InStep()
    {}

    /** The filter's turn, and every channel after it. */
    method Draw(raw: int)
      requires Valid()
      modifies this`corrAcc, (set i | 0 <= i < |channels| :: channels[i])`step
      ensures Valid() && InStep() && corrAcc == Drawn(cfg, old(corrAcc), raw)
    {
      DrawnIs(cfg, corrAcc, raw);
      var error := raw - corrAcc;
      var step := CDiv(error * cfg.smoothing, Q15_ONE);
      var now := corrAcc + step;
      var bound := cfg.maxCorrection * 0x1_0000;
      if now > bound { now := bound; }
      if now < -bound { now := -bound; }
      hide CDiv, AtRest;
      corrAcc := now;
      UpdateSteps();
    }

    /** mixer_reset_sync. */
    method ResetSync()
      requires Valid()
      modifies this`haveLast, this`lastInternal, this`lastExternal, this`corrAcc,
               (set i | 0 <= i < |channels| :: channels[i])`step
      ensures Valid() && Now() == if enabled then Clock(false, 0, 0, 0) else old(Now())
      ensures enabled ==> forall i | 0 <= i < |channels| ::
                            channels[i].step == if channels[i].baseStep < 1 then 1 else channels[i].baseStep
    {
      if !enabled { return; }
      haveLast, lastInternal, lastExternal, corrAcc := false, 0, 0, 0;
      UpdateSteps();
    }

    /** mixer_set_drift_ppm: the correction set outright, clamped. */
    method SetDriftPpm(ppm: int)
      requires Valid()
      modifies this`corrAcc, (set i | 0 <= i < |channels| :: channels[i])`step
      ensures Valid() && (if enabled then InStep() else corrAcc == old(corrAcc))
      ensures enabled ==> forall acc | Quotient(ppm * (32767 * 65536), 1000000, acc) ::
                            var bound := cfg.maxCorrection * 65536;
                            corrAcc == if acc > bound then bound else if acc < -bound then -bound else acc
    {
      if !enabled { return; }
      var now := CDiv(ppm * SYNC_ACC_ONE, 1000000);
      forall acc | Quotient(ppm * (32767 * 65536), 1000000, acc)
        ensures acc == now
      {
        CDivIs(ppm * SYNC_ACC_ONE, 1000000, acc);
      }
      var bound := cfg.maxCorrection * 0x1_0000;
      if now > bound { now := bound; }
      if now < -bound { now := -bound; }
      hide CDiv, Quotient;
      corrAcc := now;
      UpdateSteps();
    }

    /** ANY READINGS: the correction is the run's, within the clamp, and every
        channel plays at its base step under it. */
    method ObserveAll(rs: seq<Reading>)
      requires Valid() && enabled && InStep()
      modifies this`haveLast, this`lastInternal, this`lastExternal, this`corrAcc,
               (set i | 0 <= i < |channels| :: channels[i])`step
      ensures Valid() && InStep() && Now() == Watched(cfg, old(Now()), rs)
    {
      hide InStep, Observed, Quotient;
      var i := 0;
      while i < |rs|
        invariant 0 <= i <= |rs| && Valid() && InStep() && Now() == Watched(cfg, old(Now()), rs[..i])
      {
        assert rs[..i + 1][..i] == rs[..i];
        var ppm := ObserveSync(rs[i].internal, rs[i].external);
        i := i + 1;
      }
      assert rs[..i] == rs;
    }
  }

  lemma SomeExpected(ticks: nat, rate: nat)
    requires rate > 0
    ensures 0 <= ticks / rate && (ticks / rate == 0 <==> ticks < rate)
  {
    assert ticks == ticks / rate * rate + ticks % rate;
    if ticks < rate {
      DivModUnique(ticks, rate, 0, ticks);
    }
  }

  lemma BoundIsShare(cfg: Config)
    requires cfg.Valid()
    ensures cfg.Bound() <= SYNC_ACC_ONE
  {}
}
