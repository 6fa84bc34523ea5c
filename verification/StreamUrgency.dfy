// Which stream a refill goes to: the most urgent one, as the 32-bit scores have
// it. firmware/audio/hx421_stream.c.
module StreamUrgency {
  import opened Arith
  import opened Streams

  function Score(st: Stream, chunk: nat, highWm: nat, fill: nat): nat {
    if fill <= Target(st, chunk, highWm) then (Target(st, chunk, highWm) - fill) * (st.prio + 1) % U32 else 0
  }

  predicate Spent(st: Stream) { !st.looping && st.filePos >= st.dataBytes }

  predicate Eligible(st: Stream, chunk: nat, highWm: nat, fill: nat) {
    st.active && !Spent(st) && fill < Target(st, chunk, highWm)
  }

  /** The first stream of the highest score among the first n that want data. */
  ghost predicate MostUrgent(str: seq<Stream>, chunk: nat, highWm: nat, fills: seq<nat>, n: nat, best: Option<nat>)
    requires |str| == |fills| && n <= |str|
  {
    match best
    case None => forall i | 0 <= i < n :: !Eligible(str[i], chunk, highWm, fills[i])
    case Some(b) =>
      && b < n && Eligible(str[b], chunk, highWm, fills[b])
      && (forall i | 0 <= i < n && Eligible(str[i], chunk, highWm, fills[i]) ::
            Score(str[i], chunk, highWm, fills[i]) <= Score(str[b], chunk, highWm, fills[b]))
      && (forall i | 0 <= i < b && Eligible(str[i], chunk, highWm, fills[i]) ::
            Score(str[i], chunk, highWm, fills[i]) < Score(str[b], chunk, highWm, fills[b]))
  }

  // ---- what the scores are meant to be ----

  /** The deficit weighted by priority, in unbounded arithmetic. */
  function Urgency(st: Stream, chunk: nat, highWm: nat, fill: nat): nat {
    if fill <= Target(st, chunk, highWm) then (Target(st, chunk, highWm) - fill) * (st.prio + 1) else 0
  }

  /** No deficit of this stream overflows its score. */
  predicate Fits(st: Stream, chunk: nat, highWm: nat) {
    Target(st, chunk, highWm) * (st.prio + 1) < U32
  }

  /** No stream that wants data is more urgent than b. */
  ghost predicate TrulyUrgent(str: seq<Stream>, chunk: nat, highWm: nat, fills: seq<nat>, b: nat)
    requires |str| == |fills|
  {
    && b < |str|
    && forall i | 0 <= i < |str| && Eligible(str[i], chunk, highWm, fills[i]) ::
         Urgency(str[i], chunk, highWm, fills[i]) <= Urgency(str[b], chunk, highWm, fills[b])
  }

  /** Whatever the fills, the scan finds a truly most urgent stream. */
  ghost predicate AlwaysTrulyUrgent(str: seq<Stream>, chunk: nat, highWm: nat) {
    forall fills: seq<nat>, b: nat ::
      |fills| == |str| && MostUrgent(str, chunk, highWm, fills, |str|, Some(b)) ==>
          TrulyUrgent(str, chunk, highWm, fills, b)
  }

  lemma ScoreIsUrgency(st: Stream, chunk: nat, highWm: nat, fill: nat)
    requires Fits(st, chunk, highWm)
    ensures Score(st, chunk, highWm, fill) == Urgency(st, chunk, highWm, fill)
  {
    var t := Target(st, chunk, highWm);
    hide Target;
    if fill <= t {
      assert (t - fill) * (st.prio + 1) <= t * (st.prio + 1);
      DivModUnique((t - fill) * (st.prio + 1), U32, 0, (t - fill) * (st.prio + 1));
    }
  }

  lemma FittingScanIsTrue(str: seq<Stream>, chunk: nat, highWm: nat, fills: seq<nat>, b: nat)
    requires |fills| == |str| && MostUrgent(str, chunk, highWm, fills, |str|, Some(b))
    requires forall i | 0 <= i < |str| && str[i].active && !Spent(str[i]) :: Fits(str[i], chunk, highWm)
    ensures TrulyUrgent(str, chunk, highWm, fills, b)
  {
    hide Score, Urgency, Fits, Target;
    ScoreIsUrgency(str[b], chunk, highWm, fills[b]);
    forall i | 0 <= i < |str| && Eligible(str[i], chunk, highWm, fills[i])
      ensures Urgency(str[i], chunk, highWm, fills[i]) <= Urgency(str[b], chunk, highWm, fills[b])
    {
      ScoreIsUrgency(str[i], chunk, highWm, fills[i]);
    }
  }

  /** A stream's deficit times one more than its priority: what it lacks of a ring
      filled to a chunk short of its size, or to the mark if that is less. */
  ghost predicate Weighs(st: Stream, chunk: nat, highWm: nat, fill: nat, weight: int) {
    var full := st.ringSize - chunk;
    weight == ((if 0 < highWm < full then highWm else full) - fill) * (st.prio + 1)
  }

  /** Stream s can be served: it is active, its data is not spent and it is not full. */
  ghost predicate Wanting(st: Stream, chunk: nat, highWm: nat, fill: nat) {
    && st.active && (st.looping || st.filePos < st.dataBytes)
    && fill + chunk < st.ringSize && (highWm > 0 ==> fill < highWm)
  }

  /** WHICH STREAM IS CHOSEN: a wanting one of the greatest weight in 32 bits, the
      first of several; and none only when none is wanting. */
  lemma ChosenIs(str: seq<Stream>, chunk: nat, highWm: nat, fills: seq<nat>, best: Option<nat>, i: nat, x: int, y: int)
    requires |fills| == |str| && MostUrgent(str, chunk, highWm, fills, |str|, best) && 0 < chunk
    requires forall s | 0 <= s < |str| && str[s].active :: 2 * chunk <= str[s].ringSize
    requires i < |str| && Weighs(str[i], chunk, highWm, fills[i], x)
    ensures best == None ==> !Wanting(str[i], chunk, highWm, fills[i])
    ensures best.Some? ==> best.value < |str| && Wanting(str[best.value], chunk, highWm, fills[best.value])
    ensures best.Some? && Weighs(str[best.value], chunk, highWm, fills[best.value], y) &&
            Wanting(str[i], chunk, highWm, fills[i]) ==>
              x % U32 <= y % U32 && (i < best.value ==> x % U32 < y % U32)
  {
    hide MostUrgent;
    ChosenOver(str, chunk, highWm, fills, best, i);
    WantingIs(str[i], chunk, highWm, fills[i], x);
    if best.Some? {
      WantingIs(str[best.value], chunk, highWm, fills[best.value], y);
    }
    hide Score, Eligible, Wanting, Weighs;
  }

  lemma ChosenOver(str: seq<Stream>, chunk: nat, highWm: nat, fills: seq<nat>, best: Option<nat>, i: nat)
    requires |fills| == |str| && MostUrgent(str, chunk, highWm, fills, |str|, best) && i < |str|
    ensures best == None ==> !Eligible(str[i], chunk, highWm, fills[i])
    ensures best.Some? ==> best.value < |str| && Eligible(str[best.value], chunk, highWm, fills[best.value])
    ensures best.Some? && Eligible(str[i], chunk, highWm, fills[i]) ==>
              var a, b := Score(str[i], chunk, highWm, fills[i]),
                          Score(str[best.value], chunk, highWm, fills[best.value]);
              a <= b && (i < best.value ==> a < b)
  {
    hide Score, Eligible;
  }

  lemma WantingIs(st: Stream, chunk: nat, highWm: nat, fill: nat, weight: int)
    requires 0 < chunk && (st.active ==> 2 * chunk <= st.ringSize)
    ensures Wanting(st, chunk, highWm, fill) <==> Eligible(st, chunk, highWm, fill)
    ensures Wanting(st, chunk, highWm, fill) && Weighs(st, chunk, highWm, fill, weight) ==>
              weight > 0 && Score(st, chunk, highWm, fill) == weight % U32
  {
    if st.active {
      TargetIs(st, chunk, highWm);
    }
    hide Target;
    if Wanting(st, chunk, highWm, fill) && Weighs(st, chunk, highWm, fill, weight) {
      assert weight == (Target(st, chunk, highWm) - fill) * (st.prio + 1);
    }
  }

  lemma LowPrioFits(st: Stream, chunk: nat, highWm: nat)
    requires 0 < chunk && st.ringSize <= U32 / 2 && 2 * chunk <= st.ringSize
    ensures st.prio <= 1 ==> Fits(st, chunk, highWm)
  {}

  /** A deficit that overflows to a score below four. */
  function Overflow(prio: nat): nat {
    if prio == 2 then 1431655766 else 0x4000_0000
  }

  /** A stream whose target overflows, with a fill that makes its score vanish. */
  lemma OverflowingFill(st: Stream, chunk: nat, highWm: nat)
    requires 0 < chunk && st.ringSize <= U32 / 2 && 2 * chunk <= st.ringSize && st.prio <= 3 && !Fits(st, chunk, highWm)
    ensures Overflow(st.prio) <= Target(st, chunk, highWm)
    ensures var fill := Target(st, chunk, highWm) - Overflow(st.prio);
            Score(st, chunk, highWm, fill) < 4 && Urgency(st, chunk, highWm, fill) >= U32
  {
    LowPrioFits(st, chunk, highWm);
    hide Target;
    DivModUnique(0x4000_0000 * 4, U32, 1, 0);
    DivModUnique(1431655766 * 3, U32, 1, 2);
  }

  /** Everyone at the target but i and j. */
  function OnlyTwo(str: seq<Stream>, chunk: nat, highWm: nat, i: nat, fi: nat, j: nat, fj: nat): (fills: seq<nat>)
    ensures |fills| == |str|
  {
    seq(|str|, s requires 0 <= s < |str| => if s == i then fi else if s == j then fj else Target(str[s], chunk, highWm))
  }

  lemma OnlyTwoAt(str: seq<Stream>, chunk: nat, highWm: nat, i: nat, fi: nat, j: nat, fj: nat, s: nat)
    requires s < |str|
    ensures OnlyTwo(str, chunk, highWm, i, fi, j, fj)[s] ==
            if s == i then fi else if s == j then fj else Target(str[s], chunk, highWm)
  {}

  /** A ring's target is at least a chunk, or the high-water mark. */
  lemma TargetAtLeast(st: Stream, chunk: nat, highWm: nat)
    requires 0 < chunk && 2 * chunk <= st.ringSize
    ensures Target(st, chunk, highWm) >= chunk || Target(st, chunk, highWm) == highWm > 0
    ensures highWm > 0 ==> Target(st, chunk, highWm) <= highWm
  {}

  /** With one stream overflowing, the scan can be led to a less urgent one. */
  lemma OverflowMisleads(str: seq<Stream>, chunk: nat, highWm: nat, i: nat, j: nat)
    requires i < |str| && j < |str| && i != j && FRAME <= chunk
    requires forall s | s == i || s == j ::
               str[s].active && !Spent(str[s]) && 2 * chunk <= str[s].ringSize <= U32 / 2 && str[s].prio <= 3
    requires !Fits(str[i], chunk, highWm)
    ensures !AlwaysTrulyUrgent(str, chunk, highWm)
  {
    OverflowingFill(str[i], chunk, highWm);
    TargetAtLeast(str[i], chunk, highWm);
    TargetAtLeast(str[j], chunk, highWm);
    var fi := Target(str[i], chunk, highWm) - Overflow(str[i].prio);
    var fj := Target(str[j], chunk, highWm) - 4;
    var fills := OnlyTwo(str, chunk, highWm, i, fi, j, fj);
    OnlyTwoAt(str, chunk, highWm, i, fi, j, fj, i);
    OnlyTwoAt(str, chunk, highWm, i, fi, j, fj, j);
    SmallDeficit(str[j], chunk, highWm);
    hide Target, Score, Urgency;
    forall s | 0 <= s < |str| && Eligible(str[s], chunk, highWm, fills[s])
      ensures s == i || s == j
    {
      OnlyTwoAt(str, chunk, highWm, i, fi, j, fj, s);
    }
    assert MostUrgent(str, chunk, highWm, fills, |str|, Some(j));
    assert !TrulyUrgent(str, chunk, highWm, fills, j);
  }

  lemma SmallDeficit(st: Stream, chunk: nat, highWm: nat)
    requires Target(st, chunk, highWm) >= 4 && st.prio <= 3
    ensures var fill := Target(st, chunk, highWm) - 4;
            4 <= Score(st, chunk, highWm, fill) == Urgency(st, chunk, highWm, fill) <= 16
  {}

  /** URGENCY, EXACTLY: with two or more streams in want, the scan always finds a
      truly most urgent one if and only if no target overflows its score. */
  lemma UrgencyIff(str: seq<Stream>, chunk: nat, highWm: nat, i: nat, j: nat)
    requires i < |str| && j < |str| && i != j && FRAME <= chunk
    requires forall s | 0 <= s < |str| && str[s].active :: 2 * chunk <= str[s].ringSize <= U32 / 2 && str[s].prio <= 3
    requires str[i].active && !Spent(str[i]) && str[j].active && !Spent(str[j])
    ensures AlwaysTrulyUrgent(str, chunk, highWm) <==>
            forall s | 0 <= s < |str| && str[s].active && !Spent(str[s]) :: Fits(str[s], chunk, highWm)
  {
    hide MostUrgent, TrulyUrgent, Fits, Spent;
    if forall s | 0 <= s < |str| && str[s].active && !Spent(str[s]) :: Fits(str[s], chunk, highWm) {
      forall fills: seq<nat>, b: nat | |fills| == |str| && MostUrgent(str, chunk, highWm, fills, |str|, Some(b))
        ensures TrulyUrgent(str, chunk, highWm, fills, b)
      {
        FittingScanIsTrue(str, chunk, highWm, fills, b);
      }
    } else {
      var s :| 0 <= s < |str| && str[s].active && !Spent(str[s]) && !Fits(str[s], chunk, highWm);
      OverflowMisleads(str, chunk, highWm, s, if s == i then j else i);
    }
  }
}
