// Whole runs of a channel and its ring together: frames are pushed, samples are
// produced, and each sample pops what it passed. engine/audio/audio_mixer.c and
// engine/containers/ring_buffer.c.
module ChannelRuns {
  import opened Arith
  import opened Resampler
  import opened LoopResampler
  import opened Rings
  import opened MixerChannels

  /** What the host does: push a source frame, or ask for a sample at a step. */
  datatype Event<Raw> = Pushed(x: Raw) | Taken(step: nat)

  /** A sample; on an underrun there is none, and the output is silent. */
  datatype Out = Out(ok: bool, frame: Frame)

  /** The channel, its ring, and the run so far: the samples, and how many frames
      were popped and how many a full ring lost. */
  datatype Line<Raw> = Line(c: Channel, q: seq<Raw>, out: seq<Out>, popped: nat, dropped: nat)

  /** The fixed parts: the ring's capacity, the conversion and the kernels. */
  datatype Rig<!Raw> = Rig(cap: nat, conv: Raw -> Frame, k: Kernels, interp: Interp)

  function Next<Raw>(rig: Rig<Raw>, l: Line<Raw>, e: Event<Raw>): (r: Line<Raw>)
    requires Shaped(l.c)
    ensures Shaped(r.c)
  {
    match e
    case Pushed(x) =>
      if |l.q| == rig.cap && l.q != [] then l.(q := l.q[1..] + [x], dropped := l.dropped + 1) else l.(q := l.q + [x])
    case Taken(step) =>
      if l.q == [] && !l.c.primed then l.(out := l.out + [Out(false, SILENCE)])
      else
        var (c, sample, n) := Produce(rig.k, rig.interp, l.c, Shown(l.q, rig.conv), step);
        Line(c, Rest(l.q, n), l.out + [Out(true, sample)], l.popped + n, l.dropped)
  }

  function Run<Raw>(rig: Rig<Raw>, c: Channel, es: seq<Event<Raw>>): (r: Line<Raw>)
    requires Shaped(c)
    ensures Shaped(r.c)
  {
    if es == [] then Line(c, [], [], 0, 0) else Next(rig, Run(rig, c, es[..|es| - 1]), es[|es| - 1])
  }

  // ---- what the host can tell from its own calls ----

  /** The frames pushed, in order. */
  function Source<Raw>(es: seq<Event<Raw>>): seq<Raw> {
    if es == [] then []
    else
      var before := Source(es[..|es| - 1]);
      match es[|es| - 1]
      case Pushed(x) => before + [x]
      case Taken(_) => before
  }

  /** The steps of the samples asked for. */
  function Steps<Raw>(es: seq<Event<Raw>>): seq<nat> {
    if es == [] then []
    else
      var before := Steps(es[..|es| - 1]);
      match es[|es| - 1]
      case Pushed(_) => before
      case Taken(step) => before + [step]
  }

  /** Before each sample, so many frames were pushed beyond the whole part of the
      position that the window's next place is covered; and no step is too large. */
  ghost predicate WellFed<Raw>(interp: Interp, es: seq<Event<Raw>>) {
    es == [] ||
    var before := es[..|es| - 1];
    && WellFed(interp, before)
    && match es[|es| - 1]
       case Pushed(_) => true
       case Taken(step) =>
         var pos := Position(Steps(before));
         && step <= MaxAdvance(interp) * ONE
         && |Source(before)| >= pos / ONE + Need(interp, (pos + step) / ONE - pos / ONE)
  }

  /** No push comes when the ring is full: fewer frames than its capacity are
      pushed beyond the whole part of the position. */
  ghost predicate Roomy<Raw>(cap: nat, es: seq<Event<Raw>>) {
    es == [] ||
    var before := es[..|es| - 1];
    && Roomy(cap, before)
    && (es[|es| - 1].Pushed? ==> |Source(before)| < cap + Position(Steps(before)) / ONE)
  }

  // ---- the closed run ----

  /** Nothing was lost, the ring holds what was pushed and not yet popped, and the
      samples so far are the source resampled. */
  ghost predicate Resamples<Raw>(rig: Rig<Raw>, l: Line<Raw>, es: seq<Event<Raw>>, src: nat -> Frame) {
    && l.dropped == 0 && l.popped <= |Source(es)| && l.q == Source(es)[l.popped..] && |l.q| <= rig.cap
    && (forall i | 0 <= i < |l.out| :: l.out[i].ok)
    && Resampled(rig.k, rig.interp, Trace(l.c, Frames(l.out), l.popped), Steps(es), src)
  }

  function Frames(out: seq<Out>): (f: seq<Frame>)
    ensures |f| == |out|
  {
    seq(|out|, i requires 0 <= i < |out| => out[i].frame)
  }

  lemma NothingYet<Raw>(rig: Rig<Raw>, c: Channel, src: nat -> Frame)
    requires Shaped(c) && c.phase == 0 && !c.primed
    ensures Resamples(rig, Run(rig, c, []), [], src)
  {
    ResampledNothing(rig.k, rig.interp, c, src);
    hide Resampled;
  }

  /** The source shown so far agrees with `src`. */
  ghost predicate Agrees<Raw>(rig: Rig<Raw>, xs: seq<Raw>, src: nat -> Frame) {
    forall j | 0 <= j < |xs| :: rig.conv(xs[j]) == src(j)
  }

  lemma SourceMore<Raw>(es: seq<Event<Raw>>, x: Raw)
    ensures Source(es + [Pushed(x)]) == Source(es) + [x] && Steps(es + [Pushed(x)]) == Steps(es)
  {
    assert (es + [Pushed(x)])[..|es|] == es;
  }

  lemma TailMore<Raw>(xs: seq<Raw>, n: nat, x: Raw)
    requires n <= |xs|
    ensures (xs + [x])[n..] == xs[n..] + [x]
  {}

  lemma PushedKeeps<Raw>(rig: Rig<Raw>, l: Line<Raw>, es: seq<Event<Raw>>, x: Raw, src: nat -> Frame)
    requires Shaped(l.c) && Resamples(rig, l, es, src)
    requires |Source(es)| < rig.cap + Position(Steps(es)) / ONE
    ensures Resamples(rig, Next(rig, l, Pushed(x)), es + [Pushed(x)], src)
  {
    hide Resampled, Position, Source, Steps, Frames;
    PoppedIs(rig.k, rig.interp, Trace(l.c, Frames(l.out), l.popped), Steps(es), src);
    SourceMore(es, x);
    TailMore(Source(es), l.popped, x);
  }

  /** What the last sample of a well-fed run can rely on. */
  lemma FedLast<Raw>(interp: Interp, es: seq<Event<Raw>>, step: nat)
    requires WellFed(interp, es + [Taken(step)])
    ensures var pos := Position(Steps(es));
            && step <= MaxAdvance(interp) * ONE
            && |Source(es)| >= pos / ONE + Need(interp, (pos + step) / ONE - pos / ONE)
  {
    assert (es + [Taken(step)])[..|es|] == es;
    hide Position, Need;
  }

  /** WHAT A SAMPLE NEEDS, in frames: those pushed reach three past the position after
      it (cubic) or two (linear), and its step is at most as many frames. */
  lemma WellFedIs<Raw>(interp: Interp, es: seq<Event<Raw>>, step: nat)
    ensures var ahead := if interp == Cubic then 3 else 2;
            WellFed(interp, es + [Taken(step)]) <==>
              && WellFed(interp, es) && step <= ahead * ONE
              && |Source(es)| >= (Position(Steps(es)) + step) / ONE + ahead
  {
    assert (es + [Taken(step)])[..|es|] == es;
    hide Position, Source, Steps;
  }

  /** The ring shows the source from its first frame on. */
  lemma RingShows<Raw>(rig: Rig<Raw>, q: seq<Raw>, xs: seq<Raw>, idx: nat, need: nat, src: nat -> Frame)
    requires Agrees(rig, xs, src) && idx + need <= |xs| && q == xs[idx..]
    ensures Shows(Shown(q, rig.conv), src, idx, need)
  {
    forall j: nat | j < |q|
      ensures rig.conv(q[j]) == src(idx + j)
    {
      assert q[j] == xs[idx + j];
    }
    FullRingShows(q, rig.conv, src, idx, need);
  }

  lemma StepsMore<Raw>(es: seq<Event<Raw>>, step: nat)
    ensures Steps(es + [Taken(step)]) == Steps(es) + [step] && Source(es + [Taken(step)]) == Source(es)
    ensures Steps(es + [Taken(step)])[..|Steps(es)|] == Steps(es)
  {
    assert (es + [Taken(step)])[..|es|] == es;
  }

  lemma ManyLeft(interp: Interp, a: nat, step: nat)
    requires step <= MaxAdvance(interp) * ONE
    ensures Need(interp, (a + step) / ONE - a / ONE) > 0
    ensures (a + step) / ONE - a / ONE <= Need(interp, (a + step) / ONE - a / ONE)
  {
    assert (a + step) / ONE >= a / ONE;
  }

  /** The sample itself: one more step of the resampled trace. */
  lemma TakenSamples<Raw>(rig: Rig<Raw>, l: Line<Raw>, es: seq<Event<Raw>>, step: nat, src: nat -> Frame)
    requires Shaped(l.c) && Resamples(rig, l, es, src) && Agrees(rig, Source(es), src)
    requires WellFed(rig.interp, es + [Taken(step)])
    ensures l.q != []
    ensures var (c, sample, n) := Produce(rig.k, rig.interp, l.c, Shown(l.q, rig.conv), step);
            && Resampled(rig.k, rig.interp, Trace(c, Frames(l.out) + [sample], l.popped + n), Steps(es) + [step], src)
            && n <= |l.q|
  {
    hide WellFed, Agrees, Resampled, Produce, Position, Shown, Shows, Need, Source, Steps, Frames;
    var steps, t := Steps(es), Trace(l.c, Frames(l.out), l.popped);
    var pos := Position(steps);
    var need := Need(rig.interp, (pos + step) / ONE - pos / ONE);
    FedLast(rig.interp, es, step);
    ManyLeft(rig.interp, pos, step);
    PoppedIs(rig.k, rig.interp, t, steps, src);
    RingShows(rig, l.q, Source(es), pos / ONE, need, src);
    assert (steps + [step])[..|steps|] == steps;
    ResampledMore(rig.k, rig.interp, t, steps + [step], Shown(l.q, rig.conv), src);
    var (c, sample, n) := Produce(rig.k, rig.interp, l.c, Shown(l.q, rig.conv), step);
    PoppedIs(rig.k, rig.interp, Trace(c, Frames(l.out) + [sample], l.popped + n), steps + [step], src);
    LastPosition(steps, step);
  }

  lemma TakenKeeps<Raw>(rig: Rig<Raw>, l: Line<Raw>, es: seq<Event<Raw>>, step: nat, src: nat -> Frame)
    requires Shaped(l.c) && Resamples(rig, l, es, src) && Agrees(rig, Source(es), src)
    requires WellFed(rig.interp, es + [Taken(step)])
    ensures Resamples(rig, Next(rig, l, Taken(step)), es + [Taken(step)], src)
  {
    hide WellFed, Agrees, Resampled, Produce, Shown, Source, Steps, Frames;
    TakenSamples(rig, l, es, step, src);
    var (c, sample, n) := Produce(rig.k, rig.interp, l.c, Shown(l.q, rig.conv), step);
    StepsMore(es, step);
    FramesMore(l.out, sample);
  }

  lemma FramesMore(out: seq<Out>, sample: Frame)
    ensures Frames(out + [Out(true, sample)]) == Frames(out) + [sample]
  {}

  lemma PoppedIs(k: Kernels, interp: Interp, t: Trace, steps: seq<nat>, src: nat -> Frame)
    requires Resampled(k, interp, t, steps, src)
    ensures t.popped == Position(steps) / ONE
  {}

  lemma LastPosition(steps: seq<nat>, step: nat)
    ensures Position(steps + [step]) == Position(steps) + step
  {
    assert (steps + [step])[..|steps|] == steps;
  }

  lemma {:induction false} DroppedStays<Raw>(rig: Rig<Raw>, c: Channel, es: seq<Event<Raw>>)
    requires Shaped(c) && es != []
    ensures Run(rig, c, es).dropped >= Run(rig, c, es[..|es| - 1]).dropped
  {
    hide Produce;
  }

  /** THE WHOLE RUN, the step changing at will. A fresh channel on an empty ring,
      fed ahead of its position with steps within the limit: nothing is lost if and
      only if every push finds room, and then output k is the source interpolated
      at the sum of the earlier steps, the frames popped are its whole part, and
      the ring holds exactly what is pushed and still to come. */
  lemma {:induction false} RunIsResampling<Raw>(rig: Rig<Raw>, c: Channel, es: seq<Event<Raw>>, src: nat -> Frame)
    requires rig.cap > 0 && Shaped(c) && c.phase == 0 && !c.primed
    requires WellFed(rig.interp, es) && Agrees(rig, Source(es), src)
    ensures Run(rig, c, es).dropped == 0 <==> Roomy(rig.cap, es)
    ensures Roomy(rig.cap, es) ==> Resamples(rig, Run(rig, c, es), es, src)
    decreases |es|
  {
    hide Resamples, Next, Agrees;
    if es == [] {
      NothingYet(rig, c, src);
    } else {
      var before, e := es[..|es| - 1], es[|es| - 1];
      assert es == before + [e];
      SourceGrows(rig, before, e, src);
      RunIsResampling(rig, c, before, src);
      DroppedStays(rig, c, es);
      if Roomy(rig.cap, before) {
        match e {
          case Pushed(x) =>
            PushFinds(rig, Run(rig, c, before), before, x, src);
            if Roomy(rig.cap, es) {
              PushedKeeps(rig, Run(rig, c, before), before, x, src);
            }
          case Taken(step) =>
            TakenKeeps(rig, Run(rig, c, before), before, step, src);
        }
        if Roomy(rig.cap, es) {
          NoneDropped(rig, Run(rig, c, es), es, src);
        }
      }
    }
  }

  lemma SourceGrows<Raw>(rig: Rig<Raw>, es: seq<Event<Raw>>, e: Event<Raw>, src: nat -> Frame)
    requires Agrees(rig, Source(es + [e]), src)
    ensures Agrees(rig, Source(es), src)
  {
    assert (es + [e])[..|es|] == es;
    forall j | 0 <= j < |Source(es)|
      ensures rig.conv(Source(es)[j]) == src(j)
    {
      assert Source(es + [e])[j] == Source(es)[j];
    }
  }

  lemma NoneDropped<Raw>(rig: Rig<Raw>, l: Line<Raw>, es: seq<Event<Raw>>, src: nat -> Frame)
    requires Shaped(l.c) && Resamples(rig, l, es, src)
    ensures l.dropped == 0
  {}

  /** A push loses a frame exactly when it finds the ring full. */
  lemma PushFinds<Raw>(rig: Rig<Raw>, l: Line<Raw>, es: seq<Event<Raw>>, x: Raw, src: nat -> Frame)
    requires rig.cap > 0 && Shaped(l.c) && Resamples(rig, l, es, src)
    ensures Next(rig, l, Pushed(x)).dropped == 0 <==> |Source(es)| < rig.cap + Position(Steps(es)) / ONE
  {
    PoppedIs(rig.k, rig.interp, Trace(l.c, Frames(l.out), l.popped), Steps(es), src);
    hide Resampled, Position;
  }

  // ---- the channel itself does this ----

  predicate Playable<Raw>(e: Event<Raw>) { e.Taken? ==> e.step < WRAP }

  function RigOf<Raw>(ch: MixerChannel<Raw>): Rig<Raw> { Rig(ch.rb.storage.Length, ch.conv, ch.kernels, ch.interp) }

  /** One event on a real channel. */
  method Play<Raw>(ch: MixerChannel<Raw>, e: Event<Raw>, ghost l: Line<Raw>) returns (out: Option<Out>)
    requires ch.Valid() && ch.needsResample && !ch.loop && Playable(e)
    requires l.c == ch.State() && l.q == ch.rb.Contents()
    modifies ch`step, ch`phase, ch`tapPrimed, ch`loopReadPos, ch.taps, ch.rb, ch.rb.storage
    ensures ch.Valid() && Shaped(l.c)
    ensures var now := Next(RigOf(ch), l, e);
            && now.c == ch.State() && now.q == ch.rb.Contents()
            && now.out == if out == None then l.out else l.out + [out.value]
  {
    hide Ring.Contents, Shown, Produce;
    match e {
      case Pushed(x) =>
        ch.rb.Push(x);
        out := None;
      case Taken(step) =>
        ch.step := step;
        var ok, frame := ch.ProduceSample();
        out := Some(Out(ok, frame));
    }
  }

  /** Any number of events on a fresh channel over an empty ring. */
  method PlayAll<Raw>(ch: MixerChannel<Raw>, es: seq<Event<Raw>>, ghost src: nat -> Frame) returns (out: seq<Out>)
    requires ch.Valid() && ch.needsResample && !ch.loop && ch.phase == 0 && !ch.tapPrimed && ch.rb.Contents() == []
    requires forall i | 0 <= i < |es| :: Playable(es[i])
    modifies ch`step, ch`phase, ch`tapPrimed, ch`loopReadPos, ch.taps, ch.rb, ch.rb.storage
    ensures ch.Valid() && Shaped(old(ch.State()))
    ensures var end := Run(RigOf(ch), old(ch.State()), es);
            end.c == ch.State() && end.q == ch.rb.Contents() && end.out == out
    ensures WellFed(ch.interp, es) && Roomy(ch.rb.storage.Length, es) && Agrees(RigOf(ch), Source(es), src) ==>
              && |out| == |Steps(es)|
              && (forall k | 0 <= k < |out| ::
                    out[k] == Out(true, Ideal(ch.kernels, ch.interp, src, Position(Steps(es)[..k]))))
              && ch.phase < ONE
              && Position(Steps(es)) / ONE <= |Source(es)|
              && ch.rb.Contents() == Source(es)[Position(Steps(es)) / ONE..]
  {
    ghost var rig, c := RigOf(ch), ch.State();
    hide Next, Run, WellFed, Roomy, Agrees, Ring.Contents, Ring.Valid;
    out := [];
    RunNothing(rig, c);
    var i := 0;
    while i < |es|
      invariant 0 <= i <= |es| && ch.Valid() && Shaped(c)
      invariant var l := Run(rig, c, es[..i]);
                l.c == ch.State() && l.q == ch.rb.Contents() && l.out == out
    {
      RunMore(rig, c, es, i);
      var o := Play(ch, es[i], Run(rig, c, es[..i]));
      if o.Some? { out := out + [o.value]; }
      i := i + 1;
    }
    assert es[..i] == es;
    if WellFed(ch.interp, es) && Roomy(ch.rb.storage.Length, es) && Agrees(RigOf(ch), Source(es), src) {
      RunIsResampling(rig, c, es, src);
      OutputsAre(rig, Run(rig, c, es), es, src);
    }
  }

  lemma RunNothing<Raw>(rig: Rig<Raw>, c: Channel)
    requires Shaped(c)
    ensures Run(rig, c, []) == Line(c, [], [], 0, 0)
  {}

  lemma RunMore<Raw>(rig: Rig<Raw>, c: Channel, es: seq<Event<Raw>>, i: nat)
    requires Shaped(c) && i < |es|
    ensures Run(rig, c, es[..i + 1]) == Next(rig, Run(rig, c, es[..i]), es[i])
  {
    assert es[..i + 1][..i] == es[..i];
  }

  lemma OutputsAre<Raw>(rig: Rig<Raw>, l: Line<Raw>, es: seq<Event<Raw>>, src: nat -> Frame)
    requires Shaped(l.c) && Resamples(rig, l, es, src)
    ensures |l.out| == |Steps(es)| && l.c.phase < ONE
    ensures forall k | 0 <= k < |l.out| ::
              l.out[k] == Out(true, Ideal(rig.k, rig.interp, src, Position(Steps(es)[..k])))
    ensures Position(Steps(es)) / ONE <= |Source(es)| && l.q == Source(es)[Position(Steps(es)) / ONE..]
  {
    hide Ideal, Position;
    forall k | 0 <= k < |l.out|
      ensures l.out[k] == Out(true, Ideal(rig.k, rig.interp, src, Position(Steps(es)[..k])))
    {
      assert l.out[k].ok && Frames(l.out)[k] == l.out[k].frame;
    }
  }

  /** A fresh looping channel over a loop of frames, for as many samples as one
      likes: the repeating source resampled, and nothing consumed. */
  method PlayLoop<Raw>(ch: MixerChannel<Raw>, steps: seq<nat>) returns (out: seq<Out>)
    requires ch.Valid() && ch.needsResample && ch.loop && ch.rb.Contents() != []
    requires ch.phase == 0 && !ch.tapPrimed && ch.loopReadPos == 0
    requires forall i | 0 <= i < |steps| :: steps[i] < WRAP
    modifies ch`step, ch`phase, ch`tapPrimed, ch`loopReadPos, ch.taps, ch.rb
    ensures ch.Valid() && ch.rb.Contents() == old(ch.rb.Contents()) && |out| == |steps|
    ensures (forall i | 0 <= i < |steps| :: steps[i] <= Taps(ch.interp) * ONE) ==>
              && (forall k | 0 <= k < |out| ::
                    out[k] == Out(true, Ideal(ch.kernels, ch.interp, Looped(old(ch.rb.Contents()), ch.conv),
                                              Position(steps[..k]))))
              && ch.loopReadPos == Position(steps) / ONE && ch.phase < ONE
  {
    ghost var c, src := ch.State(), Looped(ch.rb.Contents(), ch.conv);
    hide LoopRun, Ring.Contents, Ring.Valid, Looped, Ideal, Position, Resampled, Frames;
    out := RunLoop(ch, steps);
    if forall i | 0 <= i < |steps| :: steps[i] <= Taps(ch.interp) * ONE {
      LoopRunIsResampling(ch.kernels, ch.interp, c, src, steps);
      LoopOutputsAre(ch.kernels, ch.interp, LoopRun(ch.kernels, ch.interp, c, src, steps), out, steps, src);
    }
  }

  /** The samples one after another. */
  method RunLoop<Raw>(ch: MixerChannel<Raw>, steps: seq<nat>) returns (out: seq<Out>)
    requires ch.Valid() && ch.needsResample && ch.loop && ch.rb.Contents() != [] && ch.loopReadPos == 0
    requires forall i | 0 <= i < |steps| :: steps[i] < WRAP
    modifies ch`step, ch`phase, ch`tapPrimed, ch`loopReadPos, ch.taps, ch.rb
    ensures ch.Valid() && ch.rb.Contents() == old(ch.rb.Contents()) && Shaped(old(ch.State()))
    ensures var t := LoopRun(ch.kernels, ch.interp, old(ch.State()), Looped(old(ch.rb.Contents()), ch.conv), steps);
            t.last == ch.State() && t.at == ch.loopReadPos && t.out == Frames(out)
    ensures |out| == |steps| && forall k | 0 <= k < |out| :: out[k].ok
  {
    ghost var c, q, src := ch.State(), ch.rb.Contents(), Looped(ch.rb.Contents(), ch.conv);
    hide LoopProduce, LoopRun, Ring.Contents, Ring.Valid, Looped, Frames, Followed;
    out := [];
    FollowedNothing(ch.kernels, ch.interp, c, src);
    assert steps[..0] == [];
    var i := 0;
    while i < |steps|
      invariant 0 <= i <= |steps| && ch.Valid() && Shaped(c) && ch.rb.Contents() == q
      invariant Followed(ch.kernels, ch.interp, c, src, steps[..i], ch.State(), ch.loopReadPos, out)
      invariant |out| == i && forall k | 0 <= k < i :: out[k].ok
    {
      ghost var before, at := ch.State(), ch.loopReadPos;
      var frame := LoopOne(ch, steps[i]);
      FollowedMore(ch.kernels, ch.interp, c, src, steps, i, before, at, out);
      out := out + [Out(true, frame)];
      i := i + 1;
    }
    assert steps[..i] == steps;
    FollowedIs(ch.kernels, ch.interp, c, src, steps, ch.State(), ch.loopReadPos, out);
  }

  /** One sample of a loop. */
  method LoopOne<Raw>(ch: MixerChannel<Raw>, step: nat) returns (frame: Frame)
    requires ch.Valid() && ch.needsResample && ch.loop && ch.rb.Contents() != [] && step < WRAP
    modifies ch`step, ch`phase, ch`tapPrimed, ch`loopReadPos, ch.taps, ch.rb
    ensures ch.Valid() && ch.rb.Contents() == old(ch.rb.Contents()) && Shaped(old(ch.State()))
    ensures var (c, sample, moved) := LoopProduce(ch.kernels, ch.interp, old(ch.State()),
                                                  Looped(old(ch.rb.Contents()), ch.conv), old(ch.loopReadPos), step);
            ch.State() == c && frame == sample && ch.loopReadPos == old(ch.loopReadPos) + moved
  {
    hide LoopProduce, Looped;
    ch.step := step;
    var ok;
    ok, frame := ch.ProduceSample();
  }

  lemma LoopOutputsAre(k: Kernels, interp: Interp, t: LoopTrace, out: seq<Out>, steps: seq<nat>, src: nat -> Frame)
    requires Resampled(k, interp, Trace(t.last, t.out, t.at), steps, src)
    requires t.out == Frames(out) && forall i | 0 <= i < |out| :: out[i].ok
    ensures forall i | 0 <= i < |out| :: out[i] == Out(true, Ideal(k, interp, src, Position(steps[..i])))
    ensures t.at == Position(steps) / ONE && t.last.phase < ONE
  {
    hide Ideal, Position;
    forall i | 0 <= i < |out|
      ensures out[i] == Out(true, Ideal(k, interp, src, Position(steps[..i])))
    {
      assert Frames(out)[i] == out[i].frame;
    }
  }

  lemma NoFrames()
    ensures Frames([]) == []
  {}

  lemma LoopRunNothing(k: Kernels, interp: Interp, c: Channel, src: nat -> Frame)
    requires Shaped(c)
    ensures LoopRun(k, interp, c, src, []) == LoopTrace(c, [], 0)
  {}

  /** The samples so far, and where they leave the channel, are the run's. */
  ghost predicate Followed(k: Kernels, interp: Interp, c: Channel, src: nat -> Frame, steps: seq<nat>,
                           now: Channel, at: nat, out: seq<Out>)
    requires Shaped(c)
  {
    LoopRun(k, interp, c, src, steps) == LoopTrace(now, Frames(out), at)
  }

  lemma FollowedNothing(k: Kernels, interp: Interp, c: Channel, src: nat -> Frame)
    requires Shaped(c)
    ensures Followed(k, interp, c, src, [], c, 0, [])
  {
    LoopRunNothing(k, interp, c, src);
    NoFrames();
  }

  lemma FollowedIs(k: Kernels, interp: Interp, c: Channel, src: nat -> Frame, steps: seq<nat>,
                   now: Channel, at: nat, out: seq<Out>)
    requires Shaped(c) && Followed(k, interp, c, src, steps, now, at, out)
    ensures LoopRun(k, interp, c, src, steps) == LoopTrace(now, Frames(out), at)
  {}

  lemma FollowedMore(k: Kernels, interp: Interp, c: Channel, src: nat -> Frame, steps: seq<nat>, i: nat,
                     before: Channel, at: nat, out: seq<Out>)
    requires Shaped(c) && i < |steps| && Shaped(before)
    requires Followed(k, interp, c, src, steps[..i], before, at, out)
    ensures var (now, frame, moved) := LoopProduce(k, interp, before, src, at, steps[i]);
            Followed(k, interp, c, src, steps[..i + 1], now, at + moved, out + [Out(true, frame)])
  {
    LoopRunMore(k, interp, c, src, steps, i);
    FramesMore(out, LoopProduce(k, interp, before, src, at, steps[i]).1);
    hide LoopProduce, LoopRun, Frames;
  }

  lemma LoopRunMore(k: Kernels, interp: Interp, c: Channel, src: nat -> Frame, steps: seq<nat>, i: nat)
    requires Shaped(c) && i < |steps|
    ensures var t := LoopRun(k, interp, c, src, steps[..i]);
            var (c', sample, moved) := LoopProduce(k, interp, t.last, src, t.at, steps[i]);
            LoopRun(k, interp, c, src, steps[..i + 1]) == LoopTrace(c', t.out + [sample], t.at + moved)
  {
    assert steps[..i + 1][..i] == steps[..i];
    hide LoopProduce;
  }
}
