// How far a ring fills when nobody reads it, and who holds whom up: the end of
// the priming loop as a function of its start. firmware/audio/hx421_stream.c.
module StreamPriming {
  import opened Arith
  import opened Streams
  import opened StreamUrgency

  predicate Cursors(st: Stream) { st.writePos <= st.ringSize && st.filePos <= st.dataBytes }

  /** A stream that will be left with less than a frame of room, wanting data it
      cannot take: whenever it is the most urgent then, no stream is served. */
  predicate Clogs(st: Stream, chunk: nat, highWm: nat, fill: nat) {
    && st.active && Cursors(st) && fill < Target(st, chunk, highWm)
    && (Target(st, chunk, highWm) - fill) % FRAME != 0
    && (st.looping || st.filePos + Trim(Target(st, chunk, highWm) - fill) < st.dataBytes)
  }

  /** The lowest score a stream shows, chunk by chunk, on its way to being full. */
  function Low(st: Stream, chunk: nat, highWm: nat, fill: nat): (n: nat)
    requires Cursors(st)
    decreases Target(st, chunk, highWm) - fill
  {
    var score := Score(st, chunk, highWm, fill);
    if fill + FRAME > Target(st, chunk, highWm) then score
    else
      var run := RunOf(st, chunk, Target(st, chunk, highWm) - fill);
      if run == 0 then score
      else
        RunInside(st, chunk, Target(st, chunk, highWm) - fill);
        RefillKeepsTarget(st, chunk, highWm, run);
        Min(score, Low(AfterRefill(st, run), chunk, highWm, fill + run))
  }

  /** The one that ends up holding up the others: the first of those whose low is
      the highest, because it is the one to get past all its scores. */
  function Blocker(str: seq<Stream>, chunk: nat, highWm: nat, fills: seq<nat>, n: nat): (b: Option<nat>)
    requires n <= |str| == |fills|
    ensures b.Some? ==> b.value < n && Clogs(str[b.value], chunk, highWm, fills[b.value])
  {
    if n == 0 then None
    else
      var b := Blocker(str, chunk, highWm, fills, n - 1);
      if Clogs(str[n - 1], chunk, highWm, fills[n - 1]) &&
         (b == None || Low(str[n - 1], chunk, highWm, fills[n - 1]) >
                       Low(str[b.value], chunk, highWm, fills[b.value])) then Some(n - 1) else b
  }

  /** Clog i has its low under that of clog b, or the same one and comes later. */
  predicate Lower(str: seq<Stream>, chunk: nat, highWm: nat, fills: seq<nat>, i: nat, b: nat)
    requires i < |str| == |fills| && b < |str| && Cursors(str[i]) && Cursors(str[b])
  {
    var li, lb := Low(str[i], chunk, highWm, fills[i]), Low(str[b], chunk, highWm, fills[b]);
    li < lb || (li == lb && i >= b)
  }

  lemma {:induction false} BlockerIsFirst(str: seq<Stream>, chunk: nat, highWm: nat, fills: seq<nat>, n: nat)
    requires n <= |str| == |fills|
    ensures match Blocker(str, chunk, highWm, fills, n)
            case None => forall i | 0 <= i < n :: !Clogs(str[i], chunk, highWm, fills[i])
            case Some(b) =>
              forall i | 0 <= i < n && Clogs(str[i], chunk, highWm, fills[i]) :: Lower(str, chunk, highWm, fills, i, b)
  {
    hide Low, Target;
    if n == 0 {
    } else {
      BlockerIsFirst(str, chunk, highWm, fills, n - 1);
    }
  }

  lemma BlockerIs(str: seq<Stream>, chunk: nat, highWm: nat, fills: seq<nat>, b: nat)
    requires b < |str| == |fills| && Clogs(str[b], chunk, highWm, fills[b])
    requires forall i | 0 <= i < |str| && Clogs(str[i], chunk, highWm, fills[i]) ::
               Lower(str, chunk, highWm, fills, i, b)
    ensures Blocker(str, chunk, highWm, fills, |str|) == Some(b)
  {
    BlockerIsFirst(str, chunk, highWm, fills, |str|);
    hide Low, Target, Blocker;
  }

  /** The score a stream must beat to be served to the end, and whose it is. */
  datatype Bar = NoBar | Bar(who: nat, score: nat)

  function BarOf(str: seq<Stream>, chunk: nat, highWm: nat, fills: seq<nat>): Bar
    requires |str| == |fills|
  {
    match Blocker(str, chunk, highWm, fills, |str|)
    case None => NoBar
    case Some(b) => Bar(b, Low(str[b], chunk, highWm, fills[b]))
  }

  /** The bytes that will not make a frame. */
  function Residue(st: Stream, chunk: nat, highWm: nat, fill: nat): nat
    requires fill <= Target(st, chunk, highWm)
  {
    (Target(st, chunk, highWm) - fill) % FRAME
  }

  predicate Outranks(i: nat, score: nat, bar: Bar) {
    bar.NoBar? || i == bar.who || score > bar.score || (score == bar.score && i < bar.who)
  }

  /** Stream i will not be served any more. */
  predicate Done(st: Stream, chunk: nat, highWm: nat, i: nat, fill: nat, bar: Bar) {
    || Spent(st) || fill + FRAME > Target(st, chunk, highWm)
    || !Outranks(i, Score(st, chunk, highWm, fill), bar)
  }

  /** HOW FAR A STREAM FILLS, chunk by chunk, when nobody reads. */
  function Loaded(st: Stream, chunk: nat, highWm: nat, i: nat, fill: nat, bar: Bar): (n: nat)
    requires st.writePos <= st.ringSize && st.filePos <= st.dataBytes
    ensures n >= fill
    decreases Target(st, chunk, highWm) - fill
  {
    if Done(st, chunk, highWm, i, fill, bar) then fill
    else
      var run := RunOf(st, chunk, Target(st, chunk, highWm) - fill);
      if run == 0 then fill
      else
        RunInside(st, chunk, Target(st, chunk, highWm) - fill);
        RefillKeepsTarget(st, chunk, highWm, run);
        Loaded(AfterRefill(st, run), chunk, highWm, i, fill + run, bar)
  }

  lemma RefillKeepsTarget(st: Stream, chunk: nat, highWm: nat, run: nat)
    ensures Target(AfterRefill(st, run), chunk, highWm) == Target(st, chunk, highWm)
    ensures Head(AfterRefill(st, run), Target(st, chunk, highWm)) == Head(st, Target(st, chunk, highWm))
  {}

  // ---- one refill leaves all of it as it was ----

  lemma ClogsStays(st: Stream, primed: bool, chunk: nat, highWm: nat, fill: nat, run: nat)
    requires fill + run <= Target(st, chunk, highWm) && run % FRAME == 0 && FRAME <= Target(st, chunk, highWm) - fill
    requires st.filePos + run <= st.dataBytes && Cursors(st) && Cursors(AfterRefill(st, run))
    ensures Clogs(AfterRefill(st, run).(primed := primed), chunk, highWm, fill + run) <==>
              Clogs(st, chunk, highWm, fill)
  {
    RefillKeepsTarget(st, chunk, highWm, run);
    FlagKeepsTarget(AfterRefill(st, run), primed, chunk, highWm);
    var room := Target(st, chunk, highWm) - fill;
    RefillFields(st, run);
    hide Target, AfterRefill;
    TrimLess(room, run);
    hide Trim;
  }

  lemma FlagKeepsTarget(st: Stream, primed: bool, chunk: nat, highWm: nat)
    ensures Target(st.(primed := primed), chunk, highWm) == Target(st, chunk, highWm)
  {}

  lemma RefillFields(st: Stream, run: nat)
    ensures var after := AfterRefill(st, run);
            && after.active == st.active && after.looping == st.looping && after.dataBytes == st.dataBytes
            && (!st.looping ==> after.filePos == st.filePos + run)
  {}

  lemma TrimLess(room: nat, run: nat)
    requires run <= room && run % FRAME == 0
    ensures Trim(room - run) == Trim(room) - run && (room - run) % FRAME == room % FRAME
  {}

  lemma {:induction false} BlockerStays(str0: seq<Stream>, str1: seq<Stream>, chunk: nat, highWm: nat,
                                        fills0: seq<nat>, fills1: seq<nat>, n: nat)
    requires n <= |str0| == |str1| == |fills0| == |fills1|
    requires forall i | 0 <= i < |str0| ::
               && (Clogs(str1[i], chunk, highWm, fills1[i]) <==> Clogs(str0[i], chunk, highWm, fills0[i]))
               && (Clogs(str0[i], chunk, highWm, fills0[i]) ==>
                     Low(str1[i], chunk, highWm, fills1[i]) == Low(str0[i], chunk, highWm, fills0[i]))
    ensures Blocker(str1, chunk, highWm, fills1, n) == Blocker(str0, chunk, highWm, fills0, n)
  {
    hide Low, Target;
    if n == 0 {
    } else {
      BlockerStays(str0, str1, chunk, highWm, fills0, fills1, n - 1);
    }
  }

  /** The ready flag plays no part in any of it. */
  lemma FlagFacts(st: Stream, primed: bool, chunk: nat, highWm: nat, fill: nat, room: nat, run: nat)
    requires Cursors(st)
    ensures Target(st.(primed := primed), chunk, highWm) == Target(st, chunk, highWm)
    ensures Score(st.(primed := primed), chunk, highWm, fill) == Score(st, chunk, highWm, fill)
    ensures Spent(st.(primed := primed)) == Spent(st) && Cursors(st.(primed := primed))
    ensures RunOf(st.(primed := primed), chunk, room) == RunOf(st, chunk, room)
    ensures AfterRefill(st.(primed := primed), run) == AfterRefill(st, run).(primed := primed)
  {}

  /** A run never goes past the ring, the source or the room. */
  lemma RunInside(st: Stream, chunk: nat, room: nat)
    requires st.writePos <= st.ringSize && st.filePos <= st.dataBytes
    ensures var run := RunOf(st, chunk, room);
            && run <= room && run % FRAME == 0
            && st.writePos + run <= st.ringSize && st.filePos + run <= st.dataBytes
            && AfterRefill(st, run).writePos <= AfterRefill(st, run).ringSize
            && AfterRefill(st, run).filePos <= AfterRefill(st, run).dataBytes
  {
    RunFits(st, chunk, room);
    hide RunOf;
  }

  lemma {:induction false} FlagIsNoMatter(st: Stream, primed: bool, chunk: nat, highWm: nat, i: nat, fill: nat,
                                          bar: Bar, bar': Bar)
    requires Cursors(st) && (bar' == bar || (bar.Bar? && bar'.Bar? && i == bar.who == bar'.who))
    ensures Loaded(st.(primed := primed), chunk, highWm, i, fill, bar') == Loaded(st, chunk, highWm, i, fill, bar)
    decreases Target(st, chunk, highWm) - fill
  {
    hide RunOf, AfterRefill, Target, Score, Spent;
    var t := Target(st, chunk, highWm);
    FlagFacts(st, primed, chunk, highWm, fill, 0, 0);
    if Done(st, chunk, highWm, i, fill, bar) {
    } else {
      NotDoneHasRoom(st, chunk, highWm, i, fill, bar);
      var run := RunOf(st, chunk, t - fill);
      FlagFacts(st, primed, chunk, highWm, fill, t - fill, run);
      if run == 0 {
      } else {
        RunInside(st, chunk, t - fill);
        RefillKeepsTarget(st, chunk, highWm, run);
        FlagIsNoMatter(AfterRefill(st, run), primed, chunk, highWm, i, fill + run, bar, bar');
      }
    }
  }

  /** Nor in how low its scores go. */
  lemma {:induction false} FlagKeepsLow(st: Stream, primed: bool, chunk: nat, highWm: nat, fill: nat)
    requires Cursors(st)
    ensures Low(st.(primed := primed), chunk, highWm, fill) == Low(st, chunk, highWm, fill)
    decreases Target(st, chunk, highWm) - fill
  {
    hide RunOf, AfterRefill, Target, Score, Spent;
    var t := Target(st, chunk, highWm);
    FlagFacts(st, primed, chunk, highWm, fill, 0, 0);
    if fill + FRAME > t {
    } else {
      var run := RunOf(st, chunk, t - fill);
      FlagFacts(st, primed, chunk, highWm, fill, t - fill, run);
      if run == 0 {
      } else {
        RunInside(st, chunk, t - fill);
        RefillKeepsTarget(st, chunk, highWm, run);
        FlagKeepsLow(AfterRefill(st, run), primed, chunk, highWm, fill + run);
      }
    }
  }

  lemma NotDoneHasRoom(st: Stream, chunk: nat, highWm: nat, i: nat, fill: nat, bar: Bar)
    requires !Done(st, chunk, highWm, i, fill, bar)
    ensures fill + FRAME <= Target(st, chunk, highWm) && !Spent(st)
    ensures Outranks(i, Score(st, chunk, highWm, fill), bar)
  {}

  /** A refill is a step towards where the stream was going anyway. */
  lemma RefillIsAStep(st: Stream, primed: bool, chunk: nat, highWm: nat, i: nat, fill: nat, bar: Bar, bar': Bar)
    requires Cursors(st) && (bar' == bar || (bar.Bar? && bar'.Bar? && i == bar.who == bar'.who))
    requires !Done(st, chunk, highWm, i, fill, bar) && fill <= Target(st, chunk, highWm)
    requires RunOf(st, chunk, Target(st, chunk, highWm) - fill) > 0
    ensures var run := RunOf(st, chunk, Target(st, chunk, highWm) - fill);
            var after := AfterRefill(st, run).(primed := primed);
            && Cursors(after)
            && Loaded(after, chunk, highWm, i, fill + run, bar') == Loaded(st, chunk, highWm, i, fill, bar)
  {
    hide Done, RunOf, AfterRefill, Target;
    var room := Target(st, chunk, highWm) - fill;
    RunInside(st, chunk, room);
    FlagIsNoMatter(AfterRefill(st, RunOf(st, chunk, room)), primed, chunk, highWm, i, fill + RunOf(st, chunk, room),
                   bar, bar');
  }

  /** And it leaves behind only the score it had. */
  lemma RefillAndLow(st: Stream, primed: bool, chunk: nat, highWm: nat, fill: nat)
    requires Cursors(st) && fill <= Target(st, chunk, highWm)
    requires RunOf(st, chunk, Target(st, chunk, highWm) - fill) > 0
    ensures var run := RunOf(st, chunk, Target(st, chunk, highWm) - fill);
            var after := AfterRefill(st, run).(primed := primed);
            && Cursors(after)
            && Low(st, chunk, highWm, fill) ==
               Min(Score(st, chunk, highWm, fill), Low(after, chunk, highWm, fill + run))
  {
    var room := Target(st, chunk, highWm) - fill;
    var run := RunOf(st, chunk, room);
    RunInside(st, chunk, room);
    FrameOrMore(run);
    hide RunOf, AfterRefill, Target, Score;
    FlagKeepsLow(AfterRefill(st, run), primed, chunk, highWm, fill + run);
  }

  lemma FrameOrMore(run: nat)
    requires run > 0 && run % FRAME == 0
    ensures run >= FRAME
  {}

  // ---- who is chosen, and when nobody is served ----

  /** A clog wants data, and never scores below its low. */
  lemma ClogWants(st: Stream, chunk: nat, highWm: nat, fill: nat)
    requires Clogs(st, chunk, highWm, fill)
    ensures Eligible(st, chunk, highWm, fill) && Low(st, chunk, highWm, fill) <= Score(st, chunk, highWm, fill)
    ensures Target(st, chunk, highWm) - fill < FRAME ==>
              Low(st, chunk, highWm, fill) == Score(st, chunk, highWm, fill)
  {
    hide Target, RunOf;
  }

  lemma EligibleIs(st: Stream, chunk: nat, highWm: nat, fill: nat)
    requires Eligible(st, chunk, highWm, fill)
    ensures st.active && !Spent(st) && fill < Target(st, chunk, highWm)
  {}

  lemma LastBytesClog(st: Stream, chunk: nat, highWm: nat, fill: nat)
    requires Eligible(st, chunk, highWm, fill) && Target(st, chunk, highWm) - fill < FRAME && Cursors(st)
    ensures Clogs(st, chunk, highWm, fill)
  {}

  /** Every other clog is below the score of the one that is chosen. */
  lemma OthersLower(str: seq<Stream>, chunk: nat, highWm: nat, fills: seq<nat>, b: nat, i: nat)
    requires |str| == |fills| && MostUrgent(str, chunk, highWm, fills, |str|, Some(b))
    requires i < |str| && Clogs(str[i], chunk, highWm, fills[i])
    ensures var low, score := Low(str[i], chunk, highWm, fills[i]), Score(str[b], chunk, highWm, fills[b]);
            low < score || (low == score && i >= b)
  {
    ClogWants(str[i], chunk, highWm, fills[i]);
    hide Clogs, Low, Score, Eligible;
  }

  /** Whoever is served outranks the bar. */
  lemma ServedOutranks(str: seq<Stream>, chunk: nat, highWm: nat, fills: seq<nat>, b: nat)
    requires |str| == |fills| && MostUrgent(str, chunk, highWm, fills, |str|, Some(b))
    ensures Outranks(b, Score(str[b], chunk, highWm, fills[b]), BarOf(str, chunk, highWm, fills))
  {
    hide Clogs, Score, Eligible, MostUrgent, Low;
    var k := Blocker(str, chunk, highWm, fills, |str|);
    if k.Some? {
      OthersLower(str, chunk, highWm, fills, b, k.value);
    }
  }

  /** Nobody else outranks a bar at or above the score of the one that is chosen. */
  lemma OthersDone(str: seq<Stream>, chunk: nat, highWm: nat, fills: seq<nat>, b: nat, s: nat, bar: Bar)
    requires |str| == |fills| && MostUrgent(str, chunk, highWm, fills, |str|, Some(b))
    requires bar.Bar? && bar.who == b && bar.score >= Score(str[b], chunk, highWm, fills[b])
    requires s < |str| && s != b && str[s].active
    ensures Done(str[s], chunk, highWm, s, fills[s], bar)
  {
    EligibleUnless(str[s], chunk, highWm, fills[s]);
    hide Score, Eligible, Spent, Target;
  }

  lemma EligibleUnless(st: Stream, chunk: nat, highWm: nat, fill: nat)
    requires st.active
    ensures Eligible(st, chunk, highWm, fill) || Spent(st) || fill >= Target(st, chunk, highWm)
  {}

  // ---- a whole service, seen from all streams ----

  /** The unread bytes of every stream. */
  function Fills(written: seq<nat>, read: seq<nat>): (f: seq<nat>)
    requires |written| == |read|
    ensures |f| == |written|
  {
    seq<nat>(|written|, s requires 0 <= s < |written| == |read| =>
      if read[s] <= written[s] then written[s] - read[s] else 0)
  }

  /** Where stream s will end up. */
  function EndFill(str: seq<Stream>, chunk: nat, highWm: nat, fills: seq<nat>, s: nat): nat
    requires |str| == |fills| && s < |str| && Cursors(str[s])
  {
    Loaded(str[s], chunk, highWm, s, fills[s], BarOf(str, chunk, highWm, fills))
  }

  /** CAN BECOME READY: it is, or it will be served, and its head is no more than
      the fill it ends up with. */
  predicate CanReady(str: seq<Stream>, chunk: nat, highWm: nat, fills: seq<nat>, s: nat)
    requires |str| == |fills|
  {
    && s < |str| && str[s].active && Cursors(str[s])
    && (str[s].primed || Rises(str[s], chunk, highWm, fills[s], EndFill(str, chunk, highWm, fills, s)))
  }

  /** From here to there something is loaded, and the head is complete. */
  predicate Rises(st: Stream, chunk: nat, highWm: nat, fill: nat, end: nat) {
    fill < end && Head(st, Target(st, chunk, highWm)) <= end
  }

  /** The one refill of stream b that a service does when nobody reads. */
  ghost predicate Served(str0: seq<Stream>, fills0: seq<nat>, str1: seq<Stream>, fills1: seq<nat>, chunk: nat,
                         highWm: nat, b: nat) {
    && |str0| == |str1| == |fills0| == |fills1| && b < |str0|
    && Cursors(str0[b]) && fills0[b] <= Target(str0[b], chunk, highWm)
    && var run := RunOf(str0[b], chunk, Target(str0[b], chunk, highWm) - fills0[b]);
    && run > 0
    && str1 == str0[b := AfterRefill(str0[b], run).(primed := str1[b].primed)]
    && fills1 == fills0[b := fills0[b] + run]
    && str1[b].primed == (str0[b].primed || fills1[b] >= Head(str0[b], Target(str0[b], chunk, highWm)))
  }

  lemma ServedClogs(str0: seq<Stream>, fills0: seq<nat>, str1: seq<Stream>, fills1: seq<nat>, chunk: nat,
                    highWm: nat, b: nat, i: nat)
    requires Served(str0, fills0, str1, fills1, chunk, highWm, b) && i < |str0|
    ensures Clogs(str1[i], chunk, highWm, fills1[i]) <==> Clogs(str0[i], chunk, highWm, fills0[i])
    ensures str1[i].active == str0[i].active
  {
    if i == b {
      var t := Target(str0[b], chunk, highWm);
      var run := RunOf(str0[b], chunk, t - fills0[b]);
      RunInside(str0[b], chunk, t - fills0[b]);
      FrameOrMore(run);
      hide RunOf, Clogs;
      ClogsStays(str0[b], str1[b].primed, chunk, highWm, fills0[b], run);
      RefillFields(str0[b], run);
      hide Target;
    }
  }

  /** The low of the served stream: what it was, or raised past the score it had. */
  lemma ServedLow(str0: seq<Stream>, fills0: seq<nat>, str1: seq<Stream>, fills1: seq<nat>, chunk: nat,
                  highWm: nat, b: nat)
    requires Served(str0, fills0, str1, fills1, chunk, highWm, b)
    ensures Cursors(str1[b])
    ensures Low(str0[b], chunk, highWm, fills0[b]) ==
            Min(Score(str0[b], chunk, highWm, fills0[b]), Low(str1[b], chunk, highWm, fills1[b]))
    ensures forall i | 0 <= i < |str0| && i != b :: str1[i] == str0[i] && fills1[i] == fills0[i]
  {
    hide Low, RunOf, AfterRefill, Target, Score, Head;
    RefillAndLow(str0[b], str1[b].primed, chunk, highWm, fills0[b]);
  }

  /** The bar before and after a refill is the same, or the served stream is the
      blocker and has left its lowest score behind. */
  ghost predicate BarMoves(bar0: Bar, bar1: Bar, b: nat, score: nat) {
    bar1 == bar0 || (bar0 == Bar(b, score) && bar1.Bar? && bar1.who == b && bar1.score >= score)
  }

  lemma ServedBar(str0: seq<Stream>, fills0: seq<nat>, str1: seq<Stream>, fills1: seq<nat>, chunk: nat, highWm: nat,
                  b: nat)
    requires Served(str0, fills0, str1, fills1, chunk, highWm, b)
    requires MostUrgent(str0, chunk, highWm, fills0, |str0|, Some(b))
    ensures BarMoves(BarOf(str0, chunk, highWm, fills0), BarOf(str1, chunk, highWm, fills1), b,
                     Score(str0[b], chunk, highWm, fills0[b]))
  {
    forall i | 0 <= i < |str0|
      ensures Clogs(str1[i], chunk, highWm, fills1[i]) <==> Clogs(str0[i], chunk, highWm, fills0[i])
    {
      ServedClogs(str0, fills0, str1, fills1, chunk, highWm, b, i);
    }
    ServedLow(str0, fills0, str1, fills1, chunk, highWm, b);
    var score, low1 := Score(str0[b], chunk, highWm, fills0[b]), Low(str1[b], chunk, highWm, fills1[b]);
    ClogsHaveCursors(str0, chunk, highWm, fills0);
    hide Clogs, Target, Served, Low, Score, Blocker;
    if Clogs(str0[b], chunk, highWm, fills0[b]) && low1 > score {
      forall i | 0 <= i < |str0| && Clogs(str0[i], chunk, highWm, fills0[i])
        ensures Lower(str0, chunk, highWm, fills0, i, b) && Cursors(str1[i]) && Lower(str1, chunk, highWm, fills1, i, b)
      {
        OthersLower(str0, chunk, highWm, fills0, b, i);
      }
      hide Lower, MostUrgent;
      BlockerIs(str0, chunk, highWm, fills0, b);
      BlockerIs(str1, chunk, highWm, fills1, b);
    } else {
      BlockerStays(str0, str1, chunk, highWm, fills0, fills1, |str0|);
    }
  }

  lemma ClogsHaveCursors(str: seq<Stream>, chunk: nat, highWm: nat, fills: seq<nat>)
    requires |str| == |fills|
    ensures forall i | 0 <= i < |str| && Clogs(str[i], chunk, highWm, fills[i]) :: Cursors(str[i])
  {}

  /** CanReady of one stream, the bar given. */
  predicate CanReadyAt(st: Stream, chunk: nat, highWm: nat, i: nat, fill: nat, bar: Bar) {
    && st.active && Cursors(st)
    && (st.primed || Rises(st, chunk, highWm, fill, Loaded(st, chunk, highWm, i, fill, bar)))
  }

  lemma CanReadyIs(str: seq<Stream>, chunk: nat, highWm: nat, fills: seq<nat>, s: nat)
    requires |str| == |fills| && s < |str|
    ensures CanReady(str, chunk, highWm, fills, s) ==
            CanReadyAt(str[s], chunk, highWm, s, fills[s], BarOf(str, chunk, highWm, fills))
  {
    hide Loaded, BarOf;
  }

  /** The stream that was served: its readiness and its end, before and after. */
  lemma ServedOwnEnd(st: Stream, primed: bool, chunk: nat, highWm: nat, i: nat, fill: nat, bar: Bar, bar': Bar,
                     run: nat)
    requires Cursors(st) && fill <= Target(st, chunk, highWm) &&
             run == RunOf(st, chunk, Target(st, chunk, highWm) - fill) > 0
    requires bar' == bar || (bar.Bar? && bar'.Bar? && i == bar.who == bar'.who)
    requires !Done(st, chunk, highWm, i, fill, bar)
    requires primed == (st.primed || fill + run >= Head(st, Target(st, chunk, highWm)))
    ensures CanReadyAt(AfterRefill(st, run).(primed := primed), chunk, highWm, i, fill + run, bar') <==>
            CanReadyAt(st, chunk, highWm, i, fill, bar)
  {
    hide RunOf, Done;
    RefillIsAStep(st, primed, chunk, highWm, i, fill, bar, bar');
    HeadStays(st, primed, chunk, highWm, run);
    LoadedGrows(AfterRefill(st, run).(primed := primed), chunk, highWm, i, fill + run, bar');
    hide AfterRefill, Target, Head, Loaded;
  }

  lemma LoadedGrows(st: Stream, chunk: nat, highWm: nat, i: nat, fill: nat, bar: Bar)
    requires Cursors(st)
    ensures Loaded(st, chunk, highWm, i, fill, bar) >= fill
  {
    hide Done, RunOf, AfterRefill, Target;
  }

  /** One that is held up stays where it is. */
  lemma DoneStays(st: Stream, chunk: nat, highWm: nat, i: nat, fill: nat, bar: Bar)
    requires Cursors(st) && Done(st, chunk, highWm, i, fill, bar)
    ensures Loaded(st, chunk, highWm, i, fill, bar) == fill
  {
    hide Done;
  }

  /** SERVING CHANGES NOBODY'S END: whoever could become ready still can, and
      whoever could not still cannot. */
  lemma ServedKeepsEnds(str0: seq<Stream>, fills0: seq<nat>, str1: seq<Stream>, fills1: seq<nat>, chunk: nat,
                        highWm: nat, b: nat, s: nat)
    requires Served(str0, fills0, str1, fills1, chunk, highWm, b) && s < |str0|
    requires MostUrgent(str0, chunk, highWm, fills0, |str0|, Some(b))
    ensures CanReady(str1, chunk, highWm, fills1, s) <==> CanReady(str0, chunk, highWm, fills0, s)
  {
    ServedBar(str0, fills0, str1, fills1, chunk, highWm, b);
    CanReadyIs(str0, chunk, highWm, fills0, s);
    CanReadyIs(str1, chunk, highWm, fills1, s);
    var st, t := str0[b], Target(str0[b], chunk, highWm);
    var run := RunOf(st, chunk, t - fills0[b]);
    ServedIsNotDone(str0, chunk, highWm, fills0, b);
    var bar0, bar1 := BarOf(str0, chunk, highWm, fills0), BarOf(str1, chunk, highWm, fills1);
    hide RunOf, BarOf, Done, MostUrgent, CanReady, AfterRefill, Target, Head, Loaded, Score;
    if s == b {
      hide CanReadyAt;
      ServedOwnEnd(st, str1[b].primed, chunk, highWm, b, fills0[b], bar0, bar1, run);
    } else if bar1 != bar0 && str0[s].active && Cursors(str0[s]) {
      OthersDone(str0, chunk, highWm, fills0, b, s, bar0);
      OthersDone(str0, chunk, highWm, fills0, b, s, bar1);
      DoneStays(str0[s], chunk, highWm, s, fills0[s], bar0);
      DoneStays(str0[s], chunk, highWm, s, fills0[s], bar1);
    }
  }

  lemma ServedIsNotDone(str: seq<Stream>, chunk: nat, highWm: nat, fills: seq<nat>, b: nat)
    requires |str| == |fills| && MostUrgent(str, chunk, highWm, fills, |str|, Some(b))
    requires Cursors(str[b])
    ensures fills[b] <= Target(str[b], chunk, highWm)
    ensures RunOf(str[b], chunk, Target(str[b], chunk, highWm) - fills[b]) > 0 ==>
              !Done(str[b], chunk, highWm, b, fills[b], BarOf(str, chunk, highWm, fills))
  {
    ServedOutranks(str, chunk, highWm, fills, b);
    EligibleIs(str[b], chunk, highWm, fills[b]);
    var room := Target(str[b], chunk, highWm) - fills[b];
    RunInside(str[b], chunk, room);
    if RunOf(str[b], chunk, room) > 0 {
      FrameOrMore(RunOf(str[b], chunk, room));
    }
    hide RunOf, BarOf, Score, Target, Spent, MostUrgent;
  }

  lemma HeadStays(st: Stream, primed: bool, chunk: nat, highWm: nat, run: nat)
    ensures var after := AfterRefill(st, run).(primed := primed);
            && Head(after, Target(after, chunk, highWm)) == Head(st, Target(st, chunk, highWm))
            && after.active == st.active
  {}

  /** A chosen stream with less than a frame of room is the blocker. */
  lemma StuckIsBlocker(str: seq<Stream>, chunk: nat, highWm: nat, fills: seq<nat>, b: nat)
    requires |str| == |fills| && MostUrgent(str, chunk, highWm, fills, |str|, Some(b))
    requires Target(str[b], chunk, highWm) < fills[b] + FRAME && Cursors(str[b])
    ensures BarOf(str, chunk, highWm, fills) == Bar(b, Score(str[b], chunk, highWm, fills[b]))
  {
    LastBytesClog(str[b], chunk, highWm, fills[b]);
    ClogWants(str[b], chunk, highWm, fills[b]);
    ClogsHaveCursors(str, chunk, highWm, fills);
    hide Clogs, Target, Low, Score, Blocker, MostUrgent;
    forall i | 0 <= i < |str| && Clogs(str[i], chunk, highWm, fills[i])
      ensures Lower(str, chunk, highWm, fills, i, b)
    {
      OthersLower(str, chunk, highWm, fills, b, i);
    }
    BlockerIs(str, chunk, highWm, fills, b);
  }

  /** NOBODY IS SERVED only when everybody is where he ends up. */
  lemma StuckAtTheEnd(str: seq<Stream>, chunk: nat, highWm: nat, fills: seq<nat>, choice: Option<nat>, s: nat)
    requires |str| == |fills| && MostUrgent(str, chunk, highWm, fills, |str|, choice)
    requires choice.Some? ==>
               Target(str[choice.value], chunk, highWm) < fills[choice.value] + FRAME && Cursors(str[choice.value])
    requires s < |str| && str[s].active && Cursors(str[s])
    ensures EndFill(str, chunk, highWm, fills, s) == fills[s]
  {
    var bar := BarOf(str, chunk, highWm, fills);
    if choice == None {
      EligibleUnless(str[s], chunk, highWm, fills[s]);
    } else {
      StuckIsBlocker(str, chunk, highWm, fills, choice.value);
      if s != choice.value {
        OthersDone(str, chunk, highWm, fills, choice.value, s, bar);
      }
    }
    hide BarOf, Score, Loaded, MostUrgent;
    DoneStays(str[s], chunk, highWm, s, fills[s], bar);
  }

  // ---- the usual case, in closed form ----

  predicate Aligned(st: Stream, chunk: nat) {
    && chunk % FRAME == 0 && st.ringSize % FRAME == 0 && 2 * chunk <= st.ringSize && FRAME <= chunk
    && st.filePos <= st.dataBytes && st.filePos % FRAME == 0 && st.dataBytes % FRAME == 0 && st.prio <= 3
  }

  lemma MulMono(a: nat, b: nat, k: nat)
    requires a <= b
    ensures a * k <= b * k
  {}

  /** A CLOG'S LOW, when no target overflows its score, is the score of the bytes
      that do not make a frame: the higher priority holds up the lower ones. */
  lemma {:induction false} LowIsTheResidue(st: Stream, chunk: nat, highWm: nat, fill: nat)
    requires Clogs(st, chunk, highWm, fill) && Fits(st, chunk, highWm) && Rolling(st, chunk)
    ensures Low(st, chunk, highWm, fill) == Residue(st, chunk, highWm, fill) * (st.prio + 1)
    decreases Target(st, chunk, highWm) - fill
  {
    ScoreFits(st, chunk, highWm, fill);
    ClogWants(st, chunk, highWm, fill);
    if Target(st, chunk, highWm) - fill < FRAME {
      hide Target, Low, Fits, Clogs, Rolling, Score;
      ResidueOfLast(Target(st, chunk, highWm) - fill);
    } else {
      var run := RunOf(st, chunk, Target(st, chunk, highWm) - fill);
      ClogRolls(st, chunk, highWm, fill);
      RefillFits(st, chunk, highWm, run);
      ResidueStep(st, chunk, highWm, fill, run);
      hide Target, RunOf, Score, AfterRefill, Fits, Rolling, Clogs, Low, Residue, Eligible;
      LowIsTheResidue(AfterRefill(st, run), chunk, highWm, fill + run);
    }
  }

  lemma ResidueStep(st: Stream, chunk: nat, highWm: nat, fill: nat, run: nat)
    requires fill + run <= Target(st, chunk, highWm) && run % FRAME == 0
    requires Target(AfterRefill(st, run), chunk, highWm) == Target(st, chunk, highWm)
    requires Score(st, chunk, highWm, fill) == (Target(st, chunk, highWm) - fill) * (st.prio + 1)
    ensures Residue(AfterRefill(st, run), chunk, highWm, fill + run) == Residue(st, chunk, highWm, fill)
    ensures var last := Residue(st, chunk, highWm, fill) * (st.prio + 1);
            Min(Score(st, chunk, highWm, fill), last) == last
  {
    var room := Target(st, chunk, highWm) - fill;
    hide Target, Score, AfterRefill;
    TrimLess(room, run);
    MulMono(room % FRAME, room, st.prio + 1);
  }

  lemma ScoreFits(st: Stream, chunk: nat, highWm: nat, fill: nat)
    requires Clogs(st, chunk, highWm, fill) && Fits(st, chunk, highWm)
    ensures Cursors(st) && fill < Target(st, chunk, highWm)
    ensures Score(st, chunk, highWm, fill) == (Target(st, chunk, highWm) - fill) * (st.prio + 1)
  {
    ScoreIsUrgency(st, chunk, highWm, fill);
    hide Target, Score, Fits;
  }

  /** Cursors inside their cycles, with whole frames before the wrap. */
  predicate Rolling(st: Stream, chunk: nat) {
    && Aligned(st, chunk) && st.writePos % FRAME == 0 && st.writePos < st.ringSize
    && (st.looping ==> st.filePos < st.dataBytes)
  }

  /** A clog with a frame of room is refilled, and is one again. */
  lemma ClogRolls(st: Stream, chunk: nat, highWm: nat, fill: nat)
    requires Clogs(st, chunk, highWm, fill) && Rolling(st, chunk) && fill + FRAME <= Target(st, chunk, highWm)
    ensures st.writePos <= st.ringSize && st.filePos <= st.dataBytes
    ensures var run := RunOf(st, chunk, Target(st, chunk, highWm) - fill);
            && 0 < run <= Target(st, chunk, highWm) - fill && run % FRAME == 0
            && Clogs(AfterRefill(st, run), chunk, highWm, fill + run) && Rolling(AfterRefill(st, run), chunk)
            && Low(st, chunk, highWm, fill) ==
               Min(Score(st, chunk, highWm, fill), Low(AfterRefill(st, run), chunk, highWm, fill + run))
  {
    var room := Target(st, chunk, highWm) - fill;
    ClogWants(st, chunk, highWm, fill);
    EligibleIs(st, chunk, highWm, fill);
    hide Target, RunOf, Score, AfterRefill, Aligned, Trim, Clogs, Low, Spent, Eligible;
    var run := RunOf(st, chunk, room);
    RunInside(st, chunk, room);
    FrameLeft(st, chunk, room);
    RefillAligned(st, chunk, run);
    ClogsStays(st, st.primed, chunk, highWm, fill, run);
    RefillFields(st, run);
    RefillAndLow(st, st.primed, chunk, highWm, fill);
    SameFlag(st, run);
  }

  lemma SameFlag(st: Stream, run: nat)
    ensures AfterRefill(st, run).(primed := st.primed) == AfterRefill(st, run)
  {}

  lemma ResidueOfLast(room: nat)
    ensures room < FRAME ==> room % FRAME == room
  {}

  lemma RefillFits(st: Stream, chunk: nat, highWm: nat, run: nat)
    requires Fits(st, chunk, highWm)
    ensures Fits(AfterRefill(st, run), chunk, highWm)
    ensures Target(AfterRefill(st, run), chunk, highWm) == Target(st, chunk, highWm)
    ensures AfterRefill(st, run).prio == st.prio && AfterRefill(st, run).primed == st.primed
  {}

  /** An unaligned target is the high-water mark itself. */
  lemma ClogIsTheMark(st: Stream, chunk: nat, highWm: nat, fill: nat)
    requires Clogs(st, chunk, highWm, fill) && fill % FRAME == 0 && Aligned(st, chunk)
    ensures Residue(st, chunk, highWm, fill) == highWm % FRAME > 0 && st.active
  {
    OddTargetIsTheMark(st, chunk, highWm);
    var t := Target(st, chunk, highWm);
    hide Target, Aligned;
    ModShift(t - fill, FRAME, fill / FRAME);
    assert t - fill + fill / FRAME * FRAME == t;
  }

  lemma OddTargetIsTheMark(st: Stream, chunk: nat, highWm: nat)
    requires Aligned(st, chunk)
    ensures Target(st, chunk, highWm) == highWm || Target(st, chunk, highWm) % FRAME == 0
  {
    AlignedGap(st.ringSize, chunk);
  }

  lemma AlignedGap(n: nat, k: nat)
    requires n % FRAME == 0 && k % FRAME == 0 && k <= n
    ensures (n - k) % FRAME == 0
  {}

  /** A MARK OF WHOLE FRAMES HOLDS NOBODY UP, whatever its scores overflow to. */
  lemma EvenMarkHasNoBar(str: seq<Stream>, chunk: nat, highWm: nat, fills: seq<nat>)
    requires |str| == |fills| && highWm % FRAME == 0
    requires forall i | 0 <= i < |str| && str[i].active && !Spent(str[i]) ::
               Aligned(str[i], chunk) && fills[i] % FRAME == 0
    ensures BarOf(str, chunk, highWm, fills) == NoBar
  {
    var b := Blocker(str, chunk, highWm, fills, |str|);
    if b.Some? {
      ClogWants(str[b.value], chunk, highWm, fills[b.value]);
      EligibleIs(str[b.value], chunk, highWm, fills[b.value]);
      ClogIsTheMark(str[b.value], chunk, highWm, fills[b.value]);
    }
  }

  /** Which holds under any high-water mark below 2^30. */
  lemma SmallMarkFits(st: Stream, chunk: nat, highWm: nat)
    requires 0 < highWm < 0x4000_0000 && st.prio <= 3
    ensures Fits(st, chunk, highWm)
  {
    MarkBounds(st, chunk, highWm);
    hide Target;
    MulMono(st.prio + 1, 4, Target(st, chunk, highWm));
  }

  lemma MarkBounds(st: Stream, chunk: nat, highWm: nat)
    requires highWm > 0
    ensures Target(st, chunk, highWm) <= highWm
  {}

  /** Nobody holds stream i up: there is no blocker, it is the blocker, or even
      its last frame outranks the blocker. */
  predicate Unhindered(st: Stream, chunk: nat, highWm: nat, i: nat, bar: Bar) {
    bar.NoBar? || i == bar.who || (bar.score < FRAME * (st.prio + 1) && Fits(st, chunk, highWm))
  }

  lemma UnhinderedOutranks(st: Stream, chunk: nat, highWm: nat, i: nat, fill: nat, bar: Bar)
    requires Unhindered(st, chunk, highWm, i, bar) && fill + FRAME <= Target(st, chunk, highWm)
    ensures Outranks(i, Score(st, chunk, highWm, fill), bar)
  {
    if bar.Bar? && i != bar.who {
      ScoreIsUrgency(st, chunk, highWm, fill);
      MulMono(FRAME, Target(st, chunk, highWm) - fill, st.prio + 1);
    }
  }

  lemma UnhinderedStays(st: Stream, chunk: nat, highWm: nat, i: nat, bar: Bar, run: nat)
    requires Unhindered(st, chunk, highWm, i, bar)
    ensures Unhindered(AfterRefill(st, run), chunk, highWm, i, bar)
  {
    RefillKeepsTarget(st, chunk, highWm, run);
    hide Target;
  }

  /** READINESS OF AN UNHINDERED STREAM, from any fill: it can become ready exactly
      when a whole frame of room and of source is left, and its head fits what it
      holds and what will be added. */
  lemma UnhinderedReadyIff(st: Stream, chunk: nat, highWm: nat, i: nat, fill: nat, bar: Bar)
    requires st.active && !st.primed && Rolling(st, chunk) && Unhindered(st, chunk, highWm, i, bar)
    ensures CanReadyAt(st, chunk, highWm, i, fill, bar) <==>
            && fill + FRAME <= Target(st, chunk, highWm) && !Spent(st)
            && Head(st, Target(st, chunk, highWm)) <= fill + Portion(st, Target(st, chunk, highWm) - fill)
  {
    hide Unhindered, Target, Head, Loaded;
    if Spent(st) || fill + FRAME > Target(st, chunk, highWm) {
      assert Done(st, chunk, highWm, i, fill, bar);
      DoneStays(st, chunk, highWm, i, fill, bar);
    } else {
      LoadedAlone(st, chunk, highWm, i, fill, bar);
      SomePortion(st, chunk, Target(st, chunk, highWm) - fill);
    }
    hide Portion, Done;
  }

  lemma SomePortion(st: Stream, chunk: nat, room: nat)
    requires Rolling(st, chunk) && !Spent(st) && room >= FRAME
    ensures Portion(st, room) > 0
  {}

  /** READINESS FROM THE CONFIGURATION: a freshly started, unhindered stream can
      become ready exactly when its head fits the whole frames of its target and,
      for a one-shot stream, its data. */
  lemma FreshReadyIff(st: Stream, chunk: nat, highWm: nat, i: nat, bar: Bar)
    requires st.active && !st.primed && st.writePos == st.filePos == 0 && FRAME <= st.dataBytes
    requires Aligned(st, chunk) && Unhindered(st, chunk, highWm, i, bar)
    ensures var head, whole := Head(st, Target(st, chunk, highWm)), Trim(Target(st, chunk, highWm));
            CanReadyAt(st, chunk, highWm, i, 0, bar) <==> head <= if st.looping then whole else Min(whole, st.dataBytes)
  {
    UnhinderedReadyIff(st, chunk, highWm, i, 0, bar);
    HeadPositive(st, chunk, highWm);
    hide Unhindered, Target, Head, CanReadyAt;
  }

  lemma HeadPositive(st: Stream, chunk: nat, highWm: nat)
    requires Aligned(st, chunk)
    ensures Head(st, Target(st, chunk, highWm)) > 0
  {}

  /** What a reader at p has before it of a ring whose writer is at the base. */
  function Behind(p: nat, n: nat): nat { if p == 0 || p > n then 0 else n - p }

  /** WHEN A SEEK COMES BACK. Without a high-water mark, and with the reader
      standing still at p, a looping stream that was started or sought can become
      ready exactly when the reader stands at the ring's base, or past its first
      chunk: what is stale ahead of the reader counts as full. A one-shot stream
      needs its head in that and in what is left of its data, too. */
  lemma BegunReadyIff(st: Stream, chunk: nat, i: nat, p: nat)
    requires st.active && !st.primed && Aligned(st, chunk) && st.writePos == 0 && st.filePos < st.dataBytes
    requires p < st.ringSize && p % FRAME == 0
    ensures CanReadyAt(st, chunk, 0, i, Behind(p, st.ringSize), NoBar) <==>
            && (p == 0 || p >= chunk + FRAME)
            && (st.looping || Head(st, st.ringSize - chunk) <= Behind(p, st.ringSize) + Left(st))
  {
    UnhinderedReadyIff(st, chunk, 0, i, Behind(p, st.ringSize), NoBar);
    FullTarget(st, chunk);
    var t, f := st.ringSize - chunk, Behind(p, st.ringSize);
    BehindAligned(p, st.ringSize, chunk);
    if f + FRAME <= t {
      WholePortion(st, t - f);
    }
    hide Loaded, CanReadyAt, Target, Portion, Head, Aligned;
  }

  lemma BehindAligned(p: nat, n: nat, chunk: nat)
    requires p < n && p % FRAME == 0 && n % FRAME == 0 && chunk % FRAME == 0 && FRAME <= chunk && 2 * chunk <= n
    ensures var f := Behind(p, n);
            && (f + FRAME <= n - chunk <==> p == 0 || p >= chunk + FRAME)
            && (f <= n - chunk ==> (n - chunk - f) % FRAME == 0)
  {}

  lemma WholePortion(st: Stream, room: nat)
    requires room % FRAME == 0 && st.filePos <= st.dataBytes
    ensures Portion(st, room) == if st.looping then room else Min(room, Left(st))
  {}

  lemma FullTarget(st: Stream, chunk: nat)
    requires Aligned(st, chunk)
    ensures Target(st, chunk, 0) == st.ringSize - chunk && (st.ringSize - chunk) % FRAME == 0
    ensures Head(st, st.ringSize - chunk) <= st.ringSize - chunk
  {}

  /** What the source still has for a stream. */
  function Left(st: Stream): nat
    requires st.filePos <= st.dataBytes
  {
    st.dataBytes - st.filePos
  }

  /** AN UNHINDERED STREAM fills to the last whole frame under its target, or to
      the end of its data. */
  lemma {:induction false} LoadedAlone(st: Stream, chunk: nat, highWm: nat, i: nat, fill: nat, bar: Bar)
    requires Cursors(st) && Aligned(st, chunk) && st.writePos % FRAME == 0 && st.writePos < st.ringSize
    requires st.looping ==> st.filePos < st.dataBytes
    requires fill <= Target(st, chunk, highWm) && Unhindered(st, chunk, highWm, i, bar)
    ensures Loaded(st, chunk, highWm, i, fill, bar) == fill + Portion(st, Target(st, chunk, highWm) - fill)
    decreases Target(st, chunk, highWm) - fill
  {
    hide Unhindered, Target, Aligned, RunOf, Outranks, Score, AfterRefill, Portion, Spent;
    var room := Target(st, chunk, highWm) - fill;
    if Spent(st) || room < FRAME {
      NoPortion(st, chunk, room);
      assert Done(st, chunk, highWm, i, fill, bar);
    } else {
      UnhinderedOutranks(st, chunk, highWm, i, fill, bar);
      assert !Done(st, chunk, highWm, i, fill, bar);
      hide Done;
      var run := RunOf(st, chunk, room);
      RunInside(st, chunk, room);
      FrameLeft(st, chunk, room);
      RefillKeepsTarget(st, chunk, highWm, run);
      UnhinderedStays(st, chunk, highWm, i, bar, run);
      RefillAligned(st, chunk, run);
      LoadedAlone(AfterRefill(st, run), chunk, highWm, i, fill + run, bar);
      PortionSplits(st, room, run);
    }
  }

  /** The part of `room` that whole frames of the source fill. */
  function Portion(st: Stream, room: nat): nat
    requires st.filePos <= st.dataBytes
  {
    if st.looping then Trim(room) else Min(Trim(room), Left(st))
  }

  lemma NoPortion(st: Stream, chunk: nat, room: nat)
    requires Cursors(st) && (Spent(st) || room < FRAME)
    ensures Portion(st, room) == 0
  {}

  lemma PortionSplits(st: Stream, room: nat, run: nat)
    requires Cursors(st) && run <= room && run % FRAME == 0 && st.filePos + run <= st.dataBytes
    requires Cursors(AfterRefill(st, run))
    ensures Portion(st, room) == run + Portion(AfterRefill(st, run), room - run)
  {
    TrimLess(room, run);
    hide Trim;
  }

  lemma FrameLeft(st: Stream, chunk: nat, room: nat)
    requires Aligned(st, chunk) && st.writePos % FRAME == 0 && st.writePos < st.ringSize && Cursors(st) && !Spent(st)
    requires (st.looping ==> st.filePos < st.dataBytes) && room >= FRAME
    ensures RunOf(st, chunk, room) > 0
  {
    FrameBefore(st.writePos, st.ringSize);
    FrameBefore(st.filePos, st.dataBytes);
    RunFits(st, chunk, room);
    hide RunOf;
  }

  lemma RefillAligned(st: Stream, chunk: nat, run: nat)
    requires Aligned(st, chunk) && st.writePos % FRAME == 0 && run % FRAME == 0
    requires st.writePos + run <= st.ringSize && st.filePos + run <= st.dataBytes &&
             (st.looping ==> st.filePos < st.dataBytes)
    ensures var after := AfterRefill(st, run);
            && Aligned(after, chunk) && after.writePos % FRAME == 0 && after.writePos < after.ringSize && Cursors(after)
            && after.looping == st.looping && (after.looping ==> after.filePos < after.dataBytes)
            && (!st.looping ==> Left(after) == Left(st) - run)
  {
    WrapAligned(st.writePos, st.ringSize, run);
    WrapAligned(st.filePos, st.dataBytes, run);
    hide Trim;
  }

  /** A cursor moves by whole frames, and wraps at the end. */
  lemma WrapAligned(p: nat, n: nat, run: nat)
    requires p % FRAME == 0 && n % FRAME == 0 && run % FRAME == 0 && p + run <= n
    ensures (p + run) % FRAME == 0
    ensures p < n && p + run >= n ==> p + run - n == 0
  {}

  /** Of two streams, a clog whose low the other's does not beat is the bar. */
  lemma BarOfTwo(st0: Stream, st1: Stream, chunk: nat, highWm: nat, fill0: nat, fill1: nat)
    requires Clogs(st0, chunk, highWm, fill0)
    requires Clogs(st1, chunk, highWm, fill1) ==>
               Low(st1, chunk, highWm, fill1) <= Low(st0, chunk, highWm, fill0)
    ensures BarOf([st0, st1], chunk, highWm, [fill0, fill1]) == Bar(0, Low(st0, chunk, highWm, fill0))
  {
    var str, fills := [st0, st1], [fill0, fill1];
    ClogsHaveCursors(str, chunk, highWm, fills);
    hide Clogs, Low;
    BlockerIs(str, chunk, highWm, fills, 0);
  }

  lemma OddMarkEnds()
    ensures var clog := Stream(0, 24, 0, 64, 0, 16, 16, true, true, false, 3);
            Clogs(clog, 4, 18, 16) && Low(clog, 4, 18, 16) == 8
    ensures var other := Stream(24, 8, 0, 64, 0, 0, 0, true, true, false, 0);
            && !Clogs(other, 4, 18, 0) && Score(other, 4, 18, 0) == 4 == Target(other, 4, 18) == Head(other, 4)
            && Aligned(other, 4)
  {}

  /** AN ODD MARK HOLDS UP OTHERS TOO: a stream that would be ready on its own is
      never served behind a clogged one of higher priority. */
  lemma OddMarkBlocksOthers()
    ensures var clog := Stream(0, 24, 0, 64, 0, 16, 16, true, true, false, 3);
            var other := Stream(24, 8, 0, 64, 0, 0, 0, true, true, false, 0);
            && BarOf([clog, other], 4, 18, [16, 0]) == Bar(0, 8)
            && !CanReady([clog, other], 4, 18, [16, 0], 1)
            && Loaded(other, 4, 18, 1, 0, NoBar) == 4 == Head(other, Target(other, 4, 18))
  {
    var clog := Stream(0, 24, 0, 64, 0, 16, 16, true, true, false, 3);
    var other := Stream(24, 8, 0, 64, 0, 0, 0, true, true, false, 0);
    var str, fills := [clog, other], [16, 0];
    OddMarkEnds();
    LoadedAlone(other, 4, 18, 1, 0, NoBar);
    CanReadyIs(str, 4, 18, fills, 1);
    assert Done(other, 4, 18, 1, 0, Bar(0, 8));
    hide Low, Score, Target, Head, CanReady, Aligned, Done, BarOf, Clogs;
    BarOfTwo(clog, other, 4, 18, 16, 0);
  }

  /** A full ring but for one byte, and an empty one whose score overflows to the same. */
  const FULL: Stream := Stream(0, 0x4000_0008, 0, 64, 0, 0x4000_0000, 0, true, true, true, 3)
  const EMPTY: Stream := Stream(0x4000_0008, 0x4000_0008, 0, 64, 64, 0, 0, true, true, false, 3)

  lemma OverflowScores()
    ensures Clogs(FULL, 4, 0x4000_0001, 0x4000_0000) && Low(FULL, 4, 0x4000_0001, 0x4000_0000) == 4
    ensures Target(EMPTY, 4, 0x4000_0001) == 0x4000_0001 && Head(EMPTY, 0x4000_0001) == 64
    ensures Score(EMPTY, 4, 0x4000_0001, 0) == 4 && Urgency(EMPTY, 4, 0x4000_0001, 0) == 0x1_0000_0004
    ensures EMPTY.active && !EMPTY.primed && EMPTY.looping && EMPTY.filePos == EMPTY.writePos == 0 &&
            EMPTY.dataBytes == 64
    ensures Aligned(EMPTY, 4) && EMPTY.ringSize == 0x4000_0008
  {
    DivModUnique(0x1_0000_0004, U32, 1, 4);
  }

  lemma OverflowBar()
    ensures BarOf([FULL, EMPTY], 4, 0x4000_0001, [0x4000_0000, 0]) == Bar(0, 4)
  {
    OverflowScores();
    hide Score, Low, Target, Clogs, BarOf, FULL, EMPTY;
    if Clogs(EMPTY, 4, 0x4000_0001, 0) {
      ClogWants(EMPTY, 4, 0x4000_0001, 0);
    }
    BarOfTwo(FULL, EMPTY, 4, 0x4000_0001, 0x4000_0000, 0);
  }

  lemma OverflowEnds()
    ensures Loaded(EMPTY, 4, 0x4000_0001, 1, 0, Bar(0, 4)) == 0
    ensures Loaded(EMPTY, 4, 0x4000_0001, 1, 0, NoBar) == 0x4000_0000
    ensures !CanReadyAt(EMPTY, 4, 0x4000_0001, 1, 0, Bar(0, 4))
  {
    OverflowScores();
    hide Score, Target, Head, FULL, EMPTY, Aligned;
    assert Done(EMPTY, 4, 0x4000_0001, 1, 0, Bar(0, 4));
    hide Done;
    DoneStays(EMPTY, 4, 0x4000_0001, 1, 0, Bar(0, 4));
    LoadedAlone(EMPTY, 4, 0x4000_0001, 1, 0, NoBar);
    hide Loaded;
  }

  /** AN OVERFLOWING SCORE STARVES AN EMPTY RING: at an odd mark of 2^30 or more an
      empty ring can score as little as one that lacks a byte, and is never served. */
  lemma OverflowStarves()
    ensures Urgency(EMPTY, 4, 0x4000_0001, 0) > Urgency(FULL, 4, 0x4000_0001, 0x4000_0000)
    ensures !CanReady([FULL, EMPTY], 4, 0x4000_0001, [0x4000_0000, 0], 1)
    ensures Loaded(EMPTY, 4, 0x4000_0001, 1, 0, NoBar) > Head(EMPTY, Target(EMPTY, 4, 0x4000_0001))
  {
    OverflowScores();
    OverflowBar();
    OverflowEnds();
    CanReadyIs([FULL, EMPTY], 4, 0x4000_0001, [0x4000_0000, 0], 1);
    hide Score, Low, Target, Clogs, BarOf, CanReady, CanReadyAt, Loaded, Head;
  }
}
