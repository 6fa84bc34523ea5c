// Whole histories of pool calls: what a client reads back is what was last
// written since the object was allocated. engine/audio/audio_pool.c.
module PoolRuns {
  import opened Arith
  import opened PoolChains
  import opened AudioPool

  /** What a call did: an object was made, with the bytes its blocks held; a
      reference was taken or dropped; bytes were written. A call that was
      refused, or one that only looks, is Nothing. */
  datatype Event = Made(slot: nat, live: Live) | Reffed(h: nat) | Unreffed(h: nat) | Wrote(h: nat, w: Stored) | Nothing

  /** Every slot as clients see it after the event; a stale handle does nothing. */
  function Next(vs: seq<Option<Live>>, e: Event): (r: seq<Option<Live>>)
    ensures |r| == |vs|
  {
    match e
    case Made(slot, live) => if slot < |vs| && vs[slot] == None then vs[slot := Some(live)] else vs
    case Reffed(h) =>
      (match ResolvedIn(vs, h)
       case None => vs
       case Some(s) => vs[s := Some(vs[s].value.(refs := vs[s].value.refs + 1))])
    case Unreffed(h) =>
      (match ResolvedIn(vs, h)
       case None => vs
       case Some(s) =>
         vs[s := if vs[s].value.refs == 1 then None else Some(vs[s].value.(refs := vs[s].value.refs - 1))])
    case Wrote(h, w) =>
      (match ResolvedIn(vs, h)
       case None => vs
       case Some(s) => vs[s := Some(vs[s].value.(bytes := AfterWrite(vs[s].value.bytes, w)))])
    case Nothing => vs
  }

  function Run(es: seq<Event>): (r: seq<Option<Live>>)
    ensures |r| == MAX_OBJECTS
  {
    if es == [] then seq(MAX_OBJECTS, s => None) else Next(Run(es[..|es| - 1]), es[|es| - 1])
  }

  // ---- the simple picture: one list of writes per live object ----

  /** An object's bytes when it was made, and the writes to it since. */
  datatype Story = Story(found: seq<Byte>, writes: seq<Stored>)

  /** The story of the object in slot s goes on: it begins with an allocation
      there and ends with the last reference. */
  function StoryNext(story: Option<Story>, vs: seq<Option<Live>>, e: Event, s: nat): Option<Story>
    requires s < |vs|
  {
    match e
    case Made(slot, live) => if slot == s && vs[s] == None then Some(Story(live.bytes, [])) else story
    case Unreffed(h) => if ResolvedIn(vs, h) == Some(s) && vs[s].value.refs == 1 then None else story
    case Wrote(h, w) =>
      if ResolvedIn(vs, h) == Some(s) &&
         story.Some? then Some(Story(story.value.found, story.value.writes + [w])) else story
    case _ => story
  }

  function StoryOf(es: seq<Event>, s: nat): Option<Story>
    requires s < MAX_OBJECTS
  {
    if es == [] then None
    else StoryNext(StoryOf(es[..|es| - 1], s), Run(es[..|es| - 1]), es[|es| - 1], s)
  }

  ghost predicate Tells(story: Option<Story>, v: Option<Live>) {
    && (v.Some? <==> story.Some?)
    && (story.Some? ==> v.value.bytes == AfterWrites(story.value.found, story.value.writes))
  }

  /** A slot's contents are those its story gives, whatever happened to the others. */
  lemma {:induction false} BytesAreTheStory(es: seq<Event>, s: nat)
    requires s < MAX_OBJECTS
    ensures Tells(StoryOf(es, s), Run(es)[s])
    decreases |es|
  {
    hide Tells, StoryNext, Next;
    if es == [] {
      NothingTold();
    } else {
      BytesAreTheStory(es[..|es| - 1], s);
      StoryStep(StoryOf(es[..|es| - 1], s), Run(es[..|es| - 1]), es[|es| - 1], s);
    }
  }

  lemma NothingTold()
    ensures Tells(None, None)
  {}

  lemma StoryStep(story: Option<Story>, vs: seq<Option<Live>>, e: Event, s: nat)
    requires s < |vs| && Tells(story, vs[s])
    ensures Tells(StoryNext(story, vs, e, s), Next(vs, e)[s])
  {
    hide AfterWrite, ResolvedIn;
    match e
    case Made(slot, live) => NoneYet(live.bytes);
    case Wrote(h, w) =>
      if story.Some? {
        OneMore(story.value.found, story.value.writes, w);
      }
    case _ =>
  }

  lemma OneMore(found: seq<Byte>, ws: seq<Stored>, w: Stored)
    ensures AfterWrites(found, ws + [w]) == AfterWrite(AfterWrites(found, ws), w)
  {
    assert (ws + [w])[..|ws + [w]| - 1] == ws;
  }

  lemma NoneYet(found: seq<Byte>)
    ensures AfterWrites(found, []) == found
  {}

  /** THE LATEST WRITE SINCE THE ALLOCATION, after any history at all: byte i of
      the object in slot s is the one the last write over it put there, or the
      one its blocks held when it was made. */
  lemma ByteIsLatest(es: seq<Event>, s: nat, i: nat)
    requires s < MAX_OBJECTS && Run(es)[s].Some? && i < |Run(es)[s].value.bytes|
    ensures StoryOf(es, s).Some? && |StoryOf(es, s).value.found| == |Run(es)[s].value.bytes|
    ensures Run(es)[s].value.bytes[i] ==
            match LatestOver(StoryOf(es, s).value.writes, i)
            case Some(b) => b
            case None => StoryOf(es, s).value.found[i]
  {
    BytesAreTheStory(es, s);
    LatestWriteWins(StoryOf(es, s).value.found, StoryOf(es, s).value.writes, i);
  }

  // ---- handles ----

  /** The handle an event gives out. */
  function HandleOf(e: Event): nat { if e.Made? then PackHandle(e.slot, e.live.gen) else 0 }

  /** An object keeps its slot and its generation while it lives, so the handle
      its allocation gave out names it, and nothing else, until its last reference. */
  lemma {:induction false} HandleNamesItsObject(es: seq<Event>, k: nat)
    requires k < |es| && es[k].Made? && es[k].slot < MAX_OBJECTS && 1 <= es[k].live.gen < 0x1_0000
    requires Run(es[..k])[es[k].slot] == None
    requires forall j | k < j <= |es| :: Run(es[..j])[es[k].slot].Some?
    ensures ResolvedIn(Run(es), HandleOf(es[k])) == Some(es[k].slot)
    ensures Run(es)[es[k].slot].Some? && Run(es)[es[k].slot].value.gen == es[k].live.gen
    decreases |es|
  {
    hide Next, ResolvedIn, PackHandle;
    var n, s := |es| - 1, es[k].slot;
    assert es[..|es|] == es;
    if k == n {
      MadeShows(Run(es[..n]), es[k]);
    } else {
      forall j | k < j <= n
        ensures Run(es[..n][..j])[s].Some?
      {
        assert es[..n][..j] == es[..j];
      }
      assert es[..n][..k] == es[..k];
      HandleNamesItsObject(es[..n], k);
      assert Run(es)[s].Some?;
      GenerationStays(Run(es[..n]), es[n], s);
    }
    NamedBy(Run(es), s, es[k].live.gen);
  }

  lemma MadeShows(vs: seq<Option<Live>>, e: Event)
    requires e.Made? && e.slot < |vs| && vs[e.slot] == None
    ensures Next(vs, e)[e.slot] == Some(e.live)
  {}

  lemma NamedBy(vs: seq<Option<Live>>, s: nat, gen: nat)
    requires s < MAX_OBJECTS == |vs| && gen < 0x1_0000 && vs[s].Some? && vs[s].value.gen == gen
    ensures ResolvedIn(vs, PackHandle(s, gen)) == Some(s)
  {
    HandleRoundTrip(s, gen);
    hide PackHandle;
  }

  lemma GenerationStays(vs: seq<Option<Live>>, e: Event, s: nat)
    requires s < |vs| && vs[s].Some? && Next(vs, e)[s].Some?
    ensures Next(vs, e)[s].value.gen == vs[s].value.gen
  {}

  // ---- the pool itself does this ----

  datatype Call =
    | Alloc(size: nat, vm: nat, rate: nat)
    | Ref(h: nat)
    | Unref(h: nat)
    | Write(h: nat, offset: nat, data: seq<Byte>)

  /** A client decides each call from the handles it was given so far, one for
      each earlier call; 0 where none was. */
  type Client = seq<nat> -> Call

  /** The event a call may turn into, and the handle it gives out. */
  ghost predicate Answers(c: Call, before: seq<Option<Live>>, e: Event, h: nat) {
    && h == HandleOf(e)
    && match c
       case Alloc(size, vm, rate) =>
         e == Nothing ||
         (e.Made? && e.live == Live(e.live.gen, 1, size, vm, rate, e.live.bytes)
          && e.slot < MAX_OBJECTS && e.slot < |before| && before[e.slot] == None && 1 <= e.live.gen < 0x1_0000)
       case Ref(h) => e == Reffed(h)
       case Unref(h) => e == Unreffed(h)
       case Write(h, offset, data) => e == Wrote(h, Stored(offset, data))
  }

  predicate Callable(c: Call) { c.Alloc? ==> c.size < 0x1_0000_0000 }

  lemma ResolvesInView(pool: Pool, h: nat)
    requires pool.Valid()
    ensures pool.Shape() && ResolvedIn(pool.Views(), h) == pool.Resolved(h)
  {}

  /** A client's call, one of the four that change something. */
  method Serve(pool: Pool, c: Call) returns (h: nat, ghost e: Event)
    requires pool.Valid() && Callable(c)
    modifies pool`freeBlocks, pool`chains, pool.used, pool.used.words, pool.owner, pool.next, pool.objects,
             pool.generations, pool.region
    ensures pool.Valid() && Answers(c, old(pool.Views()), e, h)
    ensures pool.Views() == Next(old(pool.Views()), e)
  {
    hide Pool.Valid, Pool.View, ResolvedIn, Pool.Resolved, Written, Reach;
    h := 0;
    match c {
      case Alloc(size, vm, rate) =>
        h, e := ServeAlloc(pool, size, vm, rate);
      case Ref(o) =>
        ResolvesInView(pool, o);
        var res := pool.Ref(o);
        e := Reffed(o);
      case Unref(o) =>
        ResolvesInView(pool, o);
        var res, freed := pool.Unref(o);
        e := Unreffed(o);
      case Write(o, offset, data) =>
        ResolvesInView(pool, o);
        var res, n := pool.Write(o, offset, data, |data|);
        e := Wrote(o, Stored(offset, data));
    }
  }

  lemma ValidSizes(pool: Pool)
    requires pool.Valid()
    ensures pool.Shape() && pool.generations.Length == MAX_OBJECTS
    ensures forall s | 0 <= s < MAX_OBJECTS :: 1 <= pool.generations[s] < 0x1_0000
    ensures forall s | 0 <= s < MAX_OBJECTS && pool.Views()[s].Some? ::
              pool.Views()[s].value.gen == pool.generations[s]
  {}

  /** A client allocates. */
  method ServeAlloc(pool: Pool, size: nat, vm: nat, rate: nat) returns (h: nat, ghost e: Event)
    requires pool.Valid() && size < 0x1_0000_0000
    modifies pool`freeBlocks, pool`chains, pool.used, pool.used.words, pool.owner, pool.next, pool.objects
    ensures pool.Valid() && Answers(Alloc(size, vm, rate), old(pool.Views()), e, h)
    ensures pool.Views() == Next(old(pool.Views()), e)
  {
    hide Pool.Valid, Pool.View, ResolvedIn;
    ValidSizes(pool);
    var res;
    res, h := pool.Alloc(size, vm, rate);
    ValidSizes(pool);
    e := Nothing;
    if res == Ok {
      ghost var slot :| 0 <= slot < MAX_OBJECTS &&
                Allocated(slot, old(pool.Views()), pool.Views(), size, vm, rate, pool.generations[slot], h);
      e := Made(slot, pool.Views()[slot].value);
    }
  }

  /** A session: what each call turned into, and the handles given out. */
  ghost predicate Session(client: Client, es: seq<Event>, handles: seq<nat>) {
    && |es| == |handles|
    && forall i | 0 <= i < |es| :: Answers(client(handles[..i]), Run(es[..i]), es[i], handles[i])
  }

  /** Any number of calls of any client on a pool without objects are a run. */
  method ServeAll(pool: Pool, client: Client, n: nat) returns (handles: seq<nat>, ghost es: seq<Event>)
    requires pool.Valid() && pool.Views() == Run([])
    requires forall hs: seq<nat> :: Callable(client(hs))
    modifies pool`freeBlocks, pool`chains, pool.used, pool.used.words, pool.owner, pool.next, pool.objects,
             pool.generations, pool.region
    ensures pool.Valid() && pool.Views() == Run(es) && |es| == n && Session(client, es, handles)
  {
    hide Pool.Valid, Next, Run, Answers;
    ValidSizes(pool);
    es, handles := [], [];
    for i := 0 to n
      invariant pool.Valid() && pool.Shape() && pool.Views() == Run(es)
      invariant |es| == i && Session(client, es, handles)
    {
      ghost var e: Event;
      var h: nat;
      assert Callable(client(handles));
      h, e := Serve(pool, client(handles));
      ValidSizes(pool);
      RunMore(es, e);
      SessionMore(client, es, handles, e, h);
      es, handles := es + [e], handles + [h];
    }
  }

  lemma SessionMore(client: Client, es: seq<Event>, handles: seq<nat>, e: Event, h: nat)
    requires Session(client, es, handles) && Answers(client(handles), Run(es), e, h)
    ensures Session(client, es + [e], handles + [h])
  {
    hide Answers;
    forall i | 0 <= i < |es| + 1
      ensures Answers(client((handles + [h])[..i]), Run((es + [e])[..i]), (es + [e])[i], (handles + [h])[i])
    {
      assert (handles + [h])[..i] == handles[..i] && (es + [e])[..i] == es[..i];
      if i == |es| {
        assert handles[..i] == handles && es[..i] == es;
      }
    }
  }

  lemma RunMore(es: seq<Event>, e: Event)
    ensures Run(es + [e]) == Next(Run(es), e)
  {
    assert (es + [e])[..|es + [e]| - 1] == es;
  }

  /** In a session the handle of a successful allocation names its object for as
      long as the object lives. */
  lemma SessionHandle(client: Client, es: seq<Event>, handles: seq<nat>, k: nat)
    requires Session(client, es, handles) && k < |es| && es[k].Made?
    ensures es[k].slot < MAX_OBJECTS && handles[k] == HandleOf(es[k])
    ensures (forall j | k < j <= |es| :: Run(es[..j])[es[k].slot].Some?) ==>
              ResolvedIn(Run(es), handles[k]) == Some(es[k].slot)
  {
    hide ResolvedIn, Run;
    assert Answers(client(handles[..k]), Run(es[..k]), es[k], handles[k]);
    if forall j | k < j <= |es| :: Run(es[..j])[es[k].slot].Some? {
      HandleNamesItsObject(es, k);
    }
  }

  /** THE COUNT FITS its signed 32 bits in every session of fewer than 2^31 calls:
      a live object has at least one reference and no more than calls were made. */
  lemma {:induction false} CountsFit(client: Client, es: seq<Event>, handles: seq<nat>, s: nat)
    requires Session(client, es, handles) && s < MAX_OBJECTS
    ensures Run(es)[s].Some? ==> 1 <= Run(es)[s].value.refs <= |es|
    decreases |es|
  {
    hide Next, ResolvedIn;
    if es == [] {
    } else {
      var n := |es| - 1;
      SessionLess(client, es, handles);
      CountsFit(client, es[..n], handles[..n], s);
      CountMoves(client(handles[..n]), Run(es[..n]), es[n], handles[n], s);
    }
  }

  lemma SessionLess(client: Client, es: seq<Event>, handles: seq<nat>)
    requires Session(client, es, handles) && es != []
    ensures var n := |es| - 1;
            && |handles| == |es| && Session(client, es[..n], handles[..n])
            && Answers(client(handles[..n]), Run(es[..n]), es[n], handles[n])
  {
    hide Answers, Run;
    var n := |es| - 1;
    forall i | 0 <= i < n
      ensures Answers(client(handles[..n][..i]), Run(es[..n][..i]), es[..n][i], handles[..n][i])
    {
      assert handles[..n][..i] == handles[..i] && es[..n][..i] == es[..i];
    }
  }

  lemma CountMoves(c: Call, before: seq<Option<Live>>, e: Event, h: nat, s: nat)
    requires Answers(c, before, e, h) && s < |before| == MAX_OBJECTS
    requires before[s].Some? ==> 1 <= before[s].value.refs
    ensures Next(before, e)[s].Some? ==>
              1 <= Next(before, e)[s].value.refs <= if before[s].Some? then before[s].value.refs + 1 else 1
  {
    hide ResolvedIn, AfterWrite;
  }

  /** END TO END: after any session of any client on a fresh pool, a read through
      any handle the client picks delivers, if it still names an object, byte by
      byte the latest write since that object was allocated. */
  method ReadAfterAll(pool: Pool, client: Client, n: nat, pick: seq<nat> -> nat, offset: nat, dst: array<Byte>, m: nat)
    returns (handles: seq<nat>, ghost es: seq<Event>, res: PoolResult, copied: nat)
    requires pool.Valid() && pool.Views() == Run([])
    requires forall hs: seq<nat> :: Callable(client(hs))
    requires m <= dst.Length
    requires dst as object !in {pool.region as object, pool.owner, pool.next, pool.objects, pool.generations,
                                pool.used.words}
    modifies pool`freeBlocks, pool`chains, pool.used, pool.used.words, pool.owner, pool.next, pool.objects,
             pool.generations, pool.region
    modifies dst
    ensures |es| == n && Session(client, es, handles)
    ensures res == if ResolvedIn(Run(es), pick(handles)) == None then BadHandle else Ok
    ensures res == Ok ==>
              var s := ResolvedIn(Run(es), pick(handles)).value;
              && s < MAX_OBJECTS && StoryOf(es, s).Some?
              && var story := StoryOf(es, s).value;
              && copied == Reach(story.found, offset, m) <= dst.Length
              && forall k | 0 <= k < copied ::
                   dst[k] ==
                     match LatestOver(story.writes, offset + k) case Some(b) => b case None => story.found[offset + k]
  {
    hide Pool.Valid, Next, Run, Session, StoryOf, Pool.Views, ResolvedIn, LatestOver, Pool.Bytes;
    handles, es := ServeAll(pool, client, n);
    var h := pick(handles);
    ResolvesInView(pool, h);
    res, copied := pool.Read(h, offset, dst, m);
    if res == Ok {
      ghost var s := ResolvedIn(Run(es), h).value;
      BytesInView(pool, s);
      BytesAreTheStory(es, s);
      forall k | 0 <= k < copied
        ensures dst[k] == match LatestOver(StoryOf(es, s).value.writes, offset + k)
                          case Some(b) => b
                          case None => StoryOf(es, s).value.found[offset + k]
      {
        ByteIsLatest(es, s, offset + k);
        assert dst[k] == dst[..copied][k];
      }
    }
  }

  lemma BytesInView(pool: Pool, s: nat)
    requires pool.Shape() && s < MAX_OBJECTS && pool.Views()[s].Some?
    ensures pool.Views()[s].value.bytes == pool.Bytes(s)
  {}
}
