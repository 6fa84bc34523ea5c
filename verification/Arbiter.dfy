// The voice arbiter over the audio pool. engine/audio/audio_arbiter.c.
module VoiceArbiter {
  import opened Arith
  import opened AudioPool
  import opened PoolChains
  import opened Voices

  datatype ArbResult = Done | Rejected | BadObject | BadVoice

  /** What reap frees: finished one-shots. */
  function AfterReap(tracks: seq<Track>, done: seq<bool>, n: nat): (r: seq<Track>)
    requires |done| == |tracks|
    ensures |r| == |tracks|
  {
    seq(|tracks|, t requires 0 <= t < |tracks| =>
      if t < n && tracks[t].active && tracks[t].kind == Sfx && done[t] then NO_TRACK else tracks[t])
  }

  /** What a dying VM's sweep frees: everything it started. */
  function AfterSweep(tracks: seq<Track>, vm: nat, n: nat): (r: seq<Track>)
    ensures |r| == |tracks|
  {
    seq(|tracks|, t requires 0 <= t < |tracks| =>
      if t < n && tracks[t].active && tracks[t].vm == vm then NO_TRACK else tracks[t])
  }

  /** All references of a pool nobody plays from yet. */
  ghost function ClientRefs(vs: seq<Option<Live>>): (c: seq<nat>)
    ensures |c| == |vs|
  {
    seq<nat>(|vs|, s requires 0 <= s < |vs| => if vs[s].Some? && vs[s].value.refs > 0 then vs[s].value.refs else 0)
  }

  /** audio_arbiter_init: no tracks is refused. */
  method Init(count: nat, pool: Pool) returns (ok: bool, a: Option<Arbiter>)
    requires pool.Valid()
    ensures ok == a.Some? == (count > 0)
    ensures ok ==>
              && a.value.Valid() && fresh(a.value) && a.value.pool == pool
              && a.value.trackCount == Min(count, MAX_TRACKS) && a.value.activeCount == 0
              && forall t | 0 <= t < a.value.trackCount :: a.value.tracks[t] == NO_TRACK
  {
    hide Pool.Valid, Balanced;
    if count == 0 {
      return false, None;
    }
    var arbiter := new Arbiter(count, pool);
    return true, Some(arbiter);
  }

  class Arbiter {
    const pool: Pool
    const trackCount: nat
    var tracks: seq<Track>
    var generations: seq<nat>
    var activeCount: nat
    /** What the playback sink was told: the tracks started and not stopped. */
    var sounding: seq<bool>
    /** References clients took and have not dropped, per pool slot. */
    ghost var clients: seq<nat>
    /** Plays that have ended on each track. */
    ghost var ended: seq<nat>

    ghost predicate Tracks()
      reads this
    {
      |tracks| == trackCount && TracksOk(tracks, generations, sounding, ended, activeCount)
    }

    ghost predicate Valid()
      reads this, pool, pool.used, pool.used.words, pool.owner, pool.next, pool.objects, pool.generations, pool.region
    {
      && Tracks() && pool.Valid()
      && Balanced(pool.Views(), tracks, clients)
    }

    /** The track count is clamped. References that already exist
        in the pool are its clients'. */
    constructor (count: nat, pool: Pool)
      requires count > 0 && pool.Valid()
      ensures Valid() && this.pool == pool && trackCount == if count > MAX_TRACKS then MAX_TRACKS else count
      ensures activeCount == 0 && forall t | 0 <= t < trackCount :: tracks[t] == NO_TRACK
    {
      var n := if count > MAX_TRACKS then MAX_TRACKS else count;
      this.pool := pool;
      trackCount := n;
      tracks := seq(n, t => NO_TRACK);
      generations := seq(n, t => 1);
      sounding := seq(n, t => false);
      activeCount := 0;
      clients := ClientRefs(pool.Views());
      ended := seq(n, t => 0);
      new;
      hide Playing, CountActive, Pool.Valid;
      forall s | 0 <= s < MAX_OBJECTS
        ensures SlotBalances(pool.Views()[s], clients[s], Playing(tracks, s))
      {
        NonePlay(tracks, s);
      }
      NonePlay(tracks, 0);
    }

    /** find_free_track. */
    method FindFreeTrack() returns (r: Option<nat>)
      requires |tracks| == trackCount
      ensures r == None ==> forall t | 0 <= t < trackCount :: tracks[t].active
      ensures r.Some? ==>
                r.value < trackCount && !tracks[r.value].active && forall t | 0 <= t < r.value :: tracks[t].active
    {
      var t := 0;
      while t < trackCount
        invariant 0 <= t <= trackCount && forall k | 0 <= k < t :: tracks[k].active
      {
        if !tracks[t].active { return Some(t); }
        t := t + 1;
      }
      return None;
    }

    lemma Sizes()
      requires Valid()
      ensures 1 <= |tracks| == |generations| == |sounding| == |ended| == trackCount <= MAX_TRACKS
      ensures pool.Shape() && |clients| == MAX_OBJECTS
    {}

    lemma PoolResolves(h: nat)
      requires pool.Valid()
      ensures pool.Shape() && pool.Resolved(h) == ResolvedIn(pool.Views(), h)
    {}

    /** Write a claimed track: the common tail of both plays. */
    method Claim(track: nat, obj: nat, kind: Kind, vm: nat) returns (voice: nat)
      requires Tracks() && track < trackCount && !tracks[track].active
      modifies this`tracks, this`activeCount, this`sounding
      ensures Tracks() && activeCount == old(activeCount) + 1
      ensures tracks == old(tracks)[track := Track(true, obj, kind, vm, generations[track])]
      ensures voice == VoiceHandle(track, ended[track])
    {
      hide TracksOk;
      TracksFacts(tracks, generations, sounding, ended, activeCount, track);
      var t := Track(true, obj, kind, vm, generations[track]);
      ClaimKeepsTracks(tracks, generations, sounding, ended, activeCount, track, t);
      sounding := sounding[track := true];
      tracks := tracks[track := t];
      activeCount := activeCount + 1;
      return PackHandle(track, generations[track]);
    }

    /** audio_arbiter_play; `starts` is what the sink answers. */
    method Play(obj: nat, kind: Kind, vm: nat, starts: bool) returns (res: ArbResult, voice: nat)
      requires Valid()
      modifies this`tracks, this`activeCount, this`sounding, pool.objects, pool`freeBlocks, pool`chains, pool.used,
               pool.used.words, pool.owner, pool.next, pool.generations
      ensures Valid()
      ensures res == if old(pool.Resolved(obj)) == None then BadObject
                     else if !starts || (forall t | 0 <= t < trackCount :: old(tracks)[t].active) then Rejected
                     else Done
      ensures res != Done ==> voice == 0 && tracks == old(tracks) && pool.Views() == old(pool.Views())
      ensures res == Done ==>
                exists track :: 0 <= track < trackCount && Started(track, old(tracks), tracks)
                  && tracks[track] == Track(true, obj, kind, vm, generations[track])
                  && voice == VoiceHandle(track, ended[track])
      ensures res == Done ==> Referenced(old(pool.Resolved(obj)).value, old(pool.Views()), pool.Views(), 1)
    {
      hide TracksOk, Playing, Balanced, Pool.Valid, Pool.Resolved, Pool.Views, Pool.Shape;
      Sizes();
      PoolResolves(obj);
      ghost var vs0 := pool.Views();
      var valid := pool.Resolve(obj);
      if valid == None { return BadObject, 0; }
      var found := FindFreeTrack();
      if found == None { return Rejected, 0; }
      var track := found.value;
      var taken := pool.Ref(obj);
      if !starts {
        ghost var vs1 := pool.Views();
        PoolResolves(obj);
        var back, freed := pool.Unref(obj);
        PoolResolves(obj);
        RefThenDrop(vs0, vs1, pool.Views(), valid.value, tracks, clients);
        return Rejected, 0;
      }
      StartKeepsBalance(vs0, pool.Views(), tracks, clients, track, Track(true, obj, kind, vm, generations[track]),
                        valid.value);
      voice := Claim(track, obj, kind, vm);
      return Done, voice;
    }

    /** audio_arbiter_play_external: a voice without a pool object. */
    method PlayExternal(vm: nat, starts: bool) returns (res: ArbResult, voice: nat)
      requires Valid()
      modifies this`tracks, this`activeCount, this`sounding
      ensures Valid()
      ensures res == if !starts || (forall t | 0 <= t < trackCount :: old(tracks)[t].active) then Rejected else Done
      ensures res != Done ==> voice == 0 && tracks == old(tracks)
      ensures res == Done ==>
                exists track :: 0 <= track < trackCount && Started(track, old(tracks), tracks)
                  && tracks[track] == Track(true, 0, Music, vm, generations[track])
                  && voice == VoiceHandle(track, ended[track])
    {
      hide TracksOk, Playing, Balanced, Pool.Valid, Pool.Resolved, Pool.Views, Pool.Shape;
      Sizes();
      var found := FindFreeTrack();
      if found == None || !starts { return Rejected, 0; }
      var track := found.value;
      ExternalKeepsBalance(pool.Views(), tracks, clients, track, Track(true, 0, Music, vm, generations[track]));
      voice := Claim(track, 0, Music, vm);
      return Done, voice;
    }

    /** Free a track's entry: old handles go stale. */
    method Release(track: nat)
      requires Tracks() && track < trackCount && tracks[track].active
      modifies this`tracks, this`activeCount, this`sounding, this`generations, this`ended
      ensures Tracks() && activeCount == old(activeCount) - 1
      ensures tracks == old(tracks)[track := NO_TRACK]
      ensures |old(ended)| == trackCount && ended == old(ended)[track := old(ended)[track] + 1]
    {
      hide TracksOk;
      TracksFacts(tracks, generations, sounding, ended, activeCount, track);
      EndKeepsTracks(tracks, generations, sounding, ended, activeCount, track);
      sounding := sounding[track := false];
      generations := generations[track := NextGeneration(generations[track])];
      ended := ended[track := ended[track] + 1];
      tracks := tracks[track := NO_TRACK];
      activeCount := activeCount - 1;
    }

    /** stop_track. The object is freed exactly when nobody holds it any more. */
    method StopTrack(track: nat)
      requires Valid() && track < trackCount
      modifies this`tracks, this`activeCount, this`sounding, this`generations, this`ended, pool.objects,
               pool`freeBlocks, pool`chains, pool.used, pool.used.words, pool.owner, pool.next, pool.generations
      ensures Valid() && |old(tracks)| == |old(ended)| == trackCount && pool.Shape()
      ensures activeCount + One(old(tracks)[track].active) == old(activeCount)
      ensures tracks == if old(tracks)[track].active then old(tracks)[track := NO_TRACK] else old(tracks)
      ensures ended == if old(tracks)[track].active then old(ended)[track := old(ended)[track] + 1] else old(ended)
      ensures SettledFrom(old(pool.Views()), pool.Views(), tracks, clients)
    {
      hide TracksOk, Playing, Balanced, SettledFrom, Pool.Valid, Pool.Resolved, Pool.Views, Pool.Shape;
      Sizes();
      ghost var vs0 := pool.Views();
      BalancedIsSettled(vs0, tracks, clients);
      if !tracks[track].active { return; }
      var obj := tracks[track].obj;
      if obj != 0 {
        PoolResolves(obj);
        PlayingObjectIsLive(vs0, tracks, clients, track);
        var res, freed := pool.Unref(obj);
        PoolResolves(obj);
        StopKeepsBalance(vs0, pool.Views(), tracks, clients, track, ResolvedIn(vs0, obj).value);
      } else {
        ExternalKeepsBalance(vs0, tracks, clients, track, NO_TRACK);
        BalancedIsSettled(vs0, tracks[track := NO_TRACK], clients);
      }
      Release(track);
    }

    /** resolve. */
    method ResolveVoice(v: nat) returns (r: Option<nat>)
      requires |tracks| == trackCount
      ensures r == ResolvedVoice(tracks, v)
    {
      var u := UnpackHandle(v);
      if u == None { return None; }
      var (track, gen) := u.value;
      if track >= trackCount { return None; }
      if !tracks[track].active { return None; }
      if tracks[track].gen != gen { return None; }
      return Some(track);
    }

    /** audio_arbiter_stop and audio_arbiter_voice_finished. */
    method Stop(voice: nat) returns (res: ArbResult)
      requires Valid()
      modifies this`tracks, this`activeCount, this`sounding, this`generations, this`ended, pool.objects,
               pool`freeBlocks, pool`chains, pool.used, pool.used.words, pool.owner, pool.next, pool.generations
      ensures Valid() && pool.Shape()
      ensures res == if ResolvedVoice(old(tracks), voice) == None then BadVoice else Done
      ensures res != Done ==> tracks == old(tracks) && pool.Views() == old(pool.Views())
      ensures res == Done ==>
                var track := ResolvedVoice(old(tracks), voice).value;
                tracks == old(tracks)[track := NO_TRACK] && activeCount == old(activeCount) - 1
      ensures SettledFrom(old(pool.Views()), pool.Views(), tracks, clients)
    {
      hide TracksOk, Playing, Balanced, SettledFrom, Pool.Valid, Pool.Resolved, Pool.Views, Pool.Shape;
      Sizes();
      BalancedIsSettled(pool.Views(), tracks, clients);
      var r := ResolveVoice(voice);
      if r == None { return BadVoice; }
      StopTrack(r.value);
      return Done;
    }

    /** audio_arbiter_reap: free the one-shots the sink reports finished. */
    method Reap(done: seq<bool>) returns (reaped: nat)
      requires Valid() && |done| == trackCount
      modifies this`tracks, this`activeCount, this`sounding, this`generations, this`ended, pool.objects,
               pool`freeBlocks, pool`chains, pool.used, pool.used.words, pool.owner, pool.next, pool.generations
      ensures Valid() && pool.Shape() && |old(tracks)| == trackCount
      ensures tracks == AfterReap(old(tracks), done, trackCount) && activeCount + reaped == old(activeCount)
      ensures forall t | 0 <= t < trackCount ::
                if old(tracks)[t].active && old(tracks)[t].kind == Sfx && done[t] then !tracks[t].active
                else tracks[t] == old(tracks)[t]
      ensures SettledFrom(old(pool.Views()), pool.Views(), tracks, clients)
    {
      hide TracksOk, Playing, Balanced, SettledFrom, Pool.Valid, Pool.Resolved, Pool.Views, Pool.Shape;
      Sizes();
      BalancedIsSettled(pool.Views(), tracks, clients);
      reaped := 0;
      var t := 0;
      while t < trackCount
        invariant 0 <= t <= trackCount && Valid() && pool.Shape() && clients == old(clients)
        invariant |old(tracks)| == trackCount && tracks == AfterReap(old(tracks), done, t)
        invariant activeCount + reaped == old(activeCount)
        invariant SettledFrom(old(pool.Views()), pool.Views(), tracks, clients)
      {
        if tracks[t].active && tracks[t].kind == Sfx && done[t] {
          ghost var mid, vs1 := tracks, pool.Views();
          StoppingPlaysLess(tracks, t);
          StopTrack(t);
          SettlingComposes(old(pool.Views()), vs1, pool.Views(), mid, tracks, clients);
          reaped := reaped + 1;
        }
        t := t + 1;
      }
    }

    /** audio_arbiter_sweep_vm: stop everything a dying VM started. */
    method SweepVm(vm: nat) returns (stopped: nat)
      requires Valid()
      modifies this`tracks, this`activeCount, this`sounding, this`generations, this`ended, pool.objects,
               pool`freeBlocks, pool`chains, pool.used, pool.used.words, pool.owner, pool.next, pool.generations
      ensures Valid() && pool.Shape() && |old(tracks)| == trackCount
      ensures tracks == AfterSweep(old(tracks), vm, trackCount) && activeCount + stopped == old(activeCount)
      ensures forall t | 0 <= t < trackCount ::
                if old(tracks)[t].active && old(tracks)[t].vm == vm then !tracks[t].active
                else tracks[t] == old(tracks)[t]
      ensures SettledFrom(old(pool.Views()), pool.Views(), tracks, clients)
    {
      hide TracksOk, Playing, Balanced, SettledFrom, Pool.Valid, Pool.Resolved, Pool.Views, Pool.Shape;
      Sizes();
      BalancedIsSettled(pool.Views(), tracks, clients);
      stopped := 0;
      var t := 0;
      while t < trackCount
        invariant 0 <= t <= trackCount && Valid() && pool.Shape() && clients == old(clients)
        invariant |old(tracks)| == trackCount && tracks == AfterSweep(old(tracks), vm, t)
        invariant activeCount + stopped == old(activeCount)
        invariant SettledFrom(old(pool.Views()), pool.Views(), tracks, clients)
      {
        if tracks[t].active && tracks[t].vm == vm {
          ghost var mid, vs1 := tracks, pool.Views();
          StoppingPlaysLess(tracks, t);
          StopTrack(t);
          SettlingComposes(old(pool.Views()), vs1, pool.Views(), mid, tracks, clients);
          stopped := stopped + 1;
        }
        t := t + 1;
      }
    }

    // ---- the clients' own calls on the shared pool ----

    /** A client allocates: it holds the first reference. */
    method ClientAlloc(size: nat, vm: nat, rate: nat) returns (res: PoolResult, h: nat)
      requires Valid() && size < 0x1_0000_0000
      modifies this`clients, pool.objects, pool`freeBlocks, pool`chains, pool.used, pool.used.words, pool.owner,
               pool.next
      ensures Valid() && pool.Shape() && |old(clients)| == MAX_OBJECTS
      ensures if res == PoolResult.Ok
              then exists slot :: 0 <= slot < MAX_OBJECTS && clients == old(clients)[slot := 1]
                     && Allocated(slot, old(pool.Views()), pool.Views(), size, vm, rate, pool.generations[slot], h)
              else clients == old(clients) && pool.Views() == old(pool.Views())
    {
      hide TracksOk, Playing, Balanced, Pool.Valid, Pool.Resolved, Pool.Views, Pool.Shape, Allocated;
      Sizes();
      ghost var vs0 := pool.Views();
      res, h := pool.Alloc(size, vm, rate);
      PoolResolves(h);
      if res == PoolResult.Ok {
        ghost var slot :| 0 <= slot < MAX_OBJECTS &&
                  Allocated(slot, vs0, pool.Views(), size, vm, rate, pool.generations[slot], h);
        AllocKeepsBalance(vs0, pool.Views(), tracks, clients, slot, size, vm, rate, pool.generations[slot], h);
        clients := clients[slot := 1];
      }
    }

    /** A client takes another reference. */
    method ClientRef(h: nat) returns (res: PoolResult)
      requires Valid()
      modifies this`clients, pool.objects
      ensures Valid() && pool.Shape() && |old(clients)| == MAX_OBJECTS
      ensures var slot := ResolvedIn(old(pool.Views()), h);
              && res == (if slot == None then PoolResult.BadHandle else PoolResult.Ok)
              && clients == if slot == None then old(clients)
                            else old(clients)[slot.value := old(clients)[slot.value] + 1]
      ensures res == PoolResult.Ok ==> SettledFrom(old(pool.Views()), pool.Views(), tracks, clients)
    {
      hide TracksOk, Playing, Balanced, Pool.Valid, Pool.Resolved, Pool.Views, Pool.Shape;
      Sizes();
      PoolResolves(h);
      ghost var vs0 := pool.Views();
      res := pool.Ref(h);
      PoolResolves(h);
      if res == PoolResult.Ok {
        ghost var slot := ResolvedIn(vs0, h).value;
        ClientKeepsBalance(vs0, pool.Views(), tracks, clients, slot, true);
        clients := clients[slot := clients[slot] + 1];
      }
    }

    /** A client drops a reference it took; a playing object survives it. */
    method ClientUnref(h: nat) returns (res: PoolResult, freed: bool)
      requires Valid()
      requires ResolvedIn(pool.Views(), h).Some? ==>
                 |clients| == MAX_OBJECTS && clients[ResolvedIn(pool.Views(), h).value] >= 1
      modifies this`clients, pool.objects, pool`freeBlocks, pool`chains, pool.used, pool.used.words, pool.owner,
               pool.next, pool.generations
      ensures Valid() && pool.Shape() && |old(clients)| == MAX_OBJECTS
      ensures var slot := ResolvedIn(old(pool.Views()), h);
              && res == (if slot == None then PoolResult.BadHandle else PoolResult.Ok)
              && clients == if slot == None then old(clients)
                            else old(clients)[slot.value := old(clients)[slot.value] - 1]
      ensures res == PoolResult.Ok ==>
                var slot := ResolvedIn(old(pool.Views()), h).value;
                && SettledFrom(old(pool.Views()), pool.Views(), tracks, clients)
                && (freed <==> clients[slot] == 0 && Playing(tracks, slot) == 0)
    {
      hide TracksOk, Playing, Balanced, Pool.Valid, Pool.Resolved, Pool.Views, Pool.Shape;
      Sizes();
      PoolResolves(h);
      ghost var vs0 := pool.Views();
      res, freed := pool.Unref(h);
      PoolResolves(h);
      if res == PoolResult.Ok {
        ghost var slot := ResolvedIn(vs0, h).value;
        ClientKeepsBalance(vs0, pool.Views(), tracks, clients, slot, false);
        FreedWithTheLast(vs0, tracks, clients, slot);
        clients := clients[slot := clients[slot] - 1];
      }
    }

    /** A client writes into an object, playing or not: its bytes change and
        nothing in the book does. */
    method ClientWrite(h: nat, offset: nat, src: seq<Byte>, n: nat) returns (res: PoolResult, written: nat)
      requires Valid() && n <= |src|
      modifies pool.region
      ensures Valid() && pool.Shape()
      ensures var slot := ResolvedIn(old(pool.Views()), h);
              && res == (if slot == None then PoolResult.BadHandle else PoolResult.Ok)
              && (slot == None ==> written == 0 && pool.Views() == old(pool.Views()))
              && (slot.Some? ==>
                    var live := old(pool.Views())[slot.value].value;
                    && written == Reach(live.bytes, offset, n)
                    && pool.Views() ==
                       old(pool.Views())[slot.value := Some(live.(bytes := Written(live.bytes, offset, written, src)))])
    {
      hide TracksOk, Playing, Balanced, Pool.Valid, Pool.Resolved, Pool.Views, Pool.Shape, Written, Reach;
      Sizes();
      PoolResolves(h);
      ghost var vs0 := pool.Views();
      res, written := pool.Write(h, offset, src, n);
      PoolResolves(h);
      if res == PoolResult.Ok {
        ghost var slot := ResolvedIn(vs0, h).value;
        WriteKeepsBalance(vs0, pool.Views(), tracks, clients, slot,
                          Written(vs0[slot].value.bytes, offset, written, src));
      }
    }
  }

  /** The lowest free track was claimed; no other track changed. */
  ghost predicate Started(track: nat, before: seq<Track>, after: seq<Track>)
    requires track < |after|
  {
    && track < |before| && !before[track].active && (forall t | 0 <= t < track :: before[t].active)
    && after == before[track := after[track]]
  }
}
