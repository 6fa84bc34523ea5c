// Voices and the references they hold, as values: which tracks play which pool
// object, and what a reference count must be. engine/audio/audio_arbiter.c.
module Voices {
  import opened Arith
  import opened AudioPool

  const MAX_TRACKS: nat := 16

  datatype Kind = Sfx | Music
  datatype Track = Track(active: bool, obj: nat, kind: Kind, vm: nat, gen: nat)

  const NO_TRACK: Track := Track(false, 0, Sfx, 0, 0)

  function One(b: bool): nat { if b then 1 else 0 }

  /** Track t plays the object in pool slot s. */
  predicate Plays(t: Track, s: nat) {
    t.active && UnpackHandle(t.obj).Some? && UnpackHandle(t.obj).value.0 == s
  }

  function Playing(tracks: seq<Track>, s: nat): nat {
    if tracks == [] then 0 else Playing(tracks[..|tracks| - 1], s) + One(Plays(tracks[|tracks| - 1], s))
  }

  function CountActive(tracks: seq<Track>): nat {
    if tracks == [] then 0 else CountActive(tracks[..|tracks| - 1]) + One(tracks[|tracks| - 1].active)
  }

  lemma {:induction false} CountsAfter(tracks: seq<Track>, k: nat, t: Track, s: nat)
    requires k < |tracks|
    ensures Playing(tracks[k := t], s) == Playing(tracks, s) - One(Plays(tracks[k], s)) + One(Plays(t, s))
    ensures CountActive(tracks[k := t]) == CountActive(tracks) - One(tracks[k].active) + One(t.active)
    decreases |tracks|
  {
    var n := |tracks| - 1;
    if k == n {
      assert tracks[k := t][..n] == tracks[..n];
    } else {
      CountsAfter(tracks[..n], k, t, s);
      assert tracks[k := t][..n] == tracks[..n][k := t];
    }
  }

  lemma {:induction false} SomePlaysIt(tracks: seq<Track>, k: nat, s: nat)
    requires k < |tracks|
    ensures Plays(tracks[k], s) ==> Playing(tracks, s) >= 1
    ensures tracks[k].active ==> CountActive(tracks) >= 1
    ensures CountActive(tracks) <= |tracks|
    decreases |tracks|
  {
    if k < |tracks| - 1 {
      SomePlaysIt(tracks[..|tracks| - 1], k, s);
    } else if k > 0 {
      SomePlaysIt(tracks[..|tracks| - 1], k - 1, s);
    }
  }

  lemma {:induction false} NonePlay(tracks: seq<Track>, s: nat)
    requires forall t | 0 <= t < |tracks| :: !tracks[t].active
    ensures Playing(tracks, s) == 0 && CountActive(tracks) == 0
    decreases |tracks|
  {
    if tracks == [] {
    } else {
      NonePlay(tracks[..|tracks| - 1], s);
    }
  }

  // ---- the reference book ----

  ghost predicate SlotBalances(v: Option<Live>, clients: nat, playing: nat) {
    match v
    case None => clients == 0 && playing == 0
    case Some(l) => l.refs == clients + playing >= 1
  }

  ghost predicate TrackLives(vs: seq<Option<Live>>, t: Track) {
    t.active && t.obj != 0 ==> ResolvedIn(vs, t.obj) != None
  }

  /** THE BOOK BALANCES. Every live object's count is the references its clients
      hold plus the tracks playing it, and every playing track's object is live. */
  ghost predicate Balanced(vs: seq<Option<Live>>, tracks: seq<Track>, clients: seq<nat>) {
    && |vs| == |clients| == MAX_OBJECTS
    && (forall s | 0 <= s < MAX_OBJECTS :: SlotBalances(vs[s], clients[s], Playing(tracks, s)))
    && (forall t | 0 <= t < |tracks| :: TrackLives(vs, tracks[t]))
  }

  /** An object no client holds and no track plays is gone; every other one is
      as it was, with exactly the references held. */
  function Settled(v: Option<Live>, clients: nat, playing: nat): Option<Live> {
    if v == None || clients + playing == 0 then None else Some(v.value.(refs := clients + playing))
  }

  ghost predicate SettledFrom(before: seq<Option<Live>>, after: seq<Option<Live>>, tracks: seq<Track>,
                              clients: seq<nat>) {
    && |before| == |after| == |clients| == MAX_OBJECTS
    && forall s | 0 <= s < MAX_OBJECTS :: after[s] == Settled(before[s], clients[s], Playing(tracks, s))
  }

  /** Settling twice is settling once, with the later holders. */
  lemma SettlingComposes(v0: seq<Option<Live>>, v1: seq<Option<Live>>, v2: seq<Option<Live>>,
                         mid: seq<Track>, last: seq<Track>, clients: seq<nat>)
    requires SettledFrom(v0, v1, mid, clients) && SettledFrom(v1, v2, last, clients)
    requires forall s | 0 <= s < MAX_OBJECTS :: Playing(last, s) <= Playing(mid, s)
    ensures SettledFrom(v0, v2, last, clients)
  {
    hide Playing;
    forall s | 0 <= s < MAX_OBJECTS
      ensures v2[s] == Settled(v0[s], clients[s], Playing(last, s))
    {
      assert v1[s] == Settled(v0[s], clients[s], Playing(mid, s));
      assert v2[s] == Settled(v1[s], clients[s], Playing(last, s));
    }
  }

  lemma BalancedIsSettled(vs: seq<Option<Live>>, tracks: seq<Track>, clients: seq<nat>)
    requires Balanced(vs, tracks, clients)
    ensures SettledFrom(vs, vs, tracks, clients)
  {
    hide Playing;
    forall s | 0 <= s < MAX_OBJECTS
      ensures vs[s] == Settled(vs[s], clients[s], Playing(tracks, s))
    {
      assert SlotBalances(vs[s], clients[s], Playing(tracks, s));
    }
  }

  lemma StoppingPlaysLess(tracks: seq<Track>, k: nat)
    requires k < |tracks|
    ensures forall s | 0 <= s < MAX_OBJECTS :: Playing(tracks[k := NO_TRACK], s) <= Playing(tracks, s)
  {
    forall s | 0 <= s < MAX_OBJECTS
      ensures Playing(tracks[k := NO_TRACK], s) <= Playing(tracks, s)
    {
      CountsAfter(tracks, k, NO_TRACK, s);
    }
  }

  /** NO PLAYING OBJECT IS FREED: its slot holds a live object under the very
      generation the track was given, with at least one reference. */
  lemma PlayingObjectIsLive(vs: seq<Option<Live>>, tracks: seq<Track>, clients: seq<nat>, t: nat)
    requires Balanced(vs, tracks, clients) && t < |tracks| && tracks[t].active && tracks[t].obj != 0
    ensures var r := ResolvedIn(vs, tracks[t].obj);
            && r.Some? && r.value < MAX_OBJECTS && Plays(tracks[t], r.value)
            && vs[r.value].Some? && vs[r.value].value.refs >= 1
  {
    assert TrackLives(vs, tracks[t]);
    var s := ResolvedIn(vs, tracks[t].obj).value;
    assert SlotBalances(vs[s], clients[s], Playing(tracks, s));
    SomePlaysIt(tracks, t, s);
  }

  /** A voice starts on a free track over a freshly referenced object. */
  lemma StartKeepsBalance(before: seq<Option<Live>>, after: seq<Option<Live>>, tracks: seq<Track>,
                          clients: seq<nat>, k: nat, t: Track, s: nat)
    requires Balanced(before, tracks, clients) && k < |tracks| && !tracks[k].active
    requires t.active && ResolvedIn(before, t.obj) == Some(s) && s < MAX_OBJECTS
    requires |after| == MAX_OBJECTS && Referenced(s, before, after, 1)
    ensures Balanced(after, tracks[k := t], clients)
    ensures SettledFrom(before, after, tracks[k := t], clients)
  {
    hide Playing;
    forall r | 0 <= r < MAX_OBJECTS
      ensures SlotBalances(after[r], clients[r], Playing(tracks[k := t], r))
      ensures after[r] == Settled(before[r], clients[r], Playing(tracks[k := t], r))
    {
      assert SlotBalances(before[r], clients[r], Playing(tracks, r));
      CountsAfter(tracks, k, t, r);
    }
    var now := tracks[k := t];
    forall j | 0 <= j < |now|
      ensures TrackLives(after, now[j])
    {
      assert TrackLives(before, tracks[j]);
    }
  }

  /** Taking a reference and giving it back leaves every object as it was. */
  lemma RefThenDrop(vs0: seq<Option<Live>>, vs1: seq<Option<Live>>, vs2: seq<Option<Live>>, s: nat,
                    tracks: seq<Track>, clients: seq<nat>)
    requires Balanced(vs0, tracks, clients) && s < MAX_OBJECTS && |vs1| == |vs2| == MAX_OBJECTS
    requires Referenced(s, vs0, vs1, 1) && Dropped(s, vs1, vs2)
    ensures vs2 == vs0
  {
    assert SlotBalances(vs0[s], clients[s], Playing(tracks, s));
  }

  /** A voice without a pool object starts or stops. */
  lemma ExternalKeepsBalance(vs: seq<Option<Live>>, tracks: seq<Track>, clients: seq<nat>, k: nat, t: Track)
    requires Balanced(vs, tracks, clients) && k < |tracks|
    requires (!tracks[k].active || tracks[k].obj == 0) && (!t.active || t.obj == 0)
    ensures Balanced(vs, tracks[k := t], clients)
  {
    hide Playing;
    forall r | 0 <= r < MAX_OBJECTS
      ensures SlotBalances(vs[r], clients[r], Playing(tracks[k := t], r))
    {
      assert SlotBalances(vs[r], clients[r], Playing(tracks, r));
      CountsAfter(tracks, k, t, r);
    }
    var now := tracks[k := t];
    forall j | 0 <= j < |now|
      ensures TrackLives(vs, now[j])
    {
      assert TrackLives(vs, tracks[j]);
    }
  }

  /** A voice stops and its reference is dropped: the object dies exactly when
      this was the last reference anyone held. */
  lemma StopKeepsBalance(before: seq<Option<Live>>, after: seq<Option<Live>>, tracks: seq<Track>,
                         clients: seq<nat>, k: nat, s: nat)
    requires Balanced(before, tracks, clients) && k < |tracks| && tracks[k].active
    requires ResolvedIn(before, tracks[k].obj) == Some(s) && s < MAX_OBJECTS
    requires |after| == MAX_OBJECTS && Dropped(s, before, after)
    ensures Balanced(after, tracks[k := NO_TRACK], clients)
    ensures SettledFrom(before, after, tracks[k := NO_TRACK], clients)
  {
    hide Playing;
    var now := tracks[k := NO_TRACK];
    forall r | 0 <= r < MAX_OBJECTS
      ensures SlotBalances(after[r], clients[r], Playing(now, r))
      ensures after[r] == Settled(before[r], clients[r], Playing(now, r))
    {
      assert SlotBalances(before[r], clients[r], Playing(tracks, r));
      CountsAfter(tracks, k, NO_TRACK, r);
    }
    forall j | 0 <= j < |tracks|
      ensures TrackLives(after, now[j])
    {
      assert TrackLives(before, tracks[j]);
      if now[j].active && now[j].obj != 0 {
        var r := ResolvedIn(before, now[j].obj).value;
        SomePlaysIt(now, j, r);
        assert SlotBalances(after[r], clients[r], Playing(now, r));
      }
    }
  }

  /** A client takes a reference, or drops one it took. */
  lemma ClientKeepsBalance(before: seq<Option<Live>>, after: seq<Option<Live>>, tracks: seq<Track>,
                           clients: seq<nat>, s: nat, takes: bool)
    requires Balanced(before, tracks, clients) && s < MAX_OBJECTS && |after| == MAX_OBJECTS
    requires if takes then Referenced(s, before, after, 1) else clients[s] >= 1 && Dropped(s, before, after)
    ensures Balanced(after, tracks, clients[s := if takes then clients[s] + 1 else clients[s] - 1])
    ensures SettledFrom(before, after, tracks, clients[s := if takes then clients[s] + 1 else clients[s] - 1])
  {
    hide Playing;
    var now := clients[s := if takes then clients[s] + 1 else clients[s] - 1];
    forall r | 0 <= r < MAX_OBJECTS
      ensures SlotBalances(after[r], now[r], Playing(tracks, r))
      ensures after[r] == Settled(before[r], now[r], Playing(tracks, r))
    {
      assert SlotBalances(before[r], clients[r], Playing(tracks, r));
    }
    forall j | 0 <= j < |tracks|
      ensures TrackLives(after, tracks[j])
    {
      assert TrackLives(before, tracks[j]);
      if tracks[j].active && tracks[j].obj != 0 {
        var r := ResolvedIn(before, tracks[j].obj).value;
        SomePlaysIt(tracks, j, r);
        assert SlotBalances(after[r], now[r], Playing(tracks, r));
      }
    }
  }

  /** New contents leave the book as it is. */
  lemma WriteKeepsBalance(before: seq<Option<Live>>, after: seq<Option<Live>>, tracks: seq<Track>,
                          clients: seq<nat>, s: nat, bytes: seq<Byte>)
    requires Balanced(before, tracks, clients) && s < MAX_OBJECTS && before[s].Some?
    requires after == before[s := Some(before[s].value.(bytes := bytes))]
    ensures Balanced(after, tracks, clients)
  {
    hide Playing;
    forall r | 0 <= r < MAX_OBJECTS
      ensures SlotBalances(after[r], clients[r], Playing(tracks, r))
    {
      assert SlotBalances(before[r], clients[r], Playing(tracks, r));
    }
    forall j | 0 <= j < |tracks|
      ensures TrackLives(after, tracks[j])
    {
      assert TrackLives(before, tracks[j]);
    }
  }

  /** One reference is left exactly when it is the last holder's. */
  lemma FreedWithTheLast(vs: seq<Option<Live>>, tracks: seq<Track>, clients: seq<nat>, s: nat)
    requires Balanced(vs, tracks, clients) && s < MAX_OBJECTS && vs[s].Some?
    ensures vs[s].value.refs == 1 <==> clients[s] + Playing(tracks, s) == 1
  {
    assert SlotBalances(vs[s], clients[s], Playing(tracks, s));
  }

  /** A client allocates an object. */
  lemma AllocKeepsBalance(before: seq<Option<Live>>, after: seq<Option<Live>>, tracks: seq<Track>,
                          clients: seq<nat>, s: nat, size: nat, vm: nat, rate: nat, gen: nat, h: nat)
    requires Balanced(before, tracks, clients) && s < MAX_OBJECTS && |after| == MAX_OBJECTS
    requires Allocated(s, before, after, size, vm, rate, gen, h)
    ensures Balanced(after, tracks, clients[s := 1])
  {
    hide Playing;
    forall r | 0 <= r < MAX_OBJECTS
      ensures SlotBalances(after[r], clients[s := 1][r], Playing(tracks, r))
    {
      assert SlotBalances(before[r], clients[r], Playing(tracks, r));
    }
    forall j | 0 <= j < |tracks|
      ensures TrackLives(after, tracks[j])
    {
      assert TrackLives(before, tracks[j]);
    }
  }

  // ---- voice handles ----

  /** The generation of a track after n plays have ended on it. */
  function GenAfter(n: nat): nat { 1 + n % 0xFFFF }

  lemma GenerationsCycle(n: nat)
    ensures NextGeneration(GenAfter(n)) == GenAfter(n + 1) && 1 <= GenAfter(n) < 0x1_0000
  {
    var q, r := n / 0xFFFF, n % 0xFFFF;
    if r == 0xFFFE {
      DivModUnique(n + 1, 0xFFFF, q + 1, 0);
    } else {
      DivModUnique(n + 1, 0xFFFF, q, r + 1);
    }
  }

  /** One track's entry: the generation counts the plays that ended on it, and
      the sink sounds it exactly while it is active. */
  ghost predicate EntryOk(t: Track, generation: nat, sounding: bool, ended: nat) {
    && generation == GenAfter(ended) && sounding == t.active
    && (t.active ==> t.gen == generation)
  }

  ghost predicate TracksOk(tracks: seq<Track>, generations: seq<nat>, sounding: seq<bool>, ended: seq<nat>,
                           active: nat) {
    && 1 <= |tracks| <= MAX_TRACKS
    && |tracks| == |generations| == |sounding| == |ended|
    && active == CountActive(tracks)
    && forall t | 0 <= t < |tracks| :: EntryOk(tracks[t], generations[t], sounding[t], ended[t])
  }

  lemma TracksFacts(tracks: seq<Track>, generations: seq<nat>, sounding: seq<bool>, ended: seq<nat>, active: nat,
                    k: nat)
    requires TracksOk(tracks, generations, sounding, ended, active) && k < |tracks|
    ensures |tracks| == |generations| == |sounding| == |ended| <= MAX_TRACKS
    ensures EntryOk(tracks[k], generations[k], sounding[k], ended[k])
    ensures tracks[k].active ==> active >= 1
    ensures active <= |tracks|
  {
    SomePlaysIt(tracks, k, 0);
  }

  lemma ClaimKeepsTracks(tracks: seq<Track>, generations: seq<nat>, sounding: seq<bool>, ended: seq<nat>,
                         active: nat, k: nat, t: Track)
    requires TracksOk(tracks, generations, sounding, ended, active) && k < |tracks|
    requires !tracks[k].active && t.active && t.gen == generations[k]
    ensures TracksOk(tracks[k := t], generations, sounding[k := true], ended, active + 1)
  {
    hide CountActive;
    CountsAfter(tracks, k, t, 0);
    assert EntryOk(tracks[k], generations[k], sounding[k], ended[k]);
  }

  lemma EndKeepsTracks(tracks: seq<Track>, generations: seq<nat>, sounding: seq<bool>, ended: seq<nat>,
                       active: nat, k: nat)
    requires TracksOk(tracks, generations, sounding, ended, active) && k < |tracks| && tracks[k].active
    ensures active >= 1
    ensures TracksOk(tracks[k := NO_TRACK], generations[k := NextGeneration(generations[k])], sounding[k := false],
                     ended[k := ended[k] + 1], active - 1)
  {
    hide CountActive, NextGeneration, GenAfter;
    CountsAfter(tracks, k, NO_TRACK, 0);
    SomePlaysIt(tracks, k, 0);
    assert EntryOk(tracks[k], generations[k], sounding[k], ended[k]);
    GenerationsCycle(ended[k]);
  }

  /** The live track a voice handle names. */
  function ResolvedVoice(tracks: seq<Track>, v: nat): Option<nat> {
    match UnpackHandle(v)
    case None => None
    case Some((track, gen)) =>
      if track < |tracks| && tracks[track].active && tracks[track].gen == gen then Some(track) else None
  }

  /** The handle given to the n-th play on a track. */
  function VoiceHandle(track: nat, n: nat): nat { PackHandle(track, GenAfter(n)) }

  /** A voice handle resolves exactly while its own play, or one a multiple of
      65535 reuses away, is on the track. */
  lemma HandleNamesItsPlay(tracks: seq<Track>, generation: nat, sounding: bool, ended: nat, track: nat, n: nat)
    requires track < |tracks| <= MAX_TRACKS && EntryOk(tracks[track], generation, sounding, ended)
    ensures ResolvedVoice(tracks, VoiceHandle(track, n)) ==
            if tracks[track].active && ended % 0xFFFF == n % 0xFFFF then Some(track) else None
    ensures n <= ended < n + 0xFFFF ==>
            (ResolvedVoice(tracks, VoiceHandle(track, n)) != None <==> tracks[track].active && ended == n)
  {
    GenerationsCycle(n);
    HandleRoundTrip(track, GenAfter(n));
    if ended % 0xFFFF == n % 0xFFFF && n <= ended < n + 0xFFFF {
      SameResidueNear(ended, n, 0xFFFF);
    }
  }
}
