// What an admitted frame must show, said of the actors themselves: which slot
// holds whom, and what its word says. fpga/cores/actor/tb/gen_vectors.c.
module AdmissionPicture {
  import opened Arith
  import opened Counting
  import opened Admission

  /** The on-screen actors before the n-th, and those after the locked ones. */
  ghost function SeenBefore(sc: Scene, n: int): set<int> {
    set b: int | 0 <= b < |sc.actors| && b < n && sc.actors[b].wx < 256 && sc.actors[b].wy < 240
  }

  ghost function SeenAfter(sc: Scene, n: int): set<int> {
    set b: int | 0 <= b < |sc.actors| && n <= b && sc.actors[b].wx < 256 && sc.actors[b].wy < 240
  }

  /** Those of the crowd that come first: higher up by a band of eight lines, or in
      the same band and earlier in the list. */
  ghost function First(sc: Scene, a: int): set<int> {
    set b: int | 0 <= b < |sc.actors| && b in SeenAfter(sc, sc.nLock) && 0 <= a < |sc.actors| &&
                 (sc.actors[b].wy / 8 < sc.actors[a].wy / 8 || (sc.actors[b].wy / 8 == sc.actors[a].wy / 8 && b < a))
  }

  /** The word's bytes, from the lowest: x, y, tile, attribute. */
  predicate Says(v: nat, x: Actor) {
    && v % 256 == x.wx && v / 256 % 256 == x.wy
    && v / 0x1_0000 % 256 == x.tile % 256 && v / 0x100_0000 == x.attr % 256
  }

  lemma EntrySays(sc: Scene, a: nat)
    requires a < |sc.actors| && sc.actors[a].wx < 256 && sc.actors[a].wy < 240
    ensures var v := Entry(sc, a);
            && v % 256 == sc.actors[a].wx && v / 256 % 256 == sc.actors[a].wy
            && v / 0x1_0000 % 256 == sc.actors[a].tile % 256 && v / 0x100_0000 == sc.actors[a].attr % 256
  {
    var x := sc.actors[a];
    FourBytes(x.wx, x.wy, x.tile % 256, x.attr % 256);
  }

  lemma FourBytes(a: nat, b: nat, c: nat, d: nat)
    requires a < 256 && b < 256 && c < 256 && d < 256
    ensures var v := d * 0x100_0000 + c * 0x1_0000 + b * 0x100 + a;
            v % 256 == a && v / 256 % 256 == b && v / 0x1_0000 % 256 == c && v / 0x100_0000 == d
  {
    var v := d * 0x100_0000 + c * 0x1_0000 + b * 0x100 + a;
    DivModUnique(v, 256, d * 0x1_0000 + c * 0x100 + b, a);
    DivModUnique(d * 0x1_0000 + c * 0x100 + b, 256, d * 0x100 + c, b);
    DivModUnique(v, 0x1_0000, d * 0x100 + c, b * 0x100 + a);
    DivModUnique(d * 0x100 + c, 256, d, c);
    DivModUnique(v, 0x100_0000, d, c * 0x1_0000 + b * 0x100 + a);
  }

  /** The number of locked slots in use. */
  ghost function LockedUp(sc: Scene): nat { Min(128, |SeenBefore(sc, sc.nLock)|) }

  /** THE FRAME, actor by actor. A locked actor on screen stands in the slot of its
      number among those, if there are so many. One of the crowd stands behind them,
      at its place in the depth order less the phase, going round, if slots last.
      All other slots are untouched. */
  ghost predicate Pictured(sc: Scene, phase: nat, oam: seq<nat>) {
    && |oam| == 128
    && (forall a: int | a in SeenBefore(sc, sc.nLock) :: LockedStands(sc, oam, a))
    && (forall a: int | a in SeenAfter(sc, sc.nLock) :: CrowdStands(sc, phase, oam, a))
    && (forall i | LockedUp(sc) + |SeenAfter(sc, sc.nLock)| <= i < 128 :: oam[i] == 0xFFFF_FFFF)
  }

  ghost predicate LockedStands(sc: Scene, oam: seq<nat>, a: int) {
    && 0 <= a < |sc.actors| && |oam| == 128
    && (|SeenBefore(sc, a)| < 128 ==> Says(oam[|SeenBefore(sc, a)|], sc.actors[a]))
  }

  ghost predicate CrowdStands(sc: Scene, phase: nat, oam: seq<nat>, a: int) {
    && 0 <= a < |sc.actors| && |oam| == 128 && |SeenAfter(sc, sc.nLock)| > 0
    && var t := (|First(sc, a)| - phase) % |SeenAfter(sc, sc.nLock)|;
    LockedUp(sc) + t < 128 ==> Says(oam[LockedUp(sc) + t], sc.actors[a])
  }

  // ---- the specified frame is that one ----

  lemma {:induction false} LockedAre(sc: Scene, n: nat)
    requires n <= |sc.actors|
    ensures |Locked(sc, n)| == Min(128, |SeenBefore(sc, n)|)
    decreases n
  {
    if n == 0 {
      assert SeenBefore(sc, 0) == {};
    } else {
      LockedAre(sc, n - 1);
      OneMoreSeen(sc, n - 1);
      hide SeenBefore, OnScreen;
    }
  }

  /** A locked actor's place is its number among those on screen. */
  lemma {:induction false} LockedAt(sc: Scene, n: nat, a: int)
    requires n <= |sc.actors| && a in SeenBefore(sc, n) && |SeenBefore(sc, a)| < 128
    ensures |SeenBefore(sc, a)| < |Locked(sc, n)| && Locked(sc, n)[|SeenBefore(sc, a)|] == a
    decreases n
  {
    SeenInRange(sc, n, a);
    LockedAre(sc, n);
    LockedAre(sc, n - 1);
    OneMoreSeen(sc, n - 1);
    if a < n - 1 {
      StillSeen(sc, n, a);
      hide SeenBefore, OnScreen;
      LockedAt(sc, n - 1, a);
    } else {
      SeenIsOnScreen(sc, n, a);
      hide SeenBefore;
    }
  }

  lemma StillSeen(sc: Scene, n: int, a: int)
    requires a in SeenBefore(sc, n) && a < n - 1
    ensures a in SeenBefore(sc, n - 1)
  {}

  lemma OneMoreSeen(sc: Scene, n: nat)
    requires n < |sc.actors|
    ensures n !in SeenBefore(sc, n)
    ensures SeenBefore(sc, n + 1) == SeenBefore(sc, n) + if OnScreen(sc, n) then {n as int} else {}
    ensures |SeenBefore(sc, n + 1)| == |SeenBefore(sc, n)| + if OnScreen(sc, n) then 1 else 0
  {
    assert SeenBefore(sc, n + 1) == SeenBefore(sc, n) + if OnScreen(sc, n) then {n as int} else {};
  }

  /** An earlier one has fewer before it. */
  lemma SeenInRange(sc: Scene, n: nat, a: int)
    requires a in SeenBefore(sc, n)
    ensures 0 <= a < n && a < |sc.actors| && |SeenBefore(sc, a)| < |SeenBefore(sc, n)|
  {
    assert SeenBefore(sc, a) <= SeenBefore(sc, n) && a !in SeenBefore(sc, a);
    SubsetSize(SeenBefore(sc, a), SeenBefore(sc, n));
  }

  lemma EndIsLock(sc: Scene)
    ensures LockEnd(sc) <= |sc.actors| && SeenBefore(sc, LockEnd(sc)) == SeenBefore(sc, sc.nLock)
  {}

  lemma CrowdIsSeen(sc: Scene)
    ensures Crowd(sc) == SeenAfter(sc, sc.nLock)
    ensures forall a: int :: InCrowd(sc, a) <==> a in SeenAfter(sc, sc.nLock)
  {}

  lemma RankIsFirst(sc: Scene, a: int)
    requires InCrowd(sc, a)
    ensures Rank(sc, a) == |First(sc, a)|
  {
    assert Ahead(sc, a) == First(sc, a);
  }

  lemma GoldenAt(sc: Scene, phase: nat, i: nat)
    requires i < 128
    ensures Golden(sc, phase)[i] == GoldenSlot(sc, phase, i)
  {}

  lemma LockedSays(sc: Scene, phase: nat, a: int)
    requires a in SeenBefore(sc, sc.nLock)
    ensures LockedStands(sc, Golden(sc, phase), a)
  {
    EndIsLock(sc);
    SeenIsOnScreen(sc, LockEnd(sc), a);
    EntrySays(sc, a);
    if |SeenBefore(sc, a)| < 128 {
      LockedAt(sc, LockEnd(sc), a);
      GoldenAt(sc, phase, |SeenBefore(sc, a)|);
    }
    hide SeenBefore, Locked, LockEnd, Entry, Golden;
  }

  lemma CrowdSays(sc: Scene, phase: nat, a: int)
    requires a in SeenAfter(sc, sc.nLock)
    ensures CrowdStands(sc, phase, Golden(sc, phase), a)
  {
    EndIsLock(sc);
    LockedAre(sc, LockEnd(sc));
    CrowdIsSeen(sc);
    CrowdIsSize(sc, a);
    RankIsFirst(sc, a);
    hide SeenBefore, SeenAfter, First, Locked, LockEnd, Crowd, Rank, InCrowd, Entry, Golden;
    var cw := |Crowd(sc)|;
    var t := Turn(Rank(sc, a), phase, cw);
    if LockedUp(sc) + t < 128 {
      AdmittedIsShown(sc, a, phase, t);
      GoldenAt(sc, phase, LockedUp(sc) + t);
      EntrySays(sc, a);
    }
  }

  lemma RestSays(sc: Scene, phase: nat, i: nat)
    requires LockedUp(sc) + |SeenAfter(sc, sc.nLock)| <= i < 128
    ensures Golden(sc, phase)[i] == 0xFFFF_FFFF
  {
    EndIsLock(sc);
    LockedAre(sc, LockEnd(sc));
    CrowdIsSeen(sc);
    GoldenAt(sc, phase, i);
    hide SeenBefore, SeenAfter, First, Locked, LockEnd, Crowd, InCrowd, Entry, Golden;
  }

  lemma GoldenIsPictured(sc: Scene, phase: nat)
    ensures Pictured(sc, phase, Golden(sc, phase))
  {
    hide SeenBefore, SeenAfter, Golden, LockedUp, LockedStands, CrowdStands;
    forall a: int | a in SeenBefore(sc, sc.nLock)
      ensures LockedStands(sc, Golden(sc, phase), a)
    {
      LockedSays(sc, phase, a);
    }
    forall a: int | a in SeenAfter(sc, sc.nLock)
      ensures CrowdStands(sc, phase, Golden(sc, phase), a)
    {
      CrowdSays(sc, phase, a);
    }
    forall i | LockedUp(sc) + |SeenAfter(sc, sc.nLock)| <= i < 128
      ensures Golden(sc, phase)[i] == 0xFFFF_FFFF
    {
      RestSays(sc, phase, i);
    }
  }

  lemma SeenIsOnScreen(sc: Scene, n: nat, a: int)
    requires a in SeenBefore(sc, n)
    ensures 0 <= a < |sc.actors| && sc.actors[a].wx < 256 && sc.actors[a].wy < 240
  {}

  lemma CrowdIsSize(sc: Scene, a: int)
    requires a in SeenAfter(sc, sc.nLock)
    ensures InCrowd(sc, a) && 0 <= a < |sc.actors| && sc.actors[a].wx < 256 && sc.actors[a].wy < 240
    ensures |Crowd(sc)| > 0
  {
    assert a in Crowd(sc);
  }
}
