// The admission pass itself: lock, histogram, prefix sum, scatter.
// fpga/cores/actor/tb/gen_vectors.c.
module AdmissionModel {
  import opened Arith
  import opened Counting
  import opened Admission
  import AdmissionPicture

  // ---- what the histogram counts ----

  /** Crowd actors before index n in band b. */
  ghost function InBand(sc: Scene, n: nat, b: nat): set<int> {
    set a: int | sc.nLock <= a < n && InCrowd(sc, a) && Band(sc, a) == b
  }

  ghost function CrowdBelow(sc: Scene, n: nat): set<int> {
    set a: int | sc.nLock <= a < n && InCrowd(sc, a)
  }

  /** Crowd actors in the bands before b. */
  ghost function Under(sc: Scene, b: nat): set<int> {
    set a: int | sc.nLock <= a < |sc.actors| && InCrowd(sc, a) && Band(sc, a) < b
  }

  lemma CountNext(sc: Scene, a: nat, b: nat)
    requires sc.nLock <= a < |sc.actors|
    ensures |InBand(sc, a + 1, b)| == |InBand(sc, a, b)| + if InCrowd(sc, a) && Band(sc, a) == b then 1 else 0
    ensures |CrowdBelow(sc, a + 1)| == |CrowdBelow(sc, a)| + if InCrowd(sc, a) then 1 else 0
  {
    BandNext(sc, a, b);
    CrowdNext(sc, a);
    hide InBand, CrowdBelow;
    OneMore(InBand(sc, a, b), InBand(sc, a + 1, b), a, InCrowd(sc, a) && Band(sc, a) == b);
    OneMore(CrowdBelow(sc, a), CrowdBelow(sc, a + 1), a, InCrowd(sc, a));
  }

  lemma BandNext(sc: Scene, a: nat, b: nat)
    requires sc.nLock <= a < |sc.actors|
    ensures InBand(sc, a + 1, b) == InBand(sc, a, b) + if InCrowd(sc, a) && Band(sc, a) == b then {a as int} else {}
    ensures a !in InBand(sc, a, b)
  {
    hide InCrowd, Band;
  }

  lemma CrowdNext(sc: Scene, a: nat)
    requires sc.nLock <= a < |sc.actors|
    ensures CrowdBelow(sc, a + 1) == CrowdBelow(sc, a) + if InCrowd(sc, a) then {a as int} else {}
    ensures a !in CrowdBelow(sc, a)
  {
    hide InCrowd;
  }

  lemma OneMore(s: set<int>, t: set<int>, x: int, added: bool)
    requires x !in s && t == s + if added then {x} else {}
    ensures |t| == |s| + if added then 1 else 0
  {}

  lemma CountNothing(sc: Scene, b: nat)
    ensures |InBand(sc, sc.nLock, b)| == |CrowdBelow(sc, sc.nLock)| == |Under(sc, 0)| == 0
  {
    assert InBand(sc, sc.nLock, b) == {} && CrowdBelow(sc, sc.nLock) == {} && Under(sc, 0) == {};
  }

  lemma CountAll(sc: Scene, n: nat)
    requires n >= |sc.actors|
    ensures CrowdBelow(sc, n) == Crowd(sc)
  {}

  lemma UnderNext(sc: Scene, b: nat, n: nat)
    requires n >= |sc.actors|
    ensures |Under(sc, b + 1)| == |Under(sc, b)| + |InBand(sc, n, b)|
  {
    assert Under(sc, b + 1) == Under(sc, b) + InBand(sc, n, b);
    assert Under(sc, b) * InBand(sc, n, b) == {};
  }

  /** The running histogram gives each actor its depth rank. */
  lemma HistogramIsRank(sc: Scene, a: nat)
    requires InCrowd(sc, a)
    ensures Rank(sc, a) == |Under(sc, Band(sc, a))| + |InBand(sc, a, Band(sc, a))|
  {
    var b := Band(sc, a);
    assert Ahead(sc, a) == Under(sc, b) + InBand(sc, a, b);
    assert Under(sc, b) * InBand(sc, a, b) == {};
  }

  // ---- the OAM image on the way ----

  /** Locking has looked at the first n actors. */
  function LockedOam(sc: Scene, n: nat): (oam: seq<nat>)
    requires n <= |sc.actors|
    ensures |oam| == SLOTS
  {
    seq(SLOTS, i requires 0 <= i < SLOTS =>
      if i < |Locked(sc, n)| then Entry(sc, Locked(sc, n)[i]) else UNTOUCHED)
  }

  /** Scattering has looked at the actors before index a. */
  ghost function ScatterSlot(sc: Scene, phase: nat, a: nat, i: nat): nat {
    var l := Locked(sc, LockEnd(sc));
    if i < |l| then Entry(sc, l[i])
    else if i - |l| < Min(|Crowd(sc)|, Budget(sc)) then
      var shown := ActorOfRank(sc, RankAtTurn(i - |l|, phase, |Crowd(sc)|));
      if shown < a then Entry(sc, shown) else UNTOUCHED
    else UNTOUCHED
  }

  ghost function ScatterOam(sc: Scene, phase: nat, a: nat): (oam: seq<nat>)
    ensures |oam| == SLOTS
  {
    seq(SLOTS, i requires 0 <= i < SLOTS => ScatterSlot(sc, phase, a, i))
  }

  lemma ScatterStarts(sc: Scene, phase: nat)
    ensures ScatterOam(sc, phase, sc.nLock) == LockedOam(sc, LockEnd(sc))
  {}

  lemma ScatterEnds(sc: Scene, phase: nat, a: nat)
    requires a >= |sc.actors|
    ensures ScatterOam(sc, phase, a) == Golden(sc, phase)
  {
    forall i | 0 <= i < SLOTS
      ensures ScatterOam(sc, phase, a)[i] == Golden(sc, phase)[i]
    {
      assert ScatterSlot(sc, phase, a, i) == GoldenSlot(sc, phase, i);
    }
  }

  /** An actor off screen, or whose turn is not within the budget, changes nothing. */
  lemma ScatterSkips(sc: Scene, phase: nat, a: nat)
    requires InCrowd(sc, a) ==> !Admitted(sc, a, phase)
    ensures ScatterOam(sc, phase, a + 1) == ScatterOam(sc, phase, a)
  {
    hide Crowd, Rank, RankAtTurn, Turn;
    forall i | 0 <= i < SLOTS
      ensures ScatterSlot(sc, phase, a + 1, i) == ScatterSlot(sc, phase, a, i)
    {
      var l := Locked(sc, LockEnd(sc));
      if |l| <= i < |l| + Min(|Crowd(sc)|, Budget(sc)) && InCrowd(sc, a) {
        AdmittedIsShown(sc, a, phase, i - |l|);
      }
    }
  }

  /** An admitted actor fills the one slot that was kept for it. */
  lemma ScatterFills(sc: Scene, phase: nat, a: nat)
    requires InCrowd(sc, a) && Admitted(sc, a, phase)
    ensures Rank(sc, a) < |Crowd(sc)|
    ensures var o := LockCount(sc) + Turn(Rank(sc, a), phase, |Crowd(sc)|);
            o < SLOTS && ScatterOam(sc, phase, a + 1) == ScatterOam(sc, phase, a)[o := Entry(sc, a)]
  {
    hide Crowd, Rank, RankAtTurn, Turn;
    RankInRange(sc, a);
    var t := Turn(Rank(sc, a), phase, |Crowd(sc)|);
    var o := LockCount(sc) + t;
    var after, want := ScatterOam(sc, phase, a + 1), ScatterOam(sc, phase, a)[o := Entry(sc, a)];
    forall i | 0 <= i < SLOTS
      ensures after[i] == want[i]
    {
      var l := Locked(sc, LockEnd(sc));
      if |l| <= i < |l| + Min(|Crowd(sc)|, Budget(sc)) {
        AdmittedIsShown(sc, a, phase, i - |l|);
      }
    }
  }

  // ---- the pass ----

  /** First the locked actors, onto the lowest slots. */
  method LockActors(sc: Scene, oam: array<nat>) returns (lockcnt: nat)
    requires oam.Length == SLOTS
    modifies oam
    ensures lockcnt == LockCount(sc) && oam[..] == LockedOam(sc, LockEnd(sc))
  {
    hide Entry, LockedOam, Locked, OnScreen;
    var i := 0;
    while i < SLOTS
      invariant 0 <= i <= SLOTS && forall j | 0 <= j < i :: oam[j] == UNTOUCHED
    {
      oam[i] := UNTOUCHED;
      i := i + 1;
    }
    NoneLocked(sc, oam[..]);
    lockcnt := 0;
    var a := 0;
    while a < sc.nLock && a < |sc.actors|
      invariant 0 <= a <= LockEnd(sc)
      invariant lockcnt == |Locked(sc, a)| && oam[..] == LockedOam(sc, a)
    {
      OneMoreLocked(sc, a);
      if OnScreen(sc, a) && lockcnt < SLOTS {
        oam[lockcnt] := Entry(sc, a);
        lockcnt := lockcnt + 1;
      }
      a := a + 1;
    }
  }

  lemma NoneLocked(sc: Scene, oam: seq<nat>)
    requires |oam| == SLOTS && forall j | 0 <= j < SLOTS :: oam[j] == UNTOUCHED
    ensures Locked(sc, 0) == [] && oam == LockedOam(sc, 0)
  {}

  lemma OneMoreLocked(sc: Scene, a: nat)
    requires a < |sc.actors|
    ensures var n := |Locked(sc, a)|;
            if OnScreen(sc, a) && n < SLOTS
            then |Locked(sc, a + 1)| == n + 1 && LockedOam(sc, a + 1) == LockedOam(sc, a)[n := Entry(sc, a)]
            else |Locked(sc, a + 1)| == n && LockedOam(sc, a + 1) == LockedOam(sc, a)
  {
    hide Entry, OnScreen;
  }

  /** Count the crowd by band. */
  method CountBands(sc: Scene, hist: array<nat>) returns (cw: nat)
    requires hist.Length == BANDS
    modifies hist
    ensures cw == |Crowd(sc)|
    ensures forall b | 0 <= b < BANDS :: hist[b] == |InBand(sc, Max(sc.nLock, |sc.actors|), b)|
  {
    hide InBand, CrowdBelow, Crowd;
    var b := 0;
    while b < BANDS
      invariant 0 <= b <= BANDS && forall j | 0 <= j < b :: hist[j] == 0
    {
      hist[b] := 0;
      b := b + 1;
    }
    forall j | 0 <= j < BANDS
      ensures hist[j] == |InBand(sc, sc.nLock, j)|
    {
      CountNothing(sc, j);
    }
    CountNothing(sc, 0);
    cw := 0;
    var a := sc.nLock;
    while a < |sc.actors|
      invariant sc.nLock <= a <= Max(sc.nLock, |sc.actors|)
      invariant cw == |CrowdBelow(sc, a)| && forall j | 0 <= j < BANDS :: hist[j] == |InBand(sc, a, j)|
    {
      forall j | 0 <= j < BANDS
        ensures |InBand(sc, a + 1, j)| == |InBand(sc, a, j)| + if InCrowd(sc, a) && Band(sc, a) == j then 1 else 0
      {
        CountNext(sc, a, j);
      }
      CountNext(sc, a, 0);
      if OnScreen(sc, a) {
        hist[Band(sc, a)] := hist[Band(sc, a)] + 1;
        cw := cw + 1;
      }
      a := a + 1;
    }
    CountAll(sc, a);
  }

  function Max(a: nat, b: nat): nat { if a > b then a else b }

  /** Turn counts into the rank each band starts at. */
  method SumBands(sc: Scene, hist: array<nat>)
    requires hist.Length == BANDS
    requires forall b | 0 <= b < BANDS :: hist[b] == |InBand(sc, Max(sc.nLock, |sc.actors|), b)|
    modifies hist
    ensures forall b | 0 <= b < BANDS :: hist[b] == |Under(sc, b)|
  {
    hide InBand, Under;
    var acc, b := 0, 0;
    CountNothing(sc, 0);
    while b < BANDS
      invariant 0 <= b <= BANDS && acc == |Under(sc, b)|
      invariant forall j | 0 <= j < b :: hist[j] == |Under(sc, j)|
      invariant forall j | b <= j < BANDS :: hist[j] == |InBand(sc, Max(sc.nLock, |sc.actors|), j)|
    {
      UnderNext(sc, b, Max(sc.nLock, |sc.actors|));
      var t := hist[b];
      hist[b] := acc;
      acc := acc + t;
      b := b + 1;
    }
  }

  /** phase % cw by repeated subtraction; untouched when nobody is in the crowd. */
  method ReducePhase(phase: nat, cw: nat) returns (rstart: nat)
    ensures rstart == if cw == 0 then phase else phase % cw
  {
    rstart := phase;
    while cw > 0 && rstart >= cw
      invariant cw > 0 ==> rstart % cw == phase % cw
      invariant cw == 0 ==> rstart == phase
      decreases rstart
    {
      ModShift(rstart, cw, -1);
      rstart := rstart - cw;
    }
    if cw > 0 {
      DivModUnique(rstart, cw, 0, rstart);
    }
  }

  /** model: the whole pass shows exactly what it must. */
  method Model(sc: Scene, phase: nat, oam: array<nat>)
    requires oam.Length == SLOTS
    modifies oam
    ensures oam[..] == Golden(sc, phase) && AdmissionPicture.Pictured(sc, phase, oam[..])
  {
    AdmissionPicture.GoldenIsPictured(sc, phase);
    hide AdmissionPicture.Pictured;
    hide Golden, ScatterOam, LockedOam, InBand, Under, Rank, Crowd, Turn, Entry, Locked;
    var lockcnt := LockActors(sc, oam);
    var hist := new nat[BANDS];
    var cw := CountBands(sc, hist);
    SumBands(sc, hist);
    var budget := if SLOTS > lockcnt then SLOTS - lockcnt else 0;
    var rstart := ReducePhase(phase, cw);
    ScatterStarts(sc, phase);
    forall b | 0 <= b < BANDS
      ensures |InBand(sc, sc.nLock, b)| == 0
    {
      CountNothing(sc, b);
    }
    var a := sc.nLock;
    while a < |sc.actors|
      invariant sc.nLock <= a <= Max(sc.nLock, |sc.actors|)
      invariant forall b | 0 <= b < BANDS :: hist[b] == |Under(sc, b)| + |InBand(sc, a, b)|
      invariant oam[..] == ScatterOam(sc, phase, a)
    {
      forall b | 0 <= b < BANDS
        ensures |InBand(sc, a + 1, b)| == |InBand(sc, a, b)| + if InCrowd(sc, a) && Band(sc, a) == b then 1 else 0
      {
        CountNext(sc, a, b);
      }
      if OnScreen(sc, a) {
        HistogramIsRank(sc, a);
        RankInRange(sc, a);
        var rank: int := hist[Band(sc, a)];
        hist[Band(sc, a)] := rank + 1;
        TurnByCases(rank, phase, cw);
        var rot: int := if rank >= rstart then rank - rstart else rank - rstart + cw;
        if rot < budget {
          ScatterFills(sc, phase, a);
          oam[lockcnt + rot] := Entry(sc, a);
        } else {
          ScatterSkips(sc, phase, a);
        }
      } else {
        ScatterSkips(sc, phase, a);
      }
      a := a + 1;
    }
    ScatterEnds(sc, phase, a);
  }
}
