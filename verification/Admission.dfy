// Which actors get an OAM slot, and when: depth ranks and the rotating window.
// fpga/cores/actor/tb/gen_vectors.c.
module Admission {
  import opened Arith
  import opened Counting

  const SLOTS: nat := 128
  const SCREEN_H: nat := 240
  const BANDS: nat := 30
  const UNTOUCHED: nat := 0xFFFF_FFFF

  type Coord = x: int | 0 <= x < 0x1_0000

  datatype Actor = Actor(wx: Coord, wy: Coord, tile: Coord, attr: Coord)

  /** The actor list and how many of its first actors are locked to the front. */
  datatype Scene = Scene(actors: seq<Actor>, nLock: nat)

  predicate OnScreen(sc: Scene, a: nat)
    requires a < |sc.actors|
  {
    sc.actors[a].wx < 256 && sc.actors[a].wy < SCREEN_H
  }

  function Band(sc: Scene, a: nat): nat
    requires a < |sc.actors|
  {
    sc.actors[a].wy / 8
  }

  /** The OAM word of an actor: attribute, tile, y, x, a byte each. */
  function Entry(sc: Scene, a: nat): nat
    requires a < |sc.actors|
  {
    var x := sc.actors[a];
    x.attr % 256 * 0x100_0000 + x.tile % 256 * 0x1_0000 + x.wy % 256 * 0x100 + x.wx % 256
  }

  /** No on-screen actor's word reads as an untouched slot. */
  lemma EntryIsNotUntouched(sc: Scene, a: nat)
    requires a < |sc.actors| && OnScreen(sc, a)
    ensures Entry(sc, a) != UNTOUCHED
  {}

  // ---- the locked actors ----

  /** The on-screen actors among the first n, at most one per slot. */
  function Locked(sc: Scene, n: nat): (l: seq<nat>)
    requires n <= |sc.actors|
    ensures |l| <= SLOTS && |l| <= n
    ensures forall k | 0 <= k < |l| :: l[k] < n && OnScreen(sc, l[k])
    ensures forall j, k | 0 <= j < k < |l| :: l[j] < l[k]
  {
    if n == 0 then []
    else
      var l := Locked(sc, n - 1);
      if OnScreen(sc, n - 1) && |l| < SLOTS then l + [n - 1] else l
  }

  function LockEnd(sc: Scene): nat { if sc.nLock < |sc.actors| then sc.nLock else |sc.actors| }

  function LockCount(sc: Scene): nat { |Locked(sc, LockEnd(sc))| }

  function Budget(sc: Scene): nat { SLOTS - LockCount(sc) }

  // ---- the crowd and its depth order ----

  predicate InCrowd(sc: Scene, a: int) { sc.nLock <= a < |sc.actors| && OnScreen(sc, a) }

  ghost function Crowd(sc: Scene): set<int> { set a: int | sc.nLock <= a < |sc.actors| && InCrowd(sc, a) }

  /** Nearer bands later, the list's order within a band. */
  predicate Before(sc: Scene, b: int, a: int)
    requires InCrowd(sc, a) && InCrowd(sc, b)
  {
    Band(sc, b) < Band(sc, a) || (Band(sc, b) == Band(sc, a) && b < a)
  }

  ghost function Ahead(sc: Scene, a: int): set<int>
    requires InCrowd(sc, a)
  {
    set b | b in Crowd(sc) && Before(sc, b, a)
  }

  /** The depth rank of a crowd actor: how many come before it. */
  ghost function Rank(sc: Scene, a: int): nat {
    if InCrowd(sc, a) then |Ahead(sc, a)| else 0
  }

  lemma RankOrder(sc: Scene, a: int, b: int)
    requires InCrowd(sc, a) && InCrowd(sc, b) && Before(sc, a, b)
    ensures Rank(sc, a) < Rank(sc, b)
  {
    assert Ahead(sc, a) <= Ahead(sc, b) && a in Ahead(sc, b) && a !in Ahead(sc, a);
    SubsetSize(Ahead(sc, a), Ahead(sc, b));
  }

  /** Ranks are ordered by band and stable within one; no two are equal. */
  lemma RanksAreTheOrder(sc: Scene, a: int, b: int)
    requires InCrowd(sc, a) && InCrowd(sc, b)
    ensures Rank(sc, a) < Rank(sc, b) <==> Before(sc, a, b)
    ensures Rank(sc, a) == Rank(sc, b) <==> a == b
  {
    if Before(sc, a, b) {
      RankOrder(sc, a, b);
    } else if Before(sc, b, a) {
      RankOrder(sc, b, a);
    }
  }

  lemma RankInRange(sc: Scene, a: int)
    requires InCrowd(sc, a)
    ensures Rank(sc, a) < |Crowd(sc)|
  {
    assert Ahead(sc, a) <= Crowd(sc) && a in Crowd(sc) && a !in Ahead(sc, a);
    SubsetSize(Ahead(sc, a), Crowd(sc));
  }

  /** THE RANKS ARE A BIJECTION from the crowd onto 0 .. cw-1. */
  lemma RanksAreABijection(sc: Scene)
    ensures Injective(Crowd(sc), a => Rank(sc, a))
    ensures Image(Crowd(sc), a => Rank(sc, a)) == Upto(|Crowd(sc)|)
  {
    hide Rank;
    forall a, b | a in Crowd(sc) && b in Crowd(sc) && Rank(sc, a) == Rank(sc, b)
      ensures a == b
    {
      RanksAreTheOrder(sc, a, b);
    }
    forall a | a in Crowd(sc)
      ensures 0 <= Rank(sc, a) < |Crowd(sc)|
    {
      RankInRange(sc, a);
    }
    InjectionIsOnto(Crowd(sc), a => Rank(sc, a), |Crowd(sc)|);
  }

  lemma SomeoneHasRank(sc: Scene, k: nat)
    requires k < |Crowd(sc)|
    ensures exists a :: InCrowd(sc, a) && Rank(sc, a) == k
  {
    RanksAreABijection(sc);
    assert k in Image(Crowd(sc), a => Rank(sc, a));
    var a :| a in Crowd(sc) && Rank(sc, a) == k;
  }

  /** The crowd actor of rank k. */
  ghost function ActorOfRank(sc: Scene, k: nat): (a: nat)
    requires k < |Crowd(sc)|
    ensures InCrowd(sc, a) && Rank(sc, a) == k
  {
    SomeoneHasRank(sc, k);
    var a :| InCrowd(sc, a) && Rank(sc, a) == k;
    a
  }

  // ---- the rotating window ----

  /** Place of rank k in the window that starts at `phase`. */
  function Turn(k: int, phase: nat, cw: nat): (t: nat)
    requires cw > 0
    ensures t < cw
  {
    (k - phase) % cw
  }

  /** The code's two steps: reduce the phase, then rotate the rank. */
  lemma TurnByCases(k: nat, phase: nat, cw: nat)
    requires k < cw
    ensures var start := phase % cw;
            Turn(k, phase, cw) == if k >= start then k - start else k - start + cw
  {
    var q, start := phase / cw, phase % cw;
    assert phase == q * cw + start;
    if k >= start {
      assert k - phase == (-q) * cw + (k - start);
      DivModUnique(k - phase, cw, -q, k - start);
    } else {
      assert k - phase == (-q - 1) * cw + (k - start + cw);
      DivModUnique(k - phase, cw, -q - 1, k - start + cw);
    }
  }

  /** The rank whose turn is t. */
  function RankAtTurn(t: nat, phase: nat, cw: nat): (k: nat)
    requires cw > 0
    ensures k < cw
  {
    (t + phase) % cw
  }

  lemma TurnsInvert(k: nat, t: nat, phase: nat, cw: nat)
    requires k < cw && t < cw
    ensures Turn(k, phase, cw) == t <==> k == RankAtTurn(t, phase, cw)
  {
    var q, r := (t + phase) / cw, RankAtTurn(t, phase, cw);
    assert t + phase == q * cw + r;
    assert r - phase == (-q) * cw + t;
    DivModUnique(r - phase, cw, -q, t);
    if Turn(k, phase, cw) == t {
      SameResidueNear(k - phase, r - phase, cw);
    }
  }

  /** WHAT THE HARDWARE MUST SHOW. Locked actors first; then the crowd in depth
      order, rotated by the phase, as far as slots last; the rest untouched. */
  ghost function Golden(sc: Scene, phase: nat): (oam: seq<nat>)
    ensures |oam| == SLOTS
  {
    seq(SLOTS, i requires 0 <= i < SLOTS => GoldenSlot(sc, phase, i))
  }

  ghost function GoldenSlot(sc: Scene, phase: nat, i: nat): nat {
    var l := Locked(sc, LockEnd(sc));
    if i < |l| then Entry(sc, l[i])
    else if i - |l| < Min(|Crowd(sc)|, Budget(sc)) then
      Entry(sc, ActorOfRank(sc, RankAtTurn(i - |l|, phase, |Crowd(sc)|)))
    else UNTOUCHED
  }

  /** Crowd actor a is shown in the frame with this phase. */
  ghost predicate Admitted(sc: Scene, a: int, phase: nat)
    requires InCrowd(sc, a)
  {
    RankInRange(sc, a);
    Turn(Rank(sc, a), phase, |Crowd(sc)|) < Budget(sc)
  }

  /** An admitted actor stands in exactly one of the slots after the locked ones. */
  lemma AdmittedIsShown(sc: Scene, a: int, phase: nat, t: nat)
    requires InCrowd(sc, a) && t < Min(|Crowd(sc)|, Budget(sc))
    ensures Rank(sc, a) < |Crowd(sc)|
    ensures ActorOfRank(sc, RankAtTurn(t, phase, |Crowd(sc)|)) == a <==> t == Turn(Rank(sc, a), phase, |Crowd(sc)|)
  {
    hide Rank;
    var cw := |Crowd(sc)|;
    RankInRange(sc, a);
    TurnsInvert(Rank(sc, a), t, phase, cw);
    RanksAreTheOrder(sc, a, ActorOfRank(sc, RankAtTurn(t, phase, cw)));
  }

  /** Phases p .. p+cw-1 in which actor a is admitted. */
  ghost function Appearances(sc: Scene, a: int, p: nat): set<int>
    requires InCrowd(sc, a)
  {
    set phase: int | p <= phase < p + |Crowd(sc)| && Admitted(sc, a, phase)
  }

  /** EXACT FAIRNESS. Over any cw consecutive phases of a fixed scene every crowd
      actor is admitted exactly min(cw, budget) times. */
  lemma EveryActorGetsItsShare(sc: Scene, a: int, p: nat)
    requires InCrowd(sc, a)
    ensures |Appearances(sc, a, p)| == Min(|Crowd(sc)|, Budget(sc))
  {
    hide Rank, Crowd, Budget, Turn;
    var cw, m := |Crowd(sc)|, Min(|Crowd(sc)|, Budget(sc));
    RankInRange(sc, a);
    var k := Rank(sc, a);
    var f: int -> int := phase => if phase >= 0 then Turn(k, phase, cw) else -1;
    var s := Appearances(sc, a, p);
    forall x, y | x in s && y in s && f(x) == f(y)
      ensures x == y
    {
      TurnIsResidue(k, x, y, cw);
    }
    forall t | 0 <= t < m
      ensures t in Image(s, f)
    {
      var phase := PhaseOfTurn(k, t, p, cw);
      assert phase in s && f(phase) == t;
    }
    assert Image(s, f) == Upto(m);
    ImageSize(s, f);
  }

  lemma TurnIsResidue(k: nat, x: nat, y: nat, cw: nat)
    requires k < cw && Turn(k, x, cw) == Turn(k, y, cw) && x - y < cw && y - x < cw
    ensures x == y
  {
    SameResidueNear(k - x, k - y, cw);
  }

  /** Among cw consecutive phases one gives rank k turn t. */
  lemma PhaseOfTurn(k: nat, t: nat, p: nat, cw: nat) returns (phase: nat)
    requires k < cw && t < cw
    ensures p <= phase < p + cw && Turn(k, phase, cw) == t
  {
    phase := p + (k - t - p) % cw;
    var q := (k - t - p) / cw;
    assert k - t - p == q * cw + (k - t - p) % cw;
    assert k - phase == q * cw + t;
    DivModUnique(k - phase, cw, q, t);
  }
}
