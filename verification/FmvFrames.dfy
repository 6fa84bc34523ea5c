// Which decoded frame is on screen when: every frame that comes due is shown, in
// order, once. runtime/hx421_runtime.c, hx_produce_fmv_band and the FRAME_DONE
// branch of hx421_cart_read.
module FmvFrames {
  import opened Arith
  import opened Vram
  import opened Fmv

  /** A DUE FRAME IS SHOWN: from a flip on, the next band 0 takes the frame its tick
      brings, if playback runs and the preroll is over, and four steps later that
      frame is on screen; otherwise the one that was there stays. */
  lemma DueFrameIsShown(sys: System, t0: Tick, t1: Tick, t2: Tick, t3: Tick)
    requires Inv(sys) && sys.player.band == 3
    requires t0.Whole() && t1.Whole() && t2.Whole() && t3.Whole()
    ensures var s0 := Step(sys, t0);
            Inv(s0) && Inv(Step(s0, t1)) && Inv(Step(Step(s0, t1), t2))
    ensures var s3 := Step(Step(Step(Step(sys, t0), t1), t2), t3);
            && Inv(s3) && s3.player.band == 3 && s3.console.ShowsBuffers()
            && s3.console.Shown() ==
               if sys.player.preroll == 0 && t0.playing && t0.next.Some? then t0.next.value else sys.player.store
  {
    RevealedFrameIsTheDecodedOne(sys, t0, t1, t2, t3);
    Taken(sys, t0);
    var s2 := Step(Step(Step(sys, t0), t1), t2);
    StepOnScreen(s2, t3);
    hide Step, Inv;
  }

  /** What band 0 takes after a flip. */
  lemma Taken(sys: System, t: Tick)
    requires Inv(sys) && sys.player.band == 3 && t.Whole()
    ensures Step(sys, t).player.store ==
            if sys.player.preroll == 0 && t.playing && t.next.Some? then t.next.value else sys.player.store
  {}

  /** And what the kick takes, and shows three steps later. */
  lemma KickedFrameIsShown(c: Console, pl: Player, kick: Tick, t1: Tick, t2: Tick, t3: Tick)
    requires c.Fits() && pl.Valid() && pl.band == 0 && kick.Whole() && t1.Whole() && t2.Whole() && t3.Whole()
    ensures var s0 := Kicked(c, pl, kick);
            Inv(s0) && Inv(Step(s0, t1)) && Inv(Step(Step(s0, t1), t2))
    ensures var s3 := Step(Step(Step(Kicked(c, pl, kick), t1), t2), t3);
            && Inv(s3) && s3.player.band == 3 && s3.console.ShowsBuffers()
            && s3.console.Shown() ==
               if pl.needDecode && pl.preroll == 0 && kick.playing && kick.next.Some? then kick.next.value else pl.store
  {
    hide Inv, Step, Kicked, Console.Shown, Console.ShowsBuffers;
    KickStartsWell(c, pl, kick);
    KickLeaves(c, pl, kick);
    var s0 := Kicked(c, pl, kick);
    StepOnScreen(s0, t1);
    StepOnScreen(Step(s0, t1), t2);
    StepOnScreen(Step(Step(s0, t1), t2), t3);
  }

  // ---- whole runs ----

  /** The band after n more steps, and the preroll. */
  function BandOn(band: nat, n: nat): nat { (band + n) % 4 }
  function PrerollOn(preroll: nat, n: nat): nat { if preroll > n then preroll - n else 0 }

  lemma OnByOne(band: nat, preroll: nat, n: nat)
    ensures band < 4 ==> BandOn(band, 0) == band
    ensures PrerollOn(preroll, 0) == preroll
    ensures n > 0 ==> BandOn(band, n) == (BandOn(band, n - 1) + 1) % 4
    ensures n > 0 ==>
              PrerollOn(preroll, n) == if PrerollOn(preroll, n - 1) > 0 then PrerollOn(preroll, n - 1) - 1 else 0
  {}

  /** The bands go round, and the preroll runs down by one a step. */
  lemma {:induction false} WhereItIs(sys: System, ts: seq<Tick>)
    requires Inv(sys) && forall i | 0 <= i < |ts| :: ts[i].Whole()
    ensures Run(sys, ts).player.band == BandOn(sys.player.band, |ts|)
    ensures Run(sys, ts).player.preroll == PrerollOn(sys.player.preroll, |ts|)
    decreases |ts|
  {
    BandBelow(sys);
    OnByOne(sys.player.band, sys.player.preroll, |ts|);
    hide Inv, Step, BandOn, PrerollOn;
    if ts == [] {
    } else {
      WhereItIs(sys, ts[..|ts| - 1]);
      OneOn(Run(sys, ts[..|ts| - 1]), ts[|ts| - 1]);
    }
  }

  lemma BandBelow(sys: System)
    requires Inv(sys)
    ensures sys.player.band < 4
  {}

  lemma OneOn(sys: System, t: Tick)
    requires Inv(sys) && t.Whole()
    ensures Step(sys, t).player.band == (sys.player.band + 1) % 4
    ensures Step(sys, t).player.preroll == if sys.player.preroll > 0 then sys.player.preroll - 1 else 0
  {}

  lemma RunFour(sys: System, ts: seq<Tick>, n: nat)
    requires Inv(sys) && n + 4 <= |ts| && forall i | 0 <= i < |ts| :: ts[i].Whole()
    ensures var s := Run(sys, ts[..n]);
            && Inv(Step(s, ts[n])) && Inv(Step(Step(s, ts[n]), ts[n + 1]))
            && Inv(Step(Step(Step(s, ts[n]), ts[n + 1]), ts[n + 2]))
            && Run(sys, ts[..n + 4]) == Step(Step(Step(Step(s, ts[n]), ts[n + 1]), ts[n + 2]), ts[n + 3])
  {
    hide Inv, Step;
    OneMore(sys, ts, n);
    OneMore(sys, ts, n + 1);
    OneMore(sys, ts, n + 2);
    OneMore(sys, ts, n + 3);
  }

  lemma OneMore(sys: System, ts: seq<Tick>, n: nat)
    requires Inv(sys) && n < |ts| && forall i | 0 <= i < |ts| :: ts[i].Whole()
    ensures Run(sys, ts[..n + 1]) == Step(Run(sys, ts[..n]), ts[n])
    ensures Inv(Run(sys, ts[..n])) && Inv(Run(sys, ts[..n + 1]))
  {
    assert ts[..n + 1][..n] == ts[..n];
    hide Inv, Step;
  }

  /** What stands on screen at flip m, three steps after the m-th band 0. */
  ghost function Flip(c: Console, pl: Player, kick: Tick, ts: seq<Tick>, m: nat): Picture
    requires c.Fits() && pl.Valid() && pl.band == 0 && kick.Whole()
    requires 4 * m + 3 <= |ts| && forall i | 0 <= i < |ts| :: ts[i].Whole()
  {
    KickStartsWell(c, pl, kick);
    InvFits(Run(Kicked(c, pl, kick), ts[..4 * m + 3]));
    Run(Kicked(c, pl, kick), ts[..4 * m + 3]).console.Shown()
  }

  lemma InvFits(sys: System)
    requires Inv(sys)
    ensures sys.console.Fits() && sys.console.ShowsBuffers()
  {
    ShowsFits(sys.console, Revealed(sys.player));
  }

  /** EVERY DUE FRAME, IN ORDER, ONCE: flip 0 shows the frame the kick brought, and
      flip m the one that the tick of the m-th band 0 brought; where none was due,
      for want of a frame, of playback or of the end of the preroll, the last one
      stays. Nothing else is ever on screen. */
  lemma FlipShows(c: Console, pl: Player, kick: Tick, ts: seq<Tick>, m: nat)
    requires c.Fits() && pl.Valid() && pl.band == 0 && kick.Whole()
    requires 4 * m + 3 <= |ts| && forall i | 0 <= i < |ts| :: ts[i].Whole()
    ensures m == 0 ==>
              Flip(c, pl, kick, ts, 0) ==
              if pl.needDecode && pl.preroll == 0 && kick.playing && kick.next.Some? then kick.next.value else pl.store
    ensures m > 0 ==>
              var t := ts[4 * m - 1];
              Flip(c, pl, kick, ts, m) ==
              if pl.preroll <= 4 * m && t.playing && t.next.Some? then t.next.value
              else Flip(c, pl, kick, ts, m - 1)
  {
    hide Inv, Step, Kicked, Console.Shown, Console.ShowsBuffers;
    KickStartsWell(c, pl, kick);
    if m == 0 {
      FirstFlip(c, pl, kick, ts);
    } else {
      LaterFlip(c, pl, kick, ts, m);
    }
  }

  lemma FirstFlip(c: Console, pl: Player, kick: Tick, ts: seq<Tick>)
    requires c.Fits() && pl.Valid() && pl.band == 0 && kick.Whole()
    requires 3 <= |ts| && forall i | 0 <= i < |ts| :: ts[i].Whole()
    ensures Flip(c, pl, kick, ts, 0) ==
            if pl.needDecode && pl.preroll == 0 && kick.playing && kick.next.Some? then kick.next.value else pl.store
  {
    hide Inv, Step, Kicked, Console.Shown, Console.ShowsBuffers;
    KickStartsWell(c, pl, kick);
    var start := Kicked(c, pl, kick);
    KickedFrameIsShown(c, pl, kick, ts[0], ts[1], ts[2]);
    assert ts[..0] == [] && Run(start, []) == start;
    OneMore(start, ts, 0);
    OneMore(start, ts, 1);
    OneMore(start, ts, 2);
    hide Run;
  }

  lemma LaterFlip(c: Console, pl: Player, kick: Tick, ts: seq<Tick>, m: nat)
    requires c.Fits() && pl.Valid() && pl.band == 0 && kick.Whole() && m > 0
    requires 4 * m + 3 <= |ts| && forall i | 0 <= i < |ts| :: ts[i].Whole()
    ensures var t := ts[4 * m - 1];
            Flip(c, pl, kick, ts, m) ==
            if pl.preroll <= 4 * m && t.playing && t.next.Some? then t.next.value
            else Flip(c, pl, kick, ts, m - 1)
  {
    hide Inv, Step, Kicked, Run, Console.Shown, Console.ShowsBuffers;
    KickStartsWell(c, pl, kick);
    KickLeaves(c, pl, kick);
    var start, n := Kicked(c, pl, kick), 4 * m - 1;
    BackToFlip(m);
    WhereItIs(start, ts[..n]);
    RunFour(start, ts, n);
    DueFrameIsShown(Run(start, ts[..n]), ts[n], ts[n + 1], ts[n + 2], ts[n + 3]);
    WhereItIs(start, ts[..n - 1]);
    OneMore(start, ts, n - 1);
    StepOnScreen(Run(start, ts[..n - 1]), ts[n - 1]);
  }

  lemma BackToFlip(m: nat)
    requires m > 0
    ensures 4 * (m - 1) + 3 == 4 * m - 1 && (4 * m - 1) % 4 == 3 && (4 * m - 2) % 4 == 2
    ensures 4 * m + 3 == 4 * m - 1 + 4 && (4 * m - 1 - 1) == 4 * m - 2
  {}

  lemma KickLeaves(c: Console, pl: Player, kick: Tick)
    requires c.Fits() && pl.Valid() && pl.band == 0 && kick.Whole()
    ensures Kicked(c, pl, kick).player.band == 0
    ensures Kicked(c, pl, kick).player.store ==
            if pl.needDecode && pl.preroll == 0 && kick.playing && kick.next.Some? then kick.next.value else pl.store
    ensures Kicked(c, pl, kick).player.preroll == if pl.preroll > 0 then pl.preroll - 1 else 0
  {}

  /** Between two flips the picture stays. */
  lemma BetweenFlips(c: Console, pl: Player, kick: Tick, ts: seq<Tick>, m: nat, n: nat)
    requires c.Fits() && pl.Valid() && pl.band == 0 && kick.Whole()
    requires 4 * m + 3 <= n <= |ts| && n <= 4 * m + 6 && forall i | 0 <= i < |ts| :: ts[i].Whole()
    ensures Inv(Kicked(c, pl, kick)) && Run(Kicked(c, pl, kick), ts[..n]).console.ShowsBuffers()
    ensures Run(Kicked(c, pl, kick), ts[..n]).console.Shown() == Flip(c, pl, kick, ts, m)
  {
    hide Inv, Step, Kicked, Run, Console.Shown, Console.ShowsBuffers;
    KickStartsWell(c, pl, kick);
    KickLeaves(c, pl, kick);
    ShownStays(Kicked(c, pl, kick), ts, m, n);
  }

  lemma {:induction false} ShownStays(start: System, ts: seq<Tick>, m: nat, n: nat)
    requires Inv(start) && start.player.band == 0 && forall i | 0 <= i < |ts| :: ts[i].Whole()
    requires 4 * m + 3 <= n <= |ts| && n <= 4 * m + 6
    ensures var a, b := Run(start, ts[..n]).console, Run(start, ts[..4 * m + 3]).console;
            a.ShowsBuffers() && b.ShowsBuffers() && a.Shown() == b.Shown()
    decreases n
  {
    hide Inv, Step, Run, Console.Shown, Console.ShowsBuffers;
    if n == 4 * m + 3 {
      InvFits(Run(start, ts[..n]));
    } else {
      ShownStays(start, ts, m, n - 1);
      OneMore(start, ts, n - 1);
      QuietStep(start, ts, m, n);
    }
  }

  lemma QuietStep(start: System, ts: seq<Tick>, m: nat, n: nat)
    requires Inv(start) && start.player.band == 0 && forall i | 0 <= i < |ts| :: ts[i].Whole()
    requires 4 * m + 3 < n <= |ts| && n <= 4 * m + 6
    ensures var before := Run(start, ts[..n - 1]);
            && before.console.ShowsBuffers() && Step(before, ts[n - 1]).console.ShowsBuffers()
            && Step(before, ts[n - 1]).console.Shown() == before.console.Shown()
  {
    hide Inv, Step, Run, Console.Shown, Console.ShowsBuffers;
    WhereItIs(start, ts[..n]);
    OneMore(start, ts, n - 1);
    StepOnScreen(Run(start, ts[..n - 1]), ts[n - 1]);
    NotAFlip(m, n);
  }

  lemma NotAFlip(m: nat, n: nat)
    requires 4 * m + 3 < n <= 4 * m + 6
    ensures n % 4 != 3
  {}

  // ---- the rest of the console ----

  /** THE SPRITES AND THE REGISTERS: every step sends sprites 0..63, the one to band
      3 all of them; the one to band 1 brings the sprite tiles and the upper half of
      the palette, and no other touches them; the one to band 0 sets the console up
      and holds the registers on the buffer in front, the one to band 3 turns them to
      the other. */
  lemma StepBrings(sys: System, t: Tick)
    requires Inv(sys) && t.Whole()
    ensures var b, front := (sys.player.band + 1) % 4, Step(sys, t).player.front;
            var c, c', sp := sys.console, Step(sys, t).console, t.sprites;
            && c.Fits() && c'.Fits() && (front == A <==> (sys.player.front == A) == (b != 0))
            && c'.oam[..128] == sp.oam[..128]
            && c'.oam[128..] == (if b == 3 then sp.oam[128..] else c.oam[128..])
            && c'.cgram[128..] == (if b == 1 then sp.pal else c.cgram[128..])
            && c'.vram[28880..29072] == (if b == 1 then sp.chr else c.vram[28880..29072])
            && c'.setup == Setup(0x01, 0x03, 0x11, 0, 0x3FF)
            && (c'.sc == 0x7C && c'.nba == 0x00 <==> (front == A) == (b != 3))
            && (c'.sc == 0x78 && c'.nba == 0x03 <==> (front == A) == (b == 3))
  {
    StepRegisters(sys, t);
    StepTables(sys, t);
    StepObjects(sys, t);
    hide Step, Inv;
  }

  lemma StepRegisters(sys: System, t: Tick)
    requires Inv(sys) && t.Whole()
    ensures var b, front := (sys.player.band + 1) % 4, Step(sys, t).player.front;
            var c' := Step(sys, t).console;
            && (front == A <==> (sys.player.front == A) == (b != 0))
            && c'.setup == Setup(0x01, 0x03, 0x11, 0, 0x3FF)
            && (c'.sc == 0x7C && c'.nba == 0x00 <==> (front == A) == (b != 3))
            && (c'.sc == 0x78 && c'.nba == 0x03 <==> (front == A) == (b == 3))
  {
    StepKeepsInv(sys, t);
    NextBand(sys.player, t);
    hide Filled, RunBand, BandStrips, ApplyAll, Console.Shown;
  }

  lemma StepTables(sys: System, t: Tick)
    requires Inv(sys) && t.Whole()
    ensures var b := (sys.player.band + 1) % 4;
            var c, c', sp := sys.console, Step(sys, t).console, t.sprites;
            && c.Fits() && c'.Fits()
            && c'.oam[..128] == sp.oam[..128]
            && c'.oam[128..] == (if b == 3 then sp.oam[128..] else c.oam[128..])
            && c'.cgram[128..] == (if b == 1 then sp.pal else c.cgram[128..])
  {
    hide Filled, BandStrips, ApplyAll, Console.Shown;
  }

  lemma StepObjects(sys: System, t: Tick)
    requires Inv(sys) && t.Whole()
    ensures var b := (sys.player.band + 1) % 4;
            var c, c' := sys.console, Step(sys, t).console;
            && c.Fits() && c'.Fits()
            && c'.vram[28880..29072] == (if b == 1 then t.sprites.chr else c.vram[28880..29072])
  {
    NextBand(sys.player, t);
    var q := Produced(Advanced(sys.player), t);
    hide Filled, BandStrips, ApplyAll, Console.Shown, Produced, Advanced;
    var c, c' := sys.console, Step(sys, t).console;
    forall a | 28880 <= a < 29072
      ensures c'.vram[a] == if q.band == 1 then t.sprites.chr[a - 28880] else c.vram[a]
    {
      ObjectWord(c.vram, q.band, Other(q.front), q.store, t.sprites, a);
    }
  }

  /** A word of the sprite tiles is sent by band 1, and by nothing else. */
  lemma ObjectWord(v: seq<Word>, band: nat, back: Buffer, p: Picture, sp: Sprites, a: nat)
    requires |v| == VRAM_WORDS && band < 4 && p.Whole() && sp.Whole() && 28880 <= a < 29072
    ensures ApplyAll(v, BandStrips(band, back, p, sp))[a] == if band == 1 then sp.chr[a - 28880] else v[a]
  {
    hide ApplyAll;
    if band == 1 {
      OnlyWriter(v, BandStrips(band, back, p, sp), 2, a);
    } else {
      Untouched(v, BandStrips(band, back, p, sp), a);
    }
  }
}
