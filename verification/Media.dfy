// The media service: mailbox commands drive stream slots, their open assets and
// their mixer channels. firmware/media/hx421_media.c.
module MediaSlots {
  import opened Arith
  import Streams

  const SLOTS: nat := 4

  datatype Slot = Slot(active: bool, enabled: bool, asset: nat, gain: nat, pan: nat)
  /** What the streaming arbiter says of a slot's stream. */
  datatype Flags = Flags(active: bool, primed: bool)
  datatype AssetCall = Opened(asset: nat) | Closed(asset: nat)
  datatype Level = Level(gain: nat, pan: nat)

  /** A slot with its stream, the asset calls made on it and, from the last call
      to the mixer, the level its channel plays at, if it does. */
  datatype Unit = Unit(slot: Slot, stream: Flags, calls: seq<AssetCall>, sounding: Option<Level>)

  const IDLE: Unit := Unit(Slot(false, false, 0, 0, 128), Flags(false, false), [], None)

  /** The asset open after some calls; a call out of turn leaves no answer. */
  function OpenAfter(calls: seq<AssetCall>): Option<Option<nat>> {
    if calls == [] then Some(None)
    else
      var before := OpenAfter(calls[..|calls| - 1]);
      match calls[|calls| - 1]
      case Opened(id) => if before == Some(None) then Some(Some(id)) else None
      case Closed(id) => if before == Some(Some(id)) then Some(None) else None
  }

  lemma OpenAfterOne(calls: seq<AssetCall>, c: AssetCall)
    ensures OpenAfter(calls + [c]) ==
            match c
            case Opened(id) => if OpenAfter(calls) == Some(None) then Some(Some(id)) else None
            case Closed(id) => if OpenAfter(calls) == Some(Some(id)) then Some(None) else None
  {
    assert (calls + [c])[..|calls|] == calls;
  }

  /** Every open is closed once, by its own id, before the next open; a slot is
      active exactly while an asset is open on it; a channel plays exactly while
      its slot is enabled, and only while its stream is active and primed. */
  ghost predicate UnitOk(u: Unit) {
    && u.stream.active == u.slot.active
    && OpenAfter(u.calls) == Some(if u.slot.active then Some(u.slot.asset) else None)
    && (u.slot.enabled ==> u.slot.active && u.stream.primed)
    && u.sounding == if u.slot.enabled then Some(Level(u.slot.gain, u.slot.pan)) else None
  }

  // ---- what a command amounts to ----

  function Stopped(u: Unit): Unit {
    if u.slot.active then
      Unit(u.slot.(active := false, enabled := false), u.stream.(active := false), u.calls + [Closed(u.slot.asset)],
           None)
    else u
  }

  /** The platform's answer to asset_open: the file, and where its data lies. */
  datatype Extent = Extent(off: nat, bytes: nat, file: seq<Byte>)

  function Played(u: Unit, asset: nat, gain: nat, pan: nat, answer: Option<Extent>, ringSize: nat, chunk: nat): Unit {
    var v := Stopped(u);
    if answer == None then v
    else if !Streams.StartOk(ringSize, Streams.ChunkOf(chunk), answer.value.bytes)
         then v.(calls := v.calls + [Opened(asset), Closed(asset)])
    else Unit(Slot(true, false, asset, gain, pan), Flags(true, false), v.calls + [Opened(asset)], v.sounding)
  }

  function Sought(u: Unit): Unit {
    if u.slot.active
       then u.(slot := u.slot.(enabled := false), stream := u.stream.(primed := false), sounding := None) else u
  }

  function Regained(u: Unit, gain: nat, pan: nat): Unit {
    if u.slot.active then
      u.(slot := u.slot.(gain := gain, pan := pan),
        sounding := if u.slot.enabled then Some(Level(gain, pan)) else u.sounding)
    else u
  }

  function Enabled(u: Unit): Unit {
    if u.slot.active && !u.slot.enabled && u.stream.active && u.stream.primed then
      u.(slot := u.slot.(enabled := true), sounding := Some(Level(u.slot.gain, u.slot.pan)))
    else u
  }

  /** The arbiter found the stream's head loaded. */
  function Primed(u: Unit): Unit { if u.stream.active then u.(stream := u.stream.(primed := true)) else u }

  lemma StepsKeepUnit(u: Unit, asset: nat, gain: nat, pan: nat, answer: Option<Extent>, ringSize: nat, chunk: nat)
    requires UnitOk(u)
    ensures UnitOk(Stopped(u)) && !Stopped(u).slot.active && Stopped(u).sounding == None
    ensures UnitOk(Played(u, asset, gain, pan, answer, ringSize, chunk))
    ensures UnitOk(Sought(u)) && UnitOk(Regained(u, gain, pan)) && UnitOk(Enabled(u)) && UnitOk(Primed(u))
  {
    hide OpenAfter;
    OpenAfterOne(u.calls, Closed(u.slot.asset));
    var v := Stopped(u);
    OpenAfterOne(v.calls, Opened(asset));
    OpenAfterOne(v.calls + [Opened(asset)], Closed(asset));
    assert v.calls + [Opened(asset), Closed(asset)] == v.calls + [Opened(asset)] + [Closed(asset)];
  }

  // ---- runs ----

  datatype Op = Nop | Play | Stop | Seek | Gain | StopAll | Unknown
  datatype Cmd = Cmd(op: Op, slot: nat, asset: nat, gain: nat, pan: nat, looping: bool, prio: nat, arg: nat)

  /** One thing that happens to the service; `answer` is the platform's answer. */
  datatype Event = Apply(cmd: Cmd, answer: Option<Extent>) | Enable(s: nat) | Prime(s: nat)

  datatype Config = Config(ringSize: seq<nat>, chunk: nat, base: seq<nat>, primeBytes: seq<nat>)

  function Result(units: seq<Unit>, cfg: Config, cmd: Cmd, answer: Option<Extent>): int
    requires |units| == |cfg.ringSize| == SLOTS
  {
    match cmd.op
    case Nop => 0
    case Play =>
      if cmd.slot >= SLOTS then -1
      else if cfg.ringSize[cmd.slot] == 0 then -2
      else if answer == None then -3
      else if !Streams.StartOk(cfg.ringSize[cmd.slot], Streams.ChunkOf(cfg.chunk), answer.value.bytes) then -4
      else 0
    case Stop => if cmd.slot >= SLOTS then -1 else 0
    case Seek => if cmd.slot >= SLOTS || !units[cmd.slot].slot.active then -1 else 0
    case Gain => if cmd.slot >= SLOTS || !units[cmd.slot].slot.active then -1 else 0
    case StopAll => 0
    case Unknown => -5
  }

  function Applied(units: seq<Unit>, cfg: Config, cmd: Cmd, answer: Option<Extent>): (r: seq<Unit>)
    requires |units| == |cfg.ringSize| == SLOTS
    ensures |r| == SLOTS
  {
    match cmd.op
    case Play =>
      if cmd.slot >= SLOTS || cfg.ringSize[cmd.slot] == 0 then units
      else units[cmd.slot := Played(units[cmd.slot], cmd.asset, cmd.gain, cmd.pan, answer, cfg.ringSize[cmd.slot],
                                    cfg.chunk)]
    case Stop => if cmd.slot >= SLOTS then units else units[cmd.slot := Stopped(units[cmd.slot])]
    case Seek => if cmd.slot >= SLOTS then units else units[cmd.slot := Sought(units[cmd.slot])]
    case Gain => if cmd.slot >= SLOTS then units else units[cmd.slot := Regained(units[cmd.slot], cmd.gain, cmd.pan)]
    case StopAll => AllStopped(units, SLOTS)
    case Nop => units
    case Unknown => units
  }

  // ---- what a command does, in its own terms ----

  /** Nothing of the slot is left: inactive, mute, and every asset closed. */
  ghost predicate Silent(u: Unit) {
    && !u.slot.active && !u.slot.enabled && !u.stream.active && u.sounding == None
    && OpenAfter(u.calls) == Some(None)
  }

  ghost predicate Elsewhere(us: seq<Unit>, vs: seq<Unit>, s: nat) {
    |us| == |vs| == SLOTS && forall i | 0 <= i < SLOTS && i != s :: vs[i] == us[i]
  }

  /** THE COMMANDS, each by its result and what it leaves. */
  ghost predicate Outcome(us: seq<Unit>, vs: seq<Unit>, cfg: Config, c: Cmd, answer: Option<Extent>, res: int)
    requires |us| == |vs| == |cfg.ringSize| == SLOTS
  {
    match c.op
    case Nop => res == 0 && vs == us
    case Unknown => res == -5 && vs == us
    case StopAll => res == 0 && forall i | 0 <= i < SLOTS :: Silent(vs[i])
    case Stop => if c.slot >= SLOTS then res == -1 && vs == us else res == 0 && StopsOne(us, vs, c.slot)
    case Play =>
      if c.slot >= SLOTS then res == -1 && vs == us
      else if cfg.ringSize[c.slot] == 0 then res == -2 && vs == us
      else
        && Elsewhere(us, vs, c.slot)
        && if answer == None then res == -3 && Silent(vs[c.slot])
           else if cfg.ringSize[c.slot] < 2 * Streams.ChunkOf(cfg.chunk) || cfg.ringSize[c.slot] % 4 != 0
                || answer.value.bytes < 4 then res == -4 && Silent(vs[c.slot])
           else res == 0 && PlaysNow(vs[c.slot], c)
    case Seek =>
      if c.slot >= SLOTS || !us[c.slot].slot.active then res == -1 && vs == us
      else res == 0 && Elsewhere(us, vs, c.slot) && Mutes(us[c.slot], vs[c.slot])
    case Gain =>
      if c.slot >= SLOTS || !us[c.slot].slot.active then res == -1 && vs == us
      else res == 0 && Elsewhere(us, vs, c.slot) && Levels(us[c.slot], vs[c.slot], c)
  }

  /** Slot s is silent, its open asset closed, if it had one. */
  ghost predicate StopsOne(us: seq<Unit>, vs: seq<Unit>, s: nat)
    requires |us| == |vs| == SLOTS && s < SLOTS
  {
    && Elsewhere(us, vs, s) && Silent(vs[s])
    && vs[s].calls == us[s].calls + if us[s].slot.active then [Closed(us[s].slot.asset)] else []
  }

  /** The asset is open and its stream runs, mute until it is ready. */
  ghost predicate PlaysNow(v: Unit, c: Cmd) {
    && v.slot.active && !v.slot.enabled && v.slot.asset == c.asset && v.slot.gain == c.gain && v.slot.pan == c.pan
    && v.stream.active && !v.stream.primed && v.sounding == None && OpenAfter(v.calls) == Some(Some(c.asset))
  }

  /** Mute and not ready; the asset stays open, the level stays set. */
  ghost predicate Mutes(u: Unit, v: Unit) {
    && v.slot.active && !v.slot.enabled && v.slot.asset == u.slot.asset
    && v.slot.gain == u.slot.gain && v.slot.pan == u.slot.pan
    && v.stream.active && !v.stream.primed && v.sounding == None && v.calls == u.calls
  }

  /** The new level, at the mixer too if the channel plays. */
  ghost predicate Levels(u: Unit, v: Unit, c: Cmd) {
    && v.slot.active && v.slot.enabled == u.slot.enabled && v.slot.asset == u.slot.asset
    && v.slot.gain == c.gain && v.slot.pan == c.pan && v.stream == u.stream && v.calls == u.calls
    && v.sounding == if u.slot.enabled then Some(Level(c.gain, c.pan)) else None
  }

  lemma AppliedIs(us: seq<Unit>, cfg: Config, c: Cmd, answer: Option<Extent>)
    requires AllOk(us) && |cfg.ringSize| == SLOTS
    ensures Outcome(us, Applied(us, cfg, c, answer), cfg, c, answer, Result(us, cfg, c, answer))
  {
    forall s | 0 <= s < SLOTS
      ensures Silent(Stopped(us[s]))
      ensures Stopped(us[s]).calls == us[s].calls + if us[s].slot.active then [Closed(us[s].slot.asset)] else []
    {
      StopLeaves(us[s]);
    }
    hide OpenAfter, UnitOk, Silent, PlaysNow, Mutes, Levels, Played, Stopped, Sought, Regained;
    match c.op {
      case Play => if c.slot < SLOTS { PlayLeaves(us[c.slot], cfg, c, answer, cfg.ringSize[c.slot]); }
      case Seek => if c.slot < SLOTS { SeekLeaves(us[c.slot]); assert us[c.slot := us[c.slot]] == us; }
      case Gain => if c.slot < SLOTS { GainLeaves(us[c.slot], c); assert us[c.slot := us[c.slot]] == us; }
      case _ =>
    }
  }

  lemma StopLeaves(u: Unit)
    requires UnitOk(u)
    ensures Silent(Stopped(u))
    ensures Stopped(u).calls == u.calls + if u.slot.active then [Closed(u.slot.asset)] else []
  {
    StepsKeepUnit(u, 0, 0, 0, None, 0, 0);
    hide OpenAfter;
    assert u.calls + [] == u.calls;
  }

  lemma PlayLeaves(u: Unit, cfg: Config, c: Cmd, answer: Option<Extent>, ringSize: nat)
    requires UnitOk(u)
    ensures var v := Played(u, c.asset, c.gain, c.pan, answer, ringSize, cfg.chunk);
            if answer == None || ringSize < 2 * Streams.ChunkOf(cfg.chunk) || ringSize % 4 != 0 ||
               answer.value.bytes < 4
            then Silent(v) else PlaysNow(v, c)
  {
    StepsKeepUnit(u, c.asset, c.gain, c.pan, answer, ringSize, cfg.chunk);
    StopLeaves(u);
    hide OpenAfter;
  }

  lemma SeekLeaves(u: Unit)
    requires UnitOk(u)
    ensures u.slot.active ==> Mutes(u, Sought(u))
    ensures !u.slot.active ==> Sought(u) == u
  {
    hide OpenAfter;
  }

  lemma GainLeaves(u: Unit, c: Cmd)
    requires UnitOk(u)
    ensures u.slot.active ==> Levels(u, Regained(u, c.gain, c.pan), c)
    ensures !u.slot.active ==> Regained(u, c.gain, c.pan) == u
  {
    hide OpenAfter;
  }

  function AllStopped(units: seq<Unit>, n: nat): (r: seq<Unit>)
    ensures |r| == |units|
  {
    seq(|units|, s requires 0 <= s < |units| => if s < n then Stopped(units[s]) else units[s])
  }

  function Step(units: seq<Unit>, cfg: Config, e: Event): (r: seq<Unit>)
    requires |units| == |cfg.ringSize| == SLOTS
    ensures |r| == SLOTS
  {
    match e
    case Apply(cmd, answer) => Applied(units, cfg, cmd, answer)
    case Enable(s) => if s < SLOTS then units[s := Enabled(units[s])] else units
    case Prime(s) => if s < SLOTS then units[s := Primed(units[s])] else units
  }

  ghost predicate AllOk(units: seq<Unit>) { |units| == SLOTS && forall s | 0 <= s < SLOTS :: UnitOk(units[s]) }

  lemma StepKeepsAll(units: seq<Unit>, cfg: Config, e: Event)
    requires AllOk(units) && |cfg.ringSize| == SLOTS
    ensures AllOk(Step(units, cfg, e))
  {
    hide UnitOk, Played, Stopped, Sought, Regained, Enabled, Primed;
    forall s | 0 <= s < SLOTS
      ensures UnitOk(Step(units, cfg, e)[s])
    {
      match e {
        case Apply(cmd, answer) =>
          StepsKeepUnit(units[s], cmd.asset, cmd.gain, cmd.pan, answer, cfg.ringSize[s], cfg.chunk);
        case _ =>
          StepsKeepUnit(units[s], 0, 0, 0, None, 0, 0);
      }
    }
  }

  function Run(units: seq<Unit>, cfg: Config, es: seq<Event>): (r: seq<Unit>)
    requires |units| == |cfg.ringSize| == SLOTS
    ensures |r| == SLOTS
  {
    if es == [] then units else Step(Run(units, cfg, es[..|es| - 1]), cfg, es[|es| - 1])
  }

  /** WHATEVER HAPPENS, with any answers from the platform, every unit is in order. */
  lemma {:induction false} EveryRunKeepsOrder(cfg: Config, es: seq<Event>)
    requires |cfg.ringSize| == SLOTS
    ensures AllOk(Run(seq(SLOTS, s => IDLE), cfg, es))
    decreases |es|
  {
    var start := seq(SLOTS, s => IDLE);
    if es == [] {
      assert OpenAfter([]) == Some(None);
    } else {
      EveryRunKeepsOrder(cfg, es[..|es| - 1]);
      StepKeepsAll(Run(start, cfg, es[..|es| - 1]), cfg, es[|es| - 1]);
    }
  }

  /** STOP_ALL, at the end of any run, leaves every slot muted and every asset closed. */
  lemma StopAllSilences(cfg: Config, es: seq<Event>, cmd: Cmd, answer: Option<Extent>, s: nat)
    requires |cfg.ringSize| == SLOTS && cmd.op == StopAll && s < SLOTS
    ensures var u := Run(seq(SLOTS, s => IDLE), cfg, es + [Apply(cmd, answer)])[s];
            !u.slot.active && !u.slot.enabled && !u.stream.active && u.sounding == None &&
              OpenAfter(u.calls) == Some(None)
  {
    var start := seq(SLOTS, s => IDLE);
    EveryRunKeepsOrder(cfg, es);
    assert (es + [Apply(cmd, answer)])[..|es|] == es;
    StepsKeepUnit(Run(start, cfg, es)[s], 0, 0, 0, None, 0, 0);
  }
}

module MediaService {
  import opened Arith
  import Streams
  import StreamArbiter
  import StreamUrgency
  import opened MediaSlots

  /** What a slot is to the outside: its own fields, its stream's flags, the calls
      made for it and what its channel plays. */
  function UnitOf(slot: Slot, st: Streams.Stream, calls: seq<AssetCall>, sounding: Option<Level>): Unit {
    Unit(slot, Flags(st.active, st.primed), calls, sounding)
  }

  function UnitsOf(slots: seq<Slot>, str: seq<Streams.Stream>, calls: seq<seq<AssetCall>>,
                   sounding: seq<Option<Level>>): (us: seq<Unit>)
    requires |slots| == |str| == |calls| == |sounding| == SLOTS
    ensures |us| == SLOTS
    ensures forall s | 0 <= s < SLOTS :: us[s] == UnitOf(slots[s], str[s], calls[s], sounding[s])
  {
    seq(SLOTS, s requires 0 <= s < SLOTS => UnitOf(slots[s], str[s], calls[s], sounding[s]))
  }

  /** What the configuration must see to: the rings lie in memory, apart from each
      other, and none is over half the address space. */
  ghost predicate LaidOut(cfg: Config, memSize: nat) {
    && |cfg.ringSize| == |cfg.base| == |cfg.primeBytes| == SLOTS
    && (forall s | 0 <= s < SLOTS ::
          cfg.ringSize[s] <= Streams.U32 / 2 && cfg.base[s] + cfg.ringSize[s] <= memSize)
    && (forall i, j | 0 <= i < SLOTS && 0 <= j < SLOTS && i != j :: Apart(cfg, i, j))
  }

  predicate Apart(cfg: Config, i: nat, j: nat)
    requires i < |cfg.base| == |cfg.ringSize| && j < |cfg.base|
  {
    cfg.base[i] + cfg.ringSize[i] <= cfg.base[j] || cfg.base[j] + cfg.ringSize[j] <= cfg.base[i]
  }

  /** Every active stream runs on its slot's ring. */
  ghost predicate OnTheirRings(cfg: Config, str: seq<Streams.Stream>)
    requires |str| == |cfg.base| == |cfg.ringSize| == SLOTS
  {
    forall s | 0 <= s < SLOTS && str[s].active :: str[s].base == cfg.base[s] && str[s].ringSize == cfg.ringSize[s]
  }

  /** Slot i's stream, its reader and whether it is enabled are as they were. */
  ghost predicate SameAt(i: nat, slots0: seq<Slot>, str0: seq<Streams.Stream>, written0: seq<nat>, read0: seq<nat>,
                         slots1: seq<Slot>, str1: seq<Streams.Stream>, written1: seq<nat>, read1: seq<nat>) {
    && i < |slots0| == |str0| == |written0| == |read0| == |slots1| == |str1| == |written1| == |read1|
    && slots1[i].active == slots0[i].active && slots1[i].enabled == slots0[i].enabled
    && str1[i] == str0[i] && written1[i] == written0[i] && read1[i] == read0[i]
  }

  /** And so with all of them but slot s. */
  ghost predicate OthersSame(s: nat, slots0: seq<Slot>, str0: seq<Streams.Stream>, written0: seq<nat>,
                             read0: seq<nat>, slots1: seq<Slot>, str1: seq<Streams.Stream>, written1: seq<nat>,
                             read1: seq<nat>) {
    forall i: nat | i < SLOTS && i != s :: SameAt(i, slots0, str0, written0, read0, slots1, str1, written1, read1)
  }

  lemma SameThrough(s: nat, slots0: seq<Slot>, str0: seq<Streams.Stream>, written0: seq<nat>, read0: seq<nat>,
                    slots1: seq<Slot>, str1: seq<Streams.Stream>, written1: seq<nat>, read1: seq<nat>,
                    slots2: seq<Slot>, str2: seq<Streams.Stream>, written2: seq<nat>, read2: seq<nat>)
    requires OthersSame(s, slots0, str0, written0, read0, slots1, str1, written1, read1)
    requires OthersSame(s, slots1, str1, written1, read1, slots2, str2, written2, read2)
    ensures OthersSame(s, slots0, str0, written0, read0, slots2, str2, written2, read2)
  {
    forall i: nat | i < SLOTS && i != s
      ensures SameAt(i, slots0, str0, written0, read0, slots2, str2, written2, read2)
    {
      assert SameAt(i, slots0, str0, written0, read0, slots1, str1, written1, read1);
      assert SameAt(i, slots1, str1, written1, read1, slots2, str2, written2, read2);
    }
  }

  /** The command is not about slot i, or only about its level. */
  predicate Spares(c: Cmd,
                   i: nat) { c.op != StopAll && (c.slot != i || c.op == Op.Gain || c.op == Nop || c.op == Unknown) }

  /** The stream a PLAY starts on slot s: on that slot's ring, from the start of the
      asset's data, as the command has it. */
  ghost predicate Begins(st: Streams.Stream, file: seq<Byte>, cfg: Config, s: nat, c: Cmd, answer: Option<Extent>)
    requires s < |cfg.base| == |cfg.ringSize| == |cfg.primeBytes|
  {
    && answer.Some? && file == answer.value.file
    && st.base == cfg.base[s] && st.ringSize == cfg.ringSize[s] && st.dataOff == answer.value.off
    && st.dataBytes == answer.value.bytes - answer.value.bytes % 4
    && st.primeBytes == cfg.primeBytes[s] - cfg.primeBytes[s] % 4
    && st.writePos == 0 && st.filePos == 0 && st.active && !st.primed
    && st.looping == c.looping && st.prio == Min(c.prio, 3)
  }

  /** The stream after a SEEK: at the frame the command asks for, or from the start
      if that is past the data; all else as it was. */
  ghost predicate Moves(before: Streams.Stream, now: Streams.Stream, arg: nat) {
    && now.writePos == 0 && !now.primed && now.active == before.active && now.looping == before.looping
    && now.base == before.base && now.ringSize == before.ringSize && now.dataOff == before.dataOff
    && now.dataBytes == before.dataBytes && now.primeBytes == before.primeBytes && now.prio == before.prio
    && now.filePos == now.origin && now.filePos % 4 == 0
    && (if arg - arg % 4 < before.dataBytes then now.filePos <= arg < now.filePos + 4 else now.filePos == 0)
  }

  predicate ExtentOk(answer: Option<Extent>) {
    answer.Some? ==> answer.value.off + answer.value.bytes <= |answer.value.file|
  }

  class Media {
    const arb: StreamArbiter.StreamArb
    const cfg: Config
    var slots: seq<Slot>
    /** The calls made to the platform: opens and closes, and each channel's last level. */
    var calls: seq<seq<AssetCall>>
    var sounding: seq<Option<Level>>
    /** The platform, asked in turn: what asset_open and cmd_poll answer, and where
        in its ring a slot's mixer stands when a stream is started on it. */
    const opens: nat -> Option<Extent>
    const mail: nat -> Option<Cmd>
    const place: nat -> nat
    var tick: nat

    ghost predicate Sized()
      reads this, arb
    {
      && |slots| == |calls| == |sounding| == |arb.str| == SLOTS && LaidOut(cfg, arb.mem.Length)
      && arb.chunk == Streams.ChunkOf(cfg.chunk) && arb.highWm == 0
    }

    /** Every slot as the outside sees it. */
    ghost function Units(): (us: seq<Unit>)
      reads this, arb
      requires Sized()
      ensures |us| == SLOTS
    {
      UnitsOf(slots, arb.str, calls, sounding)
    }

    /** The streams are in order, ring contents included, and so is every slot. */
    ghost predicate Valid()
      reads this, arb, arb.mem
    {
      && Sized() && arb.Valid() && AllOk(Units()) && OnTheirRings(cfg, arb.str)
      && forall t: nat :: ExtentOk(opens(t))
    }

    /** hx421_media_init. */
    constructor (cfg: Config, mem: array<Byte>, opens: nat -> Option<Extent>, mail: nat -> Option<Cmd>,
                 place: nat -> nat, plan: nat -> nat -> nat, busy: nat -> bool)
      requires LaidOut(cfg, mem.Length) && forall t: nat :: ExtentOk(opens(t))
      ensures Valid() && this.cfg == cfg && arb.mem == mem && fresh(arb)
      ensures Units() == seq(SLOTS, s => IDLE)
    {
      this.cfg := cfg;
      this.opens := opens;
      this.mail := mail;
      this.place := place;
      arb := new StreamArbiter.StreamArb(mem, cfg.chunk, 0, plan, busy);
      slots := seq(SLOTS, s => IDLE.slot);
      calls := seq(SLOTS, s => []);
      sounding := seq(SLOTS, s => None);
      tick := 0;
      new;
      assert OpenAfter([]) == Some(None);
    }

    // ---- platform calls ----

    method MixerCtl(s: nat, enable: bool, gain: nat, pan: nat)
      requires s < |sounding|
      modifies this`sounding
      ensures sounding == old(sounding)[s := if enable then Some(Level(gain, pan)) else None]
    {
      sounding := sounding[s := if enable then Some(Level(gain, pan)) else None];
    }

    /** asset_close is only called with the id that is open on the slot. */
    method AssetClose(s: nat, id: nat)
      requires s < |calls| && OpenAfter(calls[s]) == Some(Some(id))
      modifies this`calls
      ensures calls == old(calls)[s := old(calls)[s] + [Closed(id)]]
    {
      calls := calls[s := calls[s] + [Closed(id)]];
    }

    /** asset_open is only called on a slot with nothing open. */
    method AssetOpen(s: nat, id: nat) returns (r: Option<Extent>)
      requires s < |calls| && OpenAfter(calls[s]) == Some(None)
      modifies this`calls, this`tick
      ensures r == opens(old(tick)) && tick == old(tick) + 1
      ensures calls == if r == None then old(calls) else old(calls)[s := old(calls)[s] + [Opened(id)]]
    {
      r := opens(tick);
      tick := tick + 1;
      if r.Some? {
        calls := calls[s := calls[s] + [Opened(id)]];
      }
    }

    // ---- commands ----

    /** slot_stop. */
    method SlotStop(s: nat)
      requires Valid() && s < SLOTS
      modifies this`slots, this`calls, this`sounding, arb`str
      ensures Valid() && old(Sized())
      ensures Units() == old(Units())[s := Stopped(old(Units())[s])]
      ensures OthersSame(s, old(slots), old(arb.str), old(arb.written), old(arb.read), slots, arb.str, arb.written,
                         arb.read)
    {
      hide OpenAfter, StreamArbiter.StreamArb.Valid;
      ghost var before, us, str0 := slots, Units(), arb.str;
      ghost var calls0, sounding0 := calls, sounding;
      SlotKept(us, s);
      arb.Sizes();
      if !slots[s].active {
        assert us[s := Stopped(us[s])] == us;
        return;
      }
      arb.Stop(s);
      if slots[s].enabled {
        MixerCtl(s, false, 0, slots[s].pan);
      }
      AssetClose(s, slots[s].asset);
      slots := slots[s := slots[s].(active := false, enabled := false)];
      UnitsMove(before, str0, calls0, sounding0, slots, arb.str, calls, sounding, s);
      hide UnitOk, AllOk, UnitsOf, LaidOut;
    }

    /** Start a stream for an asset on the slot's own ring. */
    method StartStream(s: nat, c: Cmd, e: Extent) returns (r: int)
      requires Sized() && arb.Valid() && OnTheirRings(cfg, arb.str) && s < SLOTS && ExtentOk(Some(e))
      modifies arb`str, arb`files, arb`written, arb`read
      ensures Sized() && arb.Valid() && OnTheirRings(cfg, arb.str)
      ensures r == 0 <==> Streams.StartOk(cfg.ringSize[s], arb.chunk, e.bytes)
      ensures r != 0 ==> arb.str == old(arb.str)
      ensures r == 0 ==> arb.str[s].active && !arb.str[s].primed
      ensures r == 0 ==> s < |arb.files| && Begins(arb.str[s], arb.files[s], cfg, s, c, Some(e))
      ensures |old(arb.str)| == SLOTS && forall i | 0 <= i < SLOTS && i != s :: arb.str[i] == old(arb.str)[i]
      ensures OthersSame(s, old(slots), old(arb.str), old(arb.written), old(arb.read), slots, arb.str, arb.written,
                         arb.read)
    {
      Configured(cfg, arb.mem.Length, s);
      arb.Sizes();
      RingIsFree(cfg, arb.mem.Length, arb.str, s);
      hide StreamArbiter.StreamArb.Valid, LaidOut;
      r := arb.Start(s, cfg.base[s], cfg.ringSize[s], e.off, e.bytes, c.looping, cfg.primeBytes[s], c.prio, e.file,
                     Streams.Trim(place(tick)));
    }

    /** The second half of cmd_play, on an idle slot: open the asset, start its stream. */
    method OpenAndStart(s: nat, c: Cmd) returns (res: int)
      requires Valid() && s < SLOTS && !slots[s].active
      modifies this`slots, this`calls, this`tick, arb`str, arb`files, arb`written, arb`read
      ensures Valid() && old(Sized())
      ensures var answer := opens(old(tick));
              && Units() == old(Units())[s := Played(old(Units())[s], c.asset, c.gain, c.pan, answer, cfg.ringSize[s],
                                                     cfg.chunk)]
              && res == if answer == None then -3
                        else if !Streams.StartOk(cfg.ringSize[s], Streams.ChunkOf(cfg.chunk),
                                                 answer.value.bytes) then -4
                        else 0
      ensures res == 0 ==> s < |arb.files| && Begins(arb.str[s], arb.files[s], cfg, s, c, opens(old(tick)))
      ensures OthersSame(s, old(slots), old(arb.str), old(arb.written), old(arb.read), slots, arb.str, arb.written,
                         arb.read)
    {
      hide OpenAfter, UnitOk, AllOk, UnitsOf, StreamArbiter.StreamArb.Valid, Played, Stopped, LaidOut;
      arb.Sizes();
      ghost var us0, slots0, calls0, str0 := Units(), slots, calls, arb.str;
      Configured(cfg, arb.mem.Length, s);
      PlayKeeps(us0, s, c, opens(tick), cfg.ringSize[s], cfg.chunk);
      IdleIsStopped(us0[s]);
      var answer := AssetOpen(s, c.asset);
      PlayedIs(us0[s], c, answer, cfg.ringSize[s], cfg.chunk);
      if answer == None {
        assert us0[s := us0[s]] == us0;
        return -3;
      }
      assert ExtentOk(opens(old(tick)));
      var r := StartStream(s, c, answer.value);
      arb.Sizes();
      ghost var slots1, str1 := slots, arb.str;
      if r != 0 {
        AssetClose(s, c.asset);
        assert calls[s] == calls0[s] + [Opened(c.asset), Closed(c.asset)];
        res := -4;
      } else {
        slots := slots[s := Slot(true, false, c.asset, c.gain, c.pan)];
        res := 0;
      }
      SameThrough(s, old(slots), str0, old(arb.written), old(arb.read), slots1, str1, arb.written, arb.read, slots,
                  arb.str, arb.written, arb.read);
      UnitsMove(slots0, str0, calls0, sounding, slots, arb.str, calls, sounding, s);
      assert UnitOf(slots[s], arb.str[s], calls[s], sounding[s]) ==
             Played(us0[s], c.asset, c.gain, c.pan, answer, cfg.ringSize[s], cfg.chunk);
    }

    /** cmd_play: drop what was there, open the asset, start its stream. */
    method CmdPlay(c: Cmd) returns (res: int)
      requires Valid()
      modifies this`slots, this`calls, this`sounding, this`tick, arb`str, arb`files, arb`written, arb`read
      ensures Valid() && old(Sized())
      ensures Units() == Applied(old(Units()), cfg, c.(op := Play), opens(old(tick)))
      ensures res == Result(old(Units()), cfg, c.(op := Play), opens(old(tick)))
      ensures res == 0 ==>
                && c.slot < |arb.files| && c.slot < SLOTS
                && Begins(arb.str[c.slot], arb.files[c.slot], cfg, c.slot, c, opens(old(tick)))
      ensures OthersSame(c.slot, old(slots), old(arb.str), old(arb.written), old(arb.read), slots, arb.str, arb.written,
                         arb.read)
    {
      hide OpenAfter, UnitOk, AllOk, UnitsOf, StreamArbiter.StreamArb.Valid, Played, Stopped, LaidOut;
      arb.Sizes();
      if c.slot >= SLOTS { return -1; }
      var s := c.slot;
      Configured(cfg, arb.mem.Length, s);
      if cfg.ringSize[s] == 0 { return -2; }
      PlayedOfStopped(Units()[s], c, opens(tick), cfg.ringSize[s], cfg.chunk);
      SlotStop(s);
      ghost var slots1, str1, written1, read1 := slots, arb.str, arb.written, arb.read;
      res := OpenAndStart(s, c);
      SameThrough(s, old(slots), old(arb.str), old(arb.written), old(arb.read), slots1, str1, written1, read1, slots,
                  arb.str, arb.written, arb.read);
    }

    /** cmd_seek: the stream restarts from another place, muted until it is ready
        again; its reader is left where it stands. */
    method CmdSeek(c: Cmd) returns (res: int)
      requires Valid()
      modifies this`slots, this`sounding, arb`str, arb`written
      ensures Valid() && old(Sized())
      ensures Units() == Applied(old(Units()), cfg, c.(op := Op.Seek), None)
      ensures res == Result(old(Units()), cfg, c.(op := Op.Seek), None)
      ensures OthersSame(c.slot, old(slots), old(arb.str), old(arb.written), old(arb.read), slots, arb.str, arb.written,
                         arb.read)
      ensures res == 0 <==> c.slot < SLOTS && old(slots)[c.slot].active
      ensures res == 0 ==> slots[c.slot].active && !slots[c.slot].enabled
      ensures res == 0 ==> c.slot < |old(arb.str)| && Moves(old(arb.str)[c.slot], arb.str[c.slot], c.arg)
      ensures res == 0 ==>
                && c.slot < |old(arb.str)| == |old(arb.read)|
                && arb.str ==
                   old(arb.str)[c.slot := StreamArbiter.Sought(old(arb.str)[c.slot], c.arg, old(arb.read)[c.slot])]
    {
      hide OpenAfter, UnitOk, AllOk, UnitsOf, StreamArbiter.StreamArb.Valid, LaidOut, StreamArbiter.Sought;
      arb.Sizes();
      if c.slot >= SLOTS || !slots[c.slot].active { SeekNothing(Units(), c); return -1; }
      var s := c.slot;
      ghost var us0, slots0, str0 := Units(), slots, arb.str;
      ghost var sounding0 := sounding;
      SoughtKeeps(us0, s);
      StreamActive(us0, s);
      StreamArbiter.SoughtSame(arb.str[s], c.arg, arb.read[s]);
      StreamArbiter.SoughtIs(arb.str[s], c.arg, arb.read[s]);
      assert Moves(arb.str[s], StreamArbiter.Sought(arb.str[s], c.arg, arb.read[s]), c.arg);
      hide Moves;
      arb.Seek(s, c.arg);
      if slots[s].enabled {
        MixerCtl(s, false, 0, slots[s].pan);
      }
      slots := slots[s := slots[s].(enabled := false)];
      StreamArbiter.SoughtIs(str0[s], c.arg, arb.read[s]);
      UnitsMove(slots0, str0, calls, sounding0, slots, arb.str, calls, sounding, s);
      return 0;
    }

    method CmdGain(c: Cmd) returns (res: int)
      requires Valid()
      modifies this`slots, this`sounding
      ensures Valid() && old(Sized())
      ensures Units() == Applied(old(Units()), cfg, c.(op := Op.Gain), None)
      ensures res == Result(old(Units()), cfg, c.(op := Op.Gain), None)
      ensures OthersSame(SLOTS, old(slots), old(arb.str), old(arb.written), old(arb.read), slots, arb.str, arb.written,
                         arb.read)
    {
      hide OpenAfter, UnitOk, AllOk, UnitsOf, StreamArbiter.StreamArb.Valid, LaidOut;
      arb.Sizes();
      if c.slot >= SLOTS || !slots[c.slot].active { GainNothing(Units(), c); return -1; }
      var s := c.slot;
      ghost var slots0, sounding0 := slots, sounding;
      GainKeeps(Units(), s, c.gain, c.pan);
      slots := slots[s := slots[s].(gain := c.gain, pan := c.pan)];
      if slots[s].enabled {
        MixerCtl(s, true, c.gain, c.pan);
      }
      UnitsMove(slots0, arb.str, calls, sounding0, slots, arb.str, calls, sounding, s);
      return 0;
    }

    method StopAll()
      requires Valid()
      modifies this`slots, this`calls, this`sounding, arb`str
      ensures Valid() && old(Sized())
      ensures Units() == AllStopped(old(Units()), SLOTS)
    {
      hide OpenAfter, UnitOk, AllOk, UnitsOf, StreamArbiter.StreamArb.Valid, LaidOut, Stopped;
      var i := 0;
      while i < SLOTS
        invariant 0 <= i <= SLOTS && Valid()
        invariant Units() == AllStopped(old(Units()), i)
      {
        SlotStop(i);
        i := i + 1;
      }
    }

    /** hx421_media_apply. */
    method Apply(c: Cmd) returns (res: int)
      requires Valid()
      modifies this`slots, this`calls, this`sounding, this`tick, arb`str, arb`files, arb`written, arb`read
      ensures Valid() && old(Sized())
      ensures Units() == Applied(old(Units()), cfg, c, opens(old(tick)))
      ensures res == Result(old(Units()), cfg, c, opens(old(tick)))
      ensures Outcome(old(Units()), Units(), cfg, c, opens(old(tick)), res)
      ensures c.op == Play && res == 0 ==>
                && c.slot < |arb.files| && c.slot < SLOTS
                && Begins(arb.str[c.slot], arb.files[c.slot], cfg, c.slot, c, opens(old(tick)))
      ensures c.op == Op.Seek && res == 0 ==>
                c.slot < |old(arb.str)| == |arb.str| && Moves(old(arb.str)[c.slot], arb.str[c.slot], c.arg)
      ensures forall i: nat | i < SLOTS && Spares(c, i) ::
                SameAt(i, old(slots), old(arb.str), old(arb.written), old(arb.read), slots, arb.str, arb.written,
                       arb.read)
    {
      arb.Sizes();
      AppliedIs(Units(), cfg, c, opens(tick));
      hide AllOk, UnitsOf, StreamArbiter.StreamArb.Valid, LaidOut, Played, Stopped, Outcome, Begins, Moves;
      match c.op {
        case Nop => return 0;
        case Play =>
          res := CmdPlay(c);
          assert c.(op := Play) == c;
        case Stop =>
          if c.slot >= SLOTS { return -1; }
          SlotStop(c.slot);
          return 0;
        case Seek =>
          res := CmdSeek(c);
          assert c.(op := Op.Seek) == c;
        case Gain =>
          res := CmdGain(c);
          assert c.(op := Op.Gain) == c;
        case StopAll =>
          StopAll();
          return 0;
        case Unknown => return -5;
      }
    }

    // ---- the service ----

    /** No command is about slot i but for its level. */
    ghost predicate LeftAlone(i: nat) { forall t: nat :: mail(t).Some? ==> Spares(mail(t).value, i) }

    /** Apply at most a dozen pending commands, in order. */
    method DrainMail() returns (did: bool, ghost es: seq<Event>)
      requires Valid()
      modifies this`slots, this`calls, this`sounding, this`tick, arb`str, arb`files, arb`written, arb`read
      ensures Valid() && old(Sized()) && Units() == Run(old(Units()), cfg, es) && |es| <= 2 * SLOTS + 4
      ensures !did ==>
                Units() == old(Units()) && arb.str == old(arb.str) && arb.written == old(arb.written)
      ensures forall i: nat | i < SLOTS && LeftAlone(i) ::
                SameAt(i, old(slots), old(arb.str), old(arb.written), old(arb.read), slots, arb.str, arb.written,
                       arb.read)
    {
      arb.Sizes();
      hide UnitOk, Step, Applied, AllOk, UnitsOf, LaidOut, StreamArbiter.StreamArb.Valid;
      did, es := false, [];
      Configured(cfg, arb.mem.Length, 0);
      assert Units() == Run(old(Units()), cfg, es);
      hide Run;
      var guard := 0;
      while guard < 2 * SLOTS + 4
        invariant |es| == guard <= 2 * SLOTS + 4 && Valid() && Units() == Run(old(Units()), cfg, es)
        invariant !did ==>
                    Units() == old(Units()) && arb.str == old(arb.str) && arb.written == old(arb.written)
        invariant forall i: nat | i < SLOTS && LeftAlone(i) ::
                    SameAt(i, old(slots), old(arb.str), old(arb.written), old(arb.read), slots, arb.str, arb.written,
                           arb.read)
      {
        var cmd := mail(tick);
        tick := tick + 1;
        if cmd == None { break; }
        ghost var e := Event.Apply(cmd.value, opens(tick));
        ApplyStep(Units(), cfg, cmd.value, opens(tick));
        RunMore(old(Units()), cfg, es, e);
        var res := Apply(cmd.value);
        es := es + [e];
        did := true;
        guard := guard + 1;
      }
    }

    /** Enable the channels whose rings have primed. */
    method EnableReady() returns (did: bool, ghost es: seq<Event>)
      requires Valid()
      modifies this`slots, this`sounding
      ensures Valid() && old(Sized()) && Units() == Run(old(Units()), cfg, es)
      ensures forall s | 0 <= s < SLOTS :: Ready(Units()[s]) ==> slots[s].enabled
      ensures !did ==> Units() == old(Units())
      ensures forall s | 0 <= s < SLOTS ::
                slots[s] == old(slots)[s].(enabled := old(slots)[s].enabled ||
                                                      (old(slots)[s].active && arb.str[s].active && arb.str[s].primed))
    {
      hide UnitOk, Step, AllOk, UnitsOf, Enabled, LaidOut, StreamArbiter.StreamArb.Valid;
      did, es := false, [];
      Configured(cfg, arb.mem.Length, 0);
      assert Units() == Run(old(Units()), cfg, es);
      hide Run;
      var i := 0;
      while i < SLOTS
        invariant 0 <= i <= SLOTS && Valid() && Units() == Run(old(Units()), cfg, es)
        invariant forall s | 0 <= s < i :: Ready(Units()[s]) ==> slots[s].enabled
        invariant !did ==> Units() == old(Units())
        invariant forall s | 0 <= s < i ::
                    slots[s] == old(slots)[s].(enabled := old(slots)[s].enabled ||
                                                          (old(slots)[s].active && arb.str[s].active &&
                                                           arb.str[s].primed))
        invariant forall s | i <= s < SLOTS :: slots[s] == old(slots)[s]
      {
        ghost var us, slots0, sounding0 := Units(), slots, sounding;
        StepKeepsAll(us, cfg, Enable(i));
        RunMore(old(Units()), cfg, es, Enable(i));
        EnableStep(us, cfg, i);
        if slots[i].active && !slots[i].enabled && arb.str[i].active && arb.str[i].primed {
          MixerCtl(i, true, slots[i].gain, slots[i].pan);
          slots := slots[i := slots[i].(enabled := true)];
          did := true;
          UnitsMove(slots0, arb.str, calls, sounding0, slots, arb.str, calls, sounding, i);
        }
        assert Units() == us[i := Enabled(us[i])];
        es := es + [Enable(i)];
        i := i + 1;
      }
    }

    /** One refill by the arbiter, and whose head it completed. */
    method RefillOne() returns (did: bool, ghost just: Option<nat>)
      requires Valid()
      modifies arb`str, arb`read, arb`written, arb`tick, arb`rr, arb.mem
      ensures Valid() && old(Sized())
      ensures just.Some? ==> just.value < SLOTS && did
      ensures Units() == if just == None then old(Units())
                         else old(Units())[just.value := Primed(old(Units())[just.value])]
      ensures !did ==>
                arb.str == old(arb.str) && arb.written == old(arb.written) && arb.mem[..] == old(arb.mem[..])
      ensures forall s: nat | s < SLOTS && arb.StillAt(s) :: old(arb.Full(s)) ==> arb.Full(s)
    {
      hide UnitOk, AllOk, UnitsOf, LaidOut, StreamArbiter.StreamArb.Valid, StreamArbiter.RefillDone;
      ghost var us, str0, mem0, written0 := Units(), arb.str, arb.mem[..], arb.written;
      ghost var choice, run;
      did, choice, run := arb.ServeOnce();
      just := None;
      if did {
        ghost var b := choice.value;
        RefillFlags(b, run, str0, mem0, written0, arb.str, arb.mem[..], arb.written, arb.chunk, arb.files);
        UnitsMove(slots, str0, calls, sounding, slots, arb.str, calls, sounding, b);
        PrimedKeeps(us, b);
        assert us[b] == UnitOf(slots[b], str0[b], calls[b], sounding[b]);
        if arb.str[b].primed && !str0[b].primed {
          just := Some(b);
          assert UnitOf(slots[b], arb.str[b], calls[b], sounding[b]) == Primed(us[b]);
        } else {
          assert us[b := us[b]] == us;
        }
      }
    }

    /** hx421_media_service: drain the mailbox, enable what has primed, refill once.
        It amounts to a run of events; afterwards every ready slot is playing,
        but for the one whose head this very refill completed. */
    method Service() returns (did: bool, ghost es: seq<Event>, ghost just: Option<nat>)
      requires Valid()
      modifies this`slots, this`calls, this`sounding, this`tick
      modifies arb`str, arb`files, arb`written, arb`read, arb`tick, arb`rr, arb.mem
      ensures Valid() && old(Sized()) && Units() == Run(old(Units()), cfg, es)
      ensures forall s | 0 <= s < SLOTS :: Ready(Units()[s]) ==> slots[s].enabled || just == Some(s)
      ensures !did ==>
                Units() == old(Units()) && arb.str == old(arb.str) && arb.written == old(arb.written) &&
                arb.mem[..] == old(arb.mem[..])
      ensures forall s: nat | s < SLOTS && arb.StillAt(s) && LeftAlone(s) ::
                old(Stalled(s)) ==> Stalled(s)
    {
      hide UnitOk, Step, AllOk, UnitsOf, Enabled, Primed, LaidOut, StreamArbiter.StreamArb.Valid, Run;
      ghost var us0 := Units();
      Configured(cfg, arb.mem.Length, 0);
      did, es := DrainMail();
      ghost var us1 := Units();
      var d;
      ghost var es1;
      d, es1 := EnableReady();
      ghost var us2 := Units();
      RunTwice(us0, cfg, es, es1);
      did, es := did || d, es + es1;
      d, just := RefillOne();
      did := did || d;
      if just.Some? {
        RunMore(us0, cfg, es, Prime(just.value));
        PrimeStep(us2, cfg, just.value);
        es := es + [Prime(just.value)];
      }
    }

    /** ANY NUMBER OF SERVICES, whatever the mailbox, the files and the mixer bring:
        the slots go through a run of events and stay in order, and so do the rings. */
    method ServeMany(n: nat) returns (ghost es: seq<Event>)
      requires Valid()
      modifies this`slots, this`calls, this`sounding, this`tick
      modifies arb`str, arb`files, arb`written, arb`read, arb`tick, arb`rr, arb.mem
      ensures Valid() && old(Sized()) && Units() == Run(old(Units()), cfg, es)
      ensures forall s | 0 <= s < SLOTS :: Plays(s)
    {
      hide UnitOk, Step, AllOk, UnitsOf, Enabled, Primed, LaidOut, StreamArbiter.StreamArb.Valid;
      ghost var us0 := Units();
      es := [];
      Configured(cfg, arb.mem.Length, 0);
      assert Units() == Run(us0, cfg, es);
      hide Run;
      for i := 0 to n
        invariant Valid() && Units() == Run(us0, cfg, es)
      {
        ghost var es1;
        ghost var just;
        var did;
        did, es1, just := Service();
        RunTwice(us0, cfg, es, es1);
        es := es + es1;
      }
      forall s | 0 <= s < SLOTS
        ensures Plays(s)
      {
        PlaysWell(s);
      }
    }

    /** Slot s is mute, and its stream is not ready and wants nothing. */
    ghost predicate Stalled(s: nat)
      reads this, arb
    {
      s < |slots| && slots[s].active && !slots[s].enabled && arb.Full(s)
    }

    /** A SEEK THAT NEVER COMES BACK: a slot that was sought with its mixer inside the
        ring's first chunk, past the base, stays mute through any number of
        services, as long as its muted mixer stands still and no command but a level
        is for it. */
    method SeekStalls(c: Cmd, n: nat)
      requires Valid() && |arb.read| == |arb.str| == SLOTS
      requires c.slot < SLOTS && slots[c.slot].active && arb.str[c.slot].ringSize > 0
      requires 0 < Streams.Pos(arb.read[c.slot], arb.str[c.slot].ringSize) < arb.chunk + Streams.FRAME
      requires arb.StillAt(c.slot) && LeftAlone(c.slot)
      modifies this`slots, this`calls, this`sounding, this`tick
      modifies arb`str, arb`files, arb`written, arb`read, arb`tick, arb`rr, arb.mem
      ensures Valid() && slots[c.slot].active && !slots[c.slot].enabled && sounding[c.slot] == None
    {
      hide UnitOk, Step, AllOk, UnitsOf, Enabled, Primed, LaidOut, StreamArbiter.StreamArb.Valid, Run,
        StreamArbiter.StreamArb.Full, StreamArbiter.StreamArb.StillAt;
      var s := c.slot;
      SeekBegins(s, c);
      var res := CmdSeek(c);
      arb.SoughtIsFull(s);
      for i := 0 to n
        invariant Valid() && Stalled(s)
      {
        ghost var es, just;
        var did;
        did, es, just := Service();
      }
      SlotKept(Units(), s);
    }

    /** What can be heard of slot s is right: its channel plays only a ready stream of
        the one asset open on it, from that slot's ring, and the bytes the mixer has
        yet to read, stale ones aside, are the source's next ones, in order. */
    ghost predicate Plays(s: nat)
      reads this, arb, arb.mem
    {
      && s < SLOTS && Sized() && |arb.files| == |arb.read| == |arb.written| == SLOTS
      && (sounding[s].Some? ==>
            && arb.str[s].active && arb.str[s].primed && OpenAfter(calls[s]) == Some(Some(slots[s].asset))
            && sounding[s] == Some(Level(slots[s].gain, slots[s].pan)))
      && (arb.str[s].active ==>
            && arb.str[s].base == cfg.base[s] && arb.str[s].ringSize == cfg.ringSize[s] > 0
            && arb.str[s].base + arb.str[s].ringSize <= arb.mem.Length
            && Streams.Unread(arb.str[s], arb.files[s], arb.mem[..], arb.written[s], arb.read[s]))
    }

    lemma SeekBegins(s: nat, c: Cmd)
      requires Valid() && s < SLOTS && slots[s].active && |arb.read| == SLOTS
      ensures var now := StreamArbiter.Sought(arb.str[s], c.arg, arb.read[s]);
              && now.active && !now.primed && now.writePos == 0 && !StreamUrgency.Spent(now)
              && now.ringSize == arb.str[s].ringSize
    {
      arb.Sizes();
      StreamActive(Units(), s);
      StreamArbiter.AllOkAt(arb.str, arb.chunk, arb.highWm, arb.files, arb.mem[..], arb.written, arb.read, s);
      StreamArbiter.SoughtBegins(arb.str[s], arb.chunk, arb.highWm, arb.files[s], arb.mem[..], arb.written[s],
                                 arb.read[s], c.arg);
      StreamArbiter.SoughtSame(arb.str[s], c.arg, arb.read[s]);
      hide AllOk, UnitsOf, StreamArbiter.StreamArb.Valid, LaidOut, StreamArbiter.Sought;
    }

    lemma PlaysWell(s: nat)
      requires Valid() && s < SLOTS
      ensures Plays(s)
    {
      arb.Sizes();
      assert UnitOk(Units()[s]);
      if arb.str[s].active {
        StreamArbiter.AllOkAt(arb.str, arb.chunk, arb.highWm, arb.files, arb.mem[..], arb.written, arb.read, s);
        StreamReads(arb.str[s], arb.chunk, arb.highWm, arb.files[s], arb.mem[..], arb.written[s], arb.read[s]);
      }
      hide AllOk, UnitsOf, StreamArbiter.StreamArb.Valid, LaidOut, OpenAfter, Streams.Unread;
    }
  }

  /** What holds of a slot in order, and what stopping it leaves in order. */
  lemma SlotKept(us: seq<Unit>, s: nat)
    requires AllOk(us) && s < SLOTS
    ensures UnitOk(us[s]) && AllOk(us[s := Stopped(us[s])])
    ensures us[s].slot.active ==> OpenAfter(us[s].calls) == Some(Some(us[s].slot.asset))
    ensures !us[s].slot.enabled ==> us[s].sounding == None
  {
    StepsKeepUnit(us[s], 0, 0, 0, None, 0, 0);
    hide Stopped;
  }

  /** A change at slot s alone. */
  lemma UnitsMove(slots0: seq<Slot>, str0: seq<Streams.Stream>, calls0: seq<seq<AssetCall>>,
                  sounding0: seq<Option<Level>>, slots1: seq<Slot>, str1: seq<Streams.Stream>,
                  calls1: seq<seq<AssetCall>>, sounding1: seq<Option<Level>>, s: nat)
    requires |slots0| == |str0| == |calls0| == |sounding0| == SLOTS && s < SLOTS
    requires |slots1| == |str1| == |calls1| == |sounding1| == SLOTS
    requires forall i | 0 <= i < SLOTS && i != s ::
               slots1[i] == slots0[i] && str1[i] == str0[i] && calls1[i] == calls0[i] && sounding1[i] == sounding0[i]
    ensures UnitsOf(slots1, str1, calls1, sounding1) ==
            UnitsOf(slots0, str0, calls0, sounding0)[s := UnitOf(slots1[s], str1[s], calls1[s], sounding1[s])]
  {}

  lemma Configured(cfg: Config, memSize: nat, s: nat)
    requires LaidOut(cfg, memSize) && s < SLOTS
    ensures |cfg.ringSize| == |cfg.base| == |cfg.primeBytes| == SLOTS
    ensures cfg.ringSize[s] <= Streams.U32 / 2 && cfg.base[s] + cfg.ringSize[s] <= memSize
  {}

  /** A slot's ring is apart from every other active stream's. */
  lemma RingIsFree(cfg: Config, memSize: nat, str: seq<Streams.Stream>, s: nat)
    requires LaidOut(cfg, memSize) && |str| == SLOTS && OnTheirRings(cfg, str) && s < SLOTS
    ensures forall i | 0 <= i < SLOTS && i != s && str[i].active ::
              cfg.base[s] + cfg.ringSize[s] <= str[i].base || str[i].base + str[i].ringSize <= cfg.base[s]
  {
    forall i | 0 <= i < SLOTS && i != s && str[i].active
      ensures cfg.base[s] + cfg.ringSize[s] <= str[i].base || str[i].base + str[i].ringSize <= cfg.base[s]
    {
      assert Apart(cfg, s, i);
    }
  }

  lemma PlayKeeps(us: seq<Unit>, s: nat, c: Cmd, answer: Option<Extent>, ringSize: nat, chunk: nat)
    requires AllOk(us) && s < SLOTS
    ensures AllOk(us[s := Played(us[s], c.asset, c.gain, c.pan, answer, ringSize, chunk)])
    ensures OpenAfter(Stopped(us[s]).calls) == Some(None)
    ensures OpenAfter(Stopped(us[s]).calls + [Opened(c.asset)]) == Some(Some(c.asset))
  {
    StepsKeepUnit(us[s], c.asset, c.gain, c.pan, answer, ringSize, chunk);
    var v := Stopped(us[s]);
    OpenAfterOne(v.calls, Opened(c.asset));
    hide Stopped, Played;
  }

  lemma IdleIsStopped(u: Unit)
    ensures !u.slot.active ==> Stopped(u) == u
  {}

  /** Playing on a slot is stopping it and playing on it. */
  lemma PlayedOfStopped(u: Unit, c: Cmd, answer: Option<Extent>, ringSize: nat, chunk: nat)
    ensures Played(Stopped(u), c.asset, c.gain, c.pan, answer, ringSize, chunk) ==
            Played(u, c.asset, c.gain, c.pan, answer, ringSize, chunk)
    ensures !Stopped(u).slot.active
  {}

  lemma PlayedIs(u: Unit, c: Cmd, answer: Option<Extent>, ringSize: nat, chunk: nat)
    ensures var v, p := Stopped(u), Played(u, c.asset, c.gain, c.pan, answer, ringSize, chunk);
            && (answer == None ==> p == v)
            && (answer.Some? && !Streams.StartOk(ringSize, Streams.ChunkOf(chunk), answer.value.bytes) ==>
                  p == v.(calls := v.calls + [Opened(c.asset), Closed(c.asset)]))
            && (answer.Some? && Streams.StartOk(ringSize, Streams.ChunkOf(chunk), answer.value.bytes) ==>
                  p == Unit(Slot(true, false, c.asset, c.gain, c.pan), Flags(true, false), v.calls + [Opened(c.asset)],
                            v.sounding))
  {
    hide Stopped;
  }

  lemma SoughtKeeps(us: seq<Unit>, s: nat)
    requires AllOk(us) && s < SLOTS
    ensures AllOk(us[s := Sought(us[s])]) && (!us[s].slot.enabled ==> us[s].sounding == None)
  {
    StepsKeepUnit(us[s], 0, 0, 0, None, 0, 0);
    hide Sought;
  }

  lemma StreamActive(us: seq<Unit>, s: nat)
    requires AllOk(us) && s < SLOTS
    ensures us[s].stream.active == us[s].slot.active
  {}

  lemma GainKeeps(us: seq<Unit>, s: nat, gain: nat, pan: nat)
    requires AllOk(us) && s < SLOTS
    ensures AllOk(us[s := Regained(us[s], gain, pan)])
  {
    StepsKeepUnit(us[s], 0, gain, pan, None, 0, 0);
    hide Regained;
  }

  lemma SeekNothing(us: seq<Unit>, c: Cmd)
    requires |us| == SLOTS && (c.slot < SLOTS ==> !us[c.slot].slot.active)
    ensures c.slot < SLOTS ==> us[c.slot := Sought(us[c.slot])] == us
  {}

  lemma GainNothing(us: seq<Unit>, c: Cmd)
    requires |us| == SLOTS && (c.slot < SLOTS ==> !us[c.slot].slot.active)
    ensures c.slot < SLOTS ==> us[c.slot := Regained(us[c.slot], c.gain, c.pan)] == us
  {}

  predicate Ready(u: Unit) { u.slot.active && u.stream.active && u.stream.primed }

  lemma StreamReads(st: Streams.Stream, chunk: nat, highWm: nat, file: seq<Byte>, mem: seq<Byte>, w: nat, r: nat)
    requires Streams.StreamOk(st, chunk, highWm, file, mem, w, r)
    ensures st.ringSize > 0 && st.base + st.ringSize <= |mem| && Streams.Unread(st, file, mem, w, r)
  {
    hide Streams.Unread, Streams.PrimedOk, Streams.Positions;
  }

  lemma RefillFlags(b: nat, run: nat, str0: seq<Streams.Stream>, mem0: seq<Byte>, written0: seq<nat>,
                    str1: seq<Streams.Stream>, mem1: seq<Byte>, written1: seq<nat>, chunk: nat,
                    files: seq<seq<Byte>>)
    requires StreamArbiter.RefillDone(b, run, str0, mem0, written0, str1, mem1, written1, chunk, files)
    ensures b < |str0| == |str1| && (str0[b].primed ==> str1[b].primed)
    ensures forall i | 0 <= i < |str0| ::
              && str1[i].active == str0[i].active && str1[i].base == str0[i].base
              && str1[i].ringSize == str0[i].ringSize && (i != b ==> str1[i] == str0[i])
  {
    hide Streams.Copied;
  }

  lemma PrimedKeeps(us: seq<Unit>, s: nat)
    requires AllOk(us) && s < SLOTS
    ensures AllOk(us[s := Primed(us[s])])
  {
    StepsKeepUnit(us[s], 0, 0, 0, None, 0, 0);
    hide Primed;
  }

  lemma ApplyStep(us: seq<Unit>, cfg: Config, c: Cmd, answer: Option<Extent>)
    requires |us| == |cfg.ringSize| == SLOTS
    ensures Step(us, cfg, Event.Apply(c, answer)) == Applied(us, cfg, c, answer)
  {}

  lemma EnableStep(us: seq<Unit>, cfg: Config, s: nat)
    requires |us| == |cfg.ringSize| == SLOTS && s < SLOTS
    ensures Step(us, cfg, Enable(s)) == us[s := Enabled(us[s])]
    ensures Enabled(us[s]) == if us[s].slot.active && !us[s].slot.enabled && us[s].stream.active && us[s].stream.primed
                              then us[s].(slot := us[s].slot.(enabled := true),
                                          sounding := Some(Level(us[s].slot.gain, us[s].slot.pan)))
                              else us[s]
  {}

  lemma PrimeStep(us: seq<Unit>, cfg: Config, s: nat)
    requires |us| == |cfg.ringSize| == SLOTS && s < SLOTS
    ensures Step(us, cfg, Prime(s)) == us[s := Primed(us[s])] && Primed(us[s]).slot == us[s].slot
  {}

  lemma RunMore(us: seq<Unit>, cfg: Config, es: seq<Event>, e: Event)
    requires |us| == |cfg.ringSize| == SLOTS
    ensures Run(us, cfg, es + [e]) == Step(Run(us, cfg, es), cfg, e)
  {
    assert (es + [e])[..|es|] == es;
  }

  /** One run after another is a run. */
  lemma {:induction false} RunTwice(us: seq<Unit>, cfg: Config, es: seq<Event>, more: seq<Event>)
    requires |us| == |cfg.ringSize| == SLOTS
    ensures Run(us, cfg, es + more) == Run(Run(us, cfg, es), cfg, more)
    decreases |more|
  {
    hide Step;
    if more == [] {
      assert es + more == es;
    } else {
      var n := |more| - 1;
      RunTwice(us, cfg, es, more[..n]);
      assert es + more == (es + more[..n]) + [more[n]];
      RunMore(us, cfg, es + more[..n], more[n]);
    }
  }
}
