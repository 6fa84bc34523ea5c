// The bitstream packer: run-length coding with escapes, and its own decoder.
// tools/hx421_rlepack.c.
module RlePack {
  import opened Arith

  const RUN: Byte := 0x5B
  const RUN_LONG: Byte := 0x77
  const ESC: Byte := 0x9B
  const LEN_THRESH: nat := 3
  const MAX_RUN: nat := 65535

  predicate Control(d: Byte) { d == RUN || d == RUN_LONG || d == ESC }

  // ---- encoding ----

  function Rep(d: Byte, n: nat): (r: seq<Byte>)
    ensures |r| == n
  {
    seq(n, i => d)
  }

  /** Length of the run a non-empty input starts with, at most 65535. */
  function RunLength(x: seq<Byte>, n: nat): (r: nat)
    requires 1 <= n <= |x| && n <= MAX_RUN && x[..n] == Rep(x[0], n)
    ensures n <= r <= |x| && r <= MAX_RUN && x[..r] == Rep(x[0], r)
    decreases |x| - n
  {
    if n < |x| && x[n] == x[0] && n < MAX_RUN then
      assert x[..n + 1] == x[..n] + [x[n]] == Rep(x[0], n + 1);
      RunLength(x, n + 1)
    else n
  }

  lemma OneIsARun(x: seq<Byte>)
    requires x != []
    ensures x[..1] == Rep(x[0], 1)
  {}

  /** What is written for a run of `run` bytes d, or for the one literal d. */
  function Token(d: Byte, run: nat): (t: seq<Byte>)
    requires 1 <= run <= MAX_RUN
    ensures 1 <= |t| <= 4
    ensures run > LEN_THRESH ==> |t| <= 2 * run
    ensures run <= LEN_THRESH ==> |t| <= 2
  {
    if run > LEN_THRESH then
      if run < 256 then [RUN, d, run] else [RUN_LONG, d, run % 256, run / 256]
    else if Control(d) then [ESC, d] else [d]
  }

  /** Input consumed by that token. */
  function Consumed(run: nat): nat { if run > LEN_THRESH then run else 1 }

  function Encoded(x: seq<Byte>): seq<Byte>
    decreases |x|
  {
    if x == [] then []
    else
      OneIsARun(x);
      var run := RunLength(x, 1);
      Token(x[0], run) + Encoded(x[Consumed(run)..])
  }

  /** Never more than two bytes for one. */
  lemma {:induction false} EncodedIsShort(x: seq<Byte>)
    ensures |Encoded(x)| <= 2 * |x|
    decreases |x|
  {
    if x == [] {
    } else {
      OneIsARun(x);
      var run := RunLength(x, 1);
      EncodedIsShort(x[Consumed(run)..]);
    }
  }

  // ---- decoding ----

  /** One item of the coded stream: a byte, how often, and the code bytes it took.
      A zero length wraps to more repeats than any buffer holds. */
  datatype Item = Item(data: Byte, count: Option<nat>, size: nat) | Stop | Overrun

  function Count(len: nat): Option<nat> { if len == 0 then None else Some(len) }

  /** The item at the head of a stream s, with the bytes `past` readable behind
      its end: only the head must lie in the stream. */
  function NextItem(s: seq<Byte>, past: seq<Byte>): (it: Item)
    requires s != []
    ensures it.Item? ==> 1 <= it.size <= |s| + |past| && (it.count.Some? ==> it.count.value >= 1)
  {
    var m := s + past;
    if s[0] == RUN then
      if |s| == 1 then Stop
      else if |m| < 3 then Overrun
      else Item(m[1], Count(m[2]), 3)
    else if s[0] == RUN_LONG then
      if |m| < 4 then Overrun else (var hi: int := m[3]; Item(m[1], Count(hi * 256 + m[2]), 4))
    else if s[0] == ESC then
      if |m| < 2 then Overrun else Item(m[1], Some(1), 2)
    else Item(s[0], Some(1), 1)
  }

  /** The stream after an item; a cut item leaves nothing. */
  function After(s: seq<Byte>, size: nat): (r: seq<Byte>)
    ensures size >= 1 && s != [] ==> |r| < |s|
  {
    if size <= |s| then s[size..] else []
  }

  /** What decoding yields with room for `room` more bytes; nothing if it would
      read past the readable bytes behind the stream. */
  function Decoded(s: seq<Byte>, past: seq<Byte>, room: nat): (r: Option<seq<Byte>>)
    ensures r.Some? ==> |r.value| <= room
    decreases |s|
  {
    if s == [] then Some([])
    else
      match NextItem(s, past)
      case Stop => Some([])
      case Overrun => None
      case Item(d, count, size) =>
        if count == None || count.value > room then Some(Rep(d, room))
        else
          match Decoded(After(s, size), past, room - count.value)
          case None => None
          case Some(rest) => Some(Rep(d, count.value) + rest)
  }

  /** Three readable bytes behind the stream are enough for any stream. */
  lemma {:induction false} ThreeBytesSuffice(s: seq<Byte>, past: seq<Byte>, room: nat)
    requires |past| >= 3
    ensures Decoded(s, past, room).Some?
    decreases |s|
  {
    if s == [] {
    } else {
      var it := NextItem(s, past);
      if it.Item? && it.count.Some? && it.count.value <= room {
        ThreeBytesSuffice(After(s, it.size), past, room - it.count.value);
      }
    }
  }

  /** A token reads back as its run, whatever follows it. */
  lemma TokenReadsBack(d: Byte, run: nat, rest: seq<Byte>, past: seq<Byte>)
    requires 1 <= run <= MAX_RUN
    ensures NextItem(Token(d, run) + rest, past) == Item(d, Some(Consumed(run)), |Token(d, run)|)
    ensures After(Token(d, run) + rest, |Token(d, run)|) == rest
  {
    assert run == run % 256 + 256 * (run / 256);
  }

  lemma TokenDecodes(d: Byte, run: nat, rest: seq<Byte>, past: seq<Byte>, room: nat, r: seq<Byte>)
    requires 1 <= run <= MAX_RUN && 1 <= Consumed(run) <= room
    requires Decoded(rest, past, room - Consumed(run)) == Some(r)
    ensures Decoded(Token(d, run) + rest, past, room) == Some(Rep(d, Consumed(run)) + r)
  {
    hide NextItem, Token, After;
    TokenReadsBack(d, run, rest, past);
  }

  /** The first step of the encoding. */
  lemma EncodedStep(x: seq<Byte>) returns (run: nat)
    requires x != []
    ensures 1 <= run <= MAX_RUN && 1 <= Consumed(run) <= |x|
    ensures Encoded(x) == Token(x[0], run) + Encoded(x[Consumed(run)..])
    ensures x == Rep(x[0], Consumed(run)) + x[Consumed(run)..]
  {
    OneIsARun(x);
    run := RunLength(x, 1);
    var n := Consumed(run);
    assert x[..n] == x[..run][..n];
    assert x == x[..n] + x[n..];
  }

  lemma NothingDecodes(past: seq<Byte>, room: nat)
    ensures Decoded(Encoded([]), past, room) == Some([])
  {}

  /** ROUND TRIP, for every byte string: long runs, control bytes and all. */
  lemma {:induction false} DecodeEncode(x: seq<Byte>, past: seq<Byte>, room: nat)
    requires |x| <= room
    ensures Decoded(Encoded(x), past, room) == Some(x)
    decreases |x|
  {
    hide Encoded, Decoded, NextItem, Token, RunLength, Consumed, Rep;
    if x == [] {
      NothingDecodes(past, room);
    } else {
      var run := EncodedStep(x);
      var rest := x[Consumed(run)..];
      DecodeEncode(rest, past, room - Consumed(run));
      TokenDecodes(x[0], run, Encoded(rest), past, room, rest);
    }
  }

  // ---- the format ----

  lemma {:induction false} RunLengthIs(d: Byte, run: nat, rest: seq<Byte>, n: nat)
    requires 1 <= n <= run <= MAX_RUN && (rest == [] || rest[0] != d || run == MAX_RUN)
    requires (Rep(d, run) + rest)[..n] == Rep(d, n)
    ensures RunLength(Rep(d, run) + rest, n) == run
    decreases run - n
  {
    var x := Rep(d, run) + rest;
    if n < run {
      assert x[..n + 1] == Rep(d, n + 1);
      RunLengthIs(d, run, rest, n + 1);
    }
  }

  lemma RunThenRest(d: Byte, run: nat, rest: seq<Byte>, k: nat)
    requires 1 <= k <= run
    ensures var x := Rep(d, run) + rest;
            x != [] && x[0] == d && x[..1] == Rep(d, 1) && x[k..] == Rep(d, run - k) + rest
  {}

  /** THE FORMAT, as the encoder writes it, of a run and what follows: a long run
      takes four bytes with its length low byte first, a run of 4 to 255 three, and
      a shorter one goes out byte by byte, each behind 9B if it is 5B, 77 or 9B. */
  lemma EncodedRun(d: Byte, run: nat, rest: seq<Byte>)
    requires 1 <= run <= 65535 && (rest == [] || rest[0] != d || run == 65535)
    ensures run >= 256 ==> Encoded(Rep(d, run) + rest) == [0x77, d, run % 256, run / 256] + Encoded(rest)
    ensures 4 <= run < 256 ==> Encoded(Rep(d, run) + rest) == [0x5B, d, run] + Encoded(rest)
    ensures run < 4 ==>
              Encoded(Rep(d, run) + rest) ==
              (if d == 0x5B || d == 0x77 || d == 0x9B then [0x9B, d] else [d]) + Encoded(Rep(d, run - 1) + rest)
  {
    var x := Rep(d, run) + rest;
    RunThenRest(d, run, rest, 1);
    RunThenRest(d, run, rest, run);
    RunLengthIs(d, run, rest, 1);
    assert Rep(d, 0) + rest == rest;
    assert Encoded(x) == Token(d, run) + Encoded(x[Consumed(run)..]);
    hide Encoded, Rep, RunLength;
  }

  /** len bytes d and then what s stands for, as far as the room goes. */
  ghost function Filled(d: Byte, len: nat, s: seq<Byte>, past: seq<Byte>, room: nat): Option<seq<Byte>> {
    if len == 0 || len > room then Some(Rep(d, room))
    else
      match Decoded(s, past, room - len)
      case None => None
      case Some(rest) => Some(Rep(d, len) + rest)
  }

  lemma ItemFills(s: seq<Byte>, past: seq<Byte>, room: nat, d: Byte, len: nat, size: nat, rest: seq<Byte>)
    requires s != [] && NextItem(s, past) == Item(d, if len == 0 then None else Some(len), size)
    requires After(s, size) == rest
    ensures Decoded(s, past, room) == Filled(d, len, rest, past, room)
  {
    hide Rep, NextItem, After;
  }

  lemma BehindHead(head: seq<Byte>, s: seq<Byte>)
    ensures After(head + s, |head|) == s
  {}

  /** And as the decoder reads it, from any bytes: a length of 0 fills the room. */
  lemma DecodedFormat(d: Byte, lo: Byte, hi: Byte, s: seq<Byte>, past: seq<Byte>, room: nat)
    ensures Decoded([0x77, d, lo, hi] + s, past, room) == Filled(d, 256 * hi + lo, s, past, room)
    ensures Decoded([0x5B, d, lo] + s, past, room) == Filled(d, lo, s, past, room)
    ensures Decoded([0x9B, d] + s, past, room) == Filled(d, 1, s, past, room)
    ensures d != 0x5B && d != 0x77 && d != 0x9B ==> Decoded([d] + s, past, room) == Filled(d, 1, s, past, room)
  {
    hide Decoded, Filled;
    BehindHead([0x77, d, lo, hi], s);
    BehindHead([0x5B, d, lo], s);
    BehindHead([0x9B, d], s);
    BehindHead([d], s);
    hide After;
    ItemFills([0x77, d, lo, hi] + s, past, room, d, 256 * hi + lo, 4, s);
    ItemFills([0x5B, d, lo] + s, past, room, d, lo, 3, s);
    ItemFills([0x9B, d] + s, past, room, d, 1, 2, s);
    if d != 0x5B && d != 0x77 && d != 0x9B {
      ItemFills([d] + s, past, room, d, 1, 1, s);
    }
  }

  /** A stream that ends inside an item: a lone 5B stops the decoder, any other is
      completed from the bytes behind the stream and is the last. */
  lemma DecodedCut(d: Byte, lo: Byte, hi: Byte, past: seq<Byte>, room: nat)
    ensures Decoded([0x5B], past, room) == Some([])
    ensures Decoded([0x5B, d], [lo] + past, room) == Filled(d, lo, [], [lo] + past, room)
    ensures Decoded([0x77], [d, lo, hi] + past, room) == Filled(d, 256 * hi + lo, [], [d, lo, hi] + past, room)
    ensures Decoded([0x77, d], [lo, hi] + past, room) == Filled(d, 256 * hi + lo, [], [lo, hi] + past, room)
    ensures Decoded([0x77, d, lo], [hi] + past, room) == Filled(d, 256 * hi + lo, [], [hi] + past, room)
    ensures Decoded([0x9B], [d] + past, room) == Filled(d, 1, [], [d] + past, room)
  {
    LoneRun(past, room);
    hide Decoded, Filled;
    ItemFills([0x5B, d], [lo] + past, room, d, lo, 3, []);
    ItemFills([0x77], [d, lo, hi] + past, room, d, 256 * hi + lo, 4, []);
    ItemFills([0x77, d], [lo, hi] + past, room, d, 256 * hi + lo, 4, []);
    ItemFills([0x77, d, lo], [hi] + past, room, d, 256 * hi + lo, 4, []);
    ItemFills([0x9B], [d] + past, room, d, 1, 2, []);
  }

  lemma LoneRun(past: seq<Byte>, room: nat)
    ensures Decoded([0x5B], past, room) == Some([])
  {}

  // ---- the loops ----

  /** The inner scan for the run's end. */
  method ScanRun(inp: seq<Byte>, i: nat) returns (run: nat)
    requires i < |inp|
    ensures i + run <= |inp|
    ensures inp[i..][..1] == Rep(inp[i], 1) && run == RunLength(inp[i..], 1)
  {
    var d := inp[i];
    OneIsARun(inp[i..]);
    run := 1;
    while i + run < |inp| && inp[i + run] == d && run < MAX_RUN
      invariant 1 <= run <= MAX_RUN && i + run <= |inp|
      invariant inp[i..][..run] == Rep(d, run) && RunLength(inp[i..], run) == RunLength(inp[i..], 1)
    {
      assert inp[i..][..run + 1] == inp[i..][..run] + [inp[i + run]] == Rep(d, run + 1);
      run := run + 1;
    }
  }

  /** encode, into a buffer of twice the input. */
  method Encode(inp: seq<Byte>, out: array<Byte>) returns (o: nat)
    requires 2 * |inp| <= out.Length
    modifies out
    ensures o <= out.Length && out[..o] == Encoded(inp)
  {
    hide RunLength, Token;
    o := 0;
    var i := 0;
    while i < |inp|
      invariant 0 <= i <= |inp| && o <= 2 * i && o <= out.Length
      invariant out[..o] + Encoded(inp[i..]) == Encoded(inp)
    {
      var run := ScanRun(inp, i);
      ghost var before, rest := out[..o], Encoded(inp[i..][Consumed(run)..]);
      assert inp[i..][Consumed(run)..] == inp[i + Consumed(run)..];
      assert (before + Token(inp[i], run)) + rest == before + (Token(inp[i], run) + rest);
      o := Put(inp[i], run, out, o);
      i := i + Consumed(run);
    }
    assert inp[i..] == [] && out[..o] + [] == out[..o];
  }

  /** Write one token. */
  method Put(d: Byte, run: nat, out: array<Byte>, o: nat) returns (o': nat)
    requires 1 <= run <= MAX_RUN && o + |Token(d, run)| <= out.Length
    modifies out
    ensures o' == o + |Token(d, run)| && out[..o'] == old(out[..o]) + Token(d, run)
  {
    if run > LEN_THRESH {
      if run < 256 {
        out[o], out[o + 1], out[o + 2] := RUN, d, run;
        o' := o + 3;
      } else {
        out[o], out[o + 1], out[o + 2], out[o + 3] := RUN_LONG, d, run % 256, run / 256;
        o' := o + 4;
      }
    } else {
      o' := o;
      if Control(d) {
        out[o'] := ESC;
        o' := o' + 1;
      }
      out[o'] := d;
      o' := o' + 1;
    }
  }

  /** decode the first n bytes of a buffer; a token cut by the end of the stream
      is completed from the bytes behind it, as long as there are any. */
  method Decode(inp: seq<Byte>, n: nat, out: array<Byte>, cap: nat) returns (o: nat)
    requires n <= |inp| && cap <= out.Length && Decoded(inp[..n], inp[n..], cap).Some?
    modifies out
    ensures o <= cap && out[..o] == Decoded(inp[..n], inp[n..], cap).value
  {
    hide NextItem, Decoded, Rep, After;
    o := 0;
    var i := 0;
    ghost var past, want := inp[n..], Decoded(inp[..n], inp[n..], cap).value;
    assert inp[0..n] == inp[..n];
    while i < n
      invariant o <= cap
      invariant Decoded(Live(inp, i, n), past, cap - o).Some?
      invariant out[..o] + Decoded(Live(inp, i, n), past, cap - o).value == want
    {
      LiveHead(inp, i, n);
      DecodedHead(inp[i..n], past, cap - o, out[..o]);
      var it := NextItem(inp[i..n], inp[n..]);
      if it == Stop { return; }
      var k := if it.count == None || it.count.value > cap - o then cap - o else it.count.value;
      AfterIsLive(inp, i, n, it.size);
      DecodedStep(inp[i..n], past, cap - o, out[..o], it, Live(inp, i + it.size, n), k);
      Fill(out, o, it.data, k);
      o := o + k;
      if it.count == None || it.count.value > k { return; }
      i := i + it.size;
    }
    DecodedNothing(past, cap - o, out[..o]);
  }

  /** What is left of the stream at index i. */
  function Live(inp: seq<Byte>, i: nat, n: nat): (r: seq<Byte>)
    requires n <= |inp|
    ensures i >= n ==> r == []
    ensures i < n ==> r == inp[i..n] != []
  {
    if i < n then inp[i..n] else []
  }

  lemma LiveHead(inp: seq<Byte>, i: nat, n: nat)
    requires i < n <= |inp|
    ensures inp[i..n] + inp[n..] == inp[i..]
  {}

  lemma DecodedNothing(past: seq<Byte>, room: nat, before: seq<Byte>)
    ensures Decoded([], past, room) == Some([]) && before + [] == before
  {}

  lemma DecodedHead(s: seq<Byte>, past: seq<Byte>, room: nat, before: seq<Byte>)
    requires s != [] && Decoded(s, past, room).Some?
    ensures NextItem(s, past) != Overrun &&
            (NextItem(s, past) == Stop ==> before + Decoded(s, past, room).value == before)
  {}

  /** One turn of the decoding loop on the stream s, after k bytes of its first
      item were written. */
  lemma DecodedStep(s: seq<Byte>, past: seq<Byte>, room: nat, before: seq<Byte>, it: Item, rest: seq<Byte>, k: nat)
    requires s != [] && it == NextItem(s, past) && it.Item? && rest == After(s, it.size)
    requires Decoded(s, past, room).Some?
    requires k == if it.count == None || it.count.value > room then room else it.count.value
    ensures k <= room
    ensures it.count == None || it.count.value > k ==>
              before + Rep(it.data, k) == before + Decoded(s, past, room).value
    ensures it.count.Some? && it.count.value <= k ==>
              Decoded(rest, past, room - k).Some? &&
              before + Rep(it.data, k) + Decoded(rest, past, room - k).value == before + Decoded(s, past, room).value
  {
    DecodedItem(s, past, room);
    hide NextItem, Decoded, Rep, After;
    if it.count.Some? && it.count.value <= k {
      Regroup(before, Rep(it.data, k), Decoded(rest, past, room - k).value);
    }
  }

  lemma Regroup(a: seq<Byte>, b: seq<Byte>, c: seq<Byte>)
    ensures a + b + c == a + (b + c)
  {}

  lemma AfterIsLive(inp: seq<Byte>, i: nat, n: nat, size: nat)
    requires i < n <= |inp| && size >= 1
    ensures After(inp[i..n], size) == Live(inp, i + size, n)
  {}

  lemma DecodedItem(s: seq<Byte>, past: seq<Byte>, room: nat)
    requires s != [] && NextItem(s, past).Item? && Decoded(s, past, room).Some?
    ensures var it := NextItem(s, past);
            && (it.count == None || it.count.value > room ==> Decoded(s, past, room).value == Rep(it.data, room))
            && (it.count.Some? && it.count.value <= room ==>
                  && Decoded(After(s, it.size), past, room - it.count.value).Some?
                  && Decoded(s, past, room).value ==
                     Rep(it.data, it.count.value) + Decoded(After(s, it.size), past, room - it.count.value).value)
  {
    hide NextItem, Rep, After;
  }

  method Fill(out: array<Byte>, o: nat, d: Byte, n: nat)
    requires o + n <= out.Length
    modifies out
    ensures out[..o + n] == old(out[..o]) + Rep(d, n)
  {
    var k := 0;
    while k < n
      invariant 0 <= k <= n && out[..o + k] == old(out[..o]) + Rep(d, k)
    {
      out[o + k] := d;
      k := k + 1;
    }
  }
}
