// The pool's out-of-band metadata as values: FAT-style chains over a block
// table, and the byte array a chain stands for. engine/audio/audio_pool.c.
module PoolChains {
  import opened Arith

  const NO_BLOCK: int := 0xFFFF_FFFF

  // ---- counting ----

  function CountClear(used: seq<bool>): nat {
    if used == [] then 0 else CountClear(used[..|used| - 1]) + if used[|used| - 1] then 0 else 1
  }

  lemma {:induction false} CountAfter(used: seq<bool>, b: nat, x: bool)
    requires b < |used|
    ensures CountClear(used[b := x]) ==
            CountClear(used) - (if used[b] then 0 else 1) + if x then 0 else 1
    decreases |used|
  {
    var n := |used| - 1;
    if b == n {
      assert used[b := x][..n] == used[..n];
    } else {
      CountAfter(used[..n], b, x);
      assert used[b := x][..n] == used[..n][b := x];
    }
  }

  lemma {:induction false} NoneClear(used: seq<bool>)
    requires forall i | 0 <= i < |used| :: used[i]
    ensures CountClear(used) == 0
    decreases |used|
  {
    if used == [] {
    } else {
      NoneClear(used[..|used| - 1]);
    }
  }

  lemma {:induction false} AllClear(used: seq<bool>)
    requires forall i | 0 <= i < |used| :: !used[i]
    ensures CountClear(used) == |used|
    decreases |used|
  {
    if used == [] {
    } else {
      AllClear(used[..|used| - 1]);
    }
  }

  // ---- the structure ----

  /** Block tables: who owns a block, what follows it, whether it is taken. */
  datatype Tables = Tables(owner: seq<int>, next: seq<int>, used: seq<bool>)

  function Successor(chain: seq<nat>, k: nat): int
    requires k < |chain|
  {
    if k + 1 < |chain| then chain[k + 1] else NO_BLOCK
  }

  /** Slot s's chain runs through `chain`: every block is a taken block of s, each
      names its successor, the last names none, and none occurs twice. */
  ghost predicate ChainOk(t: Tables, s: int, chain: seq<nat>)
    requires |t.owner| == |t.next| == |t.used|
  {
    && (forall k | 0 <= k < |chain| :: chain[k] < |t.used| && t.used[chain[k]] && t.owner[chain[k]] == s)
    && (forall k | 0 <= k < |chain| :: t.next[chain[k]] == Successor(chain, k))
    && (forall j, k | 0 <= j < k < |chain| :: chain[j] != chain[k])
  }

  /** A taken block belongs to its owner's chain; a free one belongs to nobody. */
  ghost predicate BlockOk(t: Tables, chains: seq<seq<nat>>, b: nat)
    requires |t.owner| == |t.next| == |t.used| && b < |t.used|
  {
    if t.used[b] then 0 <= t.owner[b] < |chains| && b in chains[t.owner[b]]
    else t.owner[b] == NO_BLOCK && t.next[b] == NO_BLOCK
  }

  ghost predicate Chained(t: Tables, chains: seq<seq<nat>>) {
    && |t.owner| == |t.next| == |t.used| <= NO_BLOCK
    && |chains| <= NO_BLOCK
    && (forall s | 0 <= s < |chains| :: ChainOk(t, s, chains[s]))
    && (forall b | 0 <= b < |t.used| :: BlockOk(t, chains, b))
  }

  /** The chains partition the taken blocks. */
  lemma ChainsPartition(t: Tables, chains: seq<seq<nat>>, b: nat)
    requires Chained(t, chains) && b < |t.used|
    ensures t.used[b] <==> exists s :: 0 <= s < |chains| && b in chains[s]
    ensures forall s, r | 0 <= s < |chains| && 0 <= r < |chains| && b in chains[s] && b in chains[r] :: s == r
  {
    forall s | 0 <= s < |chains| && b in chains[s]
      ensures t.owner[b] == s && t.used[b]
    {
      assert ChainOk(t, s, chains[s]);
    }
    assert BlockOk(t, chains, b);
  }

  /** Nothing taken, nothing chained. */
  lemma NoChains(t: Tables, chains: seq<seq<nat>>)
    requires |t.owner| == |t.next| == |t.used| <= NO_BLOCK && |chains| <= NO_BLOCK
    requires forall b | 0 <= b < |t.used| :: !t.used[b] && t.owner[b] == NO_BLOCK && t.next[b] == NO_BLOCK
    requires forall s | 0 <= s < |chains| :: chains[s] == []
    ensures Chained(t, chains)
  {}

  /** Append free block b to slot s's chain. */
  function Attach(t: Tables, s: int, chain: seq<nat>, b: nat): Tables
    requires |t.owner| == |t.next| == |t.used| && b < |t.used|
    requires chain != [] ==> chain[|chain| - 1] < |t.used|
  {
    var next := t.next[b := NO_BLOCK];
    Tables(t.owner[b := s], if chain == [] then next else next[chain[|chain| - 1] := b], t.used[b := true])
  }

  lemma AttachKeepsOthers(t: Tables, chains: seq<seq<nat>>, s: nat, b: nat, r: nat)
    requires Chained(t, chains) && s < |chains| && b < |t.used| && !t.used[b]
    requires r < |chains| && r != s
    requires chains[s] != [] ==> chains[s][|chains[s]| - 1] < |t.used|
    ensures ChainOk(Attach(t, s, chains[s], b), r, chains[r])
  {
    assert ChainOk(t, r, chains[r]);
    assert ChainOk(t, s, chains[s]);
    assert chains[s] != [] ==> t.owner[chains[s][|chains[s]| - 1]] == s;
  }

  lemma LastInRange(t: Tables, chains: seq<seq<nat>>, s: nat)
    requires Chained(t, chains) && s < |chains|
    ensures forall k | 0 <= k < |chains[s]| :: chains[s][k] < |t.used|
  {
    assert ChainOk(t, s, chains[s]);
  }

  lemma AttachKeepsOwn(t: Tables, chains: seq<seq<nat>>, s: nat, b: nat)
    requires Chained(t, chains) && s < |chains| && b < |t.used| && !t.used[b]
    requires chains[s] != [] ==> chains[s][|chains[s]| - 1] < |t.used|
    ensures ChainOk(Attach(t, s, chains[s], b), s, chains[s] + [b])
  {
    var c, t' := chains[s], Attach(t, s, chains[s], b);
    assert ChainOk(t, s, c);
    forall k | 0 <= k < |c|
      ensures t'.next[c[k]] == Successor(c + [b], k)
    {
      assert t.next[c[k]] == Successor(c, k);
    }
  }

  lemma AttachKeeps(t: Tables, chains: seq<seq<nat>>, s: nat, b: nat)
    requires Chained(t, chains) && s < |chains| && b < |t.used| && !t.used[b]
    ensures forall k | 0 <= k < |chains[s]| :: chains[s][k] < |t.used|
    ensures Chained(Attach(t, s, chains[s], b), chains[s := chains[s] + [b]])
  {
    LastInRange(t, chains, s);
    var c, t', cs := chains[s], Attach(t, s, chains[s], b), chains[s := chains[s] + [b]];
    forall r | 0 <= r < |cs|
      ensures ChainOk(t', r, cs[r])
    {
      if r == s {
        AttachKeepsOwn(t, chains, s, b);
      } else {
        AttachKeepsOthers(t, chains, s, b, r);
      }
    }
    forall a | 0 <= a < |t.used|
      ensures BlockOk(t', cs, a)
    {
      assert BlockOk(t, chains, a);
      if c != [] && a == c[|c| - 1] {
        assert ChainOk(t, s, c);
        assert a in c;
      }
    }
  }

  /** Give back the head block of slot s's chain. */
  function Detach(t: Tables, b: nat): Tables
    requires |t.owner| == |t.next| == |t.used| && b < |t.used|
  {
    Tables(t.owner[b := NO_BLOCK], t.next[b := NO_BLOCK], t.used[b := false])
  }

  lemma DetachKeeps(t: Tables, chains: seq<seq<nat>>, s: nat)
    requires Chained(t, chains) && s < |chains| && chains[s] != []
    ensures chains[s][0] < |t.used| && t.used[chains[s][0]]
    ensures Chained(Detach(t, chains[s][0]), chains[s := chains[s][1..]])
    ensures t.next[chains[s][0]] == if |chains[s]| > 1 then chains[s][1] else NO_BLOCK
  {
    var c := chains[s];
    assert ChainOk(t, s, c);
    var b := c[0];
    assert t.next[c[0]] == Successor(c, 0);
    var t', cs := Detach(t, b), chains[s := c[1..]];
    forall r | 0 <= r < |cs|
      ensures ChainOk(t', r, cs[r])
    {
      assert ChainOk(t, r, chains[r]);
      if r == s {
        TailOk(t, s, c);
      }
    }
    forall a | 0 <= a < |t.used|
      ensures BlockOk(t', cs, a)
    {
      assert BlockOk(t, chains, a);
      if a != b && t.used[a] && t.owner[a] == s {
        var k :| 0 <= k < |c| && c[k] == a;
        assert c[1..][k - 1] == a;
      }
    }
  }

  lemma TailOk(t: Tables, s: int, c: seq<nat>)
    requires |t.owner| == |t.next| == |t.used| && ChainOk(t, s, c) && c != []
    ensures c[0] < |t.used| && ChainOk(Detach(t, c[0]), s, c[1..])
  {
    var t' := Detach(t, c[0]);
    forall k | 0 <= k < |c[1..]|
      ensures t'.next[c[1..][k]] == Successor(c[1..], k)
    {
      assert c[1..][k] == c[k + 1] != c[0];
      assert t.next[c[k + 1]] == Successor(c, k + 1);
    }
  }

  // ---- the bytes of a chain ----

  /** Region position of byte i of a chain. */
  function ByteAt(chain: seq<nat>, bs: nat, i: nat): nat
    requires bs > 0 && i < |chain| * bs
  {
    BlockIndex(|chain|, bs, i);
    chain[i / bs] * bs + i % bs
  }

  lemma BlockIndex(n: nat, bs: nat, i: nat)
    requires bs > 0 && i < n * bs
    ensures 0 <= i / bs < n && 0 <= i % bs < bs && i == i / bs * bs + i % bs
  {
    if i / bs >= n {
      MultipleOrder(n, i / bs, bs);
    }
  }

  lemma MultipleOrder(a: int, b: int, n: int)
    requires a <= b && n >= 0
    ensures a * n <= b * n
  {
    assert (b - a) * n >= 0;
  }

  lemma ByteInRegion(chain: seq<nat>, bs: nat, i: nat, count: nat)
    requires bs > 0 && i < |chain| * bs
    requires forall k | 0 <= k < |chain| :: chain[k] < count
    ensures ByteAt(chain, bs, i) < count * bs
    ensures ByteAt(chain, bs, i) / bs == chain[i / bs] && ByteAt(chain, bs, i) % bs == i % bs
  {
    BlockIndex(|chain|, bs, i);
    GridIndex(i % bs, chain[i / bs], bs, count);
  }

  /** The flat contents: the first n bytes a chain stands for, or all it has. */
  function Flat(region: seq<Byte>, chain: seq<nat>, bs: nat, n: nat): (f: seq<Byte>)
    requires bs > 0
    ensures |f| == if n <= |chain| * bs then n else |chain| * bs
  {
    seq(if n <= |chain| * bs then n else |chain| * bs,
        i requires 0 <= i < |chain| * bs =>
          var p := ByteAt(chain, bs, i); if p < |region| then region[p] else 0)
  }

  /** Two bytes of chained storage coincide only when block and offset do. */
  lemma ByteAtInjective(c: seq<nat>, d: seq<nat>, bs: nat, i: nat, j: nat, count: nat)
    requires bs > 0 && i < |c| * bs && j < |d| * bs
    requires forall k | 0 <= k < |c| :: c[k] < count
    requires forall k | 0 <= k < |d| :: d[k] < count
    requires ByteAt(c, bs, i) == ByteAt(d, bs, j)
    ensures 0 <= i / bs < |c| && 0 <= j / bs < |d|
    ensures c[i / bs] == d[j / bs] && i % bs == j % bs
  {
    BlockIndex(|c|, bs, i);
    BlockIndex(|d|, bs, j);
    ByteInRegion(c, bs, i, count);
    ByteInRegion(d, bs, j, count);
  }

  ghost predicate Distinct(c: seq<nat>) { forall j, k | 0 <= j < k < |c| :: c[j] != c[k] }

  ghost predicate Below(c: seq<nat>, count: nat) { forall k | 0 <= k < |c| :: c[k] < count }

  /** Which block of a chain holds position pos, where in it, and where in the
      region a block's byte lies. */
  function Blk(bs: nat, pos: nat): nat
    requires bs > 0
  {
    pos / bs
  }

  function Off(bs: nat, pos: nat): (r: nat)
    requires bs > 0
    ensures r < bs
  {
    pos % bs
  }

  function At(bs: nat, b: nat, off: nat): nat { b * bs + off }

  /** The bytes pos .. pos+n-1 of the chain, inside one block, are exactly the
      region run that starts at that block's byte. */
  lemma RunHits(c: seq<nat>, bs: nat, pos: nat, n: nat, i: nat, count: nat)
    requires bs > 0 && Blk(bs, pos) < |c| && Off(bs, pos) + n <= bs
    requires i < |c| * bs && Distinct(c) && Below(c, count)
    ensures var at := At(bs, c[Blk(bs, pos)], Off(bs, pos));
            && (at <= ByteAt(c, bs, i) < at + n <==> pos <= i < pos + n)
            && (pos <= i < pos + n ==> ByteAt(c, bs, i) - at == i - pos)
  {
    var at, p := c[pos / bs] * bs + pos % bs, ByteAt(c, bs, i);
    ByteInRegion(c, bs, i, count);
    BlockIndex(|c|, bs, i);
    if pos <= i < pos + n {
      var d := i - pos;
      assert pos == pos / bs * bs + pos % bs;
      DivModUnique(i, bs, pos / bs, pos % bs + d);
    } else if at <= p < at + n {
      DivModUnique(p, bs, c[pos / bs], pos % bs + (p - at));
    }
  }

  /** The run stays inside the region and touches only its own block. */
  lemma RunInRegion(c: seq<nat>, bs: nat, pos: nat, n: nat, count: nat, p: nat)
    requires bs > 0 && Blk(bs, pos) < |c| && Off(bs, pos) + n <= bs && Below(c, count)
    ensures At(bs, c[Blk(bs, pos)], Off(bs, pos)) + n <= count * bs
    ensures var at := At(bs, c[Blk(bs, pos)], Off(bs, pos));
            at <= p < at + n ==> Blk(bs, p) == c[Blk(bs, pos)]
  {
    var b := c[pos / bs];
    MultipleOrder(b + 1, count, bs);
    assert (b + 1) * bs == b * bs + bs;
    var at := b * bs + pos % bs;
    if at <= p < at + n {
      DivModUnique(p, bs, b, pos % bs + (p - at));
    }
  }

  /** After a run that fills its block, the walk is at the next block's start. */
  lemma RunEnds(bs: nat, pos: nat, n: nat)
    requires bs > 0 && n == bs - Off(bs, pos)
    ensures Blk(bs, pos + n) == Blk(bs, pos) + 1 && Off(bs, pos + n) == 0
  {
    assert pos == pos / bs * bs + pos % bs;
    DivModUnique(pos + n, bs, pos / bs + 1, 0);
  }

  lemma PastLastBlock(n: nat, bs: nat, pos: nat)
    requires bs > 0
    ensures Blk(bs, pos) >= n <==> pos >= n * bs
  {
    assert pos == pos / bs * bs + pos % bs;
    if pos / bs >= n {
      MultipleOrder(n, pos / bs, bs);
    } else {
      MultipleOrder(pos / bs + 1, n, bs);
      assert (pos / bs + 1) * bs == pos / bs * bs + bs;
    }
  }

  lemma RunFits(c: seq<nat>, bs: nat, pos: nat, n: nat)
    requires bs > 0 && Blk(bs, pos) < |c| && Off(bs, pos) + n <= bs
    ensures pos + n <= |c| * bs
  {
    assert pos == pos / bs * bs + pos % bs;
    MultipleOrder(pos / bs + 1, |c|, bs);
    assert (pos / bs + 1) * bs == pos / bs * bs + bs;
  }

  /** n entries from o on, when there are that many. */
  function Slice(b: seq<Byte>, o: nat, n: nat): seq<Byte> {
    if o + n <= |b| then b[o..o + n] else []
  }

  lemma SliceConcat(b: seq<Byte>, o: nat, n: nat, m: nat)
    requires o + n + m <= |b|
    ensures Slice(b, o, n) + Slice(b, o + n, m) == Slice(b, o, n + m)
  {}

  /** A run of the region inside one block is a slice of the flat contents. */
  lemma RunIsFlat(region: seq<Byte>, c: seq<nat>, bs: nat, size: nat, pos: nat, n: nat, count: nat)
    requires bs > 0 && Blk(bs, pos) < |c| && Off(bs, pos) + n <= bs
    requires Distinct(c) && Below(c, count) && pos + n <= size && count * bs <= |region|
    ensures pos + n <= |Flat(region, c, bs, size)|
    ensures At(bs, c[Blk(bs, pos)], Off(bs, pos)) + n <= |region|
    ensures Slice(region, At(bs, c[Blk(bs, pos)], Off(bs, pos)), n) == Slice(Flat(region, c, bs, size), pos, n)
  {
    hide ByteAt, Blk, Off, At;
    RunFits(c, bs, pos, n);
    RunInRegion(c, bs, pos, n, count, 0);
    var at, f := At(bs, c[Blk(bs, pos)], Off(bs, pos)), Flat(region, c, bs, size);
    var a, b := Slice(region, at, n), Slice(f, pos, n);
    forall i | 0 <= i < n
      ensures a[i] == b[i]
    {
      RunHits(c, bs, pos, n, pos + i, count);
    }
  }

  /** A read in progress: k bytes delivered, the rest of the buffer untouched. */
  ghost predicate ReadSoFar(bytes: seq<Byte>, offset: nat, k: nat, before: seq<Byte>, now: seq<Byte>) {
    && k <= |now| == |before|
    && (k > 0 ==> offset + k <= |bytes|)
    && now[..k] == Slice(bytes, offset, k) && now[k..] == before[k..]
  }

  lemma ReadStarts(bytes: seq<Byte>, offset: nat, before: seq<Byte>)
    ensures ReadSoFar(bytes, offset, 0, before, before)
  {}

  lemma ReadMore(bytes: seq<Byte>, offset: nat, k: nat, n: nat, before: seq<Byte>, mid: seq<Byte>, now: seq<Byte>)
    requires ReadSoFar(bytes, offset, k, before, mid) && |now| == |mid| && k + n <= |now|
    requires offset + k + n <= |bytes| && now[k..k + n] == Slice(bytes, offset + k, n)
    requires now[..k] == mid[..k] && now[k + n..] == mid[k + n..]
    ensures ReadSoFar(bytes, offset, k + n, before, now)
  {
    SliceConcat(bytes, offset, k, n);
    assert now[..k + n] == now[..k] + now[k..k + n];
    assert before[k + n..] == before[k..][n..] && mid[k + n..] == mid[k..][n..];
  }

  lemma ReadDone(bytes: seq<Byte>, offset: nat, k: nat, before: seq<Byte>, now: seq<Byte>)
    requires ReadSoFar(bytes, offset, k, before, now)
    ensures k <= |now| == |before| && (k > 0 ==> offset + k <= |bytes|)
    ensures now[..k] == Slice(bytes, offset, k) && now[k..] == before[k..]
  {}

  // ---- writing ----

  function Overwrite(bytes: seq<Byte>, offset: nat, data: seq<Byte>): (r: seq<Byte>)
    requires offset + |data| <= |bytes|
    ensures |r| == |bytes|
  {
    bytes[..offset] + data + bytes[offset + |data|..]
  }

  lemma OverwriteNothing(bytes: seq<Byte>, at: nat, src: seq<Byte>, from: nat)
    requires at <= |bytes| && from <= |src|
    ensures Overwrite(bytes, at, src[from..from + 0]) == bytes
  {}

  lemma OverwriteMore(bytes: seq<Byte>, at: nat, src: seq<Byte>, from: nat, i: nat)
    requires at + i < |bytes| && from + i < |src|
    ensures Overwrite(bytes, at, src[from..from + i])[at + i := src[from + i]] ==
            Overwrite(bytes, at, src[from..from + (i + 1)])
  {}

  /** A write in progress: the first k bytes of `src` have landed at `offset`. */
  function Written(bytes: seq<Byte>, offset: nat, k: nat, src: seq<Byte>): (r: seq<Byte>)
    ensures |r| == |bytes|
  {
    if k <= |src| && offset + k <= |bytes| then Overwrite(bytes, offset, src[..k]) else bytes
  }

  lemma WrittenNothing(bytes: seq<Byte>, offset: nat, src: seq<Byte>)
    ensures Written(bytes, offset, 0, src) == bytes
  {
    if offset <= |bytes| {
      assert bytes[..offset] + [] + bytes[offset..] == bytes;
    }
  }

  lemma WrittenMore(bytes: seq<Byte>, offset: nat, k: nat, n: nat, src: seq<Byte>)
    requires k + n <= |src| && offset + k + n <= |bytes|
    ensures Overwrite(Written(bytes, offset, k, src), offset + k, src[k..k + n]) == Written(bytes, offset, k + n, src)
  {
    assert src[..k] + src[k..k + n] == src[..k + n];
  }

  /** What was written is read back; bytes outside it are as they were. */
  lemma WrittenReadsBack(bytes: seq<Byte>, offset: nat, k: nat, src: seq<Byte>, p: nat, n: nat)
    requires k <= |src| && offset + k <= |bytes| && p + n <= |bytes|
    ensures Slice(Written(bytes, offset, k, src), offset, k) == src[..k]
    ensures p + n <= offset || offset + k <= p ==> Slice(Written(bytes, offset, k, src), p, n) == Slice(bytes, p, n)
  {
    assert Written(bytes, offset, k, src) == bytes[..offset] + src[..k] + bytes[offset + k..];
    if offset + k <= p {
      assert bytes[p..p + n] == bytes[offset + k..][p - offset - k..p + n - offset - k];
    }
  }

  /** One write: where, and what. */
  datatype Stored = Stored(offset: nat, data: seq<Byte>)

  /** The contents after one write, clamped at the end. */
  function AfterWrite(bytes: seq<Byte>, w: Stored): (r: seq<Byte>)
    ensures |r| == |bytes|
  {
    Written(bytes, w.offset, Reach(bytes, w.offset, |w.data|), w.data)
  }

  /** A history of writes, applied in order. */
  function AfterWrites(bytes: seq<Byte>, ws: seq<Stored>): (r: seq<Byte>)
    ensures |r| == |bytes|
  {
    if ws == [] then bytes else AfterWrite(AfterWrites(bytes, ws[..|ws| - 1]), ws[|ws| - 1])
  }

  /** The byte the latest write over position i put there, if any did. */
  function LatestOver(ws: seq<Stored>, i: nat): Option<Byte> {
    if ws == [] then None
    else
      var w := ws[|ws| - 1];
      if w.offset <= i < w.offset + |w.data| then Some(w.data[i - w.offset])
      else LatestOver(ws[..|ws| - 1], i)
  }

  /** THE LATEST WRITE WINS, over any history, byte by byte; a write that runs
      past the end counts for the bytes that exist. */
  lemma {:induction false} LatestWriteWins(bytes: seq<Byte>, ws: seq<Stored>, i: nat)
    requires i < |bytes|
    ensures AfterWrites(bytes, ws)[i] == match LatestOver(ws, i) case Some(b) => b case None => bytes[i]
    decreases |ws|
  {
    if ws == [] {
    } else {
      LatestWriteWins(bytes, ws[..|ws| - 1], i);
      OneWriteByte(AfterWrites(bytes, ws[..|ws| - 1]), ws[|ws| - 1], i);
    }
  }

  lemma OneWriteByte(bytes: seq<Byte>, w: Stored, i: nat)
    requires i < |bytes|
    ensures AfterWrite(bytes, w)[i] == if w.offset <= i < w.offset + |w.data| then w.data[i - w.offset] else bytes[i]
  {}

  /** A run stored into one block of a chain is an overwrite of its flat contents. */
  lemma RunStoredOwn(region: seq<Byte>, c: seq<nat>, bs: nat, size: nat, pos: nat, data: seq<Byte>, count: nat)
    requires bs > 0 && Blk(bs, pos) < |c| && Off(bs, pos) + |data| <= bs
    requires Distinct(c) && Below(c, count) && pos + |data| <= size && count * bs <= |region|
    ensures pos + |data| <= |Flat(region, c, bs, size)|
    ensures At(bs, c[Blk(bs, pos)], Off(bs, pos)) + |data| <= |region|
    ensures Flat(Overwrite(region, At(bs, c[Blk(bs, pos)], Off(bs, pos)), data), c, bs, size) ==
            Overwrite(Flat(region, c, bs, size), pos, data)
  {
    hide ByteAt, Blk, Off, At;
    RunFits(c, bs, pos, |data|);
    RunInRegion(c, bs, pos, |data|, count, 0);
    var at := At(bs, c[Blk(bs, pos)], Off(bs, pos));
    var f, g := Flat(Overwrite(region, at, data), c, bs, size), Overwrite(Flat(region, c, bs, size), pos, data);
    forall i | 0 <= i < |f|
      ensures f[i] == g[i]
    {
      RunHits(c, bs, pos, |data|, i, count);
    }
  }

  /** ... and leaves every chain that shares no block with it alone. */
  lemma RunStoredOther(region: seq<Byte>, c: seq<nat>, d: seq<nat>, bs: nat, size: nat, pos: nat, data: seq<Byte>,
                       count: nat)
    requires bs > 0 && Blk(bs, pos) < |c| && Off(bs, pos) + |data| <= bs
    requires Below(c, count) && Below(d, count) && count * bs <= |region|
    requires c[Blk(bs, pos)] !in d
    ensures At(bs, c[Blk(bs, pos)], Off(bs, pos)) + |data| <= |region|
    ensures Flat(Overwrite(region, At(bs, c[Blk(bs, pos)], Off(bs, pos)), data), d, bs, size) ==
            Flat(region, d, bs, size)
  {
    hide At, Off;
    RunInRegion(c, bs, pos, |data|, count, 0);
    var at := At(bs, c[Blk(bs, pos)], Off(bs, pos));
    var f, g := Flat(Overwrite(region, at, data), d, bs, size), Flat(region, d, bs, size);
    forall i | 0 <= i < |f|
      ensures f[i] == g[i]
    {
      ByteInRegion(d, bs, i, count);
      BlockIndex(|d|, bs, i);
      RunInRegion(c, bs, pos, |data|, count, ByteAt(d, bs, i));
    }
  }

  lemma ChainsDisjoint(t: Tables, chains: seq<seq<nat>>, s: nat, r: nat, b: nat)
    requires Chained(t, chains) && s < |chains| && r < |chains| && s != r && b in chains[s]
    ensures b !in chains[r]
  {
    assert ChainOk(t, s, chains[s]) && ChainOk(t, r, chains[r]);
  }

  /** The part of `bytes` a request for n bytes at `offset` reaches. */
  function Reach(bytes: seq<Byte>, offset: nat, n: nat): nat {
    if offset >= |bytes| then 0 else if n < |bytes| - offset then n else |bytes| - offset
  }

  /** A walk that stops at the request's end or the chain's end reached it all. */
  lemma WalkReaches(region: seq<Byte>, c: seq<nat>, bs: nat, size: nat, offset: nat, k: nat, n: nat)
    requires bs > 0 && k <= n && offset + n <= size
    requires k == n || Blk(bs, offset + k) >= |c|
    requires k > 0 ==> offset + k <= |Flat(region, c, bs, size)|
    ensures k == Reach(Flat(region, c, bs, size), offset, n)
  {
    PastLastBlock(|c|, bs, offset + k);
  }
}
