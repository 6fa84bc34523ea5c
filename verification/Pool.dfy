// The audio block pool: objects of any size over a table of equal blocks, with
// generations and reference counts. engine/audio/audio_pool.c.
module AudioPool {
  import opened Arith
  import opened Bitsets
  import opened PoolChains

  const MAX_OBJECTS: nat := 256

  datatype PoolResult = Ok | NoSpace | NoObjects | BadHandle | InvalidArg

  /** A descriptor of the object table. */
  datatype Obj = Obj(
    inUse: bool, head: int, size: nat, nblocks: nat, refs: int, gen: nat, vm: nat, rate: nat)

  const NO_OBJECT: Obj := Obj(false, NO_BLOCK, 0, 0, 0, 0, 0, 0)

  // ---- sizes ----

  /** Blocks asked for, in the source's 32-bit arithmetic; at least one. */
  function NeedBlocks(size: nat, bs: nat): nat
    requires bs > 0
  {
    var need := (size + bs - 1) % 0x1_0000_0000 / bs;
    if need == 0 then 1 else need
  }

  /** The blocks the bytes take. */
  function CeilBlocks(size: nat, bs: nat): nat
    requires bs > 0
  {
    if size == 0 then 1 else (size - 1) / bs + 1
  }

  /** The 32-bit count is the true one exactly when the rounding does not wrap. */
  lemma NeedIsCeilIff(size: nat, bs: nat)
    requires 0 < bs <= 0x8000_0000 && size < 0x1_0000_0000
    ensures NeedBlocks(size, bs) == CeilBlocks(size, bs) <==> size <= 0x1_0000_0000 - bs || size <= bs
  {
    if size + bs - 1 < 0x1_0000_0000 {
      NeedWithoutWrap(size, bs);
    } else {
      NeedWraps(size, bs);
    }
  }

  /** No wrap: rounding up is the ceiling. */
  lemma NeedWithoutWrap(size: nat, bs: nat)
    requires 0 < bs && size + bs - 1 < 0x1_0000_0000
    ensures NeedBlocks(size, bs) == CeilBlocks(size, bs)
  {
    DivModUnique(size + bs - 1, 0x1_0000_0000, 0, size + bs - 1);
    if size > 0 {
      assert size - 1 == (size - 1) / bs * bs + (size - 1) % bs;
      DivModUnique(size + bs - 1, bs, (size - 1) / bs + 1, (size - 1) % bs);
    } else {
      DivModUnique(bs - 1, bs, 0, bs - 1);
    }
  }

  /** A wrap leaves one block, where two or more are needed. */
  lemma NeedWraps(size: nat, bs: nat)
    requires 0 < bs <= 0x8000_0000 && size < 0x1_0000_0000 <= size + bs - 1
    ensures NeedBlocks(size, bs) == 1 < CeilBlocks(size, bs)
  {
    var rest := size + bs - 1 - 0x1_0000_0000;
    DivModUnique(size + bs - 1, 0x1_0000_0000, 1, rest);
    DivModUnique(rest, bs, 0, rest);
    TwoOrMore(size - 1, bs);
  }

  lemma TwoOrMore(n: nat, bs: nat)
    requires 0 < bs <= n
    ensures n / bs >= 1
  {}

  // ---- handles ----

  function PackHandle(slot: nat, gen: nat): nat { gen * 0x1_0000 + (slot + 1) }

  /** The slot and generation a handle names, if it can name any. */
  function UnpackHandle(h: nat): Option<(nat, nat)> {
    if h % 0x1_0000 == 0 then None else Some((h % 0x1_0000 - 1, h / 0x1_0000 % 0x1_0000))
  }

  lemma HandleRoundTrip(slot: nat, gen: nat)
    requires slot < 0xFFFF && gen < 0x1_0000
    ensures UnpackHandle(PackHandle(slot, gen)) == Some((slot, gen))
  {
    DivModUnique(PackHandle(slot, gen), 0x1_0000, gen, slot + 1);
  }

  /** A handle is one more than the slot in its low half and the generation in its
      high half; the low half is never 0. */
  lemma HandleIs(slot: nat, gen: nat, h: nat)
    requires slot < 0xFFFF && gen < 0x1_0000 && h < 0x1_0000_0000
    ensures PackHandle(slot, gen) == h <==> h % 65536 == slot + 1 && h / 65536 == gen
    ensures UnpackHandle(h) == Some((slot, gen)) <==> h % 65536 == slot + 1 && h / 65536 == gen
    ensures UnpackHandle(h) == None <==> h % 65536 == 0
  {
    HighHalf(h);
    if PackHandle(slot, gen) == h {
      DivModUnique(h, 0x1_0000, gen, slot + 1);
    }
    assert h == h / 0x1_0000 * 0x1_0000 + h % 0x1_0000;
  }

  lemma HighHalf(h: nat)
    requires h < 0x1_0000_0000
    ensures h / 0x1_0000 % 0x1_0000 == h / 0x1_0000 < 0x1_0000
  {
    DivModUnique(h / 0x1_0000, 0x1_0000, 0, h / 0x1_0000);
  }

  function NextGeneration(g: nat): nat {
    var n := (g + 1) % 0x1_0000;
    if n == 0 then 1 else n
  }

  // ---- what a client sees ----

  /** A live object: its bytes are one flat array, wherever its blocks lie. */
  datatype Live = Live(gen: nat, refs: int, size: nat, vm: nat, rate: nat, bytes: seq<Byte>)

  ghost predicate ObjectOk(o: Obj, chain: seq<nat>, gen: nat, bs: nat)
    requires bs > 0
  {
    && 1 <= gen < 0x1_0000
    && (o.inUse ==>
          && |chain| == o.nblocks == NeedBlocks(o.size, bs) && chain[0] == o.head
          && o.refs >= 1 && o.gen == gen)
    && (!o.inUse ==> chain == [])
  }

  /** The flat contents are the whole size exactly when the blocks cover it. */
  lemma BytesAreTheSizeIff(size: nat, bs: nat, region: seq<Byte>, chain: seq<nat>)
    requires 0 < bs <= 0x8000_0000 && size < 0x1_0000_0000 && |chain| == NeedBlocks(size, bs)
    ensures |Flat(region, chain, bs, size)| == size <==> size <= 0x1_0000_0000 - bs || size <= bs
  {
    NeedIsCeilIff(size, bs);
    CeilCovers(size, bs);
    var m := 0x1_0000_0000;
    if size > m - bs && size > bs {
      DivModUnique(size + bs - 1, m, 1, size + bs - 1 - m);
      DivModUnique(size + bs - 1 - m, bs, 0, size + bs - 1 - m);
      assert NeedBlocks(size, bs) * bs == bs;
    }
  }

  /** The least number of blocks, but at least one, that covers the bytes. */
  lemma CeilCovers(size: nat, bs: nat)
    requires bs > 0
    ensures size <= CeilBlocks(size, bs) * bs
    ensures CeilBlocks(size, bs) >= 1 && (CeilBlocks(size, bs) > 1 ==> (CeilBlocks(size, bs) - 1) * bs < size)
  {
    if size > 0 {
      assert size - 1 == (size - 1) / bs * bs + (size - 1) % bs;
      assert CeilBlocks(size, bs) * bs == (size - 1) / bs * bs + bs;
    }
  }

  /** A descriptor with its contents, as a client sees it. */
  function ShownAs(o: Obj, bytes: seq<Byte>): Option<Live> {
    if o.inUse then Some(Live(o.gen, o.refs, o.size, o.vm, o.rate, bytes)) else None
  }

  ghost function ViewOf(o: Obj, chain: seq<nat>, region: seq<Byte>, bs: nat): Option<Live>
    requires bs > 0
  {
    ShownAs(o, Flat(region, chain, bs, o.size))
  }

  lemma BlocksFit(length: nat, bs: nat)
    requires 0 < bs <= length
    ensures 0 < length / bs && length / bs * bs <= length
  {
    assert length == length / bs * bs + length % bs;
  }

  function Last(chain: seq<nat>): int { if chain == [] then NO_BLOCK else chain[|chain| - 1] }

  lemma {:induction false} CountsComplement(flags: seq<bool>)
    ensures CountClear(flags) + CountSet(flags) == |flags|
    decreases |flags|
  {
    if flags == [] {
    } else {
      CountsComplement(flags[..|flags| - 1]);
    }
  }

  /** audio_pool_init: a region too small for one block is refused. */
  method Init(region: array<Byte>, blockSize: nat) returns (res: PoolResult, p: Option<Pool>)
    requires 0 < blockSize && region.Length / blockSize <= NO_BLOCK
    ensures res == if region.Length < blockSize then InvalidArg else Ok
    ensures res == Ok <==> p.Some?
    ensures p.Some? ==>
              && p.value.Valid() && fresh(p.value) && p.value.region == region && p.value.blockSize == blockSize
              && p.value.freeBlocks == p.value.blockCount == region.Length / blockSize
              && forall s | 0 <= s < MAX_OBJECTS :: p.value.View(s) == None
  {
    if region.Length / blockSize == 0 {
      SmallRegion(region.Length, blockSize);
      return InvalidArg, None;
    }
    SmallRegion(region.Length, blockSize);
    var pool := new Pool(region, blockSize);
    return Ok, Some(pool);
  }

  lemma SmallRegion(length: nat, bs: nat)
    requires bs > 0
    ensures length / bs == 0 <==> length < bs
  {
    if length < bs {
      DivModUnique(length, bs, 0, length);
    } else {
      assert length == length / bs * bs + length % bs;
    }
  }

  class Pool {
    const region: array<Byte>
    const blockSize: nat
    const blockCount: nat
    const owner: array<int>
    const next: array<int>
    const used: Bitset
    const objects: array<Obj>
    const generations: array<nat>
    var freeBlocks: nat
    ghost var chains: seq<seq<nat>>

    ghost predicate Shape()
      reads this, used
    {
      && 0 < blockSize && 0 < blockCount <= NO_BLOCK
      && blockCount * blockSize <= region.Length
      && owner.Length == next.Length == blockCount == used.nbits
      && objects.Length == generations.Length == MAX_OBJECTS == |chains|
      && owner != next
      && region as object !in {owner as object, next, generations}
      && generations as object !in {owner as object, next}
      && used.words.Length == WordCount(used.nbits)
      && used.words as object !in {owner as object, next, generations, region, objects}
    }

    ghost function Tabs(): (t: Tables)
      reads this, used, used.words, owner, next
      requires Shape()
      ensures |t.owner| == |t.next| == |t.used| == blockCount
    {
      Tables(owner[..], next[..], used.Flags())
    }

    /** The block structure, whatever the object table says. */
    ghost predicate Blocks()
      reads this, used, used.words, owner, next
    {
      && Shape() && used.Valid()
      && Chained(Tabs(), chains)
      && freeBlocks == CountClear(used.Flags())
    }

    ghost predicate Valid()
      reads this, used, used.words, owner, next, objects, generations
    {
      && Blocks()
      && forall s | 0 <= s < MAX_OBJECTS :: ObjectOk(objects[s], chains[s], generations[s], blockSize)
    }

    /** audio_pool_init over a caller's region with room for at least one block. */
    constructor (region: array<Byte>, blockSize: nat)
      requires 0 < blockSize <= region.Length && region.Length / blockSize <= NO_BLOCK
      ensures Valid() && this.region == region && this.blockSize == blockSize
      ensures blockCount == region.Length / blockSize && freeBlocks == blockCount
      ensures forall s | 0 <= s < MAX_OBJECTS :: View(s) == None
      ensures fresh(owner) && fresh(next) && fresh(used) && fresh(used.words) && fresh(objects) && fresh(generations)
    {
      var n := region.Length / blockSize;
      this.region := region;
      this.blockSize := blockSize;
      blockCount := n;
      owner := new int[n](_ => NO_BLOCK);
      next := new int[n](_ => NO_BLOCK);
      var bits := new Bitset(n);
      used := bits;
      objects := new Obj[MAX_OBJECTS](_ => NO_OBJECT);
      generations := new nat[MAX_OBJECTS](_ => 1);
      freeBlocks := n;
      chains := seq(MAX_OBJECTS, s => []);
      new;
      BlocksFit(region.Length, blockSize);
      AllClear(used.Flags());
      NoChains(Tabs(), chains);
      hide Chained, CountClear, Flat;
    }

    /** Slot s as a client sees it. */
    ghost function View(s: nat): Option<Live>
      reads this, used, objects, region
      requires Shape() && s < MAX_OBJECTS
    {
      ViewOf(objects[s], chains[s], region[..], blockSize)
    }

    /** resolve: the live slot a handle names. */
    ghost function Resolved(h: nat): Option<nat>
      reads this, objects
      requires objects.Length == MAX_OBJECTS
    {
      match UnpackHandle(h)
      case None => None
      case Some((slot, gen)) =>
        if slot < MAX_OBJECTS && objects[slot].inUse && objects[slot].gen == gen then Some(slot) else None
    }

    method Resolve(h: nat) returns (r: Option<nat>)
      requires Shape()
      ensures r == Resolved(h)
    {
      var u := UnpackHandle(h);
      if u == None { return None; }
      var (slot, gen) := u.value;
      if slot >= MAX_OBJECTS { return None; }
      if !objects[slot].inUse { return None; }
      if objects[slot].gen != gen { return None; }
      return Some(slot);
    }

    /** free_blocks and the population count of the free map add up. */
    lemma FreeIsUnset()
      requires Blocks()
      ensures freeBlocks + CountSet(used.Flags()) == blockCount
    {
      CountsComplement(used.Flags());
    }

    // ---- blocks ----

    /** alloc_one_block: take the lowest free block. */
    method AllocOneBlock() returns (b: int)
      requires Shape() && used.Valid() && freeBlocks == CountClear(used.Flags())
      modifies this`freeBlocks, used, used.words
      ensures Shape() && used.Valid() && freeBlocks == CountClear(used.Flags())
      ensures old(freeBlocks) == 0 ==> b == NO_BLOCK && used.Flags() == old(used.Flags()) && freeBlocks == 0
      ensures old(freeBlocks) > 0 ==>
                && 0 <= b < blockCount && !old(used.Flags())[b] && (forall i | 0 <= i < b :: old(used.Flags())[i])
                && used.Flags() == old(used.Flags())[b := true]
                && freeBlocks == old(freeBlocks) - 1
    {
      if freeBlocks == 0 { return NO_BLOCK; }
      var r := used.FindFirstClear();
      if r == None {
        NoneClear(used.Flags());
        assert false;
      }
      b := r.value;
      CountAfter(used.Flags(), b, true);
      used.Set(b);
      freeBlocks := freeBlocks - 1;
    }

    /** free_one_block: a block out of range is ignored, and one already free
        is not counted again. */
    method FreeOneBlock(b: nat)
      requires Shape() && used.Valid() && freeBlocks == CountClear(used.Flags())
      modifies this`freeBlocks, used, used.words, owner, next
      ensures Shape() && used.Valid() && freeBlocks == CountClear(used.Flags())
      ensures freeBlocks == old(freeBlocks) + if b < blockCount && old(used.Flags())[b] then 1 else 0
      ensures Tabs() == if b < blockCount then Detach(old(Tabs()), b) else old(Tabs())
    {
      if b >= blockCount { return; }
      ghost var cleared := used.Flags()[b := false];
      CountAfter(used.Flags(), b, false);
      var taken := used.Test(b);
      if taken {
        used.Clear(b);
        freeBlocks := freeBlocks + 1;
      }
      owner[b] := NO_BLOCK;
      next[b] := NO_BLOCK;
      assert used.Flags() == cleared;
      assert owner[..] == old(owner[..])[b := NO_BLOCK] && next[..] == old(next[..])[b := NO_BLOCK];
    }

    /** free_chain: give back a slot's whole chain, head first. */
    method FreeChain(head: int, ghost slot: nat)
      requires Blocks() && slot < MAX_OBJECTS
      requires head == if chains[slot] == [] then NO_BLOCK else chains[slot][0]
      modifies this`freeBlocks, this`chains, used, used.words, owner, next
      ensures Blocks() && chains == old(chains)[slot := []]
      ensures freeBlocks == old(freeBlocks) + |old(chains)[slot]|
    {
      hide CountClear, Chained;
      var b := head;
      while b != NO_BLOCK
        invariant Blocks()
        invariant |chains| == |old(chains)| && chains == old(chains)[slot := chains[slot]]
        invariant b == if chains[slot] == [] then NO_BLOCK else chains[slot][0]
        invariant freeBlocks + |chains[slot]| == old(freeBlocks) + |old(chains)[slot]|
        decreases |chains[slot]|
      {
        DetachKeeps(Tabs(), chains, slot);
        var nxt := next[b];
        FreeOneBlock(b);
        chains := chains[slot := chains[slot][1..]];
        b := nxt;
      }
      LastInRange(Tabs(), chains, slot);
      assert chains[slot] == [];
    }

    /** One turn of the allocation loop: a fresh block at the chain's end. */
    method LinkBlock(slot: nat, prev: int) returns (b: nat)
      requires Blocks() && slot < MAX_OBJECTS && freeBlocks > 0
      requires prev == Last(chains[slot])
      modifies this`freeBlocks, this`chains, used, used.words, owner, next
      ensures Blocks() && freeBlocks == old(freeBlocks) - 1
      ensures chains == old(chains)[slot := old(chains)[slot] + [b]]
    {
      hide CountClear, Chained;
      ghost var t := Tabs();
      LastInRange(t, chains, slot);
      b := AllocOneBlock();
      AttachKeeps(t, chains, slot, b);
      owner[b] := slot;
      next[b] := NO_BLOCK;
      if prev != NO_BLOCK {
        next[prev] := b;
      }
      assert Tabs() == Attach(t, slot, chains[slot], b);
      chains := chains[slot := chains[slot] + [b]];
    }

    /** Build slot's chain of `need` blocks, wherever they lie. */
    method BuildChain(slot: nat, need: nat) returns (head: int)
      requires Blocks() && slot < MAX_OBJECTS && chains[slot] == [] && 1 <= need <= freeBlocks
      modifies this`freeBlocks, this`chains, used, used.words, owner, next
      ensures Blocks() && freeBlocks == old(freeBlocks) - need
      ensures |chains| == MAX_OBJECTS && |chains[slot]| == need && chains[slot][0] == head
      ensures chains == old(chains)[slot := chains[slot]]
    {
      hide CountClear, Chained;
      head := NO_BLOCK;
      var prev := NO_BLOCK;
      var i := 0;
      while i < need
        invariant 0 <= i <= need && Blocks()
        invariant |chains| == |old(chains)| == MAX_OBJECTS && chains == old(chains)[slot := chains[slot]]
        invariant |chains[slot]| == i && freeBlocks + i == old(freeBlocks)
        invariant prev == Last(chains[slot])
        invariant i > 0 ==> chains[slot][0] == head && prev != NO_BLOCK
      {
        var b := LinkBlock(slot, prev);
        if prev == NO_BLOCK { head := b; }
        BlockIsNotNone(slot, i);
        prev := b;
        i := i + 1;
      }
    }

    lemma BlockIsNotNone(slot: nat, k: nat)
      requires Blocks() && slot < MAX_OBJECTS && k < |chains[slot]|
      ensures chains[slot][k] < blockCount && chains[slot][k] != NO_BLOCK
    {
      LastInRange(Tabs(), chains, slot);
    }

    // ---- objects ----

    /** find_free_slot. */
    method FindFreeSlot() returns (r: Option<nat>)
      requires Shape()
      ensures r == None ==> forall s | 0 <= s < MAX_OBJECTS :: objects[s].inUse
      ensures r.Some? ==> r.value < MAX_OBJECTS && !objects[r.value].inUse &&
                          forall s | 0 <= s < r.value :: objects[s].inUse
    {
      var s := 0;
      while s < MAX_OBJECTS
        invariant 0 <= s <= MAX_OBJECTS
        invariant forall k | 0 <= k < s :: objects[k].inUse
      {
        if !objects[s].inUse { return Some(s); }
        s := s + 1;
      }
      return None;
    }

    /** audio_pool_alloc_with_rate (rate 0: audio_pool_alloc). It succeeds
        exactly when enough blocks and a descriptor are free, however scattered. */
    method Alloc(size: nat, vm: nat, rate: nat) returns (res: PoolResult, h: nat)
      requires Valid() && size < 0x1_0000_0000
      modifies this`freeBlocks, this`chains, used, used.words, owner, next, objects
      ensures Valid()
      ensures res == if NeedBlocks(size, blockSize) > old(freeBlocks) then NoSpace
                     else if forall s | 0 <= s < MAX_OBJECTS :: old(objects[s].inUse) then NoObjects
                     else Ok
      ensures res != Ok ==> h == 0 && freeBlocks == old(freeBlocks) && Views() == old(Views())
      ensures res == Ok ==>
                && freeBlocks == old(freeBlocks) - NeedBlocks(size, blockSize)
                && exists slot ::
                     0 <= slot < MAX_OBJECTS &&
                       Allocated(slot, old(Views()), Views(), size, vm, rate, generations[slot], h)
    {
      hide CountClear, Chained, NeedBlocks, Flat;
      h := 0;
      var need := NeedBlocks(size, blockSize);
      NeedAtLeastOne(size, blockSize);
      if need > freeBlocks { return NoSpace, 0; }
      var found := FindFreeSlot();
      if found == None { return NoObjects, 0; }
      var slot := found.value;
      var head := BuildChain(slot, need);
      objects[slot] := Obj(true, head, size, need, 1, generations[slot], vm, rate);
      h := PackHandle(slot, generations[slot]);
      assert Allocated(slot, old(Views()), Views(), size, vm, rate, generations[slot], h);
      return Ok, h;
    }

    /** audio_pool_ref. */
    method Ref(h: nat) returns (res: PoolResult)
      requires Valid()
      modifies objects
      ensures Valid()
      ensures res == if old(Resolved(h)) == None then BadHandle else Ok
      ensures res != Ok ==> Views() == old(Views())
      ensures res == Ok ==> Referenced(old(Resolved(h)).value, old(Views()), Views(), 1)
    {
      hide CountClear, Chained, Flat;
      var r := Resolve(h);
      if r == None { return BadHandle; }
      objects[r.value] := objects[r.value].(refs := objects[r.value].refs + 1);
      return Ok;
    }

    /** free_object: give back the chain and let old handles go stale. */
    method FreeObject(slot: nat)
      requires Valid() && slot < MAX_OBJECTS && objects[slot].inUse
      modifies this`freeBlocks, this`chains, used, used.words, owner, next, objects, generations
      ensures Valid() && freeBlocks == old(freeBlocks) + old(objects[slot].nblocks)
      ensures Views() == old(Views())[slot := None]
      ensures generations[slot] == NextGeneration(old(generations[slot]))
      ensures forall s | 0 <= s < MAX_OBJECTS && s != slot :: generations[s] == old(generations[s])
    {
      hide CountClear, Chained, Flat, NeedBlocks;
      HeadOfChain(slot);
      FreeChain(objects[slot].head, slot);
      generations[slot] := NextGeneration(generations[slot]);
      objects[slot] := NO_OBJECT;
    }

    /** audio_pool_unref: the last reference frees the object. */
    method Unref(h: nat) returns (res: PoolResult, freed: bool)
      requires Valid()
      modifies this`freeBlocks, this`chains, used, used.words, owner, next, objects, generations
      ensures Valid()
      ensures res == if old(Resolved(h)) == None then BadHandle else Ok
      ensures res != Ok ==> !freed && Views() == old(Views()) && freeBlocks == old(freeBlocks)
      ensures res == Ok ==>
                var slot := old(Resolved(h)).value;
                && Dropped(slot, old(Views()), Views())
                && freed == (old(Views())[slot].value.refs == 1)
                && (freed ==> freeBlocks == old(freeBlocks) + old(objects[slot].nblocks)
                              && generations[slot] == NextGeneration(old(generations[slot])))
                && (!freed ==> freeBlocks == old(freeBlocks) && generations[slot] == old(generations[slot]))
      ensures forall s | 0 <= s < MAX_OBJECTS && Some(s) != old(Resolved(h)) :: generations[s] == old(generations[s])
    {
      hide CountClear, Chained, Flat, NeedBlocks;
      var r := Resolve(h);
      if r == None { return BadHandle, false; }
      var slot := r.value;
      if objects[slot].refs - 1 <= 0 {
        FreeObject(slot);
        return Ok, true;
      }
      objects[slot] := objects[slot].(refs := objects[slot].refs - 1);
      return Ok, false;
    }

    lemma HeadOfChain(slot: nat)
      requires Valid() && slot < MAX_OBJECTS && objects[slot].inUse
      ensures |chains[slot]| >= 1 && chains[slot][0] == objects[slot].head == BlockOf(chains[slot], 0)
    {
      NeedAtLeastOne(objects[slot].size, blockSize);
    }

    // ---- data ----

    /** seek_block: the block that holds byte `offset`, by walking the chain. */
    method SeekBlock(head: int, offset: nat, ghost slot: nat) returns (b: int, inOff: nat)
      requires Blocks() && slot < MAX_OBJECTS && head == BlockOf(chains[slot], 0)
      ensures inOff == Off(blockSize, offset)
      ensures b == BlockOf(chains[slot], Blk(blockSize, offset))
    {
      hide CountClear, Chained, Bitset.Valid, Blk, Off;
      b := head;
      var skip := Blk(blockSize, offset);
      inOff := Off(blockSize, offset);
      ghost var k := 0;
      while skip > 0 && b != NO_BLOCK
        invariant 0 <= skip && k + skip == Blk(blockSize, offset)
        invariant k <= |chains[slot]| && b == BlockOf(chains[slot], k)
        decreases skip
      {
        NextInChain(slot, k);
        b := next[b];
        k := k + 1;
        skip := skip - 1;
      }
      PastEnd(slot, k);
    }

    /** The bytes of a live slot. */
    ghost function Bytes(slot: nat): seq<Byte>
      reads this, objects, region
      requires blockSize > 0 && objects.Length == |chains| == MAX_OBJECTS && slot < MAX_OBJECTS
    {
      Flat(region[..], chains[slot], blockSize, objects[slot].size)
    }

    lemma ChainFacts(slot: nat)
      requires Blocks() && slot < MAX_OBJECTS
      ensures Below(chains[slot], blockCount)
      ensures Distinct(chains[slot])
    {
      LastInRange(Tabs(), chains, slot);
      assert ChainOk(Tabs(), slot, chains[slot]);
    }

    /** audio_pool_read: as many bytes as the request reaches, in order. */
    method Read(h: nat, offset: nat, dst: array<Byte>, n: nat) returns (res: PoolResult, copied: nat)
      requires Valid() && n <= dst.Length
      requires dst as object !in {region as object, owner, next, objects, generations, used.words}
      modifies dst
      ensures res == if Resolved(h) == None then BadHandle else Ok
      ensures res != Ok ==> copied == 0
      ensures res == Ok ==>
                var bytes := Bytes(Resolved(h).value);
                copied == Reach(bytes, offset, n) <= dst.Length && dst[..copied] == Slice(bytes, offset, copied)
      ensures copied <= dst.Length && dst[copied..] == old(dst[..])[copied..]
    {
      copied := 0;
      var r := Resolve(h);
      if r == None { return BadHandle, 0; }
      var slot := r.value;
      res := Ok;
      if offset >= objects[slot].size { return; }
      var m := if n > objects[slot].size - offset then objects[slot].size - offset else n;
      HeadOfChain(slot);
      copied := CopyOut(objects[slot].head, offset, dst, m, slot);
    }

    /** The copying loop of audio_pool_read. */
    method CopyOut(head: int, offset: nat, dst: array<Byte>, n: nat, ghost slot: nat) returns (copied: nat)
      requires Blocks() && slot < MAX_OBJECTS && head == BlockOf(chains[slot], 0)
      requires n <= dst.Length && offset + n <= objects[slot].size
      requires dst as object !in {region as object, owner, next, objects, generations, used.words}
      modifies dst
      ensures copied == Reach(Bytes(slot), offset, n) <= dst.Length
      ensures dst[..copied] == Slice(Bytes(slot), offset, copied)
      ensures dst[copied..] == old(dst[..])[copied..]
    {
      hide *;
      Sizes();
      ghost var c, bytes := chains[slot], Bytes(slot);
      ReadStarts(bytes, offset, dst[..]);
      var b, inOff := SeekBlock(head, offset, slot);
      copied := 0;
      while copied < n && b != NO_BLOCK
        invariant Blocks() && c == chains[slot]
        invariant 0 <= copied <= n && ReadSoFar(bytes, offset, copied, old(dst[..]), dst[..])
        invariant copied < n ==>
                    inOff == Off(blockSize, offset + copied) && b == BlockOf(c, Blk(blockSize, offset + copied))
        decreases n - copied
      {
        var chunk := CopyChunk(b, inOff, dst, copied, n - copied, slot, offset, old(dst[..]));
        copied := copied + chunk;
        inOff := 0;
        b := next[b];
      }
      CopyEnds(slot, offset, copied, n, b, old(dst[..]), dst[..]);
    }

    lemma Sizes()
      requires Blocks()
      ensures 0 < blockSize && next.Length == blockCount && objects.Length == MAX_OBJECTS == |chains|
      ensures region as object !in {owner as object, next, used.words}
    {}

    /** A run inside one block of a live slot is a slice of its flat contents. */
    lemma RunInSlot(slot: nat, pos: nat, n: nat, b: int)
      requires Blocks() && slot < MAX_OBJECTS && b != NO_BLOCK && b == BlockOf(chains[slot], Blk(blockSize, pos))
      requires Off(blockSize, pos) + n <= blockSize && pos + n <= objects[slot].size
      ensures 0 <= b && pos + n <= |Bytes(slot)| && At(blockSize, b, Off(blockSize, pos)) + n <= region.Length
      ensures Slice(region[..], At(blockSize, b, Off(blockSize, pos)), n) == Slice(Bytes(slot), pos, n)
    {
      hide Chained, CountClear, Flat, Blk, Off, At, Slice;
      ChainFacts(slot);
      RunIsFlat(region[..], chains[slot], blockSize, objects[slot].size, pos, n, blockCount);
    }

    lemma CopyEnds(slot: nat, offset: nat, k: nat, n: nat, b: int, before: seq<Byte>, now: seq<Byte>)
      requires Blocks() && slot < MAX_OBJECTS && k <= n && offset + n <= objects[slot].size
      requires k == n || (b == NO_BLOCK && b == BlockOf(chains[slot], Blk(blockSize, offset + k)))
      requires ReadSoFar(Bytes(slot), offset, k, before, now)
      ensures k == Reach(Bytes(slot), offset, n) <= |now| == |before|
      ensures now[..k] == Slice(Bytes(slot), offset, k) && now[k..] == before[k..]
    {
      PastEnd(slot, Blk(blockSize, offset + k));
      ReadDone(Bytes(slot), offset, k, before, now);
      WalkReaches(region[..], chains[slot], blockSize, objects[slot].size, offset, k, n);
    }

    /** One turn of the loop: to the end of the block or of the request. */
    method CopyChunk(b: int, inOff: nat, dst: array<Byte>, from: nat, left: nat,
                     ghost slot: nat, ghost offset: nat, ghost before: seq<Byte>) returns (chunk: nat)
      requires Blocks() && slot < MAX_OBJECTS && b != NO_BLOCK
      requires b == BlockOf(chains[slot], Blk(blockSize, offset + from)) && inOff == Off(blockSize, offset + from)
      requires left > 0 && from + left <= dst.Length && offset + from + left <= objects[slot].size
      requires dst as object !in {region as object, owner, next, objects, generations, used.words}
      requires ReadSoFar(Bytes(slot), offset, from, before, dst[..])
      modifies dst
      ensures 0 < chunk <= left && 0 <= b < next.Length
      ensures chunk < left ==> Off(blockSize, offset + from + chunk) == 0
                               && next[b] == BlockOf(chains[slot], Blk(blockSize, offset + from + chunk))
      ensures ReadSoFar(Bytes(slot), offset, from + chunk, before, dst[..])
    {
      hide *;
      Sizes();
      ghost var c, pos, mid := chains[slot], offset + from, dst[..];
      NextInChain(slot, Blk(blockSize, pos));
      chunk := if blockSize - inOff > left then left else blockSize - inOff;
      RunInSlot(slot, pos, chunk, b);
      CopyRun(At(blockSize, b, inOff), dst, from, chunk);
      ReadMore(Bytes(slot), offset, from, chunk, before, mid, dst[..]);
      if chunk < left {
        RunEnds(blockSize, pos, chunk);
      }
    }

    /** memcpy out of the region. */
    method CopyRun(at: nat, dst: array<Byte>, from: nat, chunk: nat)
      requires from + chunk <= dst.Length && at + chunk <= region.Length && dst != region
      modifies dst
      ensures dst[from..from + chunk] == Slice(region[..], at, chunk)
      ensures dst[..from] == old(dst[..from]) && dst[from + chunk..] == old(dst[from + chunk..])
    {
      var i := 0;
      while i < chunk
        invariant 0 <= i <= chunk
        invariant dst[from..from + i] == Slice(region[..], at, i)
        invariant dst[..from] == old(dst[..from]) && dst[from + i..] == old(dst[from + i..])
      {
        dst[from + i] := region[at + i];
        i := i + 1;
      }
    }

    /** The flat contents of every slot, over some region contents. */
    ghost function AllBytes(reg: seq<Byte>): (f: seq<seq<Byte>>)
      reads this, objects
      requires blockSize > 0 && objects.Length == |chains| == MAX_OBJECTS
      ensures |f| == MAX_OBJECTS
    {
      seq(MAX_OBJECTS, s requires 0 <= s < |chains| && s < objects.Length && blockSize > 0 reads this, objects =>
        Flat(reg, chains[s], blockSize, objects[s].size))
    }

    /** audio_pool_write: the bytes the request reaches change, and nothing else
        any client can see. */
    method Write(h: nat, offset: nat, src: seq<Byte>, n: nat) returns (res: PoolResult, written: nat)
      requires Valid() && n <= |src|
      modifies region
      ensures Valid()
      ensures res == if Resolved(h) == None then BadHandle else Ok
      ensures res != Ok ==> written == 0 && Views() == old(Views())
      ensures res == Ok ==>
                var slot := Resolved(h).value;
                && old(Views())[slot].Some?
                && var live := old(Views())[slot].value;
                && written == Reach(live.bytes, offset, n)
                && Views() == old(Views())[slot := Some(live.(bytes := Written(live.bytes, offset, written, src)))]
    {
      hide Chained, CountClear, Flat, Written, NeedBlocks, Views, View, AllBytes, Bytes, Reach;
      written := 0;
      var r := Resolve(h);
      if r == None { return BadHandle, 0; }
      var slot := r.value;
      res := Ok;
      ghost var vs, was := Views(), AllBytes(region[..]);
      ViewsAreBytes();
      NamesALive(h);
      HeadOfChain(slot);
      written := WriteBytes(slot, objects[slot].head, offset, src, n);
      ContentsInViews(vs, was, slot, Written(was[slot], offset, written, src));
    }

    /** The write, clamped to a live object. */
    method WriteBytes(slot: nat, head: int, offset: nat, src: seq<Byte>, n: nat) returns (written: nat)
      requires Blocks() && slot < MAX_OBJECTS && head == BlockOf(chains[slot], 0) && n <= |src|
      modifies region
      ensures written == Reach(old(Bytes(slot)), offset, n)
      ensures AllBytes(region[..]) ==
              old(AllBytes(region[..]))[slot := Written(old(Bytes(slot)), offset, written, src)]
    {
      hide Chained, CountClear, Flat, Written, NeedBlocks;
      written := 0;
      WrittenNothing(Bytes(slot), offset, src);
      FlatWithin(slot);
      if offset >= objects[slot].size { return; }
      var m := if n > objects[slot].size - offset then objects[slot].size - offset else n;
      written := CopyIn(head, offset, src, m, slot);
    }

    /** Every slot's view is its descriptor with its flat contents. */
    lemma ViewsAreBytes()
      requires Shape()
      ensures forall s | 0 <= s < MAX_OBJECTS :: Views()[s] == ShownAs(objects[s], AllBytes(region[..])[s])
    {}

    /** When one slot's contents change, so does its view, and no other. */
    lemma ContentsInViews(before: seq<Option<Live>>, was: seq<seq<Byte>>, slot: nat, now: seq<Byte>)
      requires Shape() && slot < MAX_OBJECTS == |before| == |was| && before[slot].Some?
      requires forall s | 0 <= s < MAX_OBJECTS :: before[s] == ShownAs(objects[s], was[s])
      requires AllBytes(region[..]) == was[slot := now]
      ensures Views() == before[slot := Some(before[slot].value.(bytes := now))]
    {
      hide AllBytes, View, Views;
      ViewsAreBytes();
      forall s | 0 <= s < MAX_OBJECTS
        ensures Views()[s] == before[slot := Some(before[slot].value.(bytes := now))][s]
      {}
    }

    lemma NamesALive(h: nat)
      requires Valid() && Resolved(h).Some?
      ensures Resolved(h).value < MAX_OBJECTS && objects[Resolved(h).value].inUse
      ensures Bytes(Resolved(h).value) == AllBytes(region[..])[Resolved(h).value]
      ensures Views()[Resolved(h).value].Some? && Views()[Resolved(h).value].value.bytes == Bytes(Resolved(h).value)
    {}

    lemma FlatWithin(slot: nat)
      requires Blocks() && slot < MAX_OBJECTS
      ensures |Bytes(slot)| <= objects[slot].size
    {}

    /** The copying loop of audio_pool_write. */
    method CopyIn(head: int, offset: nat, src: seq<Byte>, n: nat, ghost slot: nat) returns (written: nat)
      requires Blocks() && slot < MAX_OBJECTS && head == BlockOf(chains[slot], 0)
      requires n <= |src| && offset + n <= objects[slot].size
      modifies region
      ensures written == Reach(old(Bytes(slot)), offset, n)
      ensures AllBytes(region[..]) == old(AllBytes(region[..]))[slot := Written(old(Bytes(slot)), offset, written, src)]
    {
      hide *;
      Sizes();
      ghost var c, before := chains[slot], AllBytes(region[..]);
      BytesOfSlot(slot, region[..]);
      WrittenNothing(before[slot], offset, src);
      var b, inOff := SeekBlock(head, offset, slot);
      written := 0;
      while written < n && b != NO_BLOCK
        invariant Blocks() && c == chains[slot]
        invariant 0 <= written <= n && (written > 0 ==> offset + written <= |before[slot]|)
        invariant AllBytes(region[..]) == before[slot := Written(before[slot], offset, written, src)]
        invariant written < n ==>
                    inOff == Off(blockSize, offset + written) && b == BlockOf(c, Blk(blockSize, offset + written))
        decreases n - written
      {
        var chunk := PutChunk(b, inOff, src, written, n - written, slot, offset, before);
        written := written + chunk;
        inOff := 0;
        b := next[b];
      }
      BytesOfSlot(slot, region[..]);
      PutEnds(slot, offset, written, n, b, before[slot]);
    }

    lemma BytesOfSlot(slot: nat, reg: seq<Byte>)
      requires Blocks() && slot < MAX_OBJECTS
      ensures AllBytes(reg)[slot] == Flat(reg, chains[slot], blockSize, objects[slot].size)
      ensures Bytes(slot) == AllBytes(region[..])[slot]
    {}

    lemma PutEnds(slot: nat, offset: nat, k: nat, n: nat, b: int, bytes: seq<Byte>)
      requires Blocks() && slot < MAX_OBJECTS && k <= n && offset + n <= objects[slot].size
      requires k == n || (b == NO_BLOCK && b == BlockOf(chains[slot], Blk(blockSize, offset + k)))
      requires |bytes| == |Bytes(slot)| && (k > 0 ==> offset + k <= |bytes|)
      ensures k == Reach(bytes, offset, n)
    {
      hide Chained, CountClear, Flat, Blk;
      PastEnd(slot, Blk(blockSize, offset + k));
      WalkReaches(region[..], chains[slot], blockSize, objects[slot].size, offset, k, n);
    }

    /** One turn of the loop: to the end of the block or of the request. */
    method PutChunk(b: int, inOff: nat, src: seq<Byte>, from: nat, left: nat,
                    ghost slot: nat, ghost offset: nat, ghost before: seq<seq<Byte>>) returns (chunk: nat)
      requires Blocks() && slot < MAX_OBJECTS && b != NO_BLOCK
      requires b == BlockOf(chains[slot], Blk(blockSize, offset + from)) && inOff == Off(blockSize, offset + from)
      requires left > 0 && from + left <= |src| && offset + from + left <= objects[slot].size
      requires |before| == MAX_OBJECTS
      requires AllBytes(region[..]) == before[slot := Written(before[slot], offset, from, src)]
      modifies region
      ensures Blocks() && 0 < chunk <= left && 0 <= b < next.Length && offset + from + chunk <= |before[slot]|
      ensures chunk < left ==> Off(blockSize, offset + from + chunk) == 0
                               && next[b] == BlockOf(chains[slot], Blk(blockSize, offset + from + chunk))
      ensures AllBytes(region[..]) == before[slot := Written(before[slot], offset, from + chunk, src)]
    {
      hide *;
      Sizes();
      ghost var pos, reg := offset + from, region[..];
      NextInChain(slot, Blk(blockSize, pos));
      chunk := if blockSize - inOff > left then left else blockSize - inOff;
      RunStored(slot, pos, b, src[from..from + chunk], reg);
      PutRun(At(blockSize, b, inOff), src, from, chunk);
      WrittenMore(before[slot], offset, from, chunk, src);
      if chunk < left {
        RunEnds(blockSize, pos, chunk);
      }
    }

    lemma RunStored(slot: nat, pos: nat, b: int, data: seq<Byte>, reg: seq<Byte>)
      requires Blocks() && slot < MAX_OBJECTS && b != NO_BLOCK && b == BlockOf(chains[slot], Blk(blockSize, pos))
      requires Off(blockSize, pos) + |data| <= blockSize && pos + |data| <= objects[slot].size
      requires |reg| == region.Length
      ensures 0 <= b && pos + |data| <= |AllBytes(reg)[slot]| && At(blockSize, b, Off(blockSize, pos)) + |data| <= |reg|
      ensures AllBytes(Overwrite(reg, At(blockSize, b, Off(blockSize, pos)), data)) ==
              AllBytes(reg)[slot := Overwrite(AllBytes(reg)[slot], pos, data)]
    {
      hide Chained, CountClear, Flat, Blk, Off, At, Overwrite;
      ChainFacts(slot);
      var c := chains[slot];
      RunStoredOwn(reg, c, blockSize, objects[slot].size, pos, data, blockCount);
      var now := Overwrite(reg, At(blockSize, b, Off(blockSize, pos)), data);
      forall s | 0 <= s < MAX_OBJECTS && s != slot
        ensures AllBytes(now)[s] == AllBytes(reg)[s]
      {
        ChainFacts(s);
        ChainsDisjoint(Tabs(), chains, slot, s, b);
        RunStoredOther(reg, c, chains[s], blockSize, objects[s].size, pos, data, blockCount);
      }
    }

    /** memcpy into the region. */
    method PutRun(at: nat, src: seq<Byte>, from: nat, chunk: nat)
      requires from + chunk <= |src| && at + chunk <= region.Length
      modifies region
      ensures region[..] == Overwrite(old(region[..]), at, src[from..from + chunk])
    {
      hide Overwrite;
      OverwriteNothing(old(region[..]), at, src, from);
      var i := 0;
      while i < chunk
        invariant 0 <= i <= chunk
        invariant region[..] == Overwrite(old(region[..]), at, src[from..from + i])
      {
        OverwriteMore(old(region[..]), at, src, from, i);
        region[at + i] := src[from + i];
        i := i + 1;
      }
    }

    lemma NextInChain(slot: nat, k: nat)
      requires Blocks() && slot < MAX_OBJECTS && BlockOf(chains[slot], k) != NO_BLOCK
      ensures k < |chains[slot]| && 0 <= BlockOf(chains[slot], k) < blockCount
      ensures next[BlockOf(chains[slot], k)] == BlockOf(chains[slot], k + 1)
    {
      assert ChainOk(Tabs(), slot, chains[slot]);
      assert next[chains[slot][k]] == Tabs().next[chains[slot][k]] == Successor(chains[slot], k);
    }

    lemma PastEnd(slot: nat, k: nat)
      requires Blocks() && slot < MAX_OBJECTS
      ensures BlockOf(chains[slot], k) == NO_BLOCK <==> k >= |chains[slot]|
    {
      LastInRange(Tabs(), chains, slot);
    }

    /** All slots as a client sees them. */
    ghost function Views(): (vs: seq<Option<Live>>)
      reads this, used, objects, region
      requires Shape()
      ensures |vs| == MAX_OBJECTS
    {
      seq(MAX_OBJECTS, s requires 0 <= s < MAX_OBJECTS reads this, used, objects, region requires Shape() => View(s))
    }
  }

  /** One slot's reference count moved by `delta`; nothing else changed. */
  ghost predicate Referenced(slot: nat, before: seq<Option<Live>>, after: seq<Option<Live>>, delta: int)
    requires |before| == |after| == MAX_OBJECTS && slot < MAX_OBJECTS
  {
    before[slot].Some? &&
    after == before[slot := Some(before[slot].value.(refs := before[slot].value.refs + delta))]
  }

  /** One reference to slot s dropped: counted down, or freed with the last. */
  ghost predicate Dropped(s: nat, before: seq<Option<Live>>, after: seq<Option<Live>>)
    requires |before| == |after| == MAX_OBJECTS && s < MAX_OBJECTS
  {
    before[s].Some? &&
    if before[s].value.refs == 1 then after == before[s := None] else Referenced(s, before, after, -1)
  }

  /** The live slot a pool handle names, from what clients see. */
  function ResolvedIn(vs: seq<Option<Live>>, h: nat): (r: Option<nat>)
    ensures r.Some? ==> r.value < |vs| && vs[r.value].Some?
  {
    match UnpackHandle(h)
    case None => None
    case Some((slot, gen)) =>
      if slot < |vs| && vs[slot].Some? && vs[slot].value.gen == gen then Some(slot) else None
  }

  /** The k-th block of a chain, or none past its end. */
  function BlockOf(chain: seq<nat>, k: nat): int { if k < |chain| then chain[k] else NO_BLOCK }

  lemma NeedAtLeastOne(size: nat, bs: nat)
    requires bs > 0
    ensures NeedBlocks(size, bs) >= 1
  {}

  /** A fresh object stands in `slot`, with one reference and contents as they
      were found; every other slot is as it was. */
  ghost predicate Allocated(slot: nat, before: seq<Option<Live>>, after: seq<Option<Live>>,
                            size: nat, vm: nat, rate: nat, gen: nat, h: nat)
    requires |before| == |after| == MAX_OBJECTS && slot < MAX_OBJECTS
  {
    && h == PackHandle(slot, gen)
    && before[slot] == None && after[slot].Some?
    && after[slot].value == Live(gen, 1, size, vm, rate, after[slot].value.bytes)
    && forall s | 0 <= s < MAX_OBJECTS && s != slot :: after[s] == before[s]
  }
}
