// The 64 KB window the console reads, and DMA slots that point into it. A slot
// is fetched when the emitted body runs, after everything has been staged, so
// what it sends depends on what later staging leaves alone.
// runtime/hx421_runtime.c, g_window and the e_dma_* emitters.
module Window {
  import opened Arith
  import opened Vram

  const WINDOW_WORDS: nat := 0x8000   // the 64 KB window, as 16-bit words

  /** One DMA slot of the emitted body; `src` and `size` count words. */
  datatype Dma = Dma(src: nat, size: nat, vword: nat, step: nat)

  /** What the slot will send when the body runs against this window. */
  function Resolve(d: Dma, win: seq<Word>): Strip {
    Strip(d.vword, d.step, if d.src + d.size <= |win| then win[d.src..d.src + d.size] else [])
  }

  function Resolved(body: seq<Dma>, win: seq<Word>): (ss: seq<Strip>)
    ensures |ss| == |body|
  {
    seq(|body|, i requires 0 <= i < |body| => Resolve(body[i], win))
  }

  /** All sources lie in lo .. lo + n - 1. */
  ghost predicate Inside(ds: seq<Dma>, lo: nat, n: nat) {
    forall i | 0 <= i < |ds| :: lo <= ds[i].src && ds[i].src + ds[i].size <= lo + n
  }

  /** No source touches lo .. lo + n - 1. */
  ghost predicate Outside(ds: seq<Dma>, lo: nat, n: nat) {
    forall i | 0 <= i < |ds| :: ds[i].src + ds[i].size <= lo || lo + n <= ds[i].src
  }

  ghost predicate SameOutside(a: seq<Word>, b: seq<Word>, lo: nat, n: nat) {
    |a| == |b| && forall i | 0 <= i < |a| && !(lo <= i < lo + n) :: a[i] == b[i]
  }

  /** `data` stands at `at`. */
  ghost predicate Holds(win: seq<Word>, at: nat, data: seq<Word>) {
    at + |data| <= |win| && win[at..at + |data|] == data
  }

  lemma HoldsKept(a: seq<Word>, b: seq<Word>, lo: nat, n: nat, at: nat, data: seq<Word>)
    requires SameOutside(a, b, lo, n) && Holds(a, at, data) && (at + |data| <= lo || lo + n <= at)
    ensures Holds(b, at, data)
  {}

  lemma StagedNothing(a: seq<Word>, lo: nat, n: nat)
    ensures SameOutside(a, a, lo, n)
  {}

  lemma StagedMore(a: seq<Word>, b: seq<Word>, c: seq<Word>, lo: nat, n: nat, at: nat, k: nat)
    requires SameOutside(a, b, lo, n) && SameOutside(b, c, at, k) && lo <= at && at + k <= lo + n
    ensures SameOutside(a, c, lo, n)
  {}

  /** Staging elsewhere does not disturb what a slot will send. */
  lemma ResolvedFrame(ds: seq<Dma>, a: seq<Word>, b: seq<Word>, lo: nat, n: nat)
    requires SameOutside(a, b, lo, n) && Outside(ds, lo, n)
    ensures Resolved(ds, a) == Resolved(ds, b)
  {
    forall i | 0 <= i < |ds|
      ensures Resolve(ds[i], a) == Resolve(ds[i], b)
    {}
  }

  /** One more staging step: what was emitted before still sends what it did,
      and the new slots send what was just staged. */
  lemma Extends(sent: seq<Dma>, ds: seq<Dma>, before: seq<Word>, after: seq<Word>, lo: nat, n: nat)
    requires SameOutside(before, after, lo, n) && Outside(sent, lo, n)
    ensures Resolved(sent + ds, after) == Resolved(sent, before) + Resolved(ds, after)
  {
    ResolvedFrame(sent, before, after, lo, n);
  }

  lemma InsideGrows(xs: seq<Dma>, ys: seq<Dma>, lo: nat, n: nat, m: nat)
    requires Inside(xs, lo, n) && Inside(ys, lo + n, m)
    ensures Inside(xs + ys, lo, n + m) && Outside(xs, lo + n, m)
  {}

  lemma EmptyBody(win: seq<Word>)
    ensures Resolved([], win) == []
  {}

  /** The kernel walks the table from line 0: a line is shown when the last
      action at or above it is an unblank. */
  ghost predicate LineShown(act: seq<int>, v: nat) {
    exists u :: 0 <= u <= v && u < |act| && act[u] == 2 &&
                forall t | u < t <= v && t < |act| :: act[t] != 1
  }
}
