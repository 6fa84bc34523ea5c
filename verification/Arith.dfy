// Integer facts shared by the component models, and the one option type.
module Arith {

  datatype Option<+T> = None | Some(value: T)

  /** A 16-bit cell: a tilemap entry, a VRAM word, a metatile index. */
  type Word = x: int | 0 <= x < 0x1_0000

  type Byte = x: int | 0 <= x < 256

  function Min(a: nat, b: nat): nat { if a < b then a else b }

  /** C's `/`, which truncates toward zero. */
  function CDiv(a: int, n: int): int
    requires n > 0
  {
    if a >= 0 then a / n else -((-a) / n)
  }

  /** C's `%`, which truncates toward zero and so takes the sign of the dividend. */
  function CRem(a: int, n: int): int
    requires n > 0
  {
    if a >= 0 then a % n else -((-a) % n)
  }

  lemma MultipleGrows(k: int, n: int)
    requires n > 0
    ensures k >= 1 ==> k * n >= n
    ensures k <= -1 ==> k * n <= -n
  {
    if k >= 1 {
      assert (k - 1) * n >= 0;
    } else if k <= -1 {
      assert (k + 1) * n <= 0;
    }
  }

  /** The only multiple of n strictly between -n and n is zero. */
  lemma SmallMultiple(k: int, n: int)
    requires n > 0 && -n < k * n < n
    ensures k == 0
  {
    MultipleGrows(k, n);
  }

  lemma DivModUnique(a: int, n: int, q: int, r: int)
    requires n > 0 && a == q * n + r && 0 <= r < n
    ensures a / n == q && a % n == r
  {
    assert a == (a / n) * n + a % n;
    assert (a / n - q) * n == r - a % n;
    SmallMultiple(a / n - q, n);
  }

  /** Adding the modulus changes nothing, for a modulus that is not a literal. */
  lemma ModShift(a: int, n: int, k: int)
    requires n > 0
    ensures (a + k * n) % n == a % n
    ensures (a + k * n) / n == a / n + k
  {
    assert a + k * n == (a / n + k) * n + a % n;
    DivModUnique(a + k * n, n, a / n + k, a % n);
  }

  /** Two residues that agree differ by a multiple of the modulus. */
  lemma SameResidueNear(a: int, b: int, n: int)
    requires n > 0 && a % n == b % n && -n < a - b < n
    ensures a == b
  {
    assert a == (a / n) * n + a % n;
    assert b == (b / n) * n + b % n;
    assert a - b == (a / n - b / n) * n;
    SmallMultiple(a / n - b / n, n);
  }

  /** `((i % n) + n) % n` with C's remainder is the residue in 0..n-1. */
  lemma WrapIsResidue(i: int, n: int)
    requires n > 0
    ensures CRem(CRem(i, n) + n, n) == i % n
  {
    if i >= 0 {
      ModShift(i % n, n, 1);
      DivModUnique(i % n, n, 0, i % n);
    } else {
      var r := (-i) % n;
      var q := (-i) / n;
      assert -i == q * n + r;
      if r == 0 {
        assert i == (-q) * n + 0;
        DivModUnique(i, n, -q, 0);
        DivModUnique(n, n, 1, 0);
      } else {
        assert i == (-q - 1) * n + (n - r);
        DivModUnique(i, n, -q - 1, n - r);
        DivModUnique(n - r, n, 0, n - r);
      }
    }
  }

  /** Row-major indexing stays inside the table and is injective. */
  lemma GridIndex(x: int, y: int, w: int, h: int)
    requires 0 <= x < w && 0 <= y < h
    ensures 0 <= y * w + x < h * w
    ensures (y * w + x) / w == y && (y * w + x) % w == x
  {
    assert y * w >= 0;
    assert (y + 1) * w <= h * w;
    DivModUnique(y * w + x, w, y, x);
  }
}
