// Counting finite sets of indices.
module Counting {

  /** The numbers below n. */
  function Upto(n: nat): (s: set<int>)
    ensures |s| == n && forall x :: x in s <==> 0 <= x < n
  {
    if n == 0 then {} else Upto(n - 1) + {n - 1}
  }

  lemma SubsetSize(a: set<int>, b: set<int>)
    requires a <= b
    ensures |a| <= |b| && (|a| == |b| ==> a == b)
  {
    assert b == a + (b - a);
    if |b - a| == 0 {
      assert b - a == {};
    }
  }

  lemma Pick<T>(s: set<T>) returns (x: T)
    requires s != {}
    ensures x in s
  {
    x :| x in s;
  }

  function Image(s: set<int>, f: int -> int): set<int> { set x | x in s :: f(x) }

  ghost predicate Injective(s: set<int>, f: int -> int) {
    forall x, y | x in s && y in s :: f(x) == f(y) ==> x == y
  }

  lemma {:induction false} ImageSize(s: set<int>, f: int -> int)
    requires Injective(s, f)
    ensures |Image(s, f)| == |s|
    decreases |s|
  {
    if s != {} {
      var x := Pick(s);
      assert Image(s, f) == Image(s - {x}, f) + {f(x)};
      ImageSize(s - {x}, f);
    }
  }

  /** An injection of a set into as many numbers hits every one of them. */
  lemma InjectionIsOnto(s: set<int>, f: int -> int, n: nat)
    requires n == |s| && Injective(s, f) && forall x | x in s :: 0 <= f(x) < n
    ensures Image(s, f) == Upto(n)
  {
    hide Upto, Injective;
    ImageSize(s, f);
    SubsetSize(Image(s, f), Upto(n));
  }
}
