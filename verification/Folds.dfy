/** Reading a list from the left, in general. */
module Folds {

  function Fold<S, B>(f: (S, B) -> S, s: S, bs: seq<B>): S {
    if bs == [] then s else f(Fold(f, s, bs[..|bs| - 1]), bs[|bs| - 1])
  }

  lemma FoldAt<S, B>(f: (S, B) -> S, s: S, bs: seq<B>, k: nat)
    requires k < |bs|
    ensures Fold(f, s, bs[..k + 1]) == f(Fold(f, s, bs[..k]), bs[k])
  {
    assert bs[..k + 1][..k] == bs[..k];
  }

  lemma {:induction false} FoldConcat<S, B>(f: (S, B) -> S, s: S, a: seq<B>, b: seq<B>)
    ensures Fold(f, s, a + b) == Fold(f, Fold(f, s, a), b)
  {
    if b == [] {
      assert a + b == a;
    } else {
      var k := |b| - 1;
      FoldConcat(f, s, a, b[..k]);
      assert (a + b)[..|a| + k] == a + b[..k];
    }
  }

  /** If reading nil fixes zero and reaches zero from nowhere else, so does reading any number of nils. */
  lemma {:induction false} FoldKernel<S(!new), B>(f: (S, B) -> S, s: S, nils: seq<B>, zero: S, nil: B)
    requires forall x :: f(x, nil) == zero <==> x == zero
    requires forall i :: 0 <= i < |nils| ==> nils[i] == nil
    ensures Fold(f, s, nils) == zero <==> s == zero
  {
    if nils != [] {
      FoldKernel(f, s, nils[..|nils| - 1], zero, nil);
    }
  }
}
