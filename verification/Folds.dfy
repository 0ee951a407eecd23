/** Left folds over sequences, and the facts about them that the state machines share. */
module Folds {

  function Fold<S, X>(step: (S, X) -> S, s: S, xs: seq<X>): S
    decreases xs
  {
    if xs == [] then s else Fold(step, step(s, xs[0]), xs[1..])
  }

  lemma {:induction false} FoldConcat<S, X>(step: (S, X) -> S, s: S, xs: seq<X>, ys: seq<X>)
    ensures Fold(step, s, xs + ys) == Fold(step, Fold(step, s, xs), ys)
    decreases xs
  {
    if xs == [] {
      assert xs + ys == ys;
    } else {
      assert (xs + ys)[1..] == xs[1..] + ys;
      FoldConcat(step, step(s, xs[0]), xs[1..], ys);
    }
  }

  ghost predicate StepInjective<S(!new), X(!new)>(step: (S, X) -> S) {
    forall a, b, x :: step(a, x) == step(b, x) ==> a == b
  }

  lemma {:induction false} FoldInjective<S(!new), X(!new)>(step: (S, X) -> S, a: S, b: S, xs: seq<X>)
    requires StepInjective(step)
    requires Fold(step, a, xs) == Fold(step, b, xs)
    ensures a == b
    decreases xs
  {
    if xs != [] {
      FoldInjective(step, step(a, xs[0]), step(b, xs[0]), xs[1..]);
    }
  }

  /** Equal results on inputs that share a prefix and a suffix come from equal results on the middle. */
  lemma FoldMiddle<S(!new), X(!new)>(step: (S, X) -> S, s: S, pre: seq<X>, u: seq<X>, v: seq<X>, post: seq<X>)
    requires StepInjective(step)
    requires Fold(step, s, pre + u + post) == Fold(step, s, pre + v + post)
    ensures Fold(step, Fold(step, s, pre), u) == Fold(step, Fold(step, s, pre), v)
  {
    FoldConcat(step, s, pre + u, post);
    FoldConcat(step, s, pre + v, post);
    FoldConcat(step, s, pre, u);
    FoldConcat(step, s, pre, v);
    FoldInjective(step, Fold(step, s, pre + u), Fold(step, s, pre + v), post);
  }

  function FlatMap<X, Y>(f: X -> seq<Y>, xs: seq<X>): seq<Y> {
    if xs == [] then [] else f(xs[0]) + FlatMap(f, xs[1..])
  }

  lemma {:induction false} FlatMapConcat<X, Y>(f: X -> seq<Y>, xs: seq<X>, ys: seq<X>)
    ensures FlatMap(f, xs + ys) == FlatMap(f, xs) + FlatMap(f, ys)
  {
    if xs == [] {
      assert xs + ys == ys;
    } else {
      assert (xs + ys)[1..] == xs[1..] + ys;
      FlatMapConcat(f, xs[1..], ys);
    }
  }

  /** A step that unfolds each item into finer items may be run on the finer items directly. */
  lemma {:induction false} FoldFlatMap<S(!new), X(!new), Y>(
    coarse: (S, X) -> S, fine: (S, Y) -> S, f: X -> seq<Y>, s: S, xs: seq<X>)
    requires forall t, x :: coarse(t, x) == Fold(fine, t, f(x))
    ensures Fold(coarse, s, xs) == Fold(fine, s, FlatMap(f, xs))
    decreases xs
  {
    if xs != [] {
      FoldConcat(fine, s, f(xs[0]), FlatMap(f, xs[1..]));
      FoldFlatMap(coarse, fine, f, coarse(s, xs[0]), xs[1..]);
    }
  }

  /** The concatenation of a sequence of sequences. */
  function Flatten<X>(xss: seq<seq<X>>): seq<X> {
    if xss == [] then [] else xss[0] + Flatten(xss[1..])
  }
}
