/** Runs of a step function and what every run keeps. */
module Runs {

  function Fold<S, A>(next: (S, A) -> S, s: S, steps: seq<A>): S
    decreases |steps|
  {
    if steps == [] then s else Fold(next, next(s, steps[0]), steps[1..])
  }

  ghost predicate Kept<S(!new), A(!new)>(inv: S -> bool, ok: A -> bool, next: (S, A) -> S) {
    forall s, a {:trigger inv(next(s, a))} :: inv(s) && ok(a) ==> inv(next(s, a))
  }

  lemma {:induction false} FoldKeeps<S(!new), A(!new)>(inv: S -> bool, ok: A -> bool, next: (S, A) -> S, s: S, steps: seq<A>)
    requires Kept(inv, ok, next) && inv(s) && forall i | 0 <= i < |steps| :: ok(steps[i])
    ensures inv(Fold(next, s, steps))
    decreases |steps|
  {
    if steps != [] {
      assert inv(next(s, steps[0]));
      FoldKeeps(inv, ok, next, next(s, steps[0]), steps[1..]);
    }
  }
}
