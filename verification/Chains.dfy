/** Sequences of steps of a relation. */
module Chains {
  /** `n` steps lead from `f` to `g`. */
  ghost predicate Chain<T(!new)>(step: (T, T) -> bool, f: T, g: T, n: nat)
    decreases n
  {
    if n == 0 then f == g else exists h :: Chain(step, f, h, n - 1) && step(h, g)
  }

  lemma {:induction false} ChainJoins<T(!new)>(step: (T, T) -> bool, f: T, g: T, h: T, m: nat, n: nat)
    requires Chain(step, f, g, m) && Chain(step, g, h, n)
    ensures Chain(step, f, h, m + n)
    decreases n
  {
    if n > 0 {
      var k :| Chain(step, g, k, n - 1) && step(k, h);
      ChainJoins(step, f, g, k, m, n - 1);
    }
  }

  lemma ChainMore<T(!new)>(step: (T, T) -> bool, f: T, g: T, h: T, n: nat)
    requires Chain(step, f, g, n) && step(g, h)
    ensures Chain(step, f, h, n + 1)
  {
  }
}
