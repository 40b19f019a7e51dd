/** Runs of a transition relation and what they keep. */
module Runs {

  /** `b` is reached from `a` in the given number of steps. */
  ghost predicate Run<S(!new)>(next: (S, S) -> bool, a: S, b: S, steps: nat)
    decreases steps
  {
    if steps == 0 then a == b
    else exists mid :: next(a, mid) && Run(next, mid, b, steps - 1)
  }

  /** What every step keeps, every run keeps. */
  lemma {:induction false} RunKeeps<S(!new)>(next: (S, S) -> bool, keeps: S -> bool, a: S, b: S, steps: nat)
    requires forall s, t :: keeps(s) && next(s, t) ==> keeps(t)
    requires keeps(a) && Run(next, a, b, steps)
    ensures keeps(b)
    decreases steps
  {
    if steps > 0 {
      var mid :| next(a, mid) && Run(next, mid, b, steps - 1);
      RunKeeps(next, keeps, mid, b, steps - 1);
    }
  }

  /** One more step at the end of a run. */
  lemma {:induction false} RunLonger<S(!new)>(next: (S, S) -> bool, a: S, b: S, c: S, steps: nat)
    requires Run(next, a, b, steps) && next(b, c)
    ensures Run(next, a, c, steps + 1)
    decreases steps
  {
    if steps == 0 {
      assert next(a, c) && Run(next, c, c, 0);
    } else {
      var mid :| next(a, mid) && Run(next, mid, b, steps - 1);
      RunLonger(next, mid, b, c, steps - 1);
    }
  }
}
