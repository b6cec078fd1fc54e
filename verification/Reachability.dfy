/** Reachability in a number of steps, for any step relation. */
module Reachability {

  ghost predicate Reaches<S(!new)>(step: (S, S) -> bool, a: S, n: nat, b: S)
    decreases n
  {
    if n == 0 then a == b
    else exists mid :: step(a, mid) && Reaches(step, mid, n - 1, b)
  }

  lemma {:induction false} ReachesThen<S(!new)>(step: (S, S) -> bool, a: S, n: nat, b: S, m: nat, c: S)
    requires Reaches(step, a, n, b) && Reaches(step, b, m, c)
    ensures Reaches(step, a, n + m, c)
    decreases n
  {
    if n > 0 {
      var mid :| step(a, mid) && Reaches(step, mid, n - 1, b);
      ReachesThen(step, mid, n - 1, b, m, c);
    }
  }

  lemma ThenStep<S(!new)>(step: (S, S) -> bool, a: S, n: nat, b: S, c: S)
    requires Reaches(step, a, n, b) && step(b, c)
    ensures Reaches(step, a, n + 1, c)
  {
    assert Reaches(step, c, 0, c);
    assert Reaches(step, b, 1, c);
    ReachesThen(step, a, n, b, 1, c);
  }

  /** What every step keeps, every run keeps. */
  lemma {:induction false} RunsKeep<S(!new)>(step: (S, S) -> bool, inv: S -> bool, a: S, n: nat, b: S)
    requires inv(a) && Reaches(step, a, n, b)
    requires forall x, y :: inv(x) && step(x, y) ==> inv(y)
    ensures inv(b)
    decreases n
  {
    if n > 0 {
      var mid :| step(a, mid) && Reaches(step, mid, n - 1, b);
      RunsKeep(step, inv, mid, n - 1, b);
    }
  }
}
