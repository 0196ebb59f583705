/** Finite sequences of steps of an arbitrary relation. */
module Reachability {

  ghost predicate ReachesIn<S(!new)>(step: (S, S) -> bool, s: S, t: S, count: nat)
    decreases count
  {
    if count == 0 then s == t
    else exists u :: step(s, u) && ReachesIn(step, u, t, count - 1)
  }

  ghost predicate Reaches<S(!new)>(step: (S, S) -> bool, s: S, t: S) {
    exists count: nat :: ReachesIn(step, s, t, count)
  }

  lemma ReachesSelf<S(!new)>(step: (S, S) -> bool, s: S)
    ensures Reaches(step, s, s)
  {
    assert ReachesIn(step, s, s, 0);
  }

  lemma ReachesStep<S(!new)>(step: (S, S) -> bool, s: S, t: S)
    requires step(s, t)
    ensures Reaches(step, s, t)
  {
    assert ReachesIn(step, t, t, 0);
    assert ReachesIn(step, s, t, 1);
  }

  lemma {:induction false} ReachesOn<S(!new)>(step: (S, S) -> bool, s: S, u: S, t: S, count: nat)
    requires ReachesIn(step, s, u, count) && Reaches(step, u, t)
    ensures Reaches(step, s, t)
    decreases count
  {
    if count > 0 {
      var v :| step(s, v) && ReachesIn(step, v, u, count - 1);
      ReachesOn(step, v, u, t, count - 1);
      var more: nat :| ReachesIn(step, v, t, more);
      assert ReachesIn(step, s, t, more + 1);
    }
  }

  lemma ReachesThrough<S(!new)>(step: (S, S) -> bool, s: S, u: S, t: S)
    requires Reaches(step, s, u) && Reaches(step, u, t)
    ensures Reaches(step, s, t)
  {
    var count: nat :| ReachesIn(step, s, u, count);
    ReachesOn(step, s, u, t, count);
  }
}
