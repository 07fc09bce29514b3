// Transition systems: the states a run can reach, and how an invariant is carried along every run.
module Runs {
  datatype System<!S> = System(init: S -> bool, next: (S, S) -> bool)

  ghost predicate IsTrace<S(!new)>(sys: System<S>, trace: seq<S>) {
    |trace| > 0 && forall i :: 0 < i < |trace| ==> sys.next(trace[i - 1], trace[i])
  }

  // t can come after s, in any number of steps.
  ghost predicate Leads<S(!new)>(sys: System<S>, s: S, t: S) {
    exists trace :: IsTrace(sys, trace) && trace[0] == s && trace[|trace| - 1] == t
  }

  ghost predicate Reachable<S(!new)>(sys: System<S>, t: S) {
    exists s :: sys.init(s) && Leads(sys, s, t)
  }

  lemma Start<S(!new)>(sys: System<S>, s: S)
    requires sys.init(s)
    ensures Reachable(sys, s)
  {
    assert IsTrace(sys, [s]) && [s][0] == s;
    assert Leads(sys, s, s);
  }

  lemma Further<S(!new)>(sys: System<S>, s: S, t: S, u: S)
    requires Leads(sys, s, t) && sys.next(t, u)
    ensures Leads(sys, s, u)
  {
    var trace :| IsTrace(sys, trace) && trace[0] == s && trace[|trace| - 1] == t;
    assert IsTrace(sys, trace + [u]) && (trace + [u])[0] == s && (trace + [u])[|trace|] == u;
  }

  lemma Reach<S(!new)>(sys: System<S>, s: S, t: S)
    requires Reachable(sys, s) && sys.next(s, t)
    ensures Reachable(sys, t)
  {
    var first :| sys.init(first) && Leads(sys, first, s);
    Further(sys, first, s, t);
  }

  // What holds at first and is kept by every step holds in every reachable state.
  lemma Always<S(!new)>(sys: System<S>, inv: S -> bool, t: S)
    requires forall s :: sys.init(s) ==> inv(s)
    requires forall s, u :: inv(s) && sys.next(s, u) ==> inv(u)
    requires Reachable(sys, t)
    ensures inv(t)
  {
    var first :| sys.init(first) && Leads(sys, first, t);
    Onward(sys, inv, first, t);
  }

  lemma Onward<S(!new)>(sys: System<S>, inv: S -> bool, s: S, t: S)
    requires forall s, u :: inv(s) && sys.next(s, u) ==> inv(u)
    requires inv(s) && Leads(sys, s, t)
    ensures inv(t)
  {
    var trace :| IsTrace(sys, trace) && trace[0] == s && trace[|trace| - 1] == t;
    Along(sys, inv, trace, |trace| - 1);
  }

  lemma {:induction false} Along<S(!new)>(sys: System<S>, inv: S -> bool, trace: seq<S>, n: nat)
    requires forall s, u :: inv(s) && sys.next(s, u) ==> inv(u)
    requires IsTrace(sys, trace) && inv(trace[0]) && n < |trace|
    ensures inv(trace[n])
  {
    if n > 0 {
      Along(sys, inv, trace, n - 1);
      assert sys.next(trace[n - 1], trace[n]);
    }
  }
}
