/**
 Which streams each user has open, how many are allowed, and when the one listener runs. Q is the handle of a
 stream's queue.
 */
module StreamRegistry {
  import opened Collections
  import opened Runs

  const STREAMS_PER_USER: nat := 3
  const STREAMS_IN_ALL: nat := 200

  datatype Registry<Q> = Registry(queues: map<nat, set<Q>>, isListening: bool)

  function Mine<Q>(queues: map<nat, set<Q>>, user: nat): set<Q> {
    if user in queues then queues[user] else {}
  }

  // Each open stream with its user, so that their number is the sum over the users.
  ghost function Open<Q>(queues: map<nat, set<Q>>): set<(nat, Q)> {
    set user, q | user in queues && q in queues[user] :: (user, q)
  }

  ghost predicate IsFull<Q>(queues: map<nat, set<Q>>, user: nat) {
    |Mine(queues, user)| >= STREAMS_PER_USER || |Open(queues)| >= STREAMS_IN_ALL
  }

  // A refusal still leaves the user an entry, empty when they had no stream.
  ghost function Subscribed<Q>(r: Registry<Q>, user: nat, q: Q): Registry<Q> {
    if IsFull(r.queues, user) then r.(queues := r.queues[user := Mine(r.queues, user)])
    else Registry(r.queues[user := Mine(r.queues, user) + {q}], true)
  }

  function Left<Q>(queues: map<nat, set<Q>>, user: nat, q: Q): map<nat, set<Q>> {
    if Mine(queues, user) - {q} == {} then queues - {user} else queues[user := queues[user] - {q}]
  }

  ghost function Unsubscribed<Q>(r: Registry<Q>, user: nat, q: Q): Registry<Q> {
    var left := Left(r.queues, user, q);
    Registry(left, r.isListening && left != map[])
  }

  ghost predicate IsSound<Q>(r: Registry<Q>) {
    && |Open(r.queues)| <= STREAMS_IN_ALL
    && (forall user :: user in r.queues ==> |r.queues[user]| <= STREAMS_PER_USER)
    && (r.isListening <==> r.queues != map[])
  }

  function Handles<Q>(queues: map<nat, set<Q>>): set<Q> {
    set user, q | user in queues && q in queues[user] :: q
  }

  // No stream is two users'.
  ghost predicate OwnedOnce<Q>(queues: map<nat, set<Q>>) {
    forall u, v | u in queues && v in queues && u != v :: queues[u] !! queues[v]
  }

  lemma JoinKeepsOwners<Q>(queues: map<nat, set<Q>>, user: nat, q: Q)
    requires OwnedOnce(queues) && forall u :: u in queues ==> q !in queues[u]
    ensures OwnedOnce(queues[user := Mine(queues, user) + {q}])
    ensures Handles(queues[user := Mine(queues, user) + {q}]) <= Handles(queues) + {q}
  {
  }

  lemma LeaveKeepsOwners<Q>(queues: map<nat, set<Q>>, user: nat, q: Q)
    requires OwnedOnce(queues)
    ensures OwnedOnce(Left(queues, user, q))
    ensures Handles(Left(queues, user, q)) <= Handles(queues)
  {
  }

  // No user has a stream; a refused one may still have an entry.
  ghost predicate AllIdle<Q>(queues: map<nat, set<Q>>) {
    forall user :: user in queues ==> queues[user] == {}
  }

  lemma NoneOpen<Q>(queues: map<nat, set<Q>>)
    ensures Open(queues) == {} <==> AllIdle(queues)
  {
    forall user | user in queues ensures Open(queues) == {} ==> queues[user] == {} {
      assert forall q :: q in queues[user] ==> (user, q) in Open(queues);
    }
  }

  lemma RefusalKeepsSound<Q>(r: Registry<Q>, user: nat)
    requires IsSound(r) && IsFull(r.queues, user)
    ensures IsSound(r.(queues := r.queues[user := Mine(r.queues, user)]))
  {
    NoneOpen(r.queues);
    assert Open(r.queues[user := Mine(r.queues, user)]) == Open(r.queues);
  }

  lemma AdmissionKeepsSound<Q>(r: Registry<Q>, user: nat, q: Q)
    requires IsSound(r) && !IsFull(r.queues, user)
    ensures IsSound(Registry(r.queues[user := Mine(r.queues, user) + {q}], true))
  {
    var joined := r.queues[user := Mine(r.queues, user) + {q}];
    SubsetIsSmaller(Open(joined), Open(r.queues) + {(user, q)});
    OneMoreMember(Open(r.queues), (user, q));
    OneMoreMember(Mine(r.queues, user), q);
  }

  lemma SubscribeKeepsSound<Q>(r: Registry<Q>, user: nat, q: Q)
    requires IsSound(r)
    ensures IsSound(Subscribed(r, user, q))
  {
    if IsFull(r.queues, user) {
      RefusalKeepsSound(r, user);
    } else {
      AdmissionKeepsSound(r, user, q);
    }
  }

  lemma UnsubscribeKeepsSound<Q>(r: Registry<Q>, user: nat, q: Q)
    requires IsSound(r)
    ensures IsSound(Unsubscribed(r, user, q))
  {
    var t := Unsubscribed(r, user, q);
    SubsetIsSmaller(Open(t.queues), Open(r.queues));
    forall u | u in t.queues ensures |t.queues[u]| <= STREAMS_PER_USER {
      SubsetIsSmaller(t.queues[u], r.queues[u]);
    }
  }

  // ---------- Every run ----------

  datatype Step = Subscribe(user: nat, q: nat) | Unsubscribe(user: nat, q: nat)

  ghost function Apply(r: Registry<nat>, step: Step): Registry<nat> {
    match step
    case Subscribe(user, q) => Subscribed(r, user, q)
    case Unsubscribe(user, q) => Unsubscribed(r, user, q)
  }

  ghost predicate Follows(r: Registry<nat>, step: Step, t: Registry<nat>) {
    t == Apply(r, step)
  }

  ghost function Protocol(): System<Registry<nat>> {
    System(r => r == Registry(map[], false), (r, t) => exists step :: Follows(r, step, t))
  }

  lemma StepKeepsSound(r: Registry<nat>, t: Registry<nat>)
    requires IsSound(r) && Protocol().next(r, t)
    ensures IsSound(t)
  {
    var step :| Follows(r, step, t);
    if step.Subscribe? {
      SubscribeKeepsSound(r, step.user, step.q);
    } else {
      UnsubscribeKeepsSound(r, step.user, step.q);
    }
  }

  lemma ReachableIsSound(r: Registry<nat>)
    requires Reachable(Protocol(), r)
    ensures IsSound(r)
  {
    forall s, t | IsSound(s) && Protocol().next(s, t) ensures IsSound(t) {
      StepKeepsSound(s, t);
    }
    Always(Protocol(), s => IsSound(s), r);
  }

  // Streams stay within both limits and are never without a listener; it runs exactly while a user has an entry.
  lemma LimitsHold(r: Registry<nat>)
    requires Reachable(Protocol(), r)
    ensures |Open(r.queues)| <= STREAMS_IN_ALL
    ensures forall user :: user in r.queues ==> |r.queues[user]| <= STREAMS_PER_USER
    ensures Open(r.queues) != {} ==> r.isListening
    ensures r.isListening && Open(r.queues) == {} <==> r.queues != map[] && AllIdle(r.queues)
  {
    ReachableIsSound(r);
    NoneOpen(r.queues);
  }

  // ---------- The listener can outlive the last stream ----------

  function Singles(n: nat): map<nat, set<nat>> {
    map u: nat | u < n :: {u}
  }

  lemma CountSingles(n: nat)
    ensures |Open(Singles(n))| == n
    decreases n
  {
    if n > 0 {
      CountSingles(n - 1);
      assert Open(Singles(n)) == Open(Singles(n - 1)) + {(n - 1, n - 1)};
    } else {
      assert Open(Singles(0)) == {};
    }
  }

  // n users with a stream each.
  lemma {:induction false} Filled(n: nat)
    requires 0 < n <= STREAMS_IN_ALL
    ensures Reachable(Protocol(), Registry(Singles(n), true))
  {
    var before := if n == 1 then Registry(map[], false) else Registry(Singles(n - 1), true);
    if n == 1 {
      Start(Protocol(), before);
      assert Singles(0) == map[];
    } else {
      Filled(n - 1);
    }
    CountSingles(n - 1);
    assert before.queues == Singles(n - 1);
    var after := Apply(before, Subscribe(n - 1, n - 1));
    assert after.queues == Singles(n);
    assert Follows(before, Subscribe(n - 1, n - 1), after);
    Reach(Protocol(), before, after);
  }

  // They leave one by one, past the entry of the user who was refused.
  lemma {:induction false} Drained(n: nat)
    requires n <= STREAMS_IN_ALL
    ensures Reachable(Protocol(), Registry(Singles(n)[STREAMS_IN_ALL := {}], true))
    decreases STREAMS_IN_ALL - n
  {
    if n == STREAMS_IN_ALL {
      Filled(n);
      CountSingles(n);
      var full := Registry(Singles(n), true);
      var after := Apply(full, Subscribe(STREAMS_IN_ALL, 0));
      assert after == Registry(Singles(n)[STREAMS_IN_ALL := {}], true);
      assert Follows(full, Subscribe(STREAMS_IN_ALL, 0), after);
      Reach(Protocol(), full, after);
    } else {
      Drained(n + 1);
      var before := Registry(Singles(n + 1)[STREAMS_IN_ALL := {}], true);
      var after := Apply(before, Unsubscribe(n, n));
      assert after.queues == Singles(n)[STREAMS_IN_ALL := {}];
      assert STREAMS_IN_ALL in after.queues;
      assert Follows(before, Unsubscribe(n, n), after);
      Reach(Protocol(), before, after);
    }
  }

  // A stream refused at the overall limit keeps the listener running.
  lemma ListenerMayOutliveStreams() returns (r: Registry<nat>)
    ensures Reachable(Protocol(), r) && r.isListening && Open(r.queues) == {}
  {
    Drained(0);
    r := Registry(Singles(0)[STREAMS_IN_ALL := {}], true);
  }

  // ---------- When it closes with the last stream ----------

  ghost predicate HasEmptyEntry<Q>(queues: map<nat, set<Q>>) {
    exists user :: user in queues && queues[user] == {}
  }

  // Refused without having a stream: the branch that leaves an entry behind.
  ghost predicate RefusesNewcomer(r: Registry<nat>, step: Step) {
    step.Subscribe? && step.user !in r.queues && IsFull(r.queues, step.user)
  }

  lemma EmptyEntryExactly(r: Registry<nat>, step: Step)
    requires !HasEmptyEntry(r.queues)
    ensures HasEmptyEntry(Apply(r, step).queues) <==> RefusesNewcomer(r, step)
  {
    if RefusesNewcomer(r, step) {
      assert step.user in Apply(r, step).queues && Apply(r, step).queues[step.user] == {};
    } else {
      var after := Apply(r, step).queues;
      forall user | user in after ensures after[user] != {} {
        if step.Subscribe? && user == step.user && !IsFull(r.queues, user) {
          assert step.q in after[user];
        }
      }
    }
  }

  lemma NoEmptyEntryClosesWithLast(r: Registry<nat>)
    requires IsSound(r) && !HasEmptyEntry(r.queues)
    ensures r.isListening <==> Open(r.queues) != {}
  {
    NoneOpen(r.queues);
    if r.queues != map[] {
      var user :| user in r.queues;
      assert r.queues[user] != {};
    }
  }

  // The open streams leave, one after the other.
  ghost predicate Leaves(r: Registry<nat>, user: nat, q: nat, t: Registry<nat>) {
    (user, q) in Open(r.queues) && t == Unsubscribed(r, user, q)
  }

  ghost function Leaving(): System<Registry<nat>> {
    System(r => true, (r, t) => exists user, q :: Leaves(r, user, q, t))
  }

  ghost predicate CanOutlive(r: Registry<nat>) {
    exists t :: Leads(Leaving(), r, t) && t.isListening && Open(t.queues) == {}
  }

  lemma OneLeaves(r: Registry<nat>, user: nat, q: nat, e: nat)
    requires IsSound(r) && (user, q) in Open(r.queues) && e in r.queues && r.queues[e] == {}
    ensures var t := Unsubscribed(r, user, q);
            IsSound(t) && e in t.queues && t.queues[e] == {} && Open(t.queues) == Open(r.queues) - {(user, q)}
  {
    UnsubscribeKeepsSound(r, user, q);
    assert e != user;
    var left := Left(r.queues, user, q);
    assert e in left;
    forall u, x ensures (u, x) in Open(left) <==> (u, x) in Open(r.queues) && (u, x) != (user, q) {
    }
  }

  lemma LeavesThenLeads(r: Registry<nat>, s: Registry<nat>, t: Registry<nat>)
    requires Leaving().next(r, s) && Leads(Leaving(), s, t)
    ensures Leads(Leaving(), r, t)
  {
    var trace :| IsTrace(Leaving(), trace) && trace[0] == s && trace[|trace| - 1] == t;
    var longer := [r] + trace;
    forall i | 0 < i < |longer| ensures Leaving().next(longer[i - 1], longer[i]) {
      assert i > 1 ==> Leaving().next(trace[i - 2], trace[i - 1]);
    }
    assert longer[0] == r && longer[|longer| - 1] == t;
  }

  lemma {:induction false} EmptyEntryOutlives(r: Registry<nat>, e: nat)
    requires IsSound(r) && e in r.queues && r.queues[e] == {}
    ensures CanOutlive(r)
    decreases |Open(r.queues)|
  {
    if Open(r.queues) == {} {
      assert IsTrace(Leaving(), [r]) && [r][0] == r;
      assert Leads(Leaving(), r, r);
    } else {
      var user, q :| (user, q) in Open(r.queues);
      var s := Unsubscribed(r, user, q);
      OneLeaves(r, user, q, e);
      EmptyEntryOutlives(s, e);
      var t :| Leads(Leaving(), s, t) && t.isListening && Open(t.queues) == {};
      assert Leaves(r, user, q, s);
      LeavesThenLeads(r, s, t);
    }
  }

  // The listener can outlive the streams now open exactly when some user's entry is empty.
  lemma OutlivesExactly(r: Registry<nat>)
    requires Reachable(Protocol(), r)
    ensures CanOutlive(r) <==> HasEmptyEntry(r.queues)
  {
    ReachableIsSound(r);
    if HasEmptyEntry(r.queues) {
      var e :| e in r.queues && r.queues[e] == {};
      EmptyEntryOutlives(r, e);
    } else {
      forall t | Leads(Leaving(), r, t) ensures !(t.isListening && Open(t.queues) == {}) {
        StaysTidy(Leaving(), r, t);
        NoEmptyEntryClosesWithLast(t);
      }
    }
  }

  ghost predicate IsTidy(r: Registry<nat>) {
    IsSound(r) && !HasEmptyEntry(r.queues)
  }

  lemma StartsTidy()
    ensures IsTidy(Registry(map[], false))
  {
    var none: map<nat, set<nat>> := map[];
    NoneOpen(none);
  }

  lemma LeavingKeepsTidy(r: Registry<nat>, user: nat, q: nat)
    requires IsTidy(r)
    ensures IsTidy(Unsubscribed(r, user, q))
  {
    UnsubscribeKeepsSound(r, user, q);
    EmptyEntryExactly(r, Unsubscribe(user, q));
  }

  lemma StaysTidy(sys: System<Registry<nat>>, r: Registry<nat>, t: Registry<nat>)
    requires sys == Leaving() && IsTidy(r) && Leads(sys, r, t)
    ensures IsTidy(t)
  {
    forall a, b | IsTidy(a) && sys.next(a, b) ensures IsTidy(b) {
      var user, q :| Leaves(a, user, q, b);
      LeavingKeepsTidy(a, user, q);
    }
    Onward(sys, a => IsTidy(a), r, t);
  }

  // isSpared: no user without a stream is ever refused.
  ghost function Under(isSpared: bool): System<Registry<nat>> {
    System(Protocol().init,
           (r, t) => exists step :: Follows(r, step, t) && (isSpared ==> !RefusesNewcomer(r, step)))
  }

  ghost predicate ClosesWithLast(isSpared: bool) {
    forall r :: Reachable(Under(isSpared), r) ==> (r.isListening <==> Open(r.queues) != {})
  }

  // So "closed with the last stream" holds in every run exactly when that promise is made.
  lemma ClosesWithLastExactly(isSpared: bool)
    ensures ClosesWithLast(isSpared) <==> isSpared
  {
    if isSpared {
      forall r | Reachable(Under(true), r) ensures r.isListening <==> Open(r.queues) != {} {
        forall a, b | IsTidy(a) && Under(true).next(a, b) ensures IsTidy(b) {
          var step :| Follows(a, step, b) && !RefusesNewcomer(a, step);
          StepKeepsSound(a, b);
          EmptyEntryExactly(a, step);
        }
        StartsTidy();
        Always(Under(true), a => IsTidy(a), r);
        NoEmptyEntryClosesWithLast(r);
      }
    } else {
      var r := ListenerMayOutliveStreams();
      ReachableUnder(r);
    }
  }

  lemma ReachableUnder(r: Registry<nat>)
    requires Reachable(Protocol(), r)
    ensures Reachable(Under(false), r)
  {
    forall a, b | Reachable(Under(false), a) && Protocol().next(a, b) ensures Reachable(Under(false), b) {
      var step :| Follows(a, step, b);
      assert Under(false).next(a, b);
      Reach(Under(false), a, b);
    }
    forall a | Protocol().init(a) ensures Reachable(Under(false), a) {
      Start(Under(false), a);
    }
    Always(Protocol(), a => Reachable(Under(false), a), r);
  }
}
