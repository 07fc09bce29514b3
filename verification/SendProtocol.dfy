/**
 Every interleaving of the requests that may send one row (approve clicks, due scheduled sends, holding-reply
 passes, follow-up clicks), their crashes, and the reconciler. Gmail is a step that accepts, refuses or loses.

 What the outside world is trusted for is an Env. AtMostOneCopyExactly says which of those promises each kind
 of send needs: with them no run makes Gmail accept two copies, and without any one of them some run does.
 */
module SendProtocol {
  import opened Common
  import opened Runs
  import opened SendRows

  datatype Env = Env(
    endsInTime: bool,      // a request is over within UNCONFIRMED_AFTER of its claim
    refusalsTrue: bool,    // an error status means Gmail did not take it
    staysInThread: bool,   // the copy joins the stored thread (a standalone reply does not)
    clocksNear: bool,      // Gmail stamps a copy later than CLOCK_SLACK before the claim
    showsAccepted: bool,   // a copy Gmail accepted is listed in its thread when the reconciler asks
    onePass: bool          // one reconciler pass at a time
  )

  // What has to hold for this kind of send. A request that outlives its claim only matters to a reply: the
  // other two are marked unknown by the request itself, after Gmail's answer.
  predicate Needed(k: Kind, env: Env) {
    env.refusalsTrue && env.staysInThread && env.clocksNear && env.showsAccepted && env.onePass &&
    (k.Reply? ==> env.endsInTime)
  }

  // A copy Gmail accepted, and the claim it was sent under.
  datatype Copy = Copy(claim: Time, stamp: Time, inThread: bool)

  datatype Worker = Sending(claim: Time) | Heard(claim: Time, answer: Answer)
  datatype Pass = Read(claim: Time) | Told(claim: Time, found: Option<string>)

  datatype State = State(now: Time, row: Row, workers: map<nat, Worker>, passes: map<nat, Pass>, copies: seq<Copy>)

  datatype Step =
    | Wait(until: Time)
    | Claim(w: nat)
    | Post(w: nat, answer: Answer, copy: Option<Copy>)
    | Finish(w: nat, isSaved: bool)
    | Crash(w: nat)
    | StartPass(p: nat)
    | AskGmail(p: nat, found: Option<string>)
    | Settle(p: nat)
    | AbandonPass(p: nat)

  const INIT := State(0, UNCLAIMED, map[], map[], [])

  predicate IsLate(env: Env, worker: Worker, now: Time) {
    env.endsInTime && now > worker.claim + UNCONFIRMED_AFTER
  }

  predicate IsListed(copy: Copy, claim: Time) {
    copy.inThread && copy.stamp > claim - CLOCK_SLACK
  }

  predicate Enabled(k: Kind, env: Env, s: State, step: Step) {
    match step
    case Wait(until) => s.now <= until
    case Claim(w) => w !in s.workers
    case Post(w, answer, copy) =>
      && w in s.workers && s.workers[w].Sending? && !IsLate(env, s.workers[w], s.now)
      && (copy.Some? ==> copy.value.claim == s.workers[w].claim
                         && (env.staysInThread ==> copy.value.inThread)
                         && (env.clocksNear ==> copy.value.stamp > s.workers[w].claim - CLOCK_SLACK))
      && (answer.Accepted? ==> copy.Some?)
      && (answer.Refused? && env.refusalsTrue ==> copy.None?)
    case Finish(w, _) => w in s.workers && s.workers[w].Heard? && !IsLate(env, s.workers[w], s.now)
    case Crash(w) => w in s.workers
    case StartPass(p) =>
      p !in s.passes && (env.onePass ==> s.passes == map[]) && Unconfirmed(k, s.row, s.now) && s.row.claimedAt.Some?
    case AskGmail(p, found) =>
      && p in s.passes && s.passes[p].Read?
      && (env.showsAccepted ==> (exists c :: c in s.copies && IsListed(c, s.passes[p].claim)) ==> found.Some?)
    case Settle(p) => p in s.passes && s.passes[p].Told?
    case AbandonPass(p) => p in s.passes
  }

  function Apply(k: Kind, env: Env, s: State, step: Step): State
    requires Enabled(k, env, s, step)
  {
    match step
    case Wait(until) => s.(now := until)
    case Claim(w) =>
      if s.row.claimedAt.Some? then s
      else s.(row := Claimed(k, s.row, s.now), workers := s.workers[w := Sending(s.now)])
    case Post(w, answer, copy) =>
      s.(workers := s.workers[w := Heard(s.workers[w].claim, answer)],
         copies := if copy.Some? then s.copies + [copy.value] else s.copies)
    case Finish(w, isSaved) =>
      s.(row := Finished(k, s.row, s.workers[w].answer, s.now, isSaved), workers := s.workers - {w})
    case Crash(w) => s.(workers := s.workers - {w})
    case StartPass(p) => s.(passes := s.passes[p := Read(s.row.claimedAt.value)])
    case AskGmail(p, found) => s.(passes := s.passes[p := Told(s.passes[p].claim, found)])
    case Settle(p) => s.(row := Settled(k, s.row, s.passes[p].found), passes := s.passes - {p})
    case AbandonPass(p) => s.(passes := s.passes - {p})
  }

  ghost function Protocol(k: Kind, env: Env): System<State> {
    System(s => s == INIT, (s, t) => exists step :: Enabled(k, env, s, step) && t == Apply(k, env, s, step))
  }

  ghost predicate AtMostOneCopy(k: Kind, env: Env) {
    forall s :: Reachable(Protocol(k, env), s) ==> |s.copies| <= 1
  }

  // ---------- Safety: the invariant ----------

  // A request that may still act on the row.
  predicate IsLive(env: Env, s: State, w: nat) {
    w in s.workers && !IsLate(env, s.workers[w], s.now)
  }

  predicate ClaimIsLive(k: Kind, s: State, worker: Worker) {
    && s.row.claimedAt == Some(worker.claim)
    && s.row.messageId.None?
    && s.row.unknownAt == (if k.Reply? then Some(worker.claim) else None)
    && s.passes == map[]
    && (worker.Sending? || worker.answer.Refused? ==> s.copies == [])
  }

  predicate PassIsCurrent(k: Kind, env: Env, s: State, pass: Pass) {
    && s.row.claimedAt == Some(pass.claim)
    && s.row.unknownAt.Some?
    && (k.FollowUp? || s.row.messageId.None?)
    && (forall w :: w in s.workers ==> !IsLive(env, s, w))
    && (pass.Told? && pass.found.None? ==> s.copies == [])
  }

  ghost predicate Inv(k: Kind, env: Env, s: State) {
    && (s.row.claimedAt.None? ==> s.row == UNCLAIMED && s.copies == [])
    && (s.row.claimedAt.Some? ==> s.row.claimedAt.value <= s.now)
    && (k.FollowUp? ==> s.row.messageId.None?)
    && (s.row.unknownAt.Some? ==> s.row.claimedAt.Some? && s.row.claimedAt.value <= s.row.unknownAt.value <= s.now)
    && |s.copies| <= 1
    && (s.copies != [] ==> s.row.claimedAt == Some(s.copies[0].claim) && IsListed(s.copies[0], s.copies[0].claim))
    && (forall w :: w in s.workers && IsLive(env, s, w) ==> ClaimIsLive(k, s, s.workers[w]))
    && (forall v, w :: v in s.workers && w in s.workers && IsLive(env, s, v) && IsLive(env, s, w) ==> v == w)
    && (forall p :: p in s.passes ==> PassIsCurrent(k, env, s, s.passes[p]))
    && (forall p, q :: p in s.passes && q in s.passes ==> p == q)
  }

  lemma RequestKeepsInv(k: Kind, env: Env, s: State, step: Step)
    requires Needed(k, env) && Inv(k, env, s) && Enabled(k, env, s, step)
    requires step.Claim? || step.Post? || step.Finish?
    ensures Inv(k, env, Apply(k, env, s, step))
  {
    var t := Apply(k, env, s, step);
    match step
    case Claim(w) =>
      if s.row.claimedAt.None? {
        assert forall p :: p !in s.passes;
        assert forall v :: v in s.workers ==> !IsLive(env, s, v);
        assert forall v :: v in t.workers && IsLive(env, t, v) ==> v == w;
      }
    case Post(w, answer, copy) =>
      assert IsLive(env, s, w);
      assert forall v :: IsLive(env, t, v) ==> IsLive(env, s, v);
    case Finish(w, isSaved) =>
      assert IsLive(env, s, w);
      forall v | v in t.workers ensures !IsLive(env, t, v) {
        assert IsLive(env, t, v) ==> IsLive(env, s, v);
      }
  }

  lemma PassKeepsInv(k: Kind, env: Env, s: State, step: Step)
    requires Needed(k, env) && Inv(k, env, s) && Enabled(k, env, s, step)
    requires step.StartPass? || step.AskGmail? || step.Settle? || step.AbandonPass?
    ensures Inv(k, env, Apply(k, env, s, step))
  {
    var t := Apply(k, env, s, step);
    assert forall w :: IsLive(env, t, w) <==> IsLive(env, s, w);
    match step
    case StartPass(p) =>
      assert forall w :: w in s.workers ==> !IsLive(env, s, w);
    case AskGmail(p, found) =>
      assert PassIsCurrent(k, env, s, s.passes[p]);
      assert s.copies != [] ==> s.copies[0] in s.copies;
    case Settle(p) =>
      assert PassIsCurrent(k, env, s, s.passes[p]);
      assert t.passes == map[];
    case AbandonPass(p) =>
  }

  lemma StepKeepsInv(k: Kind, env: Env, s: State, step: Step)
    requires Needed(k, env) && Inv(k, env, s) && Enabled(k, env, s, step)
    ensures Inv(k, env, Apply(k, env, s, step))
  {
    if step.Wait? || step.Crash? {
      assert forall w :: IsLive(env, Apply(k, env, s, step), w) ==> IsLive(env, s, w);
    } else if step.Claim? || step.Post? || step.Finish? {
      RequestKeepsInv(k, env, s, step);
    } else {
      PassKeepsInv(k, env, s, step);
    }
  }

  lemma AtMostOneCopyHolds(k: Kind, env: Env)
    requires Needed(k, env)
    ensures AtMostOneCopy(k, env)
  {
    forall s | Reachable(Protocol(k, env), s) ensures |s.copies| <= 1 {
      forall t, u | Inv(k, env, t) && Protocol(k, env).next(t, u) ensures Inv(k, env, u) {
        var step :| Enabled(k, env, t, step) && u == Apply(k, env, t, step);
        StepKeepsInv(k, env, t, step);
      }
      Always(Protocol(k, env), t => Inv(k, env, t), s);
    }
  }

  // ---------- Necessity: a run for each promise that is not kept ----------

  lemma Go(k: Kind, env: Env, s: State, step: Step) returns (t: State)
    requires Reachable(Protocol(k, env), s) && Enabled(k, env, s, step)
    ensures t == Apply(k, env, s, step) && Reachable(Protocol(k, env), t)
  {
    t := Apply(k, env, s, step);
    Reach(Protocol(k, env), s, t);
  }

  lemma Begin(k: Kind, env: Env) returns (s: State)
    ensures s == INIT && Reachable(Protocol(k, env), s)
  {
    s := INIT;
    Start(Protocol(k, env), s);
  }

  // A claim on a row nobody holds, by a worker not seen before, whose copy Gmail accepts.
  lemma SendAgain(k: Kind, env: Env, s: State, w: nat) returns (t: State)
    requires Reachable(Protocol(k, env), s) && s.row.claimedAt.None? && w !in s.workers
    ensures Reachable(Protocol(k, env), t) && |t.copies| == |s.copies| + 1
    ensures t.row == Claimed(k, s.row, s.now) && t.now == s.now && t.passes == s.passes
    ensures t.workers == s.workers[w := Heard(s.now, Lost)]
  {
    t := Go(k, env, s, Claim(w));
    t := Go(k, env, t, Post(w, Lost, Some(Copy(s.now, s.now, true))));
  }

  // "Refused" that Gmail had in fact taken: the claim is released and the reply sent again.
  lemma FalseRefusal(k: Kind, env: Env) returns (s: State)
    requires !env.refusalsTrue
    ensures Reachable(Protocol(k, env), s) && |s.copies| == 2
  {
    s := Begin(k, env);
    s := Go(k, env, s, Claim(0));
    s := Go(k, env, s, Post(0, Refused, Some(Copy(0, 0, true))));
    s := Go(k, env, s, Finish(0, true));
    s := SendAgain(k, env, s, 1);
  }

  // A first send whose answer, about `copy`, was lost.
  lemma LoseAnswer(k: Kind, env: Env, copy: Option<Copy>) returns (s: State)
    requires copy.Some? ==> copy.value.claim == 0
                            && (env.staysInThread ==> copy.value.inThread)
                            && (env.clocksNear ==> copy.value.stamp > -CLOCK_SLACK)
    ensures Reachable(Protocol(k, env), s)
    ensures s == State(0, Claimed(k, UNCLAIMED, 0), map[0 := Heard(0, Lost)], map[],
                       if copy.Some? then [copy.value] else [])
  {
    s := Begin(k, env);
    s := Go(k, env, s, Claim(0));
    s := Go(k, env, s, Post(0, Lost, copy));
  }

  // It is marked unknown, and the wait for the reconciler passes.
  lemma LostAnswer(k: Kind, env: Env, copy: Option<Copy>) returns (s: State)
    requires copy.Some? ==> copy.value.claim == 0
                            && (env.staysInThread ==> copy.value.inThread)
                            && (env.clocksNear ==> copy.value.stamp > -CLOCK_SLACK)
    ensures Reachable(Protocol(k, env), s)
    ensures s == State(UNCONFIRMED_AFTER + 1, Row(Some(0), Some(0), None), map[], map[],
                       if copy.Some? then [copy.value] else [])
  {
    s := LoseAnswer(k, env, copy);
    s := Go(k, env, s, Finish(0, true));
    assert s.workers == map[];
    s := Go(k, env, s, Wait(UNCONFIRMED_AFTER + 1));
  }

  // One whole pass over a claim of time 0, told that Gmail has nothing: the claim is released.
  lemma Deny(k: Kind, env: Env, s: State) returns (t: State)
    requires Reachable(Protocol(k, env), s) && s.passes == map[] && s.row == Row(Some(0), Some(0), None)
    requires s.now == UNCONFIRMED_AFTER + 1
    requires !env.showsAccepted || forall c :: c in s.copies ==> !IsListed(c, 0)
    ensures Reachable(Protocol(k, env), t) && t == s.(row := UNCLAIMED)
  {
    t := Go(k, env, s, StartPass(0));
    assert t == s.(passes := map[0 := Read(0)]);
    t := Go(k, env, t, AskGmail(0, None));
    assert t == s.(passes := map[0 := Told(0, None)]);
    t := Go(k, env, t, Settle(0));
    assert t.passes == map[];
  }

  // Asked about when Gmail does not list it, the copy is sent again.
  lemma LostThenDenied(k: Kind, env: Env, copy: Copy) returns (s: State)
    requires copy.claim == 0
    requires env.staysInThread ==> copy.inThread
    requires env.clocksNear ==> copy.stamp > -CLOCK_SLACK
    requires !env.showsAccepted || !IsListed(copy, 0)
    ensures Reachable(Protocol(k, env), s) && |s.copies| == 2
  {
    s := LostAnswer(k, env, Some(copy));
    s := Deny(k, env, s);
    s := SendAgain(k, env, s, 1);
  }

  // Two passes read the same mark.
  lemma BothRead(k: Kind, env: Env) returns (s: State)
    requires !env.onePass
    ensures Reachable(Protocol(k, env), s)
    ensures s == State(UNCONFIRMED_AFTER + 1, Row(Some(0), Some(0), None), map[], map[0 := Read(0), 1 := Read(0)], [])
  {
    s := LostAnswer(k, env, None);
    s := Go(k, env, s, StartPass(0));
    assert s.passes == map[0 := Read(0)];
    s := Go(k, env, s, StartPass(1));
  }

  // Both are told that Gmail has nothing, and the first releases the claim.
  lemma FirstOfTwoPasses(k: Kind, env: Env) returns (s: State)
    requires !env.onePass
    ensures Reachable(Protocol(k, env), s)
    ensures s == State(UNCONFIRMED_AFTER + 1, UNCLAIMED, map[], map[1 := Told(0, None)], [])
  {
    s := BothRead(k, env);
    s := Go(k, env, s, AskGmail(0, None));
    s := Go(k, env, s, AskGmail(1, None));
    s := Go(k, env, s, Settle(0));
    assert s.passes == map[1 := Told(0, None)];
  }

  // The second then settles the claim made meanwhile: its guard does not say which claim it had asked about.
  lemma TwoPasses(k: Kind, env: Env) returns (s: State)
    requires !env.onePass
    ensures Reachable(Protocol(k, env), s) && |s.copies| == 2
  {
    s := FirstOfTwoPasses(k, env);
    s := SendAgain(k, env, s, 1);
    s := Go(k, env, s, Finish(1, true));
    assert s.workers == map[] && s.passes[1] == Told(0, None);
    s := Go(k, env, s, Settle(1));
    assert s.row == UNCLAIMED;
    s := SendAgain(k, env, s, 2);
  }

  // A reply's claim is marked unknown from the start, so a request still on its way is released under it.
  lemma SlowReply(env: Env) returns (s: State)
    requires !env.endsInTime
    ensures Reachable(Protocol(Reply, env), s) && |s.copies| == 2
  {
    s := Begin(Reply, env);
    s := Go(Reply, env, s, Claim(0));
    s := Go(Reply, env, s, Wait(UNCONFIRMED_AFTER + 1));
    assert s == State(UNCONFIRMED_AFTER + 1, Row(Some(0), Some(0), None), map[0 := Sending(0)], map[], []);
    s := Deny(Reply, env, s);
    s := SendAgain(Reply, env, s, 1);
    s := Go(Reply, env, s, Post(0, Lost, Some(Copy(0, 0, true))));
  }

  /**
   Gmail accepts at most one copy in every run exactly when refusals are true, the copy joins its thread, clocks
   agree within the slack, an accepted copy is listed, passes do not overlap and, for replies only, a request is
   over before the reconciler may read its claim.
   */
  lemma AtMostOneCopyExactly(k: Kind, env: Env)
    ensures AtMostOneCopy(k, env) <==> Needed(k, env)
  {
    if Needed(k, env) {
      AtMostOneCopyHolds(k, env);
    } else {
      var s;
      if !env.refusalsTrue {
        s := FalseRefusal(k, env);
      } else if !env.staysInThread {
        s := LostThenDenied(k, env, Copy(0, 0, false));
      } else if !env.clocksNear {
        s := LostThenDenied(k, env, Copy(0, -CLOCK_SLACK, true));
      } else if !env.showsAccepted {
        s := LostThenDenied(k, env, Copy(0, 0, true));
      } else if !env.onePass {
        s := TwoPasses(k, env);
      } else {
        s := SlowReply(env);
      }
    }
  }
}
