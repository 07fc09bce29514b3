/**
 Drafting in the background: a pass leases a batch of emails, drafts them one after another and gives each lease
 back, whoever holds it by then. The agent's answers, and the owner's refinements, are written only while the email
 is unsent.
 */
module Drafting {
  import opened Common
  import opened Runs

  const LEASE: Time := 3 * MINUTE
  const MAX_ATTEMPTS: nat := 5

  // draft stands for every column the answer writes: text, summary, sources, verdict and tone together.
  datatype Row = Row(isDraftable: bool, isGenerated: bool, attempts: nat, leasedUntil: Option<Time>,
                     sentAt: Option<Time>, draft: nat)

  predicate IsFree(row: Row, now: Time) {
    row.leasedUntil.None? || row.leasedUntil.value < now
  }

  predicate MayDraft(row: Row, now: Time) {
    !row.isGenerated && row.isDraftable && row.attempts < MAX_ATTEMPTS && IsFree(row, now)
  }

  // Nothing: not loaded, refused by policy, raised, or kept because a reviewed draft is better than a refusal.
  datatype Answer = Nothing | Usable(draft: nat, hasText: bool) | Unusable

  function Unsent(row: Row, changed: Row): Row {
    if row.sentAt.None? then changed else row
  }

  function Answered(row: Row, answer: Answer): Row {
    match answer
    case Nothing => row
    case Usable(draft, _) => Unsent(row, row.(draft := draft, isGenerated := true))
    case Unusable => Unsent(row, row.(attempts := row.attempts + 1))
  }

  function Drafted(row: Row, answer: Answer): Row {
    Answered(row, answer).(leasedUntil := None)
  }

  predicate IsStored(row: Row, answer: Answer) {
    answer.Usable? && answer.hasText && row.sentAt.None?
  }

  function CountStored(rows: seq<Row>, answers: seq<Answer>): nat
    requires |rows| == |answers|
  {
    if rows == [] then 0
    else
      var n := |rows| - 1;
      CountStored(rows[..n], answers[..n]) + if IsStored(rows[n], answers[n]) then 1 else 0
  }

  class Email {
    var isDraftable: bool
    var isGenerated: bool
    var attempts: nat
    var leasedUntil: Option<Time>
    var sentAt: Option<Time>
    var draft: nat

    function View(): Row
      reads this
    {
      Row(isDraftable, isGenerated, attempts, leasedUntil, sentAt, draft)
    }

    constructor (isDraftable: bool)
      ensures View() == Row(isDraftable, false, 0, None, None, 0)
    {
      this.isDraftable, isGenerated, attempts, leasedUntil, sentAt, draft := isDraftable, false, 0, None, None, 0;
    }

    method Claim(now: Time) returns (isClaimed: bool)
      modifies this`leasedUntil
      ensures isClaimed <==> MayDraft(old(View()), now)
      ensures isClaimed <==>
        && !isGenerated && isDraftable && attempts < 5 && old(leasedUntil.None? || leasedUntil.value < now)
      ensures View() == if isClaimed then old(View()).(leasedUntil := Some(now + 3 * MINUTE)) else old(View())
    {
      isClaimed := MayDraft(View(), now);
      if isClaimed {
        leasedUntil := Some(now + LEASE);
      }
    }

    // On the row's id alone: it does not ask whose lease this is.
    method ReleaseDrafting()
      modifies this`leasedUntil
      ensures leasedUntil.None?
    {
      leasedUntil := None;
    }

    method GenerateAndStore(answer: Answer) returns (isStored: bool)
      modifies this`draft, this`isGenerated, this`attempts
      ensures View() == Answered(old(View()), answer)
      ensures isStored <==> sentAt.None? && answer.Usable? && answer.hasText
      ensures sentAt.None? && answer.Usable? ==> draft == answer.draft && isGenerated && attempts == old(attempts)
      ensures sentAt.None? && answer.Unusable? ==>
        attempts == old(attempts) + 1 && draft == old(draft) && isGenerated == old(isGenerated)
      ensures sentAt.Some? || answer.Nothing? ==> View() == old(View())
    {
      isStored := false;
      if sentAt.None? {
        match answer
        case Nothing =>
        case Usable(text, hasText) =>
          draft, isGenerated := text, true;
          isStored := hasText;
        case Unusable => attempts := attempts + 1;
      }
    }

    // The lease is given back whatever became of the draft.
    method DraftAndRelease(answer: Answer) returns (isStored: bool)
      modifies this
      ensures View() == Drafted(old(View()), answer)
      ensures isStored <==> IsStored(old(View()), answer)
    {
      isStored := GenerateAndStore(answer);
      ReleaseDrafting();
    }
  }

  // The batch loop: one email's failure leaves the rest to be drafted, and every lease is given back.
  method DraftClaimed(claimed: seq<Email>, answers: seq<Answer>) returns (generated: nat)
    requires |answers| == |claimed|
    requires forall i, j :: 0 <= i < j < |claimed| ==> claimed[i] != claimed[j]
    modifies claimed
    ensures forall i :: 0 <= i < |claimed| ==> claimed[i].View() == Drafted(old(claimed[i].View()), answers[i])
    ensures generated == |set i | 0 <= i < |answers| && IsStored(old(Views(claimed))[i], answers[i])|
  {
    generated := 0;
    ghost var before := Views(claimed);
    for n := 0 to |claimed|
      invariant forall i :: 0 <= i < n ==> claimed[i].View() == Drafted(old(claimed[i].View()), answers[i])
      invariant forall i :: n <= i < |claimed| ==> claimed[i].View() == old(claimed[i].View())
      invariant generated == CountStored(before[..n], answers[..n])
    {
      var isStored := claimed[n].DraftAndRelease(answers[n]);
      OneMoreCounted(before, answers, n);
      if isStored {
        generated := generated + 1;
      }
    }
    assert before[..|claimed|] == before && answers[..|claimed|] == answers;
    CountsStored(before, answers);
  }

  lemma OneMoreCounted(rows: seq<Row>, answers: seq<Answer>, n: nat)
    requires |rows| == |answers| && n < |rows|
    ensures CountStored(rows[..n + 1], answers[..n + 1])
         == CountStored(rows[..n], answers[..n]) + if IsStored(rows[n], answers[n]) then 1 else 0
  {
    assert rows[..n + 1][..n] == rows[..n] && answers[..n + 1][..n] == answers[..n];
  }

  lemma {:induction false} CountsStored(rows: seq<Row>, answers: seq<Answer>)
    requires |rows| == |answers|
    ensures CountStored(rows, answers) == |set i | 0 <= i < |answers| && IsStored(rows[i], answers[i])|
  {
    var all := set i | 0 <= i < |answers| && IsStored(rows[i], answers[i]);
    if rows == [] {
      assert all == {};
    } else {
      var n := |rows| - 1;
      var before := set i | 0 <= i < n && IsStored(rows[..n][i], answers[..n][i]);
      CountsStored(rows[..n], answers[..n]);
      assert all == before + if IsStored(rows[n], answers[n]) then {n} else {};
    }
  }

  ghost function Views(emails: seq<Email>): (views: seq<Row>)
    reads emails
    ensures |views| == |emails| && forall i :: 0 <= i < |emails| ==> views[i] == emails[i].View()
  {
    if emails == [] then [] else Views(emails[..|emails| - 1]) + [emails[|emails| - 1].View()]
  }

  // ---------- Every interleaving ----------

  // How many emails a pass leases at most (None: the script, no limit), and how long the slowest draft takes.
  datatype Env = Env(limit: Option<nat>, slowest: Time)

  // A pass on its batch: startedAt is when it turned to left[0].
  datatype Pass = Pass(claimedAt: Time, startedAt: Time, left: seq<int>)

  datatype State = State(now: Time, rows: map<int, Row>, passes: map<nat, Pass>)

  datatype Step =
    | Wait(until: Time)
    | Arrive(id: int, isDraftable: bool)
    | Claim(p: nat, ids: seq<int>)
    | Finish(p: nat, answer: Answer)
    | Crash(p: nat)
    | Regenerate(id: int, answer: Answer)
    | Refine(id: int, draft: nat)
    | ClaimSend(id: int)
    | ReleaseSend(id: int)

  const INIT := State(0, map[], map[])

  predicate AreDistinct(ids: seq<int>) {
    forall i, j :: 0 <= i < j < |ids| ==> ids[i] != ids[j]
  }

  predicate Enabled(env: Env, s: State, step: Step) {
    match step
    case Wait(until) => s.now <= until && forall p | p in s.passes :: until <= s.passes[p].startedAt + env.slowest
    case Arrive(id, _) => id !in s.rows
    case Claim(p, ids) =>
      && p !in s.passes && ids != [] && AreDistinct(ids) && (env.limit.Some? ==> |ids| <= env.limit.value)
      && forall id | id in ids :: id in s.rows && MayDraft(s.rows[id], s.now)
    case Finish(p, _) => p in s.passes && s.passes[p].left != [] && s.passes[p].left[0] in s.rows
    case Crash(p) => p in s.passes
    case Regenerate(id, _) => id in s.rows
    case Refine(id, _) => id in s.rows
    case ClaimSend(id) => id in s.rows && s.rows[id].sentAt.None?
    case ReleaseSend(id) => id in s.rows
  }

  function Leased(rows: map<int, Row>, ids: seq<int>, now: Time): map<int, Row> {
    map id | id in rows :: if id in ids then rows[id].(leasedUntil := Some(now + LEASE)) else rows[id]
  }

  function Apply(env: Env, s: State, step: Step): State
    requires Enabled(env, s, step)
  {
    match step
    case Wait(until) => s.(now := until)
    case Arrive(id, isDraftable) => s.(rows := s.rows[id := Row(isDraftable, false, 0, None, None, 0)])
    case Claim(p, ids) =>
      s.(rows := Leased(s.rows, ids, s.now), passes := s.passes[p := Pass(s.now, s.now, ids)])
    case Finish(p, answer) =>
      var pass := s.passes[p];
      var id := pass.left[0];
      s.(rows := s.rows[id := Drafted(s.rows[id], answer)],
         passes := if |pass.left| == 1 then s.passes - {p}
                   else s.passes[p := pass.(startedAt := s.now, left := pass.left[1..])])
    case Crash(p) => s.(passes := s.passes - {p})
    case Regenerate(id, answer) => s.(rows := s.rows[id := Answered(s.rows[id], answer)])
    case Refine(id, draft) => s.(rows := s.rows[id := Unsent(s.rows[id], s.rows[id].(draft := draft))])
    case ClaimSend(id) => s.(rows := s.rows[id := s.rows[id].(sentAt := Some(s.now))])
    case ReleaseSend(id) => s.(rows := s.rows[id := s.rows[id].(sentAt := None)])
  }

  ghost function Protocol(env: Env): System<State> {
    System(s => s == INIT, (s, t) => exists step :: Enabled(env, s, step) && t == Apply(env, s, step))
  }

  // ---------- Who holds an email ----------

  predicate OneHolder(s: State) {
    forall p, q, id | p in s.passes && q in s.passes && p != q && id in s.passes[p].left :: id !in s.passes[q].left
  }

  predicate FitsTheLease(env: Env) {
    env.limit.Some? && env.limit.value * env.slowest <= LEASE
  }

  // A pass that keeps its pace: its emails carry its own lease, and it will be through them before that ends.
  predicate IsOnTime(env: Env, s: State, pass: Pass) {
    && AreDistinct(pass.left) && pass.left != []
    && s.now <= pass.startedAt + env.slowest
    && pass.startedAt + |pass.left| * env.slowest <= pass.claimedAt + LEASE
    && forall id | id in pass.left :: id in s.rows && s.rows[id].leasedUntil == Some(pass.claimedAt + LEASE)
  }

  predicate Inv(env: Env, s: State) {
    OneHolder(s) && forall p | p in s.passes :: IsOnTime(env, s, s.passes[p])
  }

  lemma OneMore(n: int, d: int)
    requires n >= 1 && d > 0
    ensures n * d == (n - 1) * d + d && n * d >= d
  {
    assert (n - 1) * d >= 0;
  }

  lemma HeldIsNotFree(env: Env, s: State, p: nat, id: int)
    requires env.slowest > 0 && Inv(env, s) && p in s.passes && id in s.passes[p].left
    ensures id in s.rows && !IsFree(s.rows[id], s.now)
  {
    OneMore(|s.passes[p].left|, env.slowest);
  }

  lemma ClaimKeepsInv(env: Env, s: State, p: nat, ids: seq<int>)
    requires env.slowest > 0 && FitsTheLease(env) && Inv(env, s) && Enabled(env, s, Claim(p, ids))
    ensures Inv(env, Apply(env, s, Claim(p, ids)))
  {
    var t := Apply(env, s, Claim(p, ids));
    forall q, id | q in s.passes && id in s.passes[q].left ensures id !in ids {
      HeldIsNotFree(env, s, q, id);
    }
    assert |ids| * env.slowest <= env.limit.value * env.slowest by {
      assert (env.limit.value - |ids|) * env.slowest >= 0;
    }
    forall q | q in t.passes ensures IsOnTime(env, t, t.passes[q]) {
      if q != p {
        assert IsOnTime(env, s, s.passes[q]);
      }
    }
  }

  lemma FinishKeepsInv(env: Env, s: State, p: nat, answer: Answer)
    requires env.slowest > 0 && Inv(env, s) && Enabled(env, s, Finish(p, answer))
    ensures Inv(env, Apply(env, s, Finish(p, answer)))
  {
    var t := Apply(env, s, Finish(p, answer));
    var pass := s.passes[p];
    assert IsOnTime(env, s, pass);
    OneMore(|pass.left|, env.slowest);
    assert pass.left[0] in pass.left && pass.left[0] !in pass.left[1..];
    forall q | q in t.passes ensures IsOnTime(env, t, t.passes[q]) {
      assert IsOnTime(env, s, s.passes[q]);
    }
  }

  lemma StepKeepsInv(env: Env, s: State, step: Step)
    requires env.slowest > 0 && FitsTheLease(env) && Inv(env, s) && Enabled(env, s, step)
    ensures Inv(env, Apply(env, s, step))
  {
    match step
    case Claim(p, ids) => ClaimKeepsInv(env, s, p, ids);
    case Finish(p, answer) => FinishKeepsInv(env, s, p, answer);
    case _ =>
      var t := Apply(env, s, step);
      forall q | q in t.passes ensures IsOnTime(env, t, t.passes[q]) {
        assert IsOnTime(env, s, s.passes[q]);
      }
  }

  lemma ReachableIsOnTime(env: Env, s: State)
    requires env.slowest > 0 && FitsTheLease(env) && Reachable(Protocol(env), s)
    ensures Inv(env, s)
  {
    forall a, b | Inv(env, a) && Protocol(env).next(a, b) ensures Inv(env, b) {
      var step :| Enabled(env, a, step) && b == Apply(env, a, step);
      StepKeepsInv(env, a, step);
    }
    Always(Protocol(env), a => Inv(env, a), s);
  }

  // ---------- When a pass does not fit in its lease ----------

  function Fresh(): Row {
    Row(true, false, 0, None, None, 0)
  }

  function UpTo(k: int, n: int): (ids: seq<int>)
    requires k <= n
    ensures |ids| == n - k && forall i :: 0 <= i < n - k ==> ids[i] == k + i
    ensures forall id :: id in ids <==> k <= id < n
    decreases n - k
  {
    if k == n then [] else [k] + UpTo(k + 1, n)
  }

  // n emails: the first k are free, the others were leased at time zero.
  function Emails(n: nat, k: nat): (rows: map<int, Row>)
    ensures forall id :: id in rows <==> 0 <= id < n
    ensures forall id :: id in rows ==> rows[id] == if id < k then Fresh() else Fresh().(leasedUntil := Some(LEASE))
  {
    if n == 0 then map[]
    else Emails(n - 1, k)[n - 1 := if n - 1 < k then Fresh() else Fresh().(leasedUntil := Some(LEASE))]
  }

  // One pass leased them all; it has drafted the first k, to no effect.
  function Through(n: nat, k: nat, d: Time): State
    requires k < n
  {
    State(k * d, Emails(n, k), map[0 := Pass(0, k * d, UpTo(k, n))])
  }

  lemma Go(env: Env, s: State, step: Step) returns (t: State)
    requires Reachable(Protocol(env), s) && Enabled(env, s, step)
    ensures t == Apply(env, s, step) && Reachable(Protocol(env), t)
  {
    t := Apply(env, s, step);
    assert Protocol(env).next(s, t);
    Reach(Protocol(env), s, t);
  }

  function Inbox(n: nat): State {
    State(0, Emails(n, n), map[])
  }

  lemma {:induction false} FillInbox(env: Env, n: nat)
    ensures Reachable(Protocol(env), Inbox(n))
  {
    if n == 0 {
      Start(Protocol(env), INIT);
      assert Inbox(0).rows == INIT.rows;
    } else {
      FillInbox(env, n - 1);
      var t := Go(env, Inbox(n - 1), Arrive(n - 1, true));
      assert t.rows == Inbox(n).rows;
    }
  }

  lemma LeaseAll(env: Env, n: nat)
    requires n > 0 && (env.limit.Some? ==> n <= env.limit.value)
    ensures Reachable(Protocol(env), Through(n, 0, env.slowest))
  {
    FillInbox(env, n);
    var t := Go(env, Inbox(n), Claim(0, UpTo(0, n)));
    assert t.rows == Emails(n, 0);
  }

  lemma OneThrough(env: Env, n: nat, k: nat, s: State)
    requires env.slowest > 0 && k + 1 < n && s == Through(n, k, env.slowest).(now := (k + 1) * env.slowest)
    ensures Enabled(env, s, Finish(0, Nothing))
    ensures Apply(env, s, Finish(0, Nothing)) == Through(n, k + 1, env.slowest)
  {
    assert UpTo(k, n)[0] == k && UpTo(k, n)[1..] == UpTo(k + 1, n);
    assert Apply(env, s, Finish(0, Nothing)).rows == Emails(n, k + 1);
  }

  lemma {:induction false} WorkThrough(env: Env, n: nat, k: nat)
    requires env.slowest > 0 && k < n && (env.limit.Some? ==> n <= env.limit.value)
    ensures Reachable(Protocol(env), Through(n, k, env.slowest))
  {
    if k == 0 {
      LeaseAll(env, n);
    } else {
      WorkThrough(env, n, k - 1);
      OneMore(k, env.slowest);
      var s := Go(env, Through(n, k - 1, env.slowest), Wait(k * env.slowest));
      OneThrough(env, n, k - 1, s);
      var t := Go(env, s, Finish(0, Nothing));
    }
  }

  lemma TwoHolders(env: Env, n: nat) returns (s: State)
    requires env.slowest > 0 && n > 0 && (env.limit.Some? ==> n <= env.limit.value) && n * env.slowest > LEASE
    ensures Reachable(Protocol(env), s) && !OneHolder(s)
  {
    var d := env.slowest;
    WorkThrough(env, n, n - 1);
    OneMore(n, d);
    s := Through(n, n - 1, d);
    assert UpTo(n - 1, n) == [n - 1];
    s := Go(env, s, Wait(n * d));
    assert s.rows[n - 1] == Fresh().(leasedUntil := Some(LEASE));
    s := Go(env, s, Claim(1, [n - 1]));
    assert n - 1 in s.passes[0].left && n - 1 in s.passes[1].left;
  }

  /**
   No two passes ever hold the same email, exactly when a whole batch drafted at the slowest pace fits into one
   lease: it is not enough that each single draft does.
   */
  lemma ExclusiveExactly(env: Env)
    requires env.slowest > 0
    ensures (forall s :: Reachable(Protocol(env), s) ==> OneHolder(s)) <==> FitsTheLease(env)
  {
    if FitsTheLease(env) {
      forall s | Reachable(Protocol(env), s) ensures OneHolder(s) {
        ReachableIsOnTime(env, s);
      }
    } else {
      var n: nat := if env.limit.Some? then env.limit.value else LEASE + 1;
      assert n * env.slowest > LEASE by {
        assert env.limit.None? ==> (n - 1) * (env.slowest - 1) >= 0;
      }
      var s := TwoHolders(env, n);
    }
  }

  // The agent's deadline and the margin on top of it, and what the worker leases at once.
  const SLOWEST_DRAFT: Time := 100 * SECOND + 20 * SECOND
  const DRAFTS_PER_PASS: nat := 2
  const REQUESTED_DRAFTS_PER_PASS: nat := 3

  // As configured the lease outlasts one draft but not a batch, so two passes can hold one email.
  lemma PassesOverlapAsConfigured(limit: nat) returns (s: State)
    requires limit == DRAFTS_PER_PASS || limit == REQUESTED_DRAFTS_PER_PASS
    ensures FitsTheLease(Env(Some(1), SLOWEST_DRAFT))
    ensures Reachable(Protocol(Env(Some(limit), SLOWEST_DRAFT)), s) && !OneHolder(s)
  {
    s := TwoHolders(Env(Some(limit), SLOWEST_DRAFT), limit);
  }

  // Where a batch does fit, the lease a pass gives back is always its own, and not yet over.
  lemma ReleasesItsOwnLease(env: Env, s: State, p: nat)
    requires env.slowest > 0 && FitsTheLease(env) && Reachable(Protocol(env), s) && p in s.passes
    ensures s.passes[p].left != [] && s.passes[p].left[0] in s.rows
    ensures s.rows[s.passes[p].left[0]].leasedUntil == Some(s.passes[p].claimedAt + LEASE)
    ensures s.now <= s.passes[p].claimedAt + LEASE
  {
    ReachableIsOnTime(env, s);
    var pass := s.passes[p];
    assert IsOnTime(env, s, pass) && pass.left[0] in pass.left;
    OneMore(|pass.left|, env.slowest);
  }

  // ---------- What a step does to the rows ----------

  predicate Names(s: State, step: Step, id: int)
    requires step.Finish? ==> step.p in s.passes && s.passes[step.p].left != []
  {
    match step
    case Arrive(i, _) => i == id
    case Claim(_, ids) => id in ids
    case Finish(p, _) => s.passes[p].left[0] == id
    case Regenerate(i, _) => i == id
    case Refine(i, _) => i == id
    case ClaimSend(i) => i == id
    case ReleaseSend(i) => i == id
    case _ => false
  }

  // No step changes an email it does not name, and a pass leases each of its batch for three minutes.
  lemma OnlyNamedChange(env: Env, s: State, step: Step, id: int)
    requires Enabled(env, s, step) && id in s.rows
    ensures var rows := Apply(env, s, step).rows;
            && id in rows && (!Names(s, step, id) ==> rows[id] == s.rows[id])
            && (step.Claim? && id in step.ids ==> rows[id] == s.rows[id].(leasedUntil := Some(s.now + 3 * MINUTE)))
  {
  }

  /**
   An unsent email takes what it is given: a usable answer of a pass, which gives its lease back, or of a
   regeneration, and a refinement; an unusable answer adds one attempt to it.
   */
  lemma UnsentTakesAnswers(env: Env, s: State, step: Step, id: int)
    requires Enabled(env, s, step) && id in s.rows && s.rows[id].sentAt.None? && Names(s, step, id)
    requires step.Finish? || step.Regenerate? || step.Refine?
    ensures var row, was := Apply(env, s, step).rows[id], s.rows[id];
            && (step.Refine? ==> row == was.(draft := step.draft))
            && (!step.Refine? && step.answer.Usable? ==>
                  row.draft == step.answer.draft && row.isGenerated && row.attempts == was.attempts)
            && (!step.Refine? && step.answer.Unusable? ==>
                  row.draft == was.draft && row.isGenerated == was.isGenerated && row.attempts == was.attempts + 1)
            && (!step.Refine? && step.answer.Nothing? ==>
                  row.draft == was.draft && row.isGenerated == was.isGenerated && row.attempts == was.attempts)
            && row.leasedUntil == if step.Finish? then None else was.leasedUntil
  {
  }

  // ---------- Answers after the send was claimed ----------

  // Every step but the one that gives this email's send claim up.
  ghost function WhileSent(env: Env, id: int): System<State> {
    System(s => s == INIT,
           (s, t) => exists step :: Enabled(env, s, step) && step != ReleaseSend(id) && t == Apply(env, s, step))
  }

  predicate IsStill(s: State, id: int, was: Row) {
    id in s.rows && s.rows[id].sentAt.Some? && s.rows[id].(leasedUntil := None) == was.(leasedUntil := None)
  }

  lemma StaysStill(env: Env, s: State, step: Step, id: int, was: Row)
    requires IsStill(s, id, was) && Enabled(env, s, step) && step != ReleaseSend(id)
    ensures IsStill(Apply(env, s, step), id, was)
  {
  }

  // While a send claim stands, no answer and no refinement changes anything of the email but its lease.
  lemma SentIsNotRewritten(env: Env, s: State, t: State, id: int)
    requires id in s.rows && s.rows[id].sentAt.Some? && Leads(WhileSent(env, id), s, t)
    ensures IsStill(t, id, s.rows[id])
  {
    var was := s.rows[id];
    forall a, b | IsStill(a, id, was) && WhileSent(env, id).next(a, b) ensures IsStill(b, id, was) {
      var step :| Enabled(env, a, step) && step != ReleaseSend(id) && b == Apply(env, a, step);
      StaysStill(env, a, step, id, was);
    }
    Onward(WhileSent(env, id), a => IsStill(a, id, was), s, t);
  }
}
