/**
 New emails composed and sent by hand: one draft's row, whose state is read from its columns and the clock, and
 every interleaving of its edits, AI answers, sends, crashes, deletions and settlements.
 */
module ComposeDrafts {
  import opened Common
  import opened Runs

  // The age up to which a claim without an outcome reads as a send under way.
  const SEND_IN_FLIGHT: Time := 10 * MINUTE

  datatype DraftState = Draft | Sending | OutcomeUnknown | Sent

  // version stands for what was written: addresses, subject, brief, body, tone and vault together.
  datatype Row = Row(version: nat, updatedAt: Time, claimedAt: Option<Time>, unknownAt: Option<Time>,
                     sentAt: Option<Time>)

  function StateOf(row: Row, now: Time): DraftState {
    if row.sentAt.Some? then Sent
    else if row.claimedAt.None? then Draft
    else if row.claimedAt.value > now - SEND_IN_FLIGHT then Sending
    else OutcomeUnknown
  }

  function Applied(row: Row, version: nat, stamp: Time): Row {
    row.(version := version, updatedAt := stamp)
  }

  function Claimed(row: Row, now: Time): Row {
    row.(claimedAt := Some(now), unknownAt := Some(now))
  }

  // Backdated, the claim counts as one of unknown outcome at once and not only after the window.
  function EndedInFlight(row: Row, now: Time): Row {
    row.(claimedAt := Some(now - SEND_IN_FLIGHT))
  }

  function Released(row: Row): Row {
    row.(claimedAt := None, unknownAt := None)
  }

  function Recorded(row: Row, now: Time, stamp: Time): Row {
    row.(sentAt := Some(now), unknownAt := None, updatedAt := stamp)
  }

  function SettledAs(row: Row, isSent: bool, now: Time, stamp: Time): Row {
    if isSent then row.(sentAt := Some(now), unknownAt := None, updatedAt := stamp)
    else row.(claimedAt := None, unknownAt := None, updatedAt := stamp)
  }

  // The optimistic write-back of an AI answer.
  predicate TakesAnswer(row: Row, preparedAt: Time) {
    row.claimedAt.None? && row.sentAt.None? && row.updatedAt == preparedAt
  }

  datatype Refusal = AlreadySent | SendInProgress | NotSendable | Conflict
  datatype Result = Done | Denied(code: Refusal)

  class ComposeDraft {
    var version: nat
    var updatedAt: Time
    var claimedAt: Option<Time>
    var unknownAt: Option<Time>
    var sentAt: Option<Time>

    function View(): Row
      reads this
    {
      Row(version, updatedAt, claimedAt, unknownAt, sentAt)
    }

    constructor (now: Time)
      ensures View() == Row(0, now, None, None, None)
    {
      version, updatedAt, claimedAt, unknownAt, sentAt := 0, now, None, None, None;
    }

    function Editable(now: Time): Result
      reads this
    {
      match StateOf(View(), now)
      case Sent => Denied(AlreadySent)
      case Draft => Done
      case _ => Denied(SendInProgress)
    }

    method Update(typed: nat, now: Time) returns (r: Result)
      modifies this
      ensures r == if old(sentAt).Some? then Denied(AlreadySent)
                   else if old(claimedAt).Some? then Denied(SendInProgress) else Done
      ensures View() == if r.Done? then Applied(old(View()), typed, now) else old(View())
      ensures r.Done? ==> version == typed && updatedAt == now
      ensures claimedAt == old(claimedAt) && unknownAt == old(unknownAt) && sentAt == old(sentAt)
    {
      r := Editable(now);
      if r.Done? {
        version, updatedAt := typed, now;
      }
    }

    // A draft already sent answers as sent; otherwise it is saved and claimed together, or neither.
    method Claim(typed: nat, isSendable: bool, now: Time) returns (r: Result)
      modifies this
      ensures r == Denied(AlreadySent) <==> old(sentAt).Some?
      ensures r.Done? <==> old(sentAt).None? && old(claimedAt).None? && isSendable
      ensures r == Denied(SendInProgress) <==> old(sentAt).None? && old(claimedAt).Some?
      ensures r.Done? ==> View() == Row(typed, now, Some(now), Some(now), None)
      ensures View() == if r.Done? then Claimed(Applied(old(View()), typed, now), now) else old(View())
      ensures r.Done? ==> StateOf(View(), now).Sending?
    {
      r := Editable(now);
      if r.Done? {
        if !isSendable {
          return Denied(NotSendable);
        }
        version, updatedAt := typed, now;
        claimedAt, unknownAt := Some(now), Some(now);
      }
    }

    method EndInFlight(now: Time)
      modifies this
      ensures View() == EndedInFlight(old(View()), now)
      ensures View() == old(View()).(claimedAt := Some(now - 10 * MINUTE))
      ensures sentAt.None? ==> StateOf(View(), now).OutcomeUnknown?
    {
      claimedAt := Some(now - SEND_IN_FLIGHT);
    }

    method Release()
      modifies this
      ensures View() == Released(old(View()))
      ensures View() == old(View()).(claimedAt := None, unknownAt := None)
    {
      claimedAt, unknownAt := None, None;
    }

    method Record(now: Time)
      modifies this
      ensures View() == Recorded(old(View()), now, now) && StateOf(View(), now).Sent?
      ensures View() == old(View()).(sentAt := Some(now), unknownAt := None, updatedAt := now)
    {
      sentAt, unknownAt, updatedAt := Some(now), None, now;
    }

    method Settle(isSent: bool, now: Time) returns (r: Result)
      modifies this
      ensures r.Done? <==> old(sentAt).None? && old(claimedAt).Some? && now - old(claimedAt.value) >= 10 * MINUTE
      ensures r.Done? ==> version == old(version) && unknownAt.None? && updatedAt == now
      ensures r.Done? ==> if isSent then sentAt == Some(now) && claimedAt == old(claimedAt)
                          else sentAt.None? && claimedAt.None?
      ensures View() == if r.Done? then SettledAs(old(View()), isSent, now, now) else old(View())
      ensures r.Done? ==> StateOf(View(), now) == if isSent then Sent else Draft
    {
      if !StateOf(View(), now).OutcomeUnknown? {
        return Denied(Conflict);
      }
      if isSent {
        sentAt := Some(now);
      } else {
        claimedAt := None;
      }
      unknownAt, updatedAt := None, now;
      return Done;
    }

    method StoreAnswer(preparedAt: Time, answer: nat, now: Time) returns (r: Result)
      modifies this
      ensures r.Done? <==> old(claimedAt).None? && old(sentAt).None? && old(updatedAt) == preparedAt
      ensures View() == if r.Done? then Applied(old(View()), answer, now) else old(View())
      ensures r.Done? ==> View() == old(View()).(version := answer, updatedAt := now)
    {
      if !TakesAnswer(View(), preparedAt) {
        return Denied(Conflict);
      }
      version, updatedAt := answer, now;
      return Done;
    }

    method MayDelete(now: Time) returns (r: Result)
      ensures r.Done? <==> claimedAt.None? || sentAt.Some?
    {
      var state := StateOf(View(), now);
      r := if state.Sending? || state.OutcomeUnknown? then Denied(SendInProgress) else Done;
    }
  }

  // ---------- Every interleaving ----------

  datatype Env = Env(
    endsInTime: bool,    // a send is over within SEND_IN_FLIGHT of its claim
    refusalsTrue: bool,  // an error status means Gmail did not take it
    settlesTruly: bool,  // "not sent" is answered only when Gmail has no copy
    stampsFresh: bool)   // no two writes of the draft carry the same updated_at

  predicate Needed(env: Env) {
    env.endsInTime && env.refusalsTrue && env.settlesTruly
  }

  datatype Answer = Accepted | Refused | Lost
  // version is what the claim saved, and so what is sent.
  datatype Worker = Busy(claim: Time, version: nat) | Heard(claim: Time, version: nat, answer: Answer)
  // An AI answer on its way: the stamp and the version it was written from.
  datatype Prepared = Prepared(stamp: Time, version: nat)

  // versions: how many have been written, so the next is new. copies: the version of each copy Gmail accepted.
  datatype State = State(now: Time, row: Option<Row>, versions: nat, stamps: set<Time>, workers: map<nat, Worker>,
                         writers: map<nat, Prepared>, copies: seq<nat>)

  datatype Step =
    | Wait(until: Time)
    | Edit(stamp: Time)
    | Prepare(a: nat, stamp: Time)
    | StoreAnswer(a: nat, stamp: Time)
    | Claim(w: nat, stamp: Time)
    | Post(w: nat, answer: Answer, isAccepted: bool)
    | Finish(w: nat, isSaved: bool, stamp: Time)
    | Crash(w: nat)
    | Settle(isSent: bool, stamp: Time)
    | Delete

  predicate IsLive(env: Env, s: State, worker: Worker) {
    env.endsInTime ==> s.now < worker.claim + SEND_IN_FLIGHT
  }

  predicate IsFresh(env: Env, s: State, stamp: Time) {
    env.stampsFresh ==> stamp !in s.stamps
  }

  predicate IsIn(s: State, state: DraftState) {
    s.row.Some? && StateOf(s.row.value, s.now) == state
  }

  predicate Enabled(env: Env, s: State, step: Step) {
    match step
    case Wait(until) => s.now <= until
    case Edit(stamp) => IsIn(s, Draft) && IsFresh(env, s, stamp)
    case Prepare(a, stamp) => IsIn(s, Draft) && a !in s.writers && IsFresh(env, s, stamp)
    case StoreAnswer(a, stamp) => a in s.writers && IsFresh(env, s, stamp)
    case Claim(w, stamp) => IsIn(s, Draft) && w !in s.workers && IsFresh(env, s, stamp)
    case Post(w, answer, isAccepted) =>
      && w in s.workers && s.workers[w].Busy? && IsLive(env, s, s.workers[w])
      && (answer.Accepted? ==> isAccepted)
      && (answer.Refused? && env.refusalsTrue ==> !isAccepted)
    case Finish(w, _, stamp) =>
      w in s.workers && s.workers[w].Heard? && IsLive(env, s, s.workers[w]) && IsFresh(env, s, stamp)
    case Crash(w) => w in s.workers
    case Settle(isSent, stamp) =>
      IsIn(s, OutcomeUnknown) && IsFresh(env, s, stamp) && (env.settlesTruly && !isSent ==> s.copies == [])
    case Delete => IsIn(s, Draft) || IsIn(s, Sent)
  }

  function Write(s: State, stamp: Time): State
    requires s.row.Some?
  {
    s.(row := Some(Applied(s.row.value, s.versions, stamp)), versions := s.versions + 1, stamps := s.stamps + {stamp})
  }

  function FinishedRow(row: Row, answer: Answer, now: Time, isSaved: bool, stamp: Time): Row {
    match answer
    case Accepted => if isSaved then Recorded(row, now, stamp) else row
    case Refused => Released(row)
    case Lost => EndedInFlight(row, now)
  }

  function Apply(env: Env, s: State, step: Step): State
    requires Enabled(env, s, step)
  {
    match step
    case Wait(until) => s.(now := until)
    case Edit(stamp) => Write(s, stamp)
    case Prepare(a, stamp) => Write(s, stamp).(writers := s.writers[a := Prepared(stamp, s.versions)])
    case StoreAnswer(a, stamp) =>
      (if s.row.Some? && TakesAnswer(s.row.value, s.writers[a].stamp) then Write(s, stamp) else s)
      .(writers := s.writers - {a})
    case Claim(w, stamp) =>
      var saved := Write(s, stamp);
      saved.(row := Some(Claimed(saved.row.value, s.now)), workers := s.workers[w := Busy(s.now, s.versions)])
    case Post(w, answer, isAccepted) =>
      s.(workers := s.workers[w := Heard(s.workers[w].claim, s.workers[w].version, answer)],
         copies := if isAccepted then s.copies + [s.workers[w].version] else s.copies)
    case Finish(w, isSaved, stamp) =>
      s.(row := if s.row.None? then None
                else Some(FinishedRow(s.row.value, s.workers[w].answer, s.now, isSaved, stamp)),
         stamps := s.stamps + {stamp}, workers := s.workers - {w})
    case Crash(w) => s.(workers := s.workers - {w})
    case Settle(isSent, stamp) =>
      s.(row := Some(SettledAs(s.row.value, isSent, s.now, stamp)), stamps := s.stamps + {stamp})
    case Delete => s.(row := None)
  }

  const INIT := State(0, Some(Row(0, 0, None, None, None)), 1, {0}, map[], map[], [])

  ghost function Protocol(env: Env): System<State> {
    System(s => s == INIT, (s, t) => exists step :: Enabled(env, s, step) && t == Apply(env, s, step))
  }

  // ---------- What a step writes ----------

  // A claim reads as a send under way for ten minutes, and from then on as one of unknown outcome.
  lemma StateOfExactly(row: Row, now: Time)
    ensures StateOf(row, now).Sent? <==> row.sentAt.Some?
    ensures StateOf(row, now).Draft? <==> row.sentAt.None? && row.claimedAt.None?
    ensures StateOf(row, now).Sending? <==>
      row.sentAt.None? && row.claimedAt.Some? && now - row.claimedAt.value < 10 * MINUTE
  {
  }

  /**
   An edit, an answer not yet outdated and a claim write a version of their own; an answer that is outdated, or comes
   too late, writes nothing. A claim puts what it wrote on its way, and a send that is recorded leaves the text.
   */
  lemma WritesLand(env: Env, s: State, step: Step)
    requires Enabled(env, s, step)
    ensures var t := Apply(env, s, step);
            && (step.Edit? || step.Prepare? || step.Claim? ==>
                  && t.row.Some? && t.row.value.version == s.versions && t.row.value.updatedAt == step.stamp
                  && t.versions == s.versions + 1)
            && (step.StoreAnswer? ==>
                  t.row == if s.row.Some? && s.row.value.claimedAt.None? && s.row.value.sentAt.None?
                              && s.row.value.updatedAt == s.writers[step.a].stamp
                           then Some(s.row.value.(version := s.versions, updatedAt := step.stamp)) else s.row)
            && (step.Claim? ==>
                  && t.row.value.claimedAt == Some(s.now) && t.row.value.unknownAt == Some(s.now)
                  && t.workers == s.workers[step.w := Busy(s.now, s.versions)])
  {
  }

  // What a heard answer does: a recorded send is sent, a refused one is a draft again, and one whose answer was lost
  // is of unknown outcome at once, each with the text it had.
  lemma FinishLands(env: Env, s: State, w: nat, isSaved: bool, stamp: Time)
    requires Enabled(env, s, Finish(w, isSaved, stamp)) && s.row.Some? && s.row.value.sentAt.None?
    ensures var t, answer := Apply(env, s, Finish(w, isSaved, stamp)), s.workers[w].answer;
            && t.row.Some? && t.row.value.version == s.row.value.version && w !in t.workers
            && (answer.Accepted? && isSaved ==> IsIn(t, Sent))
            && (answer.Accepted? && !isSaved ==> t.row == s.row)
            && (answer.Refused? ==> IsIn(t, Draft))
            && (answer.Lost? ==> IsIn(t, OutcomeUnknown))
  {
  }

  // ---------- A draft being sent, or of unknown outcome, is left alone ----------

  // Whatever is trusted: only a plain draft is rewritten, and only a plain or a sent one is deleted.
  lemma OnlyDraftsChange(env: Env, s: State, step: Step)
    requires s.row.Some? && Enabled(env, s, step)
    ensures Apply(env, s, step).row.None? ==> IsIn(s, Draft) || IsIn(s, Sent)
    ensures Apply(env, s, step).row.Some? && Apply(env, s, step).row.value.version != s.row.value.version
            ==> IsIn(s, Draft)
  {
  }

  // However long its outcome stays open, the draft is there and says what it said.
  lemma {:induction false} UntouchedUntilSettled(env: Env, trace: seq<State>)
    requires IsTrace(Protocol(env), trace)
    requires forall i :: 0 <= i < |trace| - 1 ==> IsIn(trace[i], Sending) || IsIn(trace[i], OutcomeUnknown)
    requires trace[0].row.Some?
    ensures trace[|trace| - 1].row.Some?
    ensures trace[|trace| - 1].row.value.version == trace[0].row.value.version
    decreases |trace|
  {
    if |trace| > 1 {
      var before, last := trace[|trace| - 2], trace[|trace| - 1];
      UntouchedUntilSettled(env, trace[..|trace| - 1]);
      assert Protocol(env).next(before, last);
      var step :| Enabled(env, before, step) && last == Apply(env, before, step);
      OnlyDraftsChange(env, before, step);
    }
  }

  // Sent for good: from then on the row is sent, with the same text, until it is deleted.
  lemma SentIsAbsorbing(env: Env, s: State, t: State)
    requires Leads(Protocol(env), s, t) && IsIn(s, Sent)
    ensures t.row.Some? ==> IsIn(t, Sent) && t.row.value.version == s.row.value.version
  {
    var version := s.row.value.version;
    Onward(Protocol(env), (u: State) => u.row.Some? ==> IsIn(u, Sent) && u.row.value.version == version, s, t);
  }

  // ---------- At most one copy, and it is what the draft holds ----------

  predicate WorkerIsCurrent(s: State, worker: Worker) {
    && s.row.Some? && s.row.value.claimedAt == Some(worker.claim) && s.row.value.sentAt.None?
    && s.row.value.version == worker.version
    && (worker.Busy? || worker.answer.Refused? ==> s.copies == [])
  }

  ghost predicate Inv(env: Env, s: State) {
    && (IsIn(s, Draft) ==> s.copies == [])
    && (s.row.Some? && s.row.value.claimedAt.Some? ==> s.row.value.claimedAt.value <= s.now)
    && |s.copies| <= 1
    && (s.copies != [] && s.row.Some? ==> s.row.value.version == s.copies[0])
    && (forall w :: w in s.workers && IsLive(env, s, s.workers[w]) ==> WorkerIsCurrent(s, s.workers[w]))
    && (forall v, w | v in s.workers && w in s.workers && v != w ::
          !IsLive(env, s, s.workers[v]) || !IsLive(env, s, s.workers[w]))
  }

  lemma StepKeepsInv(env: Env, s: State, step: Step)
    requires Needed(env) && Inv(env, s) && Enabled(env, s, step)
    ensures Inv(env, Apply(env, s, step))
  {
    var t := Apply(env, s, step);
    forall w | w in t.workers && w in s.workers && IsLive(env, t, t.workers[w]) ensures IsLive(env, s, s.workers[w]) {
    }
  }

  // Gmail accepted at most one copy, and the draft holds exactly what that copy says.
  ghost predicate IsSafe(s: State) {
    |s.copies| <= 1 && (s.copies != [] && s.row.Some? ==> s.row.value.version == s.copies[0])
  }

  ghost predicate AlwaysSafe(env: Env) {
    forall s :: Reachable(Protocol(env), s) ==> IsSafe(s)
  }

  lemma SafeWhenTrusted(env: Env)
    requires Needed(env)
    ensures AlwaysSafe(env)
  {
    forall s | Reachable(Protocol(env), s) ensures IsSafe(s) {
      forall t, u | Inv(env, t) && Protocol(env).next(t, u) ensures Inv(env, u) {
        var step :| Enabled(env, t, step) && u == Apply(env, t, step);
        StepKeepsInv(env, t, step);
      }
      Always(Protocol(env), t => Inv(env, t), s);
    }
  }

  lemma Go(env: Env, s: State, step: Step) returns (t: State)
    requires Reachable(Protocol(env), s) && Enabled(env, s, step)
    ensures t == Apply(env, s, step) && Reachable(Protocol(env), t)
  {
    t := Apply(env, s, step);
    Reach(Protocol(env), s, t);
  }

  lemma Begin(env: Env) returns (s: State)
    ensures s == INIT && Reachable(Protocol(env), s)
  {
    s := INIT;
    Start(Protocol(env), s);
  }

  lemma SendAgain(env: Env, s: State, w: nat, stamp: Time) returns (t: State)
    requires Reachable(Protocol(env), s) && IsIn(s, Draft) && w !in s.workers && stamp !in s.stamps
    ensures Reachable(Protocol(env), t) && |t.copies| == |s.copies| + 1
    ensures forall v :: v in s.workers ==> v in t.workers && t.workers[v] == s.workers[v]
    ensures t.now == s.now
  {
    t := Go(env, s, Claim(w, stamp));
    t := Go(env, t, Post(w, Lost, true));
  }

  const CLAIMED := State(0, Some(Row(1, 1, Some(0), Some(0), None)), 2, {0, 1}, map[0 := Busy(0, 1)], map[], [])

  lemma ClaimFirst(env: Env) returns (s: State)
    ensures s == CLAIMED && Reachable(Protocol(env), s)
  {
    s := Begin(env);
    s := Go(env, s, Claim(0, 1));
  }

  // Its answer heard, whatever Gmail did.
  lemma HearFirst(env: Env, answer: Answer) returns (s: State)
    requires answer.Lost? || (answer.Refused? && !env.refusalsTrue)
    ensures s == CLAIMED.(workers := map[0 := Heard(0, 1, answer)], copies := [1]) && Reachable(Protocol(env), s)
  {
    s := ClaimFirst(env);
    s := Go(env, s, Post(0, answer, true));
  }

  lemma FalseRefusal(env: Env) returns (s: State)
    requires !env.refusalsTrue
    ensures Reachable(Protocol(env), s) && |s.copies| == 2
  {
    s := HearFirst(env, Refused);
    s := Go(env, s, Finish(0, true, 2));
    s := SendAgain(env, s, 1, 3);
  }

  // The answer was lost, the copy was not, and the user says it was.
  lemma FalseSettlement(env: Env) returns (s: State)
    requires !env.settlesTruly
    ensures Reachable(Protocol(env), s) && |s.copies| == 2
  {
    s := HearFirst(env, Lost);
    s := Go(env, s, Finish(0, true, 2));
    assert s == State(0, Some(Row(1, 1, Some(-SEND_IN_FLIGHT), Some(0), None)), 2, {0, 1, 2}, map[], map[], [1]);
    s := Go(env, s, Settle(false, 3));
    s := SendAgain(env, s, 1, 4);
  }

  // The window passes and it is settled, truly, as not sent.
  lemma SettledEarly(env: Env) returns (s: State)
    requires !env.endsInTime
    ensures Reachable(Protocol(env), s)
    ensures s == State(SEND_IN_FLIGHT, Some(Row(1, 2, None, None, None)), 2, {0, 1, 2}, map[0 := Busy(0, 1)], map[], [])
  {
    s := ClaimFirst(env);
    s := Go(env, s, Wait(SEND_IN_FLIGHT));
    s := Go(env, s, Settle(false, 2));
  }

  // Only then does the request it was about reach Gmail.
  lemma SlowSend(env: Env) returns (s: State)
    requires !env.endsInTime
    ensures Reachable(Protocol(env), s) && |s.copies| == 2
  {
    s := SettledEarly(env);
    s := SendAgain(env, s, 1, 3);
    s := Go(env, s, Post(0, Lost, true));
  }

  // Safe in every run exactly when sends end in time, refusals are true and users settle truly.
  lemma AtMostOneCopyExactly(env: Env)
    ensures AlwaysSafe(env) <==> Needed(env)
  {
    if Needed(env) {
      SafeWhenTrusted(env);
    } else {
      var s;
      if !env.refusalsTrue {
        s := FalseRefusal(env);
      } else if !env.settlesTruly {
        s := FalseSettlement(env);
      } else {
        s := SlowSend(env);
      }
      assert !IsSafe(s);
    }
  }

  // ---------- An AI answer only replaces what it was written from ----------

  // When the write-back of answer a would go through, the draft is still the version it was written from.
  ghost predicate AnswersFit(s: State) {
    forall a :: a in s.writers && s.row.Some? && TakesAnswer(s.row.value, s.writers[a].stamp)
                ==> s.row.value.version == s.writers[a].version
  }

  ghost predicate StampsTellVersions(s: State) {
    && (s.row.Some? ==> s.row.value.updatedAt in s.stamps)
    && (forall a :: a in s.writers ==> s.writers[a].stamp in s.stamps)
    && (forall a :: a in s.writers && s.row.Some? && s.row.value.updatedAt == s.writers[a].stamp
                    ==> s.row.value.version == s.writers[a].version)
  }

  lemma StepKeepsStamps(env: Env, s: State, step: Step)
    requires env.stampsFresh && StampsTellVersions(s) && Enabled(env, s, step)
    ensures StampsTellVersions(Apply(env, s, step))
  {
    assert step.Prepare? ==> step.stamp in Apply(env, s, step).stamps;
  }

  lemma TiedStamps(env: Env) returns (s: State)
    requires !env.stampsFresh
    ensures Reachable(Protocol(env), s) && !AnswersFit(s)
  {
    s := Begin(env);
    s := Go(env, s, Prepare(0, 1));
    s := Go(env, s, Edit(1));
    assert s.writers[0] == Prepared(1, 1) && TakesAnswer(s.row.value, 1);
  }

  // Exact too: two edits that share a timestamp let an answer overwrite the one it never saw.
  lemma AnswersFitExactly(env: Env)
    ensures (forall s :: Reachable(Protocol(env), s) ==> AnswersFit(s)) <==> env.stampsFresh
  {
    if env.stampsFresh {
      forall s | Reachable(Protocol(env), s) ensures AnswersFit(s) {
        forall t, u | StampsTellVersions(t) && Protocol(env).next(t, u) ensures StampsTellVersions(u) {
          var step :| Enabled(env, t, step) && u == Apply(env, t, step);
          StepKeepsStamps(env, t, step);
        }
        Always(Protocol(env), t => StampsTellVersions(t), s);
      }
    } else {
      var s := TiedStamps(env);
      assert !AnswersFit(s);
    }
  }
}
