/**
 Replies held to be sent later: the table's rows, one function per statement, and every interleaving of the
 people scheduling and cancelling with the workers that claim a due row and then send it.
 */
module ScheduledSends {
  import opened Common
  import opened Runs

  datatype CancelReason = Cancelled | TheyReplied | YouReplied | TooLate | SentManually | Refused

  datatype Held = Held(email: nat, draft: string, sentAt: Option<Time>, cancelled: Option<CancelReason>)

  predicate IsPending(row: Held) {
    row.sentAt.None? && row.cancelled.None?
  }

  predicate IsWaiting(row: Held, email: nat) {
    row.email == email && IsPending(row)
  }

  // The partial unique index: one pending row per email.
  ghost predicate OnePending(rows: seq<Held>) {
    forall i, j | 0 <= i < |rows| && 0 <= j < |rows| && rows[i].email == rows[j].email ::
      IsPending(rows[i]) && IsPending(rows[j]) ==> i == j
  }

  // Where the index finds the email's pending row.
  function Waiting(rows: seq<Held>, email: nat): (at: Option<nat>)
    ensures at.Some? ==> at.value < |rows| && IsWaiting(rows[at.value], email)
    ensures at.None? ==> forall i :: 0 <= i < |rows| ==> !IsWaiting(rows[i], email)
  {
    if rows == [] then None
    else if IsWaiting(rows[|rows| - 1], email) then Some(|rows| - 1)
    else Waiting(rows[..|rows| - 1], email)
  }

  // Insert, or replace the draft the email already has waiting.
  function HoldRow(rows: seq<Held>, email: nat, draft: string): seq<Held> {
    match Waiting(rows, email)
    case Some(i) => rows[i := rows[i].(draft := draft)]
    case None => rows + [Held(email, draft, None, None)]
  }

  function CancelPendingRow(rows: seq<Held>, email: nat, reason: CancelReason): seq<Held> {
    match Waiting(rows, email)
    case Some(i) => rows[i := rows[i].(cancelled := Some(reason))]
    case None => rows
  }

  function ClaimRow(rows: seq<Held>, id: nat, now: Time): seq<Held>
    requires id < |rows|
  {
    if IsPending(rows[id]) then rows[id := rows[id].(sentAt := Some(now))] else rows
  }

  // Refused by the index when it would leave the email with two pending rows; the row then stays claimed.
  predicate ReleaseCollides(rows: seq<Held>, id: nat)
    requires id < |rows|
  {
    rows[id].cancelled.None? && rows[id].sentAt.Some? && Waiting(rows, rows[id].email).Some?
  }

  function ReleaseRow(rows: seq<Held>, id: nat): seq<Held>
    requires id < |rows|
  {
    if ReleaseCollides(rows, id) then rows else rows[id := rows[id].(sentAt := None)]
  }

  function CancelRow(rows: seq<Held>, id: nat, reason: CancelReason): seq<Held>
    requires id < |rows|
  {
    if IsPending(rows[id]) then rows[id := rows[id].(cancelled := Some(reason))] else rows
  }

  function CancelClaimedRow(rows: seq<Held>, id: nat, reason: CancelReason): seq<Held>
    requires id < |rows|
  {
    rows[id := rows[id].(sentAt := None, cancelled := Some(reason))]
  }

  // No row but this one is another than before.
  predicate OnlyAt(was: seq<Held>, rows: seq<Held>, id: nat) {
    |rows| == |was| && forall i :: 0 <= i < |rows| && i != id ==> rows[i] == was[i]
  }

  class Table {
    var rows: seq<Held>

    constructor ()
      ensures rows == [] && OnePending(rows)
    {
      rows := [];
    }

    method Hold(email: nat, draft: string)
      requires OnePending(rows)
      modifies this
      ensures rows == HoldRow(old(rows), email, draft) && OnePending(rows)
      ensures exists i :: 0 <= i < |rows| && rows[i] == Held(email, draft, None, None)
                          && if i < |old(rows)| then OnlyAt(old(rows), rows, i) && IsWaiting(old(rows)[i], email)
                             else rows[..i] == old(rows) && forall j :: 0 <= j < i ==> !IsWaiting(old(rows)[j], email)
    {
      var at := Waiting(rows, email);
      if at.Some? {
        rows := rows[at.value := rows[at.value].(draft := draft)];
        assert rows[at.value] == Held(email, draft, None, None);
      } else {
        rows := rows + [Held(email, draft, None, None)];
        assert rows[|rows| - 1] == Held(email, draft, None, None);
      }
    }

    method CancelPending(email: nat, reason: CancelReason) returns (isCancelled: bool)
      requires OnePending(rows)
      modifies this
      ensures isCancelled == Waiting(old(rows), email).Some?
      ensures rows == CancelPendingRow(old(rows), email, reason) && OnePending(rows)
      ensures |rows| == |old(rows)| && forall i :: 0 <= i < |rows| ==>
                rows[i] == if old(rows)[i].email == email && old(rows)[i].sentAt.None? && old(rows)[i].cancelled.None?
                           then old(rows)[i].(cancelled := Some(reason)) else old(rows)[i]
      ensures forall i :: 0 <= i < |rows| && rows[i].email == email ==> rows[i].sentAt.Some? || rows[i].cancelled.Some?
    {
      var at := Waiting(rows, email);
      isCancelled := at.Some?;
      if isCancelled {
        rows := rows[at.value := rows[at.value].(cancelled := Some(reason))];
      }
    }

    method Claim(id: nat, now: Time) returns (isClaimed: bool)
      requires OnePending(rows) && id < |rows|
      modifies this
      ensures isClaimed <==> old(rows)[id].sentAt.None? && old(rows)[id].cancelled.None?
      ensures rows == ClaimRow(old(rows), id, now) && OnePending(rows) && OnlyAt(old(rows), rows, id)
      ensures rows[id] == if isClaimed then old(rows)[id].(sentAt := Some(now)) else old(rows)[id]
    {
      isClaimed := IsPending(rows[id]);
      if isClaimed {
        rows := rows[id := rows[id].(sentAt := Some(now))];
      }
    }

    method Release(id: nat) returns (isReleased: bool)
      requires OnePending(rows) && id < |rows|
      modifies this
      ensures !isReleased <==>
        && old(rows)[id].sentAt.Some? && old(rows)[id].cancelled.None?
        && exists i :: 0 <= i < |old(rows)| && IsWaiting(old(rows)[i], old(rows)[id].email)
      ensures rows == ReleaseRow(old(rows), id) && OnePending(rows) && OnlyAt(old(rows), rows, id)
      ensures rows[id] == if isReleased then old(rows)[id].(sentAt := None) else old(rows)[id]
    {
      isReleased := !ReleaseCollides(rows, id);
      if isReleased {
        rows := rows[id := rows[id].(sentAt := None)];
      }
    }

    method Cancel(id: nat, reason: CancelReason)
      requires OnePending(rows) && id < |rows|
      modifies this
      ensures rows == CancelRow(old(rows), id, reason) && OnePending(rows) && OnlyAt(old(rows), rows, id)
      ensures rows[id] == if old(rows)[id].sentAt.None? && old(rows)[id].cancelled.None?
                          then old(rows)[id].(cancelled := Some(reason)) else old(rows)[id]
    {
      if IsPending(rows[id]) {
        rows := rows[id := rows[id].(cancelled := Some(reason))];
      }
    }

    method CancelClaimed(id: nat, reason: CancelReason)
      requires OnePending(rows) && id < |rows|
      modifies this
      ensures rows == CancelClaimedRow(old(rows), id, reason) && OnePending(rows) && OnlyAt(old(rows), rows, id)
      ensures rows[id] == old(rows)[id].(sentAt := None, cancelled := Some(reason))
    {
      rows := rows[id := rows[id].(sentAt := None, cancelled := Some(reason))];
    }
  }

  // ---------- Every interleaving ----------

  // working: the row each worker has claimed and not finished with. reached: rows whose reply reached Gmail.
  datatype State = State(now: Time, rows: seq<Held>, working: map<nat, nat>, reached: seq<nat>)

  datatype Step =
    | Wait(until: Time)
    | Hold(email: nat, draft: string)
    | CancelPending(email: nat, reason: CancelReason)
    | CallOff(id: nat, reason: CancelReason)
    | Claim(w: nat, id: nat)
    | ReachGmail(w: nat)
    | Keep(w: nat)
    | Release(w: nat)
    | CancelClaimed(w: nat, reason: CancelReason)

  predicate Enabled(s: State, step: Step) {
    match step
    case Wait(until) => s.now <= until
    case Hold(_, _) => true
    case CancelPending(_, _) => true
    case CallOff(id, _) => id < |s.rows|
    case Claim(w, id) => w !in s.working && id < |s.rows| && IsPending(s.rows[id])
    case ReachGmail(w) => w in s.working
    case Keep(w) => w in s.working
    case Release(w) => w in s.working && s.working[w] < |s.rows|
    case CancelClaimed(w, _) => w in s.working && s.working[w] < |s.rows|
  }

  // Keep is a send that went out, one whose outcome was lost, and a crash alike: the claim stays.
  function Apply(s: State, step: Step): State
    requires Enabled(s, step)
  {
    match step
    case Wait(until) => s.(now := until)
    case Hold(email, draft) => s.(rows := HoldRow(s.rows, email, draft))
    case CancelPending(email, reason) => s.(rows := CancelPendingRow(s.rows, email, reason))
    case CallOff(id, reason) => s.(rows := CancelRow(s.rows, id, reason))
    case Claim(w, id) => s.(rows := ClaimRow(s.rows, id, s.now), working := s.working[w := id])
    case ReachGmail(w) => s.(reached := s.reached + [s.working[w]])
    case Keep(w) => s.(working := s.working - {w})
    case Release(w) => s.(rows := ReleaseRow(s.rows, s.working[w]), working := s.working - {w})
    case CancelClaimed(w, reason) =>
      s.(rows := CancelClaimedRow(s.rows, s.working[w], reason), working := s.working - {w})
  }

  ghost function Protocol(): System<State> {
    System(s => s == State(0, [], map[], []), (s, t) => exists step :: Enabled(s, step) && t == Apply(s, step))
  }

  ghost predicate Inv(s: State) {
    && OnePending(s.rows)
    && (forall i :: 0 <= i < |s.rows| ==> s.rows[i].sentAt.None? || s.rows[i].cancelled.None?)
    && (forall w :: w in s.working ==> s.working[w] < |s.rows| && s.rows[s.working[w]].sentAt.Some?)
    && (forall v, w :: v in s.working && w in s.working && s.working[v] == s.working[w] ==> v == w)
  }

  lemma WorkerKeepsInv(s: State, step: Step)
    requires Inv(s) && Enabled(s, step)
    requires step.Claim? || step.Keep? || step.Release? || step.CancelClaimed?
    ensures Inv(Apply(s, step))
  {
  }

  lemma StepKeepsInv(s: State, step: Step)
    requires Inv(s) && Enabled(s, step)
    ensures Inv(Apply(s, step))
  {
    if step.Claim? || step.Keep? || step.Release? || step.CancelClaimed? {
      WorkerKeepsInv(s, step);
    }
  }

  /**
   In every run: no row is both sent and cancelled, each email has at most one row pending, and a row being sent
   is held by one worker alone.
   */
  lemma RowsStaySound(s: State)
    requires Reachable(Protocol(), s)
    ensures forall i :: 0 <= i < |s.rows| ==> s.rows[i].sentAt.None? || s.rows[i].cancelled.None?
    ensures OnePending(s.rows)
    ensures forall v, w :: v in s.working && w in s.working && s.working[v] == s.working[w] ==> v == w
  {
    forall t, u | Inv(t) && Protocol().next(t, u) ensures Inv(u) {
      var step :| Enabled(t, step) && u == Apply(t, step);
      StepKeepsInv(t, step);
    }
    Always(Protocol(), t => Inv(t), s);
  }

  // ---------- What comes of a row that is due ----------

  lemma Go(s: State, t: State, step: Step) returns (u: State)
    requires Leads(Protocol(), s, t) && Enabled(t, step)
    ensures u == Apply(t, step) && Leads(Protocol(), s, u)
  {
    u := Apply(t, step);
    assert Protocol().next(t, u);
    Further(Protocol(), s, t, u);
  }

  lemma ClaimDue(s: State, w: nat, id: nat) returns (t: State)
    requires w !in s.working && id < |s.rows| && s.rows[id].sentAt.None? && s.rows[id].cancelled.None?
    ensures Leads(Protocol(), s, t)
    ensures t == s.(rows := s.rows[id := s.rows[id].(sentAt := Some(s.now))], working := s.working[w := id])
  {
    assert IsTrace(Protocol(), [s]) && [s][0] == s;
    t := Go(s, s, Claim(w, id));
  }

  /**
   A waiting row that a free worker claims can go out, marked as sent; it can wait again as it was, when Gmail refused
   it for now and no newer row waits; and it can be cancelled, when it was refused for good.
   */
  lemma DueRowsEnd(s: State, w: nat, id: nat, reason: CancelReason)
    requires OnePending(s.rows) && w !in s.working && id < |s.rows|
    requires s.rows[id].sentAt.None? && s.rows[id].cancelled.None?
    ensures Leads(Protocol(), s,
                  s.(rows := s.rows[id := s.rows[id].(sentAt := Some(s.now))], reached := s.reached + [id]))
    ensures Enabled(s, Claim(w, id)) && Enabled(Apply(s, Claim(w, id)), Release(w))
    ensures Apply(Apply(s, Claim(w, id)), Release(w)) == s
    ensures Leads(Protocol(), s, s.(rows := s.rows[id := s.rows[id].(cancelled := Some(reason))]))
  {
    var claimed := ClaimDue(s, w, id);
    var t := Go(s, claimed, ReachGmail(w));
    t := Go(s, t, Keep(w));
    assert t.working == s.working;
    t := Go(s, claimed, Release(w));
    assert t.working == s.working && t.rows == s.rows;
    t := Go(s, claimed, CancelClaimed(w, reason));
    assert t.working == s.working && t.rows == s.rows[id := s.rows[id].(cancelled := Some(reason))];
  }

  // ---------- Cancelled for good ----------

  // Row i is cancelled for this reason, and nothing but what is already in `reached` has reached Gmail from it.
  ghost predicate Buried(i: nat, reason: CancelReason, reached: seq<nat>, s: State) {
    && Inv(s)
    && i < |s.rows| && s.rows[i].cancelled == Some(reason)
    && |reached| <= |s.reached| && s.reached[..|reached|] == reached
    && forall n :: |reached| <= n < |s.reached| ==> s.reached[n] != i
  }

  lemma StepKeepsBuried(i: nat, reason: CancelReason, reached: seq<nat>, s: State, step: Step)
    requires Buried(i, reason, reached, s) && Enabled(s, step)
    ensures Buried(i, reason, reached, Apply(s, step))
  {
    StepKeepsInv(s, step);
  }

  // However the run goes on, a cancelled row keeps its reason and never reaches Gmail again.
  lemma CancelledNeverReverts(s: State, t: State, i: nat)
    requires Reachable(Protocol(), s) && Leads(Protocol(), s, t)
    requires i < |s.rows| && s.rows[i].cancelled.Some?
    ensures i < |t.rows| && t.rows[i].cancelled == s.rows[i].cancelled
    ensures |s.reached| <= |t.reached| && t.reached[..|s.reached|] == s.reached
    ensures forall n :: |s.reached| <= n < |t.reached| ==> t.reached[n] != i
  {
    var reason := s.rows[i].cancelled.value;
    forall a, b | Inv(a) && Protocol().next(a, b) ensures Inv(b) {
      var step :| Enabled(a, step) && b == Apply(a, step);
      StepKeepsInv(a, step);
    }
    Always(Protocol(), a => Inv(a), s);
    forall a, b | Buried(i, reason, s.reached, a) && Protocol().next(a, b) ensures Buried(i, reason, s.reached, b) {
      var step :| Enabled(a, step) && b == Apply(a, step);
      StepKeepsBuried(i, reason, s.reached, a, step);
    }
    Onward(Protocol(), a => Buried(i, reason, s.reached, a), s, t);
  }

  /**
   cancel_pending answers true exactly when a row was waiting, and then that row never reaches Gmail, whoever
   was about to claim it.
   */
  lemma CancelPendingStopsTheSend(s: State, email: nat, reason: CancelReason, t: State)
    requires Reachable(Protocol(), s)
    requires Leads(Protocol(), Apply(s, CancelPending(email, reason)), t)
    ensures Waiting(s.rows, email).Some? ==>
      var i := Waiting(s.rows, email).value;
      && |s.reached| <= |t.reached| && (forall n :: |s.reached| <= n < |t.reached| ==> t.reached[n] != i)
      && i < |t.rows| && t.rows[i].cancelled == Some(reason)
  {
    var after := Apply(s, CancelPending(email, reason));
    assert Enabled(s, CancelPending(email, reason));
    Reach(Protocol(), s, after);
    if Waiting(s.rows, email).Some? {
      CancelledNeverReverts(after, t, Waiting(s.rows, email).value);
    }
  }
}
