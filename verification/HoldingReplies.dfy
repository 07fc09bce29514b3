/**
 Automatic holding replies: the daily cap and the sender cooldown, over every run of concurrent passes. A claim
 is a transaction whose timestamp is fixed when it begins, so timestamps need not follow the order in which the
 user's lock is taken.
 */
module HoldingReplies {
  import opened Collections
  import opened Common
  import opened Runs

  const DAILY_CAP: nat := 50

  // cooldown is what the claim that set sentAt had read from the user's settings.
  datatype Reply = Reply(user: nat, recipient: string, sentAt: Option<Time>, isCancelled: bool, cooldown: nat)

  type Replies = map<nat, Reply>

  function MarksSince(rows: Replies, user: nat, from: Time): set<nat> {
    set id | id in rows && rows[id].user == user && rows[id].sentAt.Some? && rows[id].sentAt.value >= from
  }

  // The 24 hours from `from`, both ends included.
  function MarksInDay(rows: Replies, user: nat, from: Time): set<nat> {
    set id | id in rows && rows[id].user == user && rows[id].sentAt.Some?
             && from <= rows[id].sentAt.value <= from + DAY
  }

  predicate HasRecent(rows: Replies, user: nat, recipient: string, from: Time) {
    exists id :: id in rows && rows[id].user == user && rows[id].recipient == recipient
                 && rows[id].sentAt.Some? && rows[id].sentAt.value >= from
  }

  // The two conditions checked inside the claim.
  predicate MayClaim(rows: Replies, user: nat, recipient: string, at: Time, cooldown: nat) {
    |MarksSince(rows, user, at - DAY)| < DAILY_CAP && !HasRecent(rows, user, recipient, at - cooldown)
  }

  predicate IsOpen(reply: Reply) {
    reply.sentAt.None? && !reply.isCancelled
  }

  function Marked(rows: Replies, id: nat, at: Time, cooldown: nat): Replies
    requires id in rows
  {
    rows[id := rows[id].(sentAt := Some(at), cooldown := cooldown)]
  }

  function Unmarked(rows: Replies, id: nat): Replies
    requires id in rows
  {
    rows[id := rows[id].(sentAt := None)]
  }

  // Once it is claimed it is too late to call off.
  function Cancelled(rows: Replies, id: nat): Replies
    requires id in rows
  {
    if IsOpen(rows[id]) then rows[id := rows[id].(isCancelled := true)] else rows
  }

  // ---------- What is promised of the marks ----------

  ghost predicate WithinCap(rows: Replies) {
    forall user, from :: |MarksInDay(rows, user, from)| <= DAILY_CAP
  }

  ghost predicate IsSpaced(rows: Replies) {
    forall i, j | i in rows && j in rows && i != j && rows[i].user == rows[j].user
                  && rows[i].recipient == rows[j].recipient && rows[i].sentAt.Some? && rows[j].sentAt.Some?
      :: rows[i].sentAt.value + rows[j].cooldown < rows[j].sentAt.value
         || rows[j].sentAt.value + rows[i].cooldown < rows[i].sentAt.value
  }

  // Every other mark of a window holding the new one is no older than a day before it, so it was counted.
  lemma MarkingKeepsCap(rows: Replies, id: nat, at: Time, cooldown: nat)
    requires WithinCap(rows) && id in rows && |MarksSince(rows, rows[id].user, at - DAY)| < DAILY_CAP
    ensures WithinCap(Marked(rows, id, at, cooldown))
  {
    var marked := Marked(rows, id, at, cooldown);
    forall user, from ensures |MarksInDay(marked, user, from)| <= DAILY_CAP {
      var now := MarksInDay(marked, user, from);
      if id in now {
        SubsetIsSmaller(now - {id}, MarksSince(rows, user, at - DAY));
      } else {
        SubsetIsSmaller(now, MarksInDay(rows, user, from));
        assert |MarksInDay(rows, user, from)| <= DAILY_CAP;
      }
    }
  }

  lemma MarkingKeepsSpacing(rows: Replies, id: nat, at: Time, cooldown: nat)
    requires IsSpaced(rows) && id in rows && !HasRecent(rows, rows[id].user, rows[id].recipient, at - cooldown)
    ensures IsSpaced(Marked(rows, id, at, cooldown))
  {
  }

  // No mark of this user is new: some may have gone.
  ghost predicate OnlyFewerMarks(rows: Replies, later: Replies, user: nat) {
    forall id | id in later && later[id].user == user && later[id].sentAt.Some? ::
      id in rows && rows[id].user == user && rows[id].recipient == later[id].recipient
      && rows[id].sentAt == later[id].sentAt && rows[id].cooldown == later[id].cooldown
  }

  lemma FewerMarksKeepBoth(rows: Replies, later: Replies)
    requires WithinCap(rows) && IsSpaced(rows)
    requires forall user :: OnlyFewerMarks(rows, later, user)
    ensures WithinCap(later) && IsSpaced(later)
  {
    forall user, from ensures |MarksInDay(later, user, from)| <= DAILY_CAP {
      assert OnlyFewerMarks(rows, later, user);
      SubsetIsSmaller(MarksInDay(later, user, from), MarksInDay(rows, user, from));
    }
    forall i, j | i in later && j in later && i != j && later[i].user == later[j].user
                  && later[i].recipient == later[j].recipient && later[i].sentAt.Some? && later[j].sentAt.Some?
      ensures later[i].sentAt.value + later[j].cooldown < later[j].sentAt.value
              || later[j].sentAt.value + later[i].cooldown < later[i].sentAt.value {
      assert OnlyFewerMarks(rows, later, later[i].user);
    }
  }

  // How many replies of that user went out since then, and whether one of them went to that recipient.
  lemma MayClaimExactly(rows: Replies, user: nat, recipient: string, at: Time, cooldown: nat)
    ensures MayClaim(rows, user, recipient, at, cooldown) <==>
      && |set id | id in rows && rows[id].user == user && rows[id].sentAt.Some?
                   && at - rows[id].sentAt.value <= 24 * 60 * MINUTE| < 50
      && forall id | id in rows && rows[id].user == user && rows[id].recipient == recipient && rows[id].sentAt.Some? ::
           at - rows[id].sentAt.value > cooldown
  {
    assert MarksSince(rows, user, at - DAY)
        == set id | id in rows && rows[id].user == user && rows[id].sentAt.Some?
                    && at - rows[id].sentAt.value <= 24 * 60 * MINUTE;
  }

  // No row but this one is another than before.
  predicate OnlyAt(was: Replies, rows: Replies, id: nat) {
    rows.Keys == was.Keys && forall i :: i in rows && i != id ==> rows[i] == was[i]
  }

  // The table, for one pass at a time.
  class Table {
    var rows: Replies

    method Claim(id: nat, at: Time, cooldown: nat) returns (isClaimed: bool)
      requires id in rows && WithinCap(rows) && IsSpaced(rows)
      modifies this
      ensures isClaimed == (old(rows)[id].sentAt.None? && !old(rows)[id].isCancelled
                            && MayClaim(old(rows), old(rows)[id].user, old(rows)[id].recipient, at, cooldown))
      ensures rows == if isClaimed then Marked(old(rows), id, at, cooldown) else old(rows)
      ensures OnlyAt(old(rows), rows, id)
      ensures rows[id] == if isClaimed then old(rows)[id].(sentAt := Some(at), cooldown := cooldown) else old(rows)[id]
      ensures WithinCap(rows) && IsSpaced(rows)
    {
      isClaimed := IsOpen(rows[id]) && MayClaim(rows, rows[id].user, rows[id].recipient, at, cooldown);
      if isClaimed {
        MarkingKeepsCap(rows, id, at, cooldown);
        MarkingKeepsSpacing(rows, id, at, cooldown);
        rows := Marked(rows, id, at, cooldown);
      }
    }

    method Release(id: nat)
      requires id in rows && WithinCap(rows) && IsSpaced(rows)
      modifies this
      ensures rows == Unmarked(old(rows), id) && OnlyAt(old(rows), rows, id)
      ensures rows[id] == old(rows)[id].(sentAt := None)
      ensures WithinCap(rows) && IsSpaced(rows)
    {
      FewerMarksKeepBoth(rows, Unmarked(rows, id));
      rows := Unmarked(rows, id);
    }

    // No longer to be claimed, by this pass or another; a mark it has already is left.
    method Cancel(id: nat)
      requires id in rows && WithinCap(rows) && IsSpaced(rows)
      modifies this
      ensures rows == Cancelled(old(rows), id)
      ensures OnlyAt(old(rows), rows, id) && rows[id].sentAt == old(rows)[id].sentAt
      ensures rows[id].isCancelled == (old(rows)[id].isCancelled || old(rows)[id].sentAt.None?)
      ensures WithinCap(rows) && IsSpaced(rows)
    {
      FewerMarksKeepBoth(rows, Cancelled(rows, id));
      if IsOpen(rows[id]) {
        rows := rows[id := rows[id].(isCancelled := true)];
      }
    }
  }

  // ---------- Every interleaving of passes ----------

  // One claim's transaction. Counted holds the answer of its two conditions, before its row is written.
  datatype Phase = Begun | Locked | Counted(mayClaim: bool)
  datatype Transaction = Transaction(id: nat, at: Time, cooldown: nat, phase: Phase)

  datatype State = State(rows: Replies, claims: map<nat, Transaction>)

  datatype Step =
    | Schedule(id: nat, user: nat, recipient: string)
    | Begin(w: nat, id: nat, at: Time, cooldown: nat)
    | Lock(w: nat)
    | Count(w: nat)
    | Commit(w: nat)
    | Abort(w: nat)
    | Release(id: nat)
    | Cancel(id: nat)

  predicate HoldsLock(s: State, w: nat, user: nat) {
    w in s.claims && !s.claims[w].phase.Begun? && s.claims[w].id in s.rows && s.rows[s.claims[w].id].user == user
  }

  // isLocked: whether the advisory lock per user is taken, as it is in the code.
  predicate Enabled(isLocked: bool, s: State, step: Step) {
    match step
    case Schedule(id, _, _) => id !in s.rows
    case Begin(w, id, _, _) => w !in s.claims && id in s.rows
    case Lock(w) =>
      && w in s.claims && s.claims[w].phase.Begun? && s.claims[w].id in s.rows
      && (isLocked ==> forall v :: v in s.claims ==> !HoldsLock(s, v, s.rows[s.claims[w].id].user))
    case Count(w) => w in s.claims && s.claims[w].phase.Locked? && s.claims[w].id in s.rows
    case Commit(w) => w in s.claims && s.claims[w].phase.Counted? && s.claims[w].id in s.rows
    case Abort(w) => w in s.claims
    case Release(id) => id in s.rows
    case Cancel(id) => id in s.rows
  }

  // Release is a refused send and the reconciler's alike: neither takes the lock.
  function Apply(isLocked: bool, s: State, step: Step): State
    requires Enabled(isLocked, s, step)
  {
    match step
    case Schedule(id, user, recipient) => s.(rows := s.rows[id := Reply(user, recipient, None, false, 0)])
    case Begin(w, id, at, cooldown) => s.(claims := s.claims[w := Transaction(id, at, cooldown, Begun)])
    case Lock(w) => s.(claims := s.claims[w := s.claims[w].(phase := Locked)])
    case Count(w) =>
      var c := s.claims[w];
      var may := MayClaim(s.rows, s.rows[c.id].user, s.rows[c.id].recipient, c.at, c.cooldown);
      s.(claims := s.claims[w := c.(phase := Counted(may))])
    case Commit(w) =>
      var c := s.claims[w];
      State(if c.phase.mayClaim && IsOpen(s.rows[c.id]) then Marked(s.rows, c.id, c.at, c.cooldown) else s.rows,
            s.claims - {w})
    case Abort(w) => s.(claims := s.claims - {w})
    case Release(id) => s.(rows := Unmarked(s.rows, id))
    case Cancel(id) => s.(rows := Cancelled(s.rows, id))
  }

  ghost function Protocol(isLocked: bool): System<State> {
    System(s => s == State(map[], map[]),
           (s, t) => exists step :: Enabled(isLocked, s, step) && t == Apply(isLocked, s, step))
  }

  ghost predicate IsCurrent(s: State, w: nat)
    requires w in s.claims
  {
    var c := s.claims[w];
    && c.id in s.rows
    && (c.phase.Counted? && c.phase.mayClaim ==>
          MayClaim(s.rows, s.rows[c.id].user, s.rows[c.id].recipient, c.at, c.cooldown))
  }

  ghost predicate Inv(s: State) {
    && WithinCap(s.rows) && IsSpaced(s.rows)
    && (forall w :: w in s.claims ==> IsCurrent(s, w))
    && OneHolder(s)
  }

  /**
   While no other transaction of its user is past the lock, a claim can go through: the reply is marked exactly when
   it is open, under the cap and outside the cooldown, and no other row is touched.
   */
  lemma ClaimGoesThrough(s: State, w: nat, id: nat, at: Time, cooldown: nat)
    requires w !in s.claims && id in s.rows
    requires forall v :: v in s.claims ==> !HoldsLock(s, v, s.rows[id].user)
    ensures var reply := s.rows[id];
            var isMarked := && reply.sentAt.None? && !reply.isCancelled
                            && MayClaim(s.rows, reply.user, reply.recipient, at, cooldown);
            Leads(Protocol(true), s,
                  s.(rows := if isMarked then s.rows[id := reply.(sentAt := Some(at), cooldown := cooldown)]
                             else s.rows))
  {
    assert IsTrace(Protocol(true), [s]) && [s][0] == s;
    var t := Onto(s, s, Begin(w, id, at, cooldown));
    t := Onto(s, t, Lock(w));
    t := Onto(s, t, Count(w));
    t := Onto(s, t, Commit(w));
    assert t.claims == s.claims;
  }

  lemma Onto(s: State, t: State, step: Step) returns (u: State)
    requires Leads(Protocol(true), s, t) && Enabled(true, t, step)
    ensures u == Apply(true, t, step) && Leads(Protocol(true), s, u)
  {
    u := Apply(true, t, step);
    assert Protocol(true).next(t, u);
    Further(Protocol(true), s, t, u);
  }

  // Past the lock, one transaction per user.
  ghost predicate OneHolder(s: State) {
    forall v, w | v in s.claims && w in s.claims && v != w && s.claims[v].id in s.rows && s.claims[w].id in s.rows ::
      s.claims[v].phase.Begun? || s.claims[w].phase.Begun?
      || s.rows[s.claims[v].id].user != s.rows[s.claims[w].id].user
  }

  // A count that was low enough stays low enough.
  lemma StillMayClaim(rows: Replies, later: Replies, user: nat, recipient: string, at: Time, cooldown: nat)
    requires MayClaim(rows, user, recipient, at, cooldown) && OnlyFewerMarks(rows, later, user)
    ensures MayClaim(later, user, recipient, at, cooldown)
  {
    SubsetIsSmaller(MarksSince(later, user, at - DAY), MarksSince(rows, user, at - DAY));
  }

  lemma StaysCurrent(s: State, t: State, w: nat)
    requires w in s.claims && w in t.claims && t.claims[w] == s.claims[w] && IsCurrent(s, w)
    requires s.claims[w].id in t.rows && t.rows[s.claims[w].id].user == s.rows[s.claims[w].id].user
    requires t.rows[s.claims[w].id].recipient == s.rows[s.claims[w].id].recipient
    requires s.claims[w].phase.Counted? ==> OnlyFewerMarks(s.rows, t.rows, s.rows[s.claims[w].id].user)
    ensures IsCurrent(t, w)
  {
    var c := s.claims[w];
    if c.phase.Counted? && c.phase.mayClaim {
      StillMayClaim(s.rows, t.rows, s.rows[c.id].user, s.rows[c.id].recipient, c.at, c.cooldown);
    }
  }

  lemma OneLockPerUser(s: State, v: nat, w: nat)
    requires Inv(s) && v in s.claims && w in s.claims && v != w
    requires !s.claims[v].phase.Begun? && !s.claims[w].phase.Begun?
    ensures s.claims[v].id in s.rows && s.claims[w].id in s.rows
    ensures s.rows[s.claims[v].id].user != s.rows[s.claims[w].id].user
  {
    assert IsCurrent(s, v) && IsCurrent(s, w);
  }

  lemma MarkingLeavesOthers(rows: Replies, id: nat, at: Time, cooldown: nat, user: nat)
    requires id in rows && rows[id].user != user
    ensures OnlyFewerMarks(rows, Marked(rows, id, at, cooldown), user)
  {
  }

  lemma CommitKeepsInv(s: State, w: nat)
    requires Inv(s) && Enabled(true, s, Commit(w))
    ensures Inv(Apply(true, s, Commit(w)))
  {
    var c := s.claims[w];
    var t := Apply(true, s, Commit(w));
    assert IsCurrent(s, w);
    if c.phase.mayClaim && IsOpen(s.rows[c.id]) {
      MarkingKeepsCap(s.rows, c.id, c.at, c.cooldown);
      MarkingKeepsSpacing(s.rows, c.id, c.at, c.cooldown);
      forall v | v in t.claims ensures IsCurrent(t, v) {
        assert IsCurrent(s, v);
        if s.claims[v].phase.Counted? {
          OneLockPerUser(s, v, w);
          MarkingLeavesOthers(s.rows, c.id, c.at, c.cooldown, s.rows[s.claims[v].id].user);
        }
        StaysCurrent(s, t, v);
      }
    } else {
      assert forall v :: v in t.claims ==> IsCurrent(s, v);
    }
    LocksStay(s, t);
  }

  // Transactions only ended, and no row changed hands.
  lemma LocksStay(s: State, t: State)
    requires OneHolder(s)
    requires forall w :: w in t.claims ==> w in s.claims && t.claims[w] == s.claims[w] && s.claims[w].id in s.rows
    requires forall id :: id in s.rows && id in t.rows ==> t.rows[id].user == s.rows[id].user
    ensures OneHolder(t)
  {
  }

  lemma RowsKeepInv(s: State, step: Step)
    requires Inv(s) && Enabled(true, s, step)
    requires step.Schedule? || step.Release? || step.Cancel?
    ensures Inv(Apply(true, s, step))
  {
    var t := Apply(true, s, step);
    RowsOnlyLoseMarks(s, step);
    FewerMarksKeepBoth(s.rows, t.rows);
    forall v | v in t.claims ensures IsCurrent(t, v) {
      assert IsCurrent(s, v);
      StaysCurrent(s, t, v);
    }
    LocksStay(s, t);
  }

  lemma RowsOnlyLoseMarks(s: State, step: Step)
    requires Inv(s) && Enabled(true, s, step)
    requires step.Schedule? || step.Release? || step.Cancel?
    ensures forall user :: OnlyFewerMarks(s.rows, Apply(true, s, step).rows, user)
    ensures forall v :: v in s.claims ==> s.claims[v].id in s.rows
  {
    assert forall v :: v in s.claims ==> IsCurrent(s, v);
  }

  lemma TransactionKeepsInv(s: State, step: Step)
    requires Inv(s) && Enabled(true, s, step)
    requires step.Begin? || step.Lock? || step.Count? || step.Abort?
    ensures Inv(Apply(true, s, step))
  {
    var t := Apply(true, s, step);
    forall v | v in t.claims ensures IsCurrent(t, v) {
      assert v in s.claims ==> IsCurrent(s, v);
    }
  }

  lemma StepKeepsInv(s: State, step: Step)
    requires Inv(s) && Enabled(true, s, step)
    ensures Inv(Apply(true, s, step))
  {
    if step.Commit? {
      CommitKeepsInv(s, step.w);
    } else if step.Schedule? || step.Release? || step.Cancel? {
      RowsKeepInv(s, step);
    } else {
      TransactionKeepsInv(s, step);
    }
  }

  ghost predicate IsSafe(isLocked: bool) {
    forall s :: Reachable(Protocol(isLocked), s) ==> WithinCap(s.rows) && IsSpaced(s.rows)
  }

  /**
   In every run, any 24 hours hold at most DAILY_CAP marks of a user, and of two marks to one recipient the
   later is later by more than the cooldown its claim read.
   */
  lemma CapAndCooldownHold()
    ensures IsSafe(true)
  {
    forall s | Reachable(Protocol(true), s) ensures WithinCap(s.rows) && IsSpaced(s.rows) {
      forall t, u | Inv(t) && Protocol(true).next(t, u) ensures Inv(u) {
        var step :| Enabled(true, t, step) && u == Apply(true, t, step);
        StepKeepsInv(t, step);
      }
      Always(Protocol(true), t => Inv(t), s);
    }
  }

  // So no day of any run has more than fifty, wherever it begins.
  lemma FiftyADay(s: State, user: nat, from: Time)
    requires Reachable(Protocol(true), s)
    ensures |set id | id in s.rows && s.rows[id].user == user && s.rows[id].sentAt.Some?
                      && 0 <= s.rows[id].sentAt.value - from <= 24 * 60 * MINUTE| <= 50
  {
    CapAndCooldownHold();
    assert |MarksInDay(s.rows, user, from)| <= DAILY_CAP;
    assert MarksInDay(s.rows, user, from)
        == set id | id in s.rows && s.rows[id].user == user && s.rows[id].sentAt.Some?
                    && 0 <= s.rows[id].sentAt.value - from <= 24 * 60 * MINUTE;
  }

  lemma Go(s: State, step: Step) returns (t: State)
    requires Reachable(Protocol(false), s) && Enabled(false, s, step)
    ensures t == Apply(false, s, step) && Reachable(Protocol(false), t)
  {
    t := Apply(false, s, step);
    Reach(Protocol(false), s, t);
  }

  // Two replies to one recipient, both counted before either is marked.
  lemma BothCounted() returns (s: State)
    ensures Reachable(Protocol(false), s)
    ensures s.rows == map[0 := Reply(0, "a", None, false, 0), 1 := Reply(0, "a", None, false, 0)]
    ensures s.claims == map[0 := Transaction(0, 0, 1, Counted(true)), 1 := Transaction(1, 0, 1, Counted(true))]
  {
    s := State(map[], map[]);
    Start(Protocol(false), s);
    s := Go(s, Schedule(0, 0, "a"));
    s := Go(s, Schedule(1, 0, "a"));
    s := Go(s, Begin(0, 0, 0, 1));
    s := Go(s, Begin(1, 1, 0, 1));
    s := Go(s, Lock(0));
    s := Go(s, Lock(1));
    assert MarksSince(s.rows, 0, 0 - DAY) == {};
    s := Go(s, Count(0));
    s := Go(s, Count(1));
  }

  const OPEN := Reply(0, "a", None, false, 0)

  // A reply's whole run alone: scheduled, counted and marked.
  lemma MarkedAlone(rows: Replies, id: nat, at: Time)
    requires Reachable(Protocol(false), State(rows, map[])) && id !in rows
    requires MayClaim(rows[id := OPEN], 0, "a", at, 0)
    ensures Reachable(Protocol(false), State(rows[id := OPEN.(sentAt := Some(at))], map[]))
  {
    var s := CountedAlone(rows, id, at);
    s := Go(s, Commit(0));
    assert s.rows == rows[id := OPEN.(sentAt := Some(at))] && s.claims == map[];
  }

  lemma CountedAlone(rows: Replies, id: nat, at: Time) returns (s: State)
    requires Reachable(Protocol(false), State(rows, map[])) && id !in rows
    requires MayClaim(rows[id := OPEN], 0, "a", at, 0)
    ensures Reachable(Protocol(false), s)
    ensures s == State(rows[id := OPEN], map[0 := Transaction(id, at, 0, Counted(true))])
  {
    s := Go(State(rows, map[]), Schedule(id, 0, "a"));
    s := Go(s, Begin(0, id, at, 0));
    s := Go(s, Lock(0));
    s := Go(s, Count(0));
  }

  // Two replies counted before either is marked, and then both marked.
  lemma MarkedTogether(rows: Replies, i: nat, j: nat, at: Time, later: Time)
    requires Reachable(Protocol(false), State(rows, map[])) && i !in rows && j !in rows && i != j
    requires var both := rows[i := OPEN][j := OPEN]; MayClaim(both, 0, "a", at, 0) && MayClaim(both, 0, "a", later, 0)
    ensures Reachable(Protocol(false),
                      State(rows[i := OPEN.(sentAt := Some(at))][j := OPEN.(sentAt := Some(later))], map[]))
  {
    var s := TogetherCounted(rows, i, j, at, later);
    s := Go(s, Commit(0));
    s := Go(s, Commit(1));
    assert s.rows == rows[i := OPEN.(sentAt := Some(at))][j := OPEN.(sentAt := Some(later))] && s.claims == map[];
  }

  lemma TogetherCounted(rows: Replies, i: nat, j: nat, at: Time, later: Time) returns (s: State)
    requires Reachable(Protocol(false), State(rows, map[])) && i !in rows && j !in rows && i != j
    requires var both := rows[i := OPEN][j := OPEN]; MayClaim(both, 0, "a", at, 0) && MayClaim(both, 0, "a", later, 0)
    ensures Reachable(Protocol(false), s) && s.rows == rows[i := OPEN][j := OPEN]
    ensures s.claims == map[0 := Transaction(i, at, 0, Counted(true)), 1 := Transaction(j, later, 0, Counted(true))]
  {
    s := Go(State(rows, map[]), Schedule(i, 0, "a"));
    s := Go(s, Schedule(j, 0, "a"));
    s := Go(s, Begin(0, i, at, 0));
    s := Go(s, Begin(1, j, later, 0));
    s := Go(s, Lock(0));
    s := Go(s, Lock(1));
    assert s.rows == rows[i := OPEN][j := OPEN];
    s := Go(s, Count(0));
    s := Go(s, Count(1));
  }

  function Below(n: nat): (ids: set<nat>)
    ensures |ids| == n && forall id: nat :: id in ids <==> id < n
  {
    if n == 0 then {} else Below(n - 1) + {n - 1}
  }

  // n replies marked one after the other, a microsecond apart.
  function Marks(n: nat): Replies {
    map id | id in Below(n) :: OPEN.(sentAt := Some(id))
  }

  // After fewer than DAILY_CAP of them the next one passes.
  lemma NextMayClaim(rows: Replies, n: nat, at: Time)
    requires n < DAILY_CAP && n <= at
    requires forall id :: id in rows && rows[id].sentAt.Some? ==> id < n && rows[id].sentAt == Some(id)
    ensures MayClaim(rows, 0, "a", at, 0)
  {
    SubsetIsSmaller(MarksSince(rows, 0, at - DAY), Below(n));
  }

  // One more, or two read together, pass on top of n.
  lemma MarksLeavePlace(n: nat)
    requires n < DAILY_CAP
    ensures n !in Marks(n) && n + 1 !in Marks(n)
    ensures MayClaim(Marks(n)[n := OPEN], 0, "a", n, 0)
    ensures MayClaim(Marks(n)[n := OPEN][n + 1 := OPEN], 0, "a", n, 0)
    ensures MayClaim(Marks(n)[n := OPEN][n + 1 := OPEN], 0, "a", n + 1, 0)
  {
    NextMayClaim(Marks(n)[n := OPEN], n, n);
    NextMayClaim(Marks(n)[n := OPEN][n + 1 := OPEN], n, n);
    NextMayClaim(Marks(n)[n := OPEN][n + 1 := OPEN], n, n + 1);
  }

  lemma OneMoreMark(n: nat)
    ensures Marks(n + 1) == Marks(n)[n := OPEN.(sentAt := Some(n))]
  {
  }

  lemma MarkOneMore(n: nat)
    requires n < DAILY_CAP && Reachable(Protocol(false), State(Marks(n), map[]))
    ensures Reachable(Protocol(false), State(Marks(n + 1), map[]))
  {
    MarksLeavePlace(n);
    MarkedAlone(Marks(n), n, n);
    OneMoreMark(n);
  }

  lemma NoMarks()
    ensures Reachable(Protocol(false), State(Marks(0), map[]))
  {
    assert Marks(0) == map[];
    Start(Protocol(false), State(Marks(0), map[]));
  }

  lemma {:induction false} MarksInARow(n: nat)
    requires n < DAILY_CAP
    ensures Reachable(Protocol(false), State(Marks(n), map[]))
  {
    if n == 0 {
      NoMarks();
    } else {
      MarksInARow(n - 1);
      MarkOneMore(n - 1);
    }
  }

  // With one place left under the cap, two get it.
  lemma TwoGetOnePlace(n: nat) returns (s: State)
    requires n == DAILY_CAP - 1
    ensures Reachable(Protocol(false), s) && s.rows == Marks(n + 2)
  {
    MarksInARow(n);
    MarksLeavePlace(n);
    MarkedTogether(Marks(n), n, n + 1, n, n + 1);
    OneMoreMark(n);
    OneMoreMark(n + 1);
    s := State(Marks(n + 2), map[]);
  }

  lemma TooManyMarks(n: nat)
    requires DAILY_CAP < n < DAY
    ensures !WithinCap(Marks(n))
  {
    assert MarksInDay(Marks(n), 0, 0) == Below(n);
  }

  lemma CapNeedsLock(n: nat) returns (s: State)
    requires n == DAILY_CAP - 1
    ensures Reachable(Protocol(false), s) && !WithinCap(s.rows)
  {
    s := TwoGetOnePlace(n);
    TooManyMarks(n + 2);
  }

  lemma CooldownNeedsLock() returns (s: State)
    ensures Reachable(Protocol(false), s) && !IsSpaced(s.rows)
  {
    s := BothCounted();
    s := Go(s, Commit(0));
    s := Go(s, Commit(1));
    assert s.rows[0].sentAt == Some(0) && s.rows[1].sentAt == Some(0);
  }

  ghost predicate CapHolds(isLocked: bool) {
    forall s :: Reachable(Protocol(isLocked), s) ==> WithinCap(s.rows)
  }

  ghost predicate CooldownHolds(isLocked: bool) {
    forall s :: Reachable(Protocol(isLocked), s) ==> IsSpaced(s.rows)
  }

  // The lock is what makes either so: without it two passes can read a count before the other has marked its row.
  lemma CapAndCooldownExactly(isLocked: bool)
    ensures CapHolds(isLocked) <==> isLocked
    ensures CooldownHolds(isLocked) <==> isLocked
  {
    if isLocked {
      CapAndCooldownHold();
    } else {
      var s := CapNeedsLock(DAILY_CAP - 1);
      var t := CooldownNeedsLock();
    }
  }

  // ---------- Calling one off ----------

  predicate IsCalledOff(s: State, id: nat) {
    id in s.rows && s.rows[id].isCancelled && s.rows[id].sentAt.None?
  }

  // A reply called off before it was claimed never goes out, with the lock or without, however the run goes on.
  lemma CancelStopsTheReply(isLocked: bool, s: State, id: nat, t: State)
    requires id in s.rows && IsOpen(s.rows[id])
    requires Leads(Protocol(isLocked), Apply(isLocked, s, Cancel(id)), t)
    ensures IsCalledOff(t, id)
  {
    forall a, b | IsCalledOff(a, id) && Protocol(isLocked).next(a, b) ensures IsCalledOff(b, id) {
      var step :| Enabled(isLocked, a, step) && b == Apply(isLocked, a, step);
      StaysCalledOff(isLocked, a, step, id);
    }
    Onward(Protocol(isLocked), a => IsCalledOff(a, id), Apply(isLocked, s, Cancel(id)), t);
  }

  lemma StaysCalledOff(isLocked: bool, s: State, step: Step, id: nat)
    requires IsCalledOff(s, id) && Enabled(isLocked, s, step)
    ensures IsCalledOff(Apply(isLocked, s, step), id)
  {
  }
}
