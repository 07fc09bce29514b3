/**
 One Gmail mailbox and the listener: notifications handled concurrently, retried and abandoned, reconnects,
 renewed watches, crashes, and a saved history ID read back after them. Saves reach the database in any order.
 */
module Baseline {
  import opened Common
  import opened Runs

  type Message = nat

  // How many of a mailbox's newest messages a catch-up covers.
  const CATCH_UP: nat := 50

  datatype Reason = BeforeWatch | Abandoned | Fallback

  // What is left out on purpose: after `from`, up to `to`, and not among those a catch-up reached.
  datatype Range = Range(reason: Reason, from: int, to: nat, caughtUp: set<Message>)

  predicate Excuses(range: Range, m: Message, at: nat) {
    range.from < at <= range.to && m !in range.caughtUp
  }

  // A mailbox as the process holds it; a reconnect starts another. holder: who has its ingesting lock.
  datatype Box = Box(baseline: nat, holder: Option<nat>)

  datatype Task =
    | Waiting(box: nat, id: nat)
    | Listing(box: nat, id: nat, start: nat)
    | CatchingUp(box: nat, id: nat, start: nat)
    | Ingesting(box: nat, id: nat, start: nat, todo: set<Message>, skipped: set<Range>)
    | Failed(box: nat, id: nat)
    | Saving(box: nat, id: nat, isHolding: bool)
    | Loaded(row: Option<nat>)
    | Starting(baseline: nat)

  // known, below: which of the listed messages the lookup found stored; none when it failed.
  // arrived: the history ID each INBOX message came in at. accounted: stored, quarantined or deliberately skipped.
  datatype State = State(head: nat, arrived: map<Message, nat>, accounted: set<Message>, ranges: set<Range>,
                         boxes: map<nat, Box>, tasks: map<nat, Task>, saved: Option<nat>)

  datatype Step =
    | Arrive(new_: set<Message>, head: nat)
    | Notify(t: nat, box: nat, id: nat)
    | Lock(t: nat)
    | ListAll(t: nat, known: set<Message>)
    | ListUnusable(t: nat)
    | ListRecent(t: nat, recent: set<Message>, known: set<Message>)
    | Ingest(t: nat, m: Message)
    | Fail(t: nat)
    | Advance(t: nat)
    | Abandon(t: nat)
    | Nack(t: nat)
    | Save(t: nat, isSaved: bool)
    | LoadRow(t: nat)
    | Watch(t: nat)
    | Register(t: nat, box: nat, isSaved: bool)
    | RenewWatch(t: nat, box: nat)
    | Drop(box: nat)
    | Disconnect
    | Crash

  function After(s: State, start: int): set<Message> {
    set m | m in s.arrived && s.arrived[m] > start
  }

  // One page of CATCH_UP messages, or all of them when there are fewer. Gmail lists the newest by date, which need
  // not follow the history IDs, so any may be among them.
  predicate AreRecent(s: State, recent: set<Message>) {
    && recent <= s.arrived.Keys
    && |recent| <= CATCH_UP
    && (|recent| < CATCH_UP ==> recent == s.arrived.Keys)
  }

  predicate Holds(s: State, t: nat) {
    && t in s.tasks
    && (s.tasks[t].Listing? || s.tasks[t].CatchingUp? || s.tasks[t].Ingesting?
        || (s.tasks[t].Saving? && s.tasks[t].isHolding))
  }

  // A handler keeps the mailbox it looked up, whatever is registered since.
  predicate IsOf(task: Task, box: nat) {
    !task.Loaded? && !task.Starting? && task.box == box
  }

  // Drop: a mailbox no longer registered is gone once its last handler is done.
  predicate Enabled(s: State, step: Step) {
    match step
    case Arrive(new_, head) => s.head < head && new_ !! s.arrived.Keys
    case Notify(t, box, id) => t !in s.tasks && box in s.boxes && id <= s.head
    case Lock(t) =>
      t in s.tasks && s.tasks[t].Waiting? && s.tasks[t].box in s.boxes && s.boxes[s.tasks[t].box].holder.None?
    case ListAll(t, known) => t in s.tasks && s.tasks[t].Listing? && known <= s.accounted
    case ListUnusable(t) => t in s.tasks && s.tasks[t].Listing?
    case ListRecent(t, recent, known) =>
      t in s.tasks && s.tasks[t].CatchingUp? && AreRecent(s, recent) && known <= s.accounted
    case Ingest(t, m) => t in s.tasks && s.tasks[t].Ingesting? && m in s.tasks[t].todo
    case Fail(t) =>
      && t in s.tasks && (s.tasks[t].Listing? || s.tasks[t].CatchingUp? || s.tasks[t].Ingesting?)
      && s.tasks[t].box in s.boxes
    case Advance(t) => t in s.tasks && s.tasks[t].Ingesting? && s.tasks[t].todo == {} && s.tasks[t].box in s.boxes
    case Abandon(t) => t in s.tasks && s.tasks[t].Failed? && s.tasks[t].box in s.boxes
    case Nack(t) => t in s.tasks && s.tasks[t].Failed?
    case Save(t, _) => t in s.tasks && s.tasks[t].Saving? && s.tasks[t].box in s.boxes
    case LoadRow(t) => t !in s.tasks
    case Watch(t) => t in s.tasks && s.tasks[t].Loaded?
    case Register(t, box, _) => t in s.tasks && s.tasks[t].Starting? && box !in s.boxes
    case RenewWatch(t, box) => t !in s.tasks && box in s.boxes
    case Drop(box) => box in s.boxes && forall t :: t in s.tasks ==> !IsOf(s.tasks[t], box)
    case Disconnect => true
    case Crash => true
  }

  function Unlocked(s: State, box: nat): State
    requires box in s.boxes
  {
    s.(boxes := s.boxes[box := s.boxes[box].(holder := None)])
  }

  // The forward-only raise; when it moved, the new baseline is left to be saved.
  function Raised(s: State, t: nat, box: nat, id: nat, isHolding: bool): State
    requires box in s.boxes
  {
    if id <= s.boxes[box].baseline then
      (if isHolding then Unlocked(s, box) else s).(tasks := s.tasks - {t})
    else
      s.(boxes := s.boxes[box := s.boxes[box].(baseline := id)], tasks := s.tasks[t := Saving(box, id, isHolding)])
  }

  function Apply(s: State, step: Step): State
    requires Enabled(s, step)
  {
    match step
    case Arrive(new_, head) => s.(head := head, arrived := s.arrived + map m | m in new_ :: head)
    case Notify(t, box, id) => s.(tasks := s.tasks[t := Waiting(box, id)])
    case Lock(t) =>
      var task := s.tasks[t];
      var start := s.boxes[task.box].baseline;
      if start != 0 && task.id <= start then s.(tasks := s.tasks - {t})
      else
        s.(boxes := s.boxes[task.box := Box(start, Some(t))],
           tasks := s.tasks[t := if start == 0 then CatchingUp(task.box, task.id, 0)
                                 else Listing(task.box, task.id, start)])
    case ListAll(t, known) =>
      var task := s.tasks[t];
      s.(tasks := s.tasks[t := Ingesting(task.box, task.id, task.start, After(s, task.start) - known, {})])
    case ListUnusable(t) => s.(tasks := s.tasks[t := CatchingUp(s.tasks[t].box, s.tasks[t].id, s.tasks[t].start)])
    case ListRecent(t, recent, known) =>
      var task := s.tasks[t];
      s.(tasks := s.tasks[t := Ingesting(task.box, task.id, task.start, recent - known,
                                         {Range(Fallback, task.start, task.id, recent)})])
    case Ingest(t, m) =>
      s.(accounted := s.accounted + {m}, tasks := s.tasks[t := s.tasks[t].(todo := s.tasks[t].todo - {m})])
    case Fail(t) =>
      Unlocked(s, s.tasks[t].box).(tasks := s.tasks[t := Failed(s.tasks[t].box, s.tasks[t].id)])
    case Advance(t) =>
      Raised(s.(ranges := s.ranges + s.tasks[t].skipped), t, s.tasks[t].box, s.tasks[t].id, true)
    case Abandon(t) =>
      var task := s.tasks[t];
      var range := Range(Abandoned, s.boxes[task.box].baseline, task.id, {});
      Raised(s.(ranges := s.ranges + {range}), t, task.box, task.id, false)
    case Nack(t) => s.(tasks := s.tasks - {t})
    case Save(t, isSaved) =>
      var task := s.tasks[t];
      (if task.isHolding then Unlocked(s, task.box) else s)
      .(saved := if isSaved then Some(task.id) else s.saved, tasks := s.tasks - {t})
    case LoadRow(t) => s.(tasks := s.tasks[t := Loaded(s.saved)])
    case Watch(t) =>
      var row := s.tasks[t].row;
      if row.Some? && row.value != 0 then s.(tasks := s.tasks[t := Starting(row.value)])
      else s.(ranges := s.ranges + {Range(BeforeWatch, -1, s.head, {})}, tasks := s.tasks[t := Starting(s.head)])
    case Register(t, box, isSaved) =>
      s.(saved := if isSaved then Some(s.tasks[t].baseline) else s.saved,
         boxes := s.boxes[box := Box(s.tasks[t].baseline, None)], tasks := s.tasks - {t})
    case RenewWatch(t, box) =>
      var b := s.boxes[box];
      if b.baseline != 0 then s.(tasks := s.tasks[t := Saving(box, b.baseline, false)])
      else s.(ranges := s.ranges + {Range(BeforeWatch, -1, s.head, {})},
              boxes := s.boxes[box := b.(baseline := s.head)], tasks := s.tasks[t := Saving(box, s.head, false)])
    case Drop(box) => s.(boxes := s.boxes - {box})
    case Disconnect => s.(saved := None)
    case Crash => s.(boxes := map[], tasks := map[])
  }

  ghost function Protocol(): System<State> {
    System(s => s == State(0, map[], {}, {}, map[], map[], None),
           (s, t) => exists step :: Enabled(s, step) && t == Apply(s, step))
  }

  // ---------- Everything at or below a baseline is accounted for ----------

  ghost predicate IsExcused(s: State, m: Message)
    requires m in s.arrived
  {
    exists r :: r in s.ranges && Excuses(r, m, s.arrived[m])
  }

  ghost predicate IsAccounted(s: State, m: Message)
    requires m in s.arrived
  {
    m in s.accounted || IsExcused(s, m)
  }

  ghost predicate IsCovered(s: State, baseline: nat) {
    baseline <= s.head && forall m :: m in s.arrived && s.arrived[m] <= baseline ==> IsAccounted(s, m)
  }

  // Nothing up to the notification's ID is forgotten once `todo` is done and what it skips is recorded.
  ghost predicate WillCover(s: State, task: Task)
    requires task.Ingesting?
  {
    forall m :: m in s.arrived && s.arrived[m] <= task.id ==>
      IsAccounted(s, m) || m in task.todo || exists r :: r in task.skipped && Excuses(r, m, s.arrived[m])
  }

  ghost predicate TaskIsSound(s: State, task: Task) {
    match task
    case Waiting(_, id) => id <= s.head
    case Listing(_, id, start) => id <= s.head && IsCovered(s, start)
    case CatchingUp(_, id, start) => id <= s.head && IsCovered(s, start)
    case Ingesting(_, id, _, _, _) => id <= s.head && WillCover(s, task)
    case Failed(_, id) => id <= s.head
    case Saving(_, id, _) => IsCovered(s, id)
    case Loaded(row) => row.Some? ==> IsCovered(s, row.value)
    case Starting(baseline) => IsCovered(s, baseline)
  }

  // Whoever is between Lock and its unlock is the holder: one notification at a time per mailbox.
  ghost predicate LocksFit(s: State) {
    forall t :: Holds(s, t) ==> s.tasks[t].box in s.boxes && s.boxes[s.tasks[t].box].holder == Some(t)
  }

  lemma StepKeepsLocks(s: State, step: Step)
    requires LocksFit(s) && Enabled(s, step)
    ensures LocksFit(Apply(s, step))
  {
    var after := Apply(s, step);
    forall t | Holds(after, t)
      ensures after.tasks[t].box in after.boxes && after.boxes[after.tasks[t].box].holder == Some(t) {
      assert Holds(s, t) ==> s.boxes[s.tasks[t].box].holder == Some(t);
    }
  }

  ghost predicate Inv(s: State) {
    && (forall m :: m in s.arrived ==> s.arrived[m] <= s.head)
    && (forall b :: b in s.boxes ==> IsCovered(s, s.boxes[b].baseline))
    && (forall t :: t in s.tasks ==> TaskIsSound(s, s.tasks[t]))
    && (s.saved.Some? ==> IsCovered(s, s.saved.value))
  }

  // A step only adds messages above the head, and only adds to what is accounted for.
  predicate Grows(s: State, t: State) {
    && s.head <= t.head && s.arrived.Keys <= t.arrived.Keys
    && (forall m :: m in t.arrived ==> if m in s.arrived then t.arrived[m] == s.arrived[m] else t.arrived[m] > s.head)
    && s.accounted <= t.accounted && s.ranges <= t.ranges
  }

  lemma StepGrows(s: State, step: Step)
    requires Enabled(s, step)
    ensures Grows(s, Apply(s, step))
  {
  }

  lemma StaysCovered(s: State, t: State, baseline: nat)
    requires IsCovered(s, baseline) && Grows(s, t)
    ensures IsCovered(t, baseline)
  {
    forall m | m in t.arrived && t.arrived[m] <= baseline ensures IsAccounted(t, m) {
      assert IsAccounted(s, m);
    }
  }

  lemma StaysSound(s: State, t: State, task: Task)
    requires TaskIsSound(s, task) && Grows(s, t)
    ensures TaskIsSound(t, task)
  {
    match task
    case Listing(_, _, start) => StaysCovered(s, t, start);
    case CatchingUp(_, _, start) => StaysCovered(s, t, start);
    case Saving(_, id, _) => StaysCovered(s, t, id);
    case Starting(baseline) => StaysCovered(s, t, baseline);
    case Loaded(row) => if row.Some? { StaysCovered(s, t, row.value); }
    case Ingesting(_, id, _, todo, skipped) =>
      forall m | m in t.arrived && t.arrived[m] <= id
        ensures IsAccounted(t, m) || m in todo || exists r :: r in skipped && Excuses(r, m, t.arrived[m]) {
        assert IsAccounted(s, m) ==> IsAccounted(t, m);
      }
    case _ =>
  }

  // What a step does not touch stays covered and sound.
  lemma RestStaysSound(s: State, t: State)
    requires Inv(s) && Grows(s, t)
    ensures forall b :: b in s.boxes ==> IsCovered(t, s.boxes[b].baseline)
    ensures forall x :: x in s.tasks ==> TaskIsSound(t, s.tasks[x])
    ensures s.saved.Some? ==> IsCovered(t, s.saved.value)
  {
    forall b | b in s.boxes ensures IsCovered(t, s.boxes[b].baseline) {
      StaysCovered(s, t, s.boxes[b].baseline);
    }
    forall x | x in s.tasks ensures TaskIsSound(t, s.tasks[x]) {
      StaysSound(s, t, s.tasks[x]);
    }
    if s.saved.Some? {
      StaysCovered(s, t, s.saved.value);
    }
  }

  // A finished range: nothing is left to do, and what it skips is on record.
  lemma FinishedIsCovered(s: State, t: State, task: Task)
    requires TaskIsSound(s, task) && task.Ingesting? && task.todo == {}
    requires Grows(s, t) && t.arrived == s.arrived && t.accounted == s.accounted && task.skipped <= t.ranges
    ensures IsCovered(t, task.id)
  {
    forall m | m in t.arrived && t.arrived[m] <= task.id ensures IsAccounted(t, m) {
      assert IsAccounted(s, m) ==> IsAccounted(t, m);
    }
  }

  // One range on record from a covered baseline on covers all it spans.
  lemma RangeCovers(s: State, from: nat, to: nat, range: Range)
    requires range in s.ranges && range.caughtUp == {} && range.to == to <= s.head
    requires range.from == -1 || (range.from == from && IsCovered(s, from))
    ensures IsCovered(s, to)
  {
    forall m | m in s.arrived && s.arrived[m] <= to ensures IsAccounted(s, m) {
      assert range.from == -1 || s.arrived[m] <= from || Excuses(range, m, s.arrived[m]);
      assert range.from == -1 ==> Excuses(range, m, s.arrived[m]);
    }
  }

  lemma ListKeepsInv(s: State, step: Step)
    requires Inv(s) && Enabled(s, step)
    requires step.ListAll? || step.ListUnusable? || step.ListRecent? || step.Ingest?
    ensures Inv(Apply(s, step))
  {
    var t := Apply(s, step);
    StepGrows(s, step);
    RestStaysSound(s, t);
    var task := s.tasks[step.t];
    assert TaskIsSound(t, task);
    if step.ListAll? || step.ListRecent? {
      var after := t.tasks[step.t];
      forall m | m in t.arrived && t.arrived[m] <= after.id
        ensures IsAccounted(t, m) || m in after.todo
                || exists r :: r in after.skipped && Excuses(r, m, t.arrived[m]) {
        if step.ListRecent? && t.arrived[m] > task.start && m !in step.recent {
          var range := Range(Fallback, task.start, task.id, step.recent);
          assert range in after.skipped && Excuses(range, m, t.arrived[m]);
        }
      }
    }
  }

  lemma RaiseKeepsInv(s: State, step: Step)
    requires Inv(s) && Enabled(s, step)
    requires step.Advance? || step.Abandon?
    ensures Inv(Apply(s, step))
  {
    var t := Apply(s, step);
    StepGrows(s, step);
    RestStaysSound(s, t);
    var task := s.tasks[step.t];
    assert TaskIsSound(t, task);
    if step.Advance? {
      FinishedIsCovered(s, t, task);
    } else {
      RangeCovers(t, s.boxes[task.box].baseline, task.id,
                  Range(Abandoned, s.boxes[task.box].baseline, task.id, {}));
    }
  }

  lemma WatchKeepsInv(s: State, t: nat)
    requires Inv(s) && Enabled(s, Watch(t))
    ensures Inv(Apply(s, Watch(t)))
  {
    var after := Apply(s, Watch(t));
    StepGrows(s, Watch(t));
    RestStaysSound(s, after);
    assert TaskIsSound(after, s.tasks[t]);
    var range := Range(BeforeWatch, -1, s.head, {});
    if range in after.ranges {
      RangeCovers(after, 0, s.head, range);
    }
  }

  lemma RenewKeepsInv(s: State, t: nat, box: nat)
    requires Inv(s) && Enabled(s, RenewWatch(t, box))
    ensures Inv(Apply(s, RenewWatch(t, box)))
  {
    var after := Apply(s, RenewWatch(t, box));
    StepGrows(s, RenewWatch(t, box));
    RestStaysSound(s, after);
    if s.boxes[box].baseline == 0 {
      RangeCovers(after, 0, s.head, Range(BeforeWatch, -1, s.head, {}));
    }
  }

  lemma RegisterKeepsInv(s: State, step: Step)
    requires Inv(s) && Enabled(s, step)
    requires step.Register? || step.LoadRow?
    ensures Inv(Apply(s, step))
  {
    StepGrows(s, step);
    RestStaysSound(s, Apply(s, step));
    assert step.Register? ==> TaskIsSound(Apply(s, step), s.tasks[step.t]);
  }

  lemma WaitKeepsInv(s: State, step: Step)
    requires Inv(s) && Enabled(s, step)
    requires step.Arrive? || step.Notify? || step.Lock? || step.Fail? || step.Nack?
    ensures Inv(Apply(s, step))
  {
    StepGrows(s, step);
    RestStaysSound(s, Apply(s, step));
  }

  lemma StepKeepsInv(s: State, step: Step)
    requires Inv(s) && Enabled(s, step)
    ensures Inv(Apply(s, step))
  {
    if step.ListAll? || step.ListUnusable? || step.ListRecent? || step.Ingest? {
      ListKeepsInv(s, step);
    } else if step.Advance? || step.Abandon? {
      RaiseKeepsInv(s, step);
    } else if step.Watch? {
      WatchKeepsInv(s, step.t);
    } else if step.RenewWatch? {
      RenewKeepsInv(s, step.t, step.box);
    } else if step.Register? || step.LoadRow? {
      RegisterKeepsInv(s, step);
    } else if step.Save? || step.Drop? || step.Disconnect? || step.Crash? {
      StepGrows(s, step);
      RestStaysSound(s, Apply(s, step));
    } else {
      WaitKeepsInv(s, step);
    }
  }

  lemma ReachableIsSound(s: State)
    requires Reachable(Protocol(), s)
    ensures Inv(s)
  {
    forall t, u | Inv(t) && Protocol().next(t, u) ensures Inv(u) {
      var step :| Enabled(t, step) && u == Apply(t, step);
      StepKeepsInv(t, step);
    }
    Always(Protocol(), t => Inv(t), s);
  }

  // What a catch-up reached is stored once its range is on record, and listed until then.
  ghost predicate CatchUpsFit(s: State) {
    && (forall r :: r in s.ranges ==> r.caughtUp <= s.accounted)
    && forall t :: t in s.tasks && s.tasks[t].Ingesting? ==>
         forall r :: r in s.tasks[t].skipped ==> r.caughtUp <= s.accounted + s.tasks[t].todo
  }

  lemma StepKeepsCatchUps(s: State, step: Step)
    requires CatchUpsFit(s) && Enabled(s, step)
    ensures CatchUpsFit(Apply(s, step))
  {
    var after := Apply(s, step);
    StepGrows(s, step);
    if step.Advance? {
      assert s.tasks[step.t].skipped <= after.ranges && s.tasks[step.t].todo == {};
    }
    forall t | t in after.tasks && after.tasks[t].Ingesting?
      ensures forall r :: r in after.tasks[t].skipped ==> r.caughtUp <= after.accounted + after.tasks[t].todo
    {
      ListedStaysListed(s, step, t);
    }
  }

  lemma ListedStaysListed(s: State, step: Step, t: nat)
    requires CatchUpsFit(s) && Enabled(s, step)
    requires t in Apply(s, step).tasks && Apply(s, step).tasks[t].Ingesting?
    ensures var after := Apply(s, step);
            forall r :: r in after.tasks[t].skipped ==> r.caughtUp <= after.accounted + after.tasks[t].todo
  {
  }

  /**
   In every run, an INBOX message at or below the saved baseline, or below any mailbox's in memory, is stored,
   quarantined or skipped, or lies in a range recorded as abandoned, as fallen back over, or as older than the
   first watch; and one the fallback's catch-up reached is itself accounted for, never left to that range.
   */
  lemma NothingIsForgotten(s: State, m: Message)
    requires Reachable(Protocol(), s) && m in s.arrived
    ensures s.saved.Some? && s.arrived[m] <= s.saved.value ==> IsAccounted(s, m)
    ensures forall b :: b in s.boxes && s.arrived[m] <= s.boxes[b].baseline ==> IsAccounted(s, m)
    ensures forall r :: r in s.ranges && m in r.caughtUp ==> m in s.accounted && !Excuses(r, m, s.arrived[m])
  {
    ReachableIsSound(s);
    forall a, b | CatchUpsFit(a) && Protocol().next(a, b) ensures CatchUpsFit(b) {
      var step :| Enabled(a, step) && b == Apply(a, step);
      StepKeepsCatchUps(a, step);
    }
    Always(Protocol(), a => CatchUpsFit(a), s);
    if s.saved.Some? {
      assert IsCovered(s, s.saved.value);
    }
    forall b | b in s.boxes && s.arrived[m] <= s.boxes[b].baseline ensures IsAccounted(s, m) {
      assert IsCovered(s, s.boxes[b].baseline);
    }
  }

  // One mailbox's baseline never falls while the process runs: whatever comes later, short of a crash.
  lemma {:induction false} BaselineNeverFalls(trace: seq<State>, box: nat)
    requires IsTrace(Protocol(), trace) && box in trace[0].boxes
    requires forall i :: 0 <= i < |trace| ==> box in trace[i].boxes
    ensures trace[|trace| - 1].boxes[box].baseline >= trace[0].boxes[box].baseline
    decreases |trace|
  {
    if |trace| > 1 {
      var before, last := trace[|trace| - 2], trace[|trace| - 1];
      BaselineNeverFalls(trace[..|trace| - 1], box);
      assert Protocol().next(before, last);
      var step :| Enabled(before, step) && last == Apply(before, step);
      StepNeverLowers(before, step, box);
    }
  }

  lemma StepNeverLowers(s: State, step: Step, box: nat)
    requires Enabled(s, step) && box in s.boxes && box in Apply(s, step).boxes
    ensures Apply(s, step).boxes[box].baseline >= s.boxes[box].baseline
  {
  }

  // Past the lock, one notification per mailbox, whatever failed before.
  lemma OneNotificationAtATime(s: State, t: nat, u: nat)
    requires Reachable(Protocol(), s) && Holds(s, t) && Holds(s, u) && s.tasks[t].box == s.tasks[u].box
    ensures t == u
  {
    forall a, b | LocksFit(a) && Protocol().next(a, b) ensures LocksFit(b) {
      var step :| Enabled(a, step) && b == Apply(a, step);
      StepKeepsLocks(a, step);
    }
    Always(Protocol(), a => LocksFit(a), s);
  }
}
