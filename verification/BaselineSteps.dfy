/**
 What a notification comes to: how it gets through, falls back, gives up or is let go; and that nothing is recorded,
 listed, raised, saved or dropped for any other reason.
 */
module BaselineSteps {
  import opened Common
  import opened Runs
  import opened Baseline

  // ---------- A notification on its own, from beginning to end ----------

  lemma Go(s: State, t: State, step: Step) returns (u: State)
    requires Leads(Protocol(), s, t) && Enabled(t, step)
    ensures u == Apply(t, step) && Leads(Protocol(), s, u)
  {
    u := Apply(t, step);
    assert Protocol().next(t, u);
    Further(Protocol(), s, t, u);
  }

  lemma Stay(s: State)
    ensures Leads(Protocol(), s, s)
  {
    assert IsTrace(Protocol(), [s]) && [s][0] == s;
  }

  function Done(s: State, t: nat): State
    requires t in s.tasks && s.tasks[t].Ingesting?
  {
    s.(accounted := s.accounted + s.tasks[t].todo, tasks := s.tasks[t := s.tasks[t].(todo := {})])
  }

  lemma IngestAll(s: State, now: State, t: nat)
    requires Leads(Protocol(), s, now) && t in now.tasks && now.tasks[t].Ingesting?
    ensures Leads(Protocol(), s, Done(now, t))
    decreases |now.tasks[t].todo|
  {
    if now.tasks[t].todo == {} {
      assert Done(now, t) == now;
    } else {
      var m :| m in now.tasks[t].todo;
      var next := Go(s, now, Ingest(t, m));
      OneLess(now, t, m);
      IngestAll(s, next, t);
    }
  }

  lemma OneLess(now: State, t: nat, m: Message)
    requires Enabled(now, Ingest(t, m))
    ensures var next := Apply(now, Ingest(t, m));
            && t in next.tasks && next.tasks[t].Ingesting? && next.tasks[t].todo == now.tasks[t].todo - {m}
            && Done(next, t) == Done(now, t)
  {
    var next := Apply(now, Ingest(t, m));
    assert next.accounted + next.tasks[t].todo == now.accounted + now.tasks[t].todo;
    assert Done(next, t).tasks == Done(now, t).tasks;
  }

  predicate IsNew(s: State, t: nat, box: nat, id: nat) {
    t !in s.tasks && box in s.boxes && s.boxes[box].holder.None? && s.boxes[box].baseline < id <= s.head
  }

  // How a notification that came through leaves things.
  function Through(s: State, box: nat, id: nat, stored: set<Message>, left: set<Range>): State {
    s.(accounted := s.accounted + stored, ranges := s.ranges + left, boxes := s.boxes[box := Box(id, None)],
       saved := Some(id))
  }

  lemma Locked(s: State, t: nat, box: nat, id: nat) returns (u: State)
    requires IsNew(s, t, box, id)
    ensures Leads(Protocol(), s, u)
    ensures var start := s.boxes[box].baseline;
            u == s.(boxes := s.boxes[box := Box(start, Some(t))],
                    tasks := s.tasks[t := if start == 0 then CatchingUp(box, id, 0) else Listing(box, id, start)])
  {
    Stay(s);
    u := Go(s, s, Notify(t, box, id));
    u := Go(s, u, Lock(t));
    assert u.tasks == s.tasks[t := u.tasks[t]];
  }

  lemma FinishAndSave(s: State, now: State, t: nat, box: nat, id: nat)
    requires IsNew(s, t, box, id) && Leads(Protocol(), s, now)
    requires t in now.tasks && now.tasks[t].Ingesting? && now.tasks[t].box == box && now.tasks[t].id == id
    requires now == s.(boxes := s.boxes[box := Box(s.boxes[box].baseline, Some(t))],
                       tasks := s.tasks[t := now.tasks[t]])
    ensures Leads(Protocol(), s, Through(s, box, id, now.tasks[t].todo, now.tasks[t].skipped))
  {
    IngestAll(s, now, t);
    var u := Go(s, Done(now, t), Advance(t));
    u := Go(s, u, Save(t, true));
    var end := Through(s, box, id, now.tasks[t].todo, now.tasks[t].skipped);
    assert u.tasks == end.tasks && u.boxes == end.boxes;
  }

  /**
   A notification newer than its mailbox's baseline can come through: every message that came in since the baseline
   is then accounted for, nothing more is recorded as left out, and its history ID is the baseline and saved.
   */
  lemma GetsThrough(s: State, t: nat, box: nat, id: nat)
    requires IsNew(s, t, box, id) && s.boxes[box].baseline > 0
    ensures Leads(Protocol(), s,
                  Through(s, box, id, set m | m in s.arrived && s.arrived[m] > s.boxes[box].baseline, {}))
  {
    var u := Locked(s, t, box, id);
    u := Go(s, u, ListAll(t, {}));
    assert u.tasks == s.tasks[t := u.tasks[t]];
    FinishAndSave(s, u, t, box, id);
    assert u.tasks[t].todo == set m | m in s.arrived && s.arrived[m] > s.boxes[box].baseline;
  }

  // Without a baseline, or where Gmail's history does not reach back to it, the newest page is stored and what lies
  // between the two recorded.
  lemma FallsBack(s: State, t: nat, box: nat, id: nat, recent: set<Message>)
    requires IsNew(s, t, box, id) && recent <= s.arrived.Keys
    requires |recent| <= 50 && (|recent| < 50 ==> recent == s.arrived.Keys)
    ensures Leads(Protocol(), s,
                  Through(s, box, id, recent, {Range(Fallback, s.boxes[box].baseline, id, recent)}))
  {
    var u := Locked(s, t, box, id);
    if s.boxes[box].baseline > 0 {
      u := Go(s, u, ListUnusable(t));
      assert u.tasks == s.tasks[t := u.tasks[t]];
    }
    u := Go(s, u, ListRecent(t, recent, {}));
    assert u.tasks == s.tasks[t := u.tasks[t]];
    FinishAndSave(s, u, t, box, id);
    assert u.tasks[t].todo == recent;
  }

  // One that fails to the last try can be given up, its range on record.
  lemma GivesUp(s: State, t: nat, box: nat, id: nat)
    requires IsNew(s, t, box, id)
    ensures Leads(Protocol(), s,
                  Through(s, box, id, {}, {Range(Abandoned, s.boxes[box].baseline, id, {})}))
  {
    var u := Locked(s, t, box, id);
    u := Go(s, u, Fail(t));
    assert u.tasks == s.tasks[t := Failed(box, id)] && u.boxes == s.boxes;
    AbandonAndSave(s, u, t, box, id);
  }

  lemma AbandonAndSave(s: State, now: State, t: nat, box: nat, id: nat)
    requires IsNew(s, t, box, id) && Leads(Protocol(), s, now)
    requires now == s.(tasks := s.tasks[t := Failed(box, id)])
    ensures Leads(Protocol(), s, Through(s, box, id, {}, {Range(Abandoned, s.boxes[box].baseline, id, {})}))
  {
    var u := Go(s, now, Abandon(t));
    u := Go(s, u, Save(t, true));
    var end := Through(s, box, id, {}, {Range(Abandoned, s.boxes[box].baseline, id, {})});
    assert u.tasks == end.tasks && u.boxes == end.boxes;
  }

  // One the mailbox is already past leaves everything as it was.
  lemma IsLetGo(s: State, t: nat, box: nat, id: nat)
    requires t !in s.tasks && box in s.boxes && s.boxes[box].holder.None? && id <= s.boxes[box].baseline
    requires 0 < s.boxes[box].baseline && id <= s.head
    ensures Enabled(s, Notify(t, box, id)) && Enabled(Apply(s, Notify(t, box, id)), Lock(t))
    ensures Apply(Apply(s, Notify(t, box, id)), Lock(t)) == s
  {
    assert Apply(Apply(s, Notify(t, box, id)), Lock(t)).tasks == s.tasks;
  }

  // ---------- Nothing is recorded, stored or dropped for another reason ----------

  // A task's range is one that a catch-up on at most a page falls back over.
  predicate IsFallback(task: Task, range: Range)
    requires task.Ingesting?
  {
    && range == Range(Fallback, task.start, task.id, range.caughtUp)
    && |range.caughtUp| <= 50
  }

  ghost predicate SkipsFit(s: State) {
    forall t, r :: t in s.tasks && s.tasks[t].Ingesting? && r in s.tasks[t].skipped ==> IsFallback(s.tasks[t], r)
  }

  lemma StepKeepsSkips(s: State, step: Step)
    requires SkipsFit(s) && Enabled(s, step)
    ensures SkipsFit(Apply(s, step))
  {
    var after := Apply(s, step);
    forall t, r | t in after.tasks && after.tasks[t].Ingesting? && r in after.tasks[t].skipped
      ensures IsFallback(after.tasks[t], r)
    {
      if t in s.tasks && s.tasks[t].Ingesting? {
        assert after.tasks[t].skipped == s.tasks[t].skipped;
        assert IsFallback(s.tasks[t], r);
      }
    }
  }

  /**
   In every run a range is recorded only by a first watch, from the beginning to the mailbox's head; by giving a
   failed notification up, from the baseline to it; or with a finished catch-up on at most a page, from the baseline
   it started at to its notification. And none is ever taken off the record.
   */
  lemma RecordedForAReason(s: State, step: Step, r: Range)
    requires Reachable(Protocol(), s) && Enabled(s, step)
    ensures s.ranges <= Apply(s, step).ranges
    ensures r in Apply(s, step).ranges && r !in s.ranges ==> IsReason(s, step, r)
  {
    forall a, b | SkipsFit(a) && Protocol().next(a, b) ensures SkipsFit(b) {
      var next :| Enabled(a, next) && b == Apply(a, next);
      StepKeepsSkips(a, next);
    }
    Always(Protocol(), a => SkipsFit(a), s);
    StepGrows(s, step);
  }

  predicate IsReason(s: State, step: Step, r: Range)
    requires Enabled(s, step)
  {
    match step
    case Watch(t) =>
      r == Range(BeforeWatch, -1, s.head, {}) && (s.tasks[t].row.None? || s.tasks[t].row.value == 0)
    case RenewWatch(_, box) => r == Range(BeforeWatch, -1, s.head, {}) && s.boxes[box].baseline == 0
    case Abandon(t) =>
      s.tasks[t].Failed? && r == Range(Abandoned, s.boxes[s.tasks[t].box].baseline, s.tasks[t].id, {})
    case Advance(t) => s.tasks[t].Ingesting? && s.tasks[t].todo == {} && IsFallback(s.tasks[t], r)
    case _ => false
  }

  // A task lists exactly what came in since its baseline and was not found stored, or a catch-up's page of it; and a
  // message is off the list exactly once it is accounted for.
  lemma ListedForAReason(s: State, step: Step, t: nat)
    requires Enabled(s, step) && t in Apply(s, step).tasks && Apply(s, step).tasks[t].Ingesting?
    ensures var task := Apply(s, step).tasks[t];
            && t in s.tasks
            && match s.tasks[t]
               case Ingesting(box, id, start, todo, skipped) =>
                 || task == s.tasks[t]
                 || (step.Ingest? && step.t == t && step.m in todo && step.m in Apply(s, step).accounted
                     && task == Ingesting(box, id, start, todo - {step.m}, skipped))
               case Listing(box, id, start) =>
                 && step.ListAll? && step.t == t && step.known <= s.accounted
                 && task == Ingesting(box, id, start,
                                      set m | m in s.arrived && s.arrived[m] > start && m !in step.known, {})
               case CatchingUp(box, id, start) =>
                 && step.ListRecent? && step.t == t && step.known <= s.accounted
                 && step.recent <= s.arrived.Keys && |step.recent| <= 50
                 && (|step.recent| < 50 ==> step.recent == s.arrived.Keys)
                 && task == Ingesting(box, id, start, step.recent - step.known,
                                      {Range(Fallback, start, id, step.recent)})
               case _ => false
  {
    var after := Apply(s, step);
    if step.ListAll? && step.t == t {
      assert after.tasks[t].todo == set m | m in s.arrived && s.arrived[m] > s.tasks[t].start && m !in step.known;
    }
  }

  lemma AccountedForAReason(s: State, step: Step)
    requires Enabled(s, step)
    ensures Apply(s, step).accounted == if step.Ingest? then s.accounted + {step.m} else s.accounted
    ensures step.Ingest? ==> s.tasks[step.t].Ingesting? && step.m in s.tasks[step.t].todo
  {
  }

  // A handler is done only when its mailbox is at its notification or past it, when it failed and Gmail's bus is to
  // deliver it again, when its ID was saved, when its mailbox is registered, or in a crash.
  lemma DroppedForAReason(s: State, step: Step, t: nat)
    requires Enabled(s, step) && t in s.tasks && t !in Apply(s, step).tasks
    ensures step.Crash? ||
            match s.tasks[t]
            case Waiting(box, id) => step == Lock(t) && 0 < s.boxes[box].baseline && id <= s.boxes[box].baseline
            case Ingesting(box, id, _, todo, _) => step == Advance(t) && todo == {} && id <= s.boxes[box].baseline
            case Failed(box, id) => step == Nack(t) || (step == Abandon(t) && id <= s.boxes[box].baseline)
            case Saving(_, _, _) => step.Save? && step.t == t
            case Starting(_) => step.Register? && step.t == t
            case _ => false
  {
  }

  // A baseline is moved only up to a notification that is through or given up, whose ID is then to be saved; or to
  // the mailbox's head by a watch, where there was none.
  lemma RaisedForAReason(s: State, step: Step, box: nat)
    requires Enabled(s, step) && box in s.boxes && box in Apply(s, step).boxes
    ensures var after := Apply(s, step);
            && (after.boxes[box].baseline != s.boxes[box].baseline ==>
                  || (&& (step.Advance? || step.Abandon?) && s.tasks[step.t].box == box
                      && after.boxes[box].baseline == s.tasks[step.t].id > s.boxes[box].baseline
                      && step.t in after.tasks && after.tasks[step.t] == Saving(box, s.tasks[step.t].id, step.Advance?))
                  || (&& step.RenewWatch? && step.box == box && s.boxes[box].baseline == 0
                      && after.boxes[box].baseline == s.head && step.t in after.tasks
                      && after.tasks[step.t] == Saving(box, s.head, false)))
            && ((step.Advance? || step.Abandon?) && s.tasks[step.t].box == box ==>
                  after.boxes[box].baseline >= s.tasks[step.t].id)
  {
  }

  lemma SavedForAReason(s: State, step: Step)
    requires Enabled(s, step)
    ensures Apply(s, step).saved ==
      match step
      case Save(t, true) => Some(s.tasks[t].id)
      case Register(t, _, true) => Some(s.tasks[t].baseline)
      case Disconnect => None
      case _ => s.saved
  {
  }

  // A mailbox starts from its saved ID, or from its head where none is saved; then the range before it is recorded.
  lemma StartsWhereItWas(s: State, step: Step)
    requires Enabled(s, step) && (step.LoadRow? || step.Watch? || step.Register?)
    ensures var after := Apply(s, step);
            match step
            case LoadRow(t) => after == s.(tasks := s.tasks[t := Loaded(s.saved)])
            case Watch(t) =>
              var row := s.tasks[t].row;
              && after.tasks == s.tasks[t := Starting(if row.Some? && row.value > 0 then row.value else s.head)]
              && (row.None? || row.value == 0 ==> Range(BeforeWatch, -1, s.head, {}) in after.ranges)
            case Register(t, box, _) =>
              after.boxes == s.boxes[box := Box(s.tasks[t].baseline, None)] && after.tasks == s.tasks - {t}
  {
  }
}
