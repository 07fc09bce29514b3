/**
 When the saved history ID can fall. Nothing in the code orders the saves of one mailbox, and a handler that looked
 its mailbox up before a reconnect goes on saving for it afterwards.
 */
module SavedBaseline {
  import opened Common
  import opened Runs
  import opened Baseline

  // What would have to be promised. savesInOrder: the saves made for one mailbox land in the order of their history
  // IDs. oneMailbox: a mailbox's row is read for a start only when the one before it is gone with its handlers.
  datatype Env = Env(savesInOrder: bool, oneMailbox: bool)

  predicate IsStart(task: Task) {
    task.Loaded? || task.Starting?
  }

  predicate IsBehind(s: State, t: nat, u: nat)
    requires t in s.tasks && s.tasks[t].Saving?
  {
    u in s.tasks && s.tasks[u].Saving? && s.tasks[u].box == s.tasks[t].box && s.tasks[u].id < s.tasks[t].id
  }

  predicate Allows(env: Env, s: State, step: Step)
    requires Enabled(s, step)
  {
    match step
    case Save(t, _) => env.savesInOrder ==> forall u :: u in s.tasks ==> !IsBehind(s, t, u)
    case LoadRow(_) => env.oneMailbox ==> s.boxes == map[] && forall u :: u in s.tasks ==> !IsStart(s.tasks[u])
    case _ => true
  }

  ghost function Under(env: Env): System<State> {
    System(Protocol().init, (s, t) => exists step :: Enabled(s, step) && Allows(env, s, step) && t == Apply(s, step))
  }

  // Once an ID is saved, no later one is lower: not by one step, and not by way of a row that was gone in between.
  ghost predicate NeverFalls(env: Env) {
    forall s, t | Reachable(Under(env), s) && Leads(Under(env), s, t) && s.saved.Some? && t.saved.Some? ::
      s.saved.value <= t.saved.value
  }

  // ---------- With both promises it never falls ----------

  // Whatever may be saved from here on is at least `floor`.
  ghost predicate IsFloor(s: State, floor: nat) {
    && floor <= s.head
    && (s.saved.Some? ==> floor <= s.saved.value)
    && (forall b :: b in s.boxes ==> floor <= s.boxes[b].baseline)
    && (forall t :: t in s.tasks ==> TaskIsAbove(s.tasks[t], floor))
  }

  predicate TaskIsAbove(task: Task, floor: nat) {
    match task
    case Saving(_, id, _) => floor <= id
    case Loaded(row) => row.Some? ==> floor <= row.value
    case Starting(baseline) => floor <= baseline
    case _ => true
  }

  predicate MovesBaseline(step: Step) {
    step.Advance? || step.Abandon? || step.RenewWatch?
  }

  predicate IsOfStart(step: Step) {
    step.LoadRow? || step.Watch? || step.Register?
  }

  // Every step keeps a floor: a raise goes up, and a start begins with what is saved or with the head.
  lemma StepKeepsFloor(s: State, step: Step, floor: nat)
    requires IsFloor(s, floor) && Enabled(s, step)
    ensures IsFloor(Apply(s, step), floor)
  {
    if MovesBaseline(step) {
      RaiseKeepsFloor(s, step, floor);
    } else if IsOfStart(step) {
      StartKeepsFloor(s, step, floor);
    } else {
      RestKeepsFloor(s, step, floor);
    }
  }

  lemma RaiseKeepsFloor(s: State, step: Step, floor: nat)
    requires IsFloor(s, floor) && Enabled(s, step) && MovesBaseline(step)
    ensures IsFloor(Apply(s, step), floor)
  {
  }

  lemma StartKeepsFloor(s: State, step: Step, floor: nat)
    requires IsFloor(s, floor) && Enabled(s, step) && IsOfStart(step)
    ensures IsFloor(Apply(s, step), floor)
  {
  }

  lemma RestKeepsFloor(s: State, step: Step, floor: nat)
    requires IsFloor(s, floor) && Enabled(s, step) && !MovesBaseline(step) && !IsOfStart(step)
    ensures IsFloor(Apply(s, step), floor)
  {
  }

  // One mailbox, or one on its way.
  ghost predicate IsAlone(s: State) {
    && (forall b, c :: b in s.boxes && c in s.boxes ==> b == c)
    && (forall t :: t in s.tasks && IsStart(s.tasks[t]) ==> s.boxes == map[])
    && (forall t, u :: t in s.tasks && u in s.tasks && IsStart(s.tasks[t]) && IsStart(s.tasks[u]) ==> t == u)
  }

  // Every other task is of a mailbox there is, and a save is of an ID that one has reached.
  ghost predicate IsHoused(s: State) {
    && (forall t :: t in s.tasks && !IsStart(s.tasks[t]) ==> s.tasks[t].box in s.boxes)
    && SavesAreReached(s)
  }

  ghost predicate OneLine(s: State) {
    IsAlone(s) && IsHoused(s)
  }

  lemma StepKeepsAlone(s: State, step: Step)
    requires IsAlone(s) && Enabled(s, step) && Allows(Env(true, true), s, step)
    ensures IsAlone(Apply(s, step))
  {
    if IsOfStart(step) {
      StartKeepsAlone(s, step);
    } else {
      NothingStarts(s, step);
      StaysAlone(s, Apply(s, step));
    }
  }

  lemma StartKeepsAlone(s: State, step: Step)
    requires IsAlone(s) && Enabled(s, step) && Allows(Env(true, true), s, step) && IsOfStart(step)
    ensures IsAlone(Apply(s, step))
  {
  }

  ghost predicate AddsNoStart(s: State, t: State) {
    && t.boxes.Keys <= s.boxes.Keys
    && forall u :: u in t.tasks && IsStart(t.tasks[u]) ==> u in s.tasks && IsStart(s.tasks[u])
  }

  lemma NothingStarts(s: State, step: Step)
    requires Enabled(s, step) && !IsOfStart(step)
    ensures AddsNoStart(s, Apply(s, step))
  {
  }

  lemma StaysAlone(s: State, t: State)
    requires IsAlone(s) && AddsNoStart(s, t)
    ensures IsAlone(t)
  {
  }

  lemma StepKeepsHoused(s: State, step: Step)
    requires IsHoused(s) && Enabled(s, step)
    ensures IsHoused(Apply(s, step))
  {
    TasksStayHoused(s, step);
    SavesStayReached(s, step);
  }

  lemma TasksStayHoused(s: State, step: Step)
    requires IsHoused(s) && Enabled(s, step)
    ensures var after := Apply(s, step);
            forall t :: t in after.tasks && !IsStart(after.tasks[t]) ==> after.tasks[t].box in after.boxes
  {
  }

  ghost predicate SavesAreReached(s: State) {
    forall t :: t in s.tasks && s.tasks[t].Saving? ==>
      s.tasks[t].box in s.boxes && s.tasks[t].id <= s.boxes[s.tasks[t].box].baseline
  }

  lemma SavesStayReached(s: State, step: Step)
    requires SavesAreReached(s) && Enabled(s, step)
    ensures SavesAreReached(Apply(s, step))
  {
    if MovesBaseline(step) {
      RaisedSavesAreReached(s, step);
    } else {
      OtherSavesAreReached(s, step);
    }
  }

  lemma RaisedSavesAreReached(s: State, step: Step)
    requires SavesAreReached(s) && Enabled(s, step) && MovesBaseline(step)
    ensures SavesAreReached(Apply(s, step))
  {
  }

  lemma OtherSavesAreReached(s: State, step: Step)
    requires SavesAreReached(s) && Enabled(s, step) && !MovesBaseline(step)
    ensures SavesAreReached(Apply(s, step))
  {
  }

  lemma StepKeepsOneLine(s: State, step: Step)
    requires OneLine(s) && Enabled(s, step) && Allows(Env(true, true), s, step)
    ensures OneLine(Apply(s, step))
  {
    StepKeepsAlone(s, step);
    StepKeepsHoused(s, step);
  }

  // What is saved is a floor of all that may be saved later.
  ghost predicate SavedIsFloor(s: State) {
    s.saved.Some? ==> IsFloor(s, s.saved.value)
  }

  lemma SaveSetsFloor(s: State, t: nat)
    requires Inv(s) && OneLine(s) && Enabled(s, Save(t, true)) && Allows(Env(true, true), s, Save(t, true))
    ensures SavedIsFloor(Apply(s, Save(t, true)))
  {
    var id := s.tasks[t].id;
    assert TaskIsSound(s, s.tasks[t]);
    forall u | u in s.tasks ensures TaskIsAbove(s.tasks[u], id) {
      assert !IsBehind(s, t, u);
    }
  }

  lemma RegisterSetsFloor(s: State, t: nat, box: nat)
    requires Inv(s) && OneLine(s) && Enabled(s, Register(t, box, true))
    ensures SavedIsFloor(Apply(s, Register(t, box, true)))
  {
    assert TaskIsSound(s, s.tasks[t]);
  }

  ghost predicate IsOrdered(s: State) {
    Inv(s) && OneLine(s) && SavedIsFloor(s)
  }

  lemma StepKeepsOrdered(s: State, step: Step)
    requires IsOrdered(s) && Enabled(s, step) && Allows(Env(true, true), s, step)
    ensures IsOrdered(Apply(s, step))
  {
    StepKeepsInv(s, step);
    StepKeepsOneLine(s, step);
    if step.Save? && step.isSaved {
      SaveSetsFloor(s, step.t);
    } else if step.Register? && step.isSaved {
      RegisterSetsFloor(s, step.t, step.box);
    } else if s.saved.Some? {
      StepKeepsFloor(s, step, s.saved.value);
    }
  }

  lemma SavedNeverFalls()
    ensures NeverFalls(Env(true, true))
  {
    var env := Env(true, true);
    forall a, b | IsOrdered(a) && Under(env).next(a, b) ensures IsOrdered(b) {
      var step :| Enabled(a, step) && Allows(env, a, step) && b == Apply(a, step);
      StepKeepsOrdered(a, step);
    }
    forall s, t | Reachable(Under(env), s) && Leads(Under(env), s, t) && s.saved.Some? && t.saved.Some?
      ensures s.saved.value <= t.saved.value
    {
      Always(Under(env), a => IsOrdered(a), s);
      FloorStays(env, s, t, s.saved.value);
    }
  }

  lemma FloorStays(env: Env, s: State, t: State, floor: nat)
    requires IsFloor(s, floor) && Leads(Under(env), s, t)
    ensures IsFloor(t, floor)
  {
    forall a, b | IsFloor(a, floor) && Under(env).next(a, b) ensures IsFloor(b, floor) {
      var step :| Enabled(a, step) && Allows(env, a, step) && b == Apply(a, step);
      StepKeepsFloor(a, step, floor);
    }
    Onward(Under(env), a => IsFloor(a, floor), s, t);
  }

  // ---------- Without either of them it can ----------

  const NOTHING := State(0, map[], {}, {}, map[], map[], None)

  // A step that neither promise is about.
  lemma Go(env: Env, from: State, s: State, step: Step) returns (t: State)
    requires Leads(Under(env), from, s) && Enabled(s, step) && !step.Save? && !step.LoadRow?
    ensures t == Apply(s, step) && Leads(Under(env), from, t)
  {
    t := Apply(s, step);
    assert Allows(env, s, step);
    assert Under(env).next(s, t);
    Further(Under(env), from, s, t);
  }

  lemma GoLoad(env: Env, from: State, s: State, w: nat) returns (t: State)
    requires Leads(Under(env), from, s) && w !in s.tasks
    requires !env.oneMailbox || (s.boxes == map[] && s.tasks == map[])
    ensures t == s.(tasks := s.tasks[w := Loaded(s.saved)]) && Leads(Under(env), from, t)
  {
    t := Apply(s, LoadRow(w));
    assert Allows(env, s, LoadRow(w));
    assert Under(env).next(s, t);
    Further(Under(env), from, s, t);
  }

  lemma GoSave(env: Env, from: State, s: State, w: nat) returns (t: State)
    requires Leads(Under(env), from, s) && Enabled(s, Save(w, true))
    requires !env.savesInOrder || forall u :: u in s.tasks ==> !IsBehind(s, w, u)
    ensures t == Apply(s, Save(w, true)) && Leads(Under(env), from, t)
  {
    t := Apply(s, Save(w, true));
    assert Allows(env, s, Save(w, true));
    assert Under(env).next(s, t);
    Further(Under(env), from, s, t);
  }

  lemma Fell(env: Env, s: State, t: State)
    requires Leads(Under(env), NOTHING, s) && Leads(Under(env), s, t)
    requires s.saved.Some? && t.saved.Some? && t.saved.value < s.saved.value
    ensures !NeverFalls(env)
  {
    assert Under(env).init(NOTHING);
    assert Reachable(Under(env), s);
  }

  lemma Here(env: Env, s: State)
    ensures Leads(Under(env), s, s)
  {
    assert IsTrace(Under(env), [s]) && [s][0] == s;
  }

  const FIRST_RANGE := Range(BeforeWatch, -1, 1, {})
  const WATCHED := State(1, map[], {}, {FIRST_RANGE}, map[0 := Box(1, None)], map[], Some(1))

  // A mailbox watched at history ID 1.
  lemma Watched(env: Env) returns (s: State)
    ensures s == WATCHED && Leads(Under(env), NOTHING, s)
  {
    Here(env, NOTHING);
    s := Go(env, NOTHING, NOTHING, Arrive({}, 1));
    assert s == NOTHING.(head := 1);
    s := GoLoad(env, NOTHING, s, 0);
    s := Go(env, NOTHING, s, Watch(0));
    assert s == State(1, map[], {}, {FIRST_RANGE}, map[], map[0 := Starting(1)], None);
    s := Go(env, NOTHING, s, Register(0, 0, true));
    assert s.tasks == map[];
  }

  const BUSY := State(2, map[7 := 2], {}, {FIRST_RANGE}, map[0 := Box(1, Some(2))],
                      map[1 := Saving(0, 1, false), 2 := Listing(0, 2, 1)], Some(1))

  // One message arrives and the watch is renewed.
  lemma Renewed(env: Env) returns (s: State)
    ensures s == WATCHED.(head := 2, arrived := map[7 := 2], tasks := map[1 := Saving(0, 1, false)])
    ensures Leads(Under(env), NOTHING, s)
  {
    s := Watched(env);
    s := Go(env, NOTHING, s, Arrive({7}, 2));
    assert s == WATCHED.(head := 2, arrived := map[7 := 2]);
    s := Go(env, NOTHING, s, RenewWatch(1, 0));
  }

  // The message's notification takes the lock.
  lemma RenewedThenNotified(env: Env) returns (s: State)
    ensures s == BUSY && Leads(Under(env), NOTHING, s)
  {
    s := Renewed(env);
    s := Go(env, NOTHING, s, Notify(2, 0, 2));
    assert s.tasks == map[1 := Saving(0, 1, false), 2 := Waiting(0, 2)];
    s := Go(env, NOTHING, s, Lock(2));
    assert s.tasks == BUSY.tasks && s.boxes == BUSY.boxes;
  }

  const STORED := BUSY.(accounted := {7}, tasks := map[1 := Saving(0, 1, false), 2 := Ingesting(0, 2, 1, {}, {})])

  // The message is listed and stored.
  lemma RenewedThenStored(env: Env) returns (s: State)
    ensures s == STORED && Leads(Under(env), NOTHING, s)
  {
    s := RenewedThenNotified(env);
    assert After(s, 1) - {} == {7};
    s := Go(env, NOTHING, s, ListAll(2, {}));
    assert s.tasks == map[1 := Saving(0, 1, false), 2 := Ingesting(0, 2, 1, {7}, {})];
    s := Go(env, NOTHING, s, Ingest(2, 7));
    assert {7} - {7} == {};
    assert s.tasks == STORED.tasks && s.accounted == {7};
  }

  lemma RenewedThenAdvanced(env: Env) returns (s: State)
    requires !env.savesInOrder
    ensures s.saved == Some(2) && s.tasks == map[1 := Saving(0, 1, false)] && 0 in s.boxes
    ensures Leads(Under(env), NOTHING, s)
  {
    s := RenewedThenStored(env);
    s := Go(env, NOTHING, s, Advance(2));
    assert s.tasks == map[1 := Saving(0, 1, false), 2 := Saving(0, 2, true)];
    s := GoSave(env, NOTHING, s, 2);
    assert s.tasks == map[1 := Saving(0, 1, false)];
  }

  // The newer baseline is saved, and then the renewal's save, slow to arrive, puts the older one back.
  lemma SlowSaveFalls(env: Env)
    requires !env.savesInOrder
    ensures !NeverFalls(env)
  {
    var s := RenewedThenAdvanced(env);
    Here(env, s);
    var t := GoSave(env, s, s, 1);
    Fell(env, s, t);
  }

  const TWICE := State(3, map[], {}, {FIRST_RANGE}, map[0 := Box(1, None), 1 := Box(1, None)],
                       map[2 := Waiting(0, 2)], Some(1))

  // A notification of history ID 2 is held up, and the mailbox is started once more meanwhile.
  lemma Reconnected(env: Env) returns (s: State)
    requires !env.oneMailbox
    ensures s == TWICE && Leads(Under(env), NOTHING, s)
  {
    s := Watched(env);
    s := Go(env, NOTHING, s, Arrive({}, 3));
    assert s == WATCHED.(head := 3);
    s := Go(env, NOTHING, s, Notify(2, 0, 2));
    s := GoLoad(env, NOTHING, s, 1);
    s := Go(env, NOTHING, s, Watch(1));
    assert s.tasks == map[2 := Waiting(0, 2), 1 := Starting(1)];
    s := Go(env, NOTHING, s, Register(1, 1, true));
    assert s.tasks == map[2 := Waiting(0, 2)] && s.boxes == TWICE.boxes;
  }

  // An empty range, from the lock to the end of the save, with no other save on its way.
  lemma Advanced(env: Env, from: State, s: State, w: nat) returns (t: State)
    requires Leads(Under(env), from, s) && w in s.tasks && s.tasks[w].Waiting? && s.arrived == map[]
    requires s.tasks[w].box in s.boxes && s.boxes[s.tasks[w].box].holder.None?
    requires 0 < s.boxes[s.tasks[w].box].baseline < s.tasks[w].id
    requires forall x :: x in s.tasks ==> !s.tasks[x].Saving?
    ensures Leads(Under(env), from, t)
    ensures t.saved == Some(s.tasks[w].id) && t.arrived == map[] && t.tasks == s.tasks - {w}
    ensures t.boxes == s.boxes[s.tasks[w].box := Box(s.tasks[w].id, None)]
  {
    var box, id, start := s.tasks[w].box, s.tasks[w].id, s.boxes[s.tasks[w].box].baseline;
    t := Go(env, from, s, Lock(w));
    assert After(t, start) - {} == {};
    t := Go(env, from, t, ListAll(w, {}));
    assert t.tasks == s.tasks[w := Ingesting(box, id, start, {}, {})];
    t := Go(env, from, t, Advance(w));
    assert t.tasks == s.tasks[w := Saving(box, id, true)];
    t := GoSave(env, from, t, w);
  }

  // Every save lands at once; but the notification held up saves for the mailbox it knew after the new one went on.
  lemma StaleMailboxFalls(env: Env)
    requires !env.oneMailbox
    ensures !NeverFalls(env)
  {
    var s := Reconnected(env);
    s := Go(env, NOTHING, s, Notify(3, 1, 3));
    assert s.tasks == map[2 := Waiting(0, 2), 3 := Waiting(1, 3)];
    s := Advanced(env, NOTHING, s, 3);
    Here(env, s);
    var t := Advanced(env, s, s, 2);
    Fell(env, s, t);
  }

  // Each of the two promises is needed, and both are enough.
  lemma SavedNeverFallsExactly(env: Env)
    ensures NeverFalls(env) <==> env.savesInOrder && env.oneMailbox
  {
    if env.savesInOrder && env.oneMailbox {
      SavedNeverFalls();
    } else if !env.savesInOrder {
      SlowSaveFalls(env);
    } else {
      StaleMailboxFalls(env);
    }
  }
}
