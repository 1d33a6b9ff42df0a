/** The reconciler of the protocol, when nothing moves beside it, does what the method does. */
module RunnerLink {
  import opened LedgerRows
  import opened RunnerProtocol
  import opened RunnerSafety
  import opened RunnerRestart

  function Outer(s: State): World { World(s.rows, s.active, s.containers, s.workspaces) }

  predicate ToDo(todo: seq<Snapshot>, id: TaskId) { exists x <- todo :: x.id == id }

  predicate Distinct(todo: seq<Snapshot>) { forall i, j | 0 <= i < j < |todo| :: todo[i].id != todo[j].id }

  /** The rows still to be judged are distinct, reconcilable and as they were. */
  ghost predicate TodoOk(before: World, todo: seq<Snapshot>) {
    && Distinct(todo)
    && (forall x <- todo :: x.id in before.rows && x.seen == before.rows[x.id] && Reconcilable(x.seen))
  }

  /** Each covered row is judged or still to do, and every other row is as it was. */
  ghost predicate Judging(before: World, after: World, scope: TaskId, todo: seq<Snapshot>) {
    && OnlyStraysGone(before, after, scope)
    && (forall id <- before.rows :: Covered(before, scope, id) && !ToDo(todo, id) ==> Judged(before, after, id))
    && (forall id <- before.rows :: ToDo(todo, id) || !Covered(before, scope, id) ==> after.rows[id] == before.rows[id])
  }

  ghost predicate AtCovered(before: World, r: Reconciler) { r.todo != [] && Covered(before, r.scope, r.todo[0].id) }

  /** What the reconciler has done so far. */
  ghost predicate Halfway(before: World, s: State, r: Reconciler) {
    if r.pc.ListAll? then Outer(s) == before
    else if r.pc.CopyActive? then Outer(s) == before && r.listed == before.containers
    else if r.pc.SelectRows? then Outer(s) == before && r.listed == before.containers && r.owned == before.active
    else if r.pc.Sweep? then r.owned == before.active && Repaired(before, Outer(s), r.scope)
    else
      && r.owned == before.active && s.containers <= r.listed <= before.containers
      && TodoOk(before, r.todo) && Judging(before, Outer(s), r.scope, r.todo)
      && (!r.pc.NextRow? ==> AtCovered(before, r))
      && (r.pc.WriteRow? ==>
            r.pc.clean == (TaskContainer(r.todo[0].id) !in r.listed && r.todo[0].id !in s.workspaces))
  }

  /** The database returns every row once. */
  predicate Complete(rows: Rows, order: seq<TaskId>) {
    && (forall i, j | 0 <= i < j < |order| :: order[i] != order[j])
    && (forall id <- rows :: id in order)
  }

  lemma {:induction false} SelectsEach(rows: Rows, order: seq<TaskId>)
    requires forall i, j | 0 <= i < j < |order| :: order[i] != order[j]
    ensures forall id :: ToDo(Selected(rows, order), id) <==> id in order && id in rows && Reconcilable(rows[id])
    ensures forall x <- Selected(rows, order) :: x.id in rows && x.seen == rows[x.id] && Reconcilable(x.seen)
    ensures Distinct(Selected(rows, order))
  {
    if order != [] {
      SelectsEach(rows, order[1..]);
      assert order == [order[0]] + order[1..] && order[0] !in order[1..];
      var todo, rest := Selected(rows, order), Selected(rows, order[1..]);
      if todo != rest {
        assert todo == [Snapshot(order[0], rows[order[0]])] + rest;
        forall x <- rest ensures x.id != order[0] { assert ToDo(rest, x.id); }
        forall i, j | 0 <= i < j < |todo| ensures todo[i].id != todo[j].id {
          assert todo[j] == rest[j - 1] && rest[j - 1] in rest;
          if i > 0 { assert todo[i] == rest[i - 1]; }
        }
        forall id ensures ToDo(todo, id) <==> id == order[0] || ToDo(rest, id) {
          if ToDo(rest, id) { var x :| x in rest && x.id == id; assert x in todo; }
          if id == order[0] { assert todo[0] in todo; }
        }
      }
    }
  }

  lemma FirstToDo(todo: seq<Snapshot>, id: TaskId)
    requires todo != [] && Distinct(todo)
    ensures ToDo(todo, id) <==> id == todo[0].id || ToDo(todo[1..], id)
    ensures !ToDo(todo[1..], todo[0].id)
  {
    assert todo == [todo[0]] + todo[1..];
    if ToDo(todo[1..], id) { var x :| x in todo[1..] && x.id == id; assert x in todo; }
  }

  /** Where only containers and workspaces of one covered task go, the verdicts stand. */
  lemma CleaningKeeps(before: World, prior: World, after: World, scope: TaskId, todo: seq<Snapshot>, id: TaskId)
    requires Judging(before, prior, scope, todo) && Covered(before, scope, id)
    requires after.rows == prior.rows && after.active == prior.active
    requires prior.containers - {TaskContainer(id)} <= after.containers <= prior.containers
    requires prior.workspaces - {id} <= after.workspaces <= prior.workspaces
    ensures Judging(before, after, scope, todo)
  {
    StraysAccumulate(before, prior, after, scope, id);
  }

  lemma SelectStep(before: World, s: State, t: nat, r: Reconciler, c: Choice)
    requires t in s.threads && s.threads[t] == Reconciling(r) && Halfway(before, s, r) && r.pc.SelectRows?
    requires Complete(before.rows, c.order)
    ensures var later := ReconcilerStep(s, t, r, c);
            t in later.threads && later.threads[t].Reconciling? && Halfway(before, later, later.threads[t].r)
            && later.threads[t].r.scope == r.scope
  {
    SelectsEach(before.rows, c.order);
  }

  lemma NextStep(before: World, s: State, t: nat, r: Reconciler, c: Choice)
    requires t in s.threads && s.threads[t] == Reconciling(r) && Halfway(before, s, r) && r.pc.NextRow?
    ensures var later := ReconcilerStep(s, t, r, c);
            t in later.threads && later.threads[t].Reconciling? && Halfway(before, later, later.threads[t].r)
            && later.threads[t].r.scope == r.scope
  {
    if r.todo != [] {
      assert r.todo[0] in r.todo;
      if !Covered(before, r.scope, r.todo[0].id) {
        forall id ensures ToDo(r.todo, id) <==> id == r.todo[0].id || ToDo(r.todo[1..], id) { FirstToDo(r.todo, id); }
      }
    }
  }

  lemma CleanStep(before: World, s: State, t: nat, r: Reconciler, c: Choice)
    requires t in s.threads && s.threads[t] == Reconciling(r) && Halfway(before, s, r)
    requires r.pc.RemoveListed? || r.pc.WipeListed? || r.pc.Judge?
    ensures var later := ReconcilerStep(s, t, r, c);
            t in later.threads && later.threads[t].Reconciling? && Halfway(before, later, later.threads[t].r)
            && later.threads[t].r.scope == r.scope
  {
    var later := ReconcilerStep(s, t, r, c);
    CleaningKeeps(before, Outer(s), Outer(later), r.scope, r.todo, r.todo[0].id);
  }

  lemma WriteStep(before: World, s: State, t: nat, r: Reconciler, c: Choice)
    requires t in s.threads && s.threads[t] == Reconciling(r) && Halfway(before, s, r) && r.pc.WriteRow?
    ensures var later := ReconcilerStep(s, t, r, c);
            t in later.threads && later.threads[t].Reconciling? && Halfway(before, later, later.threads[t].r)
            && later.threads[t].r.scope == r.scope
  {
    var later := ReconcilerStep(s, t, r, c);
    var id := r.todo[0].id;
    assert r.todo[0] in r.todo && ToDo(r.todo, id);
    WritingJudges(before, Outer(s), Outer(later), r.scope, r.todo, r.pc.clean);
    forall i ensures ToDo(r.todo, i) <==> i == id || ToDo(r.todo[1..], i) { FirstToDo(r.todo, i); }
  }

  /** Writing the verdict on the first row judges it and leaves the others as they are. */
  lemma WritingJudges(before: World, prior: World, after: World, scope: TaskId, todo: seq<Snapshot>, clean: bool)
    requires TodoOk(before, todo) && todo != [] && Covered(before, scope, todo[0].id)
    requires Judging(before, prior, scope, todo)
    requires var id := todo[0].id;
             && id in before.rows
             && after.rows == prior.rows[id := Written(before.rows[id], Change.Reconcile(before.rows[id], clean))]
             && after == prior.(rows := after.rows)
             && (clean ==> TaskContainer(id) !in prior.containers && id !in prior.workspaces)
             && (TaskContainer(id) !in before.containers && id !in before.workspaces ==> clean)
    ensures TodoOk(before, todo[1..]) && Judging(before, after, scope, todo[1..])
  {
    var id := todo[0].id;
    assert Judged(before, after, id);
    forall i ensures ToDo(todo, i) <==> i == id || ToDo(todo[1..], i) { FirstToDo(todo, i); }
    FirstToDo(todo, id);
  }

  lemma SweepStep(before: World, s: State, t: nat, r: Reconciler, c: Choice)
    requires t in s.threads && s.threads[t] == Reconciling(r) && Halfway(before, s, r) && r.pc.Sweep?
    ensures var later := ReconcilerStep(s, t, r, c);
            && Repaired(before, Outer(later), r.scope)
            && (t in later.threads ==> later.threads[t].Reconciling? && Halfway(before, later, later.threads[t].r)
                                       && later.threads[t].r.scope == r.scope)
  {}

  lemma OneStep(before: World, s: State, t: nat, r: Reconciler, c: Choice)
    requires t in s.threads && s.threads[t] == Reconciling(r) && Halfway(before, s, r)
    requires Complete(before.rows, c.order)
    ensures var later := ReconcilerStep(s, t, r, c);
            if t in later.threads then later.threads[t].Reconciling? && Halfway(before, later, later.threads[t].r)
                                       && later.threads[t].r.scope == r.scope
            else Outer(later) == before || Repaired(before, Outer(later), r.scope)
  {
    match r.pc
    case SelectRows => SelectStep(before, s, t, r, c);
    case NextRow => NextStep(before, s, t, r, c);
    case RemoveListed => CleanStep(before, s, t, r, c);
    case WipeListed => CleanStep(before, s, t, r, c);
    case Judge => CleanStep(before, s, t, r, c);
    case WriteRow(_) => WriteStep(before, s, t, r, c);
    case Sweep => SweepStep(before, s, t, r, c);
    case _ =>
  }

  /** The steps of one thread, and nothing else. */
  predicate Alone(rows: Rows, es: seq<Event>, t: nat) {
    forall e <- es :: e.Step? && e.thread == t && Complete(rows, e.choice.order)
  }

  lemma {:induction false} AloneRuns(before: World, s: State, t: nat, es: seq<Event>, scope: TaskId)
    requires Alone(before.rows, es, t)
    requires if t in s.threads then s.threads[t].Reconciling? && s.threads[t].r.scope == scope
                                    && Halfway(before, s, s.threads[t].r)
             else Outer(s) == before || Repaired(before, Outer(s), scope)
    ensures t !in Run(s, es).threads ==>
              Outer(Run(s, es)) == before || Repaired(before, Outer(Run(s, es)), scope)
    decreases |es|
  {
    if es != [] {
      assert es[0] in es;
      if t in s.threads { OneStep(before, s, t, s.threads[t].r, es[0].choice); }
      AloneRuns(before, Apply(s, es[0]), t, es[1..], scope);
    }
  }

  /** From any state, a reconcile thread that nothing interrupts ends either as it began,
      because the containers could not be listed, or in a state that is repaired in the sense of the method. */
  lemma UndisturbedReconcileRepairs(s: State, t: nat, scope: TaskId, es: seq<Event>)
    requires t !in s.threads && Alone(s.rows, es, t)
    requires t !in Run(Apply(s, BeginReconcile(t, scope)), es).threads
    ensures var later := Run(Apply(s, BeginReconcile(t, scope)), es);
            Outer(later) == Outer(s) || Repaired(Outer(s), Outer(later), scope)
  {
    AloneRuns(Outer(s), Apply(s, BeginReconcile(t, scope)), t, es, scope);
  }

  // ----- when no command fails -----

  /** Every covered row that is not still to do is clean. */
  ghost predicate CleanBut(before: World, now: World, scope: TaskId, todo: seq<Snapshot>) {
    forall id <- before.rows :: Covered(before, scope, id) && !ToDo(todo, id) ==>
      id in now.rows && now.rows[id].cleaned && TaskContainer(id) !in now.containers && id !in now.workspaces
  }

  /** Every container that the sweep removes is gone or still listed. */
  ghost predicate SweptBut(s: State, r: Reconciler) {
    r.scope == "" ==> forall n <- s.containers :: "hdb-task-" <= n || "hdb-orphan-" <= n ==>
      n in r.listed || exists id <- r.owned :: n == TaskContainer(id)
  }

  /** What is gone when nothing has failed so far. */
  ghost predicate CleanHalfway(before: World, s: State, r: Reconciler) {
    if r.pc.ListAll? || r.pc.CopyActive? || r.pc.SelectRows? then true
    else if r.pc.Sweep? then CleanBut(before, Outer(s), r.scope, []) && SweptBut(s, r)
    else
      && CleanBut(before, Outer(s), r.scope, r.todo)
      && (r.pc.WipeListed? || r.pc.Judge? ==> r.todo != [] && TaskContainer(r.todo[0].id) !in r.listed)
      && (r.pc.Judge? ==> r.todo[0].id !in s.workspaces)
      && (r.pc.WriteRow? ==> r.pc.clean)
  }

  lemma CleanNext(before: World, s: State, t: nat, r: Reconciler, c: Choice)
    requires t in s.threads && s.threads[t] == Reconciling(r) && r.pc.NextRow?
    requires Halfway(before, s, r) && CleanHalfway(before, s, r)
    ensures var later := ReconcilerStep(s, t, r, c);
            t in later.threads && later.threads[t].Reconciling? && CleanHalfway(before, later, later.threads[t].r)
  {
    if r.todo != [] {
      assert r.todo[0] in r.todo;
      if !Covered(before, r.scope, r.todo[0].id) {
        forall id ensures ToDo(r.todo, id) <==> id == r.todo[0].id || ToDo(r.todo[1..], id) { FirstToDo(r.todo, id); }
      }
    }
  }

  lemma CleanSelect(before: World, s: State, t: nat, r: Reconciler, c: Choice)
    requires t in s.threads && s.threads[t] == Reconciling(r) && r.pc.SelectRows?
    requires Halfway(before, s, r) && Complete(before.rows, c.order)
    ensures var later := ReconcilerStep(s, t, r, c);
            t in later.threads && later.threads[t].Reconciling? && CleanHalfway(before, later, later.threads[t].r)
  {
    SelectsEach(before.rows, c.order);
  }

  lemma CleanRemove(before: World, s: State, t: nat, r: Reconciler, c: Choice)
    requires t in s.threads && s.threads[t] == Reconciling(r)
    requires r.pc.RemoveListed? || r.pc.WipeListed? || r.pc.Judge?
    requires Halfway(before, s, r) && CleanHalfway(before, s, r) && c.ok && c.effect
    ensures var later := ReconcilerStep(s, t, r, c);
            t in later.threads && later.threads[t].Reconciling? && CleanHalfway(before, later, later.threads[t].r)
  {}

  /** Once the first row is marked clean, and really is, it need not be done any more. */
  lemma CleanButRest(before: World, prior: World, after: World, scope: TaskId, todo: seq<Snapshot>)
    requires todo != [] && Distinct(todo) && CleanBut(before, prior, scope, todo)
    requires after.containers == prior.containers && after.workspaces == prior.workspaces
    requires todo[0].id in after.rows && after.rows == prior.rows[todo[0].id := after.rows[todo[0].id]]
    requires after.rows[todo[0].id].cleaned
    requires TaskContainer(todo[0].id) !in after.containers && todo[0].id !in after.workspaces
    ensures CleanBut(before, after, scope, todo[1..])
  {
    forall id ensures ToDo(todo, id) <==> id == todo[0].id || ToDo(todo[1..], id) { FirstToDo(todo, id); }
  }

  lemma CleanWrite(before: World, s: State, t: nat, r: Reconciler, c: Choice)
    requires t in s.threads && s.threads[t] == Reconciling(r) && r.pc.WriteRow?
    requires Halfway(before, s, r) && CleanHalfway(before, s, r)
    ensures var later := ReconcilerStep(s, t, r, c);
            t in later.threads && later.threads[t].Reconciling? && CleanHalfway(before, later, later.threads[t].r)
  {
    hide CleanBut, Judged, SweptBut;
    assert r.todo[0] in r.todo && ToDo(r.todo, r.todo[0].id);
    CleanButRest(before, Outer(s), Outer(ReconcilerStep(s, t, r, c)), r.scope, r.todo);
  }

  lemma CleanSweep(before: World, s: State, t: nat, r: Reconciler, c: Choice)
    requires t in s.threads && s.threads[t] == Reconciling(r) && r.pc.Sweep?
    requires r.owned == before.active && CleanHalfway(before, s, r) && c.effect
    ensures var later := ReconcilerStep(s, t, r, c);
            if t in later.threads then
              later.threads[t].Reconciling? && CleanHalfway(before, later, later.threads[t].r)
            else CleanedUp(before, Outer(later), r.scope)
  {
    hide Halfway;
  }

  lemma CleanStepOn(before: World, s: State, t: nat, r: Reconciler, c: Choice)
    requires t in s.threads && s.threads[t] == Reconciling(r)
    requires Halfway(before, s, r) && CleanHalfway(before, s, r)
    requires Complete(before.rows, c.order) && c.ok && c.effect
    ensures var later := ReconcilerStep(s, t, r, c);
            if t in later.threads then
              later.threads[t].Reconciling? && CleanHalfway(before, later, later.threads[t].r)
            else CleanedUp(before, Outer(later), r.scope)
  {
    hide CleanedUp, CleanBut, SweptBut, Judging, Repaired, OnlyStraysGone, TodoOk;
    match r.pc
    case SelectRows => CleanSelect(before, s, t, r, c);
    case NextRow => CleanNext(before, s, t, r, c);
    case RemoveListed => CleanRemove(before, s, t, r, c);
    case WipeListed => CleanRemove(before, s, t, r, c);
    case Judge => CleanRemove(before, s, t, r, c);
    case WriteRow(_) => CleanWrite(before, s, t, r, c);
    case Sweep => CleanSweep(before, s, t, r, c);
    case _ =>
  }

  lemma {:induction false} AloneCleansUp(before: World, s: State, t: nat, es: seq<Event>, scope: TaskId)
    requires Alone(before.rows, es, t) && forall e <- es :: e.choice.ok && e.choice.effect
    requires if t in s.threads then s.threads[t].Reconciling? && s.threads[t].r.scope == scope
                                    && Halfway(before, s, s.threads[t].r) && CleanHalfway(before, s, s.threads[t].r)
             else CleanedUp(before, Outer(s), scope)
    ensures t !in Run(s, es).threads ==> CleanedUp(before, Outer(Run(s, es)), scope)
    decreases |es|
  {
    hide Halfway, CleanHalfway, CleanedUp, ReconcilerStep, Repaired;
    if es != [] {
      assert es[0] in es;
      if t in s.threads {
        OneStep(before, s, t, s.threads[t].r, es[0].choice);
        CleanStepOn(before, s, t, s.threads[t].r, es[0].choice);
      }
      AloneCleansUp(before, Apply(s, es[0]), t, es[1..], scope);
    }
  }

  /** And if none of its commands fails, it ends with every covered row clean, its container and its workspace
      gone, and, when it has no scope, with no container left over that is named as a task's or orphan's. */
  lemma UndisturbedReconcileCleansUp(s: State, t: nat, scope: TaskId, es: seq<Event>)
    requires t !in s.threads && Alone(s.rows, es, t) && forall e <- es :: e.choice.ok && e.choice.effect
    requires t !in Run(Apply(s, BeginReconcile(t, scope)), es).threads
    ensures CleanedUp(Outer(s), Outer(Run(Apply(s, BeginReconcile(t, scope)), es)), scope)
  {
    AloneCleansUp(Outer(s), Apply(s, BeginReconcile(t, scope)), t, es, scope);
  }
}
