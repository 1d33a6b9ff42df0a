/** What every run of the Runner keeps. */
module RunnerSafety {
  import opened LedgerRows
  import opened RunnerProtocol

  // ----- the invariant -----

  ghost predicate Owned(s: State, id: TaskId) {
    exists t <- s.threads :: s.threads[t].Executing? && s.threads[t].id == id
  }

  predicate NotStartable(s: State, id: TaskId)
    requires id in s.rows
  { s.rows[id].status !in {Queued, Running} }

  predicate BeforeRun(pc: ExecutorPc) {
    pc.Enter? || pc.Claim? || pc.Prepare? || pc.Launch? || (pc.Finalize? && pc.site in {StartRefused, BeforeLaunch})
  }

  /** What an executor knows about its own task at each point of _execute_task. */
  predicate ExecutorOk(s: State, id: TaskId, pc: ExecutorPc) {
    && id in s.rows
    && (pc.Enter? || id in s.active)
    && (BeforeRun(pc) ==> s.launches[id] == 0)
    && (pc.Enter? || pc.Claim? ==> id !in s.claimed)
    && (!pc.Enter? && !pc.Claim? && !pc.Leave? && !(pc.Finalize? && pc.site.StartRefused?) ==> id in s.claimed)
    && (pc.Finalize? && (pc.site in {StartRefused, LastChance} || !pc.step.ReadRow?) ==> NotStartable(s, id))
    && (pc.Wipe? || (pc.Leave?) ==> !Open(s.rows[id]))
  }

  ghost predicate ReconcilerOk(s: State, r: Reconciler) {
    && (forall id :: TaskContainer(id) in r.listed ==> s.launches[id] > 0)
    && (!r.pc.ListAll? && !r.pc.CopyActive? ==>
          forall id :: TaskContainer(id) in r.listed && id !in r.owned ==> !Owned(s, id))
    && (forall x <- r.todo :: Grounded(s.rows, x.id, Change.Reconcile(x.seen, true)) && Reconcilable(x.seen))
    && (r.pc.RemoveListed? || r.pc.WipeListed? || r.pc.Judge? || r.pc.WriteRow? ==>
          r.todo != [] && r.todo[0].id !in r.owned)
  }

  ghost predicate ThreadOk(s: State, th: Thread) {
    match th
    case Executing(id, pc) => ExecutorOk(s, id, pc)
    case Cancelling(_, _) => true
    case Reconciling(r) => ReconcilerOk(s, r)
  }

  ghost predicate OneExecutorEach(s: State) {
    forall t <- s.threads, u <- s.threads ::
      s.threads[t].Executing? && s.threads[u].Executing? && s.threads[t].id == s.threads[u].id ==> t == u
  }

  ghost predicate HistoryOk(s: State) {
    && (forall id :: s.launches[id] <= 1)
    && (forall id :: s.launches[id] > 0 ==> id in s.claimed)
    && (forall id <- s.claimed :: id in s.rows && s.rows[id].status != Queued)
    && (forall id <- s.rows :: s.rows[id].status == Running ==> id in s.claimed)
    && (forall id :: TaskContainer(id) in s.containers ==> s.launches[id] > 0)
  }

  ghost predicate RowsOk(rows: Rows) {
    && (forall id <- rows :: Coherent(rows[id]))
    && (forall i <- rows, j <- rows :: rows[i].key == rows[j].key != "" ==> i == j)
  }

  ghost predicate Inv(s: State) {
    && RowsOk(s.rows)
    && HistoryOk(s)
    && OneExecutorEach(s)
    && (forall t <- s.threads :: ThreadOk(s, s.threads[t]))
  }

  // ----- framing: what one thread's step means to the others -----

  /** Between s and later only tasks in own changed their place in the process state. */
  ghost predicate Frame(s: State, later: State, own: set<TaskId>) {
    && LedgerEvolves(s.rows, later.rows)
    && s.launches <= later.launches
    && s.claimed <= later.claimed
    && (forall id :: id !in own ==> s.launches[id] == later.launches[id])
    && (forall id :: id !in own ==>
          (id in s.active ==> id in later.active) && (id in later.claimed ==> id in s.claimed))
    && (forall id :: Owned(later, id) ==> Owned(s, id) || s.launches[id] == 0)
  }

  lemma FrameKeepsThread(s: State, later: State, own: set<TaskId>, th: Thread)
    requires Frame(s, later, own) && ThreadOk(s, th)
    requires th.Executing? ==> th.id !in own
    ensures ThreadOk(later, th)
  {
    match th
    case Executing(id, pc) =>
    case Cancelling(_, _) =>
    case Reconciling(r) =>
      forall x <- r.todo ensures Grounded(later.rows, x.id, Change.Reconcile(x.seen, true)) {
        EvolvesTransitive(x.seen, s.rows[x.id], later.rows[x.id]);
      }
  }

  lemma UpdateKeepsRows(rows: Rows, id: TaskId, change: Change)
    requires RowsOk(rows) && Grounded(rows, id, change)
    requires change.Reconcile? ==> Reconcilable(change.seen)
    ensures LedgerEvolves(rows, UpdateTask(rows, id, change)) && RowsOk(UpdateTask(rows, id, change))
  {
    UpdateEvolves(rows, id, change);
  }

  // ----- the executor -----

  /** Thread t, executing id, took a step that left the other threads alone. */
  ghost predicate Stepped(s: State, later: State, t: nat, id: TaskId) {
    && later.threads.Keys <= s.threads.Keys
    && (forall u <- later.threads :: u != t ==> later.threads[u] == s.threads[u])
    && (t in later.threads ==> later.threads[t].Executing? && later.threads[t].id == id)
  }

  ghost predicate ExecutorKept(s: State, later: State, t: nat, id: TaskId) {
    && RowsOk(later.rows) && HistoryOk(later) && Frame(s, later, {id}) && Stepped(s, later, t, id)
    && (t in later.threads ==> ExecutorOk(later, id, later.threads[t].at))
  }

  lemma SteppedKeepsOwners(s: State, later: State, t: nat, id: TaskId)
    requires t in s.threads && s.threads[t].Executing? && s.threads[t].id == id && Stepped(s, later, t, id)
    ensures forall i :: Owned(later, i) ==> Owned(s, i)
  {
    forall i | Owned(later, i) ensures Owned(s, i) {
      var u :| u in later.threads && later.threads[u].Executing? && later.threads[u].id == i;
      assert u in s.threads && s.threads[u].Executing? && s.threads[u].id == i;
    }
  }

  /** A step that writes no row and launches nothing. */
  lemma QuietStepKeeps(s: State, later: State, t: nat, id: TaskId)
    requires Inv(s) && t in s.threads && s.threads[t].Executing? && s.threads[t].id == id
    requires Stepped(s, later, t, id)
    requires later.rows == s.rows && later.launches == s.launches && later.claimed == s.claimed
    requires later.containers <= s.containers && s.active <= later.active + {id}
    requires t in later.threads ==> ExecutorOk(later, id, later.threads[t].at)
    ensures ExecutorKept(s, later, t, id)
  {
    SteppedKeepsOwners(s, later, t, id);
  }

  lemma WriteKeepsHistory(s: State, later: State, id: TaskId, change: Change)
    requires HistoryOk(s) && !change.Reconcile? && later.rows == UpdateTask(s.rows, id, change)
    requires later.launches == s.launches && later.containers == s.containers
    requires later.claimed == if change.Start? && Applies(s.rows, id, change) then s.claimed + {id} else s.claimed
    ensures HistoryOk(later)
  {}

  /** A step whose only lasting effect is one guarded write. */
  lemma WritingStepKeeps(s: State, later: State, t: nat, id: TaskId, change: Change)
    requires Inv(s) && t in s.threads && s.threads[t].Executing? && s.threads[t].id == id
    requires Stepped(s, later, t, id) && t in later.threads
    requires !change.Reconcile? && later.rows == UpdateTask(s.rows, id, change)
    requires later.launches == s.launches && later.containers == s.containers && later.active == s.active
    requires later.claimed == if change.Start? && Applies(s.rows, id, change) then s.claimed + {id} else s.claimed
    requires ExecutorOk(later, id, later.threads[t].at)
    ensures ExecutorKept(s, later, t, id)
  {
    UpdateKeepsRows(s.rows, id, change);
    WriteKeepsHistory(s, later, id, change);
    SteppedKeepsOwners(s, later, t, id);
  }

  lemma FinalizeQuietOk(s: State, t: nat, id: TaskId, site: CallSite, step: CancelStep, c: Choice)
    requires t in s.threads && s.threads[t] == Executing(id, Finalize(site, step)) && !step.Commit?
    requires ExecutorOk(s, id, Finalize(site, step))
    ensures var later := FinalizeStep(s, t, id, site, step, c);
            && Stepped(s, later, t, id) && t in later.threads
            && later.rows == s.rows && later.launches == s.launches && later.claimed == s.claimed
            && later.containers <= s.containers && later.active == s.active
            && ExecutorOk(later, id, later.threads[t].at)
  {}

  lemma FinalizeStepKeeps(s: State, t: nat, id: TaskId, site: CallSite, step: CancelStep, c: Choice)
    requires Inv(s) && t in s.threads && s.threads[t] == Executing(id, Finalize(site, step))
    requires id in s.rows
    ensures ExecutorKept(s, FinalizeStep(s, t, id, site, step, c), t, id)
  {
    assert ThreadOk(s, s.threads[t]);
    var later := FinalizeStep(s, t, id, site, step, c);
    if step.Commit? {
      WritingStepKeeps(s, later, t, id, FinishCancel(step.clean));
    } else {
      FinalizeQuietOk(s, t, id, site, step, c);
      QuietStepKeeps(s, later, t, id);
    }
  }

  lemma LaunchKeeps(s: State, later: State, t: nat, id: TaskId)
    requires Inv(s) && t in s.threads && s.threads[t] == Executing(id, Launch)
    requires exists n: nat :: later == Go(s.(launches := s.launches + multiset{id}), t, id, Watch(n))
    ensures ExecutorKept(s, later, t, id)
  {
    assert ThreadOk(s, s.threads[t]);
    SteppedKeepsOwners(s, later, t, id);
    assert forall i :: later.launches[i] == s.launches[i] + if i == id then 1 else 0;
  }

  predicate WritesRow(pc: ExecutorPc) { pc.Claim? || pc.Settle? || (pc.Finalize? && pc.step.Commit?) }

  /** The steps that neither write a row nor launch keep what the executor knows. */
  lemma QuietStepOk(s: State, t: nat, id: TaskId, pc: ExecutorPc, c: Choice)
    requires t in s.threads && s.threads[t] == Executing(id, pc) && ExecutorOk(s, id, pc)
    requires !pc.Finalize? && !WritesRow(pc) && (pc.Launch? ==> c.raised)
    ensures var later := ExecutorStep(s, t, id, pc, c);
            && Stepped(s, later, t, id)
            && later.rows == s.rows && later.launches == s.launches && later.claimed == s.claimed
            && later.containers <= s.containers && s.active <= later.active + {id}
            && (t in later.threads ==> ExecutorOk(later, id, later.threads[t].at))
  {}

  lemma ClaimKeeps(s: State, t: nat, id: TaskId, c: Choice)
    requires Inv(s) && t in s.threads && s.threads[t] == Executing(id, Claim)
    requires id in s.rows
    ensures ExecutorKept(s, ExecutorStep(s, t, id, Claim, c), t, id)
  {
    assert ThreadOk(s, s.threads[t]);
    var later := ExecutorStep(s, t, id, Claim, c);
    if Applies(s.rows, id, Start) {
      WritingStepKeeps(s, later, t, id, Start);
    } else {
      QuietStepKeeps(s, later, t, id);
    }
  }

  lemma SettleKeeps(s: State, t: nat, id: TaskId, outcome: Outcome, c: Choice)
    requires Inv(s) && t in s.threads && s.threads[t] == Executing(id, Settle(outcome))
    requires id in s.rows
    ensures ExecutorKept(s, ExecutorStep(s, t, id, Settle(outcome), c), t, id)
  {
    assert ThreadOk(s, s.threads[t]);
    WritingStepKeeps(s, ExecutorStep(s, t, id, Settle(outcome), c), t, id, Conclude(outcome));
  }

  lemma ExecutorStepKeeps(s: State, t: nat, id: TaskId, pc: ExecutorPc, c: Choice)
    requires Inv(s) && t in s.threads && s.threads[t] == Executing(id, pc)
    requires id in s.rows
    ensures ExecutorKept(s, ExecutorStep(s, t, id, pc, c), t, id)
  {
    if pc.Finalize? {
      FinalizeStepKeeps(s, t, id, pc.site, pc.step, c);
    } else if pc.Claim? {
      ClaimKeeps(s, t, id, c);
    } else if pc.Settle? {
      SettleKeeps(s, t, id, pc.outcome, c);
    } else if pc.Launch? && !c.raised {
      LaunchKeeps(s, ExecutorStep(s, t, id, pc, c), t, id);
    } else {
      assert ThreadOk(s, s.threads[t]);
      QuietStepOk(s, t, id, pc, c);
      QuietStepKeeps(s, ExecutorStep(s, t, id, pc, c), t, id);
    }
  }

  // ----- the reconciler -----

  /** Thread t, not an executor, took a step that left the other threads alone. */
  ghost predicate SideStepped(s: State, later: State, t: nat) {
    && later.threads.Keys <= s.threads.Keys
    && (forall u <- later.threads :: u != t ==> later.threads[u] == s.threads[u])
    && (t in later.threads ==> !later.threads[t].Executing?)
  }

  /** Whatever container disappeared belonged to the task reconciler and to no live execution. */
  ghost predicate RemovedOnlyStrays(s: State, later: State) {
    forall n <- s.containers :: n !in later.containers ==>
      Sweepable(n) && forall id :: TaskContainer(id) == n ==> !Owned(s, id)
  }

  ghost predicate SideKept(s: State, later: State, t: nat) {
    && RowsOk(later.rows) && HistoryOk(later) && Frame(s, later, {}) && SideStepped(s, later, t)
    && later.launches == s.launches && later.active == s.active
    && (t in later.threads ==> ThreadOk(later, later.threads[t]))
  }

  lemma SideStepOwners(s: State, later: State, t: nat)
    requires t in s.threads && !s.threads[t].Executing? && SideStepped(s, later, t)
    ensures forall i :: Owned(later, i) ==> Owned(s, i)
  {
    forall i | Owned(later, i) ensures Owned(s, i) {
      var u :| u in later.threads && later.threads[u].Executing? && later.threads[u].id == i;
      assert u in s.threads && s.threads[u].Executing? && s.threads[u].id == i;
    }
  }

  /** A side step that writes no row. */
  lemma QuietSideStepKeeps(s: State, later: State, t: nat)
    requires Inv(s) && t in s.threads && !s.threads[t].Executing? && SideStepped(s, later, t)
    requires later.rows == s.rows && later.launches == s.launches && later.claimed == s.claimed
    requires later.containers <= s.containers && later.active == s.active
    ensures RowsOk(later.rows) && HistoryOk(later) && Frame(s, later, {})
  {
    SideStepOwners(s, later, t);
  }

  lemma SideWriteKeepsHistory(s: State, later: State, id: TaskId, change: Change)
    requires HistoryOk(s) && later.rows == UpdateTask(s.rows, id, change)
    requires change.RequestCancel? || (change.Reconcile? && Reconcilable(change.seen))
    requires later.launches == s.launches && later.containers == s.containers && later.claimed == s.claimed
    ensures HistoryOk(later)
  {}

  lemma WritingSideStepKeeps(s: State, later: State, t: nat, id: TaskId, change: Change)
    requires Inv(s) && t in s.threads && !s.threads[t].Executing? && SideStepped(s, later, t)
    requires change.RequestCancel? || (change.Reconcile? && Grounded(s.rows, id, change) && Reconcilable(change.seen))
    requires later.rows == UpdateTask(s.rows, id, change) && later.launches == s.launches
    requires later.claimed == s.claimed && later.containers == s.containers && later.active == s.active
    ensures RowsOk(later.rows) && HistoryOk(later) && Frame(s, later, {})
  {
    hide HistoryOk, RowsOk;
    UpdateKeepsRows(s.rows, id, change);
    SideWriteKeepsHistory(s, later, id, change);
    SideStepOwners(s, later, t);
  }

  lemma SelectedAreCurrent(rows: Rows, order: seq<TaskId>)
    ensures forall x <- Selected(rows, order) :: x.id in rows && x.seen == rows[x.id] && Reconcilable(x.seen)
  {}

  lemma LaunchedOwnerIsActive(s: State, id: TaskId)
    requires Inv(s) && Owned(s, id) && s.launches[id] > 0
    ensures id in s.active
  {
    var t :| t in s.threads && s.threads[t].Executing? && s.threads[t].id == id;
    assert ThreadOk(s, s.threads[t]);
  }

  /** A listed container outside the copied active set has no executor: whoever launched it was in
      the active set before the listing was taken, and a task is executed once. */
  lemma CopyActiveIsFresh(s: State, r: Reconciler)
    requires Inv(s) && ReconcilerOk(s, r) && r.pc.CopyActive?
    ensures ReconcilerOk(s, r.(pc := SelectRows, owned := s.active))
  {
    forall id | TaskContainer(id) in r.listed && id !in s.active ensures !Owned(s, id) {
      assert s.launches[id] > 0;
      if Owned(s, id) { LaunchedOwnerIsActive(s, id); }
    }
  }

  /** The parts of the state that a reconciler's knowledge is about. */
  ghost predicate SameForReconcilers(s: State, later: State) {
    && later.rows == s.rows && later.launches == s.launches
    && forall i :: Owned(later, i) ==> Owned(s, i)
  }

  lemma SameKeepsReconciler(s: State, later: State, r: Reconciler)
    requires ReconcilerOk(s, r) && SameForReconcilers(s, later)
    ensures ReconcilerOk(later, r)
  {}

  lemma QuietReconcilerShape(s: State, t: nat, r: Reconciler, c: Choice)
    requires t in s.threads && s.threads[t] == Reconciling(r) && !r.pc.WriteRow?
    ensures var later := ReconcilerStep(s, t, r, c);
            && SideStepped(s, later, t)
            && later.rows == s.rows && later.launches == s.launches && later.claimed == s.claimed
            && later.containers <= s.containers && later.active == s.active
  {
    hide Selected, Written, UpdateTask, Sweepable, TaskContainer, ValidTaskId;
  }

  /** What a reconciler knows after reading, judged in the state before. */
  lemma ReadStepOk(s: State, t: nat, r: Reconciler, c: Choice)
    requires Inv(s) && t in s.threads && ReconcilerOk(s, r)
    requires r.pc.ListAll? || r.pc.CopyActive? || r.pc.SelectRows?
    ensures var later := ReconcilerStep(s, t, r, c);
            t in later.threads ==> later.threads[t].Reconciling? && ReconcilerOk(s, later.threads[t].r)
  {
    if r.pc.CopyActive? { CopyActiveIsFresh(s, r); }
    SelectedAreCurrent(s.rows, c.order);
  }

  /** The same for the walk over the rows and the sweep. */
  lemma WalkStepOk(s: State, t: nat, r: Reconciler, c: Choice)
    requires t in s.threads && s.threads[t] == Reconciling(r) && ReconcilerOk(s, r)
    requires !r.pc.ListAll? && !r.pc.CopyActive? && !r.pc.SelectRows? && !r.pc.WriteRow?
    ensures var later := ReconcilerStep(s, t, r, c);
            t in later.threads ==> later.threads[t].Reconciling? && ReconcilerOk(s, later.threads[t].r)
  {}

  lemma QuietReconcilerKeeps(s: State, later: State, t: nat)
    requires Inv(s) && t in s.threads && s.threads[t].Reconciling? && SideStepped(s, later, t)
    requires later.rows == s.rows && later.launches == s.launches && later.claimed == s.claimed
    requires later.containers <= s.containers && later.active == s.active
    requires t in later.threads ==> later.threads[t].Reconciling? && ReconcilerOk(s, later.threads[t].r)
    ensures SideKept(s, later, t)
  {
    QuietSideStepKeeps(s, later, t);
    SideStepOwners(s, later, t);
    if t in later.threads { SameKeepsReconciler(s, later, later.threads[t].r); }
  }

  lemma ReconcilerQuietKeeps(s: State, t: nat, r: Reconciler, c: Choice)
    requires Inv(s) && t in s.threads && s.threads[t] == Reconciling(r) && !r.pc.WriteRow?
    ensures SideKept(s, ReconcilerStep(s, t, r, c), t)
  {
    assert ThreadOk(s, s.threads[t]);
    var later := ReconcilerStep(s, t, r, c);
    QuietReconcilerShape(s, t, r, c);
    if r.pc.ListAll? || r.pc.CopyActive? || r.pc.SelectRows? {
      ReadStepOk(s, t, r, c);
    } else {
      WalkStepOk(s, t, r, c);
    }
    QuietReconcilerKeeps(s, later, t);
  }

  lemma ReconcilerWriteKeeps(s: State, t: nat, r: Reconciler, c: Choice)
    requires Inv(s) && t in s.threads && s.threads[t] == Reconciling(r) && r.pc.WriteRow?
    ensures SideKept(s, ReconcilerStep(s, t, r, c), t)
    ensures ReconcilerStep(s, t, r, c).containers == s.containers
  {
    assert ThreadOk(s, s.threads[t]);
    var later := ReconcilerStep(s, t, r, c);
    var change := Change.Reconcile(r.todo[0].seen, r.pc.clean);
    assert r.todo[0] in r.todo;
    WritingSideStepKeeps(s, later, t, r.todo[0].id, change);
    FrameKeepsThread(s, later, {}, Reconciling(r));
  }

  lemma ReconcilerRemovesOnlyStrays(s: State, t: nat, r: Reconciler, c: Choice)
    requires Inv(s) && t in s.threads && s.threads[t] == Reconciling(r)
    ensures RemovedOnlyStrays(s, ReconcilerStep(s, t, r, c))
  {
    assert ThreadOk(s, s.threads[t]);
    var later := ReconcilerStep(s, t, r, c);
    forall n <- s.containers | n !in later.containers
      ensures Sweepable(n) && forall id :: TaskContainer(id) == n ==> !Owned(s, id)
    {
      forall id | TaskContainer(id) == n ensures !Owned(s, id) {
        if r.pc.RemoveListed? { TaskContainerInjective(id, r.todo[0].id); }
      }
    }
  }

  // ----- the remaining events -----

  lemma CancellerStepKeeps(s: State, t: nat, id: TaskId, pc: CancellerPc, c: Choice)
    requires Inv(s) && t in s.threads && s.threads[t] == Cancelling(id, pc)
    ensures SideKept(s, CancellerStep(s, t, id, pc, c), t)
  {
    hide HistoryOk, RowsOk;
    var later := CancellerStep(s, t, id, pc, c);
    if pc.Request? {
      WritingSideStepKeeps(s, later, t, id, RequestCancel);
    } else {
      QuietSideStepKeeps(s, later, t);
    }
  }

  lemma OneExecutorStays(s: State, later: State, t: nat, id: TaskId)
    requires OneExecutorEach(s) && t in s.threads && s.threads[t].Executing? && s.threads[t].id == id
    requires Stepped(s, later, t, id)
    ensures OneExecutorEach(later)
  {}

  lemma AfterExecutorStep(s: State, later: State, t: nat, id: TaskId)
    requires Inv(s) && t in s.threads && s.threads[t].Executing? && s.threads[t].id == id
    requires ExecutorKept(s, later, t, id)
    ensures Inv(later)
  {
    OneExecutorStays(s, later, t, id);
    forall u <- later.threads ensures ThreadOk(later, later.threads[u]) {
      if u != t { FrameKeepsThread(s, later, {id}, s.threads[u]); }
    }
  }

  lemma AfterSideStep(s: State, later: State, t: nat)
    requires Inv(s) && t in s.threads && !s.threads[t].Executing? && SideKept(s, later, t)
    ensures Inv(later)
  {
    forall u <- later.threads ensures ThreadOk(later, later.threads[u]) {
      if u != t { FrameKeepsThread(s, later, {}, s.threads[u]); }
    }
  }

  lemma ThreadStepKeeps(s: State, t: nat, c: Choice)
    requires Inv(s)
    ensures Inv(ThreadStep(s, t, c)) && LedgerEvolves(s.rows, ThreadStep(s, t, c).rows)
    ensures s.claimed <= ThreadStep(s, t, c).claimed
  {
    if t in s.threads {
      var later := ThreadStep(s, t, c);
      match s.threads[t]
      case Executing(id, pc) =>
        assert ThreadOk(s, s.threads[t]);
        ExecutorStepKeeps(s, t, id, pc, c);
        AfterExecutorStep(s, later, t, id);
      case Cancelling(id, pc) =>
        CancellerStepKeeps(s, t, id, pc, c);
        AfterSideStep(s, later, t);
      case Reconciling(r) =>
        if r.pc.WriteRow? { ReconcilerWriteKeeps(s, t, r, c); } else { ReconcilerQuietKeeps(s, t, r, c); }
        AfterSideStep(s, later, t);
    }
  }

  lemma SubmitReplyFacts(rows: Rows, auto: bool, id: TaskId, key: string, fingerprint: string)
    ensures match SubmitReply(rows, auto, id, key, fingerprint)
            case Conflict =>
              || (exists j <- rows :: rows[j].key == key != ""
                                      && (rows[j].fingerprint != fingerprint || (!auto && j != id)))
              || (id in rows && (rows[id].fingerprint != fingerprint || rows[id].key != key))
            case Existing(i) =>
              && i in rows && rows[i].fingerprint == fingerprint && rows[i].key == key && (auto || i == id)
            case Accepted(i) => i == id && id !in rows && forall j <- rows :: rows[j].key != key || key == ""
  {
    if key != "" && !(exists i :: Bound(rows, key, i)) {
      forall j <- rows ensures rows[j].key != key { assert !Bound(rows, key, j); }
    }
  }

  lemma AcceptedHistory(s: State, later: State, id: TaskId, row: Row)
    requires RowsOk(s.rows) && HistoryOk(s) && id !in s.rows && row.status == Queued && Coherent(row)
    requires row.key == "" || forall j <- s.rows :: s.rows[j].key != row.key
    requires later.rows == s.rows[id := row] && later.launches == s.launches
    requires later.claimed == s.claimed && later.containers == s.containers
    ensures RowsOk(later.rows) && HistoryOk(later) && s.launches[id] == 0 && id !in s.claimed
  {}

  lemma UnknownTaskHasNoOwner(s: State, id: TaskId)
    requires Inv(s) && id !in s.rows
    ensures forall u <- s.threads :: s.threads[u].Executing? ==> s.threads[u].id != id
  {
    forall u | u in s.threads && s.threads[u].Executing? ensures s.threads[u].id != id {
      assert ThreadOk(s, s.threads[u]);
    }
  }

  /** An accepted task is new to the whole system: nobody executes it and it was never launched. */
  lemma AcceptedKeeps(s: State, later: State, t: nat, id: TaskId, row: Row)
    requires Inv(s) && t !in s.threads && id !in s.rows && row.status == Queued && Coherent(row)
    requires row.key == "" || forall j <- s.rows :: s.rows[j].key != row.key
    requires later == s.(rows := s.rows[id := row], threads := s.threads[t := Executing(id, Enter)])
    ensures Inv(later)
  {
    AcceptedHistory(s, later, id, row);
    UnknownTaskHasNoOwner(s, id);
    AcceptedFrame(s, later, t, id);
    assert OneExecutorEach(later);
    forall u <- later.threads ensures ThreadOk(later, later.threads[u]) {
      if u != t { FrameKeepsThread(s, later, {id}, s.threads[u]); }
    }
  }

  lemma AcceptedFrame(s: State, later: State, t: nat, id: TaskId)
    requires t !in s.threads && id !in s.rows && s.launches[id] == 0
    requires later.threads == s.threads[t := Executing(id, Enter)]
    requires later.launches == s.launches && later.claimed == s.claimed && later.active == s.active
    requires id in later.rows && later.rows == s.rows[id := later.rows[id]]
    ensures Frame(s, later, {id})
  {
    forall i | Owned(later, i) ensures Owned(s, i) || i == id {
      var u :| u in later.threads && later.threads[u].Executing? && later.threads[u].id == i;
      assert u != t ==> u in s.threads && s.threads[u] == later.threads[u];
    }
  }

  lemma SubmitKeeps(s: State, t: nat, auto: bool, id: TaskId, key: string, fingerprint: string)
    requires Inv(s)
    ensures var later := Apply(s, Submit(t, auto, id, key, fingerprint));
            Inv(later) && LedgerEvolves(s.rows, later.rows) && s.claimed == later.claimed
  {
    var later := Apply(s, Submit(t, auto, id, key, fingerprint));
    SubmitReplyFacts(s.rows, auto, id, key, fingerprint);
    if later != s { AcceptedKeeps(s, later, t, id, NewRow(key, fingerprint)); }
  }

  /** A new cancel or reconcile request knows nothing yet. */
  lemma NewSideThreadKeeps(s: State, later: State, t: nat, th: Thread)
    requires Inv(s) && t !in s.threads && !th.Executing? && later == s.(threads := s.threads[t := th])
    requires th.Reconciling? ==> th.r == Reconciler(th.r.scope, ListAll, {}, {}, [])
    ensures Inv(later)
  {
    forall i | Owned(later, i) ensures Owned(s, i) {
      var u :| u in later.threads && later.threads[u].Executing? && later.threads[u].id == i;
      assert u in s.threads && s.threads[u] == later.threads[u];
    }
    forall u <- later.threads ensures ThreadOk(later, later.threads[u]) {
      if u != t { FrameKeepsThread(s, later, {}, s.threads[u]); }
    }
  }

  lemma ContainersChangeKeeps(s: State, later: State)
    requires Inv(s) && later == s.(containers := later.containers)
    requires forall id :: TaskContainer(id) in later.containers ==> s.launches[id] > 0
    ensures Inv(later)
  {
    forall i | Owned(later, i) ensures Owned(s, i) {
      var u :| u in later.threads && later.threads[u].Executing? && later.threads[u].id == i;
      assert s.threads[u].id == i;
    }
    forall u <- later.threads ensures ThreadOk(later, later.threads[u]) {
      FrameKeepsThread(s, later, {}, s.threads[u]);
    }
  }

  lemma ContainerAppearsKeeps(s: State, id: TaskId)
    requires Inv(s)
    ensures Inv(Apply(s, ContainerAppears(id)))
  {
    var later := Apply(s, ContainerAppears(id));
    forall i | TaskContainer(i) in later.containers ensures s.launches[i] > 0 {
      if TaskContainer(i) == TaskContainer(id) { TaskContainerInjective(i, id); }
    }
    ContainersChangeKeeps(s, later);
  }

  lemma AbandonKeeps(s: State, t: nat)
    requires Inv(s)
    ensures Inv(Apply(s, Abandon(t)))
  {
    var later := Apply(s, Abandon(t));
    if later != s {
      QuietSideStepKeeps(s, later, t);
      AfterSideStep(s, later, t);
    }
  }

  lemma CrashKeeps(s: State)
    requires Inv(s)
    ensures Inv(Apply(s, Crash))
  {}

  lemma OutsideKeeps(s: State, e: Event)
    requires Inv(s) && (e.ContainerExits? || e.ServiceStarts?)
    ensures Inv(Apply(s, e))
  {
    var later := Apply(s, e);
    forall id | TaskContainer(id) in later.containers ensures s.launches[id] > 0 {
      assert "hdb-task-" <= TaskContainer(id);
    }
    ContainersChangeKeeps(s, later);
  }

  lemma OtherEventFrame(s: State, e: Event)
    requires !e.Submit? && !e.Step?
    ensures Apply(s, e).rows == s.rows && Apply(s, e).claimed == s.claimed
  {}

  lemma OtherEventKeeps(s: State, e: Event)
    requires Inv(s) && !e.Submit? && !e.Step?
    ensures Inv(Apply(s, e)) && Apply(s, e).rows == s.rows && Apply(s, e).claimed == s.claimed
  {
    hide Inv;
    OtherEventFrame(s, e);
    match e
    case BeginCancel(t, id) =>
      if t !in s.threads { NewSideThreadKeeps(s, Apply(s, e), t, Cancelling(id, Look)); }
    case BeginReconcile(t, scope) =>
      if t !in s.threads {
        NewSideThreadKeeps(s, Apply(s, e), t, Reconciling(Reconciler(scope, ListAll, {}, {}, [])));
      }
    case Abandon(t) => AbandonKeeps(s, t);
    case ContainerAppears(id) => ContainerAppearsKeeps(s, id);
    case ContainerExits(_) => OutsideKeeps(s, e);
    case ServiceStarts(_) => OutsideKeeps(s, e);
    case Crash => CrashKeeps(s);
  }

  lemma ApplyKeeps(s: State, e: Event)
    requires Inv(s)
    ensures Inv(Apply(s, e)) && LedgerEvolves(s.rows, Apply(s, e).rows) && s.claimed <= Apply(s, e).claimed
  {
    match e
    case Submit(t, auto, id, key, fingerprint) => SubmitKeeps(s, t, auto, id, key, fingerprint);
    case Step(t, c) => ThreadStepKeeps(s, t, c);
    case _ => OtherEventKeeps(s, e);
  }
}
