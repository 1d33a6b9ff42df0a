/** The Runner's promises, over every run from a fresh installation. */
module RunnerRuns {
  import opened LedgerRows
  import opened RunnerProtocol
  import opened RunnerSafety

  lemma {:induction false} RunKeeps(s: State, es: seq<Event>)
    requires Inv(s)
    ensures Inv(Run(s, es)) && LedgerEvolves(s.rows, Run(s, es).rows)
    decreases |es|
  {
    if es != [] {
      var next := Apply(s, es[0]);
      ApplyKeeps(s, es[0]);
      RunKeeps(next, es[1..]);
      LedgerEvolvesTransitive(s.rows, next.rows, Run(s, es).rows);
    }
  }

  lemma Reachable(s: State, es: seq<Event>)
    requires Initial(s)
    ensures Inv(Run(s, es))
  {
    forall id ensures TaskContainer(id) !in s.containers { assert "hdb-task-" <= TaskContainer(id); }
    RunKeeps(s, es);
  }

  // ----- execution -----

  /** The container of a task is launched at most once, and only for a claimed task. */
  lemma AtMostOneLaunch(s: State, es: seq<Event>, id: TaskId)
    requires Initial(s)
    ensures Run(s, es).launches[id] <= 1
    ensures Run(s, es).launches[id] == 1 ==> id in Run(s, es).claimed
  {
    Reachable(s, es);
  }

  /** A task becomes claimed only by the compare-and-set from queued to running. */
  lemma ClaimIsCompareAndSet(s: State, e: Event, id: TaskId)
    requires id !in s.claimed && id in Apply(s, e).claimed
    ensures id in s.rows && s.rows[id].status == Queued && Apply(s, e).rows[id].status == Running
  {}

  lemma {:induction false} WithdrawnStays(s: State, es: seq<Event>, id: TaskId)
    requires Inv(s) && id in s.rows && id !in s.claimed && s.rows[id].status != Queued
    ensures id !in Run(s, es).claimed
    decreases |es|
  {
    if es != [] {
      ApplyKeeps(s, es[0]);
      if id in Apply(s, es[0]).claimed { ClaimIsCompareAndSet(s, es[0], id); }
      WithdrawnStays(Apply(s, es[0]), es[1..], id);
    }
  }

  /** A task taken out of the queue before it was claimed is never launched: a cancellation (or a
      reconcile) that wins the race for a queued row wins for good. */
  lemma WithdrawnIsNeverLaunched(s: State, before: seq<Event>, after: seq<Event>, id: TaskId)
    requires Initial(s)
    requires id in Run(s, before).rows && id !in Run(s, before).claimed
    requires Run(s, before).rows[id].status != Queued
    ensures Run(Run(s, before), after).launches[id] == 0
  {
    Reachable(s, before);
    RunKeeps(Run(s, before), after);
    WithdrawnStays(Run(s, before), after, id);
  }

  // ----- cancellation and final rows -----

  /** However stale the reconcilers' snapshots and however many cleanups fail, a requested
      cancellation stays recorded: requested, waiting for cleanup under its own error code, or done. */
  lemma CancellationIsNeverLost(s: State, before: seq<Event>, after: seq<Event>, id: TaskId)
    requires Initial(s)
    requires id in Run(s, before).rows && Run(s, before).rows[id].status == CancelRequested
    ensures var later := Run(Run(s, before), after).rows;
            && id in later
            && (later[id].status in {CancelRequested, Cancelled}
                || (later[id].status == CleanupPending && later[id].error == CancelCleanupPending))
  {
    Reachable(s, before);
    RunKeeps(Run(s, before), after);
  }

  /** collect_task: only a succeeded row with a manifest has something to collect. */
  predicate Collectable(rows: Rows, id: TaskId) {
    id in rows && rows[id].status == Succeeded && rows[id].manifest != ""
  }

  /** Succeeded, failed, timed-out and cancelled rows never change again, and only succeeded rows
      carry a manifest, so what collect returned once it returns forever. */
  lemma FinalRowsAreForever(s: State, before: seq<Event>, after: seq<Event>, id: TaskId)
    requires Initial(s)
    requires id in Run(s, before).rows
    ensures var now := Run(s, before).rows; var later := Run(Run(s, before), after).rows;
            && (now[id].status in {Succeeded, Failed, TimedOut, Cancelled} ==> id in later && later[id] == now[id])
            && (now[id].manifest != "" ==> Collectable(now, id))
            && (Collectable(now, id) ==> Collectable(later, id) && later[id].manifest == now[id].manifest)
  {
    Reachable(s, before);
    RunKeeps(Run(s, before), after);
  }

  // ----- the end of an execution -----

  /** When an executor leaves, its row is settled for good and its task is out of the active set. */
  lemma ExecutionEndsSettled(s: State, es: seq<Event>, t: nat, c: Choice)
    requires Initial(s)
    requires t in Run(s, es).threads && Run(s, es).threads[t].Executing?
    requires t !in Apply(Run(s, es), Step(t, c)).threads
    ensures var id := Run(s, es).threads[t].id; var later := Apply(Run(s, es), Step(t, c));
            && id in later.rows && later.rows[id].status !in {Queued, Running, CancelRequested}
            && id !in later.active && !Owned(later, id)
  {
    Reachable(s, es);
    var now := Run(s, es);
    assert ThreadOk(now, now.threads[t]);
    ExecutorStepShape(now, t, c);
  }

  lemma ExecutorStepShape(s: State, t: nat, c: Choice)
    requires t in s.threads && s.threads[t].Executing? && s.threads[t].id in s.rows
    ensures var later := Apply(s, Step(t, c));
            && (t !in later.threads ==> s.threads[t].at.Leave? && later.threads == s.threads - {t}
                                        && later.rows == s.rows && later.active == s.active - {s.threads[t].id})
            && (t in later.threads ==> later.threads[t].Executing?)
  {}

  function FinalizeRank(step: CancelStep): nat {
    match step
    case ReadRow => 6 case RemoveContainer => 5 case ListContainer => 4
    case WipeWorkspace => 3 case CheckWorkspace => 2 case Commit(_) => 1
  }

  /** Steps an executor still has before it, at most, when no container run is polled more than most times. */
  function Rank(pc: ExecutorPc, most: nat): nat {
    match pc
    case Enter => 61 + most case Claim => 60 + most case Prepare => 59 + most
    case Finalize(BeforeLaunch, step) => 51 + most + FinalizeRank(step)
    case Launch => 51 + most case Watch(left) => 50 + left case StopContainer => 49
    case Finalize(AfterRun(_), step) => 40 + FinalizeRank(step)
    case Collect => 40 case Settle(_) => 39
    case Finalize(_, step) => 10 + FinalizeRank(step)
    case Wipe => 2 case Leave => 1
  }

  predicate WithinPolls(pc: ExecutorPc, most: nat) { pc.Watch? ==> pc.left <= most }

  lemma FinalizeProgress(s: State, t: nat, id: TaskId, site: CallSite, step: CancelStep, c: Choice, most: nat)
    requires id in s.rows
    ensures var later := FinalizeStep(s, t, id, site, step, c);
            && t in later.threads && later.threads[t].Executing? && later.threads[t].id == id
            && Rank(later.threads[t].at, most) < Rank(Finalize(site, step), most) && !later.threads[t].at.Watch?
  {}

  /** Each step of an executor brings it closer to leaving. */
  lemma StepProgress(s: State, t: nat, id: TaskId, pc: ExecutorPc, c: Choice, most: nat)
    requires t in s.threads && s.threads[t] == Executing(id, pc) && id in s.rows
    requires WithinPolls(pc, most) && c.polls <= most
    ensures var later := ExecutorStep(s, t, id, pc, c);
            t in later.threads ==>
              && later.threads[t].Executing? && later.threads[t].id == id
              && WithinPolls(later.threads[t].at, most) && Rank(later.threads[t].at, most) < Rank(pc, most)
  {
    if pc.Finalize? { FinalizeProgress(s, t, id, pc.site, pc.step, c, most); }
  }

  function StepsOf(es: seq<Event>, t: nat): nat {
    if es == [] then 0 else (if es[0].Step? && es[0].thread == t then 1 else 0) + StepsOf(es[1..], t)
  }

  predicate PollsAtMost(es: seq<Event>, most: nat) { forall e <- es :: e.Step? ==> e.choice.polls <= most }

  lemma OthersLeaveExecutor(s: State, e: Event, t: nat)
    requires t in s.threads && s.threads[t].Executing? && !(e.Step? && e.thread == t)
    requires t in Apply(s, e).threads
    ensures Apply(s, e).threads[t] == s.threads[t]
  {}

  lemma EventProgress(s: State, e: Event, t: nat, most: nat)
    requires t in s.threads && s.threads[t].Executing? && s.threads[t].id in s.rows && t in Apply(s, e).threads
    requires WithinPolls(s.threads[t].at, most) && (e.Step? ==> e.choice.polls <= most)
    ensures var th := Apply(s, e).threads[t];
            && th.Executing? && WithinPolls(th.at, most)
            && Rank(th.at, most) + StepsOf([e], t) <= Rank(s.threads[t].at, most)
  {
    assert [e][1..] == [];
    if e.Step? && e.thread == t {
      StepProgress(s, t, s.threads[t].id, s.threads[t].at, e.choice, most);
    } else {
      OthersLeaveExecutor(s, e, t);
    }
  }

  lemma RunFirst(s: State, es: seq<Event>, n: nat)
    requires es != [] && n < |es|
    ensures Run(s, es[..n + 1]) == Run(Apply(s, es[0]), es[1..][..n])
  {
    assert es[..n + 1][1..] == es[1..][..n] && es[..n + 1][0] == es[0];
  }

  lemma {:induction false} ExecutorLeaves(s: State, es: seq<Event>, t: nat, most: nat)
    requires Inv(s) && PollsAtMost(es, most)
    requires t in s.threads && s.threads[t].Executing? && WithinPolls(s.threads[t].at, most)
    requires StepsOf(es, t) >= Rank(s.threads[t].at, most)
    ensures exists n: nat :: n <= |es| && t !in Run(s, es[..n]).threads
    decreases |es|
  {
    hide Inv, Apply;
    var next, rest := Apply(s, es[0]), es[1..];
    ExecutorHasRow(s, t);
    ApplyKeeps(s, es[0]);
    if t in next.threads {
      EventProgress(s, es[0], t, most);
      assert [es[0]][1..] == [] && StepsOf(es, t) == StepsOf([es[0]], t) + StepsOf(rest, t);
      ExecutorLeaves(next, rest, t, most);
      var n: nat :| n <= |rest| && t !in Run(next, rest[..n]).threads;
      RunFirst(s, es, n);
    } else {
      RunFirst(s, es, 0);
      assert t !in Run(s, es[..1]).threads;
    }
  }

  lemma ExecutorHasRow(s: State, t: nat)
    requires Inv(s) && t in s.threads && s.threads[t].Executing?
    ensures s.threads[t].id in s.rows
  {
    assert ThreadOk(s, s.threads[t]);
  }

  /** Every execution ends: in every continuation of every run, an executor that is accepted has left (or was
      cut off by a crash) before it has taken 61 steps and one for each poll before its deadline. */
  lemma EveryExecutionEnds(s: State, before: seq<Event>, es: seq<Event>, t: nat, most: nat)
    requires Initial(s) && PollsAtMost(es, most)
    requires t in Run(s, before).threads && Run(s, before).threads[t].Executing?
    requires Run(s, before).threads[t].at == Enter && StepsOf(es, t) >= 61 + most
    ensures exists n: nat :: n <= |es| && t !in Run(Run(s, before), es[..n]).threads
  {
    Reachable(s, before);
    ExecutorLeaves(Run(s, before), es, t, most);
  }

  // ----- reconcile against live executions -----

  /** A reconcile of any scope, running beside anything else, removes neither the container of an
      execution this process still owns nor any container that is not named as a task's or orphan's. */
  lemma ReconcileSparesLiveContainers(s: State, es: seq<Event>, t: nat, c: Choice, n: string)
    requires Initial(s)
    requires t in Run(s, es).threads && Run(s, es).threads[t].Reconciling?
    requires n in Run(s, es).containers
    requires !("hdb-task-" <= n || "hdb-orphan-" <= n) || exists id :: n == "hdb-task-" + id && Owned(Run(s, es), id)
    ensures n in Apply(Run(s, es), Step(t, c)).containers
  {
    Reachable(s, es);
    if "hdb-task-" <= n || "hdb-orphan-" <= n {
      var id :| n == "hdb-task-" + id && Owned(Run(s, es), id);
      assert TaskContainer(id) == n;
    }
    ReconcilerRemovesOnlyStrays(Run(s, es), t, Run(s, es).threads[t].r, c);
  }

  lemma ReconcilerTouches(s: State, t: nat, r: Reconciler, c: Choice)
    ensures var later := ReconcilerStep(s, t, r, c);
            && (later.rows == s.rows
                || (r.pc.WriteRow? && r.todo != []
                    && later.rows == UpdateTask(s.rows, r.todo[0].id, Change.Reconcile(r.todo[0].seen, r.pc.clean))))
            && (later.workspaces == s.workspaces
                || (r.pc.WipeListed? && r.todo != [] && later.workspaces == s.workspaces - {r.todo[0].id}
                    && TaskContainer(r.todo[0].id) !in r.listed))
            && (later.containers == s.containers
                || (r.pc.RemoveListed? && r.todo != []
                    && later.containers == s.containers - {TaskContainer(r.todo[0].id)})
                || (r.pc.Sweep? && r.scope == "" && later.containers == s.containers - {c.name}))
            && (r.pc.RemoveListed? && r.todo != [] && t in s.threads ==>
                  && t in later.threads && later.threads[t].Reconciling?
                  && (TaskContainer(r.todo[0].id) in later.threads[t].r.listed <==>
                        TaskContainer(r.todo[0].id) in r.listed && !c.ok))
  {}

  /** It also leaves alone the row and the workspace of every task that was active when it copied
      the active set. */
  lemma ReconcileSparesCopiedExecutions(s: State, es: seq<Event>, t: nat, c: Choice, id: TaskId)
    requires Initial(s)
    requires t in Run(s, es).threads && Run(s, es).threads[t].Reconciling?
    requires id in Run(s, es).threads[t].r.owned && id in Run(s, es).rows
    ensures var now := Run(s, es); var later := Apply(now, Step(t, c));
            && id in later.rows && later.rows[id] == now.rows[id]
            && (id in now.workspaces ==> id in later.workspaces)
  {
    Reachable(s, es);
    var now := Run(s, es);
    assert ThreadOk(now, now.threads[t]);
    ReconcilerTouches(now, t, now.threads[t].r, c);
  }

  // ----- idempotency -----

  /** A submit that is not refused answers with a row that carries its own key and fingerprint, and
      its own task_id when it named one; a refused or repeated one leaves the whole state unchanged. */
  lemma SubmitAnswersItsOwnRequest(s: State, es: seq<Event>, t: nat, auto: bool, id: TaskId, key: string,
                                   fingerprint: string)
    requires Initial(s) && ValidTaskId(id) && t !in Run(s, es).threads
    ensures var now := Run(s, es); var later := Apply(now, Submit(t, auto, id, key, fingerprint));
            var reply := SubmitReply(now.rows, auto, id, key, fingerprint);
            && (!reply.Accepted? ==> later == now)
            && (!reply.Conflict? ==>
                  && reply.id in later.rows && later.rows[reply.id].key == key
                  && later.rows[reply.id].fingerprint == fingerprint && (auto || reply.id == id))
            && (reply.Accepted? ==>
                  && id !in now.rows && later.threads == now.threads[t := Executing(id, Enter)]
                  && later.rows == now.rows[id := Row(key, fingerprint, Queued, false, "", NoError)])
  {
    SubmitReplyFacts(Run(s, es).rows, auto, id, key, fingerprint);
  }

  /** Once a non-empty key is bound to a task, every later row with that key is that task with that
      fingerprint, and every later submit of the key gets that task or is refused. */
  lemma KeyIsBoundForever(s: State, before: seq<Event>, after: seq<Event>, id: TaskId, auto: bool,
                          wanted: TaskId, fingerprint: string)
    requires Initial(s) && id in Run(s, before).rows && Run(s, before).rows[id].key != ""
    ensures var row := Run(s, before).rows[id]; var later := Run(Run(s, before), after).rows;
            && id in later && later[id].fingerprint == row.fingerprint
            && (forall i <- later :: later[i].key == row.key ==> i == id)
            && SubmitReply(later, auto, wanted, row.key, fingerprint)
               == if fingerprint == row.fingerprint && (auto || wanted == id) then Existing(id) else Conflict
  {
    Reachable(s, before);
    RunKeeps(Run(s, before), after);
    var later := Run(Run(s, before), after).rows;
    assert Bound(later, Run(s, before).rows[id].key, id);
  }
}
