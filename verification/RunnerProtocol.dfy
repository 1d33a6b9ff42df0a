/** The sandbox Runner as a transition system: request handlers, worker threads and reconcilers
    interleave one ledger access, one docker command or one locked section at a time, and a crash
    may stop them anywhere. */
module RunnerProtocol {
  import opened LedgerRows

  /** _finalize_cancellation, one statement with an outside effect at a time. */
  datatype CancelStep =
    | ReadRow | RemoveContainer | ListContainer | WipeWorkspace | CheckWorkspace | Commit(clean: bool)

  datatype RunResult = Exited(code: int) | DeadlinePassed

  /** The place in _execute_task that called _finalize_cancellation. */
  datatype CallSite = StartRefused | BeforeLaunch | AfterRun(result: RunResult) | LastChance

  datatype ExecutorPc =
    | Enter | Claim | Prepare
    | Finalize(site: CallSite, step: CancelStep)
    | Launch | Watch(left: nat) | StopContainer | Collect   // left: polls before the deadline
    | Settle(outcome: Outcome)
    | Wipe | Leave

  datatype CancellerPc = Look | Request | Kill

  datatype Snapshot = Snapshot(id: TaskId, seen: Row)

  datatype ReconcilerPc =
    | ListAll | CopyActive | SelectRows
    | NextRow | RemoveListed | WipeListed | Judge | WriteRow(clean: bool)
    | Sweep

  /** scope is "" for a reconcile of everything; listed, owned and todo are the reconciler's own
      copies of the container listing, of the active set and of the selected rows. */
  datatype Reconciler = Reconciler(
    scope: TaskId, pc: ReconcilerPc, listed: set<string>, owned: set<TaskId>, todo: seq<Snapshot>)

  datatype Thread =
    | Executing(id: TaskId, at: ExecutorPc)
    | Cancelling(target: TaskId, look: CancellerPc)
    | Reconciling(r: Reconciler)

  /** launches and claimed are history: the containers ever launched, and the tasks ever moved
      from queued to running. */
  datatype State = State(
    rows: Rows, active: set<TaskId>, containers: set<string>, workspaces: set<TaskId>,
    threads: map<nat, Thread>, launches: multiset<TaskId>, claimed: set<TaskId>)

  /** What the outside world decides during one step: whether a command succeeded, whether it had
      its effect anyway, whether it raised, whether a poll timed out and how many polls fit before the
      deadline, the exit code of a container run, and which text, name or order it produced. */
  datatype Choice = Choice(
    ok: bool, effect: bool, raised: bool, timedOut: bool, polls: nat, exit: int,
    text: string, name: string, order: seq<TaskId>)

  datatype Event =
    | Submit(thread: nat, auto: bool, id: TaskId, key: string, fingerprint: string)
    | BeginCancel(thread: nat, id: TaskId)
    | BeginReconcile(thread: nat, scope: TaskId)
    | Step(thread: nat, choice: Choice)
    | Abandon(thread: nat)            // an exception ends a cancel or reconcile request
    | ContainerAppears(id: TaskId)    // docker creates a launched container in its own time
    | ContainerExits(name: string)
    | ServiceStarts(name: string)
    | Crash

  function TaskContainer(id: TaskId): string { "hdb-task-" + id }

  lemma TaskContainerInjective(a: TaskId, b: TaskId)
    requires TaskContainer(a) == TaskContainer(b)
    ensures a == b
  {
    assert a == TaskContainer(a)[9..] && b == TaskContainer(b)[9..];
  }

  predicate Sweepable(name: string) { "hdb-task-" <= name || "hdb-orphan-" <= name }

  // ----- submit -----

  datatype Reply = Conflict | Existing(id: TaskId) | Accepted(id: TaskId)

  ghost predicate Bound(rows: Rows, key: string, id: TaskId) { id in rows && rows[id].key == key }

  /** The critical section of submit_task. An automatic id is the caller's arbitrary choice. */
  ghost function SubmitReply(rows: Rows, auto: bool, id: TaskId, key: string, fingerprint: string): Reply {
    if key != "" && exists i :: Bound(rows, key, i) then
      var i :| Bound(rows, key, i);
      if (!auto && i != id) || rows[i].fingerprint != fingerprint then Conflict else Existing(i)
    else if id in rows then
      if rows[id].fingerprint != fingerprint || rows[id].key != key then Conflict else Existing(id)
    else Accepted(id)
  }

  // ----- one step of each kind of thread -----

  function Go(s: State, t: nat, id: TaskId, pc: ExecutorPc): State {
    s.(threads := s.threads[t := Executing(id, pc)])
  }

  function Without<T>(xs: set<T>, x: T, gone: bool): set<T> { if gone then xs - {x} else xs }

  function Ended(s: State, t: nat): State { s.(threads := s.threads - {t}) }

  function WhenCancelled(site: CallSite): ExecutorPc { if site == StartRefused then Leave else Wipe }

  function WhenNotCancelled(site: CallSite): ExecutorPc {
    match site
    case StartRefused => Leave
    case BeforeLaunch => Launch
    case AfterRun(DeadlinePassed) => Settle(Expiry)
    case AfterRun(Exited(code)) => if code != 0 then Settle(Failure("bundle_failed")) else Collect
    case LastChance => Wipe
  }

  function FinalizeStep(s: State, t: nat, id: TaskId, site: CallSite, step: CancelStep, c: Choice): State
    requires id in s.rows
  {
    match step
    case ReadRow =>
      Go(s, t, id, if s.rows[id].status == CancelRequested then Finalize(site, RemoveContainer)
                   else WhenNotCancelled(site))
    case RemoveContainer =>
      var s1 := s.(containers := Without(s.containers, TaskContainer(id), c.effect));
      Go(s1, t, id, Finalize(site, if c.raised then Commit(false) else ListContainer))
    case ListContainer =>
      Go(s, t, id, Finalize(site,
        if c.raised || !c.ok || TaskContainer(id) in s.containers then Commit(false) else WipeWorkspace))
    case WipeWorkspace =>
      Go(s.(workspaces := Without(s.workspaces, id, c.effect)), t, id, Finalize(site, CheckWorkspace))
    case CheckWorkspace => Go(s, t, id, Finalize(site, Commit(id !in s.workspaces)))
    case Commit(clean) =>
      Go(s.(rows := UpdateTask(s.rows, id, FinishCancel(clean))), t, id, WhenCancelled(site))
  }

  function ExecutorStep(s: State, t: nat, id: TaskId, pc: ExecutorPc, c: Choice): State
    requires id in s.rows
  {
    match pc
    case Enter => Go(s.(active := s.active + {id}), t, id, Claim)
    case Claim =>
      if Applies(s.rows, id, Start) then
        Go(s.(rows := UpdateTask(s.rows, id, Start), claimed := s.claimed + {id}), t, id, Prepare)
      else Go(s, t, id, Finalize(StartRefused, ReadRow))
    case Prepare =>
      Go(s.(workspaces := s.workspaces + {id}), t, id,
         if c.raised then Settle(Failure("execution_error")) else Finalize(BeforeLaunch, ReadRow))
    case Finalize(site, step) => FinalizeStep(s, t, id, site, step, c)
    case Launch =>
      if c.raised then Go(s, t, id, Settle(Failure(c.text)))
      else Go(s.(launches := s.launches + multiset{id}), t, id, Watch(c.polls))
    case Watch(left) =>
      if c.timedOut && s.rows[id].status == CancelRequested then Go(s, t, id, StopContainer)
      else if c.timedOut && left > 0 then Go(s, t, id, Watch(left - 1))
      else
        var result := if c.timedOut then DeadlinePassed else Exited(c.exit);
        var s1 := s.(containers := Without(s.containers, TaskContainer(id), c.effect));
        Go(s1, t, id, if c.raised then Settle(Failure(c.text)) else Finalize(AfterRun(result), ReadRow))
    case StopContainer =>
      var s1 := s.(containers := Without(s.containers, TaskContainer(id), c.effect));
      var result := if c.timedOut then DeadlinePassed else Exited(c.exit);
      Go(s1, t, id, if c.raised then Settle(Failure(c.text)) else Finalize(AfterRun(result), ReadRow))
    case Collect => Go(s, t, id, Settle(if c.raised then Failure(c.text) else Success(c.text)))
    case Settle(outcome) =>
      Go(s.(rows := UpdateTask(s.rows, id, Conclude(outcome))), t, id,
         if Applies(s.rows, id, Conclude(outcome)) then Wipe else Finalize(LastChance, ReadRow))
    case Wipe => Go(s.(workspaces := Without(s.workspaces, id, c.effect)), t, id, Leave)
    case Leave => Ended(s.(active := s.active - {id}), t)
  }

  function CancellerStep(s: State, t: nat, id: TaskId, pc: CancellerPc, c: Choice): State {
    match pc
    case Look =>
      if id in s.rows && Open(s.rows[id]) then s.(threads := s.threads[t := Cancelling(id, Request)])
      else Ended(s, t)
    case Request =>
      s.(rows := UpdateTask(s.rows, id, RequestCancel), threads := s.threads[t := Cancelling(id, Kill)])
    case Kill => Ended(s.(containers := Without(s.containers, TaskContainer(id), c.effect)), t)
  }

  function Put(s: State, t: nat, r: Reconciler): State { s.(threads := s.threads[t := Reconciling(r)]) }

  /** The SELECT of _reconcile_tasks, in an order of the database's choosing. */
  function Selected(rows: Rows, order: seq<TaskId>): seq<Snapshot> {
    if order == [] then []
    else if order[0] in rows && Reconcilable(rows[order[0]]) then
      [Snapshot(order[0], rows[order[0]])] + Selected(rows, order[1..])
    else Selected(rows, order[1..])
  }

  function ReconcilerStep(s: State, t: nat, r: Reconciler, c: Choice): State {
    match r.pc
    case ListAll => if c.ok then Put(s, t, r.(pc := CopyActive, listed := s.containers)) else Ended(s, t)
    case CopyActive => Put(s, t, r.(pc := SelectRows, owned := s.active))
    case SelectRows => Put(s, t, r.(pc := NextRow, todo := Selected(s.rows, c.order)))
    case NextRow =>
      if r.todo == [] then Put(s, t, r.(pc := Sweep))
      else if (r.scope != "" && r.todo[0].id != r.scope) || r.todo[0].id in r.owned || !ValidTaskId(r.todo[0].id) then
        Put(s, t, r.(todo := r.todo[1..]))
      else Put(s, t, r.(pc := RemoveListed))
    case RemoveListed =>
      if r.todo == [] then s else
      var name := TaskContainer(r.todo[0].id);
      if name !in r.listed then Put(s, t, r.(pc := WipeListed))
      else Put(s.(containers := Without(s.containers, name, c.ok || c.effect)), t,
               r.(pc := WipeListed, listed := Without(r.listed, name, c.ok)))
    case WipeListed =>
      if r.todo == [] then s else
      var id := r.todo[0].id;
      Put(s.(workspaces := Without(s.workspaces, id, c.effect && TaskContainer(id) !in r.listed)), t,
          r.(pc := Judge))
    case Judge =>
      if r.todo == [] then s else
      var id := r.todo[0].id;
      Put(s, t, r.(pc := WriteRow(TaskContainer(id) !in r.listed && id !in s.workspaces)))
    case WriteRow(clean) =>
      if r.todo == [] then s else
      var id := r.todo[0].id;
      Put(s.(rows := UpdateTask(s.rows, id, Change.Reconcile(r.todo[0].seen, clean))), t,
          r.(pc := NextRow, todo := r.todo[1..]))
    case Sweep =>
      if r.listed == {} then Ended(s, t)
      else if c.name !in r.listed then s
      else
        var skip := r.scope != "" || (exists id <- r.owned :: c.name == TaskContainer(id)) || !Sweepable(c.name);
        Put(s.(containers := Without(s.containers, c.name, !skip && c.effect)), t,
            r.(listed := r.listed - {c.name}))
  }

  // ----- the system -----

  function ThreadStep(s: State, t: nat, c: Choice): State {
    if t !in s.threads then s
    else match s.threads[t]
      case Executing(id, pc) => if id in s.rows then ExecutorStep(s, t, id, pc, c) else s
      case Cancelling(id, pc) => CancellerStep(s, t, id, pc, c)
      case Reconciling(r) => ReconcilerStep(s, t, r, c)
  }

  /** An event that is not possible in s leaves s unchanged. */
  ghost function Apply(s: State, e: Event): State {
    match e
    case Submit(t, auto, id, key, fingerprint) =>
      if t in s.threads || !ValidTaskId(id) || !SubmitReply(s.rows, auto, id, key, fingerprint).Accepted? then s
      else s.(rows := s.rows[id := NewRow(key, fingerprint)], threads := s.threads[t := Executing(id, Enter)])
    case BeginCancel(t, id) =>
      if t in s.threads then s else s.(threads := s.threads[t := Cancelling(id, Look)])
    case BeginReconcile(t, scope) =>
      if t in s.threads then s else Put(s, t, Reconciler(scope, ListAll, {}, {}, []))
    case Step(t, c) => ThreadStep(s, t, c)
    case Abandon(t) => if t in s.threads && !s.threads[t].Executing? then Ended(s, t) else s
    case ContainerAppears(id) =>
      if id in s.launches then s.(containers := s.containers + {TaskContainer(id)}) else s
    case ContainerExits(name) => s.(containers := s.containers - {name})
    case ServiceStarts(name) => if "hdb-task-" <= name then s else s.(containers := s.containers + {name})
    case Crash => s.(active := {}, threads := map[])
  }

  /** A fresh installation: an empty ledger on a host that may already run other containers. */
  ghost predicate Initial(s: State) {
    && s.rows == map[] && s.active == {} && s.threads == map[] && s.launches == multiset{} && s.claimed == {}
    && forall n <- s.containers :: !("hdb-task-" <= n)
  }

  ghost function Run(s: State, es: seq<Event>): State
    decreases |es|
  {
    if es == [] then s else Run(Apply(s, es[0]), es[1..])
  }
}
