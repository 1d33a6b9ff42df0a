/** How an execution ends, and a cancel request, when nothing else touches the task's row and neither is cut off:
    every outcome by its status, whatever all other tasks do meanwhile. */
module RunnerEndings {
  import opened LedgerRows
  import opened RunnerProtocol
  import opened RunnerSafety
  import opened RunnerRuns
  import opened RunnerOutcomes

  /** Until thread t leaves, no crash and no exception ends it, and only its own steps change the row. */
  ghost predicate LeftAlone(s: State, es: seq<Event>, t: nat, id: TaskId)
    decreases |es|
  {
    es != [] ==>
      && t in s.threads && es[0] != Crash && es[0] != Abandon(t)
      && (Own(es[0], t) || (id in s.rows && id in Apply(s, es[0]).rows && Apply(s, es[0]).rows[id] == s.rows[id]))
      && LeftAlone(Apply(s, es[0]), es[1..], t, id)
  }

  predicate Own(e: Event, t: nat) { e.Step? && e.thread == t }

  // ----- what the others leave alone -----

  predicate ExecutingIn(s: State, t: nat, id: TaskId) {
    t in s.threads && s.threads[t].Executing? && s.threads[t].id == id && id in s.rows
  }

  lemma OneExecutor(s: State, t: nat, u: nat, id: TaskId)
    requires Inv(s) && ExecutingIn(s, t, id) && u in s.threads && s.threads[u].Executing? && u != t
    ensures s.threads[u].id != id && s.threads[u].id in s.rows
  {
    ExecutorHasRow(s, u);
  }

  /** What other events leave of an execution: its thread, its launches, its place among the active. */
  ghost predicate SameExecution(s: State, later: State, t: nat, id: TaskId) {
    && t in s.threads && t in later.threads && later.threads[t] == s.threads[t]
    && later.launches[id] == s.launches[id] && (id in later.active <==> id in s.active)
    && (id in later.workspaces ==> id in s.workspaces)
  }

  lemma FinalizeTouchesOwn(s: State, u: nat, own: TaskId, site: CallSite, step: CancelStep, c: Choice, id: TaskId)
    requires own in s.rows && own != id
    ensures var later := FinalizeStep(s, u, own, site, step, c);
            && later.launches == s.launches && later.active == s.active
            && (id in later.workspaces ==> id in s.workspaces) && later.containers <= s.containers
  {
    hide UpdateTask;
  }

  lemma StepTouchesOwn(s: State, u: nat, own: TaskId, pc: ExecutorPc, c: Choice, id: TaskId)
    requires own in s.rows && own != id
    ensures var later := ExecutorStep(s, u, own, pc, c);
            && later.launches[id] == s.launches[id] && (id in later.active <==> id in s.active)
            && (id in later.workspaces ==> id in s.workspaces) && later.containers <= s.containers
  {
    hide UpdateTask, Applies, FinalizeStep;
    if pc.Finalize? { FinalizeTouchesOwn(s, u, own, pc.site, pc.step, c, id); }
  }

  lemma OtherStepLeavesExecution(s: State, u: nat, c: Choice, t: nat, id: TaskId)
    requires t in s.threads && u != t && u in s.threads && s.threads[u].Executing?
    requires s.threads[u].id != id && s.threads[u].id in s.rows
    ensures SameExecution(s, Apply(s, Step(u, c)), t, id)
    ensures TaskContainer(id) in Apply(s, Step(u, c)).containers ==> TaskContainer(id) in s.containers
  {
    hide ExecutorStep;
    OwnStepLeavesOthers(s, u, s.threads[u].id, s.threads[u].at, c);
    StepTouchesOwn(s, u, s.threads[u].id, s.threads[u].at, c, id);
  }

  lemma OtherEventLeavesExecution(s: State, e: Event, t: nat, id: TaskId)
    requires t in s.threads && !Own(e, t) && e != Crash && e != Abandon(t)
    requires e.Step? && e.thread in s.threads ==> !s.threads[e.thread].Executing?
    ensures SameExecution(s, Apply(s, e), t, id)
    ensures TaskContainer(id) in Apply(s, e).containers ==>
              TaskContainer(id) in s.containers || e == ContainerAppears(id)
  {
    assert "hdb-task-" <= TaskContainer(id);
    if e.ContainerAppears? && TaskContainer(e.id) == TaskContainer(id) { TaskContainerInjective(e.id, id); }
  }

  lemma OthersLeaveExecution(s: State, h: History, e: Event, t: nat, id: TaskId)
    requires Inv(s) && ExecutingIn(s, t, id) && !Own(e, t) && e != Crash && e != Abandon(t)
    ensures SameExecution(s, Apply(s, e), t, id) && SameFor(h, Heard(s, h, e), id)
    ensures TaskContainer(id) in Apply(s, e).containers ==>
              TaskContainer(id) in s.containers || e == ContainerAppears(id)
  {
    hide SameExecution, Apply, HeardAt, SameFor, Inv;
    if e.Step? && e.thread in s.threads && s.threads[e.thread].Executing? {
      OneExecutor(s, t, e.thread, id);
      OtherStepLeavesExecution(s, e.thread, e.choice, t, id);
      HeardLeavesOthers(s, h, s.threads[e.thread].id, s.threads[e.thread].at, e.choice, id);
    } else {
      OtherEventLeavesExecution(s, e, t, id);
      NothingHeard(s, h, e);
      SameAsItself(h, id);
    }
  }

  lemma SameAsItself(h: History, id: TaskId)
    ensures SameFor(h, h, id)
  {}

  // ----- an execution that nothing disturbs -----

  predicate Unheard(h: History, id: TaskId) { id !in h.ended && id !in h.collected && id !in h.raised }

  /** The row an execution ends with, by what it heard; was is the queued row, launched the number of launches. */
  predicate EndsRight(was: Row, row: Row, h: History, id: TaskId, launched: int) {
    if id in h.raised then row == was.(status := Failed, cleaned := true, error := ExecutionCode(h.raised[id]))
    else
      && launched == 1 && id in h.ended
      && match h.ended[id]
         case DeadlinePassed => row == was.(status := TimedOut, cleaned := true, error := Timeout)
         case Exited(code) =>
           if code == 0 then
             id in h.collected && row == was.(status := Succeeded, cleaned := true, manifest := h.collected[id])
           else row == was.(status := Failed, cleaned := true, error := ExecutionCode("bundle_failed"))
  }

  predicate Running1(was: Row, row: Row, launched: int) { row == was.(status := Running) && launched == 1 }

  /** Where such an execution can be, and what it heard so far. */
  predicate OnItsWay(was: Row, row: Row, h: History, id: TaskId, launched: int, pc: ExecutorPc) {
    match pc
    case Enter => row == was && Unheard(h, id) && launched == 0
    case Claim => row == was && Unheard(h, id) && launched == 0
    case Prepare => row == was.(status := Running) && Unheard(h, id) && launched == 0
    case Finalize(BeforeLaunch, ReadRow) => row == was.(status := Running) && Unheard(h, id) && launched == 0
    case Launch => row == was.(status := Running) && Unheard(h, id) && launched == 0
    case Watch(_) => Running1(was, row, launched) && Unheard(h, id)
    case Finalize(AfterRun(result), ReadRow) =>
      Running1(was, row, launched) && id in h.ended && h.ended[id] == result && id !in h.raised
    case Collect => Running1(was, row, launched) && id in h.ended && h.ended[id] == Exited(0) && id !in h.raised
    case Settle(Success(m)) =>
      && Running1(was, row, launched) && id in h.ended && h.ended[id] == Exited(0) && id !in h.raised
      && id in h.collected && h.collected[id] == m
    case Settle(Failure(code)) =>
      && row == was.(status := Running)
      && if id in h.raised then h.raised[id] == code
         else launched == 1 && id in h.ended && h.ended[id].Exited? && h.ended[id].code != 0 && code == "bundle_failed"
    case Settle(Expiry) =>
      Running1(was, row, launched) && id in h.ended && h.ended[id] == DeadlinePassed && id !in h.raised
    case Wipe => EndsRight(was, row, h, id, launched)
    case Leave => EndsRight(was, row, h, id, launched)
    case _ => false
  }

  lemma OnItsWayStays(was: Row, row: Row, h: History, later: History, id: TaskId, launched: int, pc: ExecutorPc)
    requires OnItsWay(was, row, h, id, launched, pc) && SameFor(h, later, id)
    ensures OnItsWay(was, row, later, id, launched, pc)
  {}

  lemma FirstHalfMovesOn(was: Row, s: State, h: History, t: nat, id: TaskId, pc: ExecutorPc, c: Choice, base: int)
    requires t in s.threads && s.threads[t] == Executing(id, pc) && id in s.rows && was.status == Queued
    requires OnItsWay(was, s.rows[id], h, id, s.launches[id] - base, pc)
    requires pc.Enter? || pc.Claim? || pc.Prepare? || pc.Finalize? || pc.Launch?
    ensures var later := ExecutorStep(s, t, id, pc, c); var heard := HeardAt(s, h, id, pc, c);
            && id in later.rows && t in later.threads && later.threads[t].Executing?
            && OnItsWay(was, later.rows[id], heard, id, later.launches[id] - base, later.threads[t].at)
  {}

  lemma SecondHalfMovesOn(was: Row, s: State, h: History, t: nat, id: TaskId, pc: ExecutorPc, c: Choice, base: int)
    requires t in s.threads && s.threads[t] == Executing(id, pc) && id in s.rows && was.status == Queued
    requires OnItsWay(was, s.rows[id], h, id, s.launches[id] - base, pc)
    requires pc.Watch? || pc.Collect? || pc.Settle? || pc.Wipe? || pc.Leave?
    ensures var later := ExecutorStep(s, t, id, pc, c); var heard := HeardAt(s, h, id, pc, c);
            && id in later.rows
            && if t in later.threads then
                 && later.threads[t].Executing?
                 && OnItsWay(was, later.rows[id], heard, id, later.launches[id] - base, later.threads[t].at)
               else
                 EndsRight(was, later.rows[id], heard, id, later.launches[id] - base) && id !in later.active
  {}

  /** When the execution removes its workspace for the last time, it succeeds. */
  ghost predicate WorkspaceGoes(s: State, es: seq<Event>, t: nat)
    decreases |es|
  {
    es != [] ==>
      && (Own(es[0], t) && t in s.threads && s.threads[t].Executing? && s.threads[t].at.Wipe? ==> es[0].choice.effect)
      && WorkspaceGoes(Apply(s, es[0]), es[1..], t)
  }

  /** The whole of it: the execution is on its way, or it has ended right and its task is no longer active. */
  ghost predicate GoesRight(was: Row, s: State, h: History, t: nat, id: TaskId, base: int, tidy: bool) {
    && id in s.rows
    && (tidy && (t !in s.threads || (s.threads[t].Executing? && s.threads[t].at.Leave?)) ==> id !in s.workspaces)
    && if t in s.threads then
         && s.threads[t].Executing? && s.threads[t].id == id
         && OnItsWay(was, s.rows[id], h, id, s.launches[id] - base, s.threads[t].at)
       else EndsRight(was, s.rows[id], h, id, s.launches[id] - base) && id !in s.active
  }

  lemma LeavesNoWorkspace(was: Row, s: State, h: History, t: nat, id: TaskId, c: Choice, base: int, tidy: bool)
    requires GoesRight(was, s, h, t, id, base, tidy) && t in s.threads
    requires tidy && s.threads[t].at.Wipe? ==> c.effect
    ensures var later := ExecutorStep(s, t, id, s.threads[t].at, c);
            tidy && (t !in later.threads || (later.threads[t].Executing? && later.threads[t].at.Leave?)) ==>
              id !in later.workspaces
  {
    hide EndsRight, Written, Applies;
  }

  lemma OwnStepGoesRight(was: Row, s: State, h: History, t: nat, id: TaskId, c: Choice, base: int, tidy: bool)
    requires GoesRight(was, s, h, t, id, base, tidy) && t in s.threads && was.status == Queued
    requires tidy && s.threads[t].at.Wipe? ==> c.effect
    ensures GoesRight(was, Apply(s, Step(t, c)), Heard(s, h, Step(t, c)), t, id, base, tidy)
  {
    hide OnItsWay, EndsRight, ExecutorStep, HeardAt;
    var pc := s.threads[t].at;
    OwnStepLeavesOthers(s, t, id, pc, c);
    LeavesNoWorkspace(was, s, h, t, id, c, base, tidy);
    if pc.Enter? || pc.Claim? || pc.Prepare? || pc.Finalize? || pc.Launch? {
      FirstHalfMovesOn(was, s, h, t, id, pc, c, base);
    } else {
      NoStopOnTheWay(was, s, h, t, id, base, tidy);
      SecondHalfMovesOn(was, s, h, t, id, pc, c, base);
    }
  }

  lemma NoStopOnTheWay(was: Row, s: State, h: History, t: nat, id: TaskId, base: int, tidy: bool)
    requires GoesRight(was, s, h, t, id, base, tidy) && t in s.threads
    ensures !s.threads[t].at.StopContainer?
  {}

  lemma {:induction false} RunGoesRight(was: Row, s: State, h: History, es: seq<Event>, t: nat, id: TaskId, base: int,
                                        tidy: bool)
    requires Inv(s) && GoesRight(was, s, h, t, id, base, tidy) && was.status == Queued && LeftAlone(s, es, t, id)
    requires tidy ==> WorkspaceGoes(s, es, t)
    ensures GoesRight(was, Run(s, es), HeardOver(s, h, es), t, id, base, tidy)
    decreases |es|
  {
    hide Inv, Apply, Heard, OnItsWay, EndsRight;
    if es != [] {
      var e := es[0];
      ApplyKeeps(s, e);
      if Own(e, t) {
        OwnStepGoesRight(was, s, h, t, id, e.choice, base, tidy);
      } else {
        OthersLeaveExecution(s, h, e, t, id);
        OnItsWayStays(was, s.rows[id], h, Heard(s, h, e), id, s.launches[id] - base, s.threads[t].at);
      }
      RunGoesRight(was, Apply(s, e), Heard(s, h, e), es[1..], t, id, base, tidy);
    }
  }

  /** An execution that finds its row queued, that nothing cuts off and whose row nothing else writes, among any
      other threads: if nothing raises, its container is launched once; exit code 0 ends the row succeeded with
      the collected manifest, any other exit code failed with bundle_failed, a passed deadline timed_out. What
      raises ends it failed with that error's code. In every case the task is no longer active, and its workspace is
      gone if its last removal succeeds. */
  lemma UndisturbedExecutionEnds(s: State, before: seq<Event>, es: seq<Event>, t: nat, id: TaskId)
    requires Initial(s) && ExecutingIn(Run(s, before), t, id)
    requires Run(s, before).threads[t].at == Enter && Run(s, before).rows[id].status == Queued
    requires LeftAlone(Run(s, before), es, t, id) && t !in Run(Run(s, before), es).threads
    ensures var now := Run(s, before); var later := Run(now, es); var h := HeardOver(now, NOTHING, es);
            && id in later.rows && id !in later.active
            && (WorkspaceGoes(now, es, t) ==> id !in later.workspaces)
            && var was := now.rows[id]; var row := later.rows[id];
               if id in h.raised then
                 row == Row(was.key, was.fingerprint, Failed, true, was.manifest, ExecutionCode(h.raised[id]))
               else
                 && later.launches[id] == now.launches[id] + 1 && id in h.ended
                 && (h.ended[id] == Exited(0) ==>
                       id in h.collected
                       && row == Row(was.key, was.fingerprint, Succeeded, true, h.collected[id], was.error))
                 && (h.ended[id].Exited? && h.ended[id].code != 0 ==>
                       row == Row(was.key, was.fingerprint, Failed, true, was.manifest, ExecutionCode("bundle_failed")))
                 && (h.ended[id] == DeadlinePassed ==>
                       row == Row(was.key, was.fingerprint, TimedOut, true, was.manifest, Timeout))
  {
    Reachable(s, before);
    var now := Run(s, before);
    RunGoesRight(now.rows[id], now, NOTHING, es, t, id, now.launches[id], WorkspaceGoes(now, es, t));
  }

  // ----- a cancel request that nothing disturbs -----

  predicate Cancellable(r: Row) { r.status in {Queued, Running, CancelRequested} }

  function Requested(was: Row): Row {
    if was.status == CancelRequested then was
    else Row(was.key, was.fingerprint, CancelRequested, false, was.manifest, was.error)
  }

  /** What a cancel request has done by the time it is at one of its places. */
  ghost predicate CancelOnItsWay(was: Row, s: State, t: nat, id: TaskId) {
    && id in s.rows
    && if t !in s.threads then s.rows[id] == (if Cancellable(was) then Requested(was) else was)
       else
         && s.threads[t].Cancelling? && s.threads[t].target == id
         && match s.threads[t].look
            case Look => s.rows[id] == was
            case Request => s.rows[id] == was && Cancellable(was)
            case Kill => s.rows[id] == Requested(was) && Cancellable(was)
  }

  lemma CancelMovesOn(was: Row, s: State, t: nat, id: TaskId, c: Choice)
    requires CancelOnItsWay(was, s, t, id) && t in s.threads
    ensures CancelOnItsWay(was, Apply(s, Step(t, c)), t, id)
  {}

  lemma OthersLeaveCanceller(s: State, e: Event, t: nat)
    requires t in s.threads && !Own(e, t) && e != Crash && e != Abandon(t)
    ensures t in Apply(s, e).threads && Apply(s, e).threads[t] == s.threads[t]
  {
    hide ExecutorStep;
    if e.Step? && e.thread in s.threads && s.threads[e.thread].Executing? && s.threads[e.thread].id in s.rows {
      OwnStepLeavesOthers(s, e.thread, s.threads[e.thread].id, s.threads[e.thread].at, e.choice);
    }
  }

  lemma {:induction false} CancelRuns(was: Row, s: State, es: seq<Event>, t: nat, id: TaskId)
    requires CancelOnItsWay(was, s, t, id) && LeftAlone(s, es, t, id)
    ensures CancelOnItsWay(was, Run(s, es), t, id)
    decreases |es|
  {
    hide Apply;
    if es != [] {
      if Own(es[0], t) { CancelMovesOn(was, s, t, id, es[0].choice); } else { OthersLeaveCanceller(s, es[0], t); }
      CancelRuns(was, Apply(s, es[0]), es[1..], t, id);
    }
  }

  /** A cancel request that nothing cuts off, among any other threads: if the row is queued, running or already
      cancel_requested and nothing else writes it, it is cancel_requested when the request is answered, and a
      queued or running one is marked for cleanup; any other row is as it was. */
  lemma UndisturbedCancelTakes(s: State, es: seq<Event>, t: nat, id: TaskId)
    requires id in s.rows && t in s.threads && s.threads[t] == Cancelling(id, Look)
    requires LeftAlone(s, es, t, id) && t !in Run(s, es).threads
    ensures var was := s.rows[id]; var later := Run(s, es).rows;
            && id in later
            && (was.status in {Queued, Running} ==>
                  later[id] == Row(was.key, was.fingerprint, CancelRequested, false, was.manifest, was.error))
            && (was.status !in {Queued, Running} ==> later[id] == was)
  {
    CancelRuns(s.rows[id], s, es, t, id);
  }

  /** And a request for an open row stops the container when its last command works. */
  lemma CancelRemovesTheContainer(s: State, t: nat, id: TaskId, look: Choice, request: Choice, kill: Choice)
    requires id in s.rows && t in s.threads && s.threads[t] == Cancelling(id, Look)
    requires s.rows[id].status in {Queued, Running, CancelRequested} && kill.effect
    ensures var later := Run(s, [Step(t, look), Step(t, request), Step(t, kill)]);
            && later.containers == s.containers - {"hdb-task-" + id} && t !in later.threads
            && id in later.rows && later.rows[id].status == CancelRequested
  {
    var three := [Step(t, look), Step(t, request), Step(t, kill)];
    var looked := Apply(s, three[0]);
    var requested := Apply(looked, three[1]);
    assert three[1..][1..] == [Step(t, kill)] && three[1..][1..][1..] == [];
    assert Run(s, three) == Run(requested, three[1..][1..]) == Run(Apply(requested, Step(t, kill)), []);
  }

  // ----- a cancelled execution that nothing disturbs -----

  predicate TidyingUp(pc: ExecutorPc) { pc.Finalize? || pc.Wipe? || pc.Leave? }

  /** Docker does not create the task's container once the execution has begun to clean up. */
  ghost predicate NoLateContainer(s: State, es: seq<Event>, t: nat, id: TaskId)
    decreases |es|
  {
    es != [] ==>
      && (es[0] == ContainerAppears(id) && t in s.threads && s.threads[t].Executing? ==> !TidyingUp(s.threads[t].at))
      && NoLateContainer(Apply(s, es[0]), es[1..], t, id)
  }

  /** While the execution cleans up, each of its commands succeeds. */
  ghost predicate CleanupSucceeds(s: State, es: seq<Event>, t: nat)
    decreases |es|
  {
    es != [] ==>
      && (Own(es[0], t) && t in s.threads && s.threads[t].Executing? && s.threads[t].at.Finalize? ==>
            es[0].choice.ok && es[0].choice.effect && !es[0].choice.raised)
      && CleanupSucceeds(Apply(s, es[0]), es[1..], t)
  }

  ghost predicate Gone(s: State, id: TaskId) { TaskContainer(id) !in s.containers && id !in s.workspaces }

  /** Cancelled with container and workspace gone, or still to be cleaned up after a failure. */
  ghost predicate EndsCancelled(was: Row, s: State, id: TaskId, succeeds: bool)
    requires id in s.rows
  {
    || (s.rows[id] == Row(was.key, was.fingerprint, Cancelled, true, was.manifest, NoError) && Gone(s, id))
    || (!succeeds
        && s.rows[id] == Row(was.key, was.fingerprint, CleanupPending, false, was.manifest, CancelCleanupPending))
  }

  /** Where a cancelled execution can be, and what is already gone. */
  ghost predicate Withdraws(was: Row, s: State, id: TaskId, pc: ExecutorPc, succeeds: bool)
    requires id in s.rows
  {
    if pc.Wipe? || pc.Leave? then EndsCancelled(was, s, id, succeeds)
    else
      && s.rows[id] == was
      && (pc.Finalize? ==> match pc.step
            case ReadRow => true
            case RemoveContainer => true
            case ListContainer => succeeds ==> TaskContainer(id) !in s.containers
            case WipeWorkspace => TaskContainer(id) !in s.containers
            case CheckWorkspace => TaskContainer(id) !in s.containers && (succeeds ==> id !in s.workspaces)
            case Commit(clean) => (succeeds ==> clean) && (clean ==> Gone(s, id)))
  }

  ghost predicate WithdrawsOrLeft(was: Row, s: State, t: nat, id: TaskId, succeeds: bool) {
    && id in s.rows
    && if t in s.threads then
         s.threads[t].Executing? && s.threads[t].id == id && Withdraws(was, s, id, s.threads[t].at, succeeds)
       else EndsCancelled(was, s, id, succeeds)
  }

  lemma FinalizeWithdraws(was: Row, s: State, t: nat, id: TaskId, site: CallSite, step: CancelStep, c: Choice,
                          succeeds: bool)
    requires id in s.rows && was.status == CancelRequested
    requires Withdraws(was, s, id, Finalize(site, step), succeeds)
    requires succeeds ==> c.ok && c.effect && !c.raised
    ensures var later := FinalizeStep(s, t, id, site, step, c);
            && id in later.rows && t in later.threads && later.threads[t].Executing?
            && Withdraws(was, later, id, later.threads[t].at, succeeds)
  {}

  lemma StepWithdraws(was: Row, s: State, t: nat, id: TaskId, pc: ExecutorPc, c: Choice, succeeds: bool)
    requires t in s.threads && s.threads[t] == Executing(id, pc) && id in s.rows && was.status == CancelRequested
    requires Withdraws(was, s, id, pc, succeeds)
    requires pc.Finalize? && succeeds ==> c.ok && c.effect && !c.raised
    ensures var later := ExecutorStep(s, t, id, pc, c);
            && id in later.rows
            && if t in later.threads then
                 later.threads[t].Executing? && Withdraws(was, later, id, later.threads[t].at, succeeds)
               else EndsCancelled(was, later, id, succeeds)
  {
    hide FinalizeStep;
    if pc.Finalize? { FinalizeWithdraws(was, s, t, id, pc.site, pc.step, c, succeeds); }
  }

  lemma OwnStepWithdraws(was: Row, s: State, t: nat, id: TaskId, c: Choice, succeeds: bool)
    requires WithdrawsOrLeft(was, s, t, id, succeeds) && t in s.threads && was.status == CancelRequested
    requires s.threads[t].at.Finalize? && succeeds ==> c.ok && c.effect && !c.raised
    ensures WithdrawsOrLeft(was, Apply(s, Step(t, c)), t, id, succeeds)
  {
    hide Withdraws, EndsCancelled, ExecutorStep;
    OwnStepLeavesOthers(s, t, id, s.threads[t].at, c);
    StepWithdraws(was, s, t, id, s.threads[t].at, c, succeeds);
  }

  lemma {:induction false} RunWithdraws(was: Row, s: State, es: seq<Event>, t: nat, id: TaskId, succeeds: bool)
    requires Inv(s) && WithdrawsOrLeft(was, s, t, id, succeeds) && was.status == CancelRequested
    requires LeftAlone(s, es, t, id) && NoLateContainer(s, es, t, id) && (succeeds ==> CleanupSucceeds(s, es, t))
    ensures WithdrawsOrLeft(was, Run(s, es), t, id, succeeds)
    decreases |es|
  {
    hide Inv, Apply, Heard;
    if es != [] {
      ApplyKeeps(s, es[0]);
      if Own(es[0], t) {
        OwnStepWithdraws(was, s, t, id, es[0].choice, succeeds);
      } else {
        OthersLeaveExecution(s, NOTHING, es[0], t, id);
      }
      RunWithdraws(was, Apply(s, es[0]), es[1..], t, id, succeeds);
    }
  }

  /** An execution whose row is cancel_requested, wherever it is before its cleanup looks at the container, among
      any other threads: if nothing cuts it off, nothing else writes the row and docker creates no container
      behind the cleanup, it leaves with the row cancelled, its container and its workspace gone; or, only if one
      of its cleanup commands failed, with the row in cleanup_pending under the cancellation's error code. */
  lemma UndisturbedCancellationEnds(s: State, before: seq<Event>, es: seq<Event>, t: nat, id: TaskId)
    requires Initial(s) && ExecutingIn(Run(s, before), t, id)
    requires Run(s, before).rows[id].status == CancelRequested
    requires var pc := Run(s, before).threads[t].at; pc.Finalize? ==> pc.step.ReadRow? || pc.step.RemoveContainer?
    requires LeftAlone(Run(s, before), es, t, id) && NoLateContainer(Run(s, before), es, t, id)
    requires t !in Run(Run(s, before), es).threads
    ensures var was := Run(s, before).rows[id]; var later := Run(Run(s, before), es);
            && id in later.rows
            && (|| (later.rows[id] == Row(was.key, was.fingerprint, Cancelled, true, was.manifest, NoError)
                    && TaskContainer(id) !in later.containers && id !in later.workspaces)
                || (later.rows[id]
                      == Row(was.key, was.fingerprint, CleanupPending, false, was.manifest, CancelCleanupPending)
                    && !CleanupSucceeds(Run(s, before), es, t)))
  {
    Reachable(s, before);
    var now := Run(s, before);
    assert ThreadOk(now, now.threads[t]);
    var succeeds := CleanupSucceeds(now, es, t);
    RunWithdraws(now.rows[id], now, es, t, id, succeeds);
  }

  /** A running container of a cancelled task is stopped at the next poll that times out, however far its
      deadline is, and the execution goes on to finish the cancellation. */
  lemma CancelStopsTheContainer(s: State, t: nat, id: TaskId, left: nat, poll: Choice, stop: Choice)
    requires t in s.threads && s.threads[t] == Executing(id, Watch(left)) && id in s.rows
    requires s.rows[id].status == CancelRequested && poll.timedOut && stop.effect && !stop.raised
    ensures var later := Run(s, [Step(t, poll), Step(t, stop)]);
            && "hdb-task-" + id !in later.containers && later.rows == s.rows
            && t in later.threads && later.threads[t].Executing? && later.threads[t].id == id
            && later.threads[t].at.Finalize? && later.threads[t].at.step == ReadRow
  {
    var two := [Step(t, poll), Step(t, stop)];
    assert two[1..] == [Step(t, stop)] && two[1..][1..] == [];
    assert Run(s, two) == Apply(Apply(s, Step(t, poll)), Step(t, stop)) by {
      assert Run(Apply(s, two[0]), two[1..]) == Run(Apply(Apply(s, two[0]), two[1..][0]), two[1..][1..]);
    }
  }

  // ----- a cancellation that comes before the launch -----

  /** The places of an execution that will not come to its launch once its cancellation is requested. */
  predicate NotLaunching(pc: ExecutorPc) {
    || pc.Enter? || pc.Claim? || pc.Prepare? || pc.Wipe? || pc.Leave? || (pc.Settle? && pc.outcome.Failure?)
    || (pc.Finalize? && !pc.site.AfterRun?)
  }

  /** Until it tidies up for the last time its row says cancel_requested. */
  ghost predicate Aborts(s: State, t: nat, id: TaskId, launched: nat) {
    && id in s.rows && s.launches[id] == launched
    && (t in s.threads ==>
          && s.threads[t].Executing? && s.threads[t].id == id && NotLaunching(s.threads[t].at)
          && (!s.threads[t].at.Wipe? && !s.threads[t].at.Leave? ==> s.rows[id].status == CancelRequested))
  }

  lemma FinalizeAborts(s: State, t: nat, id: TaskId, site: CallSite, step: CancelStep, c: Choice)
    requires id in s.rows && s.rows[id].status == CancelRequested && !site.AfterRun?
    ensures var later := FinalizeStep(s, t, id, site, step, c);
            && later.launches == s.launches && id in later.rows && t in later.threads && later.threads[t].Executing?
            && NotLaunching(later.threads[t].at)
            && (later.threads[t].at.Wipe? || later.threads[t].at.Leave? || later.rows[id].status == CancelRequested)
  {}

  lemma OwnStepAborts(s: State, t: nat, id: TaskId, c: Choice, launched: nat)
    requires Aborts(s, t, id, launched) && t in s.threads
    ensures Aborts(Apply(s, Step(t, c)), t, id, launched)
  {
    hide FinalizeStep;
    var pc := s.threads[t].at;
    OwnStepLeavesOthers(s, t, id, pc, c);
    if pc.Finalize? { FinalizeAborts(s, t, id, pc.site, pc.step, c); }
  }

  lemma {:induction false} RunAborts(s: State, es: seq<Event>, t: nat, id: TaskId, launched: nat)
    requires Inv(s) && Aborts(s, t, id, launched) && LeftAlone(s, es, t, id)
    ensures Aborts(Run(s, es), t, id, launched)
    decreases |es|
  {
    hide Inv, Apply, Heard, NotLaunching;
    if es != [] {
      ApplyKeeps(s, es[0]);
      if Own(es[0], t) {
        OwnStepAborts(s, t, id, es[0].choice, launched);
      } else {
        OthersLeaveExecution(s, NOTHING, es[0], t, id);
      }
      RunAborts(Apply(s, es[0]), es[1..], t, id, launched);
    }
  }

  /** A cancellation requested before the execution looked for one is in time: if nothing cuts the execution off
      and nothing else writes the row, the container is never launched. */
  lemma CancelledInTimeIsNotLaunched(s: State, before: seq<Event>, es: seq<Event>, t: nat, id: TaskId)
    requires Initial(s) && ExecutingIn(Run(s, before), t, id)
    requires Run(s, before).rows[id].status == CancelRequested
    requires var pc := Run(s, before).threads[t].at;
             pc in {Enter, Claim, Prepare, Finalize(BeforeLaunch, ReadRow)}
    requires LeftAlone(Run(s, before), es, t, id)
    ensures Run(Run(s, before), es).launches[id] == 0
  {
    Reachable(s, before);
    var now := Run(s, before);
    assert ThreadOk(now, now.threads[t]);
    RunAborts(now, es, t, id, 0);
  }

  // ----- the workspace -----

  /** Until thread t leaves, no crash ends it. */
  ghost predicate NotCutOff(s: State, es: seq<Event>, t: nat)
    decreases |es|
  {
    es != [] ==> t in s.threads && es[0] != Crash && es[0] != Abandon(t) && NotCutOff(Apply(s, es[0]), es[1..], t)
  }

  predicate PastClaim(pc: ExecutorPc) { !pc.Enter? && !pc.Claim? && !(pc.Finalize? && pc.site.StartRefused?) }

  ghost predicate WillBeTidy(s: State, t: nat, id: TaskId) {
    if t in s.threads then
      && s.threads[t].Executing? && s.threads[t].id == id && id in s.rows && PastClaim(s.threads[t].at)
      && (s.threads[t].at.Leave? ==> id !in s.workspaces)
    else id !in s.workspaces
  }

  lemma FinalizeStaysPastClaim(s: State, t: nat, id: TaskId, site: CallSite, step: CancelStep, c: Choice)
    requires id in s.rows && !site.StartRefused?
    ensures var later := FinalizeStep(s, t, id, site, step, c);
            && t in later.threads && later.threads[t].Executing? && PastClaim(later.threads[t].at)
            && !later.threads[t].at.Leave?
  {}

  lemma OwnStepTidies(s: State, t: nat, id: TaskId, c: Choice)
    requires WillBeTidy(s, t, id) && t in s.threads && (s.threads[t].at.Wipe? ==> c.effect)
    ensures WillBeTidy(Apply(s, Step(t, c)), t, id)
  {
    hide FinalizeStep, UpdateTask;
    var pc := s.threads[t].at;
    OwnStepLeavesOthers(s, t, id, pc, c);
    if pc.Finalize? { FinalizeStaysPastClaim(s, t, id, pc.site, pc.step, c); }
  }

  lemma {:induction false} RunTidies(s: State, es: seq<Event>, t: nat, id: TaskId)
    requires Inv(s) && WillBeTidy(s, t, id) && NotCutOff(s, es, t) && WorkspaceGoes(s, es, t)
    ensures WillBeTidy(Run(s, es), t, id)
    decreases |es|
  {
    hide Inv, Apply, Heard, PastClaim, LedgerEvolves;
    if es != [] {
      ApplyKeeps(s, es[0]);
      if Own(es[0], t) {
        OwnStepTidies(s, t, id, es[0].choice);
      } else {
        OthersLeaveExecution(s, NOTHING, es[0], t, id);
        ExecutorHasRow(Apply(s, es[0]), t);
      }
      RunTidies(Apply(s, es[0]), es[1..], t, id);
    }
  }

  /** However an execution that claimed its task goes on, and whoever else writes its row: unless it is cut off, it
      leaves no workspace behind if its last removal works. */
  lemma ExecutionsLeaveNoWorkspace(s: State, before: seq<Event>, es: seq<Event>, t: nat, id: TaskId)
    requires Initial(s) && ExecutingIn(Run(s, before), t, id) && Run(s, before).threads[t].at == Prepare
    requires NotCutOff(Run(s, before), es, t) && WorkspaceGoes(Run(s, before), es, t)
    requires t !in Run(Run(s, before), es).threads
    ensures id !in Run(Run(s, before), es).workspaces
  {
    Reachable(s, before);
    RunTidies(Run(s, before), es, t, id);
  }
}
