/** Which outcome a task gets: what the outside world answered during its execution is kept as history, and
    every concluded row is held against it. */
module RunnerOutcomes {
  import opened LedgerRows
  import opened RunnerProtocol
  import opened RunnerSafety
  import opened RunnerRuns

  // ----- what the outside world answered -----

  /** ended: how the container run of a task was last reported, where a passed deadline is any timeout that ends
      the run; collected: the manifest made from its output;
      raised: the error code of the exception that cut its execution short. */
  datatype History = History(ended: map<TaskId, RunResult>, collected: map<TaskId, string>, raised: map<TaskId, string>)

  const NOTHING := History(map[], map[], map[])

  /** What one step of an execution hears. A poll that times out before the deadline, or that finds its
      cancellation requested, reports nothing. */
  function HeardAt(s: State, h: History, id: TaskId, pc: ExecutorPc, c: Choice): History
    requires id in s.rows
  {
    if c.raised && pc.Prepare? then h.(raised := h.raised[id := "execution_error"])
    else if c.raised && (pc.Launch? || pc.StopContainer? || pc.Collect?) then h.(raised := h.raised[id := c.text])
    else if pc.Collect? then h.(collected := h.collected[id := c.text])
    else if pc.StopContainer? then h.(ended := h.ended[id := if c.timedOut then DeadlinePassed else Exited(c.exit)])
    else if pc.Watch? && c.timedOut && (pc.left > 0 || s.rows[id].status == CancelRequested) then h
    else if pc.Watch? && c.raised then h.(raised := h.raised[id := c.text])
    else if pc.Watch? then h.(ended := h.ended[id := if c.timedOut then DeadlinePassed else Exited(c.exit)])
    else h
  }

  function Heard(s: State, h: History, e: Event): History {
    if e.Step? && e.thread in s.threads && s.threads[e.thread].Executing? && s.threads[e.thread].id in s.rows then
      HeardAt(s, h, s.threads[e.thread].id, s.threads[e.thread].at, e.choice)
    else h
  }

  ghost function HeardOver(s: State, h: History, es: seq<Event>): History
    decreases |es|
  {
    if es == [] then h else HeardOver(Apply(s, es[0]), Heard(s, h, es[0]), es[1..])
  }

  // ----- every concluded row is true to it -----

  predicate Concluded(r: Row) { r.status in {Succeeded, Failed, TimedOut} }

  predicate ExitedWith(h: History, id: TaskId, zero: bool) {
    id in h.ended && h.ended[id].Exited? && (h.ended[id].code == 0 <==> zero)
  }

  predicate Expired(h: History, id: TaskId) { id in h.ended && h.ended[id] == DeadlinePassed }

  predicate CollectedAs(h: History, id: TaskId, m: string) {
    ExitedWith(h, id, true) && id in h.collected && h.collected[id] == m
  }

  predicate FailedWith(h: History, id: TaskId, code: string) {
    (code == "bundle_failed" && ExitedWith(h, id, false)) || (id in h.raised && h.raised[id] == code)
  }

  predicate RowTrue(r: Row, id: TaskId, h: History) {
    && (r.status == Succeeded ==> CollectedAs(h, id, r.manifest))
    && (r.status == TimedOut ==> r.error == Timeout && Expired(h, id))
    && (r.status == Failed ==> r.error.ExecutionCode? && FailedWith(h, id, r.error.text))
  }

  /** What an execution heard, by the place it is at; and once its row is concluded it only tidies up. */
  predicate PlaceTrue(r: Row, id: TaskId, pc: ExecutorPc, h: History) {
    && (Concluded(r) ==> pc.Wipe? || pc.Leave?)
    && (pc.Finalize? && pc.site.AfterRun? ==> id in h.ended && h.ended[id] == pc.site.result)
    && (pc.Collect? ==> ExitedWith(h, id, true))
    && (pc.Settle? ==> match pc.outcome
          case Success(m) => CollectedAs(h, id, m)
          case Failure(code) => FailedWith(h, id, code)
          case Expiry => Expired(h, id))
  }

  ghost predicate True(s: State, h: History) {
    && (forall id <- s.rows :: RowTrue(s.rows[id], id, h))
    && (forall t <- s.threads :: s.threads[t].Executing? && s.threads[t].id in s.rows ==>
          PlaceTrue(s.rows[s.threads[t].id], s.threads[t].id, s.threads[t].at, h))
  }

  lemma FinalizeTrue(s: State, h: History, t: nat, id: TaskId, site: CallSite, step: CancelStep, c: Choice)
    requires t in s.threads && s.threads[t] == Executing(id, Finalize(site, step))
    requires ExecutorOk(s, id, Finalize(site, step))
    requires RowTrue(s.rows[id], id, h) && PlaceTrue(s.rows[id], id, Finalize(site, step), h)
    ensures var later := FinalizeStep(s, t, id, site, step, c);
            && later.rows.Keys == s.rows.Keys && RowTrue(later.rows[id], id, h)
            && t in later.threads && later.threads[t].Executing?
            && PlaceTrue(later.rows[id], id, later.threads[t].at, h)
  {}

  /** An execution's own step, seen from its own row. */
  lemma OwnStepTrue(s: State, h: History, t: nat, id: TaskId, pc: ExecutorPc, c: Choice)
    requires t in s.threads && s.threads[t] == Executing(id, pc) && ExecutorOk(s, id, pc)
    requires RowTrue(s.rows[id], id, h) && PlaceTrue(s.rows[id], id, pc, h)
    ensures var later := ExecutorStep(s, t, id, pc, c); var heard := HeardAt(s, h, id, pc, c);
            && later.rows.Keys == s.rows.Keys && RowTrue(later.rows[id], id, heard)
            && (t in later.threads ==>
                  later.threads[t].Executing? && PlaceTrue(later.rows[id], id, later.threads[t].at, heard))
  {
    hide FinalizeStep;
    if pc.Finalize? { FinalizeTrue(s, h, t, id, pc.site, pc.step, c); }
  }

  /** What h says about one task. */
  predicate SameFor(h: History, later: History, id: TaskId) {
    && (id in h.ended <==> id in later.ended) && (id in h.ended ==> later.ended[id] == h.ended[id])
    && (id in h.collected <==> id in later.collected) && (id in h.collected ==> later.collected[id] == h.collected[id])
    && (id in h.raised <==> id in later.raised) && (id in h.raised ==> later.raised[id] == h.raised[id])
  }

  lemma FinalizeLeavesOthers(s: State, t: nat, id: TaskId, site: CallSite, step: CancelStep, c: Choice)
    requires id in s.rows
    ensures var later := FinalizeStep(s, t, id, site, step, c);
            && later.rows.Keys == s.rows.Keys && later.rows == s.rows[id := later.rows[id]]
            && later.launches == s.launches
            && t in later.threads && later.threads[t].Executing? && later.threads[t].id == id
            && later.threads == s.threads[t := later.threads[t]]
  {}

  /** An execution's own step changes no other row and moves no other thread. */
  lemma OwnStepLeavesOthers(s: State, t: nat, id: TaskId, pc: ExecutorPc, c: Choice)
    requires t in s.threads && s.threads[t] == Executing(id, pc) && id in s.rows
    ensures var later := ExecutorStep(s, t, id, pc, c);
            && later.rows.Keys == s.rows.Keys && later.rows == s.rows[id := later.rows[id]]
            && (t in later.threads ==>
                  && later.threads[t].Executing? && later.threads[t].id == id
                  && later.threads == s.threads[t := later.threads[t]])
            && (t !in later.threads ==> later.threads == s.threads - {t})
  {
    hide FinalizeStep, Written, Applies;
    if pc.Finalize? { FinalizeLeavesOthers(s, t, id, pc.site, pc.step, c); }
  }

  lemma HeardLeavesOthers(s: State, h: History, id: TaskId, pc: ExecutorPc, c: Choice, other: TaskId)
    requires id in s.rows && other != id
    ensures SameFor(h, HeardAt(s, h, id, pc, c), other)
  {}

  lemma ExecutorStepTrue(s: State, h: History, t: nat, c: Choice)
    requires Inv(s) && True(s, h) && t in s.threads && s.threads[t].Executing?
    ensures True(Apply(s, Step(t, c)), Heard(s, h, Step(t, c)))
  {
    hide ExecutorStep, HeardAt, RowTrue, PlaceTrue, ExecutorOk;
    assert ThreadOk(s, s.threads[t]);
    var id, pc := s.threads[t].id, s.threads[t].at;
    ExecutorHasRow(s, t);
    var later, heard := ExecutorStep(s, t, id, pc, c), HeardAt(s, h, id, pc, c);
    OwnStepTrue(s, h, t, id, pc, c);
    OwnStepLeavesOthers(s, t, id, pc, c);
    forall i <- later.rows ensures RowTrue(later.rows[i], i, heard) {
      if i != id {
        HeardLeavesOthers(s, h, id, pc, c, i);
        SameTrue(later.rows[i], i, h, heard);
      }
    }
    forall u <- later.threads | later.threads[u].Executing? && later.threads[u].id in later.rows
      ensures PlaceTrue(later.rows[later.threads[u].id], later.threads[u].id, later.threads[u].at, heard)
    {
      if u != t {
        assert s.threads[u] == later.threads[u] && s.threads[u].id != id;
        HeardLeavesOthers(s, h, id, pc, c, later.threads[u].id);
        PlaceStaysTrue(later.rows[later.threads[u].id], later.threads[u].id, later.threads[u].at, h, heard);
      }
    }
  }

  lemma SameTrue(r: Row, id: TaskId, h: History, later: History)
    requires RowTrue(r, id, h) && SameFor(h, later, id)
    ensures RowTrue(r, id, later)
  {}

  lemma PlaceStaysTrue(r: Row, id: TaskId, pc: ExecutorPc, h: History, later: History)
    requires PlaceTrue(r, id, pc, h) && SameFor(h, later, id)
    ensures PlaceTrue(r, id, pc, later)
  {}

  /** Every row that is concluded later was there and is as it was. */
  ghost predicate NothingConcluded(s: State, later: State) {
    forall id <- later.rows :: Concluded(later.rows[id]) ==> id in s.rows && later.rows[id] == s.rows[id]
  }

  /** Every execution is where it was, or is new and its task was unknown. */
  ghost predicate NothingExecuted(s: State, later: State) {
    forall u <- later.threads :: later.threads[u].Executing? ==>
      || (u in s.threads && later.threads[u] == s.threads[u])
      || (later.threads[u].at.Enter? && later.threads[u].id !in s.rows)
  }

  lemma ReconcilerConcludesNothing(s: State, t: nat, r: Reconciler, c: Choice)
    requires t in s.threads && s.threads[t] == Reconciling(r)
    ensures NothingConcluded(s, ReconcilerStep(s, t, r, c))
  {
    hide ReconcilerStep;
    ReconcilerTouches(s, t, r, c);
  }

  lemma ReconcilerExecutesNothing(s: State, t: nat, r: Reconciler, c: Choice)
    requires t in s.threads && s.threads[t] == Reconciling(r)
    ensures NothingExecuted(s, ReconcilerStep(s, t, r, c))
  {
    hide Written, UpdateTask, Selected;
  }

  lemma OthersConcludeNothing(s: State, e: Event)
    requires !e.Step?
    ensures NothingConcluded(s, Apply(s, e)) && NothingExecuted(s, Apply(s, e))
  {
    if e.Submit? { SubmitReplyFacts(s.rows, e.auto, e.id, e.key, e.fingerprint); }
  }

  /** Whatever is no execution's step concludes no row, and moves no execution on. */
  lemma SideConcludesNothing(s: State, e: Event)
    requires !(e.Step? && e.thread in s.threads && s.threads[e.thread].Executing?)
    ensures NothingConcluded(s, Apply(s, e)) && NothingExecuted(s, Apply(s, e))
  {
    hide NothingConcluded, NothingExecuted, ReconcilerStep;
    if !e.Step? {
      OthersConcludeNothing(s, e);
    } else if e.thread in s.threads && s.threads[e.thread].Reconciling? {
      ReconcilerConcludesNothing(s, e.thread, s.threads[e.thread].r, e.choice);
      ReconcilerExecutesNothing(s, e.thread, s.threads[e.thread].r, e.choice);
    } else {
      CancellerConcludesNothing(s, e.thread, e.choice);
    }
  }

  lemma CancellerConcludesNothing(s: State, t: nat, c: Choice)
    requires t in s.threads ==> s.threads[t].Cancelling?
    ensures NothingConcluded(s, Apply(s, Step(t, c))) && NothingExecuted(s, Apply(s, Step(t, c)))
  {}

  lemma OtherEventTrue(s: State, h: History, e: Event)
    requires Inv(s) && True(s, h) && !(e.Step? && e.thread in s.threads && s.threads[e.thread].Executing?)
    ensures True(Apply(s, e), h)
  {
    hide Apply;
    SideConcludesNothing(s, e);
    ApplyKeeps(s, e);
    var later := Apply(s, e);
    forall u <- later.threads | later.threads[u].Executing? && later.threads[u].id in later.rows
      ensures PlaceTrue(later.rows[later.threads[u].id], later.threads[u].id, later.threads[u].at, h)
    {
      if u in s.threads && later.threads[u] == s.threads[u] { ExecutorHasRow(s, u); }
    }
  }

  lemma {:induction false} RunTrue(s: State, h: History, es: seq<Event>)
    requires Inv(s) && True(s, h)
    ensures True(Run(s, es), HeardOver(s, h, es))
    decreases |es|
  {
    hide Inv, True, Apply, Heard;
    if es != [] {
      var e := es[0];
      ApplyKeeps(s, e);
      if e.Step? && e.thread in s.threads && s.threads[e.thread].Executing? {
        ExecutorStepTrue(s, h, e.thread, e.choice);
      } else {
        OtherEventTrue(s, h, e);
        NothingHeard(s, h, e);
      }
      RunTrue(Apply(s, e), Heard(s, h, e), es[1..]);
    }
  }

  lemma NothingHeard(s: State, h: History, e: Event)
    requires !(e.Step? && e.thread in s.threads && s.threads[e.thread].Executing?)
    ensures Heard(s, h, e) == h
  {}

  /** Over every run: a row is succeeded only if its container exited with 0, and then its manifest is what was
      collected; timed_out only if its deadline passed; failed only if its container exited with another code,
      under bundle_failed, or if something raised, under that error's code. */
  lemma OutcomesAreTrue(s: State, es: seq<Event>, id: TaskId)
    requires Initial(s) && id in Run(s, es).rows
    ensures var r := Run(s, es).rows[id]; var h := HeardOver(s, NOTHING, es);
            && (r.status == Succeeded ==>
                  id in h.ended && h.ended[id] == Exited(0) && id in h.collected && h.collected[id] == r.manifest)
            && (r.status == TimedOut ==> id in h.ended && h.ended[id] == DeadlinePassed && r.error == Timeout)
            && (r.status == Failed ==>
                  || (id in h.ended && h.ended[id].Exited? && h.ended[id].code != 0
                      && r.error == ExecutionCode("bundle_failed"))
                  || (id in h.raised && r.error == ExecutionCode(h.raised[id])))
  {
    Reachable(s, []);
    RunTrue(s, NOTHING, es);
  }

  /** What may make a row final: its own execution's settling step, or the end of a cancellation. */
  ghost predicate ConcludesRightly(s: State, e: Event, id: TaskId, row: Row) {
    && id in s.rows
    && (|| row == s.rows[id]
        || (row.status == Cancelled
            && (s.rows[id].status == CancelRequested
                || (s.rows[id].status == CleanupPending && s.rows[id].error == CancelCleanupPending)))
        || (e.Step? && e.thread in s.threads && s.threads[e.thread].Executing? && s.rows[id].status == Running
            && s.threads[e.thread].id == id && s.threads[e.thread].at.Settle?))
  }

  lemma WriteConcludesRightly(s: State, t: nat, id: TaskId, pc: ExecutorPc, c: Choice)
    requires t in s.threads && s.threads[t] == Executing(id, pc) && id in s.rows
    requires ExecutorStep(s, t, id, pc, c).rows.Keys == s.rows.Keys
    requires ExecutorStep(s, t, id, pc, c).rows[id].status in {Succeeded, Failed, TimedOut, Cancelled}
    ensures ConcludesRightly(s, Step(t, c), id, ExecutorStep(s, t, id, pc, c).rows[id])
  {}

  /** A reconciler's write depends on what it read, of which the row is a later version. */
  lemma VerdictConcludesRightly(s: State, t: nat, r: Reconciler, c: Choice, id: TaskId)
    requires Inv(s) && t in s.threads && s.threads[t] == Reconciling(r)
    requires id in ReconcilerStep(s, t, r, c).rows
    requires ReconcilerStep(s, t, r, c).rows[id].status in {Succeeded, Failed, TimedOut, Cancelled}
    ensures ConcludesRightly(s, Step(t, c), id, ReconcilerStep(s, t, r, c).rows[id])
  {
    hide ReconcilerStep;
    ReconcilerTouches(s, t, r, c);
    assert ThreadOk(s, s.threads[t]);
    if r.pc.WriteRow? && r.todo != [] {
      assert r.todo[0] in r.todo;
      assert Grounded(s.rows, r.todo[0].id, Change.Reconcile(r.todo[0].seen, true));
    }
  }

  lemma OthersConcludeRightly(s: State, e: Event, id: TaskId)
    requires !e.Step? && id in Apply(s, e).rows
    requires Apply(s, e).rows[id].status in {Succeeded, Failed, TimedOut, Cancelled}
    ensures ConcludesRightly(s, e, id, Apply(s, e).rows[id])
  {}

  /** No request, no reconcile and no crash concludes a task: over every run a row becomes succeeded, failed or
      timed out only by its own execution's settling step, and cancelled only from a recorded cancellation. */
  lemma OnlyExecutionsConclude(s: State, es: seq<Event>, e: Event, id: TaskId)
    requires Initial(s)
    requires var later := Apply(Run(s, es), e).rows;
             id in later && later[id].status in {Succeeded, Failed, TimedOut, Cancelled}
    ensures ConcludesRightly(Run(s, es), e, id, Apply(Run(s, es), e).rows[id])
  {
    hide Inv, ReconcilerStep, ExecutorStep, ConcludesRightly;
    Reachable(s, es);
    var now := Run(s, es);
    if !e.Step? {
      OthersConcludeRightly(now, e, id);
    } else if e.thread !in now.threads || now.threads[e.thread].Cancelling? {
      CancellerConcludesRightly(now, e.thread, e.choice, id);
    } else if now.threads[e.thread].Reconciling? {
      VerdictConcludesRightly(now, e.thread, now.threads[e.thread].r, e.choice, id);
    } else {
      var t, own, pc := e.thread, now.threads[e.thread].id, now.threads[e.thread].at;
      ExecutorHasRow(now, t);
      OwnStepLeavesOthers(now, t, own, pc, e.choice);
      if id == own { WriteConcludesRightly(now, t, own, pc, e.choice); } else { UnchangedIsRight(now, e, id); }
    }
  }

  lemma CancellerConcludesRightly(s: State, t: nat, c: Choice, id: TaskId)
    requires t in s.threads ==> s.threads[t].Cancelling?
    requires id in Apply(s, Step(t, c)).rows
    requires Apply(s, Step(t, c)).rows[id].status in {Succeeded, Failed, TimedOut, Cancelled}
    ensures ConcludesRightly(s, Step(t, c), id, Apply(s, Step(t, c)).rows[id])
  {}

  lemma UnchangedIsRight(s: State, e: Event, id: TaskId)
    requires id in s.rows
    ensures ConcludesRightly(s, e, id, s.rows[id])
  {}

  // ----- the active set -----

  /** A thread of this process has entered the task's execution and not left it. */
  ghost predicate InExecution(s: State, id: TaskId) {
    exists t <- s.threads :: s.threads[t].Executing? && s.threads[t].id == id && !s.threads[t].at.Enter?
  }

  ghost predicate ActiveAreExecuted(s: State) { forall id <- s.active :: InExecution(s, id) }

  lemma FinalizeKeepsActive(s: State, t: nat, id: TaskId, site: CallSite, step: CancelStep, c: Choice)
    requires id in s.rows
    ensures var later := FinalizeStep(s, t, id, site, step, c);
            && later.active == s.active
            && t in later.threads && later.threads[t].Executing? && !later.threads[t].at.Enter?
  {
    hide UpdateTask;
  }

  lemma OwnStepAndActive(s: State, t: nat, id: TaskId, pc: ExecutorPc, c: Choice)
    requires t in s.threads && s.threads[t] == Executing(id, pc) && id in s.rows
    ensures var later := ExecutorStep(s, t, id, pc, c);
            if t in later.threads then
              && later.threads[t].Executing? && !later.threads[t].at.Enter?
              && later.active == (if pc.Enter? then s.active + {id} else s.active)
            else later.active == s.active - {id}
  {
    hide UpdateTask, Applies, FinalizeStep;
    if pc.Finalize? { FinalizeKeepsActive(s, t, id, pc.site, pc.step, c); }
  }

  lemma ExecutorKeepsActive(s: State, t: nat, c: Choice)
    requires ActiveAreExecuted(s) && t in s.threads && s.threads[t].Executing? && s.threads[t].id in s.rows
    ensures ActiveAreExecuted(Apply(s, Step(t, c)))
  {
    hide ExecutorStep;
    var id := s.threads[t].id;
    OwnStepAndActive(s, t, id, s.threads[t].at, c);
    OwnStepLeavesOthers(s, t, id, s.threads[t].at, c);
    var later := Apply(s, Step(t, c));
    forall i <- later.active ensures InExecution(later, i) {
      if i == id {
        assert later.threads[t].Executing? && later.threads[t].id == id;
      } else {
        var u :| u in s.threads && s.threads[u].Executing? && s.threads[u].id == i && !s.threads[u].at.Enter?;
        assert later.threads[u] == s.threads[u];
      }
    }
  }

  /** No other event but a crash touches the active set or an execution. */
  ghost predicate SameActive(s: State, later: State) {
    && later.active == s.active
    && forall u <- s.threads :: s.threads[u].Executing? ==> u in later.threads && later.threads[u] == s.threads[u]
  }

  lemma ReconcilerLeavesActive(s: State, t: nat, r: Reconciler, c: Choice)
    requires t in s.threads && s.threads[t] == Reconciling(r)
    ensures SameActive(s, ReconcilerStep(s, t, r, c))
  {
    hide Written, UpdateTask, Selected;
  }

  lemma SideLeavesActive(s: State, e: Event)
    requires !(e.Step? && e.thread in s.threads && s.threads[e.thread].Executing?) && e != Crash
    ensures SameActive(s, Apply(s, e))
  {
    hide ReconcilerStep;
    if e.Step? && e.thread in s.threads && s.threads[e.thread].Reconciling? {
      ReconcilerLeavesActive(s, e.thread, s.threads[e.thread].r, e.choice);
    }
  }

  lemma SameKeepsActive(s: State, later: State)
    requires ActiveAreExecuted(s) && SameActive(s, later)
    ensures ActiveAreExecuted(later)
  {
    forall i <- later.active ensures InExecution(later, i) {
      var u :| u in s.threads && s.threads[u].Executing? && s.threads[u].id == i && !s.threads[u].at.Enter?;
      assert later.threads[u] == s.threads[u];
    }
  }

  lemma {:induction false} RunKeepsActive(s: State, es: seq<Event>)
    requires Inv(s) && ActiveAreExecuted(s)
    ensures ActiveAreExecuted(Run(s, es))
    decreases |es|
  {
    hide Inv, Apply, ActiveAreExecuted;
    if es != [] {
      var e := es[0];
      ApplyKeeps(s, e);
      if e.Step? && e.thread in s.threads && s.threads[e.thread].Executing? {
        ExecutorHasRow(s, e.thread);
        ExecutorKeepsActive(s, e.thread, e.choice);
      } else if e == Crash {
        CrashEmptiesActive(s);
      } else {
        SideLeavesActive(s, e);
        SameKeepsActive(s, Apply(s, e));
      }
      RunKeepsActive(Apply(s, e), es[1..]);
    }
  }

  lemma CrashEmptiesActive(s: State)
    ensures ActiveAreExecuted(Apply(s, Crash))
  {}

  /** Over every run a task is in the active set if and only if a thread of this process is inside its execution:
      the set that a reconcile spares is neither too small nor left over from threads that are gone. */
  lemma ActiveSetIsExact(s: State, es: seq<Event>, id: TaskId)
    requires Initial(s)
    ensures id in Run(s, es).active <==>
              exists t <- Run(s, es).threads ::
                var th := Run(s, es).threads[t]; th.Executing? && th.id == id && !th.at.Enter?
  {
    Reachable(s, []);
    RunKeepsActive(s, es);
    Reachable(s, es);
    var now := Run(s, es);
    if InExecution(now, id) {
      var t :| t in now.threads && now.threads[t].Executing? && now.threads[t].id == id && !now.threads[t].at.Enter?;
      assert ThreadOk(now, now.threads[t]);
    }
  }
}
