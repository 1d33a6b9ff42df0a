/** How far a reconcile that runs beside submits can reach: exactly which rows and workspaces it may take
    from under a live execution. */
module RunnerRace {
  import opened LedgerRows
  import opened RunnerProtocol
  import opened RunnerSafety
  import opened RunnerRuns

  // ----- one reconcile, from its row query on -----

  /** Thread t, if it still reconciles, does so with the given scope and copy of the active set, and the row
      it is at lies in that scope and outside that copy. */
  predicate SameReconcile(s: State, t: nat, scope: TaskId, owned: set<TaskId>) {
    t in s.threads && s.threads[t].Reconciling? ==>
      var r := s.threads[t].r;
      && r.scope == scope && r.owned == owned && !r.pc.ListAll? && !r.pc.CopyActive?
      && (AtRow(r) ==> r.todo != [] && InReach(r.todo[0].id, scope, owned))
  }

  predicate AtRow(r: Reconciler) { r.pc.RemoveListed? || r.pc.WipeListed? || r.pc.Judge? || r.pc.WriteRow? }

  /** The task has a valid id, is in the scope and was not active when the active set was copied. */
  predicate InReach(id: TaskId, scope: TaskId, owned: set<TaskId>) {
    ValidTaskId(id) && id !in owned && (scope == "" || scope == id)
  }

  /** Nothing begins another reconcile in thread t. */
  predicate NotBegunAgain(es: seq<Event>, t: nat) { forall e <- es :: !(e.BeginReconcile? && e.thread == t) }

  lemma OwnStepStays(s: State, t: nat, c: Choice, r: Reconciler)
    requires t in s.threads && s.threads[t] == Reconciling(r) && SameReconcile(s, t, r.scope, r.owned)
    ensures SameReconcile(ReconcilerStep(s, t, r, c), t, r.scope, r.owned)
  {}

  lemma SameReconcileStays(s: State, e: Event, t: nat, scope: TaskId, owned: set<TaskId>)
    requires SameReconcile(s, t, scope, owned) && !(e.BeginReconcile? && e.thread == t)
    ensures SameReconcile(Apply(s, e), t, scope, owned)
  {
    if e.Step? && e.thread == t && t in s.threads && s.threads[t].Reconciling? {
      OwnStepStays(s, t, e.choice, s.threads[t].r);
    } else {
      OthersLeaveReconciler(s, e, t);
    }
  }

  lemma OthersLeaveReconciler(s: State, e: Event, t: nat)
    requires !(e.BeginReconcile? && e.thread == t)
    requires !(e.Step? && e.thread == t && t in s.threads && s.threads[t].Reconciling?)
    ensures var later := Apply(s, e);
            t in later.threads && later.threads[t].Reconciling? ==> t in s.threads && s.threads[t] == later.threads[t]
  {
    if e.Step? && e.thread == t && t in s.threads && s.threads[t].Executing? && s.threads[t].id in s.rows {
      ExecutorStepShape(s, t, e.choice);
    }
  }

  lemma {:induction false} SameReconcileRuns(s: State, es: seq<Event>, t: nat, scope: TaskId, owned: set<TaskId>)
    requires SameReconcile(s, t, scope, owned) && NotBegunAgain(es, t)
    ensures SameReconcile(Run(s, es), t, scope, owned)
    decreases |es|
  {
    if es != [] {
      SameReconcileStays(s, es[0], t, scope, owned);
      SameReconcileRuns(Apply(s, es[0]), es[1..], t, scope, owned);
    }
  }

  // ----- what it may do -----

  /** The reconciler's next step changes the row. */
  predicate Overwrites(s: State, t: nat, c: Choice, id: TaskId) {
    t in s.threads && s.threads[t].Reconciling? && id in s.rows && id in ReconcilerStep(s, t, s.threads[t].r, c).rows
    && ReconcilerStep(s, t, s.threads[t].r, c).rows[id] != s.rows[id]
  }

  /** The reconciler's next step removes the workspace. */
  predicate Wipes(s: State, t: nat, c: Choice, id: TaskId) {
    t in s.threads && s.threads[t].Reconciling? && id in s.workspaces
    && id !in ReconcilerStep(s, t, s.threads[t].r, c).workspaces
  }

  ghost predicate CanOverwrite(s: State, t: nat, id: TaskId) {
    exists more: seq<Event>, c: Choice :: NotBegunAgain(more, t) && Overwrites(Run(s, more), t, c, id)
  }

  ghost predicate CanWipe(s: State, t: nat, id: TaskId) {
    exists more: seq<Event>, c: Choice :: NotBegunAgain(more, t) && Wipes(Run(s, more), t, c, id)
  }

  lemma ReachIsNeeded(s: State, t: nat, c: Choice, id: TaskId, scope: TaskId, owned: set<TaskId>)
    requires SameReconcile(s, t, scope, owned) && (Overwrites(s, t, c, id) || Wipes(s, t, c, id))
    ensures InReach(id, scope, owned)
  {
    ReconcilerTouches(s, t, s.threads[t].r, c);
  }

  // ----- and what it does when nothing else moves -----

  ghost predicate ReachesQuietly(s: State, later: State, t: nat) {
    exists es :: NotBegunAgain(es, t) && Run(s, es) == later
  }

  lemma OneMoreStep(s: State, now: State, t: nat, c: Choice) returns (next: State)
    requires ReachesQuietly(s, now, t)
    ensures next == ThreadStep(now, t, c) && ReachesQuietly(s, next, t)
  {
    var es :| NotBegunAgain(es, t) && Run(s, es) == now;
    RunLast(s, es, Step(t, c));
    assert NotBegunAgain(es + [Step(t, c)], t);
    next := ThreadStep(now, t, c);
  }

  function Outside(id: TaskId): Choice { Choice(true, true, false, false, 0, 0, "", "", [id]) }

  /** The reconciler selects one row and turns to it; rows, workspaces and other threads stay. */
  lemma ReachesRow(s: State, t: nat, r: Reconciler, id: TaskId) returns (later: State)
    requires t in s.threads && s.threads[t] == Reconciling(r) && r.pc.SelectRows?
    requires id in s.rows && Open(s.rows[id]) && InReach(id, r.scope, r.owned)
    ensures ReachesQuietly(s, later, t)
    ensures later == Put(s, t, r.(pc := RemoveListed, todo := [Snapshot(id, s.rows[id])]))
  {
    assert Run(s, []) == s && NotBegunAgain([], t);
    assert Selected(s.rows, [id]) == [Snapshot(id, s.rows[id])];
    var selected := OneMoreStep(s, s, t, Outside(id));
    assert selected == Put(s, t, r.(pc := NextRow, todo := [Snapshot(id, s.rows[id])]));
    later := OneMoreStep(s, selected, t, Outside(id));
  }

  predicate OnlyThread(s: State, later: State, t: nat) {
    t in later.threads && later.threads == s.threads[t := later.threads[t]]
  }

  /** It removes the container if it is listed, and is then about to remove the workspace. */
  lemma ReachesWipe(s: State, t: nat, r: Reconciler, id: TaskId) returns (later: State)
    requires t in s.threads && s.threads[t] == Reconciling(r) && r.pc.SelectRows?
    requires id in s.rows && Open(s.rows[id]) && InReach(id, r.scope, r.owned)
    ensures ReachesQuietly(s, later, t)
    ensures later.rows == s.rows && later.workspaces == s.workspaces && later.active == s.active
    ensures OnlyThread(s, later, t) && later.threads[t].Reconciling?
    ensures var after := later.threads[t].r;
            && TaskContainer(id) !in after.listed
            && after == r.(pc := WipeListed, listed := after.listed, todo := [Snapshot(id, s.rows[id])])
  {
    var at := ReachesRow(s, t, r, id);
    later := OneMoreStep(s, at, t, Outside(id));
  }

  /** It judges the task clean and is then about to write its row. */
  lemma ReachesWrite(s: State, t: nat, r: Reconciler, id: TaskId) returns (later: State)
    requires t in s.threads && s.threads[t] == Reconciling(r) && r.pc.SelectRows?
    requires id in s.rows && Open(s.rows[id]) && InReach(id, r.scope, r.owned)
    ensures ReachesQuietly(s, later, t) && later.rows == s.rows && OnlyThread(s, later, t)
    ensures later.threads[t].Reconciling? && later.threads[t].r.pc == WriteRow(true)
    ensures later.threads[t].r.todo == [Snapshot(id, s.rows[id])]
  {
    var wipe := ReachesWipe(s, t, r, id);
    var judge := OneMoreStep(s, wipe, t, Outside(id));
    later := OneMoreStep(s, judge, t, Outside(id));
  }

  /** Once the active set is copied, the reconciler may still overwrite the row of an open task, and remove
      its workspace, if and only if the task is in its scope and was not active when it copied the set. */
  lemma ReconcileReachesExactly(s: State, t: nat, id: TaskId)
    requires t in s.threads && s.threads[t].Reconciling? && s.threads[t].r.pc.SelectRows?
    requires id in s.rows && Open(s.rows[id])
    ensures CanOverwrite(s, t, id) <==> InReach(id, s.threads[t].r.scope, s.threads[t].r.owned)
    ensures id in s.workspaces ==> (CanWipe(s, t, id) <==> InReach(id, s.threads[t].r.scope, s.threads[t].r.owned))
  {
    var r := s.threads[t].r;
    if InReach(id, r.scope, r.owned) {
      WithinReach(s, t, r, id);
    } else {
      OutOfReach(s, t, r, id);
    }
  }

  lemma WithinReach(s: State, t: nat, r: Reconciler, id: TaskId)
    requires t in s.threads && s.threads[t] == Reconciling(r) && r.pc.SelectRows?
    requires id in s.rows && Open(s.rows[id]) && InReach(id, r.scope, r.owned)
    ensures CanOverwrite(s, t, id) && (id in s.workspaces ==> CanWipe(s, t, id))
  {
    var write := ReachesWrite(s, t, r, id);
    assert Overwrites(write, t, Outside(id), id);
    var es :| NotBegunAgain(es, t) && Run(s, es) == write;
    var wipe := ReachesWipe(s, t, r, id);
    if id in s.workspaces {
      assert Wipes(wipe, t, Outside(id), id);
      var ws :| NotBegunAgain(ws, t) && Run(s, ws) == wipe;
    }
  }

  lemma OutOfReach(s: State, t: nat, r: Reconciler, id: TaskId)
    requires t in s.threads && s.threads[t] == Reconciling(r) && r.pc.SelectRows? && !InReach(id, r.scope, r.owned)
    ensures !CanOverwrite(s, t, id) && !CanWipe(s, t, id)
  {
    forall more: seq<Event>, c: Choice | NotBegunAgain(more, t)
      ensures !Overwrites(Run(s, more), t, c, id) && !Wipes(Run(s, more), t, c, id)
    {
      SameReconcileRuns(s, more, t, r.scope, r.owned);
      if Overwrites(Run(s, more), t, c, id) || Wipes(Run(s, more), t, c, id) {
        ReachIsNeeded(Run(s, more), t, c, id, r.scope, r.owned);
      }
    }
  }

  // ----- a live execution in reach -----

  /** The state after a reconcile copied the active set of an idle Runner, a task was submitted and claimed,
      and its workspace was made. */
  lemma RaceBegins(s: State, id: TaskId) returns (later: State)
    requires ValidTaskId(id) && s == State(map[], {}, {}, {}, map[], multiset{}, {})
    ensures Reaches(s, later) && later.threads.Keys == {0, 1}
    ensures later.threads[0] == Reconciling(Reconciler("", SelectRows, {}, {}, []))
    ensures later.threads[1] == Executing(id, Finalize(BeforeLaunch, ReadRow))
    ensures later.rows == map[id := Written(NewRow("", "request"), Start)] && later.workspaces == {id}
  {
    var copied := RaceCopies(s, id);
    var accepted := OneMore(s, copied, Submit(1, true, id, "", "request"));
    assert accepted.rows == map[id := NewRow("", "request")];
    var entered := OneMore(s, accepted, Step(1, Outside(id)));
    var claimed := OneMore(s, entered, Step(1, Outside(id)));
    assert claimed.threads == map[0 := copied.threads[0], 1 := Executing(id, Prepare)];
    later := OneMore(s, claimed, Step(1, Outside(id)));
  }

  lemma RaceCopies(s: State, id: TaskId) returns (later: State)
    requires s == State(map[], {}, {}, {}, map[], multiset{}, {})
    ensures Reaches(s, later)
    ensures later == s.(threads := map[0 := Reconciling(Reconciler("", SelectRows, {}, {}, []))])
  {
    assert Run(s, []) == s;
    var begun := OneMore(s, s, BeginReconcile(0, ""));
    var listed := OneMore(s, begun, Step(0, Outside(id)));
    later := OneMore(s, listed, Step(0, Outside(id)));
  }

  lemma LiveStaysOwned(s: State, later: State, id: TaskId)
    requires 1 in s.threads && s.threads[1].Executing? && s.threads[1].id == id
    requires OnlyThread(s, later, 0)
    ensures Owned(later, id)
  {
    assert later.threads[1].Executing? && later.threads[1].id == id;
  }

  /** Such a task can be a live execution: a task submitted between the copy and the row query can have its
      running row overwritten, and its workspace removed, while this very process executes it. */
  lemma ReconcileMayOverrunANewExecution(id: TaskId)
    requires ValidTaskId(id)
    ensures exists s, now, c :: Initial(s) && Reaches(s, now) && Owned(now, id) && Overwrites(now, 0, c, id)
                                && now.rows[id].status == Running
    ensures exists s, now, c :: Initial(s) && Reaches(s, now) && Owned(now, id) && Wipes(now, 0, c, id)
  {
    var s := State(map[], {}, {}, {}, map[], multiset{}, {});
    var begun := RaceBegins(s, id);
    var r := begun.threads[0].r;
    var write := ReachesWrite(begun, 0, r, id);
    var wipe := ReachesWipe(begun, 0, r, id);
    LiveStaysOwned(begun, write, id);
    LiveStaysOwned(begun, wipe, id);
    ReachesFurther(s, begun, write, 0);
    ReachesFurther(s, begun, wipe, 0);
    assert Initial(s) && Overwrites(write, 0, Outside(id), id) && Wipes(wipe, 0, Outside(id), id);
  }

  /** The state after a cancel request for the task has been answered up to its docker command. */
  lemma RaceCancels(s: State, begun: State, id: TaskId) returns (later: State)
    requires Reaches(s, begun) && 2 !in begun.threads && id in begun.rows && begun.rows[id].status == Running
    ensures Reaches(s, later)
    ensures later == begun.(rows := begun.rows[id := Written(begun.rows[id], RequestCancel)],
                            threads := begun.threads[2 := Cancelling(id, Kill)])
  {
    var asked := OneMore(s, begun, BeginCancel(2, id));
    var looked := OneMore(s, asked, Step(2, Outside(id)));
    later := OneMore(s, looked, Step(2, Outside(id)));
    assert later.threads == begun.threads[2 := Cancelling(id, Kill)];
  }

  /** The reconciler writes its verdict on a task it has judged clean. */
  lemma RaceWrites(s: State, write: State, id: TaskId, seen: Row) returns (later: State)
    requires Reaches(s, write) && 0 in write.threads && write.threads[0].Reconciling?
    requires write.threads[0].r.pc == WriteRow(true) && write.threads[0].r.todo == [Snapshot(id, seen)]
    requires id in write.rows && write.rows[id] == seen && seen.status == CancelRequested
    ensures Reaches(s, later) && OnlyThread(write, later, 0) && later.launches == write.launches
    ensures id in later.rows && later.rows == write.rows[id := later.rows[id]] && later.rows[id].status == Cancelled
  {
    later := OneMore(s, write, Step(0, Outside(id)));
  }

  lemma RaceLaunches(s: State, now: State, id: TaskId) returns (later: State)
    requires Reaches(s, now) && 1 in now.threads && now.threads[1] == Executing(id, Finalize(BeforeLaunch, ReadRow))
    requires id in now.rows && now.rows[id].status == Cancelled
    ensures Reaches(s, later) && later.rows == now.rows && later.launches == now.launches + multiset{id}
    ensures Owned(later, id)
  {
    var ready := OneMore(s, now, Step(1, Outside(id)));
    assert ready.threads[1] == Executing(id, Launch);
    later := OneMore(s, ready, Step(1, Outside(id)));
    assert later.threads[1].Executing? && later.threads[1].id == id;
  }

  /** And a reconcile that finishes a cancellation in place of the execution hides it from the execution: the
      container of a task is launched although its row is already cancelled. */
  lemma CancelledTaskMayStillLaunch(id: TaskId)
    requires ValidTaskId(id)
    ensures exists s, now :: Initial(s) && Reaches(s, now) && id in now.rows && now.rows[id].status == Cancelled
                             && now.launches[id] == 1 && Owned(now, id)
  {
    var s := State(map[], {}, {}, {}, map[], multiset{}, {});
    var begun := RaceBegins(s, id);
    var cancelled := RaceCancels(s, begun, id);
    var r := cancelled.threads[0].r;
    var write := ReachesWrite(cancelled, 0, r, id);
    ReachesFurther(s, cancelled, write, 0);
    var written := RaceWrites(s, write, id, cancelled.rows[id]);
    var launched := RaceLaunches(s, written, id);
    var es :| Run(s, es) == launched;
    AtMostOneLaunch(s, es, id);
    assert Initial(s) && launched.launches[id] == 1;
  }

  /** What decides is the row as the execution reads it: the container is launched if and only if it does not say
      cancel_requested then, be it cancelled already. */
  lemma LaunchIsDecidedByTheRow(s: State, t: nat, id: TaskId, look: Choice, launch: Choice)
    requires t in s.threads && s.threads[t] == Executing(id, Finalize(BeforeLaunch, ReadRow)) && id in s.rows
    requires !launch.raised
    ensures Run(s, [Step(t, look), Step(t, launch)]).launches[id]
            == s.launches[id] + if s.rows[id].status == CancelRequested then 0 else 1
  {
    var es := [Step(t, look), Step(t, launch)];
    assert es == [Step(t, look)] + [Step(t, launch)];
    RunInTwo(s, [Step(t, look)], [Step(t, launch)]);
    RunLast(s, [], Step(t, look));
    RunLast(Apply(s, Step(t, look)), [], Step(t, launch));
    assert [] + [Step(t, look)] == [Step(t, look)] && [] + [Step(t, launch)] == [Step(t, launch)];
  }

  lemma ReachesFurther(s: State, now: State, later: State, t: nat)
    requires Reaches(s, now) && ReachesQuietly(now, later, t)
    ensures Reaches(s, later)
  {
    var first :| Run(s, first) == now;
    var rest :| NotBegunAgain(rest, t) && Run(now, rest) == later;
    RunInTwo(s, first, rest);
  }

  lemma {:induction false} RunInTwo(s: State, first: seq<Event>, rest: seq<Event>)
    ensures Run(s, first + rest) == Run(Run(s, first), rest)
    decreases |first|
  {
    if first == [] {
      assert first + rest == rest;
    } else {
      assert (first + rest)[1..] == first[1..] + rest;
      RunInTwo(Apply(s, first[0]), first[1..], rest);
    }
  }

  ghost predicate Reaches(s: State, later: State) { exists es :: Run(s, es) == later }

  lemma {:induction false} RunLast(s: State, es: seq<Event>, e: Event)
    ensures Run(s, es + [e]) == Apply(Run(s, es), e)
  {
    RunInTwo(s, es, [e]);
    assert Run(Run(s, es), [e]) == Run(Apply(Run(s, es), e), []);
  }

  lemma OneMore(s: State, now: State, e: Event) returns (next: State)
    requires Reaches(s, now)
    ensures next == Apply(now, e) && Reaches(s, next)
  {
    var es :| Run(s, es) == now;
    RunLast(s, es, e);
    next := Apply(now, e);
  }
}
