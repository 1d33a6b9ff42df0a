/** The Runner's repair work as the code runs it when nothing else is running: cleaning up after one
    cancellation, and reconciling the whole ledger at startup after a crash. */
module RunnerRestart {
  import opened LedgerRows
  import opened RunnerProtocol
  import opened RunnerSafety
  import opened RunnerRuns

  datatype World = World(rows: Rows, active: set<TaskId>, containers: set<string>, workspaces: set<TaskId>)

  /** The rows a reconcile of this scope is about. */
  predicate Covered(w: World, scope: TaskId, id: TaskId) {
    && id in w.rows && w.rows[id].status in {Queued, Running, CancelRequested, CleanupPending, Unknown}
    && ValidTaskId(id) && id !in w.active && (scope == "" || id == scope)
  }

  /** A requested cancellation, or one whose cleanup is still to be finished. */
  predicate ToBeCancelled(was: Row) {
    was.status == CancelRequested || (was.status == CleanupPending && was.error == CancelCleanupPending)
  }

  /** The reconciler's verdict on one row: cancelled or unknown once it is clean, cleanup_pending until then. */
  predicate Verdict(was: Row, row: Row) {
    && row.key == was.key && row.fingerprint == was.fingerprint && row.manifest == was.manifest
    && (row.cleaned && ToBeCancelled(was) ==> row.status == Cancelled && row.error == NoError)
    && (row.cleaned && !ToBeCancelled(was) ==> row.status == Unknown && row.error == RestartReconciled)
    && (!row.cleaned ==> row.status == CleanupPending)
    && (!row.cleaned && was.status == CancelRequested ==> row.error == CancelCleanupPending)
    && (!row.cleaned && was.status != CancelRequested ==> row.error == was.error)
  }

  /** The row has its verdict, a row marked clean really is, and one that was clean is marked so. */
  ghost predicate Judged(before: World, after: World, id: TaskId)
    requires id in before.rows && id in after.rows
  {
    && Verdict(before.rows[id], after.rows[id])
    && (after.rows[id].cleaned ==> TaskContainer(id) !in after.containers && id !in after.workspaces)
    && (TaskContainer(id) !in before.containers && id !in before.workspaces ==> after.rows[id].cleaned)
  }

  /** Only strays may disappear: no container of an active task, no service, no workspace of a task
      that is not reconciled, and within a scope no other task's container. */
  ghost predicate OnlyStraysGone(before: World, after: World, scope: TaskId) {
    && after.active == before.active && after.rows.Keys == before.rows.Keys
    && after.containers <= before.containers && after.workspaces <= before.workspaces
    && (forall n <- before.containers :: n !in after.containers ==>
          && ("hdb-task-" <= n || "hdb-orphan-" <= n) && (forall id <- before.active :: n != TaskContainer(id))
          && (scope == "" || n == TaskContainer(scope)))
    && (forall id <- before.workspaces :: id !in after.workspaces ==> Covered(before, scope, id))
  }

  /** What a completed reconcile did. */
  ghost predicate Repaired(before: World, after: World, scope: TaskId) {
    && OnlyStraysGone(before, after, scope)
    && (forall id <- before.rows :: Covered(before, scope, id) ==> Judged(before, after, id))
    && (forall id <- before.rows :: !Covered(before, scope, id) ==> after.rows[id] == before.rows[id])
  }

  /** What a reconcile achieves if none of its commands fails: every covered row is clean, its container and
      its workspace gone, and so is every other container named as a task's or orphan's that is not active. */
  ghost predicate CleanedUp(before: World, after: World, scope: TaskId) {
    && (forall id <- before.rows :: Covered(before, scope, id) ==>
          id in after.rows && after.rows[id].cleaned && "hdb-task-" + id !in after.containers
          && id !in after.workspaces)
    && (scope == "" ==> forall n <- after.containers :: "hdb-task-" <= n || "hdb-orphan-" <= n ==>
          exists id <- before.active :: n == "hdb-task-" + id)
  }

  /** What an interrupted reconcile may have left. */
  ghost predicate PartlyRepaired(before: World, after: World, scope: TaskId) {
    && OnlyStraysGone(before, after, scope)
    && (forall id <- before.rows ::
          after.rows[id] == before.rows[id] || (Covered(before, scope, id) && Judged(before, after, id)))
  }

  /** The verdict by its names: a reconciled row is cancelled exactly if it is clean and its cancellation was
      requested or unfinished, unknown exactly if it is clean otherwise, cleanup_pending exactly if it is not
      clean; so it is never succeeded, failed or timed_out. */
  lemma VerdictByName(before: World, after: World, scope: TaskId, id: TaskId)
    requires Repaired(before, after, scope)
    requires id in before.rows && ValidTaskId(id) && id !in before.active && (scope == "" || id == scope)
    requires before.rows[id].status in {Queued, Running, CancelRequested, CleanupPending, Unknown}
    ensures id in after.rows
    ensures var was, row := before.rows[id], after.rows[id];
            && row.status in {Cancelled, Unknown, CleanupPending}
            && (row.status == Cancelled <==>
                  row.cleaned && (was.status == CancelRequested
                                  || (was.status == CleanupPending && was.error == CancelCleanupPending)))
            && (row.status == Cancelled ==> row.error == NoError)
            && (row.status == Unknown <==>
                  row.cleaned && was.status != CancelRequested
                  && !(was.status == CleanupPending && was.error == CancelCleanupPending))
            && (row.status == Unknown ==> row.error == RestartReconciled)
            && (row.status == CleanupPending <==> !row.cleaned)
            && (row.status == CleanupPending ==>
                  row.error == if was.status == CancelRequested then CancelCleanupPending else was.error)
            && (row.cleaned ==> TaskContainer(id) !in after.containers && id !in after.workspaces)
  {
    assert Covered(before, scope, id) && Judged(before, after, id);
  }

  /** No startup, completed or interrupted, concludes a task. */
  lemma StartupConcludesNothing(before: World, after: World, scope: TaskId, id: TaskId)
    requires PartlyRepaired(before, after, scope) && id in before.rows
    ensures id in after.rows
    ensures after.rows[id].status in {Succeeded, Failed, TimedOut} ==> after.rows[id] == before.rows[id]
  {}

  lemma JudgedIsSettled(before: World, after: World, id: TaskId)
    requires id in before.rows && id in after.rows && Judged(before, after, id)
    requires Coherent(before.rows[id]) && Reconcilable(before.rows[id])
    ensures !Open(after.rows[id]) && Coherent(after.rows[id]) && Evolves(before.rows[id], after.rows[id])
  {}

  /** After a startup reconcile no valid row is queued, running or waiting for a cancellation; final
      rows and rows with untrusted ids are untouched; and a row it marked clean has neither container
      nor workspace. A recorded cancellation is the only way to the status cancelled. */
  lemma StartupRepairsEveryCrash(before: World, after: World)
    requires Repaired(before, after, "") && before.active == {}
    requires forall id <- before.rows :: Coherent(before.rows[id])
    ensures after.rows.Keys == before.rows.Keys
    ensures forall id <- after.rows :: ValidTaskId(id) ==>
              after.rows[id].status !in {Queued, Running, CancelRequested}
    ensures forall id <- after.rows ::
              !ValidTaskId(id) || before.rows[id].status in {Succeeded, Failed, TimedOut, Cancelled}
              ==> after.rows[id] == before.rows[id]
    ensures forall id <- after.rows ::
              ValidTaskId(id) && before.rows[id].status !in {Succeeded, Failed, TimedOut, Cancelled}
              && after.rows[id].cleaned
              ==> TaskContainer(id) !in after.containers && id !in after.workspaces
    ensures forall id <- after.rows :: after.rows[id].status == Cancelled ==>
              before.rows[id].status in {CancelRequested, Cancelled}
              || (before.rows[id].status == CleanupPending && before.rows[id].error == CancelCleanupPending)
    ensures forall id <- after.rows :: Evolves(before.rows[id], after.rows[id])
  {
    forall id <- after.rows ensures Evolves(before.rows[id], after.rows[id]) {
      if Covered(before, "", id) { JudgedIsSettled(before, after, id); }
    }
  }

  /** What a crash leaves of the Runner. */
  function Survivors(s: State): World { World(s.rows, {}, s.containers, s.workspaces) }

  /** The Runner as it begins to serve again, its history continued. */
  function Restarted(s: State, w: World): State {
    s.(rows := w.rows, active := {}, containers := w.containers, workspaces := w.workspaces, threads := map[])
  }

  /** One life of the Runner: what ran until it was cut off, and what its next startup then did, which a
      docker command that raises may have interrupted. */
  datatype Life = Life(es: seq<Event>, after: World, completed: bool)

  ghost function Lived(s: State, lives: seq<Life>): State
    decreases |lives|
  {
    if lives == [] then s else Lived(Restarted(Run(s, lives[0].es), lives[0].after), lives[1..])
  }

  ghost predicate StartupsHappened(s: State, lives: seq<Life>)
    decreases |lives|
  {
    lives != [] ==>
      var crashed := Run(s, lives[0].es);
      && PartlyRepaired(Survivors(crashed), lives[0].after, "")
      && (lives[0].completed ==> Repaired(Survivors(crashed), lives[0].after, ""))
      && StartupsHappened(Restarted(crashed, lives[0].after), lives[1..])
  }

  lemma StartupKeeps(s: State, after: World)
    requires Inv(s) && PartlyRepaired(Survivors(s), after, "")
    ensures Inv(Restarted(s, after)) && LedgerEvolves(s.rows, after.rows)
  {
    forall id <- s.rows
      ensures Evolves(s.rows[id], after.rows[id])
      ensures after.rows[id] == s.rows[id] || (Coherent(after.rows[id]) && !Open(after.rows[id]))
    {
      if after.rows[id] != s.rows[id] { JudgedIsSettled(Survivors(s), after, id); }
    }
    RestartKeeps(s, after);
  }

  ghost predicate AllSettled(rows: Rows) {
    forall id <- rows :: ValidTaskId(id) ==> rows[id].status !in {Queued, Running, CancelRequested}
  }

  lemma OneLife(s: State, es: seq<Event>, after: World)
    requires Inv(s) && PartlyRepaired(Survivors(Run(s, es)), after, "")
    ensures Inv(Restarted(Run(s, es), after)) && LedgerEvolves(s.rows, after.rows)
    ensures Repaired(Survivors(Run(s, es)), after, "") ==> AllSettled(after.rows)
  {
    var crashed := Run(s, es);
    RunKeeps(s, es);
    StartupKeeps(crashed, after);
    LedgerEvolvesTransitive(s.rows, crashed.rows, after.rows);
    if Repaired(Survivors(crashed), after, "") { StartupRepairsEveryCrash(Survivors(crashed), after); }
  }

  /** However often the Runner is cut off and started again, and however many of its startups are themselves
      interrupted: the ledger evolves, the state is one from which every promise over whole runs goes on to
      hold, and after a startup that completed no valid row is open. */
  lemma {:induction false} StartupsAfterEveryCrash(s: State, lives: seq<Life>)
    requires Inv(s) && StartupsHappened(s, lives)
    ensures Inv(Lived(s, lives)) && LedgerEvolves(s.rows, Lived(s, lives).rows)
    ensures lives != [] && lives[|lives| - 1].completed ==> AllSettled(Lived(s, lives).rows)
    decreases |lives|
  {
    hide Inv, PartlyRepaired, Repaired, AllSettled;
    if lives != [] {
      var next, rest := Restarted(Run(s, lives[0].es), lives[0].after), lives[1..];
      OneLife(s, lives[0].es, lives[0].after);
      StartupsAfterEveryCrash(next, rest);
      LedgerEvolvesTransitive(s.rows, next.rows, Lived(next, rest).rows);
      if rest != [] { assert lives[|lives| - 1] == rest[|rest| - 1]; }
    }
  }

  lemma RestartKeeps(s: State, after: World)
    requires Inv(s) && after.rows.Keys == s.rows.Keys && after.containers <= s.containers
    requires forall id <- s.rows :: Evolves(s.rows[id], after.rows[id])
    requires forall id <- s.rows :: after.rows[id] == s.rows[id] || (Coherent(after.rows[id]) && !Open(after.rows[id]))
    ensures Inv(Restarted(s, after)) && LedgerEvolves(s.rows, after.rows)
  {
    hide RowsOk, HistoryOk;
    RestartKeepsRows(s.rows, after.rows);
    RestartKeepsHistory(s, after);
  }

  lemma RestartKeepsRows(rows: Rows, later: Rows)
    requires RowsOk(rows) && later.Keys == rows.Keys && forall id <- rows :: Evolves(rows[id], later[id])
    requires forall id <- rows :: later[id] == rows[id] || Coherent(later[id])
    ensures RowsOk(later)
  {}

  lemma RestartKeepsHistory(s: State, after: World)
    requires HistoryOk(s) && after.rows.Keys == s.rows.Keys && after.containers <= s.containers
    requires forall id <- s.rows :: after.rows[id] == s.rows[id] || !Open(after.rows[id])
    ensures HistoryOk(Restarted(s, after))
  {}

  /** A second startup with nothing in between changes no row that the first one marked clean. */
  lemma SecondStartupKeepsCleanRows(first: World, second: World, third: World, id: TaskId)
    requires Repaired(first, second, "") && Repaired(second, third, "") && first.active == {}
    requires id in first.rows && Reconcilable(first.rows[id]) && ValidTaskId(id) && second.rows[id].cleaned
    ensures id in third.rows && third.rows[id] == second.rows[id]
  {
    assert Covered(first, "", id) && Judged(first, second, id);
    if Reconcilable(second.rows[id]) { assert Covered(second, "", id) && Judged(second, third, id); }
  }

  class Runner {
    var rows: Rows
    var active: set<TaskId>
    var containers: set<string>
    var workspaces: set<TaskId>
    ghost var failed: bool   // history: some command or removal did not do what it was asked to

    ghost function Now(): World reads this { World(rows, active, containers, workspaces) }

    /** _update_task: the guarded UPDATE and whether it matched. */
    method Update(id: TaskId, change: Change) returns (updated: bool)
      modifies this`rows
      ensures rows == UpdateTask(old(rows), id, change) && updated == Applies(old(rows), id, change)
    {
      updated := id in rows && rows[id].status in Expected(change);
      if updated { rows := rows[id := Written(rows[id], change)]; }
    }

    /** docker rm -f: it may fail or raise, with or without having removed the container. */
    method RemoveContainer(name: string) returns (ok: bool, raised: bool)
      modifies this`containers, this`failed
      ensures containers == old(containers) - {name} || (!ok && containers == old(containers))
      ensures raised ==> !ok
      ensures failed == (old(failed) || !ok)
    {
      ok, raised := *, *;
      if raised { ok := false; }
      var effect: bool := *;
      if ok || effect { containers := containers - {name}; }
      failed := failed || !ok;
    }

    /** rmtree with errors ignored. */
    method WipeWorkspace(id: TaskId)
      modifies this`workspaces, this`failed
      ensures workspaces == old(workspaces) - {id} || (failed && workspaces == old(workspaces))
      ensures old(failed) ==> failed
    {
      if * { workspaces := workspaces - {id}; } else { failed := true; }
    }

    /** _finalize_cancellation with nothing running beside it. */
    method FinalizeCancellation(id: TaskId) returns (handled: bool)
      modifies this`rows, this`containers, this`workspaces, this`failed
      ensures handled == (id in old(rows) && old(rows)[id].status == CancelRequested)
      ensures !handled ==> Now() == old(Now())
      ensures handled ==> id in rows && rows == old(rows)[id := rows[id]]
      ensures handled ==>
                var was := old(rows)[id];
                || (rows[id] == Row(was.key, was.fingerprint, Cancelled, true, was.manifest, NoError)
                    && "hdb-task-" + id !in containers && id !in workspaces)
                || (rows[id] == Row(was.key, was.fingerprint, CleanupPending, false, was.manifest, CancelCleanupPending)
                    && failed)
      ensures old(containers) - {TaskContainer(id)} <= containers <= old(containers)
      ensures old(workspaces) - {id} <= workspaces <= old(workspaces)
    {
      handled := id in rows && rows[id].status == CancelRequested;
      if handled {
        var _, raised := RemoveContainer(TaskContainer(id));
        var listed := *;
        failed := failed || !listed;
        var clean := !raised && listed && TaskContainer(id) !in containers;
        if clean {
          WipeWorkspace(id);
          clean := id !in workspaces;
        }
        var _ := Update(id, FinishCancel(clean));
      }
    }

    /** The reconcilable rows, in some order. */
    method SelectRows() returns (ids: seq<TaskId>)
      ensures Selects(Now(), ids)
    {
      ids := [];
      var rest := rows.Keys;
      while rest != {}
        invariant rest <= rows.Keys
        invariant forall i, j | 0 <= i < j < |ids| :: ids[i] != ids[j]
        invariant forall id :: id in ids <==> id in rows && id !in rest && Reconcilable(rows[id])
      {
        var id :| id in rest;
        if Reconcilable(rows[id]) { ids := ids + [id]; }
        rest := rest - {id};
      }
    }

    /** The loop body of _reconcile_tasks for one row; listed loses what was removed. */
    method ReconcileRow(id: TaskId, listed: set<string>) returns (left: set<string>, raised: bool)
      requires id in rows && containers <= listed
      modifies this`rows, this`containers, this`workspaces, this`failed
      ensures containers <= left <= listed && listed - {TaskContainer(id)} <= left
      ensures id in rows && rows == old(rows)[id := rows[id]]
      ensures raised ==> rows == old(rows) && workspaces == old(workspaces)
      ensures !raised ==> Judged(World(old(rows), active, listed, old(workspaces)), Now(), id)
      ensures TaskContainer(id) in left ==> workspaces == old(workspaces) && (raised || !rows[id].cleaned)
      ensures old(failed) || raised ==> failed
      ensures !failed ==> rows[id].cleaned && TaskContainer(id) !in left && id !in workspaces
      ensures old(containers) - {TaskContainer(id)} <= containers <= old(containers)
      ensures old(workspaces) - {id} <= workspaces <= old(workspaces)
    {
      left, raised := listed, false;
      var name := TaskContainer(id);
      if name in left {
        var ok;
        ok, raised := RemoveContainer(name);
        if raised { return; }
        if ok { left := left - {name}; }
      }
      if name !in left { WipeWorkspace(id); }
      var clean := name !in left && id !in workspaces;
      var _ := Update(id, Change.Reconcile(rows[id], clean));
    }

    /** _reconcile_tasks. Listing the containers may fail, and then nothing is done; a command that raises
        ends it early. */
    method ReconcileTasks(scope: TaskId) returns (ending: Ending)
      modifies this`rows, this`containers, this`workspaces, this`failed
      ensures ending.Completed? ==> Repaired(old(Now()), Now(), scope)
      ensures ending.Interrupted? ==> PartlyRepaired(old(Now()), Now(), scope) && failed
      ensures ending.NotListed? ==> Now() == old(Now())
      ensures ending.Completed? && !failed ==> CleanedUp(old(Now()), Now(), scope)
    {
      var listable := *;
      if !listable { return NotListed; }
      var listed, owned := containers, active;
      var ids := SelectRows();
      ghost var before := Now();
      var i := 0;
      hide Progress, Judged, OnlyStraysGone, PartlyRepaired, Repaired, CleanSoFar, CleanedUp;
      ProgressStarts(before, ids, scope);
      while i < |ids|
        invariant i <= |ids| && containers <= listed <= before.containers && active == owned
        invariant rows.Keys == before.rows.Keys && Progress(before, Now(), ids, i, scope)
        invariant !failed ==> CleanSoFar(before, Now(), ids, i, scope)
      {
        var id := ids[i];
        ghost var prior := Now();
        if (scope == "" || id == scope) && id !in owned && ValidTaskId(id) {
          ghost var was := listed;
          var raised;
          listed, raised := ReconcileRow(id, listed);
          if raised {
            ProgressStops(before, prior, Now(), ids, i, scope);
            return Interrupted;
          }
          ProgressRow(before, prior, Now(), was, ids, i, scope);
          if !failed { CleanRow(before, prior, Now(), ids, i, scope); }
        } else {
          ProgressSkips(before, prior, ids, i, scope);
          if !failed { CleanSkips(before, prior, ids, i, scope); }
        }
        i := i + 1;
      }
      ghost var done := Now();
      var raised := Sweep(scope, listed, owned);
      ProgressSwept(before, done, Now(), ids, scope);
      if !failed { CleanSwept(before, done, Now(), ids, scope); }
      ending := if raised then Interrupted else Completed;
    }

    /** The final loop over what is still listed. */
    method Sweep(scope: TaskId, listed: set<string>, owned: set<TaskId>) returns (raised: bool)
      requires containers <= listed
      modifies this`containers, this`failed
      ensures containers <= old(containers)
      ensures scope != "" ==> containers == old(containers)
      ensures forall n <- old(containers) :: n !in containers ==>
                ("hdb-task-" <= n || "hdb-orphan-" <= n) && forall id <- owned :: n != TaskContainer(id)
      ensures old(failed) || raised ==> failed
      ensures !failed && scope == "" ==> forall n <- containers :: "hdb-task-" <= n || "hdb-orphan-" <= n ==>
                exists id <- owned :: n == TaskContainer(id)
    {
      var rest := listed;
      raised := false;
      while rest != {} && !raised
        invariant containers <= old(containers) && (scope != "" ==> containers == old(containers))
        invariant forall n <- old(containers) :: n !in containers ==>
                    ("hdb-task-" <= n || "hdb-orphan-" <= n) && forall id <- owned :: n != TaskContainer(id)
        invariant old(failed) || raised ==> failed
        invariant !failed && scope == "" ==> forall n <- containers :: "hdb-task-" <= n || "hdb-orphan-" <= n ==>
                    n in rest || exists id <- owned :: n == TaskContainer(id)
        decreases rest
      {
        var n :| n in rest;
        rest := rest - {n};
        if scope == "" && (forall id <- owned :: n != TaskContainer(id)) && Sweepable(n) {
          var ok;
          ok, raised := RemoveContainer(n);
        }
      }
    }
  }

  datatype Ending = NotListed | Interrupted | Completed

  predicate Distinct(ids: seq<TaskId>) { forall i, j | 0 <= i < j < |ids| :: ids[i] != ids[j] }

  /** The rows selected, in some order. */
  ghost predicate Selects(before: World, ids: seq<TaskId>) {
    Distinct(ids) && forall id :: id in ids <==> id in before.rows && Reconcilable(before.rows[id])
  }

  /** What the reconcile has done when it comes to row i. */
  ghost predicate Progress(before: World, now: World, ids: seq<TaskId>, i: nat, scope: TaskId)
    requires i <= |ids|
  {
    && Selects(before, ids) && OnlyStraysGone(before, now, scope)
    && (forall k <- ids[..i] :: k in before.rows && (Covered(before, scope, k) ==> Judged(before, now, k)))
    && (forall id <- before.rows :: id in ids[i..] || !Covered(before, scope, id) ==> now.rows[id] == before.rows[id])
  }

  lemma ProgressStarts(before: World, ids: seq<TaskId>, scope: TaskId)
    requires Selects(before, ids)
    ensures Progress(before, before, ids, 0, scope)
  {}

  lemma NextId(ids: seq<TaskId>, i: nat)
    requires i < |ids| && Distinct(ids)
    ensures ids[..i + 1] == ids[..i] + [ids[i]] && ids[i..] == [ids[i]] + ids[i + 1..]
    ensures ids[i] !in ids[..i] && ids[i] !in ids[i + 1..]
  {}

  lemma ProgressSkips(before: World, now: World, ids: seq<TaskId>, i: nat, scope: TaskId)
    requires i < |ids| && Progress(before, now, ids, i, scope) && !Covered(before, scope, ids[i])
    ensures Progress(before, now, ids, i + 1, scope)
  {
    NextId(ids, i);
  }

  lemma ProgressRow(before: World, prior: World, after: World, listed: set<string>, ids: seq<TaskId>, i: nat,
                    scope: TaskId)
    requires i < |ids| && Progress(before, prior, ids, i, scope) && Covered(before, scope, ids[i])
    requires prior.containers <= listed <= before.containers && ids[i] in prior.rows && ids[i] in after.rows
    requires Judged(World(prior.rows, prior.active, listed, prior.workspaces), after, ids[i])
    requires after.rows == prior.rows[ids[i] := after.rows[ids[i]]] && after.active == prior.active
    requires prior.containers - {TaskContainer(ids[i])} <= after.containers <= prior.containers
    requires prior.workspaces - {ids[i]} <= after.workspaces <= prior.workspaces
    ensures Progress(before, after, ids, i + 1, scope)
  {
    NextId(ids, i);
    JudgementsStay(before, prior, after, ids[..i], scope, ids[i]);
    StraysAccumulate(before, prior, after, scope, ids[i]);
    assert Judged(before, after, ids[i]);
  }

  /** A command that raises leaves the rows before judged, and the others as they were. */
  lemma ProgressStops(before: World, prior: World, after: World, ids: seq<TaskId>, i: nat, scope: TaskId)
    requires i < |ids| && Progress(before, prior, ids, i, scope) && Covered(before, scope, ids[i])
    requires after.rows == prior.rows && after.active == prior.active && after.workspaces == prior.workspaces
    requires prior.containers - {TaskContainer(ids[i])} <= after.containers <= prior.containers
    ensures PartlyRepaired(before, after, scope)
  {
    NextId(ids, i);
    assert ids == ids[..i] + ids[i..];
    JudgementsStay(before, prior, after, ids[..i], scope, ids[i]);
    StraysAccumulate(before, prior, after, scope, ids[i]);
  }

  lemma ProgressSwept(before: World, done: World, after: World, ids: seq<TaskId>, scope: TaskId)
    requires Progress(before, done, ids, |ids|, scope)
    requires after.rows == done.rows && after.active == done.active && after.workspaces == done.workspaces
    requires after.containers <= done.containers && (scope != "" ==> after.containers == done.containers)
    requires forall n <- done.containers :: n !in after.containers ==>
               ("hdb-task-" <= n || "hdb-orphan-" <= n) && forall id <- before.active :: n != TaskContainer(id)
    ensures Repaired(before, after, scope) && PartlyRepaired(before, after, scope)
  {
    assert ids[..|ids|] == ids;
    forall id <- before.rows ensures Covered(before, scope, id) ==> id in ids {}
  }

  /** Reconciling one more row leaves the earlier verdicts standing. */
  lemma JudgementsStay(before: World, prior: World, after: World, ids: seq<TaskId>, scope: TaskId, id: TaskId)
    requires prior.rows.Keys == after.rows.Keys == before.rows.Keys && id in before.rows && id !in ids
    requires forall k <- ids :: k in before.rows
    requires after.rows == prior.rows[id := after.rows[id]]
    requires after.containers <= prior.containers && after.workspaces <= prior.workspaces
    requires forall k <- ids :: Covered(before, scope, k) ==> Judged(before, prior, k)
    ensures forall k <- ids :: Covered(before, scope, k) ==> Judged(before, after, k)
  {}

  lemma StraysAccumulate(before: World, prior: World, after: World, scope: TaskId, id: TaskId)
    requires OnlyStraysGone(before, prior, scope) && Covered(before, scope, id)
    requires after.active == prior.active && after.rows.Keys == prior.rows.Keys
    requires prior.containers - {TaskContainer(id)} <= after.containers <= prior.containers
    requires prior.workspaces - {id} <= after.workspaces <= prior.workspaces
    ensures OnlyStraysGone(before, after, scope)
  {
    forall other <- before.active ensures TaskContainer(id) != TaskContainer(other) {
      if TaskContainer(id) == TaskContainer(other) {
        TaskContainerInjective(id, other);
      }
    }
  }

  // ----- when nothing fails -----

  /** Each row done so far is clean. */
  ghost predicate CleanSoFar(before: World, now: World, ids: seq<TaskId>, i: nat, scope: TaskId)
    requires i <= |ids|
  {
    forall id <- ids[..i] :: Covered(before, scope, id) ==>
      id in now.rows && now.rows[id].cleaned && TaskContainer(id) !in now.containers && id !in now.workspaces
  }

  lemma CleanSkips(before: World, now: World, ids: seq<TaskId>, i: nat, scope: TaskId)
    requires i < |ids| && Distinct(ids) && CleanSoFar(before, now, ids, i, scope) && !Covered(before, scope, ids[i])
    ensures CleanSoFar(before, now, ids, i + 1, scope)
  {
    NextId(ids, i);
  }

  lemma CleanRow(before: World, prior: World, after: World, ids: seq<TaskId>, i: nat, scope: TaskId)
    requires i < |ids| && Distinct(ids) && CleanSoFar(before, prior, ids, i, scope)
    requires ids[i] in after.rows && after.rows == prior.rows[ids[i] := after.rows[ids[i]]]
    requires after.containers <= prior.containers && after.workspaces <= prior.workspaces
    requires after.rows[ids[i]].cleaned && TaskContainer(ids[i]) !in after.containers && ids[i] !in after.workspaces
    ensures CleanSoFar(before, after, ids, i + 1, scope)
  {
    NextId(ids, i);
  }

  lemma CleanSwept(before: World, done: World, after: World, ids: seq<TaskId>, scope: TaskId)
    requires Selects(before, ids) && CleanSoFar(before, done, ids, |ids|, scope)
    requires after.rows == done.rows && after.workspaces == done.workspaces && after.containers <= done.containers
    requires scope == "" ==> forall n <- after.containers :: "hdb-task-" <= n || "hdb-orphan-" <= n ==>
               exists id <- before.active :: n == TaskContainer(id)
    ensures CleanedUp(before, after, scope)
  {
    assert ids[..|ids|] == ids;
    forall id <- before.rows | Covered(before, scope, id)
      ensures id in after.rows && after.rows[id].cleaned && "hdb-task-" + id !in after.containers
              && id !in after.workspaces
    {
      assert id in ids && "hdb-task-" + id == TaskContainer(id);
    }
  }
}
