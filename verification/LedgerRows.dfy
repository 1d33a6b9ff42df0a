/** The Runner's durable task rows and the compare-and-set that is their only write path
    after insertion (deploy/sandbox-runner/runner.py). */
module LedgerRows {
  type TaskId = string

  predicate TaskIdChar(c: char) {
    'a' <= c <= 'z' || 'A' <= c <= 'Z' || '0' <= c <= '9' || c == '_' || c == '-'
  }

  /** _TASK_ID_RE: 'task-' and 16 to 64 safe characters. */
  predicate ValidTaskId(id: TaskId) {
    "task-" <= id && 21 <= |id| <= 69 && forall i | 5 <= i < |id| :: TaskIdChar(id[i])
  }

  predicate IdSuffix(rest: string) {
    16 <= |rest| <= 64
    && forall c <- rest :: 'a' <= c <= 'z' || 'A' <= c <= 'Z' || '0' <= c <= '9' || c == '_' || c == '-'
  }

  lemma ValidTaskIdMeans(id: TaskId)
    ensures ValidTaskId(id) <==> exists rest :: id == "task-" + rest && IdSuffix(rest)
  {
    if ValidTaskId(id) {
      assert id == "task-" + id[5..] && IdSuffix(id[5..]);
    }
    forall rest | id == "task-" + rest && IdSuffix(rest) ensures ValidTaskId(id) {
      forall i | 5 <= i < |id| ensures TaskIdChar(id[i]) { assert id[i] == rest[i - 5] && rest[i - 5] in rest; }
    }
  }

  datatype Status =
    | Queued | Running | CancelRequested | CleanupPending | Unknown
    | Succeeded | Failed | TimedOut | Cancelled

  datatype ErrorCode = NoError | CancelCleanupPending | RestartReconciled | Timeout | ExecutionCode(text: string)

  /** cleaned is the row's cleanup_state: true is 'complete', false is 'pending'. */
  datatype Row = Row(
    key: string, fingerprint: string, status: Status, cleaned: bool, manifest: string, error: ErrorCode)

  type Rows = map<TaskId, Row>

  /** How an execution ends when its row is still running. */
  datatype Outcome = Success(manifest: string) | Failure(code: string) | Expiry

  /** The value sets written by the callers of _update_task. A reconciler computes its write from
      the status and error it read earlier, not from the row it overwrites. */
  datatype Change =
    | Start
    | RequestCancel
    | FinishCancel(clean: bool)
    | Conclude(outcome: Outcome)
    | Reconcile(seen: Row, clean: bool)

  function NewRow(key: string, fingerprint: string): Row {
    Row(key, fingerprint, Queued, false, "", NoError)
  }

  function Written(r: Row, change: Change): Row {
    match change
    case Start => r.(status := Running)
    case RequestCancel => r.(status := CancelRequested, cleaned := false)
    case FinishCancel(clean) =>
      if clean then r.(status := Cancelled, cleaned := true, error := NoError)
      else r.(status := CleanupPending, cleaned := false, error := CancelCleanupPending)
    case Conclude(Success(m)) => r.(status := Succeeded, cleaned := true, manifest := m)
    case Conclude(Failure(code)) => r.(status := Failed, cleaned := true, error := ExecutionCode(code))
    case Conclude(Expiry) => r.(status := TimedOut, cleaned := true, error := Timeout)
    case Reconcile(seen, clean) =>
      if clean && Withdrawing(seen) then r.(status := Cancelled, cleaned := true, error := NoError)
      else if clean then r.(status := Unknown, cleaned := true, error := RestartReconciled)
      else r.(status := CleanupPending, cleaned := false,
              error := if seen.status == CancelRequested then CancelCleanupPending else seen.error)
  }

  /** The statuses each kind of write expects to find. */
  function Expected(change: Change): set<Status> {
    match change
    case Start => {Queued}
    case RequestCancel => {Queued, Running}
    case FinishCancel(_) => {CancelRequested}
    case Conclude(_) => {Running}
    case Reconcile(seen, _) => {seen.status}
  }

  predicate Applies(rows: Rows, id: TaskId, change: Change) {
    id in rows && rows[id].status in Expected(change)
  }

  function UpdateTask(rows: Rows, id: TaskId, change: Change): Rows {
    if Applies(rows, id, change) then rows[id := Written(rows[id], change)] else rows
  }

  /** Rows a reconciler selects. */
  predicate Reconcilable(r: Row) {
    r.status in {Queued, Running, CancelRequested, CleanupPending, Unknown}
  }

  predicate Open(r: Row) { r.status in {Queued, Running, CancelRequested} }

  predicate Final(r: Row) { r.status in {Succeeded, Failed, TimedOut, Cancelled} }

  /** A requested cancellation whose cleanup has not been confirmed yet. */
  predicate Withdrawing(r: Row) {
    r.status == CancelRequested || (r.status == CleanupPending && r.error == CancelCleanupPending)
  }

  /** The row remembers that a cancellation was requested. */
  predicate CancelRecorded(r: Row) { Withdrawing(r) || r.status == Cancelled }

  /** The cancellation error marks unfinished cancellations only, and only success has a manifest. */
  predicate Coherent(r: Row) {
    && (r.error == CancelCleanupPending ==> r.status == CleanupPending)
    && (r.manifest != "" ==> r.status == Succeeded)
  }

  /** What holds between a row and every later version of it. */
  ghost predicate Evolves(r: Row, later: Row) {
    && later.key == r.key && later.fingerprint == r.fingerprint
    && (Final(r) ==> later == r)
    && (!Open(r) ==> !Open(later))
    && (later.status == Queued ==> r.status == Queued)
    && (later.status == Running ==> r.status in {Queued, Running})
    && (CancelRecorded(r) ==> CancelRecorded(later))
    && (!Open(r) && !CancelRecorded(r) ==> !CancelRecorded(later))
  }

  /** Rows are never deleted, and each one evolves. */
  ghost predicate LedgerEvolves(rows: Rows, later: Rows) {
    forall id <- rows :: id in later && Evolves(rows[id], later[id])
  }

  lemma EvolvesTransitive(a: Row, b: Row, c: Row)
    requires Evolves(a, b) && Evolves(b, c)
    ensures Evolves(a, c)
  {}

  lemma LedgerEvolvesTransitive(a: Rows, b: Rows, c: Rows)
    requires LedgerEvolves(a, b) && LedgerEvolves(b, c)
    ensures LedgerEvolves(a, c)
  {
    forall id <- a ensures id in c && Evolves(a[id], c[id]) {
      EvolvesTransitive(a[id], b[id], c[id]);
    }
  }

  /** A change is sound on a row when a reconciler's stale view is an earlier version of it. */
  ghost predicate Grounded(rows: Rows, id: TaskId, change: Change) {
    change.Reconcile? ==> id in rows && Evolves(change.seen, rows[id]) && Coherent(change.seen)
  }

  /** A write whose expected status is met moves the row on, also one computed from an earlier version. */
  lemma WrittenEvolves(r: Row, change: Change)
    requires Coherent(r) && r.status in Expected(change)
    requires change.Reconcile? ==> Evolves(change.seen, r) && Coherent(change.seen) && Reconcilable(change.seen)
    ensures Evolves(r, Written(r, change)) && Coherent(Written(r, change))
  {}

  /** Every guarded write lets the ledger evolve, however stale the view it was computed from. */
  lemma UpdateEvolves(rows: Rows, id: TaskId, change: Change)
    requires Grounded(rows, id, change)
    requires forall i <- rows :: Coherent(rows[i])
    requires change.Reconcile? ==> Reconcilable(change.seen)
    ensures LedgerEvolves(rows, UpdateTask(rows, id, change))
    ensures forall i <- UpdateTask(rows, id, change) :: Coherent(UpdateTask(rows, id, change)[i])
  {
    hide Written, Expected, Evolves, Coherent;
    forall r: Row ensures Evolves(r, r) { EvolvesItself(r); }
    if Applies(rows, id, change) { WrittenEvolves(rows[id], change); }
  }

  lemma EvolvesItself(r: Row)
    ensures Evolves(r, r)
  {}
}
