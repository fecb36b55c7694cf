/**
 The `tasks` table and the SQL statements that the task queue runs against it.

 A statement is a function from the table to the table it leaves behind, or to the
 fault with which the database rejects it.  A transaction is a sequence of statements;
 the first fault rolls all of it back.
 */
module TaskTable {
  import opened Results

  type TaskId = nat
  type WorkerId = string
  type Time = nat

  datatype Status = Pending | Running | Waiting | Completed | Failed

  /** A JSON document, seen through the one key that SQL ever reads from it. */
  datatype Json = Json(mediaId: Option<nat>, rest: string)

  const EMPTY_OBJECT := Json(None, "")

  datatype Task = Task(
    taskType: string,
    state: Json,
    status: Status,
    workerId: Option<WorkerId>,
    leaseExpiresAt: Option<Time>,
    error: Option<string>,
    parentId: Option<TaskId>,
    createdAt: Time)

  type Rows = map<TaskId, Task>

  /** The table together with the sequence that numbers its rows. */
  datatype Db = Db(rows: Rows, nextId: TaskId)

  datatype Fault = RowCheck | TypeCheck | MissingParent | NoSuchTask | BadStatus

  // ---------------------------------------------------------------- constraints

  /** The CHECK that ties worker and lease to the running status. */
  predicate LeaseCheck(t: Task) {
    || (t.status.Running? && t.workerId.Some? && t.leaseExpiresAt.Some?)
    || (!t.status.Running? && t.workerId.None? && t.leaseExpiresAt.None?)
  }

  /** The CHECK that ties the error message to the failed status. */
  predicate ErrorCheck(t: Task) {
    (t.status.Failed? && t.error.Some?) || (!t.status.Failed? && t.error.None?)
  }

  predicate RowOk(t: Task) {
    LeaseCheck(t) && ErrorCheck(t) && t.taskType != ""
  }

  predicate Finished(t: Task) {
    t.status.Completed? || t.status.Failed?
  }

  /** `c` is a child row of `p`. */
  predicate IsChild(rows: Rows, p: TaskId, c: TaskId) {
    c in rows && rows[c].parentId == Some(p)
  }

  /** What every reachable table satisfies: checks, foreign keys, and parents numbered below their children. */
  ghost predicate WellFormed(db: Db) {
    && (forall id :: id in db.rows ==> RowOk(db.rows[id]) && id < db.nextId)
    && ParentsBelow(db.rows)
  }

  ghost predicate ParentsBelow(rows: Rows) {
    forall id :: id in rows && rows[id].parentId.Some? ==>
      rows[id].parentId.value in rows && rows[id].parentId.value < id
  }

  // ----------------------------------------------------------------- statements

  /** UPDATE of one existing row: rejected when the new row violates a CHECK. */
  function SetRow(rows: Rows, id: TaskId, t: Task): Result<Rows, Fault> {
    if LeaseCheck(t) && ErrorCheck(t) then Ok(rows[id := t]) else Err(RowCheck)
  }

  function Insert(db: Db, now: Time, taskType: string, state: Option<Json>, parent: Option<TaskId>): Result<Db, Fault> {
    if taskType == "" then Err(TypeCheck)
    else if parent.Some? && parent.value !in db.rows then Err(MissingParent)
    else
      var doc := if state.Some? then state.value else EMPTY_OBJECT;
      Ok(Db(db.rows[db.nextId := Task(taskType, doc, Pending, None, None, None, parent, now)], db.nextId + 1))
  }

  /** Rows the claim statement may pick. */
  predicate Claimable(t: Task, now: Time, types: set<string>) {
    && (t.status.Pending? || (t.status.Running? && t.leaseExpiresAt.Some? && t.leaseExpiresAt.value < now))
    && t.taskType in types
  }

  /** A pending row of one of the given types. */
  predicate PendingOf(rows: Rows, types: set<string>, id: TaskId) {
    id in rows && rows[id].status.Pending? && rows[id].taskType in types
  }

  /** ORDER BY created_at LIMIT 1 may return `id`. */
  ghost predicate Oldest(rows: Rows, now: Time, types: set<string>, id: TaskId) {
    && id in rows && Claimable(rows[id], now, types)
    && forall j :: j in rows && Claimable(rows[j], now, types) ==> rows[id].createdAt <= rows[j].createdAt
  }

  ghost predicate NothingClaimable(rows: Rows, now: Time, types: set<string>) {
    forall j :: j in rows ==> !Claimable(rows[j], now, types)
  }

  function ClaimedBy(t: Task, w: WorkerId, lease: Time): Task {
    t.(status := Running, workerId := Some(w), leaseExpiresAt := Some(lease))
  }

  predicate OwnedBy(rows: Rows, id: TaskId, w: WorkerId) {
    id in rows && rows[id].workerId == Some(w) && rows[id].status.Running?
  }

  /** The heartbeat's UPDATE; it matches on the owner as well as on the id. */
  function Renew(rows: Rows, id: TaskId, w: WorkerId, lease: Time): Rows {
    if OwnedBy(rows, id, w) then rows[id := rows[id].(leaseExpiresAt := Some(lease))] else rows
  }

  function Released(t: Task, status: Status, state: Option<Json>): Task {
    t.(status := status, workerId := None, leaseExpiresAt := None,
       state := if state.Some? then state.value else t.state)
  }

  /** `updateTaskState` and `completeTask`: matches on the id alone. */
  function Release(rows: Rows, id: TaskId, status: Status, state: Option<Json>): Result<Rows, Fault> {
    if id !in rows then Ok(rows) else SetRow(rows, id, Released(rows[id], status, state))
  }

  function FailedWith(t: Task, message: string): Task {
    t.(status := Failed, error := Some(message), workerId := None, leaseExpiresAt := None)
  }

  /** `failTask` and `failTaskDirect`: matches on the id alone. */
  function Fail(rows: Rows, id: TaskId, message: string): Result<Rows, Fault> {
    if id !in rows then Ok(rows) else SetRow(rows, id, FailedWith(rows[id], message))
  }

  /** A table, and whether the statements that made it sent a notification. */
  datatype Written<T> = Written(value: T, notify: bool)

  function Resume(rows: Rows, id: TaskId, state: Option<Json>): Result<Written<Rows>, Fault> {
    if id in rows && rows[id].status.Waiting? then
      var t := rows[id].(status := Pending, state := if state.Some? then state.value else rows[id].state);
      match SetRow(rows, id, t)
      case Ok(after) => Ok(Written(after, true))
      case Err(e) => Err(e)
    else Ok(Written(rows, false))
  }

  function ResumeParent(rows: Rows, child: TaskId): Result<Written<Rows>, Fault> {
    if child !in rows then Err(NoSuchTask)
    else if rows[child].parentId.None? then Ok(Written(rows, false))
    else Resume(rows, rows[child].parentId.value, None)
  }

  // --------------------------------------------------------------------- cancel

  const CANCELLED := "cancelled"

  function Cancelled(t: Task): Task {
    FailedWith(t, CANCELLED)
  }

  /** `id` is `root` or lies below it, following parent links upwards. */
  predicate Descends(rows: Rows, root: TaskId, id: TaskId)
    decreases id
  {
    || id == root
    || (id in rows && rows[id].parentId.Some? && rows[id].parentId.value < id
        && Descends(rows, root, rows[id].parentId.value))
  }

  /** What cancelling `root` must leave behind: unfinished descendants are failed, all else is untouched. */
  function CancelTree(rows: Rows, root: TaskId): Rows {
    map id | id in rows ::
      if Descends(rows, root, id) && !Finished(rows[id]) then Cancelled(rows[id]) else rows[id]
  }

  // ---------------------------------------------------------------- transactions

  /** The calls of the task API. */
  datatype Op =
    | Create(taskType: string, doc: Option<Json>)
    | CreateChild(parent: TaskId, taskType: string, doc: Option<Json>)
    | ResumeTask(id: TaskId)
    | ResumeTaskWithState(id: TaskId, newDoc: Json)
    | Cancel(id: TaskId)

  function RunOp(db: Db, now: Time, op: Op): Result<Written<Db>, Fault> {
    match op
    case Create(taskType, doc) => Inserted(Insert(db, now, taskType, doc, None))
    case CreateChild(parent, taskType, doc) => Inserted(Insert(db, now, taskType, doc, Some(parent)))
    case ResumeTask(id) => OnRows(db, Resume(db.rows, id, None))
    case ResumeTaskWithState(id, doc) => OnRows(db, Resume(db.rows, id, Some(doc)))
    case Cancel(id) => Ok(Written(db.(rows := CancelTree(db.rows, id)), false))
  }

  function Inserted(r: Result<Db, Fault>): Result<Written<Db>, Fault> {
    match r case Ok(db) => Ok(Written(db, true)) case Err(e) => Err(e)
  }

  function OnRows(db: Db, r: Result<Written<Rows>, Fault>): Result<Written<Db>, Fault> {
    match r
    case Ok(w) => Ok(Written(db.(rows := w.value), w.notify))
    case Err(e) => Err(e)
  }

  function RunOps(db: Db, now: Time, ops: seq<Op>): Result<Written<Db>, Fault>
    decreases |ops|
  {
    if ops == [] then Ok(Written(db, false)) else
      match RunOp(db, now, ops[0])
      case Err(e) => Err(e)
      case Ok(first) =>
        match RunOps(first.value, now, ops[1..])
        case Err(e) => Err(e)
        case Ok(rest) => Ok(Written(rest.value, first.notify || rest.notify))
  }

  lemma OneOpRuns(db: Db, now: Time, op: Op)
    ensures RunOps(db, now, [op]) == RunOp(db, now, op)
  {
    var ops := [op];
    assert ops[0] == op && ops[1..] == [];
    if RunOp(db, now, op).Ok? {
      assert RunOps(RunOp(db, now, op).value.value, now, ops[1..]) == Ok(Written(RunOp(db, now, op).value.value, false));
    }
  }

  /** What a handler asks for; `Unknown` stands for a status string outside the five. */
  datatype NewStatus = Known(status: Status) | Unknown(text: string)
  datatype HandlerResult = HandlerResult(newState: Option<Json>, newStatus: NewStatus, error: string)

  /** `applyResult`. */
  function ApplyResult(rows: Rows, id: TaskId, r: HandlerResult): Result<Written<Rows>, Fault> {
    match r.newStatus
    case Known(Pending) => Quiet(Release(rows, id, Pending, r.newState))
    case Known(Waiting) => Quiet(Release(rows, id, Waiting, r.newState))
    case Known(Completed) => ThenResumeParent(Release(rows, id, Completed, r.newState), id)
    case Known(Failed) => ThenResumeParent(Fail(rows, id, r.error), id)
    case Known(Running) => Err(BadStatus)
    case Unknown(_) => Err(BadStatus)
  }

  function Quiet(r: Result<Rows, Fault>): Result<Written<Rows>, Fault> {
    match r case Ok(rows) => Ok(Written(rows, false)) case Err(e) => Err(e)
  }

  function ThenResumeParent(r: Result<Rows, Fault>, id: TaskId): Result<Written<Rows>, Fault> {
    match r case Ok(rows) => ResumeParent(rows, id) case Err(e) => Err(e)
  }

  /** The handler's transaction: its own calls, then its result. */
  function CommitRun(db: Db, now: Time, id: TaskId, ops: seq<Op>, r: HandlerResult): Result<Written<Db>, Fault> {
    match RunOps(db, now, ops)
    case Err(e) => Err(e)
    case Ok(done) =>
      match ApplyResult(done.value.rows, id, r)
      case Err(e) => Err(e)
      case Ok(applied) => Ok(Written(done.value.(rows := applied.value), done.notify || applied.notify))
  }

  // ------------------------------------------------- what statements do to a row

  predicate SameIdentity(a: Task, b: Task) {
    a.taskType == b.taskType && a.parentId == b.parentId && a.createdAt == b.createdAt
  }

  /** How the task API may change one row. */
  predicate Touched(a: Task, b: Task) {
    && SameIdentity(a, b)
    && match a.status
       case Pending => b == a || b == Cancelled(a)
       case Running => b == a || b == Cancelled(a)
       case Completed => b == a
       case Failed => b == a
       case Waiting => b == a || b == a.(status := Pending, state := b.state) || b == Cancelled(a.(state := b.state))
  }

  /** Every old row is still there with its type, parent and creation time; new rows are numbered from the old sequence on; failed stays failed. */
  ghost predicate Grows(a: Db, b: Db) {
    && a.nextId <= b.nextId
    && (forall id :: id in a.rows ==> id in b.rows && SameIdentity(a.rows[id], b.rows[id]))
    && (forall id :: id in b.rows && id !in a.rows ==> a.nextId <= id)
    && (forall id :: id in a.rows && a.rows[id].status.Failed? ==> b.rows[id].status.Failed?)
  }

  ghost predicate AllTouched(a: Rows, b: Rows) {
    forall id :: id in a ==> id in b && Touched(a[id], b[id])
  }

  /** The workhorse: replacing one row by a lawful version of itself. */
  lemma OneRow(db: Db, id: TaskId, t: Task)
    requires WellFormed(db) && id in db.rows && RowOk(t) && SameIdentity(db.rows[id], t)
    requires db.rows[id].status.Failed? ==> t.status.Failed?
    ensures var b := db.(rows := db.rows[id := t]); WellFormed(b) && Grows(db, b)
  {
  }

  lemma InsertTouches(db: Db, now: Time, taskType: string, doc: Option<Json>, parent: Option<TaskId>)
    requires WellFormed(db) && Insert(db, now, taskType, doc, parent).Ok?
    ensures var b := Insert(db, now, taskType, doc, parent).value;
            WellFormed(b) && Grows(db, b) && AllTouched(db.rows, b.rows)
  {
    assert db.nextId !in db.rows;
  }

  lemma ResumeTouches(db: Db, id: TaskId, doc: Option<Json>)
    requires WellFormed(db)
    ensures Resume(db.rows, id, doc).Ok?
    ensures var b := db.(rows := Resume(db.rows, id, doc).value.value);
            WellFormed(b) && Grows(db, b) && AllTouched(db.rows, b.rows)
  {
    if id in db.rows && db.rows[id].status.Waiting? {
      var t := db.rows[id].(status := Pending, state := if doc.Some? then doc.value else db.rows[id].state);
      assert RowOk(db.rows[id]);
      OneRow(db, id, t);
    }
  }

  lemma CancelTouches(db: Db, root: TaskId)
    requires WellFormed(db)
    ensures var b := db.(rows := CancelTree(db.rows, root));
            WellFormed(b) && Grows(db, b) && AllTouched(db.rows, b.rows)
  {
    var b := CancelTree(db.rows, root);
    forall id | id in b
      ensures RowOk(b[id]) && Touched(db.rows[id], b[id])
    {
      assert RowOk(db.rows[id]);
    }
  }

  lemma OpTouches(db: Db, now: Time, op: Op)
    requires WellFormed(db) && RunOp(db, now, op).Ok?
    ensures var b := RunOp(db, now, op).value.value;
            WellFormed(b) && Grows(db, b) && AllTouched(db.rows, b.rows)
  {
    match op
    case Create(taskType, doc) => InsertTouches(db, now, taskType, doc, None);
    case CreateChild(parent, taskType, doc) => InsertTouches(db, now, taskType, doc, Some(parent));
    case ResumeTask(id) => ResumeTouches(db, id, None);
    case ResumeTaskWithState(id, doc) => ResumeTouches(db, id, Some(doc));
    case Cancel(id) => CancelTouches(db, id);
  }

  lemma GrowsTrans(a: Db, b: Db, c: Db)
    requires Grows(a, b) && Grows(b, c)
    ensures Grows(a, c)
  {
    forall id | id in a.rows
      ensures id in c.rows && SameIdentity(a.rows[id], c.rows[id])
    {
      assert id in b.rows;
    }
  }

  lemma TouchedTrans(a: Rows, b: Rows, c: Rows)
    requires AllTouched(a, b) && AllTouched(b, c)
    ensures AllTouched(a, c)
  {
    forall id | id in a
      ensures id in c && Touched(a[id], c[id])
    {
      assert Touched(a[id], b[id]) && Touched(b[id], c[id]);
    }
  }

  /** A whole list of API calls keeps the table well formed, loses no row, and touches old rows only as `Touched` allows. */
  lemma {:induction false} OpsTouch(db: Db, now: Time, ops: seq<Op>)
    requires WellFormed(db) && RunOps(db, now, ops).Ok?
    ensures var b := RunOps(db, now, ops).value.value;
            WellFormed(b) && Grows(db, b) && AllTouched(db.rows, b.rows)
    decreases |ops|
  {
    if ops == [] {
    } else {
      var mid := RunOp(db, now, ops[0]).value.value;
      var end := RunOps(mid, now, ops[1..]).value.value;
      OpTouches(db, now, ops[0]);
      OpsTouch(mid, now, ops[1..]);
      GrowsTrans(db, mid, end);
      TouchedTrans(db.rows, mid.rows, end.rows);
    }
  }

  /** The row CHECKs never reject an API call: its only faults are an empty type and a missing parent. */
  lemma {:induction false} OpsFaults(db: Db, now: Time, ops: seq<Op>)
    requires WellFormed(db)
    ensures RunOps(db, now, ops).Err? ==> RunOps(db, now, ops).error in {TypeCheck, MissingParent}
    decreases |ops|
  {
    if ops == [] {
    } else if RunOp(db, now, ops[0]).Ok? {
      OpTouches(db, now, ops[0]);
      OpsFaults(RunOp(db, now, ops[0]).value.value, now, ops[1..]);
    } else {
      match ops[0]
      case ResumeTask(id) => ResumeTouches(db, id, None);
      case ResumeTaskWithState(id, doc) => ResumeTouches(db, id, Some(doc));
      case _ =>
    }
  }

  /** The row a result writes, before any parent is looked at. */
  function ResultRow(t: Task, r: HandlerResult): Task
    requires r.newStatus.Known?
  {
    if r.newStatus.status.Failed? then FailedWith(t, r.error) else Released(t, r.newStatus.status, r.newState)
  }

  /** Waking the parent never fails, so only the row itself can stop a final result. */
  lemma FinalResultApplies(db: Db, id: TaskId, r: HandlerResult)
    requires WellFormed(db) && id in db.rows && r.newStatus in {Known(Completed), Known(Failed)}
    ensures var t := ResultRow(db.rows[id], r);
      if LeaseCheck(t) && ErrorCheck(t) then ApplyResult(db.rows, id, r).Ok? else ApplyResult(db.rows, id, r) == Err(RowCheck)
  {
    var t := ResultRow(db.rows[id], r);
    assert RowOk(db.rows[id]);
    if LeaseCheck(t) && ErrorCheck(t) {
      OneRow(db, id, t);
      ParentTouches(db.(rows := db.rows[id := t]), id);
    }
  }

  /** Exactly which results the row CHECKs reject, as a condition on the row they are applied to. */
  lemma ResultFaults(db: Db, id: TaskId, r: HandlerResult)
    requires WellFormed(db) && id in db.rows
    ensures ApplyResult(db.rows, id, r) == Err(RowCheck) <==>
              db.rows[id].status.Failed? && r.newStatus in {Known(Pending), Known(Waiting), Known(Completed)}
    ensures ApplyResult(db.rows, id, r) == Err(BadStatus) <==> r.newStatus == Known(Running) || r.newStatus.Unknown?
    ensures ApplyResult(db.rows, id, r).Err? ==> ApplyResult(db.rows, id, r).error in {RowCheck, BadStatus}
  {
    assert RowOk(db.rows[id]);
    if r.newStatus in {Known(Completed), Known(Failed)} {
      FinalResultApplies(db, id, r);
    }
  }

  /** What applying a result changes: the task's own row and at most its waiting parent. */
  ghost predicate ResultEffect(a: Rows, id: TaskId, r: HandlerResult, b: Rows)
    requires id in a && r.newStatus.Known?
  {
    && b.Keys == a.Keys
    && b[id] == ResultRow(a[id], r)
    && (forall j :: j in a && j != id ==>
          || b[j] == a[j]
          || (a[id].parentId == Some(j) && a[j].status.Waiting? && b[j] == a[j].(status := Pending)))
    && (Finished(b[id]) && a[id].parentId.Some? && a[id].parentId.value in a ==>
          !b[a[id].parentId.value].status.Waiting?)
  }

  lemma QuietResultTouches(db: Db, id: TaskId, r: HandlerResult)
    requires WellFormed(db) && id in db.rows && ApplyResult(db.rows, id, r).Ok?
    requires r.newStatus in {Known(Pending), Known(Waiting)}
    ensures var after := db.(rows := ApplyResult(db.rows, id, r).value.value);
            WellFormed(after) && Grows(db, after) && ResultEffect(db.rows, id, r, after.rows)
  {
    assert RowOk(db.rows[id]);
    OneRow(db, id, ResultRow(db.rows[id], r));
  }

  /** Waking the parent of `id`: it is never left waiting, and no other row changes. */
  lemma ParentTouches(db: Db, id: TaskId)
    requires WellFormed(db) && id in db.rows
    ensures ResumeParent(db.rows, id).Ok?
    ensures var b := ResumeParent(db.rows, id).value.value;
      && WellFormed(db.(rows := b)) && Grows(db, db.(rows := b)) && b.Keys == db.rows.Keys
      && (forall j :: j in b ==>
            || b[j] == db.rows[j]
            || (j != id && db.rows[id].parentId == Some(j) && db.rows[j].status.Waiting?
                && b[j] == db.rows[j].(status := Pending)))
      && (db.rows[id].parentId.Some? ==>
            db.rows[id].parentId.value in b && !b[db.rows[id].parentId.value].status.Waiting?)
  {
    if db.rows[id].parentId.Some? {
      ResumeTouches(db, db.rows[id].parentId.value, None);
    }
  }

  /** Writing the row and waking its parent, put together. */
  lemma FinalEffect(a: Rows, id: TaskId, r: HandlerResult, mid: Rows, b: Rows)
    requires id in a && r.newStatus in {Known(Completed), Known(Failed)} && mid == a[id := ResultRow(a[id], r)] && b.Keys == mid.Keys
    requires forall j :: j in b ==>
      b[j] == mid[j] || (j != id && a[id].parentId == Some(j) && mid[j].status.Waiting? && b[j] == mid[j].(status := Pending))
    requires a[id].parentId.Some? ==> a[id].parentId.value in b && !b[a[id].parentId.value].status.Waiting?
    ensures ResultEffect(a, id, r, b)
  {
  }

  lemma FinalResultTouches(db: Db, id: TaskId, r: HandlerResult)
    requires WellFormed(db) && id in db.rows && ApplyResult(db.rows, id, r).Ok?
    requires r.newStatus in {Known(Completed), Known(Failed)}
    ensures var after := db.(rows := ApplyResult(db.rows, id, r).value.value);
            WellFormed(after) && Grows(db, after) && ResultEffect(db.rows, id, r, after.rows)
  {
    var t := ResultRow(db.rows[id], r);
    assert RowOk(t) by { assert RowOk(db.rows[id]); }
    OneRow(db, id, t);
    var mid := db.(rows := db.rows[id := t]);
    assert ApplyResult(db.rows, id, r) == ResumeParent(mid.rows, id);
    ParentTouches(mid, id);
    var after := db.(rows := ResumeParent(mid.rows, id).value.value);
    GrowsTrans(db, mid, after);
    FinalEffect(db.rows, id, r, mid.rows, after.rows);
  }

  lemma ResultTouches(db: Db, id: TaskId, r: HandlerResult)
    requires WellFormed(db) && id in db.rows && ApplyResult(db.rows, id, r).Ok?
    ensures r.newStatus.Known?
    ensures var after := db.(rows := ApplyResult(db.rows, id, r).value.value);
            WellFormed(after) && Grows(db, after) && ResultEffect(db.rows, id, r, after.rows)
  {
    if r.newStatus in {Known(Pending), Known(Waiting)} {
      QuietResultTouches(db, id, r);
    } else {
      FinalResultTouches(db, id, r);
    }
  }

  /** A handler's whole transaction is the effect of its calls followed by the effect of its result. */
  lemma CommitTouches(db: Db, now: Time, id: TaskId, ops: seq<Op>, r: HandlerResult)
    requires WellFormed(db) && id in db.rows && CommitRun(db, now, id, ops, r).Ok?
    ensures RunOps(db, now, ops).Ok? && r.newStatus.Known?
    ensures var mid := RunOps(db, now, ops).value.value;
            var end := CommitRun(db, now, id, ops, r).value.value;
            && WellFormed(mid) && Grows(db, mid) && AllTouched(db.rows, mid.rows)
            && WellFormed(end) && Grows(db, end) && Grows(mid, end)
            && end.nextId == mid.nextId && ResultEffect(mid.rows, id, r, end.rows)
  {
    OpsTouch(db, now, ops);
    var mid := RunOps(db, now, ops).value.value;
    ResultTouches(mid, id, r);
    GrowsTrans(db, mid, CommitRun(db, now, id, ops, r).value.value);
  }
}
