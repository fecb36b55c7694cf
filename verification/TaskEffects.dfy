/** What each transaction on the tasks table does to every field of every row. */
module TaskEffects {
  import opened Results
  import opened TaskTable
  import opened TaskScans

  /** The columns that no statement but INSERT ever writes. */
  predicate SameOrigin(a: Task, b: Task) {
    a.taskType == b.taskType && a.parentId == b.parentId && a.createdAt == b.createdAt
  }

  /** Every row but `id` is as it was, and no row has come or gone. */
  ghost predicate OnlyRow(a: Rows, b: Rows, id: TaskId) {
    b.Keys == a.Keys && forall j :: j in a && j != id ==> b[j] == a[j]
  }

  // ---------------------------------------------------------------------- creation

  /** One more row, numbered by the sequence, and nothing else. */
  ghost predicate Added(a: Db, b: Db) {
    && b.nextId == a.nextId + 1 && b.rows.Keys == a.rows.Keys + {a.nextId}
    && forall j :: j in a.rows && j != a.nextId ==> b.rows[j] == a.rows[j]
  }

  predicate FreshRow(t: Task, taskType: string, doc: Option<Json>, parent: Option<TaskId>, now: Time) {
    && t.taskType == taskType && t.parentId == parent && t.createdAt == now
    && t.state == (if doc.Some? then doc.value else Json(None, ""))
    && t.status == Pending && t.workerId.None? && t.leaseExpiresAt.None? && t.error.None?
  }

  lemma CreateExact(db: Db, now: Time, taskType: string, doc: Option<Json>)
    ensures var r := RunOp(db, now, Create(taskType, doc));
      if taskType == "" then r == Err(TypeCheck)
      else r.Ok? && r.value.notify && Added(db, r.value.value) && FreshRow(r.value.value.rows[db.nextId], taskType, doc, None, now)
  {
  }

  lemma CreateChildExact(db: Db, now: Time, parent: TaskId, taskType: string, doc: Option<Json>)
    ensures var r := RunOp(db, now, CreateChild(parent, taskType, doc));
      if taskType == "" then r == Err(TypeCheck)
      else if parent !in db.rows then r == Err(MissingParent)
      else r.Ok? && r.value.notify && Added(db, r.value.value) && FreshRow(r.value.value.rows[db.nextId], taskType, doc, Some(parent), now)
  {
  }

  // ------------------------------------------------------------------------ resume

  /** The row is pending with payload `doc`, and in every other column as it was. */
  predicate ResumedWith(a: Task, b: Task, doc: Json) {
    && SameOrigin(a, b) && b.status == Pending && b.state == doc
    && b.workerId == a.workerId && b.leaseExpiresAt == a.leaseExpiresAt && b.error == a.error
  }

  predicate Waits(rows: Rows, id: TaskId) {
    id in rows && rows[id].status == Waiting
  }

  lemma ResumeExact(db: Db, now: Time, id: TaskId)
    requires WellFormed(db)
    ensures var r := RunOp(db, now, ResumeTask(id));
      && r.Ok? && r.value.value.nextId == db.nextId && (r.value.notify <==> Waits(db.rows, id))
      && (if Waits(db.rows, id) then
            OnlyRow(db.rows, r.value.value.rows, id) && ResumedWith(db.rows[id], r.value.value.rows[id], db.rows[id].state)
          else r.value.value.rows == db.rows)
  {
    ResumeTouches(db, id, None);
  }

  lemma ResumeWithStateExact(db: Db, now: Time, id: TaskId, doc: Json)
    requires WellFormed(db)
    ensures var r := RunOp(db, now, ResumeTaskWithState(id, doc));
      && r.Ok? && r.value.value.nextId == db.nextId && (r.value.notify <==> Waits(db.rows, id))
      && (if Waits(db.rows, id) then
            OnlyRow(db.rows, r.value.value.rows, id) && ResumedWith(db.rows[id], r.value.value.rows[id], doc)
          else r.value.value.rows == db.rows)
  {
    ResumeTouches(db, id, Some(doc));
  }

  // ------------------------------------------------------------------------ cancel

  /** A chain of parents and children from `root` down to `id`. */
  ghost predicate Chain(rows: Rows, path: seq<TaskId>, root: TaskId, id: TaskId) {
    && path != [] && path[0] == root && path[|path| - 1] == id
    && forall i :: 0 <= i < |path| - 1 ==> IsChild(rows, path[i], path[i + 1])
  }

  ghost predicate Below(rows: Rows, root: TaskId, id: TaskId) {
    exists path :: Chain(rows, path, root, id)
  }

  lemma {:induction false} ChainDescends(rows: Rows, path: seq<TaskId>, root: TaskId, id: TaskId)
    requires ParentsBelow(rows) && Chain(rows, path, root, id)
    ensures Descends(rows, root, id)
    decreases |path|
  {
    if |path| > 1 {
      var n := |path| - 1;
      assert IsChild(rows, path[n - 1], path[n]);
      assert Chain(rows, path[..n], root, path[n - 1]);
      ChainDescends(rows, path[..n], root, path[n - 1]);
    }
  }

  lemma {:induction false} DescendsChain(rows: Rows, root: TaskId, id: TaskId) returns (path: seq<TaskId>)
    requires Descends(rows, root, id)
    ensures Chain(rows, path, root, id)
    decreases id
  {
    if id == root {
      path := [root];
    } else {
      var above := DescendsChain(rows, root, rows[id].parentId.value);
      path := above + [id];
      forall i | 0 <= i < |path| - 1 ensures IsChild(rows, path[i], path[i + 1]) {
        if i < |above| - 1 {
          assert IsChild(rows, above[i], above[i + 1]);
        }
      }
    }
  }

  /** Following parent links upwards finds exactly the tasks that chains of children reach. */
  lemma DescendsIsBelow(rows: Rows, root: TaskId, id: TaskId)
    requires ParentsBelow(rows)
    ensures Descends(rows, root, id) <==> Below(rows, root, id)
  {
    if Descends(rows, root, id) {
      var path := DescendsChain(rows, root, id);
    } else if Below(rows, root, id) {
      var path :| Chain(rows, path, root, id);
      ChainDescends(rows, path, root, id);
    }
  }

  predicate CancelledFrom(a: Task, b: Task) {
    && SameOrigin(a, b) && b.state == a.state && b.status == Failed && b.error == Some("cancelled")
    && b.workerId.None? && b.leaseExpiresAt.None?
  }

  /** The row of `j` after cancelling from `root`. */
  ghost predicate CancelRow(a: Rows, b: Rows, root: TaskId, j: TaskId)
    requires j in a && j in b
  {
    if Below(a, root, j) && a[j].status in {Pending, Running, Waiting} then CancelledFrom(a[j], b[j]) else b[j] == a[j]
  }

  lemma CancelRowExact(db: Db, root: TaskId, j: TaskId)
    requires WellFormed(db) && j in db.rows
    ensures CancelRow(db.rows, CancelTree(db.rows, root), root, j)
  {
    DescendsIsBelow(db.rows, root, j);
  }

  /** Cancelling fails exactly the unfinished tasks that chains of children reach from the root, and touches nothing else. */
  lemma CancelExact(db: Db, now: Time, root: TaskId)
    requires WellFormed(db)
    ensures var r := RunOp(db, now, Cancel(root));
      && r.Ok? && !r.value.notify && r.value.value.nextId == db.nextId && r.value.value.rows.Keys == db.rows.Keys
      && forall j :: j in db.rows ==> CancelRow(db.rows, r.value.value.rows, root, j)
  {
    forall j | j in db.rows ensures CancelRow(db.rows, CancelTree(db.rows, root), root, j) {
      CancelRowExact(db, root, j);
    }
  }

  /** A list of calls is its first part and then, if that succeeded, its second. */
  lemma {:induction false} CallsInOrder(db: Db, now: Time, xs: seq<Op>, ys: seq<Op>)
    ensures RunOps(db, now, xs + ys) ==
      match RunOps(db, now, xs)
      case Err(e) => Err(e)
      case Ok(first) =>
        match RunOps(first.value, now, ys)
        case Err(e) => Err(e)
        case Ok(second) => Ok(Written(second.value, first.notify || second.notify))
    decreases |xs|
  {
    if xs == [] {
      assert xs + ys == ys;
    } else {
      assert (xs + ys)[0] == xs[0] && (xs + ys)[1..] == xs[1..] + ys;
      if RunOp(db, now, xs[0]).Ok? {
        CallsInOrder(RunOp(db, now, xs[0]).value.value, now, xs[1..], ys);
      }
    }
  }

  // ------------------------------------------------------------ claims and renewals

  /** A claim writes status, worker and lease, and no other column. */
  lemma ClaimExact(t: Task, w: WorkerId, lease: Time)
    ensures var b := ClaimedBy(t, w, lease);
      && SameOrigin(t, b) && b.state == t.state && b.error == t.error
      && b.status == Running && b.workerId == Some(w) && b.leaseExpiresAt == Some(lease)
  {
  }

  /** A renewal writes the lease of a row that is running under this very worker, and nothing else. */
  lemma RenewExact(rows: Rows, id: TaskId, w: WorkerId, lease: Time)
    ensures var b := Renew(rows, id, w, lease);
      if id in rows && rows[id].status == Running && rows[id].workerId == Some(w) then
        && OnlyRow(rows, b, id) && SameOrigin(rows[id], b[id]) && b[id].state == rows[id].state && b[id].error == rows[id].error
        && b[id].status == Running && b[id].workerId == Some(w) && b[id].leaseExpiresAt == Some(lease)
      else b == rows
  {
  }

  // ------------------------------------------------------------------------- commit

  /** What a result leaves in the row of its task: status, payload and error as returned, no worker, no lease. */
  predicate ResultIn(a: Task, b: Task, r: HandlerResult) {
    && SameOrigin(a, b) && b.workerId.None? && b.leaseExpiresAt.None? && r.newStatus == Known(b.status)
    && (b.status == Failed ==> b.error == Some(r.error) && b.state == a.state)
    && (b.status != Failed ==> b.error.None? && b.state == (if r.newState.Some? then r.newState.value else a.state))
  }

  /** The parent that a final result finds waiting. */
  function Woken(rows: Rows, id: TaskId, r: HandlerResult): Option<TaskId>
    requires id in rows
  {
    if r.newStatus in {Known(Completed), Known(Failed)} && rows[id].parentId.Some? && Waits(rows, rows[id].parentId.value)
    then rows[id].parentId else None
  }

  ghost predicate RestIn(a: Rows, id: TaskId, r: HandlerResult, b: Rows)
    requires id in a
  {
    && b.Keys == a.Keys
    && forall j :: j in a && j != id ==>
         if Woken(a, id, r) == Some(j) then ResumedWith(a[j], b[j], a[j].state) else b[j] == a[j]
  }

  lemma QuietResultExact(db: Db, id: TaskId, r: HandlerResult)
    requires WellFormed(db) && id in db.rows && ApplyResult(db.rows, id, r).Ok? && r.newStatus in {Known(Pending), Known(Waiting)}
    ensures var w := ApplyResult(db.rows, id, r).value;
      id in w.value && ResultIn(db.rows[id], w.value[id], r) && RestIn(db.rows, id, r, w.value) && !w.notify
  {
    assert RowOk(db.rows[id]);
  }

  lemma FinalRow(db: Db, id: TaskId, r: HandlerResult)
    requires WellFormed(db) && id in db.rows && ApplyResult(db.rows, id, r).Ok? && r.newStatus in {Known(Completed), Known(Failed)}
    ensures var t := ResultRow(db.rows[id], r);
      && ResultIn(db.rows[id], t, r) && LeaseCheck(t) && ErrorCheck(t)
      && ApplyResult(db.rows, id, r) == ResumeParent(db.rows[id := t], id)
  {
    assert RowOk(db.rows[id]);
  }

  lemma WakeExact(rows: Rows, id: TaskId, p: TaskId)
    requires id in rows && rows[id].parentId == Some(p) && p != id && (Waits(rows, p) ==> LeaseCheck(rows[p]) && ErrorCheck(rows[p]))
    ensures var w := ResumeParent(rows, id);
      && w.Ok? && (w.value.notify <==> Waits(rows, p))
      && (if Waits(rows, p) then OnlyRow(rows, w.value.value, p) && ResumedWith(rows[p], w.value.value[p], rows[p].state)
          else w.value.value == rows)
  {
  }

  lemma FinalResultExact(db: Db, id: TaskId, r: HandlerResult)
    requires WellFormed(db) && id in db.rows && ApplyResult(db.rows, id, r).Ok? && r.newStatus in {Known(Completed), Known(Failed)}
    ensures var w := ApplyResult(db.rows, id, r).value;
      && id in w.value && ResultIn(db.rows[id], w.value[id], r) && RestIn(db.rows, id, r, w.value)
      && (w.notify <==> Woken(db.rows, id, r).Some?)
  {
    FinalRow(db, id, r);
    if db.rows[id].parentId.Some? {
      var p := db.rows[id].parentId.value;
      assert p in db.rows && p < id && RowOk(db.rows[p]);
      WakeExact(db.rows[id := ResultRow(db.rows[id], r)], id, p);
    }
  }

  /**
   The end of a handler run, column by column: its own row holds what it returned, a waiting parent of an ended task is pending, every
   other row is as the handler's calls left it, and a notification goes out exactly if a call sent one or a parent was woken.
   */
  lemma CommitExact(db: Db, now: Time, id: TaskId, ops: seq<Op>, r: HandlerResult)
    requires WellFormed(db) && id in db.rows && CommitRun(db, now, id, ops, r).Ok?
    ensures RunOps(db, now, ops).Ok?
    ensures var mid, end := RunOps(db, now, ops).value.value, CommitRun(db, now, id, ops, r).value;
      && id in mid.rows && id in end.value.rows && end.value.nextId == mid.nextId
      && r.newStatus in {Known(Pending), Known(Waiting), Known(Completed), Known(Failed)}
      && ResultIn(mid.rows[id], end.value.rows[id], r) && RestIn(mid.rows, id, r, end.value.rows)
      && (end.notify <==> SomeCallNotifies(db, now, ops) || Woken(mid.rows, id, r).Some?)
  {
    OpsTouch(db, now, ops);
    OpsNotify(db, now, ops);
    var mid := RunOps(db, now, ops).value.value;
    assert id in mid.rows;
    ResultFaults(mid, id, r);
    if r.newStatus in {Known(Pending), Known(Waiting)} {
      QuietResultExact(mid, id, r);
    } else {
      FinalResultExact(mid, id, r);
    }
  }
}
