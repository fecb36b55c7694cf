/**
 The task API, the claim of the scanner and the result handling of the workers, as code that updates the table in place.
 Every method is tied to the statement functions of `TaskTable`, which the step system is built from.
 */
module TaskStore {
  import opened Results
  import opened TaskTable

  // --------------------------------------------------- cancelling a forest of tasks

  predicate DescendsFromAny(rows: Rows, roots: set<TaskId>, id: TaskId) {
    exists r :: r in roots && Descends(rows, r, id)
  }

  function CancelForest(rows: Rows, roots: set<TaskId>): Rows {
    map id | id in rows ::
      if DescendsFromAny(rows, roots, id) && !Finished(rows[id]) then Cancelled(rows[id]) else rows[id]
  }

  predicate SameParents(a: Rows, b: Rows) {
    a.Keys == b.Keys && forall id :: id in a ==> a[id].parentId == b[id].parentId
  }

  lemma {:induction false} DescendsSame(a: Rows, b: Rows, root: TaskId, id: TaskId)
    requires SameParents(a, b)
    ensures Descends(a, root, id) == Descends(b, root, id)
    decreases id
  {
    if id in a && a[id].parentId.Some? && a[id].parentId.value < id {
      DescendsSame(a, b, root, a[id].parentId.value);
    }
  }

  /** A proper descendant descends from a child. */
  lemma {:induction false} DescendsViaChild(rows: Rows, root: TaskId, id: TaskId) returns (c: TaskId)
    requires ParentsBelow(rows) && Descends(rows, root, id) && id != root
    ensures IsChild(rows, root, c) && Descends(rows, c, id)
    decreases id
  {
    var p := rows[id].parentId.value;
    if p == root {
      c := id;
    } else {
      c := DescendsViaChild(rows, root, p);
    }
  }

  /** A descendant of a child is a proper descendant. */
  lemma {:induction false} ChildDescends(rows: Rows, root: TaskId, c: TaskId, id: TaskId)
    requires ParentsBelow(rows) && IsChild(rows, root, c) && Descends(rows, c, id)
    ensures Descends(rows, root, id) && root < id
    decreases id
  {
    if id != c {
      ChildDescends(rows, root, c, rows[id].parentId.value);
    }
  }

  /** Cancelling one more tree of a partly cancelled forest. */
  lemma CancelOneMore(rows: Rows, done: set<TaskId>, c: TaskId)
    ensures CancelTree(CancelForest(rows, done), c) == CancelForest(rows, done + {c})
  {
    var mid := CancelForest(rows, done);
    forall id | id in rows
      ensures CancelTree(mid, c)[id] == CancelForest(rows, done + {c})[id]
    {
      DescendsSame(rows, mid, c, id);
      if DescendsFromAny(rows, done, id) {
        var r :| r in done && Descends(rows, r, id);
        assert r in done + {c};
      }
      if Descends(rows, c, id) {
        assert c in done + {c};
      }
    }
  }

  /** The trees of all children, and then the root itself, make the whole tree. */
  lemma ForestAndRoot(rows: Rows, root: TaskId, children: set<TaskId>)
    requires ParentsBelow(rows) && forall c :: c in children <==> IsChild(rows, root, c)
    ensures var below := CancelForest(rows, children);
            CancelTree(rows, root) ==
              if root in below && !Finished(below[root]) then below[root := Cancelled(below[root])] else below
  {
    forall id | id in rows
      ensures Descends(rows, root, id) <==> id == root || DescendsFromAny(rows, children, id)
      ensures id == root ==> !DescendsFromAny(rows, children, id)
    {
      DescendsSplits(rows, root, children, id);
    }
  }

  lemma DescendsSplits(rows: Rows, root: TaskId, children: set<TaskId>, id: TaskId)
    requires ParentsBelow(rows) && forall c :: c in children <==> IsChild(rows, root, c)
    ensures Descends(rows, root, id) <==> id == root || DescendsFromAny(rows, children, id)
    ensures id == root ==> !DescendsFromAny(rows, children, id)
  {
    if Descends(rows, root, id) && id != root {
      var c := DescendsViaChild(rows, root, id);
      assert c in children;
    }
    if DescendsFromAny(rows, children, id) {
      var c :| c in children && Descends(rows, c, id);
      ChildDescends(rows, root, c, id);
    }
  }

  lemma CancelNothing(rows: Rows)
    ensures CancelForest(rows, {}) == rows
  {
  }

  lemma ForestWellFormed(db: Db, roots: set<TaskId>)
    requires WellFormed(db)
    ensures WellFormed(db.(rows := CancelForest(db.rows, roots))) && SameParents(db.rows, CancelForest(db.rows, roots))
  {
    forall id | id in db.rows ensures RowOk(CancelForest(db.rows, roots)[id]) {
      assert RowOk(db.rows[id]);
    }
  }

  // ------------------------------------------------------------------ the table

  /** A call of the task API did what the statement functions say: all of it, or nothing and a fault. */
  predicate Performed(before: Db, noticesBefore: nat, now: Time, op: Op, fault: Option<Fault>, after: Db, noticesAfter: nat) {
    match RunOp(before, now, op)
    case Ok(w) => fault.None? && after == w.value && noticesAfter == noticesBefore + if w.notify then 1 else 0
    case Err(e) => fault == Some(e) && after == before && noticesAfter == noticesBefore
  }

  class Store {
    var rows: Rows
    var nextId: TaskId
    var notices: nat

    function Table(): Db
      reads this
    {
      Db(rows, nextId)
    }

    constructor ()
      ensures Table() == Db(map[], 1) && notices == 0 && WellFormed(Table())
    {
      rows := map[];
      nextId := 1;
      notices := 0;
    }

    /** One UPDATE of an existing row. */
    method Set(id: TaskId, t: Task) returns (fault: Option<Fault>)
      modifies this`rows
      ensures SetRow(old(rows), id, t) == if fault.None? then Ok(rows) else Err(fault.value)
      ensures fault.Some? ==> rows == old(rows)
    {
      if LeaseCheck(t) && ErrorCheck(t) {
        rows := rows[id := t];
        fault := None;
      } else {
        fault := Some(RowCheck);
      }
    }

    method Create(now: Time, taskType: string, state: Option<Json>) returns (id: TaskId, fault: Option<Fault>)
      modifies this
      ensures Performed(old(Table()), old(notices), now, Op.Create(taskType, state), fault, Table(), notices)
      ensures fault.None? ==> id == old(nextId)
    {
      id := nextId;
      if taskType == "" {
        fault := Some(TypeCheck);
        return;
      }
      var doc := if state.Some? then state.value else EMPTY_OBJECT;
      rows := rows[id := Task(taskType, doc, Pending, None, None, None, None, now)];
      nextId := nextId + 1;
      notices := notices + 1;
      fault := None;
    }

    method CreateChild(now: Time, parent: TaskId, taskType: string, state: Option<Json>) returns (id: TaskId, fault: Option<Fault>)
      modifies this
      ensures Performed(old(Table()), old(notices), now, Op.CreateChild(parent, taskType, state), fault, Table(), notices)
      ensures fault.None? ==> id == old(nextId)
    {
      id := nextId;
      if taskType == "" {
        fault := Some(TypeCheck);
        return;
      }
      if parent !in rows {
        fault := Some(MissingParent);
        return;
      }
      var doc := if state.Some? then state.value else EMPTY_OBJECT;
      rows := rows[id := Task(taskType, doc, Pending, None, None, None, Some(parent), now)];
      nextId := nextId + 1;
      notices := notices + 1;
      fault := None;
    }

    /** `Resume` and `ResumeWithState`: the boolean says whether the task was waiting. */
    method ResumeTask(id: TaskId, state: Option<Json>) returns (resumed: bool, fault: Option<Fault>)
      modifies this
      ensures match Resume(old(rows), id, state)
              case Ok(w) =>
                && fault.None? && rows == w.value && resumed == w.notify && nextId == old(nextId)
                && notices == old(notices) + if w.notify then 1 else 0
              case Err(e) => fault == Some(e) && Table() == old(Table()) && notices == old(notices)
    {
      resumed, fault := false, None;
      if id in rows && rows[id].status.Waiting? {
        fault := Set(id, rows[id].(status := Pending, state := if state.Some? then state.value else rows[id].state));
        if fault.None? {
          notices := notices + 1;
          resumed := true;
        }
      }
    }

    /** `cancelRecursive`: children first, in whatever order the database lists them, then the task itself. */
    method CancelRecursive(taskId: TaskId)
      requires WellFormed(Table())
      modifies this`rows
      ensures rows == CancelTree(old(rows), taskId)
      decreases if taskId < nextId then nextId - taskId else 0, 1
    {
      var childIds := set c | c in rows && rows[c].parentId == Some(taskId);
      CancelAll(taskId, childIds);
      ForestAndRoot(old(rows), taskId, childIds);
      if taskId in rows && !Finished(rows[taskId]) {
        rows := rows[taskId := Cancelled(rows[taskId])];
      }
    }

    /** The loop of `cancelRecursive` over the children of `taskId`. */
    method CancelAll(ghost taskId: TaskId, childIds: set<TaskId>)
      requires WellFormed(Table()) && forall c :: c in childIds ==> taskId < c < nextId
      modifies this`rows
      ensures rows == CancelForest(old(rows), childIds)
      decreases if taskId < nextId then nextId - taskId else 0, 0
    {
      ghost var before := rows;
      var todo, done := childIds, {};
      CancelNothing(before);
      while todo != {}
        invariant done + todo == childIds
        invariant rows == CancelForest(before, done)
        decreases |todo|
      {
        var c :| c in todo;
        ForestWellFormed(Db(before, nextId), done);
        CancelRecursive(c);
        CancelOneMore(before, done, c);
        todo, done := todo - {c}, done + {c};
      }
      assert done == childIds;
    }

    /** The claim statement: the oldest claimable row, if any, goes to `w`. */
    method Claim(now: Time, w: WorkerId, lease: Time, types: set<string>) returns (claimed: Option<TaskId>)
      modifies this`rows
      ensures claimed.None? ==> NothingClaimable(old(rows), now, types) && rows == old(rows)
      ensures claimed.Some? ==>
        && Oldest(old(rows), now, types, claimed.value)
        && rows == old(rows)[claimed.value := ClaimedBy(old(rows)[claimed.value], w, lease)]
    {
      claimed := None;
      var todo := rows.Keys;
      while todo != {}
        invariant todo <= rows.Keys
        invariant claimed.None? ==> forall j :: j in rows && j !in todo ==> !Claimable(rows[j], now, types)
        invariant claimed.Some? ==>
          && claimed.value in rows && Claimable(rows[claimed.value], now, types)
          && forall j :: j in rows && j !in todo && Claimable(rows[j], now, types) ==>
                rows[claimed.value].createdAt <= rows[j].createdAt
        decreases |todo|
      {
        var j :| j in todo;
        todo := todo - {j};
        if Claimable(rows[j], now, types) && (claimed.None? || rows[j].createdAt < rows[claimed.value].createdAt) {
          claimed := Some(j);
        }
      }
      if claimed.Some? {
        rows := rows[claimed.value := ClaimedBy(rows[claimed.value], w, lease)];
      }
    }

    method RenewLease(id: TaskId, w: WorkerId, lease: Time) returns (renewed: bool)
      modifies this`rows
      ensures rows == Renew(old(rows), id, w, lease)
      ensures renewed <==> OwnedBy(old(rows), id, w)
    {
      renewed := id in rows && rows[id].workerId == Some(w) && rows[id].status.Running?;
      if renewed {
        rows := rows[id := rows[id].(leaseExpiresAt := Some(lease))];
      }
    }

    /** `updateTaskState` and `completeTask`. */
    method ReleaseTask(id: TaskId, status: Status, state: Option<Json>) returns (fault: Option<Fault>)
      modifies this`rows
      ensures Release(old(rows), id, status, state) == if fault.None? then Ok(rows) else Err(fault.value)
      ensures fault.Some? ==> rows == old(rows)
    {
      fault := None;
      if id in rows {
        var t := rows[id].(status := status, workerId := None, leaseExpiresAt := None);
        if state.Some? {
          t := t.(state := state.value);
        }
        fault := Set(id, t);
      }
    }

    method FailTask(id: TaskId, message: string) returns (fault: Option<Fault>)
      modifies this`rows
      ensures Fail(old(rows), id, message) == if fault.None? then Ok(rows) else Err(fault.value)
      ensures fault.Some? ==> rows == old(rows)
    {
      fault := None;
      if id in rows {
        fault := Set(id, rows[id].(status := Failed, error := Some(message), workerId := None, leaseExpiresAt := None));
      }
    }

    method MaybeResumeParent(child: TaskId) returns (fault: Option<Fault>)
      modifies this
      ensures match ResumeParent(old(rows), child)
              case Ok(w) =>
                && fault.None? && rows == w.value && nextId == old(nextId)
                && notices == old(notices) + if w.notify then 1 else 0
              case Err(e) => fault == Some(e)
    {
      if child !in rows {
        fault := Some(NoSuchTask);
        return;
      }
      fault := None;
      if rows[child].parentId.Some? {
        var resumed;
        resumed, fault := ResumeTask(rows[child].parentId.value, None);
      }
    }

    /** `applyResult`, inside the handler's transaction; a fault leaves the rollback to the caller. */
    method ApplyHandlerResult(id: TaskId, r: HandlerResult) returns (fault: Option<Fault>)
      modifies this
      ensures match ApplyResult(old(rows), id, r)
              case Ok(w) =>
                && fault.None? && rows == w.value && nextId == old(nextId)
                && notices == old(notices) + if w.notify then 1 else 0
              case Err(e) => fault == Some(e)
    {
      match r.newStatus {
        case Known(Pending) => fault := ReleaseTask(id, Pending, r.newState);
        case Known(Waiting) => fault := ReleaseTask(id, Waiting, r.newState);
        case Known(Completed) =>
          fault := ReleaseTask(id, Completed, r.newState);
          if fault.None? {
            fault := MaybeResumeParent(id);
          }
        case Known(Failed) =>
          fault := FailTask(id, r.error);
          if fault.None? {
            fault := MaybeResumeParent(id);
          }
        case Known(Running) => fault := Some(BadStatus);
        case Unknown(_) => fault := Some(BadStatus);
      }
    }

    /** One call of the task API, and whether it sent a notification. */
    method Call(now: Time, op: Op) returns (fault: Option<Fault>, notified: bool)
      requires WellFormed(Table())
      modifies this
      ensures match RunOp(old(Table()), now, op)
              case Ok(w) => fault.None? && Table() == w.value && notified == w.notify
              case Err(e) => fault == Some(e)
    {
      var before := notices;
      match op {
        case Create(taskType, doc) =>
          var id;
          id, fault := Create(now, taskType, doc);
        case CreateChild(parent, taskType, doc) =>
          var id;
          id, fault := CreateChild(now, parent, taskType, doc);
        case ResumeTask(id) =>
          var resumed;
          resumed, fault := ResumeTask(id, None);
        case ResumeTaskWithState(id, doc) =>
          var resumed;
          resumed, fault := ResumeTask(id, Some(doc));
        case Cancel(id) =>
          CancelRecursive(id);
          fault := None;
      }
      notified := notices > before;
    }

    /** The calls of one handler, up to the first fault. */
    method RunCalls(now: Time, ops: seq<Op>) returns (fault: Option<Fault>, notified: bool)
      requires WellFormed(Table())
      modifies this
      ensures match RunOps(old(Table()), now, ops)
              case Ok(w) => fault.None? && Table() == w.value && notified == w.notify
              case Err(e) => fault == Some(e)
      decreases |ops|
    {
      fault, notified := None, false;
      if ops != [] {
        var more: bool;
        ghost var before := Table();
        fault, notified := Call(now, ops[0]);
        if fault.None? {
          OpTouches(before, now, ops[0]);
          fault, more := RunCalls(now, ops[1..]);
          notified := notified || more;
        }
      }
    }

    /**
     `processTask` from the handler's calls to its end: everything is committed, with at most one notification, or everything is
     rolled back.
     */
    method FinishRun(now: Time, id: TaskId, ops: seq<Op>, r: HandlerResult) returns (committed: bool)
      requires WellFormed(Table())
      modifies this
      ensures match CommitRun(old(Table()), now, id, ops, r)
              case Ok(w) => committed && Table() == w.value && notices == old(notices) + if w.notify then 1 else 0
              case Err(_) => !committed && Table() == old(Table()) && notices == old(notices)
    {
      var savedRows, savedId, savedNotices := rows, nextId, notices;
      var fault, notified := RunCalls(now, ops);
      if fault.None? {
        var sent := notices;
        fault := ApplyHandlerResult(id, r);
        notified := notified || notices > sent;
      }
      committed := fault.None?;
      if committed {
        notices := savedNotices + if notified then 1 else 0;
      } else {
        rows, nextId, notices := savedRows, savedId, savedNotices;
      }
    }
  }
}
