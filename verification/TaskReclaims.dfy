/** Tasks whose lease ran out send no notification: exactly when one of them, or a re-queued one, is left lying. */
module TaskReclaims {
  import opened TaskTable
  import opened TaskSystem
  import opened TaskInvariants
  import opened TaskScans

  /** A scan at time `now` would find `id`. */
  predicate Found(rows: Rows, now: Time, types: set<string>, id: TaskId) {
    id in rows && Claimable(rows[id], now, types)
  }

  ghost predicate SomethingToClaim(rows: Rows, now: Time, types: set<string>) {
    exists id :: Found(rows, now, types, id)
  }

  /** If there is a task to claim, the scanner will look for it. */
  ghost predicate NoneLying(s: System) {
    SomethingToClaim(s.db.rows, s.now, s.taskTypes) ==> ScanDue(s) || s.notices > 0
  }

  /** A running task of a handled type whose lease ends before `now`. */
  predicate Lapsed(rows: Rows, now: Time, types: set<string>, id: TaskId) {
    && id in rows && rows[id].status.Running? && rows[id].taskType in types
    && rows[id].leaseExpiresAt.Some? && rows[id].leaseExpiresAt.value < now
  }

  ghost predicate SomeLapsed(rows: Rows, now: Time, types: set<string>) {
    exists id :: Lapsed(rows, now, types, id)
  }

  /** Time passes the end of the lease of a handled task. */
  ghost predicate Expires(s: System, step: Step) {
    step.Advance? && SomeLapsed(s.db.rows, s.now + step.d, s.taskTypes)
  }

  /** A scan finds nothing in `b` that it would not have found in `a`. */
  ghost predicate NothingNew(a: Rows, b: Rows, now: Time, types: set<string>) {
    forall id :: Found(b, now, types, id) ==> Found(a, now, types, id)
  }

  lemma ApiFindsNothingNew(s: System, ops: seq<Op>)
    requires Inv(s) && Enabled(s, Api(ops)) && !RunOps(s.db, s.now, ops).value.notify
    ensures NothingNew(s.db.rows, RunOps(s.db, s.now, ops).value.value.rows, s.now, s.taskTypes)
  {
    var after := RunOps(s.db, s.now, ops).value.value.rows;
    OpsTouch(s.db, s.now, ops);
    OpsQuiet(s.db, s.now, ops);
    forall id | Found(after, s.now, s.taskTypes, id) ensures Found(s.db.rows, s.now, s.taskTypes, id) {
      if after[id].status.Running? {
        NewRowsDoNotRun(s.db, s.now, ops, id);
        assert Touched(s.db.rows[id], after[id]);
      }
    }
  }

  lemma OpRunsNothing(db: Db, now: Time, op: Op, id: TaskId)
    requires WellFormed(db) && RunOp(db, now, op).Ok? && id in RunOp(db, now, op).value.value.rows
    requires RunOp(db, now, op).value.value.rows[id].status.Running?
    ensures id in db.rows
  {
  }

  lemma {:induction false} NewRowsDoNotRun(db: Db, now: Time, ops: seq<Op>, id: TaskId)
    requires WellFormed(db) && RunOps(db, now, ops).Ok? && id in RunOps(db, now, ops).value.value.rows
    requires RunOps(db, now, ops).value.value.rows[id].status.Running?
    ensures id in db.rows && db.rows[id].status.Running?
    decreases |ops|
  {
    if ops != [] {
      var mid := RunOp(db, now, ops[0]).value.value;
      OpTouches(db, now, ops[0]);
      NewRowsDoNotRun(mid, now, ops[1..], id);
      OpRunsNothing(db, now, ops[0], id);
      assert Touched(db.rows[id], mid.rows[id]);
    }
  }

  /** A result other than `Pending` starts no run. */
  lemma ResultRunsNothing(a: Rows, id: TaskId, r: HandlerResult, b: Rows, j: TaskId)
    requires id in a && r.newStatus.Known? && !r.newStatus.status.Running? && ResultEffect(a, id, r, b)
    requires j in b && b[j].status.Running?
    ensures j in a && b[j] == a[j]
  {
  }

  lemma CommitRunsNothing(db: Db, now: Time, task: TaskId, ops: seq<Op>, r: HandlerResult, id: TaskId)
    requires WellFormed(db) && task in db.rows && CommitRun(db, now, task, ops, r).Ok?
    requires id in CommitRun(db, now, task, ops, r).value.value.rows
    requires CommitRun(db, now, task, ops, r).value.value.rows[id].status.Running?
    ensures id in db.rows && CommitRun(db, now, task, ops, r).value.value.rows[id] == db.rows[id]
  {
    CommitTouches(db, now, task, ops, r);
    var mid := RunOps(db, now, ops).value.value;
    assert !r.newStatus.status.Running? by { ResultFaults(mid, task, r); }
    ResultRunsNothing(mid.rows, task, r, CommitRun(db, now, task, ops, r).value.value.rows, id);
    NewRowsDoNotRun(db, now, ops, id);
    assert Touched(db.rows[id], mid.rows[id]);
  }

  lemma CommitFindsNothingNew(s: System, v: WorkerId)
    requires Inv(s) && Enabled(s, Commit(v)) && !CommitOf(s, v).value.notify && !Requeues(s, Commit(v))
    ensures NothingNew(s.db.rows, Do(s, Commit(v)).db.rows, s.now, s.taskTypes)
  {
    ProcessorHolds(s, v);
    var h := s.ctl[v].hold;
    if h.decision.value.result.newStatus == Known(Pending) {
      RequeueIsSilent(s, v);
    }
    CommitQuiet(s.db, s.now, h.task, h.decision.value.ops, h.decision.value.result);
    var after := Do(s, Commit(v)).db.rows;
    forall id | Found(after, s.now, s.taskTypes, id) ensures Found(s.db.rows, s.now, s.taskTypes, id) {
      if after[id].status.Running? {
        CommitRunsNothing(s.db, s.now, h.task, h.decision.value.ops, h.decision.value.result, id);
      }
    }
  }

  lemma NothingNewKeeps(s: System, t: System)
    requires NoneLying(s) && NothingNew(s.db.rows, t.db.rows, s.now, s.taskTypes)
    requires t.now == s.now && t.taskTypes == s.taskTypes && (ScanDue(s) ==> ScanDue(t)) && s.notices <= t.notices
    ensures NoneLying(t)
  {
    if id :| Found(t.db.rows, t.now, t.taskTypes, id) {
      assert Found(s.db.rows, s.now, s.taskTypes, id);
    }
  }

  lemma CommitLeavesLying(s: System, v: WorkerId)
    requires Inv(s) && NoneLying(s) && Enabled(s, Commit(v))
    ensures !NoneLying(Do(s, Commit(v))) <==> Asleep(s) && Requeues(s, Commit(v))
  {
    if s.ctl[v].hold.decision.value.result.newStatus == Known(Pending) {
      RequeueIsSilent(s, v);
    }
    if Requeues(s, Commit(v)) {
      RequeuedIsPending(s, v);
      assert Found(Do(s, Commit(v)).db.rows, s.now, s.taskTypes, s.ctl[v].hold.task);
    } else if !CommitOf(s, v).value.notify {
      CommitFindsNothingNew(s, v);
      NothingNewKeeps(s, Do(s, Commit(v)));
    }
  }

  lemma AdvanceLeavesLying(s: System, d: Time)
    requires NoneLying(s)
    ensures !NoneLying(Do(s, Advance(d))) <==> Asleep(s) && Expires(s, Advance(d))
  {
    if Asleep(s) {
      var later := s.now + d;
      forall id ensures Found(s.db.rows, later, s.taskTypes, id) <==> Lapsed(s.db.rows, later, s.taskTypes, id) {
        assert !Found(s.db.rows, s.now, s.taskTypes, id);
      }
    }
  }

  /** Steps that write no row but leases, and those that move the scanner. */
  lemma OtherStepKeepsNoneLying(s: System, step: Step)
    requires Inv(s) && NoneLying(s) && Enabled(s, step) && !step.Commit? && !step.Advance? && !step.Api?
    ensures NoneLying(Do(s, step))
  {
    var t := Do(s, step);
    match step
    case NoHandler(ok) => NoHandlerDisabled(s, ok);
    case ScanEmpty =>
      forall id ensures !Found(t.db.rows, t.now, t.taskTypes, id) {
        assert id in t.db.rows ==> !Claimable(t.db.rows[id], s.now, s.taskTypes);
      }
    case _ =>
      if !ScanDue(t) {
        NothingNewKeeps(s, t);
      }
  }

  /**
   The exact law of every step, for any number of workers: a task to claim is left lying if and only if the scanner sleeps with no
   notification outstanding while time passes the lease of a handled task, or a result `Pending` re-queues one.
   */
  lemma StepLeavesLying(s: System, step: Step)
    requires Inv(s) && NoneLying(s) && Enabled(s, step)
    ensures !NoneLying(Do(s, step)) <==> Asleep(s) && (Expires(s, step) || Requeues(s, step))
  {
    match step
    case Advance(d) => AdvanceLeavesLying(s, d);
    case Commit(v) => CommitLeavesLying(s, v);
    case Api(ops) =>
      if !RunOps(s.db, s.now, ops).value.notify {
        ApiFindsNothingNew(s, ops);
        NothingNewKeeps(s, Do(s, step));
      }
    case _ => OtherStepKeepsNoneLying(s, step);
  }

  ghost predicate LeavesLying(states: seq<System>, steps: seq<Step>, i: nat)
    requires i < |states| && i < |steps|
  {
    Asleep(states[i]) && (Expires(states[i], steps[i]) || Requeues(states[i], steps[i]))
  }

  ghost predicate NoneLyingAt(states: seq<System>, i: nat)
    requires i < |states|
  {
    NoneLying(states[i])
  }

  /** Over any run: every task to claim is being looked for throughout, if and only if no such step is made. */
  lemma {:induction false} ReclaimExact(states: seq<System>, steps: seq<Step>, i: nat)
    requires IsRun(states, steps) && i < |states|
    ensures (forall k :: 0 <= k <= i ==> NoneLyingAt(states, k)) <==> (forall k :: 0 <= k < i ==> !LeavesLying(states, steps, k))
  {
    if i == 0 {
      assert ScanDue(states[0]);
    } else {
      ReclaimExact(states, steps, i - 1);
      RunInv(states, steps, i - 1);
      assert StepAt(states, steps, i - 1);
      if NoneLyingAt(states, i - 1) {
        StepLeavesLying(states[i - 1], steps[i - 1]);
        assert NoneLyingAt(states, i) <==> !LeavesLying(states, steps, i - 1);
      }
    }
  }
}
