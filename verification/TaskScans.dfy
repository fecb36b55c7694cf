/** A pending task is never overlooked: a scan is due, or a notification is still to come. */
module TaskScans {
  import opened Results
  import opened TaskTable
  import opened TaskSystem
  import opened TaskInvariants

  /** The scanner will look at the table again without being told to. */
  predicate ScanDue(s: System) {
    s.scanner != Top(false)
  }

  ghost predicate NoOverlooked(s: System) {
    (exists id :: PendingOf(s.db.rows, s.taskTypes, id)) ==> ScanDue(s) || s.notices > 0
  }

  /** Every pending row of `b` was already pending in `a`. */
  ghost predicate NoNewPending(a: Rows, b: Rows) {
    forall id :: id in b && b[id].status.Pending? ==> id in a && a[id].status.Pending? && a[id].taskType == b[id].taskType
  }

  lemma OpQuiet(db: Db, now: Time, op: Op)
    requires RunOp(db, now, op).Ok? && !RunOp(db, now, op).value.notify
    ensures NoNewPending(db.rows, RunOp(db, now, op).value.value.rows)
  {
  }

  /** Calls that made a task pending sent a notification. */
  lemma {:induction false} OpsQuiet(db: Db, now: Time, ops: seq<Op>)
    requires RunOps(db, now, ops).Ok? && !RunOps(db, now, ops).value.notify
    ensures NoNewPending(db.rows, RunOps(db, now, ops).value.value.rows)
    decreases |ops|
  {
    if ops != [] {
      OpQuiet(db, now, ops[0]);
      OpsQuiet(RunOp(db, now, ops[0]).value.value, now, ops[1..]);
    }
  }

  /** A result that made another task pending sent a notification; only a result `Pending` re-queues silently. */
  lemma ResultQuiet(rows: Rows, id: TaskId, r: HandlerResult)
    requires id in rows && ApplyResult(rows, id, r).Ok? && !ApplyResult(rows, id, r).value.notify
    requires r.newStatus != Known(Pending)
    ensures NoNewPending(rows, ApplyResult(rows, id, r).value.value)
  {
  }

  lemma CommitQuiet(db: Db, now: Time, id: TaskId, ops: seq<Op>, r: HandlerResult)
    requires WellFormed(db) && id in db.rows && CommitRun(db, now, id, ops, r).Ok?
    requires !CommitRun(db, now, id, ops, r).value.notify && r.newStatus != Known(Pending)
    ensures NoNewPending(db.rows, CommitRun(db, now, id, ops, r).value.value.rows)
  {
    CommitTouches(db, now, id, ops, r);
    var mid := RunOps(db, now, ops).value.value;
    OpsQuiet(db, now, ops);
    ResultQuiet(mid.rows, id, r);
  }

  /** One of the two situations the claim is about: a single worker, or handlers that never return `Pending`. */
  ghost predicate Covered(s: System, sole: Option<WorkerId>) {
    match sole
    case Some(w) => s.ctl.Keys == {w} && (IsProcessing(s, w) ==> ScanDue(s))
    case None => forall w :: HasDecided(s, w) ==> s.ctl[w].hold.decision.value.result.newStatus != Known(Pending)
  }

  ghost predicate Allowed(step: Step, sole: Option<WorkerId>) {
    sole.None? && step.Finish? ==> step.result.newStatus != Known(Pending)
  }

  ghost predicate ScanInv(s: System, sole: Option<WorkerId>) {
    Inv(s) && NoOverlooked(s) && Covered(s, sole)
  }

  lemma QuietKeeps(s: System, t: System)
    requires NoOverlooked(s) && NoNewPending(s.db.rows, t.db.rows) && t.taskTypes == s.taskTypes
    requires ScanDue(s) ==> ScanDue(t)
    requires s.notices <= t.notices
    ensures NoOverlooked(t)
  {
    if id :| PendingOf(t.db.rows, t.taskTypes, id) {
      assert PendingOf(s.db.rows, s.taskTypes, id);
    }
  }

  lemma CommitKeepsScan(s: System, sole: Option<WorkerId>, v: WorkerId)
    requires ScanInv(s, sole) && Enabled(s, Commit(v))
    ensures NoOverlooked(Do(s, Commit(v)))
  {
    var h := s.ctl[v].hold;
    var d := h.decision.value;
    var t := Do(s, Commit(v));
    ProcessorHolds(s, v);
    if !CommitOf(s, v).value.notify && d.result.newStatus != Known(Pending) {
      CommitQuiet(s.db, s.now, h.task, d.ops, d.result);
      QuietKeeps(s, t);
    } else if d.result.newStatus == Known(Pending) {
      assert sole.Some? && v == sole.value;
      assert ScanDue(t);
    }
  }

  lemma OtherStepKeepsScan(s: System, step: Step)
    requires Inv(s) && NoOverlooked(s) && Enabled(s, step) && !step.Commit?
    ensures NoOverlooked(Do(s, step))
  {
    var t := Do(s, step);
    match step
    case Api(ops) =>
      if !RunOps(s.db, s.now, ops).value.notify {
        OpsQuiet(s.db, s.now, ops);
        QuietKeeps(s, t);
      }
    case NoHandler(ok) => NoHandlerDisabled(s, ok);
    case ScanEmpty =>
      forall id ensures !PendingOf(t.db.rows, t.taskTypes, id) {
        assert id in t.db.rows ==> !Claimable(t.db.rows[id], s.now, s.taskTypes);
      }
    case Heartbeat(w, ok) => QuietKeeps(s, t);
    case _ =>
      if !ScanDue(t) {
        QuietKeeps(s, t);
      }
  }

  lemma StepKeepsScan(s: System, sole: Option<WorkerId>, step: Step)
    requires ScanInv(s, sole) && Enabled(s, step)
    ensures NoOverlooked(Do(s, step))
  {
    if step.Commit? {
      CommitKeepsScan(s, sole, step.w);
    } else {
      OtherStepKeepsScan(s, step);
    }
  }

  /** Only an empty scan puts the scanner to sleep, and only a dispatch starts a worker. */
  lemma SleepSource(s: System, step: Step, w: WorkerId)
    requires Enabled(s, step)
    ensures !ScanDue(Do(s, step)) ==> step.ScanEmpty? || !ScanDue(s)
    ensures IsProcessing(Do(s, step), w) ==> IsProcessing(s, w) || step.Dispatch?
  {
  }

  lemma StepKeepsSole(s: System, w: WorkerId, step: Step)
    requires ScanInv(s, Some(w)) && Enabled(s, step)
    ensures Covered(Do(s, step), Some(w))
  {
    StepKeepsWorkers(s, step);
    SleepSource(s, step, w);
    if step.ScanEmpty? {
      var x := s.scanner.worker;
      assert TokenOk(s, x) && Tokens(s)[x] >= 1;
      assert x == w;
    }
  }

  lemma StepKeepsNoPending(s: System, step: Step)
    requires ScanInv(s, None) && Enabled(s, step) && Allowed(step, None)
    ensures Covered(Do(s, step), None)
  {
    var t := Do(s, step);
    forall w | HasDecided(t, w)
      ensures t.ctl[w].hold.decision.value.result.newStatus != Known(Pending)
    {
      assert (step.Finish? && step.w == w) || (HasDecided(s, w) && s.ctl[w].hold.decision == t.ctl[w].hold.decision);
    }
  }

  /**
   No lost scan: in every reachable state, if a pending task of a handled type exists then the scanner has a scan due or a
   notification is outstanding.  With one worker this holds for all handlers (`sole == Some(w)`); with any
   number of workers it holds when no handler returns `Pending` (`sole == None`).
   */
  lemma {:induction false} NoLostScan(states: seq<System>, steps: seq<Step>, i: nat, sole: Option<WorkerId>)
    requires IsRun(states, steps) && i < |states|
    requires sole.Some? ==> states[0].ctl.Keys == {sole.value}
    requires forall k :: 0 <= k < |steps| ==> Allowed(steps[k], sole)
    ensures ScanInv(states[i], sole)
    ensures forall id :: PendingOf(states[i].db.rows, states[i].taskTypes, id) ==>
              states[i].scanner != Top(false) || states[i].notices > 0
  {
    if i == 0 {
      InitInv(states[0]);
    } else {
      NoLostScan(states, steps, i - 1, sole);
      assert StepAt(states, steps, i - 1) && Allowed(steps[i - 1], sole);
      StepKeepsInv(states[i - 1], steps[i - 1]);
      StepKeepsScan(states[i - 1], sole, steps[i - 1]);
      if sole.Some? {
        StepKeepsSole(states[i - 1], sole.value, steps[i - 1]);
      } else {
        StepKeepsNoPending(states[i - 1], steps[i - 1]);
      }
    }
  }

  /** Which call of the task API sends a notification: one that creates a task, or resumes one that waits. */
  predicate CallNotifies(rows: Rows, op: Op) {
    match op
    case Create(_, _) => true
    case CreateChild(_, _, _) => true
    case ResumeTask(id) => id in rows && rows[id].status.Waiting?
    case ResumeTaskWithState(id, _) => id in rows && rows[id].status.Waiting?
    case Cancel(_) => false
  }

  /** Some call of the list sends one at its turn. */
  predicate SomeCallNotifies(db: Db, now: Time, ops: seq<Op>)
    decreases |ops|
  {
    ops != [] &&
    (CallNotifies(db.rows, ops[0]) || (RunOp(db, now, ops[0]).Ok? && SomeCallNotifies(RunOp(db, now, ops[0]).value.value, now, ops[1..])))
  }

  lemma {:induction false} OpsNotify(db: Db, now: Time, ops: seq<Op>)
    requires RunOps(db, now, ops).Ok?
    ensures RunOps(db, now, ops).value.notify <==> SomeCallNotifies(db, now, ops)
    decreases |ops|
  {
    if ops != [] {
      OpNotifies(db, now, ops[0]);
      OpsNotify(RunOp(db, now, ops[0]).value.value, now, ops[1..]);
    }
  }

  lemma OpNotifies(db: Db, now: Time, op: Op)
    requires RunOp(db, now, op).Ok?
    ensures RunOp(db, now, op).value.notify <==> CallNotifies(db.rows, op)
  {
  }

  /** A commit of a result `Pending` by a handler none of whose calls sends a notification. */
  ghost predicate Requeues(s: System, step: Step) {
    && step.Commit? && HasDecided(s, step.w) && CommitOf(s, step.w).Ok?
    && s.ctl[step.w].hold.decision.value.result.newStatus == Known(Pending)
    && !SomeCallNotifies(s.db, s.now, s.ctl[step.w].hold.decision.value.ops)
  }

  /** A result `Pending` adds no notification to those of the handler's calls. */
  lemma RequeueIsSilent(s: System, v: WorkerId)
    requires HasDecided(s, v) && CommitOf(s, v).Ok? && s.ctl[v].hold.decision.value.result.newStatus == Known(Pending)
    ensures Requeues(s, Commit(v)) <==> !CommitOf(s, v).value.notify
  {
    OpsNotify(s.db, s.now, s.ctl[v].hold.decision.value.ops);
  }

  /** Nothing but a notification makes the scanner look again, and none is on its way. */
  predicate Asleep(s: System) {
    s.scanner == Top(false) && s.notices == 0
  }

  lemma RequeuedIsPending(s: System, v: WorkerId)
    requires Inv(s) && Enabled(s, Commit(v)) && Requeues(s, Commit(v))
    ensures PendingOf(Do(s, Commit(v)).db.rows, s.taskTypes, s.ctl[v].hold.task)
  {
    ProcessorHolds(s, v);
    var h := s.ctl[v].hold;
    var d := h.decision.value;
    assert HoldOf(s, v).value.task in s.db.rows;
    CommitTouches(s.db, s.now, h.task, d.ops, d.result);
  }

  /**
   The exact law of one commit, for any number of workers: it leaves a pending task overlooked if and only if it re-queues its own task,
   sends no notification, and the scanner sleeps with none outstanding.
   */
  lemma PendingIsOverlooked(s: System, v: WorkerId)
    requires Inv(s) && NoOverlooked(s) && Enabled(s, Commit(v))
    ensures !NoOverlooked(Do(s, Commit(v))) <==> Requeues(s, Commit(v)) && Asleep(s)
  {
    ProcessorHolds(s, v);
    var h := s.ctl[v].hold;
    var d := h.decision.value;
    if d.result.newStatus == Known(Pending) {
      RequeueIsSilent(s, v);
    }
    if Requeues(s, Commit(v)) {
      RequeuedIsPending(s, v);
    } else if !CommitOf(s, v).value.notify {
      CommitQuiet(s.db, s.now, h.task, d.ops, d.result);
      QuietKeeps(s, Do(s, Commit(v)));
    }
  }

  ghost predicate WatchedAt(states: seq<System>, i: nat)
    requires i < |states|
  {
    NoOverlooked(states[i])
  }

  ghost predicate OverlooksAt(states: seq<System>, steps: seq<Step>, i: nat)
    requires i < |states| && i < |steps|
  {
    Requeues(states[i], steps[i]) && Asleep(states[i])
  }

  lemma StepOverlooks(s: System, step: Step)
    requires Inv(s) && NoOverlooked(s) && Enabled(s, step)
    ensures NoOverlooked(Do(s, step)) <==> !(Requeues(s, step) && Asleep(s))
  {
    if step.Commit? {
      PendingIsOverlooked(s, step.w);
    } else {
      OtherStepKeepsScan(s, step);
    }
  }

  /** Over any run, with any number of workers: no pending task is ever overlooked if and only if no commit re-queues silently while the scanner sleeps. */
  lemma {:induction false} ScanExact(states: seq<System>, steps: seq<Step>, i: nat)
    requires IsRun(states, steps) && i < |states|
    ensures (forall k :: 0 <= k <= i ==> WatchedAt(states, k)) <==> (forall k :: 0 <= k < i ==> !OverlooksAt(states, steps, k))
  {
    if i == 0 {
      assert ScanDue(states[0]);
    } else {
      ScanExact(states, steps, i - 1);
      RunInv(states, steps, i - 1);
      assert StepAt(states, steps, i - 1);
      if WatchedAt(states, i - 1) {
        StepOverlooks(states[i - 1], steps[i - 1]);
        assert WatchedAt(states, i) <==> !OverlooksAt(states, steps, i - 1);
      }
    }
  }
}
