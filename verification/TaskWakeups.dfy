/** Parents that wait for their children: exactly when one is forgotten, and that with one worker and polite handlers none is. */
module TaskWakeups {
  import opened Results
  import opened TaskTable
  import opened TaskSystem
  import opened TaskInvariants

  predicate UnfinishedChild(rows: Rows, p: TaskId, c: TaskId) {
    IsChild(rows, p, c) && !Finished(rows[c])
  }

  ghost predicate HasUnfinishedChild(rows: Rows, p: TaskId) {
    exists c :: UnfinishedChild(rows, p, c)
  }

  ghost predicate WaitersHaveChildren(rows: Rows) {
    forall p :: p in rows && rows[p].status.Waiting? ==> HasUnfinishedChild(rows, p)
  }

  predicate CreatesChildOf(op: Op, p: TaskId) {
    op.CreateChild? && op.parent == p
  }

  predicate NoCancel(ops: seq<Op>) {
    forall i :: 0 <= i < |ops| ==> !ops[i].Cancel?
  }

  /** What a handler sees in its own transaction: an unfinished child, committed or just created by itself. */
  ghost predicate SeesUnfinishedChild(rows: Rows, ops: seq<Op>, p: TaskId) {
    HasUnfinishedChild(rows, p) || exists i :: 0 <= i < |ops| && CreatesChildOf(ops[i], p)
  }

  /** The hypothesis on callers and handlers: nobody cancels, and a handler waits only for an unfinished child. */
  ghost predicate Polite(s: System, step: Step) {
    match step
    case Api(ops) => NoCancel(ops)
    case Finish(w, calls, result) =>
      && NoCancel(calls)
      && (result.newStatus == Known(Waiting) && IsProcessing(s, w) ==> SeesUnfinishedChild(s.db.rows, calls, s.ctl[w].hold.task))
    case _ => true
  }

  // ------------------------------------------------------------ rows stay alive

  /** No row finishes and none starts to wait. */
  ghost predicate KeepsAlive(a: Rows, b: Rows) {
    && (forall id :: id in a ==>
          && id in b && a[id].parentId == b[id].parentId
          && (!Finished(a[id]) ==> !Finished(b[id])))
    && (forall id :: id in b && b[id].status.Waiting? ==> id in a && a[id].status.Waiting?)
  }

  lemma {:induction false} OpsKeepAlive(db: Db, now: Time, ops: seq<Op>)
    requires WellFormed(db) && NoCancel(ops) && RunOps(db, now, ops).Ok?
    ensures KeepsAlive(db.rows, RunOps(db, now, ops).value.value.rows)
    decreases |ops|
  {
    if ops == [] {
    } else {
      assert !ops[0].Cancel?;
      OpTouches(db, now, ops[0]);
      OpKeepsAlive(db, now, ops[0]);
      OpsKeepAlive(RunOp(db, now, ops[0]).value.value, now, ops[1..]);
    }
  }

  lemma OpKeepsAlive(db: Db, now: Time, op: Op)
    requires WellFormed(db) && !op.Cancel? && RunOp(db, now, op).Ok?
    ensures KeepsAlive(db.rows, RunOp(db, now, op).value.value.rows)
  {
    assert db.nextId !in db.rows;
  }

  /** A child created somewhere in the list is there, unfinished, after the list. */
  lemma {:induction false} OpsCreateChild(db: Db, now: Time, ops: seq<Op>, i: nat)
    requires WellFormed(db) && NoCancel(ops) && RunOps(db, now, ops).Ok?
    requires i < |ops| && ops[i].CreateChild?
    ensures HasUnfinishedChild(RunOps(db, now, ops).value.value.rows, ops[i].parent)
    decreases |ops|
  {
    var mid := RunOp(db, now, ops[0]).value.value;
    OpTouches(db, now, ops[0]);
    if i == 0 {
      assert UnfinishedChild(mid.rows, ops[0].parent, db.nextId);
      OpsKeepAlive(mid, now, ops[1..]);
      assert UnfinishedChild(RunOps(mid, now, ops[1..]).value.value.rows, ops[0].parent, db.nextId);
    } else {
      OpsCreateChild(mid, now, ops[1..], i - 1);
    }
  }

  lemma AliveKeepsChild(a: Rows, b: Rows, p: TaskId)
    requires KeepsAlive(a, b) && HasUnfinishedChild(a, p)
    ensures HasUnfinishedChild(b, p)
  {
    var c :| UnfinishedChild(a, p, c);
    assert UnfinishedChild(b, p, c);
  }

  lemma AliveKeepsWaiters(a: Rows, b: Rows)
    requires KeepsAlive(a, b) && WaitersHaveChildren(a)
    ensures WaitersHaveChildren(b)
  {
    forall p | p in b && b[p].status.Waiting? ensures HasUnfinishedChild(b, p) {
      AliveKeepsChild(a, b, p);
    }
  }

  // ------------------------------------------------------------------ cancellation

  /** `root` is the only unfinished child of a parent that waits. */
  ghost predicate Strands(rows: Rows, root: TaskId) {
    && root in rows && !Finished(rows[root]) && rows[root].parentId.Some?
    && var p := rows[root].parentId.value;
       && p in rows && rows[p].status.Waiting?
       && forall c :: UnfinishedChild(rows, p, c) ==> c == root
  }

  lemma {:induction false} DescendsIsAbove(rows: Rows, root: TaskId, id: TaskId)
    requires Descends(rows, root, id)
    ensures root <= id
    decreases id
  {
    if id != root {
      DescendsIsAbove(rows, root, rows[id].parentId.value);
    }
  }

  // --------------------------------------------------------- whole transactions

  /** `p` waits for nobody. */
  ghost predicate Stranded(rows: Rows, p: TaskId) {
    p in rows && rows[p].status.Waiting? && !HasUnfinishedChild(rows, p)
  }

  /** Calls after which `p` no longer waits for nobody. */
  predicate Rescues(rows: Rows, op: Op, p: TaskId) {
    match op
    case Create(_, _) => false
    case CreateChild(parent, _, _) => parent == p
    case ResumeTask(id) => id == p
    case ResumeTaskWithState(id, _) => id == p
    case Cancel(root) => Descends(rows, root, p)
  }

  /** A cancellation of the only unfinished child of `p`, which waits. */
  ghost predicate StrandsParent(rows: Rows, op: Op, p: TaskId) {
    op.Cancel? && Strands(rows, op.id) && rows[op.id].parentId == Some(p)
  }

  /** The exact law of one insert. */
  lemma InsertStrands(db: Db, now: Time, taskType: string, doc: Option<Json>, parent: Option<TaskId>, p: TaskId)
    requires WellFormed(db) && Insert(db, now, taskType, doc, parent).Ok?
    ensures Stranded(Insert(db, now, taskType, doc, parent).value.rows, p) <==> Stranded(db.rows, p) && parent != Some(p)
  {
    var after := Insert(db, now, taskType, doc, parent).value.rows;
    assert db.nextId !in db.rows;
    assert forall c :: c != db.nextId ==> (UnfinishedChild(after, p, c) <==> UnfinishedChild(db.rows, p, c));
    if parent == Some(p) {
      assert UnfinishedChild(after, p, db.nextId);
    }
  }

  lemma ResumeStrands(db: Db, id: TaskId, doc: Option<Json>, p: TaskId)
    requires WellFormed(db) && Resume(db.rows, id, doc).Ok?
    ensures Stranded(Resume(db.rows, id, doc).value.value, p) <==> Stranded(db.rows, p) && id != p
  {
    var after := Resume(db.rows, id, doc).value.value;
    assert forall c :: UnfinishedChild(after, p, c) <==> UnfinishedChild(db.rows, p, c);
  }

  lemma CancelSparesSibling(db: Db, root: TaskId, p: TaskId, c: TaskId)
    requires WellFormed(db) && !Descends(db.rows, root, p)
    ensures UnfinishedChild(CancelTree(db.rows, root), p, c) <==> UnfinishedChild(db.rows, p, c) && c != root
  {
  }

  lemma CancelStrandsExactly(db: Db, root: TaskId, p: TaskId)
    requires WellFormed(db)
    ensures Stranded(CancelTree(db.rows, root), p) <==>
      (Stranded(db.rows, p) && !Descends(db.rows, root, p)) || StrandsParent(db.rows, Cancel(root), p)
  {
    if Descends(db.rows, root, p) {
      DescendsIsAbove(db.rows, root, p);
    } else {
      forall c ensures UnfinishedChild(CancelTree(db.rows, root), p, c) <==> UnfinishedChild(db.rows, p, c) && c != root {
        CancelSparesSibling(db, root, p, c);
      }
      if UnfinishedChild(db.rows, p, root) {
        assert HasUnfinishedChild(db.rows, p);
      }
    }
  }

  /** Cancel never resumes a parent: it strands one if and only if it cancels its only unfinished child. */
  lemma CancelStrands(db: Db, root: TaskId)
    requires WellFormed(db) && WaitersHaveChildren(db.rows)
    ensures WaitersHaveChildren(CancelTree(db.rows, root)) <==> !Strands(db.rows, root)
  {
    forall p ensures Stranded(CancelTree(db.rows, root), p) <==> StrandsParent(db.rows, Cancel(root), p) {
      CancelStrandsExactly(db, root, p);
    }
    ServedMeansNoneStranded(CancelTree(db.rows, root));
    if Strands(db.rows, root) {
      assert StrandsParent(db.rows, Cancel(root), db.rows[root].parentId.value);
    }
  }

  /** The exact law of one call, from any table. */
  lemma OpStrands(db: Db, now: Time, op: Op, p: TaskId)
    requires WellFormed(db) && RunOp(db, now, op).Ok?
    ensures Stranded(RunOp(db, now, op).value.value.rows, p) <==>
      (Stranded(db.rows, p) && !Rescues(db.rows, op, p)) || StrandsParent(db.rows, op, p)
  {
    match op
    case Create(taskType, doc) => InsertStrands(db, now, taskType, doc, None, p);
    case CreateChild(parent, taskType, doc) => InsertStrands(db, now, taskType, doc, Some(parent), p);
    case ResumeTask(id) => ResumeStrands(db, id, None, p);
    case ResumeTaskWithState(id, doc) => ResumeStrands(db, id, Some(doc), p);
    case Cancel(root) => CancelStrandsExactly(db, root, p);
  }

  /** The last word of a list of calls on `p`: a cancellation that strands it, with no rescue behind. */
  ghost predicate LeftStranded(db: Db, now: Time, ops: seq<Op>, p: TaskId, already: bool)
    decreases |ops|
  {
    if ops == [] then already else
      && RunOp(db, now, ops[0]).Ok?
      && LeftStranded(RunOp(db, now, ops[0]).value.value, now, ops[1..], p,
                      (already && !Rescues(db.rows, ops[0], p)) || StrandsParent(db.rows, ops[0], p))
  }

  lemma {:induction false} OpsStrand(db: Db, now: Time, ops: seq<Op>, p: TaskId)
    requires WellFormed(db) && RunOps(db, now, ops).Ok?
    ensures Stranded(RunOps(db, now, ops).value.value.rows, p) <==> LeftStranded(db, now, ops, p, Stranded(db.rows, p))
    decreases |ops|
  {
    if ops != [] {
      OpTouches(db, now, ops[0]);
      OpStrands(db, now, ops[0], p);
      OpsStrand(RunOp(db, now, ops[0]).value.value, now, ops[1..], p);
    }
  }

  /** The exact law of one result, from any table: the task itself may wait for nobody, and its parent is served whatever the result. */
  lemma ResultStrands(db: Db, id: TaskId, r: HandlerResult, after: Rows, p: TaskId)
    requires WellFormed(db) && id in db.rows && r.newStatus.Known? && !r.newStatus.status.Running? && ResultEffect(db.rows, id, r, after)
    ensures Stranded(after, p) <==>
      if p == id then r.newStatus == Known(Waiting) && !HasUnfinishedChild(db.rows, id)
      else Stranded(db.rows, p) && db.rows[id].parentId != Some(p)
  {
    assert forall c :: c != id ==> (UnfinishedChild(after, p, c) <==> UnfinishedChild(db.rows, p, c));
    assert !UnfinishedChild(after, id, id) && !UnfinishedChild(db.rows, id, id);
    if p != id && db.rows[id].parentId == Some(p) && !Finished(after[id]) {
      assert UnfinishedChild(after, p, id);
    }
  }

  /** One commit, for any number of workers, judged after the handler's own calls: waiters stay served if and only if the task does not wait for nobody. */
  lemma CommitWaitersExact(db: Db, now: Time, id: TaskId, ops: seq<Op>, r: HandlerResult)
    requires WellFormed(db) && id in db.rows && CommitRun(db, now, id, ops, r).Ok?
    requires WaitersHaveChildren(RunOps(db, now, ops).value.value.rows)
    ensures WaitersHaveChildren(CommitRun(db, now, id, ops, r).value.value.rows) <==>
      (r.newStatus == Known(Waiting) ==> HasUnfinishedChild(RunOps(db, now, ops).value.value.rows, id))
  {
    CommitTouches(db, now, id, ops, r);
    var mid := RunOps(db, now, ops).value.value;
    var after := CommitRun(db, now, id, ops, r).value.value.rows;
    assert !r.newStatus.status.Running? by { ResultFaults(mid, id, r); }
    ServedMeansNoneStranded(mid.rows);
    forall p ensures Stranded(after, p) <==> p == id && r.newStatus == Known(Waiting) && !HasUnfinishedChild(mid.rows, id) {
      ResultStrands(mid, id, r, after, p);
    }
    assert (forall p :: !Stranded(after, p)) <==> !Stranded(after, id);
    ServedMeansNoneStranded(after);
  }

  // ------------------------------------------------------- any number of workers

  /** A step that leaves `p` waiting for nobody, judged by its calls, its result, and the rows they find. */
  ghost predicate StepStrands(s: System, step: Step, p: TaskId) {
    match step
    case Api(ops) => LeftStranded(s.db, s.now, ops, p, false)
    case Commit(w) =>
      && HasDecided(s, w) && CommitOf(s, w).Ok? && s.ctl[w].hold.task in s.db.rows
      && var h := s.ctl[w].hold;
         var ops := h.decision.value.ops;
         if p == h.task then
           && h.decision.value.result.newStatus == Known(Waiting)
           && !HasUnfinishedChild(RunOps(s.db, s.now, ops).value.value.rows, p)
         else LeftStranded(s.db, s.now, ops, p, false) && s.db.rows[h.task].parentId != Some(p)
    case _ => false
  }

  /** Nobody is left waiting for nobody by this step. */
  ghost predicate Careful(s: System, step: Step) {
    forall p :: !StepStrands(s, step, p)
  }

  /** Any step that is neither an API call nor a commit finishes no task and starts no wait. */
  lemma QuietStepKeepsAlive(s: System, step: Step)
    requires Inv(s) && Enabled(s, step) && !step.Commit? && !step.Api?
    ensures KeepsAlive(s.db.rows, Do(s, step).db.rows)
  {
    match step
    case NoHandler(ok) => NoHandlerDisabled(s, ok);
    case _ =>
  }

  lemma CommitStrands(s: System, w: WorkerId, p: TaskId)
    requires Inv(s) && WaitersHaveChildren(s.db.rows) && Enabled(s, Commit(w))
    ensures Stranded(Do(s, Commit(w)).db.rows, p) <==> StepStrands(s, Commit(w), p)
  {
    ProcessorHolds(s, w);
    var h := s.ctl[w].hold;
    var d := h.decision.value;
    CommitTouches(s.db, s.now, h.task, d.ops, d.result);
    var mid := RunOps(s.db, s.now, d.ops).value.value;
    assert !d.result.newStatus.status.Running? by { ResultFaults(mid, h.task, d.result); }
    OpsStrand(s.db, s.now, d.ops, p);
    ResultStrands(mid, h.task, d.result, Do(s, Commit(w)).db.rows, p);
  }

  /** The exact law of every step, for any number of workers, cancellation included. */
  lemma StepStrandsExactly(s: System, step: Step)
    requires Inv(s) && WaitersHaveChildren(s.db.rows) && Enabled(s, step)
    ensures WaitersHaveChildren(Do(s, step).db.rows) <==> Careful(s, step)
  {
    var after := Do(s, step).db.rows;
    if step.Api? || step.Commit? {
      forall p ensures Stranded(after, p) <==> StepStrands(s, step, p) {
        if step.Api? {
          OpsStrand(s.db, s.now, step.ops, p);
        } else {
          CommitStrands(s, step.w, p);
        }
      }
      ServedMeansNoneStranded(after);
    } else {
      QuietStepKeepsAlive(s, step);
      AliveKeepsWaiters(s.db.rows, after);
    }
  }

  lemma ServedMeansNoneStranded(rows: Rows)
    ensures WaitersHaveChildren(rows) <==> forall p :: !Stranded(rows, p)
  {
    if !WaitersHaveChildren(rows) {
      var p :| p in rows && rows[p].status.Waiting? && !HasUnfinishedChild(rows, p);
      assert Stranded(rows, p);
    }
  }

  ghost predicate CarefulAt(states: seq<System>, steps: seq<Step>, i: nat)
    requires i < |steps| && i < |states|
  {
    Careful(states[i], steps[i])
  }

  ghost predicate ServedAt(states: seq<System>, i: nat)
    requires i < |states|
  {
    WaitersHaveChildren(states[i].db.rows)
  }

  /** No lost wake-up over any run with any number of workers: every waiting task has an unfinished child throughout, if and only if every step is careful. */
  lemma {:induction false} WakeupExact(states: seq<System>, steps: seq<Step>, i: nat)
    requires IsRun(states, steps) && i < |states| && ServedAt(states, 0)
    ensures (forall k :: 0 <= k <= i ==> ServedAt(states, k)) <==> (forall k :: 0 <= k < i ==> CarefulAt(states, steps, k))
  {
    if i > 0 {
      WakeupExact(states, steps, i - 1);
      RunInv(states, steps, i - 1);
      assert StepAt(states, steps, i - 1);
      if ServedAt(states, i - 1) {
        StepStrandsExactly(states[i - 1], steps[i - 1]);
        assert ServedAt(states, i) <==> CarefulAt(states, steps, i - 1);
      }
    }
  }

  // ------------------------------------------------------------------- one worker

  /** The promise that a decided but uncommitted handler of `w` relies on. */
  ghost predicate DecisionKept(s: System, w: WorkerId) {
    HasDecided(s, w) ==>
      var h := s.ctl[w].hold;
      && NoCancel(h.decision.value.ops)
      && (h.decision.value.result.newStatus == Known(Waiting) ==> SeesUnfinishedChild(s.db.rows, h.decision.value.ops, h.task))
  }

  ghost predicate WakeInv(s: System, w: WorkerId) {
    Inv(s) && s.ctl.Keys == {w} && WaitersHaveChildren(s.db.rows) && DecisionKept(s, w)
  }

  /** Any polite step but a commit finishes no task. */
  lemma StepKeepsAlive(s: System, step: Step)
    requires Inv(s) && Enabled(s, step) && Polite(s, step) && !step.Commit?
    ensures KeepsAlive(s.db.rows, Do(s, step).db.rows)
  {
    if step.Api? {
      OpsKeepAlive(s.db, s.now, step.ops);
    } else {
      QuietStepKeepsAlive(s, step);
    }
  }

  lemma StepKeepsDecision(s: System, step: Step, w: WorkerId)
    requires WakeInv(s, w) && Enabled(s, step) && Polite(s, step) && !step.Commit?
    ensures DecisionKept(Do(s, step), w)
  {
    var t := Do(s, step);
    StepKeepsAlive(s, step);
    if HasDecided(t, w) {
      var h := t.ctl[w].hold;
      assert step.Finish? || (HasDecided(s, w) && s.ctl[w].hold.decision == h.decision && s.ctl[w].hold.task == h.task);
      if HasUnfinishedChild(s.db.rows, h.task) {
        AliveKeepsChild(s.db.rows, t.db.rows, h.task);
      }
    }
  }

  lemma NoCancelStrandsNobody(db: Db, now: Time, ops: seq<Op>, p: TaskId)
    requires WellFormed(db) && WaitersHaveChildren(db.rows) && NoCancel(ops) && RunOps(db, now, ops).Ok?
    ensures !LeftStranded(db, now, ops, p, false)
  {
    OpsKeepAlive(db, now, ops);
    AliveKeepsWaiters(db.rows, RunOps(db, now, ops).value.value.rows);
    OpsStrand(db, now, ops, p);
  }

  /** What the handler saw when it decided is still so when it commits, because nobody else commits in between. */
  lemma PoliteIsCareful(s: System, step: Step, w: WorkerId)
    requires WakeInv(s, w) && Enabled(s, step) && Polite(s, step)
    ensures Careful(s, step)
  {
    if step.Api? {
      forall p ensures !StepStrands(s, step, p) {
        NoCancelStrandsNobody(s.db, s.now, step.ops, p);
      }
    } else if step.Commit? {
      assert step.w == w && DecisionKept(s, w);
      var h := s.ctl[w].hold;
      var ops := h.decision.value.ops;
      forall p ensures !StepStrands(s, step, p) {
        NoCancelStrandsNobody(s.db, s.now, ops, p);
        if h.decision.value.result.newStatus == Known(Waiting) {
          SeenChildIsThere(s.db, s.now, ops, h.task);
        }
      }
    }
  }

  lemma SeenChildIsThere(db: Db, now: Time, ops: seq<Op>, p: TaskId)
    requires WellFormed(db) && NoCancel(ops) && RunOps(db, now, ops).Ok? && SeesUnfinishedChild(db.rows, ops, p)
    ensures HasUnfinishedChild(RunOps(db, now, ops).value.value.rows, p)
  {
    if HasUnfinishedChild(db.rows, p) {
      OpsKeepAlive(db, now, ops);
      AliveKeepsChild(db.rows, RunOps(db, now, ops).value.value.rows, p);
    } else {
      var i :| 0 <= i < |ops| && CreatesChildOf(ops[i], p);
      OpsCreateChild(db, now, ops, i);
    }
  }

  lemma StepKeepsWakeInv(s: System, step: Step, w: WorkerId)
    requires WakeInv(s, w) && Enabled(s, step) && Polite(s, step)
    ensures WakeInv(Do(s, step), w)
  {
    StepKeepsInv(s, step);
    StepKeepsWorkers(s, step);
    PoliteIsCareful(s, step, w);
    StepStrandsExactly(s, step);
    if step.Commit? {
      assert step.w == w;
    } else {
      StepKeepsDecision(s, step, w);
    }
  }

  ghost predicate PoliteRun(states: seq<System>, steps: seq<Step>) {
    IsRun(states, steps) && forall i :: 0 <= i < |steps| ==> Polite(states[i], steps[i])
  }

  /** No lost wake-up: with one worker and polite handlers, every waiting task of every reachable state has an unfinished child. */
  lemma {:induction false} NoLostWakeup(states: seq<System>, steps: seq<Step>, i: nat, w: WorkerId)
    requires PoliteRun(states, steps) && i < |states|
    requires states[0].ctl.Keys == {w} && WaitersHaveChildren(states[0].db.rows)
    ensures WakeInv(states[i], w)
    ensures forall p :: p in states[i].db.rows && states[i].db.rows[p].status.Waiting? ==>
      exists c :: UnfinishedChild(states[i].db.rows, p, c)
  {
    if i == 0 {
      InitInv(states[0]);
    } else {
      NoLostWakeup(states, steps, i - 1, w);
      assert StepAt(states, steps, i - 1) && Polite(states[i - 1], steps[i - 1]);
      StepKeepsWakeInv(states[i - 1], steps[i - 1], w);
    }
  }

  /** A commit whose handler made no calls of its own. */
  lemma BareCommit(s: System, w: WorkerId)
    requires WellFormed(s.db) && HasDecided(s, w) && s.ctl[w].hold.decision.value.ops == []
    requires s.ctl[w].hold.task in s.db.rows && s.db.rows[s.ctl[w].hold.task].status.Running?
    requires s.ctl[w].hold.decision.value.result.newStatus in {Known(Waiting), Known(Completed)}
    ensures Enabled(s, Commit(w))
    ensures var h := s.ctl[w].hold; var t := Do(s, Commit(w));
      && WellFormed(t.db) && ResultEffect(s.db.rows, h.task, h.decision.value.result, t.db.rows)
      && t.ctl == s.ctl[w := Announcing]
  {
    var h := s.ctl[w].hold;
    ResultFaults(s.db, h.task, h.decision.value.result);
    ResultTouches(s.db, h.task, h.decision.value.result);
  }

  /**
   A second worker breaks it.  Whenever the parent's handler has decided to wait for its only unfinished child while
   that child's handler has decided to complete, committing the child first leaves the parent waiting for nobody.
   */
  lemma TwoWorkersLoseWakeup(s: System, v: WorkerId, w: WorkerId, p: TaskId, c: TaskId)
    requires Inv(s) && v != w && HasDecided(s, v) && HasDecided(s, w)
    requires s.ctl[v].hold.task == p && s.ctl[v].hold.decision.value.ops == []
    requires s.ctl[v].hold.decision.value.result.newStatus == Known(Waiting)
    requires s.ctl[w].hold.task == c && s.ctl[w].hold.decision.value.ops == []
    requires s.ctl[w].hold.decision.value.result.newStatus == Known(Completed)
    requires p in s.db.rows && s.db.rows[p].status.Running?
    requires IsChild(s.db.rows, p, c) && s.db.rows[c].status.Running?
    requires forall x :: UnfinishedChild(s.db.rows, p, x) ==> x == c
    ensures Enabled(s, Commit(w)) && Enabled(Do(s, Commit(w)), Commit(v))
    ensures var t := Do(Do(s, Commit(w)), Commit(v));
            p in t.db.rows && t.db.rows[p].status.Waiting? && !HasUnfinishedChild(t.db.rows, p)
  {
    BareCommit(s, w);
    var mid := Do(s, Commit(w));
    BareCommit(mid, v);
    LonelyParent(s.db.rows, mid.db.rows, Do(mid, Commit(v)).db.rows, p, c,
                 s.ctl[w].hold.decision.value.result, s.ctl[v].hold.decision.value.result);
  }

  lemma LonelyParent(a: Rows, b: Rows, d: Rows, p: TaskId, c: TaskId, rc: HandlerResult, rp: HandlerResult)
    requires rc.newStatus == Known(Completed) && rp.newStatus == Known(Waiting) && ParentsBelow(a)
    requires IsChild(a, p, c) && p in a && p in b
    requires forall x :: UnfinishedChild(a, p, x) ==> x == c
    requires ResultEffect(a, c, rc, b) && ResultEffect(b, p, rp, d)
    ensures !HasUnfinishedChild(d, p)
  {
    forall x ensures !UnfinishedChild(b, p, x) {
      assert x != c && UnfinishedChild(b, p, x) ==> UnfinishedChild(a, p, x);
    }
    forall x ensures !UnfinishedChild(d, p, x) {
      assert UnfinishedChild(d, p, x) ==> x != p && UnfinishedChild(b, p, x);
    }
  }
}
