/** Order of service: how often a pending task can be passed over. */
module TaskFairness {
  import opened Basics
  import opened TaskTable
  import opened TaskSystem
  import opened TaskInvariants

  // -------------------------------------------------------------- new rows are young

  /** Rows that calls have added carry the current time. */
  ghost predicate NewAreStamped(a: Rows, b: Rows, now: Time) {
    forall id :: id in b && id !in a ==> b[id].createdAt == now
  }

  lemma OpStamps(db: Db, now: Time, op: Op)
    requires RunOp(db, now, op).Ok?
    ensures NewAreStamped(db.rows, RunOp(db, now, op).value.value.rows, now)
  {
  }

  lemma {:induction false} OpsStamp(db: Db, now: Time, ops: seq<Op>)
    requires WellFormed(db) && RunOps(db, now, ops).Ok?
    ensures NewAreStamped(db.rows, RunOps(db, now, ops).value.value.rows, now)
    decreases |ops|
  {
    if ops != [] {
      var mid := RunOp(db, now, ops[0]).value.value;
      OpTouches(db, now, ops[0]);
      OpStamps(db, now, ops[0]);
      OpsTouch(mid, now, ops[1..]);
      OpsStamp(mid, now, ops[1..]);
    }
  }

  lemma StepStamps(s: System, step: Step)
    requires Inv(s) && Enabled(s, step)
    ensures NewAreStamped(s.db.rows, Do(s, step).db.rows, s.now)
  {
    match step
    case Api(ops) => OpsStamp(s.db, s.now, ops);
    case Commit(w) => CommitStamps(s, w);
    case NoHandler(ok) => NoHandlerDisabled(s, ok);
    case _ =>
  }

  lemma CommitStamps(s: System, w: WorkerId)
    requires Inv(s) && Enabled(s, Commit(w))
    ensures NewAreStamped(s.db.rows, Do(s, Commit(w)).db.rows, s.now)
  {
    ProcessorHolds(s, w);
    var h := s.ctl[w].hold;
    var d := h.decision.value;
    CommitTouches(s.db, s.now, h.task, d.ops, d.result);
    OpsStamp(s.db, s.now, d.ops);
    var mid, end := RunOps(s.db, s.now, d.ops).value.value, Do(s, Commit(w)).db;
    assert end.rows.Keys == mid.rows.Keys && Grows(mid, end);
  }

  // ------------------------------------------------------------------------ the queue

  predicate IsPending(s: System, id: TaskId) {
    PendingOf(s.db.rows, s.taskTypes, id)
  }

  /** Pending handled tasks that are not younger than `id`. */
  function Ahead(s: System, id: TaskId): set<TaskId>
    requires id in s.db.rows
  {
    set u | u in s.db.rows && u != id && IsPending(s, u) && s.db.rows[u].createdAt <= s.db.rows[id].createdAt
  }

  /** Handled tasks that are not younger than `id` and that the step makes pending again. */
  ghost function Returned(s: System, step: Step, id: TaskId): set<TaskId>
    requires Enabled(s, step) && id in s.db.rows
  {
    set u | u in s.db.rows && !IsPending(s, u) && IsPending(Do(s, step), u) && s.db.rows[u].createdAt <= s.db.rows[id].createdAt
  }

  /** A claim that takes over an expired lease instead of a pending task. */
  predicate TakesOver(s: System, step: Step) {
    step.Claim? && step.id in s.db.rows && s.db.rows[step.id].status.Running?
  }

  predicate TakesPending(s: System, step: Step) {
    step.Claim? && !TakesOver(s, step)
  }

  lemma AheadGrowsByReturned(s: System, step: Step, id: TaskId)
    requires Inv(s) && Enabled(s, step) && IsPending(s, id) && s.db.rows[id].createdAt < s.now
    ensures id in Do(s, step).db.rows && Ahead(Do(s, step), id) <= Ahead(s, id) + Returned(s, step, id)
  {
    StepGrows(s, step);
    StepStamps(s, step);
    assert SameTypes(s, step);
  }

  /** A claim of a pending task takes one from the queue ahead of any task it does not take. */
  lemma ClaimComesFromAhead(s: System, c: TaskId, id: TaskId)
    requires Enabled(s, Claim(c)) && TakesPending(s, Claim(c)) && IsPending(s, id) && IsPending(Do(s, Claim(c)), id)
    ensures c in Ahead(s, id) && c !in Ahead(Do(s, Claim(c)), id) && Returned(s, Claim(c), id) == {}
  {
    assert Claimable(s.db.rows[id], s.now, s.taskTypes);
  }

  /** The exact account of one step: only tasks that return to pending can get ahead, and each claim of a pending task shortens the queue. */
  lemma StepShortensQueue(s: System, step: Step, id: TaskId)
    requires Inv(s) && Enabled(s, step) && IsPending(s, id) && IsPending(Do(s, step), id) && s.db.rows[id].createdAt < s.now
    ensures |Ahead(Do(s, step), id)| + Count(TakesPending(s, step)) <= |Ahead(s, id)| + |Returned(s, step, id)|
  {
    var t := Do(s, step);
    AheadGrowsByReturned(s, step, id);
    if TakesPending(s, step) {
      ClaimComesFromAhead(s, step.id, id);
      SmallerSet(Ahead(t, id) + {step.id}, Ahead(s, id));
    } else {
      SmallerSet(Ahead(t, id), Ahead(s, id) + Returned(s, step, id));
    }
  }

  // ------------------------------------------------------------------------- any run

  /** The number of successful claims among `steps[a..b]`. */
  function Claims(steps: seq<Step>, a: nat, b: nat): nat
    requires a <= b <= |steps|
  {
    if a == b then 0 else Claims(steps, a, b - 1) + Count(steps[b - 1].Claim?)
  }

  /** Those among them that took over an expired lease. */
  function TakeOvers(states: seq<System>, steps: seq<Step>, a: nat, b: nat): nat
    requires a <= b <= |steps| && |steps| < |states|
  {
    if a == b then 0 else TakeOvers(states, steps, a, b - 1) + Count(TakesOver(states[b - 1], steps[b - 1]))
  }

  /** The older tasks that step `i` makes pending again. */
  ghost function ReturnedAt(states: seq<System>, steps: seq<Step>, i: nat, id: TaskId): set<TaskId>
    requires i < |steps| && i < |states|
  {
    if Enabled(states[i], steps[i]) && id in states[i].db.rows then Returned(states[i], steps[i], id) else {}
  }

  /** How often an older task returned to pending in between. */
  ghost function Returns(states: seq<System>, steps: seq<Step>, a: nat, b: nat, id: TaskId): nat
    requires a <= b <= |steps| && |steps| < |states|
  {
    if a == b then 0 else Returns(states, steps, a, b - 1, id) + |ReturnedAt(states, steps, b - 1, id)|
  }

  /** `id` has been pending all the time from `a` to `b`. */
  ghost predicate PendingThroughout(states: seq<System>, a: nat, b: nat, id: TaskId)
    requires a <= b < |states|
  {
    forall k :: a <= k <= b ==> IsPending(states[k], id)
  }

  lemma {:induction false} StillYounger(states: seq<System>, steps: seq<Step>, a: nat, b: nat, id: TaskId)
    requires IsRun(states, steps) && a <= b < |states| && id in states[a].db.rows && states[a].db.rows[id].createdAt < states[a].now
    ensures id in states[b].db.rows && states[b].db.rows[id].createdAt < states[b].now
    decreases b
  {
    if a < b {
      StillYounger(states, steps, a, b - 1, id);
      YoungerAt(states, steps, b - 1, id);
    }
  }

  lemma YoungerAt(states: seq<System>, steps: seq<Step>, i: nat, id: TaskId)
    requires IsRun(states, steps) && i < |steps| && id in states[i].db.rows
    ensures id in states[i + 1].db.rows && states[i + 1].db.rows[id].createdAt == states[i].db.rows[id].createdAt
    ensures states[i].now <= states[i + 1].now
  {
    RunInv(states, steps, i);
    assert StepAt(states, steps, i);
    StepKeepsRow(states[i], steps[i], id);
    StepKeepsClock(states[i], steps[i]);
  }

  lemma StepKeepsClock(s: System, step: Step)
    requires Enabled(s, step)
    ensures s.now <= Do(s, step).now
  {
  }

  lemma QueueAt(states: seq<System>, steps: seq<Step>, i: nat, id: TaskId)
    requires IsRun(states, steps) && i < |steps| && IsPending(states[i], id) && IsPending(states[i + 1], id)
    requires states[i].db.rows[id].createdAt < states[i].now
    ensures |Ahead(states[i + 1], id)| + Count(steps[i].Claim?) <=
      |Ahead(states[i], id)| + |ReturnedAt(states, steps, i, id)| + Count(TakesOver(states[i], steps[i]))
  {
    RunInv(states, steps, i);
    assert StepAt(states, steps, i);
    StepShortensQueue(states[i], steps[i], id);
  }

  /** The account up to moment `b`. */
  ghost predicate Accounted(states: seq<System>, steps: seq<Step>, a: nat, b: nat, id: TaskId)
    requires a <= b <= |steps| && |steps| < |states| && id in states[a].db.rows && id in states[b].db.rows
  {
    Claims(steps, a, b) + |Ahead(states[b], id)| <=
      |Ahead(states[a], id)| + Returns(states, steps, a, b, id) + TakeOvers(states, steps, a, b)
  }

  lemma AccountedNext(states: seq<System>, steps: seq<Step>, a: nat, b: nat, id: TaskId)
    requires a <= b < |steps| && |steps| < |states| && id in states[a].db.rows && id in states[b].db.rows && id in states[b + 1].db.rows
    requires Accounted(states, steps, a, b, id)
    requires |Ahead(states[b + 1], id)| + Count(steps[b].Claim?) <=
      |Ahead(states[b], id)| + |ReturnedAt(states, steps, b, id)| + Count(TakesOver(states[b], steps[b]))
    ensures Accounted(states, steps, a, b + 1, id)
  {
  }

  /**
   Bypass over any run, with no assumption about handlers, leases or callers: while a task stays pending, the claims made are at most the older
   pending tasks there were, plus the times an older task returned to pending, plus the claims that took over an expired lease; what is
   still ahead counts too.  Newer tasks do not count, however many arrive.
   */
  lemma {:induction false} BypassLaw(states: seq<System>, steps: seq<Step>, a: nat, b: nat, id: TaskId)
    requires IsRun(states, steps) && a <= b < |states| && PendingThroughout(states, a, b, id)
    requires IsPending(states[a], id) && states[a].db.rows[id].createdAt < states[a].now
    ensures IsPending(states[b], id)
    ensures Claims(steps, a, b) + |Ahead(states[b], id)| <=
      |Ahead(states[a], id)| + Returns(states, steps, a, b, id) + TakeOvers(states, steps, a, b)
    decreases b
  {
    if a < b {
      BypassLaw(states, steps, a, b - 1, id);
      StillYounger(states, steps, a, b - 1, id);
      QueueAt(states, steps, b - 1, id);
      AccountedNext(states, steps, a, b - 1, id);
    }
  }

  // --------------------------------------------- handlers that end their tasks

  predicate Final(r: HandlerResult) {
    r.newStatus in {Known(Completed), Known(Failed)}
  }

  /** Every handler that has returned ended its task. */
  ghost predicate AllFinal(s: System) {
    forall w :: HasDecided(s, w) ==> Final(s.ctl[w].hold.decision.value.result)
  }

  predicate Ends(step: Step) {
    step.Finish? ==> Final(step.result)
  }

  /** No lease of a handled task has run out. */
  ghost predicate NoneExpired(s: System) {
    forall id :: id in s.db.rows && s.db.rows[id].status.Running? ==> !Claimable(s.db.rows[id], s.now, s.taskTypes)
  }

  /** No task that waits is pending afterwards. */
  ghost predicate ResumesNone(s: System, step: Step)
    requires Enabled(s, step)
  {
    forall u :: u in s.db.rows && s.db.rows[u].status.Waiting? && u in Do(s, step).db.rows ==> !Do(s, step).db.rows[u].status.Pending?
  }

  /** What a stretch of a run must keep to: handlers end their tasks, no lease expires, nothing is resumed. */
  ghost predicate Orderly(s: System, step: Step) {
    Ends(step) && NoneExpired(s) && Enabled(s, step) && ResumesNone(s, step)
  }

  /** A final result makes pending only what waited. */
  lemma FinalResultReturns(a: Rows, id: TaskId, r: HandlerResult, b: Rows, u: TaskId)
    requires id in a && Final(r) && ResultEffect(a, id, r, b) && u in a && b[u].status.Pending?
    ensures a[u].status.Pending? || a[u].status.Waiting?
  {
  }

  lemma FinalCommitReturns(db: Db, now: Time, id: TaskId, ops: seq<Op>, r: HandlerResult, u: TaskId)
    requires WellFormed(db) && id in db.rows && CommitRun(db, now, id, ops, r).Ok? && Final(r) && u in db.rows
    ensures u in CommitRun(db, now, id, ops, r).value.value.rows
    ensures CommitRun(db, now, id, ops, r).value.value.rows[u].status.Pending? ==>
      db.rows[u].status.Pending? || db.rows[u].status.Waiting?
  {
    CommitTouches(db, now, id, ops, r);
    var mid, end := RunOps(db, now, ops).value.value, CommitRun(db, now, id, ops, r).value.value;
    assert Touched(db.rows[u], mid.rows[u]);
    if end.rows[u].status.Pending? {
      FinalResultReturns(mid.rows, id, r, end.rows, u);
    }
  }

  lemma CommitReturnsNone(s: System, w: WorkerId, u: TaskId)
    requires Inv(s) && AllFinal(s) && Enabled(s, Commit(w)) && ResumesNone(s, Commit(w)) && u in s.db.rows && !s.db.rows[u].status.Pending?
    ensures u in Do(s, Commit(w)).db.rows && !Do(s, Commit(w)).db.rows[u].status.Pending?
  {
    ProcessorHolds(s, w);
    var h := s.ctl[w].hold;
    FinalCommitReturns(s.db, s.now, h.task, h.decision.value.ops, h.decision.value.result, u);
  }

  /** Then no task becomes pending that was there and was not. */
  lemma OrderlyReturnsNone(s: System, step: Step, u: TaskId)
    requires Inv(s) && AllFinal(s) && Orderly(s, step) && u in s.db.rows && !s.db.rows[u].status.Pending?
    ensures u in Do(s, step).db.rows && !Do(s, step).db.rows[u].status.Pending?
  {
    match step
    case Api(ops) =>
      OpsTouch(s.db, s.now, ops);
      assert Touched(s.db.rows[u], Do(s, step).db.rows[u]);
    case Commit(w) => CommitReturnsNone(s, w, u);
    case NoHandler(ok) => NoHandlerDisabled(s, ok);
    case _ =>
  }

  lemma StepKeepsFinal(s: System, step: Step)
    requires Inv(s) && AllFinal(s) && Enabled(s, step) && Ends(step)
    ensures AllFinal(Do(s, step))
  {
    var t := Do(s, step);
    forall w | HasDecided(t, w) ensures Final(t.ctl[w].hold.decision.value.result) {
      assert (step.Finish? && step.w == w) || (HasDecided(s, w) && s.ctl[w].hold.decision == t.ctl[w].hold.decision);
    }
  }

  ghost predicate OrderlyAt(states: seq<System>, steps: seq<Step>, i: nat)
    requires i < |states| && i < |steps|
  {
    Orderly(states[i], steps[i])
  }

  lemma {:induction false} FinalUntil(states: seq<System>, steps: seq<Step>, a: nat, b: nat)
    requires IsRun(states, steps) && a <= b < |states| && AllFinal(states[a])
    requires forall k :: a <= k < b ==> OrderlyAt(states, steps, k)
    ensures AllFinal(states[b])
    decreases b
  {
    if a < b {
      FinalUntil(states, steps, a, b - 1);
      RunInv(states, steps, b - 1);
      assert OrderlyAt(states, steps, b - 1) && StepAt(states, steps, b - 1);
      StepKeepsFinal(states[b - 1], steps[b - 1]);
    }
  }

  /** One orderly step brings nobody back and takes over no lease. */
  lemma OrderlyStep(states: seq<System>, steps: seq<Step>, i: nat, id: TaskId)
    requires IsRun(states, steps) && i < |steps| && AllFinal(states[i]) && OrderlyAt(states, steps, i)
    ensures ReturnedAt(states, steps, i, id) == {} && !TakesOver(states[i], steps[i])
    ensures id in states[i].db.rows && IsPending(states[i + 1], id) ==> IsPending(states[i], id)
  {
    var s, step := states[i], steps[i];
    RunInv(states, steps, i);
    assert StepAt(states, steps, i) && SameTypes(s, step);
    forall u | u in s.db.rows && !s.db.rows[u].status.Pending? ensures u in Do(s, step).db.rows && !Do(s, step).db.rows[u].status.Pending? {
      OrderlyReturnsNone(s, step, u);
    }
    StepGrows(s, step);
  }

  lemma {:induction false} OrderlyStretch(states: seq<System>, steps: seq<Step>, a: nat, b: nat, id: TaskId)
    requires IsRun(states, steps) && a <= b < |states| && AllFinal(states[a]) && IsPending(states[a], id) && IsPending(states[b], id)
    requires forall k :: a <= k < b ==> OrderlyAt(states, steps, k)
    ensures PendingThroughout(states, a, b, id) && Returns(states, steps, a, b, id) == 0 && TakeOvers(states, steps, a, b) == 0
    decreases b
  {
    if a < b {
      FinalUntil(states, steps, a, b - 1);
      FailedIsFinal(states, steps, a, b - 1, id);
      OrderlyStep(states, steps, b - 1, id);
      OrderlyStretch(states, steps, a, b - 1, id);
    }
  }

  /**
   Bounded bypass: while every handler run ends its task, no lease expires and nothing is resumed, though tasks may wait, a task that is
   still pending has seen no more successful claims than there were older pending tasks, whatever newer tasks arrive.
   */
  lemma BoundedBypass(states: seq<System>, steps: seq<Step>, a: nat, b: nat, id: TaskId)
    requires IsRun(states, steps) && a <= b < |states|
    requires AllFinal(states[a]) && forall k :: a <= k < b ==> OrderlyAt(states, steps, k)
    requires IsPending(states[a], id) && states[a].db.rows[id].createdAt < states[a].now && IsPending(states[b], id)
    ensures Claims(steps, a, b) + |Ahead(states[b], id)| <= |Ahead(states[a], id)|
  {
    OrderlyStretch(states, steps, a, b, id);
    BypassLaw(states, steps, a, b, id);
  }
}
