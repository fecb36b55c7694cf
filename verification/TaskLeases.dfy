/**
 Leases and time.  A run is punctual when the heartbeats that return an error never number more than three in a
 row, and when dispatching, ticking and committing together stay at most one heartbeat interval behind.  In
 such runs no lease runs out under its holder.  Without that, rows and hands agree until a claim takes a task from under its holder.
 */
module TaskLeases {
  import opened Results
  import opened TaskTable
  import opened TaskSystem
  import opened TaskInvariants

  const MAX_MISSES := 3

  /** The time from which the lease now in force counts: the claim, or the tick of the last renewal that executed. */
  function LeaseBase(h: Hold): Time {
    if h.startedAt.Some? && h.startedAt.value < h.anchor then h.anchor else h.claimedAt
  }

  /**
   How far the run of a task is behind: time from claim to start, until a renewal has replaced the first lease, plus time past the due
   tick, plus time from result to commit.
   */
  function Delay(now: Time, h: Hold): int {
    match h.startedAt
    case None => now - h.claimedAt
    case Some(start) =>
      var wait := if start < h.anchor then 0 else start - h.claimedAt;
      var end := if h.decision.Some? then h.decision.value.at else now;
      var late := if end > NextTick(h) then end - NextTick(h) else 0;
      wait + late + (now - end)
  }

  predicate OnTime(now: Time, h: Hold) {
    h.misses <= MAX_MISSES && Delay(now, h) <= HEARTBEAT_INTERVAL
  }

  ghost predicate Punctual(s: System) {
    forall w :: HoldOf(s, w).Some? ==> OnTime(s.now, HoldOf(s, w).value)
  }

  /** The order of the recorded times of a hold. */
  predicate TimesOk(now: Time, h: Hold) {
    && h.claimedAt <= now
    && match h.startedAt
       case None => h.misses == 0 && h.decision.None?
       case Some(start) =>
         && h.claimedAt <= start <= h.anchor <= now
         && (h.decision.Some? ==> start <= h.decision.value.at <= now)
  }

  /** The row of a task in the hand of `w`: still running under `w` with a lease that covers its heartbeats, or cancelled. */
  predicate RowHeld(t: Task, w: WorkerId, h: Hold) {
    || (t.status.Failed? && t.error == Some(CANCELLED))
    || (&& t.status.Running? && t.workerId == Some(w) && t.leaseExpiresAt.Some?
        && match h.startedAt
           case None => t.leaseExpiresAt.value == h.claimedAt + LEASE_DURATION
           case Some(_) => t.leaseExpiresAt.value >= LeaseBase(h) + LEASE_DURATION)
  }

  /** Three missed renewals and one interval of delay still fit into the lease. */
  lemma LeaseCovers(now: Time, h: Hold, w: WorkerId, t: Task)
    requires TimesOk(now, h) && OnTime(now, h) && RowHeld(t, w, h) && t.status.Running?
    ensures now <= t.leaseExpiresAt.value
  {
    assert NextTick(h) <= h.anchor + 4 * HEARTBEAT_INTERVAL;
  }

  /** Three renewals in a row have failed and the fourth tick is due before the handler returns. */
  predicate OutOfMisses(now: Time, h: Hold) {
    && h.startedAt.Some? && h.misses == MAX_MISSES
    && (if h.decision.Some? then NextTick(h) <= h.decision.value.at else NextTick(h) <= now)
  }

  /** The budget is exact, before and after renewals: then the row is claimable precisely when the delay exceeds one heartbeat interval, plus what the lease gained because its renewal ran late. */
  lemma LeaseBudgetExact(now: Time, h: Hold, types: set<string>, t: Task, gained: nat)
    requires TimesOk(now, h) && OutOfMisses(now, h) && t.status.Running? && t.taskType in types
    requires t.leaseExpiresAt == Some(LeaseBase(h) + LEASE_DURATION + gained)
    ensures Claimable(t, now, types) <==> Delay(now, h) > HEARTBEAT_INTERVAL + gained
  {
    assert NextTick(h) == h.anchor + 4 * HEARTBEAT_INTERVAL;
  }

  ghost predicate HoldOk(s: System, w: WorkerId) {
    HoldOf(s, w).Some? ==>
      var h := HoldOf(s, w).value;
      && TimesOk(s.now, h) && h.task in s.db.rows && RowHeld(s.db.rows[h.task], w, h)
      && (h.startedAt.None? <==> s.scanner.Dispatching? && s.scanner.worker == w)
  }

  /** No two workers have the same task in hand. */
  ghost predicate Exclusive(s: System) {
    forall v, w :: HoldOf(s, v).Some? && HoldOf(s, w).Some? && HoldOf(s, v).value.task == HoldOf(s, w).value.task ==> v == w
  }

  ghost predicate LeaseInv(s: System) {
    Inv(s) && Exclusive(s) && forall w :: HoldOk(s, w)
  }

  // ------------------------------------------------------------- rows in hand

  /** A claim of a row whose lease has run out while the worker named in the row still has the task in hand. */
  predicate Splits(s: System, step: Step) {
    && step.Claim? && step.id in s.db.rows
    && var t := s.db.rows[step.id];
       && t.status.Running? && t.leaseExpiresAt.Some? && t.leaseExpiresAt.value < s.now
       && t.workerId.Some? && HoldOf(s, t.workerId.value).Some? && HoldOf(s, t.workerId.value).value.task == step.id
  }

  /** Any other claim takes a task that nobody has in hand. */
  lemma ClaimAvoidsHeld(s: System, id: TaskId, w: WorkerId)
    requires LeaseInv(s) && !Splits(s, Claim(id)) && Enabled(s, Claim(id)) && HoldOf(s, w).Some?
    ensures HoldOf(s, w).value.task != id
  {
    assert HoldOk(s, w);
  }

  /** A punctual state lets no claim split a task. */
  lemma PunctualNeverSplits(s: System, step: Step)
    requires LeaseInv(s) && Punctual(s)
    ensures !Splits(s, step)
  {
    if Splits(s, step) {
      var t := s.db.rows[step.id];
      var w := t.workerId.value;
      assert HoldOk(s, w);
      LeaseCovers(s.now, HoldOf(s, w).value, w, t);
    }
  }

  /** A commit by another worker leaves a row in hand alone, or cancels it. */
  lemma CommitSparesHeld(s: System, v: WorkerId, w: WorkerId)
    requires LeaseInv(s) && Enabled(s, Commit(v)) && v != w && HoldOf(s, w).Some?
    ensures var id := HoldOf(s, w).value.task;
            && id in s.db.rows && id in Do(s, Commit(v)).db.rows
            && Touched(s.db.rows[id], Do(s, Commit(v)).db.rows[id])
  {
    assert HoldOk(s, w);
    ProcessorHolds(s, v);
    var h := s.ctl[v].hold;
    var d := h.decision.value;
    var id := HoldOf(s, w).value.task;
    CommitTouches(s.db, s.now, h.task, d.ops, d.result);
    var mid := RunOps(s.db, s.now, d.ops).value.value;
    assert id != h.task;
    assert Touched(s.db.rows[id], mid.rows[id]);
  }

  lemma TouchedStaysHeld(a: Task, b: Task, w: WorkerId, h: Hold)
    requires Touched(a, b) && RowHeld(a, w, h)
    ensures RowHeld(b, w, h)
  {
  }

  /** Steps that leave the hands of `w` alone keep its row held. */
  lemma OtherStepKeepsRow(s: System, step: Step, w: WorkerId)
    requires LeaseInv(s) && !Splits(s, step) && Enabled(s, step) && HoldOf(s, w).Some?
    requires HoldOf(Do(s, step), w) == HoldOf(s, w)
    ensures var h := HoldOf(s, w).value; var rows := Do(s, step).db.rows;
            h.task in rows && RowHeld(rows[h.task], w, h)
  {
    assert HoldOk(s, w);
    var h := HoldOf(s, w).value;
    match step
    case Api(ops) =>
      OpsTouch(s.db, s.now, ops);
      TouchedStaysHeld(s.db.rows[h.task], Do(s, step).db.rows[h.task], w, h);
    case Claim(id) => ClaimAvoidsHeld(s, id, w);
    case NoHandler(ok) => NoHandlerDisabled(s, ok);
    case Heartbeat(v, ok) => ProcessorHolds(s, v);
    case Commit(v) =>
      assert v != w by { ProcessorHolds(s, v); }
      CommitSparesHeld(s, v, w);
      TouchedStaysHeld(s.db.rows[h.task], Do(s, step).db.rows[h.task], w, h);
    case _ =>
  }

  // -------------------------------------------------------------- the invariant

  /** A heartbeat that executes moves the lease along with the anchor. */
  lemma HeartbeatKeepsHold(s: System, w: WorkerId, ok: bool)
    requires LeaseInv(s) && Enabled(s, Heartbeat(w, ok))
    ensures HoldOk(Do(s, Heartbeat(w, ok)), w)
  {
    ProcessorHolds(s, w);
    assert HoldOk(s, w);
    var h := s.ctl[w].hold;
    var t := s.db.rows[h.task];
    if ok && t.status.Running? {
      assert OwnedBy(s.db.rows, h.task, w);
    }
  }

  /** Starting, deciding and waiting keep the row as it is. */
  lemma OwnStepKeepsHold(s: System, step: Step, w: WorkerId)
    requires LeaseInv(s) && Enabled(s, step)
    requires (step.Dispatch? && s.scanner.worker == w) || (step.Finish? && step.w == w) || step.Advance?
    ensures HoldOk(Do(s, step), w)
  {
    assert HoldOk(s, w);
    if step.Finish? {
      ProcessorHolds(s, w);
    }
  }

  lemma StepKeepsHold(s: System, step: Step, w: WorkerId)
    requires LeaseInv(s) && !Splits(s, step) && Enabled(s, step)
    ensures HoldOk(Do(s, step), w)
  {
    var t := Do(s, step);
    assert TokenOk(s, w);
    if !Handles(s, step, w) {
      HandsOff(s, step, w);
      if HoldOf(s, w).Some? {
        assert HoldOk(s, w);
        OtherStepKeepsRow(s, step, w);
      }
    } else if step.Heartbeat? {
      HeartbeatKeepsHold(s, w, step.ok);
    } else if step.Dispatch? || step.Finish? {
      OwnStepKeepsHold(s, step, w);
    } else if step.Claim? {
      assert HoldOf(t, w) == Some(Hold(step.id, s.now, None, s.now, 0, None));
    } else {
      assert HoldOf(t, w).None?;
    }
  }

  lemma StepKeepsExclusive(s: System, step: Step)
    requires LeaseInv(s) && !Splits(s, step) && Enabled(s, step)
    ensures Exclusive(Do(s, step))
  {
    var t := Do(s, step);
    forall v, w | HoldOf(t, v).Some? && HoldOf(t, w).Some? && HoldOf(t, v).value.task == HoldOf(t, w).value.task
      ensures v == w
    {
      HoldSource(s, step, v);
      HoldSource(s, step, w);
      if step.Claim? {
        if HoldOf(s, v).Some? { ClaimAvoidsHeld(s, step.id, v); }
        if HoldOf(s, w).Some? { ClaimAvoidsHeld(s, step.id, w); }
      }
    }
  }

  /** Every step but a splitting claim keeps tasks in single hands, with rows and leases to match, however late anything is. */
  lemma StepKeepsLeaseInv(s: System, step: Step)
    requires LeaseInv(s) && !Splits(s, step) && Enabled(s, step)
    ensures LeaseInv(Do(s, step))
  {
    StepKeepsInv(s, step);
    StepKeepsExclusive(s, step);
    forall w ensures HoldOk(Do(s, step), w) {
      StepKeepsHold(s, step, w);
    }
  }

  ghost predicate SplitsAt(states: seq<System>, steps: seq<Step>, i: nat)
    requires i < |states| && i < |steps|
  {
    Splits(states[i], steps[i])
  }

  lemma {:induction false} UnsplitRunInv(states: seq<System>, steps: seq<Step>, i: nat)
    requires IsRun(states, steps) && i < |states| && forall k :: 0 <= k < i ==> !SplitsAt(states, steps, k)
    ensures LeaseInv(states[i])
  {
    if i == 0 {
      InitInv(states[0]);
    } else {
      UnsplitRunInv(states, steps, i - 1);
      assert StepAt(states, steps, i - 1) && !SplitsAt(states, steps, i - 1);
      StepKeepsLeaseInv(states[i - 1], steps[i - 1]);
    }
  }

  ghost predicate PunctualAt(states: seq<System>, i: nat)
    requires i < |states|
  {
    Punctual(states[i])
  }

  /** Every state before the last one is on time. */
  ghost predicate PunctualRun(states: seq<System>, steps: seq<Step>) {
    IsRun(states, steps) && forall i :: 0 <= i < |steps| ==> PunctualAt(states, i)
  }

  lemma {:induction false} PunctualRunNeverSplits(states: seq<System>, steps: seq<Step>, i: nat)
    requires PunctualRun(states, steps) && i <= |steps|
    ensures forall k :: 0 <= k < i ==> !SplitsAt(states, steps, k)
  {
    if i > 0 {
      PunctualRunNeverSplits(states, steps, i - 1);
      UnsplitRunInv(states, steps, i - 1);
      assert PunctualAt(states, i - 1);
      PunctualNeverSplits(states[i - 1], steps[i - 1]);
    }
  }

  lemma PunctualRunInv(states: seq<System>, steps: seq<Step>, i: nat)
    requires PunctualRun(states, steps) && i < |states|
    ensures LeaseInv(states[i])
  {
    PunctualRunNeverSplits(states, steps, i);
    UnsplitRunInv(states, steps, i);
  }
}
