/**
 What holds in every reachable state of the task queue, with no assumption about time: table constraints,
 worker tokens, channel room, the reachability of the no-handler branch, and the finality of `failed`.
 */
module TaskInvariants {
  import opened Results
  import opened TaskTable
  import opened TaskSystem

  /** Every task in hand exists and is of a type the scanner asks for. */
  ghost predicate HoldsSane(s: System) {
    forall w :: HoldOf(s, w).Some? ==>
      HoldOf(s, w).value.task in s.db.rows && s.db.rows[HoldOf(s, w).value.task].taskType in s.taskTypes
  }

  ghost predicate Inv(s: System) {
    && WellFormed(s.db) && TokensConserved(s) && s.taskTypes <= s.registry && HoldsSane(s)
    && (s.scanner.Dispatching? ==> s.scanner.hold.decision.None?)
  }

  // ------------------------------------------------------------------ the table

  lemma ClaimGrows(s: System, id: TaskId)
    requires WellFormed(s.db) && Enabled(s, Claim(id))
    ensures WellFormed(Do(s, Claim(id)).db) && Grows(s.db, Do(s, Claim(id)).db)
  {
    assert RowOk(s.db.rows[id]);
    OneRow(s.db, id, ClaimedBy(s.db.rows[id], s.scanner.worker, s.now + LEASE_DURATION));
  }

  lemma HeartbeatGrows(s: System, w: WorkerId, ok: bool)
    requires WellFormed(s.db) && Enabled(s, Heartbeat(w, ok))
    ensures WellFormed(Do(s, Heartbeat(w, ok)).db) && Grows(s.db, Do(s, Heartbeat(w, ok)).db)
  {
    var id := s.ctl[w].hold.task;
    if ok && OwnedBy(s.db.rows, id, w) {
      assert RowOk(s.db.rows[id]);
      OneRow(s.db, id, s.db.rows[id].(leaseExpiresAt := Some(s.now + LEASE_DURATION)));
    }
  }

  lemma NoHandlerGrows(s: System, ok: bool)
    requires WellFormed(s.db) && Enabled(s, NoHandler(ok))
    ensures WellFormed(Do(s, NoHandler(ok)).db) && Grows(s.db, Do(s, NoHandler(ok)).db)
  {
    var id := s.scanner.hold.task;
    assert RowOk(s.db.rows[id]);
    OneRow(s.db, id, FailedWith(s.db.rows[id], "no handler registered"));
  }

  lemma CommitGrows(s: System, w: WorkerId)
    requires WellFormed(s.db) && HoldsSane(s) && Enabled(s, Commit(w))
    requires TokensConserved(s)
    ensures WellFormed(Do(s, Commit(w)).db) && Grows(s.db, Do(s, Commit(w)).db)
  {
    ProcessorHolds(s, w);
    var h := s.ctl[w].hold;
    CommitTouches(s.db, s.now, h.task, h.decision.value.ops, h.decision.value.result);
  }

  /** A worker that processes has no token, so the scanner cannot be handing it something else. */
  lemma ProcessorHolds(s: System, w: WorkerId)
    requires TokensConserved(s) && IsProcessing(s, w)
    ensures HoldOf(s, w) == Some(s.ctl[w].hold)
    ensures !(s.scanner.Dispatching? && s.scanner.worker == w)
  {
    assert TokenOk(s, w);
  }

  /** No step breaks a constraint, loses a row, renumbers one, or brings a failed task back. */
  lemma StepGrows(s: System, step: Step)
    requires Inv(s) && Enabled(s, step)
    ensures WellFormed(Do(s, step).db) && Grows(s.db, Do(s, step).db)
  {
    match step
    case Api(ops) => OpsTouch(s.db, s.now, ops);
    case Claim(id) => ClaimGrows(s, id);
    case NoHandler(ok) => NoHandlerGrows(s, ok);
    case Heartbeat(w, ok) => HeartbeatGrows(s, w, ok);
    case Commit(w) => CommitGrows(s, w);
    case _ =>
  }

  // ------------------------------------------------------------ tasks in hand

  /** Which steps change what `w` has in hand. */
  predicate Handles(s: System, step: Step, w: WorkerId) {
    match step
    case Claim(_) => s.scanner.Scanning? && s.scanner.worker == w
    case NoHandler(_) => s.scanner.Dispatching? && s.scanner.worker == w
    case Dispatch => s.scanner.Dispatching? && s.scanner.worker == w
    case Heartbeat(v, _) => v == w
    case Finish(v, _, _) => v == w
    case Commit(v) => v == w
    case Rollback(v, _) => v == w
    case _ => false
  }

  lemma SameHold(s: System, t: System, w: WorkerId)
    requires IsProcessing(t, w) == IsProcessing(s, w) && (IsProcessing(s, w) ==> t.ctl[w] == s.ctl[w])
    requires t.scanner.Dispatching? && t.scanner.worker == w <==> s.scanner.Dispatching? && s.scanner.worker == w
    requires t.scanner.Dispatching? && t.scanner.worker == w ==> t.scanner == s.scanner
    ensures HoldOf(t, w) == HoldOf(s, w)
  {
  }

  lemma HandsOff(s: System, step: Step, w: WorkerId)
    requires Enabled(s, step) && !Handles(s, step, w)
    ensures HoldOf(Do(s, step), w) == HoldOf(s, w)
  {
    SameHold(s, Do(s, step), w);
  }

  /** A task in hand after a step was in hand before, unless the step claimed it. */
  lemma HoldSource(s: System, step: Step, w: WorkerId)
    requires TokensConserved(s) && Enabled(s, step) && HoldOf(Do(s, step), w).Some?
    ensures || (HoldOf(s, w).Some? && HoldOf(s, w).value.task == HoldOf(Do(s, step), w).value.task)
            || (step.Claim? && s.scanner.worker == w && HoldOf(Do(s, step), w).value.task == step.id)
  {
    if !Handles(s, step, w) {
      HandsOff(s, step, w);
    } else if step.Heartbeat? || step.Finish? || step.Commit? || step.Rollback? {
      ProcessorHolds(s, w);
    } else {
      assert TokenOk(s, w);
    }
  }

  lemma HoldStaysSane(s: System, step: Step, w: WorkerId)
    requires Inv(s) && Enabled(s, step) && HoldOf(Do(s, step), w).Some?
    ensures var id := HoldOf(Do(s, step), w).value.task;
      id in s.db.rows && s.db.rows[id].taskType in s.taskTypes
  {
    HoldSource(s, step, w);
  }

  lemma StepKeepsHolds(s: System, step: Step)
    requires Inv(s) && Enabled(s, step)
    ensures HoldsSane(Do(s, step))
  {
    var t := Do(s, step);
    StepGrows(s, step);
    assert SameTypes(s, step);
    forall w | HoldOf(t, w).Some?
      ensures HoldOf(t, w).value.task in t.db.rows && t.db.rows[HoldOf(t, w).value.task].taskType in t.taskTypes
    {
      HoldStaysSane(s, step, w);
    }
  }

  ghost predicate SameTypes(s: System, step: Step)
    requires Enabled(s, step)
  {
    Do(s, step).taskTypes == s.taskTypes && s.registry <= Do(s, step).registry
  }

  lemma StepKeepsWorkers(s: System, step: Step)
    requires Enabled(s, step)
    ensures Do(s, step).ctl.Keys == s.ctl.Keys
  {
  }

  lemma StepKeepsInv(s: System, step: Step)
    requires Inv(s) && Enabled(s, step)
    ensures Inv(Do(s, step))
  {
    StepGrows(s, step);
    StepConservesTokens(s, step);
    StepKeepsHolds(s, step);
    assert SameTypes(s, step);
  }

  lemma InitInv(s: System)
    requires Init(s)
    ensures Inv(s)
  {
    forall w ensures TokenOk(s, w) {}
  }

  /** The invariant holds along every run, whatever the workers, callers and the clock do. */
  lemma {:induction false} RunInv(states: seq<System>, steps: seq<Step>, i: nat)
    requires IsRun(states, steps) && i < |states|
    ensures Inv(states[i])
  {
    if i == 0 {
      InitInv(states[0]);
    } else {
      RunInv(states, steps, i - 1);
      assert StepAt(states, steps, i - 1);
      StepKeepsInv(states[i - 1], steps[i - 1]);
    }
  }

  // ---------------------------------------------------------------- consequences

  lemma ChannelHasRoom(s: System, w: WorkerId)
    requires TokensConserved(s)
    requires (w in s.ctl && s.ctl[w].Announcing?) || w in s.returning
    ensures CanSend(s)
  {
    var m := multiset(s.available);
    assert TokenOk(s, w);
    assert w !in m;
    assert w in s.ctl;
    forall x | x in m ensures m[x] == 1 && x in s.ctl.Keys - {w} {
      assert TokenOk(s, x);
    }
    FewerThan(m, s.ctl.Keys - {w});
  }

  /**
   Worker tokens over every run: a waiting worker is on the channel, with the scanner or on its way back, exactly
   once; any other worker is in none of these places.  Hence a send on the channel never blocks, and whoever the
   scanner dispatches to is at its receive.
   */
  lemma WorkerTokens(states: seq<System>, steps: seq<Step>, i: nat, w: WorkerId)
    requires IsRun(states, steps) && i < |states|
    ensures var s := states[i];
      && multiset(s.available)[w] + s.returning[w] + InHand(s.scanner)[w] == (if Waits(s, w) then 1 else 0)
      && (w in s.ctl && s.ctl[w].Announcing? ==> Enabled(s, Announce(w)))
      && (w in s.returning ==> Enabled(s, GiveBack(w)))
      && (s.scanner.Dispatching? && s.scanner.worker == w ==> Waits(s, w) && Enabled(s, Dispatch))
  {
    RunInv(states, steps, i);
    var s := states[i];
    assert TokenOk(s, w);
    if (w in s.ctl && s.ctl[w].Announcing?) || w in s.returning {
      ChannelHasRoom(s, w);
    }
    assert HoldOf(s, w).Some? ==> HoldOf(s, w).value.task in s.db.rows;
  }

  /** The scanner only claims types the registry knew when it started, and the registry only grows. */
  lemma NoHandlerDisabled(s: System, ok: bool)
    requires Inv(s)
    ensures !Enabled(s, NoHandler(ok))
  {
    if s.scanner.Dispatching? {
      assert HoldOf(s, s.scanner.worker) == Some(s.scanner.hold);
    }
  }

  /** The branch of the scanner for a task type without handler is never taken. */
  lemma NoHandlerUnreachable(states: seq<System>, steps: seq<Step>, i: nat, ok: bool)
    requires IsRun(states, steps) && i < |states|
    ensures !Enabled(states[i], NoHandler(ok))
  {
    RunInv(states, steps, i);
    NoHandlerDisabled(states[i], ok);
  }

  /** Row shape: worker and lease are set exactly on running rows, the error exactly on failed ones, and parents precede children. */
  lemma RowShape(states: seq<System>, steps: seq<Step>, i: nat, id: TaskId)
    requires IsRun(states, steps) && i < |states| && id in states[i].db.rows
    ensures var t := states[i].db.rows[id];
      && (t.status.Running? <==> t.workerId.Some?)
      && (t.status.Running? <==> t.leaseExpiresAt.Some?)
      && (t.status.Failed? <==> t.error.Some?)
      && (t.parentId.Some? ==> t.parentId.value in states[i].db.rows && t.parentId.value < id)
  {
    RunInv(states, steps, i);
    assert RowOk(states[i].db.rows[id]);
  }

  lemma StepKeepsRow(s: System, step: Step, id: TaskId)
    requires Inv(s) && Enabled(s, step) && id in s.db.rows
    ensures var rows := Do(s, step).db.rows;
      && id in rows && SameIdentity(s.db.rows[id], rows[id])
      && (s.db.rows[id].status.Failed? ==> rows[id].status.Failed?)
  {
    StepGrows(s, step);
  }

  /** `failed` is final in every run, and no task ever disappears or changes its type, parent or creation time. */
  lemma {:induction false} FailedIsFinal(states: seq<System>, steps: seq<Step>, i: nat, j: nat, id: TaskId)
    requires IsRun(states, steps) && i <= j < |states| && id in states[i].db.rows
    ensures id in states[j].db.rows && SameIdentity(states[i].db.rows[id], states[j].db.rows[id])
    ensures states[i].db.rows[id].status.Failed? ==> states[j].db.rows[id].status.Failed?
    decreases j
  {
    if i < j {
      FailedIsFinal(states, steps, i, j - 1, id);
      RunInv(states, steps, j - 1);
      assert StepAt(states, steps, j - 1);
      StepKeepsRow(states[j - 1], steps[j - 1], id);
    }
  }
}
