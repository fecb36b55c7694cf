/** What follows from leases that hold: one hand per task, final results, and row CHECKs that stay silent. */
module TaskOwnership {
  import opened Results
  import opened TaskTable
  import opened TaskSystem
  import opened TaskInvariants
  import opened TaskLeases

  /** Exclusive processing: in a punctual run no two workers ever have the same task, and no lease runs out under its holder. */
  lemma ExclusiveProcessing(states: seq<System>, steps: seq<Step>, i: nat, v: WorkerId, w: WorkerId)
    requires PunctualRun(states, steps) && i < |states|
    requires HoldOf(states[i], v).Some? && HoldOf(states[i], w).Some?
    ensures HoldOf(states[i], v).value.task == HoldOf(states[i], w).value.task ==> v == w
    ensures var s := states[i]; var id := HoldOf(s, w).value.task;
      && id in s.db.rows
      && (Punctual(s) ==> !Claimable(s.db.rows[id], s.now, s.taskTypes))
      && (OwnedBy(s.db.rows, id, w) || (s.db.rows[id].status.Failed? && s.db.rows[id].error == Some(CANCELLED)))
  {
    PunctualRunInv(states, steps, i);
    var s := states[i];
    assert HoldOk(s, w);
    var h := HoldOf(s, w).value;
    if Punctual(s) && s.db.rows[h.task].status.Running? {
      LeaseCovers(s.now, h, w, s.db.rows[h.task]);
    }
  }

  /** Such a claim puts the task into two hands. */
  lemma SplitIsShared(s: System, step: Step)
    requires LeaseInv(s) && Enabled(s, step) && Splits(s, step)
    ensures !Exclusive(Do(s, step))
  {
    var t := Do(s, step);
    var v, c := s.db.rows[step.id].workerId.value, s.scanner.worker;
    assert TokenOk(s, c) && HoldOf(s, c).None?;
    HandsOff(s, step, v);
    assert HoldOf(t, c).Some? && HoldOf(t, c).value.task == step.id;
  }

  /** The exact law of every step, with no assumption about time: a task comes into two hands if and only if a claim splits it. */
  lemma StepSplits(s: System, step: Step)
    requires LeaseInv(s) && Enabled(s, step)
    ensures Exclusive(Do(s, step)) <==> !Splits(s, step)
    ensures !Splits(s, step) ==> LeaseInv(Do(s, step))
  {
    if Splits(s, step) {
      SplitIsShared(s, step);
    } else {
      StepKeepsLeaseInv(s, step);
    }
  }

  ghost predicate ExclusiveAt(states: seq<System>, i: nat)
    requires i < |states|
  {
    Exclusive(states[i])
  }

  /** Over any run, however late anything is: no task is ever in two hands if and only if no claim splits one. */
  lemma {:induction false} ExclusiveExact(states: seq<System>, steps: seq<Step>, i: nat)
    requires IsRun(states, steps) && i < |states|
    ensures (forall k :: 0 <= k <= i ==> ExclusiveAt(states, k)) <==> (forall k :: 0 <= k < i ==> !SplitsAt(states, steps, k))
  {
    if i == 0 {
      UnsplitRunInv(states, steps, 0);
    } else {
      ExclusiveExact(states, steps, i - 1);
      if forall k :: 0 <= k < i - 1 ==> !SplitsAt(states, steps, k) {
        UnsplitRunInv(states, steps, i - 1);
        assert StepAt(states, steps, i - 1);
        StepSplits(states[i - 1], steps[i - 1]);
        assert ExclusiveAt(states, i) <==> !SplitsAt(states, steps, i - 1);
      }
    }
  }

  lemma StepKeepsCompleted(s: System, step: Step, id: TaskId)
    requires LeaseInv(s) && Enabled(s, step) && id in s.db.rows && s.db.rows[id].status.Completed?
    ensures id in Do(s, step).db.rows && Do(s, step).db.rows[id] == s.db.rows[id]
  {
    match step
    case Api(ops) =>
      OpsTouch(s.db, s.now, ops);
      assert Touched(s.db.rows[id], Do(s, step).db.rows[id]);
    case NoHandler(ok) => NoHandlerDisabled(s, ok);
    case Commit(v) =>
      ProcessorHolds(s, v);
      assert HoldOk(s, v);
      var h := s.ctl[v].hold;
      var d := h.decision.value;
      CommitTouches(s.db, s.now, h.task, d.ops, d.result);
      assert Touched(s.db.rows[id], RunOps(s.db, s.now, d.ops).value.value.rows[id]);
    case _ =>
  }

  /** `completed` is final in every punctual run: the row never changes again. */
  lemma {:induction false} CompletedIsFinal(states: seq<System>, steps: seq<Step>, i: nat, j: nat, id: TaskId)
    requires PunctualRun(states, steps) && i <= j < |states|
    requires id in states[i].db.rows && states[i].db.rows[id].status.Completed?
    ensures id in states[j].db.rows && states[j].db.rows[id] == states[i].db.rows[id]
    decreases j
  {
    if i < j {
      CompletedIsFinal(states, steps, i, j - 1, id);
      PunctualRunInv(states, steps, j - 1);
      assert StepAt(states, steps, j - 1);
      StepKeepsCompleted(states[j - 1], steps[j - 1], id);
    }
  }

  /** Without punctuality `completed` is not final: result updates match on the id alone, so a late result overwrites it. */
  lemma LateResultOverwrites(s: System, w: WorkerId)
    requires WellFormed(s.db) && HasDecided(s, w)
    requires s.ctl[w].hold.task in s.db.rows && s.db.rows[s.ctl[w].hold.task].status.Completed?
    requires s.ctl[w].hold.decision.value.ops == []
    requires s.ctl[w].hold.decision.value.result.newStatus in {Known(Pending), Known(Waiting), Known(Failed)}
    ensures Enabled(s, Commit(w))
    ensures var id := s.ctl[w].hold.task;
      id in Do(s, Commit(w)).db.rows && Do(s, Commit(w)).db.rows[id].status == s.ctl[w].hold.decision.value.result.newStatus.status
  {
    var h := s.ctl[w].hold;
    var r := h.decision.value.result;
    ResultFaults(s.db, h.task, r);
    ResultTouches(s.db, h.task, r);
  }

  /**
   Constraint silence: in a punctual run the row CHECKs reject a commit exactly when, by the end of the handler's own
   calls, its task has been cancelled and the result is not a failure.
   */
  lemma ConstraintSilence(states: seq<System>, steps: seq<Step>, i: nat, w: WorkerId)
    requires PunctualRun(states, steps) && i < |states| && HasDecided(states[i], w)
    ensures var s := states[i]; var h := s.ctl[w].hold; var d := h.decision.value;
      && (RunOps(s.db, s.now, d.ops).Err? ==> RunOps(s.db, s.now, d.ops).error in {TypeCheck, MissingParent})
      && (RunOps(s.db, s.now, d.ops).Ok? ==>
            var rows := RunOps(s.db, s.now, d.ops).value.value.rows;
            && h.task in rows
            && (CommitOf(s, w) == Err(RowCheck) <==>
                  && rows[h.task].status.Failed? && rows[h.task].error == Some(CANCELLED)
                  && d.result.newStatus in {Known(Pending), Known(Waiting), Known(Completed)}))
  {
    PunctualRunInv(states, steps, i);
    var s := states[i];
    ProcessorHolds(s, w);
    assert HoldOk(s, w);
    var h := s.ctl[w].hold;
    var d := h.decision.value;
    OpsFaults(s.db, s.now, d.ops);
    if RunOps(s.db, s.now, d.ops).Ok? {
      OpsTouch(s.db, s.now, d.ops);
      var mid := RunOps(s.db, s.now, d.ops).value.value;
      TouchedStaysHeld(s.db.rows[h.task], mid.rows[h.task], w, h);
      ResultFaults(mid, h.task, d.result);
    }
  }
}
