/** Runs that show where the guarantees of the queue end: each ends in a state that the guarantee would exclude. */
module TaskWitnesses {
  import opened Results
  import opened TaskTable
  import opened TaskSystem
  import opened TaskInvariants
  import opened TaskFinality
  import TaskLeases
  import TaskOwnership
  import opened TaskWakeups
  import TaskScans
  import TaskReclaims

  /**
   Some run ends in `s` whose handlers wait only for unfinished children, without cancellation, and from a table in which everyone
   who waits has such a child.
   */
  ghost predicate Reachable(s: System) {
    exists states: seq<System>, steps :: PoliteRun(states, steps) && WaitersHaveChildren(states[0].db.rows) && states[|states| - 1] == s
  }

  lemma StartReaches(s: System)
    requires Init(s) && WaitersHaveChildren(s.db.rows)
    ensures Reachable(s)
  {
    assert PoliteRun([s], []);
  }

  lemma StepReaches(s: System, step: Step)
    requires Reachable(s) && Enabled(s, step) && Polite(s, step)
    ensures Reachable(Do(s, step))
  {
    var states: seq<System>, steps :| PoliteRun(states, steps) && WaitersHaveChildren(states[0].db.rows) && states[|states| - 1] == s;
    var states', steps' := states + [Do(s, step)], steps + [step];
    forall i | 0 <= i < |steps'| ensures StepAt(states', steps', i) && Polite(states'[i], steps'[i]) {
      if i < |steps| {
        assert StepAt(states, steps, i) && Polite(states[i], steps[i]);
      }
    }
    assert PoliteRun(states', steps');
  }

  // ---------------------------------------------------------------- a small queue

  const TYPE := "t"

  function Queued(parent: Option<TaskId>, at: Time): Task {
    Task(TYPE, EMPTY_OBJECT, Pending, None, None, None, parent, at)
  }

  /** `StartHandlers` on a table with ids below 3. */
  function Start(rows: Rows, ctl: map<WorkerId, Ctl>): System {
    System(Db(rows, 3), 1, ctl, [], multiset{}, Top(true), 0, {TYPE}, {TYPE})
  }

  function Returns(status: Status): HandlerResult {
    HandlerResult(None, Known(status), "")
  }

  /** The state once the first worker on the channel processes `id`. */
  function Assigned(s: System, id: TaskId): System
    requires s.available != [] && id in s.db.rows
  {
    var w := s.available[0];
    s.(db := s.db.(rows := s.db.rows[id := ClaimedBy(s.db.rows[id], w, s.now + LEASE_DURATION)]),
       available := s.available[1..],
       ctl := s.ctl[w := Processing(Hold(id, s.now, Some(s.now), s.now, 0, None))])
  }

  function Taken(s: System): System
    requires s.available != []
  {
    s.(scanner := Scanning(s.available[0]), available := s.available[1..])
  }

  lemma Take(s: System)
    requires Reachable(s) && s.scanner == Top(true) && s.available != []
    ensures Reachable(Taken(s))
  {
    StepReaches(s, TakeWorker);
  }

  lemma ClaimReaches(s: System, id: TaskId)
    requires Reachable(s) && s.scanner.Scanning? && Oldest(s.db.rows, s.now, s.taskTypes, id)
    ensures Reachable(AfterClaim(s, id))
  {
    StepReaches(s, Claim(id));
  }

  lemma DispatchReaches(s: System)
    requires Reachable(s) && Enabled(s, Dispatch)
    ensures Reachable(AfterDispatch(s))
  {
    StepReaches(s, Dispatch);
  }

  /** Take a worker, claim, dispatch. */
  lemma Assign(s: System, id: TaskId)
    requires Reachable(s) && s.scanner == Top(true) && s.available != [] && Waits(s, s.available[0])
    requires Oldest(s.db.rows, s.now, s.taskTypes, id) && s.taskTypes <= s.registry
    ensures Reachable(Assigned(s, id))
  {
    Take(s);
    ClaimReaches(Taken(s), id);
    DispatchReaches(AfterClaim(Taken(s), id));
    assert AfterDispatch(AfterClaim(Taken(s), id)) == Assigned(s, id);
  }

  /** The state once the scanner has found nothing for the first worker on the channel. */
  function Slept(s: System): System
    requires s.available != []
  {
    s.(scanner := Top(false), available := s.available[1..], returning := s.returning + multiset{s.available[0]})
  }

  lemma FallAsleep(s: System)
    requires Reachable(s) && s.scanner == Top(true) && s.available != [] && NothingClaimable(s.db.rows, s.now, s.taskTypes)
    ensures Reachable(Slept(s))
  {
    Take(s);
    StepReaches(Taken(s), ScanEmpty);
  }

  function Ready(rows: Rows, ctl: map<WorkerId, Ctl>, available: seq<WorkerId>): System {
    Start(rows, ctl).(available := available)
  }

  lemma Announces(s: System, w: WorkerId)
    requires Reachable(s) && w in s.ctl && s.ctl[w].Announcing? && CanSend(s)
    ensures Reachable(s.(ctl := s.ctl[w := Awaiting], available := s.available + [w]))
  {
    StepReaches(s, Announce(w));
  }

  lemma Starts(rows: Rows, ctl: map<WorkerId, Ctl>)
    requires WellFormed(Db(rows, 3)) && WaitersHaveChildren(rows) && ctl.Keys != {} && forall w :: w in ctl ==> ctl[w].Announcing?
    ensures Reachable(Start(rows, ctl))
  {
    StartReaches(Start(rows, ctl));
  }

  lemma OneReady(rows: Rows, v: WorkerId)
    requires WellFormed(Db(rows, 3)) && WaitersHaveChildren(rows)
    ensures Reachable(Ready(rows, map[v := Awaiting], [v]))
  {
    var ctl: map<WorkerId, Ctl> := map[v := Announcing];
    assert ctl.Keys == {v} && ctl[v := Awaiting] == map[v := Awaiting];
    Starts(rows, ctl);
    Announces(Start(rows, ctl), v);
  }

  lemma BothAnnounce(s: System, v: WorkerId, w: WorkerId)
    requires Reachable(s) && v in s.ctl && w in s.ctl && v != w && s.ctl[v].Announcing? && s.ctl[w].Announcing?
    requires s.available == [] && |s.ctl| == 2
    ensures Reachable(s.(ctl := s.ctl[v := Awaiting][w := Awaiting], available := [v, w]))
  {
    Announces(s, v);
    assert |s.ctl[v := Awaiting]| == 2 by { assert s.ctl[v := Awaiting].Keys == s.ctl.Keys; }
    assert s.available + [v] == [v] && [v] + [w] == [v, w];
    Announces(s.(ctl := s.ctl[v := Awaiting], available := [v]), w);
  }

  function BothAt(v: WorkerId, w: WorkerId, at: Ctl): map<WorkerId, Ctl> {
    map[v := at, w := at]
  }

  lemma BothAtFacts(v: WorkerId, w: WorkerId)
    requires v != w
    ensures var ctl := BothAt(v, w, Announcing); ctl.Keys == {v, w} && |ctl| == 2 && ctl[v := Awaiting][w := Awaiting] == BothAt(v, w, Awaiting)
  {
    assert BothAt(v, w, Announcing).Keys == {v, w};
  }

  lemma TwoReady(rows: Rows, v: WorkerId, w: WorkerId)
    requires WellFormed(Db(rows, 3)) && WaitersHaveChildren(rows) && v != w
    ensures Reachable(Ready(rows, BothAt(v, w, Awaiting), [v, w]))
  {
    var ctl := BothAt(v, w, Announcing);
    BothAtFacts(v, w);
    Starts(rows, ctl);
    BothAnnounce(Start(rows, ctl), v, w);
  }

  /** The worker's handler has returned, without calls of its own. */
  function Decided(s: System, w: WorkerId, status: Status): System
    requires IsProcessing(s, w)
  {
    s.(ctl := s.ctl[w := Processing(s.ctl[w].hold.(decision := Some(Decision(s.now, [], Returns(status)))))])
  }

  lemma Decide(s: System, w: WorkerId, status: Status)
    requires Reachable(s) && IsProcessing(s, w) && s.ctl[w].hold.decision.None?
    requires status.Waiting? ==> HasUnfinishedChild(s.db.rows, s.ctl[w].hold.task)
    ensures Reachable(Decided(s, w, status))
  {
    StepReaches(s, Finish(w, [], Returns(status)));
  }

  lemma ReachableInv(s: System)
    requires Reachable(s)
    ensures Inv(s)
  {
    var states: seq<System>, steps :| PoliteRun(states, steps) && WaitersHaveChildren(states[0].db.rows) && states[|states| - 1] == s;
    RunInv(states, steps, |states| - 1);
  }

  // -------------------------------------------------------------------- the runs

  function OnePending(): Rows {
    map[1 := Queued(None, 0)]
  }

  function TwoWaiting(v: WorkerId, w: WorkerId): System {
    Ready(OnePending(), BothAt(v, w, Awaiting), [v, w])
  }

  /** `v` has decided to try again later, and its lease has run out. */
  function Late(v: WorkerId, w: WorkerId): System {
    Decided(Assigned(TwoWaiting(v, w), 1), v, Pending).(now := LEASE_DURATION + 2)
  }

  lemma LateReached(v: WorkerId, w: WorkerId)
    requires v != w
    ensures Reachable(Late(v, w))
  {
    var s := TwoWaiting(v, w);
    TwoReady(OnePending(), v, w);
    Assign(s, 1);
    var s1 := Assigned(s, 1);
    Decide(s1, v, Pending);
    var s2 := Decided(s1, v, Pending);
    StepReaches(s2, Advance(LEASE_DURATION + 1));
    assert Do(s2, Advance(LEASE_DURATION + 1)) == Late(v, w);
  }

  /** Two workers have the same task in hand. */
  function TwoHands(v: WorkerId, w: WorkerId): System {
    Assigned(Late(v, w), 1)
  }

  lemma TwoHandsReached(v: WorkerId, w: WorkerId)
    requires v != w
    ensures Reachable(TwoHands(v, w)) && !TaskLeases.Exclusive(TwoHands(v, w))
  {
    LateReached(v, w);
    var s := Late(v, w);
    assert s.available == [w] && Claimable(s.db.rows[1], s.now, s.taskTypes);
    Assign(s, 1);
    assert HoldOf(TwoHands(v, w), v).value.task == HoldOf(TwoHands(v, w), w).value.task;
  }

  /** `w` has completed the task, and `v` still has its own result for it. */
  function CompletedOnce(v: WorkerId, w: WorkerId): System {
    var s := Decided(TwoHands(v, w), w, Completed);
    s.(ctl := s.ctl[w := Announcing], db := s.db.(rows := s.db.rows[1 := Released(s.db.rows[1], Completed, None)]))
  }

  lemma SecondCompletes(v: WorkerId, w: WorkerId)
    requires v != w
    ensures var s := Decided(TwoHands(v, w), w, Completed); Enabled(s, Commit(w)) && Do(s, Commit(w)) == CompletedOnce(v, w)
  {
  }

  lemma CompletedOnceReached(v: WorkerId, w: WorkerId)
    requires v != w
    ensures Reachable(CompletedOnce(v, w))
  {
    TwoHandsReached(v, w);
    Decide(TwoHands(v, w), w, Completed);
    SecondCompletes(v, w);
    StepReaches(Decided(TwoHands(v, w), w, Completed), Commit(w));
  }

  /** `completed` is not final: a run in which a task is completed and then pending again. */
  lemma CompletedIsLeft(v: WorkerId, w: WorkerId)
    requires v != w
    ensures exists s, step, id ::
      && Reachable(s) && Enabled(s, step) && IsCompleted(s, id)
      && id in Do(s, step).db.rows && Do(s, step).db.rows[id].status.Pending?
  {
    CompletedOnceReached(v, w);
    var s := CompletedOnce(v, w);
    ReachableInv(s);
    TaskOwnership.LateResultOverwrites(s, v);
    assert IsCompleted(s, 1) && Do(s, Commit(v)).db.rows[1].status.Pending?;
  }

  /** A parent and its child, both pending, the parent older. */
  function Family(): Rows {
    map[1 := Queued(None, 0), 2 := Queued(Some(1), 1)]
  }

  /** `v` has the parent and `w` the child. */
  function BothAtWork(v: WorkerId, w: WorkerId): System {
    Assigned(Assigned(Ready(Family(), BothAt(v, w, Awaiting), [v, w]), 1), 2)
  }

  /** After the parent has gone to `v`, the child is the oldest task to claim. */
  lemma ChildIsNext(v: WorkerId, w: WorkerId)
    requires v != w
    ensures var s := Assigned(Ready(Family(), BothAt(v, w, Awaiting), [v, w]), 1);
      s.available == [w] && Waits(s, w) && Oldest(s.db.rows, s.now, s.taskTypes, 2)
  {
  }

  lemma BothAtWorkReached(v: WorkerId, w: WorkerId)
    requires v != w
    ensures Reachable(BothAtWork(v, w))
  {
    var s := Ready(Family(), BothAt(v, w, Awaiting), [v, w]);
    TwoReady(Family(), v, w);
    Assign(s, 1);
    ChildIsNext(v, w);
    Assign(Assigned(s, 1), 2);
  }

  /** The parent's handler has seen its child unfinished and decided to wait; the child's handler has decided to complete. */
  function BothDecided(v: WorkerId, w: WorkerId): System
    requires v != w
  {
    Decided(Decided(BothAtWork(v, w), v, Waiting), w, Completed)
  }

  lemma BothDecidedReached(v: WorkerId, w: WorkerId)
    requires v != w
    ensures Reachable(BothDecided(v, w))
  {
    BothAtWorkReached(v, w);
    var s := BothAtWork(v, w);
    assert UnfinishedChild(s.db.rows, 1, 2);
    Decide(s, v, Waiting);
    Decide(Decided(s, v, Waiting), w, Completed);
  }

  /** With two workers a wake-up is lost: the parent decides to wait while its child is unfinished, and commits after it. */
  lemma WakeupIsLost(v: WorkerId, w: WorkerId)
    requires v != w
    ensures exists s :: Reachable(s) && !WaitersHaveChildren(s.db.rows)
  {
    BothDecidedReached(v, w);
    var s := BothDecided(v, w);
    ReachableInv(s);
    TwoWorkersLoseWakeup(s, v, w, 1, 2);
    CommitsReach(s, w, v);
  }

  lemma CommitsReach(s: System, v: WorkerId, w: WorkerId)
    requires Reachable(s) && Enabled(s, Commit(v)) && Enabled(Do(s, Commit(v)), Commit(w))
    ensures Reachable(Do(Do(s, Commit(v)), Commit(w)))
  {
    StepReaches(s, Commit(v));
    StepReaches(Do(s, Commit(v)), Commit(w));
  }

  lemma CancelAlone(s: System, root: TaskId)
    ensures Enabled(s, Api([Cancel(root)])) && Do(s, Api([Cancel(root)])).db.rows == CancelTree(s.db.rows, root)
  {
    OneOpRuns(s.db, s.now, Cancel(root));
  }

  function ParentWaits(): Rows {
    map[1 := Queued(None, 0).(status := Waiting), 2 := Queued(Some(1), 1)]
  }

  lemma ParentIsServed()
    ensures WellFormed(Db(ParentWaits(), 3)) && WaitersHaveChildren(ParentWaits()) && Strands(ParentWaits(), 2)
  {
    assert UnfinishedChild(ParentWaits(), 1, 2);
  }

  /** Cancelling a child strands its parent, even with one worker: nobody is left to wake it. */
  lemma CancelStrandsParent(v: WorkerId)
    ensures exists s, step ::
      && Reachable(s) && Enabled(s, step) && s.ctl.Keys == {v}
      && WaitersHaveChildren(s.db.rows) && !WaitersHaveChildren(Do(s, step).db.rows)
  {
    ParentIsServed();
    OneReady(ParentWaits(), v);
    var s := Ready(ParentWaits(), map[v := Awaiting], [v]);
    CancelStrands(s.db, 2);
    CancelAlone(s, 2);
    assert s.ctl.Keys == {v};
  }

  /** `v` is at work, the scanner sleeps, and no notification is out. */
  function AtWorkAsleep(v: WorkerId, w: WorkerId): System {
    Slept(Assigned(TwoWaiting(v, w), 1))
  }

  lemma AtWorkAsleepReached(v: WorkerId, w: WorkerId)
    requires v != w
    ensures Reachable(AtWorkAsleep(v, w))
  {
    TwoReady(OnePending(), v, w);
    Assign(TwoWaiting(v, w), 1);
    FallAsleep(Assigned(TwoWaiting(v, w), 1));
  }

  /** With two workers a result `Pending` is overlooked: it commits while the scanner sleeps and no notification is out. */
  lemma PendingIsLost(v: WorkerId, w: WorkerId)
    requires v != w
    ensures exists s :: Reachable(s) && !TaskScans.NoOverlooked(s)
  {
    AtWorkAsleepReached(v, w);
    Decide(AtWorkAsleep(v, w), v, Pending);
    var s := Decided(AtWorkAsleep(v, w), v, Pending);
    ReachableInv(s);
    PendingCommits(s, v);
    StepReaches(s, Commit(v));
    if TaskScans.NoOverlooked(s) {
      TaskScans.PendingIsOverlooked(s, v);
    }
  }

  lemma PendingCommits(s: System, v: WorkerId)
    requires Inv(s) && HasDecided(s, v) && s.ctl[v].hold.decision.value == Decision(s.now, [], Returns(Pending))
    requires s.ctl[v].hold.task in s.db.rows && s.db.rows[s.ctl[v].hold.task].status.Running?
    ensures Enabled(s, Commit(v)) && TaskScans.Requeues(s, Commit(v))
  {
    ResultFaults(s.db, s.ctl[v].hold.task, Returns(Pending));
  }

  /** The only worker was given the task and its transaction was rolled back; the row still says running. */
  function GivenUp(v: WorkerId): System {
    var s := Assigned(Ready(OnePending(), map[v := Awaiting], [v]), 1);
    s.(ctl := s.ctl[v := Awaiting], available := [v])
  }

  lemma GivenUpReached(v: WorkerId)
    ensures Reachable(GivenUp(v))
  {
    var s := Ready(OnePending(), map[v := Awaiting], [v]);
    OneReady(OnePending(), v);
    Assign(s, 1);
    GiveUp(Assigned(s, 1), v);
  }

  /** A rollback, and the worker announces itself again. */
  lemma GiveUp(s: System, v: WorkerId)
    requires Reachable(s) && IsProcessing(s, v) && CanSend(s)
    ensures Reachable(s.(ctl := s.ctl[v := Awaiting], available := s.available + [v]))
  {
    RollbackReaches(s, v);
    assert s.ctl[v := Announcing].Keys == s.ctl.Keys;
    Announces(s.(ctl := s.ctl[v := Announcing]), v);
    assert s.ctl[v := Announcing][v := Awaiting] == s.ctl[v := Awaiting];
  }

  lemma RollbackReaches(s: System, w: WorkerId)
    requires Reachable(s) && IsProcessing(s, w)
    ensures Reachable(s.(ctl := s.ctl[w := Announcing]))
  {
    StepReaches(s, Rollback(w, 0));
    assert RolledBack(s, 0) == s;
  }

  /** A task whose run was rolled back is left lying once its lease runs out, even with one worker. */
  lemma ExpiredIsLeftLying(v: WorkerId)
    ensures exists s, step ::
      && Reachable(s) && Enabled(s, step) && s.ctl.Keys == {v}
      && TaskReclaims.NoneLying(s) && !TaskReclaims.NoneLying(Do(s, step))
  {
    GivenUpReached(v);
    FallAsleep(GivenUp(v));
    var s := Slept(GivenUp(v));
    var after := Do(s, Advance(LEASE_DURATION + 1));
    assert TaskReclaims.Found(after.db.rows, after.now, after.taskTypes, 1);
    assert !TaskReclaims.NoneLying(after);
  }
}
