/**
 The task queue as a step system: the scanner loop, the worker loops with their heartbeats, the callers of
 the task API, and a clock, all sharing one `tasks` table.

 A step is one database transaction, one channel operation, or the passing of time.  A run is any interleaving
 of enabled steps.
 */
module TaskSystem {
  import opened Results
  import opened TaskTable

  // Durations are in nanoseconds, as in Go.
  const LEASE_DURATION: Time := 300_000_000_000
  const HEARTBEAT_INTERVAL: Time := 60_000_000_000

  /** Five minutes, and one minute. */
  lemma Durations()
    ensures LEASE_DURATION == 5 * 60 * 1_000_000_000 && HEARTBEAT_INTERVAL == 60 * 1_000_000_000
  {
  }

  /** What a handler returned, and the task API calls it made in its still open transaction. */
  datatype Decision = Decision(at: Time, ops: seq<Op>, result: HandlerResult)

  /**
   A claimed task on its way through a worker.  `anchor` is the tick of the last renewal that executed, or
   the start of processing before there is one; `misses` counts the renewals since then that returned an error.
   */
  datatype Hold = Hold(
    task: TaskId,
    claimedAt: Time,
    startedAt: Option<Time>,
    anchor: Time,
    misses: nat,
    decision: Option<Decision>)

  /** Where a worker goroutine is in its loop. */
  datatype Ctl = Announcing | Awaiting | Processing(hold: Hold)

  /** Where the scanner goroutine is in its loop; its local variables are part of the position. */
  datatype Scanner = Top(needScan: bool) | Scanning(worker: WorkerId) | Dispatching(worker: WorkerId, hold: Hold) | Backoff

  datatype System = System(
    db: Db,
    now: Time,
    ctl: map<WorkerId, Ctl>,
    available: seq<WorkerId>,        // the buffered channel
    returning: multiset<WorkerId>,   // goroutines about to put a worker back on the channel
    scanner: Scanner,
    notices: nat,                    // notifications not yet taken by the scanner
    taskTypes: set<string>,          // what Types() returned when the scanner was built
    registry: set<string>)           // what the registry knows now

  /** `StartHandlers`, on any table left behind by earlier runs. */
  ghost predicate Init(s: System) {
    && WellFormed(s.db)
    && s.ctl != map[]
    && (forall w :: w in s.ctl ==> s.ctl[w].Announcing?)
    && s.available == [] && s.returning == multiset{}
    && s.scanner == Top(true)
    && s.taskTypes == s.registry
  }

  datatype Step =
    | Advance(d: Time)
    | Register(taskType: string)
    | Api(ops: seq<Op>)
    | ApiRollback(gap: nat)
    | Announce(w: WorkerId)
    | GiveBack(w: WorkerId)
    | TakeWorker
    | ScanEmpty
    | ScanError
    | BackoffOver
    | Claim(id: TaskId)
    | NoHandler(ok: bool)
    | Dispatch
    | Notified
    | Heartbeat(w: WorkerId, ok: bool)
    | Finish(w: WorkerId, calls: seq<Op>, result: HandlerResult)
    | Commit(w: WorkerId)
    | Rollback(w: WorkerId, gap: nat)

  predicate IsProcessing(s: System, w: WorkerId) {
    w in s.ctl && s.ctl[w].Processing?
  }

  predicate HasDecided(s: System, w: WorkerId) {
    IsProcessing(s, w) && s.ctl[w].hold.decision.Some?
  }

  /** The tick that the heartbeat of `h` waits for. */
  function NextTick(h: Hold): Time {
    h.anchor + (h.misses + 1) * HEARTBEAT_INTERVAL
  }

  function CommitOf(s: System, w: WorkerId): Result<Written<Db>, Fault>
    requires HasDecided(s, w)
  {
    var h := s.ctl[w].hold;
    CommitRun(s.db, s.now, h.task, h.decision.value.ops, h.decision.value.result)
  }

  /** The channel `available` has room for `w`. */
  predicate CanSend(s: System) {
    |s.available| < |s.ctl|
  }

  ghost predicate Enabled(s: System, step: Step) {
    match step
    case Advance(d) => true
    case Register(_) => true
    case Api(ops) => RunOps(s.db, s.now, ops).Ok?
    case ApiRollback(_) => true
    case Announce(w) => w in s.ctl && s.ctl[w].Announcing? && CanSend(s)
    case GiveBack(w) => w in s.returning && CanSend(s)
    case TakeWorker => s.scanner == Top(true) && s.available != []
    case ScanEmpty => s.scanner.Scanning? && NothingClaimable(s.db.rows, s.now, s.taskTypes)
    case ScanError => s.scanner.Scanning?
    case BackoffOver => s.scanner.Backoff?
    case Claim(id) => s.scanner.Scanning? && Oldest(s.db.rows, s.now, s.taskTypes, id)
    case NoHandler(_) =>
      && s.scanner.Dispatching? && s.scanner.hold.task in s.db.rows
      && s.db.rows[s.scanner.hold.task].taskType !in s.registry
    case Dispatch =>
      && s.scanner.Dispatching? && s.scanner.hold.task in s.db.rows
      && s.db.rows[s.scanner.hold.task].taskType in s.registry
      && s.scanner.worker in s.ctl && s.ctl[s.scanner.worker].Awaiting?
    case Notified => s.scanner == Top(false) && s.notices > 0
    case Heartbeat(w, _) => IsProcessing(s, w) && s.ctl[w].hold.decision.None? && NextTick(s.ctl[w].hold) <= s.now
    case Finish(w, _, _) => IsProcessing(s, w) && s.ctl[w].hold.decision.None?
    case Commit(w) => HasDecided(s, w) && CommitOf(s, w).Ok?
    case Rollback(w, _) => IsProcessing(s, w)
  }

  function WithRows(s: System, rows: Rows): System {
    s.(db := s.db.(rows := rows))
  }

  /** A committed transaction: its table, and its notifications, which Postgres folds into one. */
  function Committed(s: System, done: Written<Db>): System {
    s.(db := done.value, notices := s.notices + if done.notify then 1 else 0)
  }

  /** A rolled back transaction; it may have used up sequence numbers. */
  function RolledBack(s: System, gap: nat): System {
    s.(db := s.db.(nextId := s.db.nextId + gap))
  }

  function FailDirect(rows: Rows, id: TaskId): Rows {
    match Fail(rows, id, "no handler registered")
    case Ok(after) => after
    case Err(_) => rows
  }

  function AfterClaim(s: System, id: TaskId): System
    requires s.scanner.Scanning? && id in s.db.rows
  {
    var w := s.scanner.worker;
    WithRows(s, s.db.rows[id := ClaimedBy(s.db.rows[id], w, s.now + LEASE_DURATION)])
      .(scanner := Dispatching(w, Hold(id, s.now, None, s.now, 0, None)))
  }

  function AfterNoHandler(s: System, ok: bool): System
    requires s.scanner.Dispatching?
  {
    WithRows(s, if ok then FailDirect(s.db.rows, s.scanner.hold.task) else s.db.rows)
      .(scanner := Top(true), returning := s.returning + multiset{s.scanner.worker})
  }

  function AfterDispatch(s: System): System
    requires s.scanner.Dispatching?
  {
    s.(scanner := Top(true),
       ctl := s.ctl[s.scanner.worker := Processing(s.scanner.hold.(startedAt := Some(s.now), anchor := s.now))])
  }

  function AfterHeartbeat(s: System, w: WorkerId, ok: bool): System
    requires IsProcessing(s, w)
  {
    var h := s.ctl[w].hold;
    if ok then
      WithRows(s, Renew(s.db.rows, h.task, w, s.now + LEASE_DURATION))
        .(ctl := s.ctl[w := Processing(h.(anchor := NextTick(h), misses := 0))])
    else
      s.(ctl := s.ctl[w := Processing(h.(misses := h.misses + 1))])
  }

  ghost function Do(s: System, step: Step): System
    requires Enabled(s, step)
  {
    match step
    case Advance(d) => s.(now := s.now + d)
    case Register(taskType) => s.(registry := s.registry + {taskType})
    case Api(ops) => Committed(s, RunOps(s.db, s.now, ops).value)
    case ApiRollback(gap) => RolledBack(s, gap)
    case Announce(w) => s.(ctl := s.ctl[w := Awaiting], available := s.available + [w])
    case GiveBack(w) => s.(returning := s.returning - multiset{w}, available := s.available + [w])
    case TakeWorker => s.(scanner := Scanning(s.available[0]), available := s.available[1..])
    case ScanEmpty => s.(scanner := Top(false), returning := s.returning + multiset{s.scanner.worker})
    case ScanError => s.(scanner := Backoff, returning := s.returning + multiset{s.scanner.worker})
    case BackoffOver => s.(scanner := Top(true))
    case Claim(id) => AfterClaim(s, id)
    case NoHandler(ok) => AfterNoHandler(s, ok)
    case Dispatch => AfterDispatch(s)
    case Notified => s.(scanner := Top(true), notices := s.notices - 1)
    case Heartbeat(w, ok) => AfterHeartbeat(s, w, ok)
    case Finish(w, calls, result) =>
      s.(ctl := s.ctl[w := Processing(s.ctl[w].hold.(decision := Some(Decision(s.now, calls, result))))])
    case Commit(w) => Committed(s, CommitOf(s, w).value).(ctl := s.ctl[w := Announcing])
    case Rollback(w, gap) => RolledBack(s, gap).(ctl := s.ctl[w := Announcing])
  }

  /** A run: `states[i]` makes `steps[i]` and becomes `states[i+1]`. */
  ghost predicate IsRun(states: seq<System>, steps: seq<Step>) {
    && |states| == |steps| + 1
    && Init(states[0])
    && forall i :: 0 <= i < |steps| ==> StepAt(states, steps, i)
  }

  ghost predicate StepAt(states: seq<System>, steps: seq<Step>, i: nat)
    requires i < |steps| && i + 1 < |states|
  {
    Enabled(states[i], steps[i]) && states[i + 1] == Do(states[i], steps[i])
  }

  // -------------------------------------------------------------- worker tokens

  /** The task that `w` has in hand: claimed for it, or being processed by it. */
  function HoldOf(s: System, w: WorkerId): Option<Hold> {
    if s.scanner.Dispatching? && s.scanner.worker == w then Some(s.scanner.hold)
    else if IsProcessing(s, w) then Some(s.ctl[w].hold)
    else None
  }

  function InHand(sc: Scanner): multiset<WorkerId> {
    match sc
    case Scanning(w) => multiset{w}
    case Dispatching(w, _) => multiset{w}
    case _ => multiset{}
  }

  /** Every reference to a worker that is on the channel, with the scanner, or on its way back. */
  function Tokens(s: System): multiset<WorkerId> {
    multiset(s.available) + s.returning + InHand(s.scanner)
  }

  predicate Waits(s: System, w: WorkerId) {
    w in s.ctl && s.ctl[w].Awaiting?
  }

  /** A worker that waits for work has exactly one token in circulation, any other worker has none. */
  predicate TokenOk(s: System, w: WorkerId) {
    Tokens(s)[w] == if Waits(s, w) then 1 else 0
  }

  ghost predicate TokensConserved(s: System) {
    forall w :: TokenOk(s, w)
  }

  lemma SameTokens(s: System, t: System)
    requires TokensConserved(s) && Tokens(t) == Tokens(s) && forall w :: Waits(t, w) == Waits(s, w)
    ensures TokensConserved(t)
  {
    forall w ensures TokenOk(t, w) { assert TokenOk(s, w); }
  }

  lemma SendConserves(s: System, step: Step)
    requires TokensConserved(s) && Enabled(s, step) && (step.Announce? || step.GiveBack?)
    ensures TokensConserved(Do(s, step))
  {
    var t := Do(s, step);
    assert multiset(t.available) == multiset(s.available) + multiset{step.w};
    forall w ensures TokenOk(t, w) { assert TokenOk(s, w); }
  }

  lemma TakeConserves(s: System)
    requires TokensConserved(s) && Enabled(s, TakeWorker)
    ensures TokensConserved(Do(s, TakeWorker))
  {
    assert s.available == [s.available[0]] + s.available[1..];
    SameTokens(s, Do(s, TakeWorker));
  }

  lemma DispatchConserves(s: System)
    requires TokensConserved(s) && Enabled(s, Dispatch)
    ensures TokensConserved(Do(s, Dispatch))
  {
    var t := Do(s, Dispatch);
    assert Tokens(s) == Tokens(t) + multiset{s.scanner.worker};
    forall w ensures TokenOk(t, w) { assert TokenOk(s, w); }
  }

  lemma PutBackConserves(s: System, step: Step)
    requires TokensConserved(s) && Enabled(s, step) && (step.ScanEmpty? || step.ScanError? || step.NoHandler?)
    ensures TokensConserved(Do(s, step))
  {
    var t := Do(s, step);
    assert t.returning == s.returning + InHand(s.scanner) && InHand(t.scanner) == multiset{};
    SameTokens(s, t);
  }

  lemma WorkerConserves(s: System, step: Step)
    requires TokensConserved(s) && Enabled(s, step)
    requires step.Heartbeat? || step.Finish? || step.Commit? || step.Rollback?
    ensures TokensConserved(Do(s, step))
  {
    SameTokens(s, Do(s, step));
  }

  lemma StepConservesTokens(s: System, step: Step)
    requires TokensConserved(s) && Enabled(s, step)
    ensures TokensConserved(Do(s, step))
  {
    if step.Announce? || step.GiveBack? {
      SendConserves(s, step);
    } else if step.TakeWorker? {
      TakeConserves(s);
    } else if step.Dispatch? {
      DispatchConserves(s);
    } else if step.Heartbeat? || step.Finish? || step.Commit? || step.Rollback? {
      WorkerConserves(s, step);
    } else if step.Advance? || step.Register? || step.Api? || step.ApiRollback? {
      SameTokens(s, Do(s, step));
    } else if step.ScanEmpty? || step.ScanError? || step.NoHandler? {
      PutBackConserves(s, step);
    } else {
      SameTokens(s, Do(s, step));
    }
  }

  /** A multiset without repetitions, drawn from `d`, is no larger than `d`. */
  lemma {:induction false} FewerThan(m: multiset<WorkerId>, d: set<WorkerId>)
    requires forall w :: w in m ==> m[w] == 1 && w in d
    ensures |m| <= |d|
    decreases |m|
  {
    if m != multiset{} {
      var w :| w in m;
      var m' := m - multiset{w};
      forall x | x in m'
        ensures m'[x] == 1 && x in d - {w}
      {
      }
      FewerThan(m', d - {w});
    }
  }
}
