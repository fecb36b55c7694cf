/** A history from a fresh database in which two DVDs come to share a path. */
module MediaWitness {
  import opened Results
  import opened Catalog
  import opened TaskTable
  import opened TaskSystem
  import opened MediaOps
  import opened DvdIngestion
  import opened MediaRuns
  import opened MediaPaths

  /** An empty database and one worker. */
  function Fresh(v: WorkerId): World {
    World(System(Db(map[], 1), 1, map[v := Announcing], [], multiset{}, Top(true), 0, {DVD_INGESTION}, {DVD_INGESTION}),
          Tables(map[], map[], map[], map[], map[], map[], {}, {}, {}, 1, 1, 1))
  }

  /** Some history from a fresh database ends in `w`. */
  ghost predicate Arises(v: WorkerId, w: World) {
    exists ws: seq<World>, acts :: IsHistory(ws, acts) && ws[0] == Fresh(v) && ws[|ws| - 1] == w
  }

  lemma FreshArises(v: WorkerId)
    ensures Arises(v, Fresh(v))
  {
    assert v in Fresh(v).sys.ctl;
    FreshStart(Fresh(v));
  }

  lemma HistoryGoesOn(ws: seq<World>, acts: seq<Action>, a: Action)
    requires IsHistory(ws, acts) && Can(ws[|ws| - 1], a)
    ensures IsHistory(ws + [Next(ws[|ws| - 1], a)], acts + [a])
  {
    var ws', acts' := ws + [Next(ws[|ws| - 1], a)], acts + [a];
    forall i | 0 <= i < |acts'| ensures NextAt(ws', acts', i) {
      if i < |acts| {
        assert NextAt(ws, acts, i);
      }
    }
  }

  lemma ActArises(v: WorkerId, w: World, a: Action)
    requires Arises(v, w) && Can(w, a)
    ensures Arises(v, Next(w, a))
  {
    var ws: seq<World>, acts :| IsHistory(ws, acts) && ws[0] == Fresh(v) && ws[|ws| - 1] == w;
    HistoryGoesOn(ws, acts, a);
    var ws' := ws + [Next(w, a)];
    assert ws'[0] == Fresh(v) && ws'[|ws'| - 1] == Next(w, a);
  }

  lemma ArisesInv(v: WorkerId, w: World)
    requires Arises(v, w)
    ensures WorldInv(w)
  {
    var ws: seq<World>, acts :| IsHistory(ws, acts) && ws[0] == Fresh(v) && ws[|ws| - 1] == w;
    HistoryInv(ws, acts, |ws| - 1);
  }

  lemma StepArises(v: WorkerId, w: World, step: Step)
    requires Arises(v, w) && Enabled(w.sys, step) && !step.Api? && !step.Commit?
    ensures Arises(v, World(Do(w.sys, step), w.db))
  {
    ActArises(v, w, Work(step, false, false));
  }

  // ------------------------------------------------------------------- two requests

  function Request(path: string): NewMedia {
    NewMedia(None, None, Some(path), [])
  }

  function NewTask(m: Id, now: Time): Task {
    Task(DVD_INGESTION, Json(Some(m), ""), Pending, None, None, None, None, now)
  }

  /** The world after a request for a DVD at `path` succeeded. */
  function Posted(w: World, path: string): World {
    World(Committed(w.sys, Written(Db(TaskRows(w)[w.sys.db.nextId := NewTask(w.db.nextMedia, w.sys.now)], w.sys.db.nextId + 1), true)),
          WithMedia(w.db, Media(None, None), path))
  }

  lemma PostArises(v: WorkerId, w: World, path: string)
    requires Arises(v, w) && path != "" && !PathTaken(w.db.dvds, path)
    ensures Arises(v, Posted(w, path))
  {
    ArisesInv(v, w);
    var b := Request(path);
    PostSucceeds(w, b);
    PostExact(w.db, b);
    OneOp(w.sys.db, w.sys.now, w.db.nextMedia);
    assert w.db.mediaCards + Links(w.db.nextMedia, []) == w.db.mediaCards;
    ActArises(v, w, Post(Some(b)));
  }

  const INBOX := "inbox/dvd/x"

  /** A DVD from the inbox, and one that is said to be where the first will go. */
  function TwoPosted(v: WorkerId): World {
    var w := Posted(Fresh(v), INBOX);
    Posted(w.(sys := w.sys.(now := 2)), FinalPath(1))
  }

  lemma InboxIsNotFinal(m: Id)
    ensures INBOX != FinalPath(m) && FinalPath(m) != ""
  {
    assert INBOX[0] == 'i' && FinalPath(m)[0] == 'm';
  }

  lemma TwoPostedArises(v: WorkerId)
    ensures Arises(v, TwoPosted(v))
  {
    FreshArises(v);
    PostArises(v, Fresh(v), INBOX);
    var w := Posted(Fresh(v), INBOX);
    StepArises(v, w, Advance(1));
    InboxIsNotFinal(1);
    PostArises(v, w.(sys := w.sys.(now := 2)), FinalPath(1));
  }

  lemma TwoPostedFacts(v: WorkerId)
    ensures var w := TwoPosted(v);
      && TaskRows(w) == map[1 := NewTask(1, 1), 2 := NewTask(2, 2)]
      && w.db.dvds == map[1 := INBOX, 2 := FinalPath(1)] && PathsUnique(w.db.dvds)
      && w.sys.now == 2 && w.sys.ctl == map[v := Announcing] && w.sys.available == [] && w.sys.scanner == Top(true)
      && w.sys.taskTypes == {DVD_INGESTION} && w.sys.registry == {DVD_INGESTION}
  {
    InboxIsNotFinal(1);
  }

  // ------------------------------------------------------------------ one ingestion

  /** The only worker is given task `id`. */
  function Handed(w: World, v: WorkerId, id: TaskId): World
    requires id in TaskRows(w)
  {
    var s := w.sys;
    w.(sys := s.(db := s.db.(rows := s.db.rows[id := ClaimedBy(s.db.rows[id], v, s.now + LEASE_DURATION)]),
                 ctl := s.ctl[v := Processing(Hold(id, s.now, Some(s.now), s.now, 0, None))]))
  }

  function Scanned(w: World, v: WorkerId): World {
    w.(sys := w.sys.(ctl := w.sys.ctl[v := Awaiting], scanner := Scanning(v)))
  }

  lemma ScanArises(v: WorkerId, w: World)
    requires Arises(v, w) && w.sys.ctl == map[v := Announcing] && w.sys.available == [] && w.sys.scanner == Top(true)
    ensures Arises(v, Scanned(w, v))
  {
    var s := w.sys;
    assert s.ctl.Keys == {v};
    StepArises(v, w, Announce(v));
    var s1 := Do(s, Announce(v));
    assert s1.available == [v];
    StepArises(v, World(s1, w.db), TakeWorker);
    assert Do(s1, TakeWorker) == Scanned(w, v).sys;
  }

  lemma ClaimArises(v: WorkerId, w: World, id: TaskId)
    requires Arises(v, w) && w.sys.scanner.Scanning? && Oldest(TaskRows(w), w.sys.now, w.sys.taskTypes, id)
    ensures Arises(v, w.(sys := AfterClaim(w.sys, id)))
  {
    StepArises(v, w, Claim(id));
  }

  lemma DispatchArises(v: WorkerId, w: World)
    requires Arises(v, w) && Enabled(w.sys, Dispatch)
    ensures Arises(v, w.(sys := AfterDispatch(w.sys)))
  {
    StepArises(v, w, Dispatch);
  }

  lemma HandArises(v: WorkerId, w: World, id: TaskId)
    requires Arises(v, Scanned(w, v)) && w.sys.scanner == Top(true)
    requires Oldest(TaskRows(w), w.sys.now, w.sys.taskTypes, id) && w.sys.taskTypes <= w.sys.registry
    ensures Arises(v, Handed(w, v, id))
  {
    ClaimArises(v, Scanned(w, v), id);
    var s := AfterClaim(Scanned(w, v).sys, id);
    DispatchArises(v, w.(sys := s));
    assert s.ctl[v := Processing(s.scanner.hold.(startedAt := Some(s.now), anchor := s.now))] == Handed(w, v, id).sys.ctl;
    assert AfterDispatch(s) == Handed(w, v, id).sys;
  }

  /** Its handler has returned success. */
  function Succeeded(w: World, v: WorkerId): World
    requires IsProcessing(w.sys, v)
  {
    var h := w.sys.ctl[v].hold;
    w.(sys := w.sys.(ctl := w.sys.ctl[v := Processing(h.(decision := Some(Decision(w.sys.now, [], HandlerResult(None, Known(Completed), "")))))]))
  }

  lemma SuccessArises(v: WorkerId, w: World)
    requires Arises(v, w) && IsProcessing(w.sys, v) && w.sys.ctl[v].hold.decision.None?
    ensures Arises(v, Succeeded(w, v))
  {
    StepArises(v, w, Finish(v, [], HandlerResult(None, Known(Completed), "")));
  }

  /** The moment before the first ingestion commits. */
  function AboutToShare(v: WorkerId): World {
    TwoPostedFacts(v);
    Succeeded(Handed(TwoPosted(v), v, 1), v)
  }

  lemma AboutToShareArises(v: WorkerId)
    ensures Arises(v, AboutToShare(v))
  {
    TwoPostedArises(v);
    TwoPostedFacts(v);
    ScanArises(v, TwoPosted(v));
    HandArises(v, TwoPosted(v), 1);
    SuccessArises(v, Handed(TwoPosted(v), v, 1));
  }

  lemma AboutToShareFacts(v: WorkerId)
    ensures var w := AboutToShare(v);
      && HasDecided(w.sys, v) && w.sys.ctl[v].hold.task == 1 && 1 in TaskRows(w)
      && w.sys.ctl[v].hold.decision.value == Decision(2, [], HandlerResult(None, Known(Completed), ""))
      && TaskRows(w)[1] == ClaimedBy(NewTask(1, 1), v, 2 + LEASE_DURATION)
      && w.db.dvds == map[1 := INBOX, 2 := FinalPath(1)] && PathsUnique(w.db.dvds)
  {
    TwoPostedFacts(v);
  }

  lemma CommitIsPossible(v: WorkerId)
    requires WorldInv(AboutToShare(v))
    ensures Can(AboutToShare(v), Work(Commit(v), true, true))
  {
    AboutToShareFacts(v);
    ResultFaults(AboutToShare(v).sys.db, 1, HandlerResult(None, Known(Completed), ""));
  }

  lemma CommitCollides(v: WorkerId)
    ensures Collides(AboutToShare(v), Work(Commit(v), true, true)) && PathsUnique(AboutToShare(v).db.dvds)
  {
    AboutToShareFacts(v);
    assert AboutToShare(v).db.dvds[2] == FinalPath(1);
  }

  /** Two requests that both succeed and one ingestion put two DVDs at one path. */
  lemma SharedPathArises(v: WorkerId)
    ensures exists w, a :: Arises(v, w) && Can(w, a) && PathsUnique(w.db.dvds) && !PathsUnique(Next(w, a).db.dvds)
  {
    AboutToShareArises(v);
    ArisesInv(v, AboutToShare(v));
    CommitIsPossible(v);
    CommitCollides(v);
    NextCollides(AboutToShare(v), Work(Commit(v), true, true));
  }
}
