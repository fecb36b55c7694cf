/** ListMedia: a walk over the joined rows while calls and workers go on in between. */
module MediaListing {
  import opened Results
  import opened Basics
  import opened Catalog
  import opened TaskTable
  import opened MediaOps
  import opened ServiceCalls
  import opened MediaRuns
  import Paging

  datatype Row = Row(media: Id, task: Option<TaskId>)

  /** A result of `media LEFT JOIN tasks ORDER BY id`: every row of the join once, in the order of media ids. */
  ghost predicate IsListing(w: World, rows: seq<Row>) {
    && Distinct(rows)
    && (forall i, j :: 0 <= i < j < |rows| ==> rows[i].media <= rows[j].media)
    && (forall m, t :: Row(m, t) in rows <==> JoinRow(w, m, t))
  }

  function IdsOf(rows: seq<Row>): (ids: seq<nat>)
    ensures |ids| == |rows| && forall i :: 0 <= i < |rows| ==> ids[i] == rows[i].media
  {
    seq(|rows|, i requires 0 <= i < |rows| => rows[i].media)
  }

  lemma OneRowEach(w: World, m: Id, t: Option<TaskId>, u: Option<TaskId>)
    requires WorldInv(w) && JoinRow(w, m, t) && JoinRow(w, m, u)
    ensures t == u
  {
    OneTask(w, m);
    if t.Some? && u.Some? {
      OnlyOne(Joined(TaskRows(w), m), t.value, u.value);
    }
  }

  /** The ids of a listing are the media ids, each once, strictly ascending: a table as paging knows it. */
  lemma ListingIsTable(w: World, rows: seq<Row>)
    requires WorldInv(w) && IsListing(w, rows)
    ensures Paging.Ascending(IdsOf(rows))
    ensures forall m :: m in IdsOf(rows) <==> m in w.db.media
  {
    var ids := IdsOf(rows);
    forall i, j | 0 <= i < j < |ids| ensures ids[i] < ids[j] {
      assert rows[i] == Row(rows[i].media, rows[i].task) && rows[j] == Row(rows[j].media, rows[j].task);
      assert rows[i] in rows && rows[j] in rows;
      if rows[i].media == rows[j].media {
        OneRowEach(w, rows[i].media, rows[i].task, rows[j].task);
      }
    }
    forall m ensures m in ids <==> m in w.db.media {
      ListedMedia(w, rows, m);
    }
  }

  lemma ListedMedia(w: World, rows: seq<Row>, m: Id)
    requires WorldInv(w) && IsListing(w, rows)
    ensures m in IdsOf(rows) <==> m in w.db.media
  {
    if m in IdsOf(rows) {
      var i :| 0 <= i < |rows| && IdsOf(rows)[i] == m;
      assert Row(m, rows[i].task) in rows;
    }
    if m in w.db.media {
      OneTask(w, m);
      var t := TheOne(Joined(TaskRows(w), m));
      assert JoinRow(w, m, Some(t));
      assert Row(m, Some(t)) in rows;
      var i :| 0 <= i < |rows| && rows[i] == Row(m, Some(t));
      assert IdsOf(rows)[i] == m;
    }
  }

  // ----------------------------------------------------------- ids are not used again

  lemma NewIdsAreHigh(w: World, a: Action, m: Id)
    requires WorldInv(w) && Can(w, a)
    ensures w.db.nextMedia <= Next(w, a).db.nextMedia
    ensures m in Next(w, a).db.media && m < w.db.nextMedia ==> m in w.db.media
  {
    match a
    case Post(body) => PostKeepsOk(w.db, body);
    case Serve(call) => CallsFair(w.db, TaskRows(w), call);
    case _ =>
  }

  lemma NewIdsAt(ws: seq<World>, acts: seq<Action>, i: nat, m: Id)
    requires IsHistory(ws, acts) && i < |acts|
    ensures ws[i].db.nextMedia <= ws[i + 1].db.nextMedia
    ensures m in ws[i + 1].db.media && m < ws[i].db.nextMedia ==> m in ws[i].db.media
  {
    HistoryInv(ws, acts, i);
    assert NextAt(ws, acts, i);
    NewIdsAreHigh(ws[i], acts[i], m);
  }

  lemma {:induction false} NeverComesBack(ws: seq<World>, acts: seq<Action>, i: nat, j: nat, m: Id)
    requires IsHistory(ws, acts) && i <= j < |ws| && m < ws[i].db.nextMedia && m in ws[j].db.media
    ensures m in ws[i].db.media && ws[i].db.nextMedia <= ws[j].db.nextMedia
    decreases j - i
  {
    if i < j {
      NewIdsAt(ws, acts, i, m);
      NeverComesBack(ws, acts, i + 1, j, m);
    }
  }

  /** A media that is there at two moments was there at every moment between. */
  lemma StaysBetween(ws: seq<World>, acts: seq<Action>, i: nat, j: nat, k: nat, m: Id)
    requires IsHistory(ws, acts) && i <= j <= k < |ws| && m in ws[i].db.media && m in ws[k].db.media
    ensures m in ws[j].db.media
  {
    HistoryInv(ws, acts, i);
    SequenceGrows(ws, acts, i, j);
    NeverComesBack(ws, acts, j, k, m);
  }

  lemma {:induction false} SequenceGrows(ws: seq<World>, acts: seq<Action>, i: nat, j: nat)
    requires IsHistory(ws, acts) && i <= j < |ws|
    ensures ws[i].db.nextMedia <= ws[j].db.nextMedia
    decreases j
  {
    if i < j {
      SequenceGrows(ws, acts, i, j - 1);
      NewIdsAt(ws, acts, j - 1, 0);
    }
  }

  // ------------------------------------------------------------------------ the walk

  /** Request r is made at moment `at[r]` of the history, one after the other, and finds the listing `pages[r]`. */
  ghost predicate Requests(ws: seq<World>, at: seq<nat>, pages: seq<seq<Row>>) {
    && |at| == |pages|
    && (forall r :: 0 <= r < |at| ==> at[r] < |ws| && IsListing(ws[at[r]], pages[r]))
    && (forall r, q :: 0 <= r < q < |at| ==> at[r] <= at[q])
  }

  function TablesOf(pages: seq<seq<Row>>): (ts: seq<seq<nat>>)
    ensures |ts| == |pages| && forall r :: 0 <= r < |pages| ==> ts[r] == IdsOf(pages[r])
  {
    seq(|pages|, r requires 0 <= r < |pages| => IdsOf(pages[r]))
  }

  lemma ReadsAreTables(ws: seq<World>, acts: seq<Action>, at: seq<nat>, pages: seq<seq<Row>>)
    requires IsHistory(ws, acts) && Requests(ws, at, pages)
    ensures Paging.AllAscending(TablesOf(pages))
    ensures forall r, m :: 0 <= r < |pages| ==> (m in TablesOf(pages)[r] <==> m in ws[at[r]].db.media)
  {
    forall r | 0 <= r < |pages|
      ensures Paging.Ascending(TablesOf(pages)[r]) && forall m :: m in TablesOf(pages)[r] <==> m in ws[at[r]].db.media
    {
      HistoryInv(ws, acts, at[r]);
      ListingIsTable(ws[at[r]], pages[r]);
    }
  }

  /**
   A ListMedia walk over any history, with calls and worker steps between its requests: media ids come strictly ascending, hence each at
   most once, every one existed when its page was read, and a walk that ends has missed no media that existed at both its first and its last
   request.
   */
  lemma ListMediaWalk(ws: seq<World>, acts: seq<Action>, at: seq<nat>, pages: seq<seq<Row>>, limit: nat)
    requires IsHistory(ws, acts) && Requests(ws, at, pages) && limit < U32
    ensures Paging.AllAscending(TablesOf(pages))
    ensures var all := Flatten(Paging.Walk(TablesOf(pages), 0, limit));
      && Paging.Ascending(all)
      && (forall m :: m in all ==> exists r :: 0 <= r < |at| && m in ws[at[r]].db.media)
      && (Paging.Ends(TablesOf(pages), 0, limit) && limit != U32 - 1 ==>
            forall m :: 0 < m && m in ws[at[0]].db.media && m in ws[at[|at| - 1]].db.media ==> m in all)
  {
    var ts := TablesOf(pages);
    ReadsAreTables(ws, acts, at, pages);
    Paging.WalkUnderChange(ts, 0, limit);
    var all := Flatten(Paging.Walk(ts, 0, limit));
    forall m | m in all ensures exists r :: 0 <= r < |at| && m in ws[at[r]].db.media {
      var r :| 0 <= r < |ts| && m in ts[r];
      assert m in ws[at[r]].db.media;
    }
    if Paging.Ends(ts, 0, limit) && limit != U32 - 1 {
      forall m | 0 < m && m in ws[at[0]].db.media && m in ws[at[|at| - 1]].db.media ensures m in all {
        forall r | 0 <= r < |ts| ensures m in ts[r] {
          StaysBetween(ws, acts, at[0], at[r], at[|at| - 1], m);
        }
        assert Paging.InAll(ts, m);
      }
    }
  }
}
