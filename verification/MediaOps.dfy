/** Creating, reading, patching and deleting media, seen as changes of the tables. */
module MediaOps {
  import opened Results
  import opened Basics
  import opened Catalog
  import opened Folds
  import opened TaskTable

  // ------------------------------------------------------------------------ read

  const DVD_INGESTION := "dvd_ingestion"

  datatype Ingestion = IngestionPending | IngestionDone | IngestionError(message: Option<string>)

  /** `taskStatusToDvdIngestion`. */
  function IngestionOf(status: Status, error: Option<string>): Ingestion {
    match status
    case Completed => IngestionDone
    case Failed => IngestionError(error)
    case _ => IngestionPending
  }

  datatype Dvd = Dvd(path: string, ingestion: Ingestion)
  datatype MediaView = MediaView(id: Id, media: Media, dvd: Option<Dvd>, cardIds: set<Id>)

  predicate IsIngestion(t: Task) {
    t.taskType == DVD_INGESTION
  }

  /** The task rows that a media row joins with. */
  function Joined(rows: Rows, m: Id): set<TaskId> {
    set t | t in rows && IsIngestion(rows[t]) && rows[t].state.mediaId == Some(m)
  }

  lemma OnlyOne<T>(s: set<T>, x: T, y: T)
    requires |s| == 1 && x in s && y in s
    ensures x == y
  {
    assert |s - {x}| == 0;
    assert s - {x} == {};
  }

  function TheOne<T(==)>(s: set<T>): (x: T)
    requires |s| == 1
    ensures s == {x}
  {
    assert forall x, y :: x in s && y in s ==> x == y by {
      forall x, y | x in s && y in s ensures x == y {
        OnlyOne(s, x, y);
      }
    }
    assert exists x :: x in s by {
      assert s != {};
    }
    var x :| x in s;
    x
  }

  function LinksOf(db: Tables, m: Id): set<Id> {
    set p | p in db.mediaCards && p.0 == m :: p.1
  }

  /** `getMedia`: a LEFT JOIN of which the caller takes exactly one row, and fails if there are several. */
  function GetMedia(db: Tables, rows: Rows, id: Id): Result<MediaView, ApiError> {
    if id !in db.media then Err(NotFound)
    else if |Joined(rows, id)| > 1 then Err(Internal)
    else
      var ingestion :=
        if |Joined(rows, id)| == 0 then IngestionPending
        else var t := rows[TheOne(Joined(rows, id))]; IngestionOf(t.status, t.error);
      var dvd := if id in db.dvds then Some(Dvd(db.dvds[id], ingestion)) else None;
      Result.Ok(MediaView(id, db.media[id], dvd, LinksOf(db, id)))
  }

  /** A media record as it is read: the row itself, its DVD row if there is one, and the ids of exactly the cards linked to it. */
  lemma GetMediaExact(db: Tables, rows: Rows, id: Id)
    ensures GetMedia(db, rows, id) == Err(NotFound) <==> id !in db.media
    ensures GetMedia(db, rows, id).Ok? <==> id in db.media && |Joined(rows, id)| <= 1
    ensures GetMedia(db, rows, id).Ok? ==>
      var v := GetMedia(db, rows, id).value;
      && v.id == id && v.media == db.media[id]
      && (v.dvd.Some? <==> id in db.dvds) && (v.dvd.Some? ==> v.dvd.value.path == db.dvds[id])
      && (forall c :: c in v.cardIds <==> (id, c) in db.mediaCards)
      && (forall t :: v.dvd.Some? && t in Joined(rows, id) ==> Reports(v.dvd.value.ingestion, rows[t]))
      && (v.dvd.Some? && Joined(rows, id) == {} ==> v.dvd.value.ingestion == IngestionPending)
  {
    if GetMedia(db, rows, id).Ok? {
      assert forall c :: c in LinksOf(db, id) ==> (id, c) in db.mediaCards;
      forall c | (id, c) in db.mediaCards ensures c in LinksOf(db, id) {
        assert (id, c).0 == id && (id, c).1 == c;
      }
      if |Joined(rows, id)| == 1 {
        assert Joined(rows, id) == {TheOne(Joined(rows, id))};
      }
    }
  }

  /** Done for a completed task, an error with its message for a failed one, pending for any other. */
  predicate Reports(i: Ingestion, t: Task) {
    && (i == IngestionDone <==> t.status == Completed)
    && (i.IngestionError? <==> t.status == Failed) && (i.IngestionError? ==> i.message == t.error)
    && (i == IngestionPending <==> t.status in {Pending, Running, Waiting})
  }

  // ---------------------------------------------------------------------- create

  datatype NewMedia = NewMedia(mediaSetId: Option<Id>, note: Option<string>, dvdInboxPath: Option<string>, cardIds: seq<Id>)

  predicate PathTaken(dvds: map<Id, string>, path: string) {
    exists m :: m in dvds && dvds[m] == path
  }

  function LinkOne(id: Id, db: Tables, card: Id): Result<Tables, ApiError> {
    if card !in db.cards then Err(BadRequest)
    else if (id, card) in db.mediaCards then Err(Internal)
    else Result.Ok(db.(mediaCards := db.mediaCards + {(id, card)}))
  }

  function WithMedia(db: Tables, media: Media, path: string): Tables {
    var id := db.nextMedia;
    db.(media := db.media[id := media], dvds := db.dvds[id := path], nextMedia := id + 1)
  }

  /** The inserts of `PostMedia`, in the order of the code; the ingestion task comes afterwards. */
  function PostTables(db: Tables, body: Option<NewMedia>): Result<Tables, ApiError> {
    if body.None? || body.value.dvdInboxPath.None? then Err(BadRequest)
    else
      var b, id, path := body.value, db.nextMedia, body.value.dvdInboxPath.value;
      if b.mediaSetId.Some? && b.mediaSetId.value !in db.mediaSets then Err(Internal)
      else if path == "" then Err(BadRequest)
      else if PathTaken(db.dvds, path) then Err(AlreadyExists)
      else Fold((s, c) => LinkOne(id, s, c), WithMedia(db, Media(b.mediaSetId, b.note), path), b.cardIds)
  }

  function Links(id: Id, cards: seq<Id>): set<(Id, Id)> {
    set c | c in cards :: (id, c)
  }

  predicate Linkable(db: Tables, id: Id, cards: seq<Id>) {
    Distinct(cards) && forall c :: c in cards ==> c in db.cards && (id, c) !in db.mediaCards
  }

  /** The loop over the card ids succeeds exactly on distinct existing unlinked cards, and then adds exactly their links. */
  lemma {:induction false} LinkExact(db: Tables, id: Id, cards: seq<Id>)
    ensures var r := Fold((s, c) => LinkOne(id, s, c), db, cards);
      && (r.Ok? <==> Linkable(db, id, cards))
      && (r.Ok? ==> r.value == db.(mediaCards := db.mediaCards + Links(id, cards)))
    decreases |cards|
  {
    if cards == [] {
      assert db.mediaCards + Links(id, cards) == db.mediaCards;
    } else {
      var c, rest := cards[0], cards[1..];
      assert cards == [c] + rest;
      if LinkOne(id, db, c).Ok? {
        var mid := LinkOne(id, db, c).value;
        LinkExact(mid, id, rest);
        assert mid.mediaCards + Links(id, rest) == db.mediaCards + Links(id, cards);
        LinkableStep(db, mid, id, c, rest);
      }
    }
  }

  lemma LinkableStep(db: Tables, mid: Tables, id: Id, c: Id, rest: seq<Id>)
    requires LinkOne(id, db, c) == Result.Ok(mid)
    ensures Linkable(mid, id, rest) <==> Linkable(db, id, [c] + rest)
  {
    var cards := [c] + rest;
    if Linkable(mid, id, rest) {
      forall i, j | 0 <= i < j < |cards| ensures cards[i] != cards[j] {
        assert cards[j] == rest[j - 1];
        if i > 0 {
          assert cards[i] == rest[i - 1];
        }
      }
    }
    if Linkable(db, id, cards) {
      forall i, j | 0 <= i < j < |rest| ensures rest[i] != rest[j] {
        assert cards[i + 1] != cards[j + 1];
      }
      forall d | d in rest ensures d in mid.cards && (id, d) !in mid.mediaCards {
        var j :| 0 <= j < |rest| && rest[j] == d;
        assert cards[0] != cards[j + 1];
        assert d in cards;
      }
    }
  }

  predicate Postable(db: Tables, b: NewMedia) {
    && b.dvdInboxPath.Some? && b.dvdInboxPath.value != "" && !PathTaken(db.dvds, b.dvdInboxPath.value)
    && (b.mediaSetId.Some? ==> b.mediaSetId.value in db.mediaSets)
    && Distinct(b.cardIds) && (forall c :: c in b.cardIds ==> c in db.cards)
  }

  /** The loop over the cards, put behind the inserts. */
  lemma PostInserts(db: Tables, b: NewMedia)
    requires LinksOk(db)
    ensures PostTables(db, Some(b)).Ok? <==> Postable(db, b)
    ensures Postable(db, b) ==>
      PostTables(db, Some(b)).value ==
        WithMedia(db, Media(b.mediaSetId, b.note), b.dvdInboxPath.value)
          .(mediaCards := db.mediaCards + Links(db.nextMedia, b.cardIds))
  {
    if b.dvdInboxPath.Some? {
      var mid := WithMedia(db, Media(b.mediaSetId, b.note), b.dvdInboxPath.value);
      LinkExact(mid, db.nextMedia, b.cardIds);
      assert db.nextMedia !in db.media;
      assert forall c :: (db.nextMedia, c) !in mid.mediaCards;
    }
  }

  /** Which error a request gets that creates no media row, in the order of the checks. */
  predicate PostFails(db: Tables, body: Option<NewMedia>, e: ApiError) {
    match body
    case None => e == BadRequest
    case Some(b) =>
      match b.dvdInboxPath
      case None => e == BadRequest
      case Some(path) =>
        if b.mediaSetId.Some? && b.mediaSetId.value !in db.mediaSets then e == Internal
        else if path == "" then e == BadRequest
        else if PathTaken(db.dvds, path) then e == AlreadyExists
        else LinksFail(db, b.cardIds, e)
  }

  /** The first card id that is unknown is a bad request, the first that repeats an earlier one an internal error. */
  predicate LinksFail(db: Tables, cards: seq<Id>, e: ApiError) {
    exists i :: 0 <= i < |cards| && Distinct(cards[..i]) && (forall c :: c in cards[..i] ==> c in db.cards)
                && (if cards[i] !in db.cards then e == BadRequest else cards[i] in cards[..i] && e == Internal)
  }

  lemma {:induction false} LinkErrors(db: Tables, id: Id, cards: seq<Id>)
    requires (forall c :: (id, c) !in db.mediaCards) && Fold((s, c) => LinkOne(id, s, c), db, cards).Err?
    ensures LinksFail(db, cards, Fold((s, c) => LinkOne(id, s, c), db, cards).error)
    decreases |cards|
  {
    var link := (s, c) => LinkOne(id, s, c);
    var n := |cards| - 1;
    FoldSnoc(link, db, cards, n);
    assert cards[..n + 1] == cards;
    if Fold(link, db, cards[..n]).Err? {
      LinkErrors(db, id, cards[..n]);
      var i :| 0 <= i < n && Distinct(cards[..n][..i]) && (forall c :: c in cards[..n][..i] ==> c in db.cards)
               && (if cards[..n][i] !in db.cards then Fold(link, db, cards[..n]).error == BadRequest
                   else cards[..n][i] in cards[..n][..i] && Fold(link, db, cards[..n]).error == Internal);
      assert cards[..n][..i] == cards[..i] && cards[..n][i] == cards[i];
    } else {
      LinkExact(db, id, cards[..n]);
      assert Distinct(cards[..n]) && forall c :: c in cards[..n] ==> c in db.cards;
      assert (id, cards[n]) in db.mediaCards + Links(id, cards[..n]) <==> cards[n] in cards[..n];
    }
  }

  /**
   Exactly which requests create a media row, which error every other one gets, and what each table holds afterwards: the row with set and
   note as given, the DVD row with the path, a link for each card, and nothing else.
   */
  lemma PostExact(db: Tables, b: NewMedia)
    requires LinksOk(db)
    ensures PostTables(db, Some(b)).Ok? <==> Postable(db, b)
    ensures PostTables(db, Some(b)).Err? ==> PostFails(db, Some(b), PostTables(db, Some(b)).error)
    ensures Postable(db, b) ==>
      var after := PostTables(db, Some(b)).value;
      && after.media == db.media[db.nextMedia := Media(b.mediaSetId, b.note)]
      && after.dvds == db.dvds[db.nextMedia := b.dvdInboxPath.value]
      && (forall m, c :: (m, c) in after.mediaCards <==> (m, c) in db.mediaCards || (m == db.nextMedia && c in b.cardIds))
      && after.nextMedia == db.nextMedia + 1
      && after == db.(media := after.media, dvds := after.dvds, mediaCards := after.mediaCards, nextMedia := after.nextMedia)
  {
    PostInserts(db, b);
    if b.dvdInboxPath.Some? && PostTables(db, Some(b)).Err? {
      var mid := WithMedia(db, Media(b.mediaSetId, b.note), b.dvdInboxPath.value);
      assert db.nextMedia !in db.media;
      assert forall c :: (db.nextMedia, c) !in mid.mediaCards;
      if Fold((s, c) => LinkOne(db.nextMedia, s, c), mid, b.cardIds).Err? {
        LinkErrors(mid, db.nextMedia, b.cardIds);
        LinksFailSame(mid, db, b.cardIds, Fold((s, c) => LinkOne(db.nextMedia, s, c), mid, b.cardIds).error);
      }
    }
  }

  lemma LinksFailSame(a: Tables, b: Tables, cards: seq<Id>, e: ApiError)
    requires a.cards == b.cards && LinksFail(a, cards, e)
    ensures LinksFail(b, cards, e)
  {
  }

  lemma NewMediaKeepsOk(db: Tables, b: NewMedia)
    requires Catalog.Ok(db) && Postable(db, b)
    ensures Catalog.Ok(WithMedia(db, Media(b.mediaSetId, b.note), b.dvdInboxPath.value)
                         .(mediaCards := db.mediaCards + Links(db.nextMedia, b.cardIds)))
  {
    assert db.nextMedia !in db.media;
  }

  lemma PostKeepsOk(db: Tables, body: Option<NewMedia>)
    requires Catalog.Ok(db) && PostTables(db, body).Ok?
    ensures Catalog.Ok(PostTables(db, body).value) && db.nextMedia !in db.media
    ensures var after := PostTables(db, body).value;
      && after.nextMedia == db.nextMedia + 1 && after.media.Keys == db.media.Keys + {db.nextMedia}
  {
    PostInserts(db, body.value);
    NewMediaKeepsOk(db, body.value);
  }

  function CardSet(cards: seq<Id>): set<Id> {
    set c | c in cards
  }

  /** A media that was created reads back as requested, and every other media reads as before. */
  lemma PostThenGet(db: Tables, rows: Rows, b: NewMedia, m: Id)
    requires LinksOk(db) && Postable(db, b) && Joined(rows, db.nextMedia) == {}
    ensures PostTables(db, Some(b)).Ok?
    ensures var after := PostTables(db, Some(b)).value;
      GetMedia(after, rows, m) ==
        if m == db.nextMedia then
          Result.Ok(MediaView(m, Media(b.mediaSetId, b.note), Some(Dvd(b.dvdInboxPath.value, IngestionPending)), CardSet(b.cardIds)))
        else GetMedia(db, rows, m)
  {
    PostExact(db, b);
    var after := PostTables(db, Some(b)).value;
    assert db.nextMedia !in db.media;
    forall c ensures c in LinksOf(after, m) <==> (m, c) in after.mediaCards {
      LinksOfExact(after, m, c);
    }
    forall c ensures c in LinksOf(db, m) <==> (m, c) in db.mediaCards {
      LinksOfExact(db, m, c);
    }
    if m == db.nextMedia {
      assert LinksOf(after, m) == CardSet(b.cardIds) by {
        assert forall c :: (m, c) !in db.mediaCards;
      }
      assert |Joined(rows, m)| == 0;
    } else {
      assert LinksOf(after, m) == LinksOf(db, m);
    }
  }

  lemma LinksOfExact(db: Tables, m: Id, c: Id)
    ensures c in LinksOf(db, m) <==> (m, c) in db.mediaCards
  {
    if (m, c) in db.mediaCards {
      assert (m, c).0 == m && (m, c).1 == c;
    }
  }

  // ---------------------------------------------------------------------- delete

  /** Deleting a media row takes its DVD row and its links along; the tasks table has no reference to it. */
  function DeleteMedia(db: Tables, id: Id): Result<Tables, ApiError> {
    if id == 0 then Err(BadRequest)
    else if id !in db.media then Err(NotFound)
    else Result.Ok(db.(
      media := Without(db.media, {id}),
      dvds := Without(db.dvds, {id}),
      mediaCards := set p | p in db.mediaCards && p.0 != id))
  }

  /** Which ids can be deleted, which error any other gets, and what is left row by row. */
  lemma DeleteExact(db: Tables, id: Id)
    ensures DeleteMedia(db, id).Ok? <==> id != 0 && id in db.media
    ensures DeleteMedia(db, id).Err? ==> DeleteMedia(db, id) == Err(if id == 0 then BadRequest else NotFound)
    ensures DeleteMedia(db, id).Ok? ==>
      var after := DeleteMedia(db, id).value;
      && after.media.Keys == db.media.Keys - {id} && (forall m :: m in after.media ==> after.media[m] == db.media[m])
      && after.dvds.Keys == db.dvds.Keys - {id} && (forall m :: m in after.dvds ==> after.dvds[m] == db.dvds[m])
      && (forall p :: p in after.mediaCards <==> p in db.mediaCards && p.0 != id)
      && after == db.(media := after.media, dvds := after.dvds, mediaCards := after.mediaCards)
  {
  }

  lemma DeleteKeepsOk(db: Tables, id: Id)
    requires Catalog.Ok(db) && DeleteMedia(db, id).Ok?
    ensures Catalog.Ok(DeleteMedia(db, id).value)
  {
  }

  /** A deleted media is not found, every other media reads as before, and the cards read as before. */
  lemma DeleteThenGet(db: Tables, rows: Rows, id: Id, m: Id)
    requires DeleteMedia(db, id).Ok?
    ensures GetMedia(DeleteMedia(db, id).value, rows, m) == if m == id then Err(NotFound) else GetMedia(db, rows, m)
    ensures LinksOf(DeleteMedia(db, id).value, id) == {}
    ensures var after := DeleteMedia(db, id).value;
      after == db.(media := after.media, dvds := after.dvds, mediaCards := after.mediaCards)
  {
    if m != id {
      var after := DeleteMedia(db, id).value;
      assert forall p :: p in after.mediaCards && p.0 == m <==> p in db.mediaCards && p.0 == m;
      assert LinksOf(after, m) == LinksOf(db, m);
    }
  }

  // ----------------------------------------------------------------------- patch

  datatype DvdPatch = DvdPatch(path: Option<string>)
  datatype MediaPatch = MediaPatch(
    note: Option<string>, mediaSetId: Option<Id>, clearMediaSetId: Option<bool>,
    addCardId: Option<Id>, removeCardId: Option<Id>, dvd: Option<DvdPatch>)

  function SetMedia(db: Tables, id: Id, m: Media): Tables {
    db.(media := db.media[id := m])
  }

  function PatchNote(db: Tables, id: Id, note: Option<string>): Result<Tables, ApiError> {
    if note.None? then Result.Ok(db)
    else if id !in db.media then Err(NotFound)
    else Result.Ok(SetMedia(db, id, db.media[id].(note := note)))
  }

  /** Zero clears the set, as in the code. */
  function PatchSet(db: Tables, id: Id, mediaSetId: Option<Id>): Result<Tables, ApiError> {
    if mediaSetId.None? then Result.Ok(db)
    else if mediaSetId.value != 0 && mediaSetId.value !in db.mediaSets then Err(BadRequest)
    else if id !in db.media then Err(NotFound)
    else Result.Ok(SetMedia(db, id, db.media[id].(mediaSetId := if mediaSetId.value == 0 then None else mediaSetId)))
  }

  function PatchClear(db: Tables, id: Id, clear: bool): Result<Tables, ApiError> {
    if !clear then Result.Ok(db)
    else if id !in db.media then Err(NotFound)
    else Result.Ok(SetMedia(db, id, db.media[id].(mediaSetId := None)))
  }

  function PatchAdd(db: Tables, id: Id, card: Option<Id>): Result<Tables, ApiError> {
    if card.None? then Result.Ok(db)
    else if card.value !in db.cards then Err(BadRequest)
    else if (id, card.value) in db.mediaCards then Err(AlreadyExists)
    else if id !in db.media then Err(Internal)
    else Result.Ok(db.(mediaCards := db.mediaCards + {(id, card.value)}))
  }

  function PatchRemove(db: Tables, id: Id, card: Option<Id>): Result<Tables, ApiError> {
    if card.None? then Result.Ok(db)
    else if (id, card.value) !in db.mediaCards then Err(BadRequest)
    else Result.Ok(db.(mediaCards := db.mediaCards - {(id, card.value)}))
  }

  function PatchDvd(db: Tables, id: Id, isDvd: bool, patch: Option<DvdPatch>): Result<Tables, ApiError> {
    if patch.None? then Result.Ok(db)
    else if !isDvd || patch.value.path.None? || patch.value.path.value == "" then Err(BadRequest)
    else if exists m :: m in db.dvds && m != id && db.dvds[m] == patch.value.path.value then Err(AlreadyExists)
    else if id !in db.dvds then Err(NotFound)
    else Result.Ok(db.(dvds := db.dvds[id := patch.value.path.value]))
  }

  function Then(r: Result<Tables, ApiError>, next: Tables -> Result<Tables, ApiError>): Result<Tables, ApiError> {
    match r case Err(e) => Err(e) case Ok(db) => next(db)
  }

  function PatchRow(id: Id, db: Tables, p: MediaPatch): Result<Tables, ApiError> {
    Then(Then(PatchNote(db, id, p.note), s => PatchSet(s, id, p.mediaSetId)),
         s => PatchClear(s, id, p.clearMediaSetId == Some(true)))
  }

  function PatchLinks(id: Id, db: Tables, p: MediaPatch): Result<Tables, ApiError> {
    Then(PatchAdd(db, id, p.addCardId), s => PatchRemove(s, id, p.removeCardId))
  }

  function FieldsSet(p: MediaPatch): nat {
    Count(p.note.Some?) + Count(p.mediaSetId.Some?) + Count(p.clearMediaSetId == Some(true))
    + Count(p.addCardId.Some?) + Count(p.removeCardId.Some?) + Count(p.dvd.Some?)
  }

  /** The body of the loop: every field that is set is written, and then the patch fails unless it was exactly one. */
  function PatchOne(id: Id, isDvd: bool, db: Tables, p: MediaPatch): Result<Tables, ApiError> {
    Then(Then(Then(PatchRow(id, db, p), s => PatchLinks(id, s, p)), s => PatchDvd(s, id, isDvd, p.dvd)),
         s => if FieldsSet(p) == 1 then Result.Ok(s) else Err(BadRequest))
  }

  predicate IsDvd(db: Tables, id: Id) {
    id in db.dvds
  }

  /** `PatchMedia`: the record is read once, before the loop, and once more at the end. */
  function PatchMedia(db: Tables, rows: Rows, id: Id, patches: seq<MediaPatch>): Result<Tables, ApiError> {
    if id == 0 then Err(BadRequest) else
      match GetMedia(db, rows, id)
      case Err(e) => Err(e)
      case Ok(_) =>
        var isDvd := IsDvd(db, id);
        Fold((s, p) => PatchOne(id, isDvd, s, p), db, patches)
  }

  /** The same, reading the record again before every patch. */
  function PatchMediaRereading(db: Tables, rows: Rows, id: Id, patches: seq<MediaPatch>): Result<Tables, ApiError> {
    if id == 0 then Err(BadRequest) else
      match GetMedia(db, rows, id)
      case Err(e) => Err(e)
      case Ok(_) => Fold((s, p) => PatchOne(id, IsDvd(s, id), s, p), db, patches)
  }

  /** What no patch of `id` touches, and the invariants it keeps. */
  ghost predicate Tame(a: Tables, b: Tables, id: Id) {
    && b == a.(media := b.media, dvds := b.dvds, mediaCards := b.mediaCards)
    && a.media.Keys == b.media.Keys && a.dvds.Keys == b.dvds.Keys
    && (forall m :: m in a.media && m != id ==> b.media[m] == a.media[m])
    && (forall m :: m in a.dvds && m != id ==> b.dvds[m] == a.dvds[m])
    && (forall p :: p in a.mediaCards && p.0 != id ==> p in b.mediaCards)
    && (forall p :: p in b.mediaCards && p.0 != id ==> p in a.mediaCards)
    && (LinksOk(a) ==> LinksOk(b))
    && (PathsUnique(a.dvds) ==> PathsUnique(b.dvds))
  }

  /** No two DVDs are at the same path. */
  ghost predicate PathsUnique(dvds: map<Id, string>) {
    forall m, n :: m in dvds && n in dvds && dvds[m] == dvds[n] ==> m == n
  }

  lemma TameTrans(a: Tables, b: Tables, c: Tables, id: Id)
    requires Tame(a, b, id) && Tame(b, c, id)
    ensures Tame(a, c, id)
  {
  }

  lemma SetMediaTame(db: Tables, id: Id, m: Media)
    requires id in db.media && (m.mediaSetId.Some? ==> m.mediaSetId.value in db.mediaSets || m.mediaSetId == db.media[id].mediaSetId)
    ensures Tame(db, SetMedia(db, id, m), id)
  {
  }

  lemma LinksTame(db: Tables, id: Id, links: set<(Id, Id)>)
    requires forall p :: p in links ==> p in db.mediaCards || (p.0 == id && id in db.media && p.1 in db.cards)
    requires forall p :: p in db.mediaCards && p.0 != id ==> p in links
    ensures Tame(db, db.(mediaCards := links), id)
  {
  }

  lemma SetPathTame(db: Tables, id: Id, path: string)
    requires id in db.dvds && path != "" && !exists m :: m in db.dvds && m != id && db.dvds[m] == path
    ensures Tame(db, db.(dvds := db.dvds[id := path]), id)
  {
  }

  lemma RowStatementsTame(id: Id, db: Tables, p: MediaPatch, clear: bool)
    ensures PatchNote(db, id, p.note).Ok? ==> Tame(db, PatchNote(db, id, p.note).value, id)
    ensures PatchSet(db, id, p.mediaSetId).Ok? ==> Tame(db, PatchSet(db, id, p.mediaSetId).value, id)
    ensures PatchClear(db, id, clear).Ok? ==> Tame(db, PatchClear(db, id, clear).value, id)
  {
    if id in db.media {
      SetMediaTame(db, id, db.media[id].(note := p.note));
      SetMediaTame(db, id, db.media[id].(mediaSetId := None));
      if p.mediaSetId.Some? && p.mediaSetId.value in db.mediaSets {
        SetMediaTame(db, id, db.media[id].(mediaSetId := p.mediaSetId));
      }
    }
  }

  lemma RowTame(id: Id, db: Tables, p: MediaPatch)
    requires PatchRow(id, db, p).Ok?
    ensures Tame(db, PatchRow(id, db, p).value, id)
  {
    var clear := p.clearMediaSetId == Some(true);
    var db1 := PatchNote(db, id, p.note).value;
    var db2 := PatchSet(db1, id, p.mediaSetId).value;
    RowStatementsTame(id, db, p, clear);
    RowStatementsTame(id, db1, p, clear);
    RowStatementsTame(id, db2, p, clear);
    TameTrans(db, db1, db2, id);
    TameTrans(db, db2, PatchClear(db2, id, clear).value, id);
  }

  lemma PatchLinksTame(id: Id, db: Tables, p: MediaPatch)
    requires PatchLinks(id, db, p).Ok?
    ensures Tame(db, PatchLinks(id, db, p).value, id)
  {
    var db1 := PatchAdd(db, id, p.addCardId).value;
    var db2 := PatchRemove(db1, id, p.removeCardId).value;
    LinksTame(db, id, db1.mediaCards);
    LinksTame(db1, id, db2.mediaCards);
    TameTrans(db, db1, db2, id);
  }

  /** A patch that succeeds changes nothing but its own media row, DVD row and links. */
  lemma PatchOneTame(id: Id, isDvd: bool, db: Tables, p: MediaPatch)
    requires PatchOne(id, isDvd, db, p).Ok?
    ensures Tame(db, PatchOne(id, isDvd, db, p).value, id)
  {
    var db1 := PatchRow(id, db, p).value;
    var db2 := PatchLinks(id, db1, p).value;
    RowTame(id, db, p);
    PatchLinksTame(id, db1, p);
    TameTrans(db, db1, db2, id);
    if p.dvd.Some? {
      var db3 := PatchDvd(db2, id, isDvd, p.dvd).value;
      SetPathTame(db2, id, p.dvd.value.path.value);
      TameTrans(db, db2, db3, id);
    }
  }

  lemma {:induction false} FoldTame(id: Id, isDvd: bool, db: Tables, ps: seq<MediaPatch>)
    requires Fold((s, p) => PatchOne(id, isDvd, s, p), db, ps).Ok?
    ensures Tame(db, Fold((s, p) => PatchOne(id, isDvd, s, p), db, ps).value, id)
    decreases |ps|
  {
    if ps != [] {
      var mid := PatchOne(id, isDvd, db, ps[0]).value;
      PatchOneTame(id, isDvd, db, ps[0]);
      FoldTame(id, isDvd, mid, ps[1..]);
      TameTrans(db, mid, Fold((s, p) => PatchOne(id, isDvd, s, p), db, ps).value, id);
    }
  }

  /** Reading the record once agrees with reading it before every patch, because no patch makes or unmakes a DVD. */
  lemma PatchReadsOnce(db: Tables, rows: Rows, id: Id, patches: seq<MediaPatch>)
    ensures PatchMedia(db, rows, id, patches) == PatchMediaRereading(db, rows, id, patches)
  {
    var isDvd := IsDvd(db, id);
    var once := (s, p) => PatchOne(id, isDvd, s, p);
    var again := (s, p) => PatchOne(id, IsDvd(s, id), s, p);
    var inv := (s: Tables) => IsDvd(s, id) == isDvd;
    forall x, p | inv(x) && once(x, p).Ok? ensures inv(once(x, p).value) {
      PatchOneTame(id, isDvd, x, p);
    }
    FoldAgree(once, again, inv, db, patches);
  }

  /** A patch list that succeeds keeps the invariants, changes nothing but its own media, and can be read back. */
  lemma PatchMediaKeepsOk(db: Tables, rows: Rows, id: Id, ps: seq<MediaPatch>)
    requires Catalog.Ok(db) && PatchMedia(db, rows, id, ps).Ok?
    ensures var after := PatchMedia(db, rows, id, ps).value;
      Catalog.Ok(after) && Tame(db, after, id) && GetMedia(after, rows, id).Ok?
  {
    FoldTame(id, IsDvd(db, id), db, ps);
  }

  /** A concatenated patch list is one request and then, if it succeeded, the other, errors included. */
  lemma PatchMediaAppend(db: Tables, rows: Rows, id: Id, ps: seq<MediaPatch>, qs: seq<MediaPatch>)
    ensures PatchMedia(db, rows, id, ps + qs) ==
      match PatchMedia(db, rows, id, ps) case Err(e) => Err(e) case Ok(mid) => PatchMedia(mid, rows, id, qs)
  {
    if id != 0 && GetMedia(db, rows, id).Ok? {
      var isDvd := IsDvd(db, id);
      FoldAppend((s, p) => PatchOne(id, isDvd, s, p), db, ps, qs);
      if PatchMedia(db, rows, id, ps).Ok? {
        FoldTame(id, isDvd, db, ps);
      }
    }
  }
}
