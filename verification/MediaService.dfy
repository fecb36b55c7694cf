/** The media service and the ingestion handler: calls that change the tables in place, each one transaction. */
module MediaService {
  import opened Results
  import opened Basics
  import opened Catalog
  import opened Folds
  import opened TaskTable
  import opened TaskStore
  import opened MediaOps
  import opened MediaDeletion
  import DvdIngestion

  class Service {
    var db: Tables
    const store: Store

    constructor (tables: Tables, tasks: Store)
      ensures db == tables && store == tasks
    {
      db, store := tables, tasks;
    }

    /** The loop of `PostMedia` over the card ids; on an error the caller rolls back. */
    method LinkCards(id: Id, cardIds: seq<Id>) returns (error: Option<ApiError>)
      modifies this
      ensures Fold((s, c) => LinkOne(id, s, c), old(db), cardIds) == if error.None? then Result.Ok(db) else Err(error.value)
    {
      ghost var link := (s, c) => LinkOne(id, s, c);
      for i := 0 to |cardIds|
        invariant Fold(link, old(db), cardIds[..i]) == Result.Ok(db)
      {
        FoldSnoc(link, old(db), cardIds, i);
        var card := cardIds[i];
        if card !in db.cards {
          FoldFails(link, old(db), cardIds, i + 1);
          return Some(BadRequest);
        }
        if (id, card) in db.mediaCards {
          FoldFails(link, old(db), cardIds, i + 1);
          return Some(Internal);
        }
        db := db.(mediaCards := db.mediaCards + {(id, card)});
      }
      assert cardIds[..|cardIds|] == cardIds;
      error := None;
    }

    /** `PostMedia`: rows, links and ingestion task appear together, or nothing changes. */
    method PostMedia(now: Time, body: Option<NewMedia>) returns (r: Result<MediaView, ApiError>)
      modifies this, store
      ensures r.Err? ==> db == old(db) && store.rows == old(store.rows) && store.notices == old(store.notices)
      ensures match PostTables(old(db), body)
              case Err(e) => r == Err(e)
              case Ok(after) => r == GetMedia(after, old(store.rows), old(db).nextMedia)
      ensures r.Ok? ==>
        && PostTables(old(db), body) == Result.Ok(db)
        && store.rows == old(store.rows)[old(store.nextId) :=
             Task(DVD_INGESTION, Json(Some(old(db).nextMedia), ""), Pending, None, None, None, None, now)]
        && store.nextId == old(store.nextId) + 1 && store.notices == old(store.notices) + 1
    {
      if body.None? || body.value.dvdInboxPath.None? {
        return Err(BadRequest);
      }
      var b, saved, id := body.value, db, db.nextMedia;
      if b.mediaSetId.Some? && b.mediaSetId.value !in db.mediaSets {
        return Err(Internal);
      }
      var path := b.dvdInboxPath.value;
      if path == "" {
        return Err(BadRequest);
      }
      if PathTaken(db.dvds, path) {
        return Err(AlreadyExists);
      }
      db := db.(media := db.media[id := Media(b.mediaSetId, b.note)], dvds := db.dvds[id := path], nextMedia := id + 1);
      var error := LinkCards(id, b.cardIds);
      if error.Some? {
        db := saved;
        return Err(error.value);
      }
      r := GetMedia(db, store.rows, id);
      if r.Err? {
        db := saved;
        return;
      }
      var task, fault := store.Create(now, DVD_INGESTION, Some(Json(Some(id), "")));
    }

    /** The cascade of one DELETE: pending requests are fired in any order until none is left. */
    method Cascade(id: Id)
      requires id != 0 && id in db.media
      modifies this`db
      ensures MediaOps.DeleteMedia(old(db), id) == Result.Ok(db)
    {
      var todo := {DelMedia(id)};
      while todo != {}
        invariant MediaDeletion.Invariant(old(db), db, id, todo)
        decreases MediaDeletion.RowCount(db), |todo|
      {
        var r :| r in todo;
        MediaDeletion.FireKeepsInvariant(old(db), db, id, todo, r);
        MediaDeletion.FireShrinks(db, r, todo);
        var (after, more) := MediaDeletion.Fire(db, r);
        db := after;
        todo := todo - {r} + more;
      }
      MediaDeletion.DoneIsExact(old(db), db, id);
    }

    /** `DeleteMedia`: the cascade ends and takes exactly the media, its DVD row and its links; tasks stay. */
    method DeleteMedia(id: Id) returns (error: Option<ApiError>)
      modifies this`db
      ensures match MediaOps.DeleteMedia(old(db), id)
              case Ok(after) => db == after && error.None?
              case Err(e) => db == old(db) && error == Some(e)
    {
      if id == 0 {
        return Some(BadRequest);
      }
      if id !in db.media {
        return Some(NotFound);
      }
      Cascade(id);
      error := None;
    }

    /** The body of the loop of `PatchMedia`; on an error the caller rolls back. */
    method PatchStep(id: Id, isDvd: bool, p: MediaPatch) returns (error: Option<ApiError>)
      modifies this`db
      ensures PatchOne(id, isDvd, old(db), p) == if error.None? then Result.Ok(db) else Err(error.value)
    {
      var fieldsSet := 0;
      error, fieldsSet := PatchRowStep(id, p);
      if error.Some? {
        return;
      }
      if p.addCardId.Some? {
        fieldsSet := fieldsSet + 1;
        match PatchAdd(db, id, p.addCardId) {
          case Err(e) => return Some(e);
          case Ok(next) => db := next;
        }
      }
      if p.removeCardId.Some? {
        fieldsSet := fieldsSet + 1;
        if (id, p.removeCardId.value) !in db.mediaCards {
          return Some(BadRequest);
        }
        db := db.(mediaCards := db.mediaCards - {(id, p.removeCardId.value)});
      }
      if p.dvd.Some? {
        fieldsSet := fieldsSet + 1;
        match PatchDvd(db, id, isDvd, p.dvd) {
          case Err(e) => return Some(e);
          case Ok(next) => db := next;
        }
      }
      error := if fieldsSet == 1 then None else Some(BadRequest);
    }

    /** The patches of the media row itself, and how many of their fields were set. */
    method PatchRowStep(id: Id, p: MediaPatch) returns (error: Option<ApiError>, fieldsSet: nat)
      modifies this`db
      ensures PatchRow(id, old(db), p) == if error.None? then Result.Ok(db) else Err(error.value)
      ensures error.None? ==>
        fieldsSet == Count(p.note.Some?) + Count(p.mediaSetId.Some?) + Count(p.clearMediaSetId == Some(true))
    {
      fieldsSet := 0;
      if p.note.Some? {
        fieldsSet := fieldsSet + 1;
        if id !in db.media {
          return Some(NotFound), fieldsSet;
        }
        db := db.(media := db.media[id := db.media[id].(note := p.note)]);
      }
      if p.mediaSetId.Some? {
        fieldsSet := fieldsSet + 1;
        var mediaSetId := p.mediaSetId.value;
        if mediaSetId != 0 && mediaSetId !in db.mediaSets {
          return Some(BadRequest), fieldsSet;
        }
        if id !in db.media {
          return Some(NotFound), fieldsSet;
        }
        db := db.(media := db.media[id := db.media[id].(mediaSetId := if mediaSetId == 0 then None else p.mediaSetId)]);
      }
      if p.clearMediaSetId == Some(true) {
        fieldsSet := fieldsSet + 1;
        if id !in db.media {
          return Some(NotFound), fieldsSet;
        }
        db := db.(media := db.media[id := db.media[id].(mediaSetId := None)]);
      }
      error := None;
    }

    /** `PatchMedia`: all patches or none. */
    method PatchMedia(id: Id, body: Option<seq<MediaPatch>>) returns (r: Result<MediaView, ApiError>)
      requires Catalog.Ok(db)
      modifies this`db
      ensures Catalog.Ok(db)
      ensures body.None? ==> r == Err(BadRequest) && db == old(db)
      ensures body.Some? ==>
        match MediaOps.PatchMedia(old(db), old(store.rows), id, body.value)
        case Ok(after) => db == after && r == GetMedia(after, old(store.rows), id) && r.Ok?
        case Err(e) => db == old(db) && r == Err(e)
    {
      if id == 0 || body.None? {
        return Err(BadRequest);
      }
      var current := GetMedia(db, store.rows, id);
      if current.Err? {
        return current;
      }
      var saved, isDvd, patches := db, IsDvd(db, id), body.value;
      ghost var apply := (s, p) => PatchOne(id, isDvd, s, p);
      for i := 0 to |patches|
        invariant Fold(apply, saved, patches[..i]) == Result.Ok(db)
      {
        FoldSnoc(apply, saved, patches, i);
        var error := PatchStep(id, isDvd, patches[i]);
        if error.Some? {
          FoldFails(apply, saved, patches, i + 1);
          db := saved;
          return Err(error.value);
        }
      }
      assert patches[..|patches|] == patches;
      PatchMediaKeepsOk(saved, store.rows, id, patches);
      r := GetMedia(db, store.rows, id);
    }

    /** `Handle`, run undisturbed. */
    method HandleIngestion(state: Json, renamed: bool) returns (result: HandlerResult)
      modifies this`db
      ensures var m := if state.mediaId.Some? then state.mediaId.value else 0;
              (db, result) == DvdIngestion.Handle(old(db), state, m in old(db).dvds, renamed)
    {
      var m := if state.mediaId.Some? then state.mediaId.value else 0;
      if m !in db.dvds {
        return HandlerResult(None, Known(Failed), "failed to query media_dvds");
      }
      if !renamed {
        return HandlerResult(None, Known(Failed), "failed to rename DVD path");
      }
      db := db.(dvds := db.dvds[m := DvdIngestion.FinalPath(m)]);
      result := HandlerResult(None, Known(Completed), "");
    }
  }
}
