/** The catalog service: calls that change the tables in place, each one transaction. */
module CatalogService {
  import opened Results
  import opened Basics
  import opened Catalog
  import opened CardDeletion
  import opened CardOps
  import opened Folds
  import KindOps

  /** The rows that a cascade can delete. */
  function RowCount(db: Tables): nat {
    |db.cards| + |db.movies| + |db.editions|
  }

  /** A DELETE that sets others off removes a row, so a cascade ends. */
  lemma FireShrinks(db: Tables, r: Req)
    ensures RowCount(Fire(db, r).0) < RowCount(db) || (RowCount(Fire(db, r).0) == RowCount(db) && Fire(db, r).1 == {})
  {
    match r
    case DelCard(c) => if c in db.cards { WithoutShrinks(db.cards, {c}, c); }
    case DelMovie(c) => if c in db.movies { WithoutShrinks(db.movies, {c}, c); }
    case DelEdition(c) => if c in db.editions { WithoutShrinks(db.editions, {c}, c); }
    case DelLinks(_) =>
    case DelEditionsOf(m) =>
      var es := EditionsOf(db, m);
      if es == {} {
        assert Without(db.editions, es) == db.editions;
      } else {
        var e :| e in es;
        WithoutShrinks(db.editions, es, e);
      }
  }

  lemma CascadeStarts(db: Tables, id: Id)
    requires CardsOk(db) && id in db.cards
    ensures CardDeletion.Invariant(db, db, id, {DelCard(id)})
  {
  }

  /** The measure of the loop goes down. */
  lemma CascadeGoesOn(db: Tables, todo: set<Req>, r: Req)
    requires r in todo
    ensures var (after, more) := Fire(db, r);
      RowCount(after) < RowCount(db) || (RowCount(after) == RowCount(db) && |todo - {r} + more| < |todo|)
  {
    FireShrinks(db, r);
    assert todo - {r} + {} == todo - {r};
  }

  class Service {
    var db: Tables

    constructor (tables: Tables)
      ensures db == tables
    {
      db := tables;
    }

    /**
     The cascade of one DELETE: pending requests are fired in any order until none is left.  It ends, and it
     removes exactly the closure of the card.
     */
    method Cascade(id: Id)
      requires CardsOk(db) && id in db.cards
      modifies this
      ensures db == DropCards(old(db), Closure(old(db), id))
    {
      var todo := {DelCard(id)};
      CascadeStarts(db, id);
      while todo != {}
        invariant CardDeletion.Invariant(old(db), db, id, todo)
        decreases RowCount(db), |todo|
      {
        var r :| r in todo;
        FireKeepsInvariant(old(db), db, id, todo, r);
        CascadeGoesOn(db, todo, r);
        var (after, more) := Fire(db, r);
        db := after;
        todo := todo - {r} + more;
      }
      DoneIsExact(old(db), db, id);
    }

    method DeleteCard(id: Id) returns (error: Option<ApiError>)
      requires Catalog.Ok(db)
      modifies this
      ensures error == if id == 0 then Some(BadRequest) else if id !in old(db).cards then Some(NotFound) else None
      ensures db == if error.None? then DropCards(old(db), Closure(old(db), id)) else old(db)
      ensures Catalog.Ok(db)
    {
      if id == 0 {
        return Some(BadRequest);
      }
      if id !in db.cards {
        return Some(NotFound);
      }
      DropKeepsOk(db, id);
      Cascade(id);
      error := None;
    }

    /** `PostCard`; a call that fails leaves the tables as they were. */
    method PostCard(body: Option<NewCard>) returns (r: Result<CardView, ApiError>)
      requires Catalog.Ok(db)
      modifies this
      ensures Catalog.Ok(db)
      ensures match CardOps.PostCard(old(db), body)
              case Ok(after) => db == after && r == GetCard(after, old(db).nextCard) && r.Ok?
              case Err(e) => db == old(db) && r == Err(e)
    {
      ghost var before := db;
      if CardOps.PostCard(before, body).Ok? {
        PostCardKeepsOk(before, body);
      }
      if body.None? || body.value.name == "" {
        return Err(BadRequest);
      }
      if NameTaken(db, body.value.name) {
        return Err(AlreadyExists);
      }
      var saved, id := db, db.nextCard;
      db := db.(cards := db.cards[id := Card(body.value.name, body.value.note)], nextCard := id + 1);
      if body.value.movie.Some? == body.value.edition.Some? {
        db := saved;
        return Err(BadRequest);
      }
      if body.value.movie.Some? {
        var movie := body.value.movie.value;
        db := db.(movies := db.movies[id := Movie(movie.tmdbId, movie.fanartId, None)]);
      } else {
        var edition := body.value.edition.value;
        if edition.kindId !in db.kinds || edition.movieId !in db.movies {
          db := saved;
          return Err(BadRequest);
        }
        db := db.(editions := db.editions[id := edition]);
      }
      r := GetCard(db, id);
    }

    /** The body of the loop of `PatchCard`; on an error the caller rolls back. */
    method PatchStep(id: Id, shape: Shape, p: CardPatch) returns (error: Option<ApiError>)
      modifies this
      ensures PatchOne(id, shape, old(db), p) == if error.None? then Result.Ok(db) else Err(error.value)
    {
      var fieldsSet := 0;
      if p.name.Some? {
        fieldsSet := fieldsSet + 1;
        if p.name.value == "" {
          return Some(BadRequest);
        }
        if id !in db.cards {
          return Some(NotFound);
        }
        db := db.(cards := db.cards[id := db.cards[id].(name := p.name.value)]);
      }
      if p.note.Some? {
        fieldsSet := fieldsSet + 1;
        if id !in db.cards {
          return Some(NotFound);
        }
        db := db.(cards := db.cards[id := db.cards[id].(note := p.note)]);
      }
      if p.movie.Some? {
        fieldsSet := fieldsSet + 1;
        match PatchMovie(db, id, shape, p.movie) {
          case Err(e) => return Some(e);
          case Ok(next) => db := next;
        }
      }
      if p.edition.Some? {
        fieldsSet := fieldsSet + 1;
        match PatchEdition(db, id, shape, p.edition) {
          case Err(e) => return Some(e);
          case Ok(next) => db := next;
        }
      }
      error := if fieldsSet == 1 then None else Some(BadRequest);
    }

    /** `PatchCard`: all patches or none. */
    method PatchCard(id: Id, body: Option<seq<CardPatch>>) returns (r: Result<CardView, ApiError>)
      requires Catalog.Ok(db)
      modifies this
      ensures Catalog.Ok(db)
      ensures body.None? ==> r == Err(BadRequest) && db == old(db)
      ensures body.Some? ==>
        match CardOps.PatchCard(old(db), id, body.value)
        case Ok(after) => db == after && r == GetCard(after, id) && r.Ok?
        case Err(e) => db == old(db) && r == Err(e)
    {
      if id == 0 || body.None? {
        return Err(BadRequest);
      }
      if id !in db.cards {
        return Err(NotFound);
      }
      var saved, shape, patches := db, ShapeOf(db, id), body.value;
      ghost var apply := (s, p) => PatchOne(id, shape, s, p);
      for i := 0 to |patches|
        invariant Fold(apply, saved, patches[..i]) == Result.Ok(db)
      {
        FoldSnoc(apply, saved, patches, i);
        var error := PatchStep(id, shape, patches[i]);
        if error.Some? {
          FoldFails(apply, saved, patches, i + 1);
          db := saved;
          return Err(error.value);
        }
      }
      assert patches[..|patches|] == patches;
      PatchCardKeepsOk(saved, id, patches);
      r := GetCard(db, id);
    }

    // ------------------------------------------------------------------ kinds

    method PostKind(name: string, wanted: Option<bool>) returns (r: Result<Id, ApiError>)
      requires Catalog.Ok(db)
      modifies this
      ensures Catalog.Ok(db)
      ensures match KindOps.PostKind(old(db), name, wanted)
              case Ok(after) => db == after && r == Result.Ok(old(db).nextKind)
              case Err(e) => db == old(db) && r == Err(e)
    {
      KindOps.PostKindExact(db, name, wanted);
      if KindOps.PostKind(db, name, wanted).Ok? {
        KindOps.PostKindKeepsOk(db, name, wanted);
      }
      if name == "" {
        return Err(BadRequest);
      }
      var isDefault := wanted == Some(true);
      if KindOps.KindNameTaken(db.kinds, name) {
        return Err(AlreadyExists);
      }
      var id := db.nextKind;
      if isDefault {
        db := db.(kinds := KindOps.Unset(db.kinds));
      }
      db := db.(kinds := db.kinds[id := Kind(name, isDefault)], nextKind := id + 1);
      r := Result.Ok(id);
    }

    /** `DeleteMovieEditionKind`: the row goes, and then the foreign key of every edition is checked, in any order. */
    method DeleteKind(id: Id) returns (error: Option<ApiError>)
      requires Catalog.Ok(db)
      modifies this
      ensures Catalog.Ok(db)
      ensures match KindOps.DeleteKind(old(db), id)
              case Ok(after) => db == after && error.None?
              case Err(e) => db == old(db) && error == Some(e)
    {
      if id == 0 {
        return Some(BadRequest);
      }
      if id !in db.kinds {
        return Some(NotFound);
      }
      KindOps.DeleteKindKeepsOk(db, id);
      var saved, todo := db, db.editions.Keys;
      db := db.(kinds := Without(db.kinds, {id}));
      while todo != {}
        invariant todo <= saved.editions.Keys && db == saved.(kinds := Without(saved.kinds, {id}))
        invariant forall e :: e in saved.editions && e !in todo ==> saved.editions[e].kindId != id
        decreases |todo|
      {
        var e :| e in todo;
        if db.editions[e].kindId !in db.kinds {
          db := saved;
          return Some(Internal);
        }
        todo := todo - {e};
      }
      error := None;
    }

    /** The body of the loop of `PatchMovieEditionKind`; the unique index never stops one of its statements. */
    method PatchKindStep(id: Id, p: KindOps.KindPatch) returns (error: Option<ApiError>)
      requires OneDefault(db.kinds)
      modifies this
      ensures db == old(db).(kinds := db.kinds)
      ensures KindOps.PatchOne(id, old(db).kinds, p) == if error.None? then Result.Ok(db.kinds) else Err(error.value)
    {
      KindOps.IndexIsSilent(id, db.kinds, p);
      var rowsAffected, fieldsSet := 0, 0;
      if p.name.Some? {
        fieldsSet := fieldsSet + 1;
        rowsAffected := if id in db.kinds then 1 else 0;
        db := db.(kinds := KindOps.Rename(db.kinds, id, p.name.value));
      }
      if p.isDefault.Some? {
        fieldsSet := fieldsSet + 1;
        if p.isDefault.value {
          db := db.(kinds := KindOps.Unset(db.kinds));
        }
        rowsAffected := if id in db.kinds then 1 else 0;
        db := db.(kinds := KindOps.Mark(db.kinds, id, p.isDefault.value));
      }
      if fieldsSet != 1 {
        return Some(BadRequest);
      }
      error := if rowsAffected == 0 then Some(NotFound) else None;
    }

    method PatchKind(id: Id, body: Option<seq<KindOps.KindPatch>>) returns (r: Result<Kind, ApiError>)
      requires Catalog.Ok(db)
      modifies this
      ensures Catalog.Ok(db) && db == old(db).(kinds := db.kinds)
      ensures r != Err(Internal)
      ensures body.None? ==> r == Err(BadRequest) && db == old(db)
      ensures body.Some? ==>
        match KindOps.PatchKind(old(db).kinds, id, body.value)
        case Ok(after) => id in after && db.kinds == after && r == Result.Ok(after[id])
        case Err(e) => db == old(db) && r == Err(e)
    {
      if id == 0 || body.None? {
        return Err(BadRequest);
      }
      var saved, patches := db, body.value;
      ghost var apply := (k, p) => KindOps.PatchOne(id, k, p);
      KindOps.PatchKindExact(saved.kinds, id, patches);
      for i := 0 to |patches|
        invariant db == saved.(kinds := db.kinds)
        invariant Fold(apply, saved.kinds, patches[..i]) == Result.Ok(db.kinds)
      {
        FoldSnoc(apply, saved.kinds, patches, i);
        KindOps.FoldIsPatched(saved.kinds, id, patches[..i]);
        var error := PatchKindStep(id, patches[i]);
        if error.Some? {
          FoldFails(apply, saved.kinds, patches, i + 1);
          db := saved;
          return Err(error.value);
        }
      }
      assert patches[..|patches|] == patches;
      if id !in db.kinds {
        db := saved;
        return Err(NotFound);
      }
      KindOps.PatchedKeepsOk(saved, id, patches);
      r := Result.Ok(db.kinds[id]);
    }
  }
}
