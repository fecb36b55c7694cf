/** Creating, reading, patching and deleting cards. */
module CardOps {
  import opened Results
  import opened Basics
  import opened Catalog
  import opened CardDeletion
  import opened Folds

  function LowerChar(c: char): char {
    if 'A' <= c <= 'Z' then (c as int + 32) as char else c
  }

  function Lower(s: string): string {
    if s == [] then [] else [LowerChar(s[0])] + Lower(s[1..])
  }

  /** The same letter up to ASCII case. */
  predicate SameLetter(x: char, y: char) {
    || x == y
    || ('A' <= x <= 'Z' && y as int == x as int + 32)
    || ('A' <= y <= 'Z' && x as int == y as int + 32)
  }

  predicate SameName(a: string, b: string) {
    |a| == |b| && forall i :: 0 <= i < |a| ==> SameLetter(a[i], b[i])
  }

  lemma {:induction false} LowerAt(s: string)
    ensures |Lower(s)| == |s| && forall i :: 0 <= i < |s| ==> Lower(s)[i] == LowerChar(s[i])
    decreases |s|
  {
    if s != [] {
      LowerAt(s[1..]);
    }
  }

  /** Names count as equal if and only if they agree letter by letter up to case. */
  lemma LowerExact(a: string, b: string)
    ensures Lower(a) == Lower(b) <==> SameName(a, b)
  {
    LowerAt(a);
    LowerAt(b);
    if SameName(a, b) {
      forall i | 0 <= i < |a| ensures Lower(a)[i] == Lower(b)[i] {
        assert SameLetter(a[i], b[i]);
      }
    }
    if Lower(a) == Lower(b) {
      forall i | 0 <= i < |a| ensures SameLetter(a[i], b[i]) {
        assert Lower(a)[i] == Lower(b)[i];
      }
    }
  }

  // ---------------------------------------------------------------------- create

  datatype NewMovie = NewMovie(tmdbId: Option<nat>, fanartId: Option<string>)
  datatype NewCard = NewCard(name: string, note: Option<string>, movie: Option<NewMovie>, edition: Option<Edition>)

  predicate NameTaken(db: Tables, name: string) {
    exists c :: c in db.cards && Lower(db.cards[c].name) == Lower(name)
  }

  function PostCard(db: Tables, body: Option<NewCard>): Result<Tables, ApiError> {
    if body.None? || body.value.name == "" then Err(BadRequest)
    else if NameTaken(db, body.value.name) then Err(AlreadyExists)
    else if body.value.movie.Some? == body.value.edition.Some? then Err(BadRequest)
    else
      var id := db.nextCard;
      var db1 := db.(cards := db.cards[id := Card(body.value.name, body.value.note)], nextCard := id + 1);
      if body.value.movie.Some? then
        var m := body.value.movie.value;
        Result.Ok(db1.(movies := db.movies[id := Movie(m.tmdbId, m.fanartId, None)]))
      else
        var e := body.value.edition.value;
        if e.kindId !in db.kinds || e.movieId !in db.movies then Err(BadRequest)
        else Result.Ok(db1.(editions := db.editions[id := e]))
  }

  lemma NewMovieKeepsOk(db: Tables, card: Card, movie: Movie)
    requires Catalog.Ok(db) && card.name != ""
    ensures var id := db.nextCard;
            Catalog.Ok(db.(cards := db.cards[id := card], nextCard := id + 1, movies := db.movies[id := movie]))
  {
    assert db.nextCard !in db.cards;
  }

  lemma NewEditionKeepsOk(db: Tables, card: Card, edition: Edition)
    requires Catalog.Ok(db) && card.name != "" && edition.kindId in db.kinds && edition.movieId in db.movies
    ensures var id := db.nextCard;
            Catalog.Ok(db.(cards := db.cards[id := card], nextCard := id + 1, editions := db.editions[id := edition]))
  {
    assert db.nextCard !in db.cards;
  }

  /** A new card has exactly one kind of details, under a fresh id, and its references exist. */
  lemma PostCardKeepsOk(db: Tables, body: Option<NewCard>)
    requires Catalog.Ok(db) && PostCard(db, body).Ok?
    ensures Catalog.Ok(PostCard(db, body).value)
    ensures db.nextCard !in db.cards && PostCard(db, body).value.cards.Keys == db.cards.Keys + {db.nextCard}
  {
    var card := Card(body.value.name, body.value.note);
    if body.value.movie.Some? {
      NewMovieKeepsOk(db, card, Movie(body.value.movie.value.tmdbId, body.value.movie.value.fanartId, None));
    } else {
      NewEditionKeepsOk(db, card, body.value.edition.value);
    }
  }

  // ------------------------------------------------------------------------ read

  datatype Details = NoDetails | MovieDetails(tmdbId: Option<nat>, fanartId: Option<string>) | EditionDetails(kindId: Id, movieId: Id)
  datatype CardView = CardView(id: Id, name: string, note: Option<string>, details: Details)

  /** `getCard`: a card joined with whichever details it has. */
  function GetCard(db: Tables, id: Id): Result<CardView, ApiError> {
    if id !in db.cards then Err(NotFound) else
      var details :=
        if id in db.movies then MovieDetails(db.movies[id].tmdbId, db.movies[id].fanartId)
        else if id in db.editions then EditionDetails(db.editions[id].kindId, db.editions[id].movieId)
        else NoDetails;
      Result.Ok(CardView(id, db.cards[id].name, db.cards[id].note, details))
  }

  // ---------------------------------------------------------------------- delete

  lemma DropKeepsOk(db: Tables, x: Id)
    requires Catalog.Ok(db) && x in db.cards
    ensures Catalog.Ok(DropCards(db, Closure(db, x)))
  {
    var gone := Closure(db, x);
    var after := DropCards(db, gone);
    forall e | e in after.editions
      ensures after.editions[e].movieId in after.movies
    {
      var m := db.editions[e].movieId;
      assert m in db.movies;
      assert e !in EditionsOf(db, x);
    }
    assert CardsOk(after);
    assert LinksOk(after);
  }

  // ----------------------------------------------------------------------- patch

  datatype MoviePatch = MoviePatch(tmdbId: Option<nat>, fanartId: Option<string>, releaseYear: Option<int>)
  datatype EditionPatch = EditionPatch(kindId: Option<Id>)
  datatype CardPatch = CardPatch(
    name: Option<string>, note: Option<string>, movie: Option<MoviePatch>, edition: Option<EditionPatch>)

  /** The kind of a card, as the record read before the loop shows it. */
  datatype Shape = IsMovie | IsEdition | IsNeither

  function ShapeOf(db: Tables, id: Id): Shape {
    if id in db.movies then IsMovie else if id in db.editions then IsEdition else IsNeither
  }

  function PatchName(db: Tables, id: Id, name: Option<string>): Result<Tables, ApiError> {
    if name.None? then Result.Ok(db)
    else if name.value == "" then Err(BadRequest)
    else if id !in db.cards then Err(NotFound)
    else Result.Ok(db.(cards := db.cards[id := db.cards[id].(name := name.value)]))
  }

  function PatchNote(db: Tables, id: Id, note: Option<string>): Result<Tables, ApiError> {
    if note.None? then Result.Ok(db)
    else if id !in db.cards then Err(NotFound)
    else Result.Ok(db.(cards := db.cards[id := db.cards[id].(note := note)]))
  }

  function PatchMovie(db: Tables, id: Id, shape: Shape, patch: Option<MoviePatch>): Result<Tables, ApiError> {
    if patch.None? then Result.Ok(db)
    else if !shape.IsMovie? then Err(BadRequest)
    else
      var p := patch.value;
      if Count(p.tmdbId.Some?) + Count(p.fanartId.Some?) + Count(p.releaseYear.Some?) != 1 then Err(BadRequest)
      else if id !in db.movies then Result.Ok(db)
      else
        var m := db.movies[id];
        Result.Ok(db.(movies := db.movies[id := Movie(
          if p.tmdbId.Some? then p.tmdbId else m.tmdbId,
          if p.fanartId.Some? then p.fanartId else m.fanartId,
          if p.releaseYear.Some? then p.releaseYear else m.releaseYear)]))
  }

  function PatchEdition(db: Tables, id: Id, shape: Shape, patch: Option<EditionPatch>): Result<Tables, ApiError> {
    if patch.None? then Result.Ok(db)
    else if !shape.IsEdition? then Err(BadRequest)
    else if patch.value.kindId.None? || patch.value.kindId.value !in db.kinds then Err(BadRequest)
    else if id !in db.editions then Result.Ok(db)
    else Result.Ok(db.(editions := db.editions[id := db.editions[id].(kindId := patch.value.kindId.value)]))
  }

  /** The body of the loop: every field that is set is written, and then the patch fails unless it was exactly one. */
  function PatchOne(id: Id, shape: Shape, db: Tables, p: CardPatch): Result<Tables, ApiError> {
    match PatchName(db, id, p.name)
    case Err(e) => Err(e)
    case Ok(db1) =>
      match PatchNote(db1, id, p.note)
      case Err(e) => Err(e)
      case Ok(db2) =>
        match PatchMovie(db2, id, shape, p.movie)
        case Err(e) => Err(e)
        case Ok(db3) =>
          match PatchEdition(db3, id, shape, p.edition)
          case Err(e) => Err(e)
          case Ok(db4) =>
            if Count(p.name.Some?) + Count(p.note.Some?) + Count(p.movie.Some?) + Count(p.edition.Some?) == 1
            then Result.Ok(db4) else Err(BadRequest)
  }

  /** `PatchCard`: the record is read once, before the loop. */
  function PatchCard(db: Tables, id: Id, patches: seq<CardPatch>): Result<Tables, ApiError> {
    if id == 0 then Err(BadRequest)
    else if id !in db.cards then Err(NotFound)
    else var shape := ShapeOf(db, id); Fold((s, p) => PatchOne(id, shape, s, p), db, patches)
  }

  /** The same, reading the record again before every patch. */
  function PatchCardRereading(db: Tables, id: Id, patches: seq<CardPatch>): Result<Tables, ApiError> {
    if id == 0 then Err(BadRequest)
    else if id !in db.cards then Err(NotFound)
    else Fold((s, p) => PatchOne(id, ShapeOf(s, id), s, p), db, patches)
  }

  /** What no patch touches: which rows exist, and everything but the patched row. */
  ghost predicate SameOutline(a: Tables, b: Tables, id: Id) {
    && a.cards.Keys == b.cards.Keys && a.movies.Keys == b.movies.Keys && a.editions.Keys == b.editions.Keys
    && b == a.(cards := b.cards, movies := b.movies, editions := b.editions)
    && (forall c :: c in a.cards && c != id ==> b.cards[c] == a.cards[c])
    && (forall c :: c in a.movies && c != id ==> b.movies[c] == a.movies[c])
    && (forall c :: c in a.editions && c != id ==> b.editions[c] == a.editions[c])
    && (forall c :: c in a.editions ==> b.editions[c].movieId == a.editions[c].movieId)
  }

  /** One statement of a patch: the outline stays, and with it every invariant. */
  ghost predicate Tame(a: Tables, b: Tables, id: Id) {
    SameOutline(a, b, id) && (Catalog.Ok(a) ==> Catalog.Ok(b))
  }

  lemma TameTrans(a: Tables, b: Tables, c: Tables, id: Id)
    requires Tame(a, b, id) && Tame(b, c, id)
    ensures Tame(a, c, id)
  {
  }

  lemma OutlineKeepsOk(a: Tables, b: Tables, id: Id)
    requires SameOutline(a, b, id) && Catalog.Ok(a)
    requires id in b.cards ==> b.cards[id].name != ""
    requires id in b.editions ==> b.editions[id].kindId in b.kinds
    ensures Catalog.Ok(b)
  {
  }

  lemma SetCard(db: Tables, id: Id, card: Card)
    requires id in db.cards && (Catalog.Ok(db) ==> card.name != "")
    ensures Tame(db, db.(cards := db.cards[id := card]), id)
  {
    var after := db.(cards := db.cards[id := card]);
    assert SameOutline(db, after, id);
    if Catalog.Ok(db) {
      OutlineKeepsOk(db, after, id);
    }
  }

  lemma SetMovie(db: Tables, id: Id, movie: Movie)
    requires id in db.movies
    ensures Tame(db, db.(movies := db.movies[id := movie]), id)
  {
    var after := db.(movies := db.movies[id := movie]);
    assert SameOutline(db, after, id);
    if Catalog.Ok(db) {
      OutlineKeepsOk(db, after, id);
    }
  }

  lemma SetEdition(db: Tables, id: Id, edition: Edition)
    requires id in db.editions && edition.movieId == db.editions[id].movieId && edition.kindId in db.kinds
    ensures Tame(db, db.(editions := db.editions[id := edition]), id)
  {
    var after := db.(editions := db.editions[id := edition]);
    assert SameOutline(db, after, id);
    if Catalog.Ok(db) {
      OutlineKeepsOk(db, after, id);
    }
  }

  lemma PatchTextsTame(db: Tables, id: Id, name: Option<string>, note: Option<string>)
    ensures PatchName(db, id, name).Ok? ==> Tame(db, PatchName(db, id, name).value, id)
    ensures PatchNote(db, id, note).Ok? ==> Tame(db, PatchNote(db, id, note).value, id)
  {
    if id in db.cards {
      if name.Some? && name.value != "" {
        SetCard(db, id, db.cards[id].(name := name.value));
      }
      SetCard(db, id, db.cards[id].(note := note));
    }
  }

  lemma PatchMovieTame(db: Tables, id: Id, shape: Shape, patch: Option<MoviePatch>)
    requires PatchMovie(db, id, shape, patch).Ok?
    ensures Tame(db, PatchMovie(db, id, shape, patch).value, id)
  {
    if patch.Some? && id in db.movies {
      SetMovie(db, id, PatchMovie(db, id, shape, patch).value.movies[id]);
    }
  }

  lemma PatchEditionTame(db: Tables, id: Id, shape: Shape, patch: Option<EditionPatch>)
    requires PatchEdition(db, id, shape, patch).Ok?
    ensures Tame(db, PatchEdition(db, id, shape, patch).value, id)
  {
    if patch.Some? && id in db.editions {
      SetEdition(db, id, db.editions[id].(kindId := patch.value.kindId.value));
    }
  }

  lemma PatchOneTame(id: Id, shape: Shape, db: Tables, p: CardPatch)
    requires PatchOne(id, shape, db, p).Ok?
    ensures Tame(db, PatchOne(id, shape, db, p).value, id)
  {
    var db1 := PatchName(db, id, p.name).value;
    var db2 := PatchNote(db1, id, p.note).value;
    var db3 := PatchMovie(db2, id, shape, p.movie).value;
    var db4 := PatchEdition(db3, id, shape, p.edition).value;
    PatchTextsTame(db, id, p.name, None);
    PatchTextsTame(db1, id, None, p.note);
    PatchMovieTame(db2, id, shape, p.movie);
    PatchEditionTame(db3, id, shape, p.edition);
    TameTrans(db, db1, db2, id);
    TameTrans(db, db2, db3, id);
    TameTrans(db, db3, db4, id);
  }

  predicate Patchable(s: Tables, id: Id, shape: Shape) {
    id in s.cards && ShapeOf(s, id) == shape
  }

  /** The two folds agree, and what a card is survives them. */
  lemma PatchFolds(db: Tables, id: Id, shape: Shape, patches: seq<CardPatch>)
    requires Patchable(db, id, shape)
    ensures var once := Fold((s, p) => PatchOne(id, shape, s, p), db, patches);
      && once == Fold((s, p) => PatchOne(id, ShapeOf(s, id), s, p), db, patches)
      && (once.Ok? ==> Patchable(once.value, id, shape))
  {
    var once := (s, p) => PatchOne(id, shape, s, p);
    var again := (s, p) => PatchOne(id, ShapeOf(s, id), s, p);
    var inv := (s: Tables) => Patchable(s, id, shape);
    forall x, p | inv(x) && once(x, p).Ok? ensures inv(once(x, p).value) {
      PatchOneTame(id, shape, x, p);
    }
    FoldAgree(once, again, inv, db, patches);
  }

  /** Reading the record once agrees with reading it before every patch, because no patch changes its kind. */
  lemma PatchReadsOnce(db: Tables, id: Id, patches: seq<CardPatch>)
    ensures PatchCard(db, id, patches) == PatchCardRereading(db, id, patches)
  {
    if id in db.cards {
      PatchFolds(db, id, ShapeOf(db, id), patches);
    }
  }

  /** A concatenated patch list is one request and then, if it succeeded, the other, errors included. */
  lemma PatchCardAppend(db: Tables, id: Id, ps: seq<CardPatch>, qs: seq<CardPatch>)
    ensures PatchCard(db, id, ps + qs) ==
      match PatchCard(db, id, ps) case Err(e) => Err(e) case Ok(mid) => PatchCard(mid, id, qs)
  {
    if id != 0 && id in db.cards {
      var shape := ShapeOf(db, id);
      PatchFolds(db, id, shape, ps);
      FoldAppend((s, p) => PatchOne(id, shape, s, p), db, ps, qs);
    }
  }

  lemma {:induction false} FoldTame(db: Tables, id: Id, shape: Shape, ps: seq<CardPatch>)
    requires Fold((s, p) => PatchOne(id, shape, s, p), db, ps).Ok?
    ensures Tame(db, Fold((s, p) => PatchOne(id, shape, s, p), db, ps).value, id)
    decreases |ps|
  {
    if ps != [] {
      var mid := PatchOne(id, shape, db, ps[0]).value;
      PatchOneTame(id, shape, db, ps[0]);
      FoldTame(mid, id, shape, ps[1..]);
      TameTrans(db, mid, Fold((s, p) => PatchOne(id, shape, s, p), db, ps).value, id);
    }
  }

  /** A successful patch list keeps every invariant, and leaves what the card is and every other row alone. */
  lemma PatchCardKeepsOk(db: Tables, id: Id, ps: seq<CardPatch>)
    requires Catalog.Ok(db) && PatchCard(db, id, ps).Ok?
    ensures var after := PatchCard(db, id, ps).value;
      Catalog.Ok(after) && id in after.cards && ShapeOf(after, id) == ShapeOf(db, id) && SameOutline(db, after, id)
  {
    FoldTame(db, id, ShapeOf(db, id), ps);
  }
}
