/** What the calls on cards amount to, seen from outside: which patch lists succeed, what they leave, and what can be read afterwards. */
module CardPatches {
  import opened Results
  import opened Basics
  import opened Catalog
  import opened CardDeletion
  import opened CardOps
  import opened Folds

  // ------------------------------------------------------------------------- names

  predicate CardNamed(db: Tables, name: string) {
    exists c :: c in db.cards && SameName(db.cards[c].name, name)
  }

  lemma NameTakenExact(db: Tables, name: string)
    ensures NameTaken(db, name) <==> CardNamed(db, name)
  {
    forall c | c in db.cards ensures Lower(db.cards[c].name) == Lower(name) <==> SameName(db.cards[c].name, name) {
      LowerExact(db.cards[c].name, name);
    }
  }

  // ---------------------------------------------------------------------- creation

  /** Which error a request gets, if any. */
  function PostError(db: Tables, body: Option<NewCard>): Option<ApiError> {
    match body
    case None => Some(BadRequest)
    case Some(NewCard("", _, _, _)) => Some(BadRequest)
    case Some(NewCard(name, _, movie, edition)) =>
      if CardNamed(db, name) then Some(AlreadyExists)
      else if movie.Some? && edition.Some? then Some(BadRequest)
      else if movie.None? && edition.None? then Some(BadRequest)
      else if edition.Some? && edition.value.kindId !in db.kinds then Some(BadRequest)
      else if edition.Some? && edition.value.movieId !in db.movies then Some(BadRequest)
      else None
  }

  /** One more row under key `id`, and every other row as it was. */
  ghost predicate OneMore<V(!new)>(a: map<Id, V>, b: map<Id, V>, id: Id, v: V) {
    b.Keys == a.Keys + {id} && b[id] == v && forall k :: k in a && k != id ==> b[k] == a[k]
  }

  /** Exactly which requests create a card, which error every other one gets, and what each table holds afterwards. */
  lemma PostCardExact(db: Tables, body: Option<NewCard>)
    ensures PostCard(db, body).Ok? <==> PostError(db, body).None?
    ensures PostCard(db, body).Err? ==> Some(PostCard(db, body).error) == PostError(db, body)
    ensures PostCard(db, body).Ok? ==>
      var b, after := body.value, PostCard(db, body).value;
      && OneMore(db.cards, after.cards, db.nextCard, Card(b.name, b.note)) && after.nextCard == db.nextCard + 1
      && (b.movie.Some? ==>
            OneMore(db.movies, after.movies, db.nextCard, Movie(b.movie.value.tmdbId, b.movie.value.fanartId, None)) && after.editions == db.editions)
      && (b.edition.Some? ==>
            OneMore(db.editions, after.editions, db.nextCard, Edition(b.edition.value.kindId, b.edition.value.movieId)) && after.movies == db.movies)
      && after.kinds == db.kinds && after.nextKind == db.nextKind && SameMedia(db, after)
  {
    if body.Some? {
      NameTakenExact(db, body.value.name);
    }
  }

  /** The tables of the media service are untouched. */
  predicate SameMedia(a: Tables, b: Tables) {
    && b.media == a.media && b.dvds == a.dvds && b.mediaSets == a.mediaSets && b.nextMedia == a.nextMedia
    && b.mediaCards == a.mediaCards && b.setCards == a.setCards
  }

  // ---------------------------------------------------------------------- deletion

  /** What is left after a deletion, row by row: cards, details and links of the card and of its editions are gone, nothing else. */
  lemma DeleteCardExact(db: Tables, x: Id)
    requires x in db.cards
    ensures var after := DropCards(db, Closure(db, x));
      && (forall c :: c in after.cards <==> c in db.cards && c != x && !(c in db.editions && db.editions[c].movieId == x))
      && (forall c :: c in after.movies <==> c in db.movies && c != x && !(c in db.editions && db.editions[c].movieId == x))
      && (forall c :: c in after.editions <==> c in db.editions && c != x && db.editions[c].movieId != x)
      && (forall c :: c in after.cards ==> after.cards[c] == db.cards[c])
      && (forall c :: c in after.movies ==> after.movies[c] == db.movies[c])
      && (forall c :: c in after.editions ==> after.editions[c] == db.editions[c])
      && (forall p :: p in after.mediaCards <==> p in db.mediaCards && p.1 != x && !(p.1 in db.editions && db.editions[p.1].movieId == x))
      && (forall p :: p in after.setCards <==> p in db.setCards && p.1 != x && !(p.1 in db.editions && db.editions[p.1].movieId == x))
      && after.kinds == db.kinds && after.media == db.media && after.dvds == db.dvds && after.mediaSets == db.mediaSets
      && after.nextCard == db.nextCard && after.nextKind == db.nextKind && after.nextMedia == db.nextMedia
  {
  }

  // ------------------------------------------------------------ reading afterwards

  /** A card as it is read: name and note of its row, and the details of whichever table has it. */
  lemma GetCardExact(db: Tables, id: Id)
    ensures GetCard(db, id) == Err(NotFound) <==> id !in db.cards
    ensures id in db.cards ==>
      && GetCard(db, id).Ok? && GetCard(db, id).value.id == id
      && GetCard(db, id).value.name == db.cards[id].name && GetCard(db, id).value.note == db.cards[id].note
    ensures id in db.cards && id in db.movies ==>
      GetCard(db, id).value.details == MovieDetails(db.movies[id].tmdbId, db.movies[id].fanartId)
    ensures id in db.cards && id !in db.movies && id in db.editions ==>
      GetCard(db, id).value.details == EditionDetails(db.editions[id].kindId, db.editions[id].movieId)
  {
  }

  function DetailsOf(b: NewCard): Details {
    if b.movie.Some? then MovieDetails(b.movie.value.tmdbId, b.movie.value.fanartId)
    else if b.edition.Some? then EditionDetails(b.edition.value.kindId, b.edition.value.movieId)
    else NoDetails
  }

  /** A card that was created reads back as requested, and every other card reads as before. */
  lemma PostThenGet(db: Tables, b: NewCard, c: Id)
    requires CardsOk(db) && PostCard(db, Some(b)).Ok?
    ensures GetCard(PostCard(db, Some(b)).value, c) ==
      if c == db.nextCard then Result.Ok(CardView(c, b.name, b.note, DetailsOf(b))) else GetCard(db, c)
  {
    assert db.nextCard !in db.cards;
  }

  /** After a deletion the cards of the closure are not found, and every other card reads as before. */
  lemma DeleteThenGet(db: Tables, x: Id, c: Id)
    requires x in db.cards
    ensures GetCard(DropCards(db, Closure(db, x)), c) == if c in Closure(db, x) then Err(NotFound) else GetCard(db, c)
  {
  }

  // -------------------------------------------------------------- the net of a list

  function NameField(p: CardPatch): Option<string> { p.name }
  function NoteField(p: CardPatch): Option<Option<string>> { if p.note.Some? then Some(p.note) else None }
  function TmdbField(p: CardPatch): Option<Option<nat>> {
    if p.movie.Some? && p.movie.value.tmdbId.Some? then Some(p.movie.value.tmdbId) else None
  }
  function FanartField(p: CardPatch): Option<Option<string>> {
    if p.movie.Some? && p.movie.value.fanartId.Some? then Some(p.movie.value.fanartId) else None
  }
  function YearField(p: CardPatch): Option<Option<int>> {
    if p.movie.Some? && p.movie.value.releaseYear.Some? then Some(p.movie.value.releaseYear) else None
  }
  function KindField(p: CardPatch): Option<Id> { if p.edition.Some? then p.edition.value.kindId else None }

  function NetCard(c: Card, ps: seq<CardPatch>): Card {
    Card(LastSet(NameField, ps, c.name), LastSet(NoteField, ps, c.note))
  }

  function NetMovie(m: Movie, ps: seq<CardPatch>): Movie {
    Movie(LastSet(TmdbField, ps, m.tmdbId), LastSet(FanartField, ps, m.fanartId), LastSet(YearField, ps, m.releaseYear))
  }

  function NetEdition(e: Edition, ps: seq<CardPatch>): Edition {
    e.(kindId := LastSet(KindField, ps, e.kindId))
  }

  function At<V>(m: map<Id, V>, id: Id, f: V -> V): map<Id, V> {
    if id in m then m[id := f(m[id])] else m
  }

  /** The net effect of a patch list: every field of the card gets the last word on it, and nothing else changes. */
  function Net(db: Tables, id: Id, ps: seq<CardPatch>): Tables {
    db.(cards := At(db.cards, id, c => NetCard(c, ps)),
        movies := At(db.movies, id, m => NetMovie(m, ps)),
        editions := At(db.editions, id, e => NetEdition(e, ps)))
  }

  function StepCard(c: Card, p: CardPatch): Card {
    Card(Or(NameField(p), c.name), Or(NoteField(p), c.note))
  }

  function StepMovie(m: Movie, p: CardPatch): Movie {
    Movie(Or(TmdbField(p), m.tmdbId), Or(FanartField(p), m.fanartId), Or(YearField(p), m.releaseYear))
  }

  function StepEdition(e: Edition, p: CardPatch): Edition {
    e.(kindId := Or(KindField(p), e.kindId))
  }

  /** One patch field by field, as the tables should show it. */
  ghost predicate Stepped(a: Tables, b: Tables, id: Id, p: CardPatch) {
    && b == a.(cards := b.cards, movies := b.movies, editions := b.editions)
    && b.cards == At(a.cards, id, c => StepCard(c, p))
    && b.movies == At(a.movies, id, m => StepMovie(m, p))
    && b.editions == At(a.editions, id, e => StepEdition(e, p))
  }

  /** Two changes in one place are one change. */
  lemma AtTwice<V>(m: map<Id, V>, id: Id, f: V -> V, g: V -> V, h: V -> V)
    requires id in m ==> g(f(m[id])) == h(m[id])
    ensures At(At(m, id, f), id, g) == At(m, id, h)
  {
  }

  lemma NetFieldsSnoc(c: Card, m: Movie, e: Edition, ps: seq<CardPatch>, p: CardPatch)
    ensures NetCard(c, ps + [p]) == StepCard(NetCard(c, ps), p)
    ensures NetMovie(m, ps + [p]) == StepMovie(NetMovie(m, ps), p)
    ensures NetEdition(e, ps + [p]) == StepEdition(NetEdition(e, ps), p)
  {
    LastSetSnoc(NameField, ps, p, c.name);
    LastSetSnoc(NoteField, ps, p, c.note);
    LastSetSnoc(TmdbField, ps, p, m.tmdbId);
    LastSetSnoc(FanartField, ps, p, m.fanartId);
    LastSetSnoc(YearField, ps, p, m.releaseYear);
    LastSetSnoc(KindField, ps, p, e.kindId);
  }

  lemma NetSnoc(db: Tables, after: Tables, id: Id, ps: seq<CardPatch>, p: CardPatch)
    requires Stepped(Net(db, id, ps), after, id, p)
    ensures after == Net(db, id, ps + [p])
  {
    forall c, m, e ensures
      && NetCard(c, ps + [p]) == StepCard(NetCard(c, ps), p)
      && NetMovie(m, ps + [p]) == StepMovie(NetMovie(m, ps), p)
      && NetEdition(e, ps + [p]) == StepEdition(NetEdition(e, ps), p)
    {
      NetFieldsSnoc(c, m, e, ps, p);
    }
    AtTwice(db.cards, id, c => NetCard(c, ps), c => StepCard(c, p), c => NetCard(c, ps + [p]));
    AtTwice(db.movies, id, m => NetMovie(m, ps), m => StepMovie(m, p), m => NetMovie(m, ps + [p]));
    AtTwice(db.editions, id, e => NetEdition(e, ps), e => StepEdition(e, p), e => NetEdition(e, ps + [p]));
  }

  // ------------------------------------------------------------------- one patch

  /** A patch that can be applied to a card of this shape: one field, non-empty, of the right kind, and referring to something. */
  predicate Acceptable(shape: Shape, kinds: map<Id, Kind>, p: CardPatch) {
    match p
    case CardPatch(Some(name), None, None, None) => name != ""
    case CardPatch(None, Some(_), None, None) => true
    case CardPatch(None, None, Some(m), None) =>
      shape.IsMovie? && Count(m.tmdbId.Some?) + Count(m.fanartId.Some?) + Count(m.releaseYear.Some?) == 1
    case CardPatch(None, None, None, Some(e)) => shape.IsEdition? && e.kindId.Some? && e.kindId.value in kinds
    case _ => false
  }

  lemma OneAccepted(id: Id, shape: Shape, db: Tables, p: CardPatch)
    requires Patchable(db, id, shape)
    ensures PatchOne(id, shape, db, p).Ok? <==> Acceptable(shape, db.kinds, p)
  {
  }

  lemma AtSame<V>(m: map<Id, V>, id: Id, f: V -> V)
    requires id in m ==> f(m[id]) == m[id]
    ensures At(m, id, f) == m
  {
  }

  lemma TextSteps(id: Id, shape: Shape, db: Tables, p: CardPatch)
    requires PatchOne(id, shape, db, p).Ok? && p.movie.None? && p.edition.None?
    ensures Stepped(db, PatchOne(id, shape, db, p).value, id, p)
  {
    AtSame(db.movies, id, m => StepMovie(m, p));
    AtSame(db.editions, id, e => StepEdition(e, p));
  }

  lemma MovieSteps(id: Id, shape: Shape, db: Tables, p: CardPatch)
    requires PatchOne(id, shape, db, p).Ok? && p.name.None? && p.note.None? && p.edition.None?
    ensures Stepped(db, PatchOne(id, shape, db, p).value, id, p)
  {
    AtSame(db.cards, id, c => StepCard(c, p));
    AtSame(db.editions, id, e => StepEdition(e, p));
  }

  lemma EditionSteps(id: Id, shape: Shape, db: Tables, p: CardPatch)
    requires PatchOne(id, shape, db, p).Ok? && p.name.None? && p.note.None? && p.movie.None?
    ensures Stepped(db, PatchOne(id, shape, db, p).value, id, p)
  {
    AtSame(db.cards, id, c => StepCard(c, p));
    AtSame(db.movies, id, m => StepMovie(m, p));
  }

  lemma OneSteps(id: Id, shape: Shape, db: Tables, p: CardPatch)
    requires PatchOne(id, shape, db, p).Ok?
    ensures Stepped(db, PatchOne(id, shape, db, p).value, id, p)
  {
    if p.movie.Some? {
      MovieSteps(id, shape, db, p);
    } else if p.edition.Some? {
      EditionSteps(id, shape, db, p);
    } else {
      TextSteps(id, shape, db, p);
    }
  }

  // ------------------------------------------------------------------- whole lists

  lemma {:induction false} FoldIsNet(db: Tables, id: Id, shape: Shape, ps: seq<CardPatch>)
    requires Fold((s, p) => PatchOne(id, shape, s, p), db, ps).Ok?
    ensures Fold((s, p) => PatchOne(id, shape, s, p), db, ps).value == Net(db, id, ps)
    decreases |ps|
  {
    var f := (s, p) => PatchOne(id, shape, s, p);
    if ps == [] {
      NetOfNothing(db, id);
    } else {
      var n := |ps| - 1;
      FoldSnoc(f, db, ps, n);
      assert ps[..n + 1] == ps && ps == ps[..n] + [ps[n]];
      FoldIsNet(db, id, shape, ps[..n]);
      OneSteps(id, shape, Net(db, id, ps[..n]), ps[n]);
      NetSnoc(db, Fold(f, db, ps).value, id, ps[..n], ps[n]);
    }
  }

  lemma NetOfNothing(db: Tables, id: Id)
    ensures Net(db, id, []) == db
  {
    assert id in db.cards ==> db.cards[id := db.cards[id]] == db.cards;
    assert id in db.movies ==> db.movies[id := db.movies[id]] == db.movies;
    assert id in db.editions ==> db.editions[id := db.editions[id]] == db.editions;
  }

  lemma {:induction false} FoldAccepted(db: Tables, id: Id, shape: Shape, ps: seq<CardPatch>)
    requires Patchable(db, id, shape)
    ensures Fold((s, p) => PatchOne(id, shape, s, p), db, ps).Ok? <==>
      forall i :: 0 <= i < |ps| ==> Acceptable(shape, db.kinds, ps[i])
    decreases |ps|
  {
    if ps != [] {
      OneAccepted(id, shape, db, ps[0]);
      if PatchOne(id, shape, db, ps[0]).Ok? {
        PatchOneTame(id, shape, db, ps[0]);
        FoldAccepted(PatchOne(id, shape, db, ps[0]).value, id, shape, ps[1..]);
        assert forall i :: 1 <= i < |ps| ==> ps[i] == ps[1..][i - 1];
      }
    }
  }

  /** Exactly which patch lists succeed, judged before any of them is applied, and exactly what they leave behind. */
  lemma PatchCardExact(db: Tables, id: Id, ps: seq<CardPatch>)
    ensures PatchCard(db, id, ps).Ok? <==>
      id != 0 && id in db.cards && forall i :: 0 <= i < |ps| ==> Acceptable(ShapeOf(db, id), db.kinds, ps[i])
    ensures PatchCard(db, id, ps).Ok? ==> PatchCard(db, id, ps).value == Net(db, id, ps)
  {
    if id != 0 && id in db.cards {
      FoldAccepted(db, id, ShapeOf(db, id), ps);
      if PatchCard(db, id, ps).Ok? {
        FoldIsNet(db, id, ShapeOf(db, id), ps);
      }
    }
  }

  /** A patch that an existing card refuses is always a bad request. */
  lemma OneError(id: Id, shape: Shape, db: Tables, p: CardPatch)
    requires Patchable(db, id, shape) && PatchOne(id, shape, db, p).Err?
    ensures PatchOne(id, shape, db, p) == Err(BadRequest)
  {
  }

  lemma {:induction false} FoldError(db: Tables, id: Id, shape: Shape, ps: seq<CardPatch>)
    requires Patchable(db, id, shape) && Fold((s, p) => PatchOne(id, shape, s, p), db, ps).Err?
    ensures Fold((s, p) => PatchOne(id, shape, s, p), db, ps) == Err(BadRequest)
    decreases |ps|
  {
    if PatchOne(id, shape, db, ps[0]).Err? {
      OneError(id, shape, db, ps[0]);
    } else {
      PatchOneTame(id, shape, db, ps[0]);
      FoldError(PatchOne(id, shape, db, ps[0]).value, id, shape, ps[1..]);
    }
  }

  /** Which error a patch list gets: not found exactly for an unknown id, a bad request for anything else that fails. */
  lemma PatchCardErrors(db: Tables, id: Id, ps: seq<CardPatch>)
    requires PatchCard(db, id, ps).Err?
    ensures PatchCard(db, id, ps) == Err(if id != 0 && id !in db.cards then NotFound else BadRequest)
  {
    if id != 0 && id in db.cards {
      FoldError(db, id, ShapeOf(db, id), ps);
    }
  }
}
