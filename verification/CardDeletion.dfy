/**
 Deleting a card: foreign-key cascades and delete triggers set each other off until nothing is left to delete.  The order in which the
 database fires them is left open.
 */
module CardDeletion {
  import opened Basics
  import opened Catalog

  /** One pending DELETE. */
  datatype Req =
    | DelCard(id: Id)             // from the caller, or from a trigger
    | DelMovie(id: Id)            // cascade from the card
    | DelEdition(id: Id)          // cascade from the card
    | DelEditionsOf(movie: Id)    // cascade from the movie
    | DelLinks(card: Id)          // cascades into both link tables

  function Unlinked(links: set<(Id, Id)>, gone: set<Id>): set<(Id, Id)> {
    set p | p in links && p.1 !in gone
  }

  function EditionsOf(db: Tables, movie: Id): set<Id> {
    set e | e in db.editions && db.editions[e].movieId == movie
  }

  /** One DELETE, and the ones it sets off. */
  function Fire(db: Tables, r: Req): (Tables, set<Req>) {
    match r
    case DelCard(c) =>
      if c !in db.cards then (db, {}) else
        (db.(cards := Without(db.cards, {c})), {DelMovie(c), DelEdition(c), DelLinks(c)})
    case DelMovie(c) =>
      if c !in db.movies then (db, {}) else
        (db.(movies := Without(db.movies, {c})), {DelEditionsOf(c), DelCard(c)})
    case DelEdition(c) =>
      if c !in db.editions then (db, {}) else
        (db.(editions := Without(db.editions, {c})), {DelCard(c)})
    case DelEditionsOf(m) =>
      (db.(editions := Without(db.editions, EditionsOf(db, m))), set e | e in EditionsOf(db, m) :: DelCard(e))
    case DelLinks(c) =>
      (db.(mediaCards := Unlinked(db.mediaCards, {c}), setCards := Unlinked(db.setCards, {c})), {})
  }

  /** The cards that go: the card itself and the editions of the movie it is. */
  function Closure(db: Tables, x: Id): set<Id> {
    if x in db.cards then {x} + EditionsOf(db, x) else {}
  }

  /** The tables without a set of cards and everything that hangs on them. */
  function DropCards(db: Tables, gone: set<Id>): Tables {
    db.(cards := Without(db.cards, gone),
        movies := Without(db.movies, gone),
        editions := Without(db.editions, gone),
        mediaCards := Unlinked(db.mediaCards, gone),
        setCards := Unlinked(db.setCards, gone))
  }

  // ------------------------------------------------------------------- soundness

  /** `a` lost only rows of `gone`. */
  ghost predicate Lost<V>(before: map<Id, V>, a: map<Id, V>, gone: set<Id>) {
    && (forall k :: k in a ==> k in before && a[k] == before[k])
    && (forall k :: k in before && k !in gone ==> k in a)
  }

  ghost predicate LostLinks(before: set<(Id, Id)>, a: set<(Id, Id)>, gone: set<Id>) {
    a <= before && forall p :: p in before && p.1 !in gone ==> p in a
  }

  /** Only rows of the closure have been deleted so far. */
  ghost predicate Sound(before: Tables, db: Tables, gone: set<Id>) {
    && Lost(before.cards, db.cards, gone)
    && Lost(before.movies, db.movies, gone)
    && Lost(before.editions, db.editions, gone)
    && LostLinks(before.mediaCards, db.mediaCards, gone)
    && LostLinks(before.setCards, db.setCards, gone)
    && db == before.(cards := db.cards, movies := db.movies, editions := db.editions,
                     mediaCards := db.mediaCards, setCards := db.setCards)
  }

  /** A request that can only delete rows of the closure. */
  predicate InScope(before: Tables, gone: set<Id>, r: Req) {
    match r
    case DelEditionsOf(m) => EditionsOf(before, m) <= gone
    case DelLinks(c) => c in gone
    case _ => r.id in gone
  }

  // -------------------------------------------------------------------- progress

  /** Whatever of the closure is still there, some pending request leads to it. */
  ghost predicate Progress(before: Tables, db: Tables, x: Id, todo: set<Req>) {
    var gone := Closure(before, x);
    && (x in db.cards ==> DelCard(x) in todo)
    && (forall c :: c in gone && c in db.movies ==> c in db.cards || DelMovie(c) in todo)
    && (forall c :: c in gone && c in db.editions ==>
          || DelEdition(c) in todo
          || (c in db.cards && (c == x || x in db.movies || DelEditionsOf(x) in todo)))
    && (forall c :: c in gone && c != x && c in db.cards ==> c in db.editions || DelCard(c) in todo)
    && (forall p :: p in db.mediaCards && p.1 in gone ==> p.1 in db.cards || DelLinks(p.1) in todo)
    && (forall p :: p in db.setCards && p.1 in gone ==> p.1 in db.cards || DelLinks(p.1) in todo)
  }

  ghost predicate Invariant(before: Tables, db: Tables, x: Id, todo: set<Req>) {
    && Sound(before, db, Closure(before, x))
    && (forall r :: r in todo ==> InScope(before, Closure(before, x), r))
    && Progress(before, db, x, todo)
  }

  /** Editions of a member of the closure are in the closure, because an edition is never a movie. */
  lemma ClosureIsClosed(db: Tables, x: Id, c: Id)
    requires CardsOk(db) && c in Closure(db, x) && c in db.movies
    ensures c == x && EditionsOf(db, c) <= Closure(db, x)
  {
  }

  lemma FireIsSound(before: Tables, db: Tables, x: Id, r: Req)
    requires CardsOk(before) && Sound(before, db, Closure(before, x)) && InScope(before, Closure(before, x), r)
    ensures Sound(before, Fire(db, r).0, Closure(before, x))
    ensures forall q :: q in Fire(db, r).1 ==> InScope(before, Closure(before, x), q)
  {
    if r.DelMovie? && r.id in db.movies {
      ClosureIsClosed(before, x, r.id);
    }
    if r.DelEditionsOf? {
      assert EditionsOf(db, r.movie) <= EditionsOf(before, r.movie);
    }
  }

  lemma FireCardProgresses(before: Tables, db: Tables, x: Id, todo: set<Req>, c: Id)
    requires Invariant(before, db, x, todo) && DelCard(c) in todo
    ensures var (after, more) := Fire(db, DelCard(c)); Progress(before, after, x, todo - {DelCard(c)} + more)
  {
  }

  lemma FireMovieProgresses(before: Tables, db: Tables, x: Id, todo: set<Req>, c: Id)
    requires CardsOk(before) && Invariant(before, db, x, todo) && DelMovie(c) in todo
    ensures var (after, more) := Fire(db, DelMovie(c)); Progress(before, after, x, todo - {DelMovie(c)} + more)
  {
    if c in db.movies {
      ClosureIsClosed(before, x, c);
    }
  }

  lemma FireEditionProgresses(before: Tables, db: Tables, x: Id, todo: set<Req>, c: Id)
    requires Invariant(before, db, x, todo) && DelEdition(c) in todo
    ensures var (after, more) := Fire(db, DelEdition(c)); Progress(before, after, x, todo - {DelEdition(c)} + more)
  {
  }

  lemma FireEditionsOfProgresses(before: Tables, db: Tables, x: Id, todo: set<Req>, m: Id)
    requires Invariant(before, db, x, todo) && DelEditionsOf(m) in todo
    ensures var (after, more) := Fire(db, DelEditionsOf(m)); Progress(before, after, x, todo - {DelEditionsOf(m)} + more)
  {
    var (after, more) := Fire(db, DelEditionsOf(m));
    forall e | e in EditionsOf(db, m) ensures DelCard(e) in more {
    }
    if m == x {
      forall c | c in Closure(before, x) && c != x && c in db.editions ensures c !in after.editions {
        assert c in EditionsOf(db, m);
      }
    }
  }

  lemma FireLinksProgresses(before: Tables, db: Tables, x: Id, todo: set<Req>, c: Id)
    requires Invariant(before, db, x, todo) && DelLinks(c) in todo
    ensures var (after, more) := Fire(db, DelLinks(c)); Progress(before, after, x, todo - {DelLinks(c)} + more)
  {
  }

  lemma FireKeepsInvariant(before: Tables, db: Tables, x: Id, todo: set<Req>, r: Req)
    requires CardsOk(before) && Invariant(before, db, x, todo) && r in todo
    ensures var (after, more) := Fire(db, r); Invariant(before, after, x, todo - {r} + more)
  {
    FireIsSound(before, db, x, r);
    match r
    case DelCard(c) => FireCardProgresses(before, db, x, todo, c);
    case DelMovie(c) => FireMovieProgresses(before, db, x, todo, c);
    case DelEdition(c) => FireEditionProgresses(before, db, x, todo, c);
    case DelEditionsOf(m) => FireEditionsOfProgresses(before, db, x, todo, m);
    case DelLinks(c) => FireLinksProgresses(before, db, x, todo, c);
  }

  /** When nothing is pending, exactly the closure is gone. */
  lemma DoneIsExact(before: Tables, db: Tables, x: Id)
    requires CardsOk(before) && x in before.cards && Invariant(before, db, x, {})
    ensures db == DropCards(before, Closure(before, x))
  {
    var gone := Closure(before, x);
    assert x !in db.cards && x !in db.movies;
    forall c | c in gone ensures c !in db.editions && c !in db.cards && c !in db.movies {
    }
    assert db.cards == Without(before.cards, gone);
    assert db.movies == Without(before.movies, gone);
    assert db.editions == Without(before.editions, gone);
    assert db.mediaCards == Unlinked(before.mediaCards, gone);
    assert db.setCards == Unlinked(before.setCards, gone);
  }
}
