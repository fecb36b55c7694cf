/** Applying a list of patches in order, stopping at the first one that fails. */
module Folds {
  import opened Results

  function Fold<S, P, E>(apply: (S, P) -> Result<S, E>, s: S, ps: seq<P>): Result<S, E>
    decreases |ps|
  {
    if ps == [] then Ok(s) else
      match apply(s, ps[0])
      case Err(e) => Err(e)
      case Ok(next) => Fold(apply, next, ps[1..])
  }

  /** A concatenated list is the first list and then, if that succeeded, the second. */
  lemma {:induction false} FoldAppend<S, P, E>(apply: (S, P) -> Result<S, E>, s: S, ps: seq<P>, qs: seq<P>)
    ensures Fold(apply, s, ps + qs) ==
      match Fold(apply, s, ps) case Err(e) => Err(e) case Ok(mid) => Fold(apply, mid, qs)
    decreases |ps|
  {
    if ps == [] {
      assert ps + qs == qs;
    } else {
      assert (ps + qs)[1..] == ps[1..] + qs;
      if apply(s, ps[0]).Ok? {
        FoldAppend(apply, apply(s, ps[0]).value, ps[1..], qs);
      }
    }
  }

  /** One more patch at the end, as a loop takes them. */
  lemma FoldSnoc<S, P, E>(apply: (S, P) -> Result<S, E>, s: S, ps: seq<P>, i: nat)
    requires i < |ps|
    ensures Fold(apply, s, ps[..i + 1]) ==
      match Fold(apply, s, ps[..i]) case Err(e) => Err(e) case Ok(mid) => apply(mid, ps[i])
  {
    assert ps[..i + 1] == ps[..i] + [ps[i]];
    FoldAppend(apply, s, ps[..i], [ps[i]]);
    assert [ps[i]][1..] == [];
  }

  /** A failure inside the list is the failure of the list. */
  lemma FoldFails<S, P, E>(apply: (S, P) -> Result<S, E>, s: S, ps: seq<P>, i: nat)
    requires i <= |ps| && Fold(apply, s, ps[..i]).Err?
    ensures Fold(apply, s, ps) == Fold(apply, s, ps[..i])
  {
    assert ps == ps[..i] + ps[i..];
    FoldAppend(apply, s, ps[..i], ps[i..]);
  }

  /** An invariant that every successful patch keeps, and under which two ways of applying a patch agree, makes the folds agree. */
  lemma {:induction false} FoldAgree<S(!new), P(!new), E>(f: (S, P) -> Result<S, E>, g: (S, P) -> Result<S, E>, inv: S -> bool, s: S, ps: seq<P>)
    requires inv(s)
    requires forall x, p :: inv(x) ==> f(x, p) == g(x, p)
    requires forall x, p :: inv(x) && f(x, p).Ok? ==> inv(f(x, p).value)
    ensures Fold(f, s, ps) == Fold(g, s, ps)
    ensures Fold(f, s, ps).Ok? ==> inv(Fold(f, s, ps).value)
    decreases |ps|
  {
    if ps != [] && f(s, ps[0]).Ok? {
      FoldAgree(f, g, inv, f(s, ps[0]).value, ps[1..]);
    }
  }

  /** The last word of a list of patches on one field, or its old value. */
  function LastSet<P, T>(field: P -> Option<T>, ps: seq<P>, before: T): T
    decreases |ps|
  {
    if ps == [] then before
    else if field(ps[|ps| - 1]).Some? then field(ps[|ps| - 1]).value
    else LastSet(field, ps[..|ps| - 1], before)
  }

  lemma LastSetSnoc<P, T>(field: P -> Option<T>, ps: seq<P>, p: P, before: T)
    ensures LastSet(field, ps + [p], before) == if field(p).Some? then field(p).value else LastSet(field, ps, before)
  {
    var qs := ps + [p];
    assert qs[..|qs| - 1] == ps && qs[|qs| - 1] == p;
  }
}
