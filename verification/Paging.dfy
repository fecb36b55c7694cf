/**
 Cursor pagination over the ids of a table.  A table is the ascending list of its ids; every page request sees the
 table as it is at that moment.
 */
module Paging {
  import opened Results
  import opened Basics

  predicate Ascending(t: seq<nat>) {
    forall i, j :: 0 <= i < j < |t| ==> t[i] < t[j]
  }

  /** WHERE id > k ORDER BY id ASC. */
  function After(t: seq<nat>, k: nat): (r: seq<nat>)
    requires Ascending(t)
    ensures Ascending(r) && |r| <= |t|
    ensures forall x :: x in r <==> x in t && x > k
    decreases |t|
  {
    if t == [] || t[0] > k then t else After(t[1..], k)
  }

  function Min(a: nat, b: nat): nat {
    if a < b then a else b
  }

  function Take(t: seq<nat>, n: nat): seq<nat> {
    t[..Min(n, |t|)]
  }

  /** `limit()`: the page size asked for, capped; the default is not capped. */
  function PageLimit(want: Option<nat>, default: nat, max: nat): (n: nat)
    requires 0 < default < U32 && 0 < max < U32 && (want.Some? ==> want.value < U32)
    ensures n < U32 && (want != Some(0) ==> n >= 1)
    ensures want.Some? ==> n <= max && n <= want.value && (n == max || n == want.value)
    ensures want.None? ==> n == default
  {
    if want.Some? then Min(want.value, max) else default
  }

  /** A page and the id its token carries, if there is a next page. */
  datatype Page = Page(ids: seq<nat>, next: Option<nat>)

  /** What a page should be: the first `limit` ids after `k`, and a token iff more follow. */
  function PageOf(t: seq<nat>, k: nat, limit: nat): Page
    requires Ascending(t) && 1 <= limit
  {
    var rest := After(t, k);
    var ids := Take(rest, limit);
    Page(ids, if |rest| > limit then Some(ids[|ids| - 1]) else None)
  }

  /**
   What `ListPtr` returns for any page size.  Size 0 makes no progress, because the token points at the start again; the largest
   size wraps round when the look-ahead row is added and finds nothing.
   */
  function AnyPage(t: seq<nat>, k: nat, limit: nat): Page
    requires Ascending(t) && limit < U32
  {
    if limit == 0 then Page([], if After(t, k) == [] then None else Some(0))
    else if limit == U32 - 1 then Page([], None)
    else PageOf(t, k, limit)
  }

  /** `ListPtr`: asks for one row more than the limit, in 32-bit arithmetic, and streams the rows through a callback. */
  method ListPage(t: seq<nat>, lastSeen: nat, limit: nat) returns (page: Page)
    requires Ascending(t) && limit < U32
    ensures page == AnyPage(t, lastSeen, limit)
  {
    var rows := Take(After(t, lastSeen), (limit + 1) % U32);
    var count, last, out := 0, 0, [];
    var more := true;
    var i := 0;
    while i < |rows| && more
      invariant 0 <= i <= |rows| && |rows| <= limit + 1
      invariant count == i && (more <==> count <= limit)
      invariant out == rows[..Min(i, limit)]
      invariant last == if out == [] then 0 else out[|out| - 1]
    {
      assert limit + 1 < U32;
      count := (count + 1) % U32;
      if count <= limit {
        out := out + [rows[i]];
        last := rows[i];
      } else {
        more := false;
      }
      i := i + 1;
    }
    page := Page(out, if count > limit then Some(last) else None);
  }

  // ---------------------------------------------------------------------- a walk

  ghost predicate AllAscending(ts: seq<seq<nat>>) {
    forall i :: 0 <= i < |ts| ==> Ascending(ts[i])
  }

  /** `x` is in every one of the tables. */
  ghost predicate InAll(ts: seq<seq<nat>>, x: nat) {
    forall i :: 0 <= i < |ts| ==> x in ts[i]
  }

  /** The pages returned when the i-th request finds table `ts[i]` and carries the token of the request before it, for any page size. */
  ghost function Walk(ts: seq<seq<nat>>, k: nat, limit: nat): seq<seq<nat>>
    requires AllAscending(ts) && limit < U32
    decreases |ts|
  {
    if ts == [] then [] else
      var p := AnyPage(ts[0], k, limit);
      [p.ids] + if p.next.None? then [] else Walk(ts[1..], p.next.value, limit)
  }

  /** The walk reached a page without token. */
  ghost predicate Ends(ts: seq<seq<nat>>, k: nat, limit: nat)
    requires AllAscending(ts) && limit < U32
    decreases |ts|
  {
    ts != [] &&
    var p := AnyPage(ts[0], k, limit);
    p.next.None? || Ends(ts[1..], p.next.value, limit)
  }

  /** The first ids of an ascending list, and the rest. */
  lemma TakeFacts(rest: seq<nat>, n: nat, x: nat)
    requires Ascending(rest) && 1 <= n
    ensures x in Take(rest, n) ==> x in rest && (|rest| > n ==> x <= rest[n - 1])
    ensures x in rest && x !in Take(rest, n) ==> |rest| > n && rest[n - 1] < x
  {
    if x in Take(rest, n) {
      var i :| 0 <= i < |Take(rest, n)| && Take(rest, n)[i] == x;
      assert rest[i] == x;
    }
    assert forall i :: 0 <= i < |Take(rest, n)| ==> rest[i] in Take(rest, n);
  }

  lemma PageFacts(t: seq<nat>, k: nat, limit: nat)
    requires Ascending(t) && 1 <= limit
    ensures var p := PageOf(t, k, limit);
      && Ascending(p.ids)
      && (forall x :: x in p.ids ==> x in t && k < x)
      && (p.next.Some? ==> |p.ids| == limit && k < p.next.value && p.next.value in p.ids
                           && (forall x :: x in p.ids ==> x <= p.next.value))
      && (forall x :: x in t && k < x && x !in p.ids ==> p.next.Some? && p.next.value < x)
  {
    var rest := After(t, k);
    var p := PageOf(t, k, limit);
    forall x ensures
      && (x in p.ids ==> x in rest && (|rest| > limit ==> x <= rest[limit - 1]))
      && (x in rest && x !in p.ids ==> |rest| > limit && rest[limit - 1] < x)
    {
      TakeFacts(rest, limit, x);
    }
    if p.next.Some? {
      assert p.ids[|p.ids| - 1] in p.ids;
    }
  }

  /** Two ascending runs, the second above the first, make one ascending run. */
  lemma AscendingJoin(a: seq<nat>, b: seq<nat>, m: nat)
    requires Ascending(a) && Ascending(b) && (forall x :: x in a ==> x <= m) && (forall x :: x in b ==> m < x)
    ensures Ascending(a + b)
  {
    forall i, j | 0 <= i < j < |a + b| ensures (a + b)[i] < (a + b)[j] {
      if i < |a| { assert a[i] in a; }
      if j >= |a| { assert b[j - |a|] in b; }
    }
  }

  /** Page size 0: nothing is listed, and the walk does not end while anything is there to list. */
  lemma {:induction false} WalkOfSizeZero(ts: seq<seq<nat>>, k: nat)
    requires AllAscending(ts)
    ensures Flatten(Walk(ts, k, 0)) == []
    ensures forall x :: k < x && InAll(ts, x) ==> !Ends(ts, k, 0)
    decreases |ts|
  {
    if ts != [] {
      var p := AnyPage(ts[0], k, 0);
      if p.next.None? {
        FlattenCons<nat>([], []);
        assert forall x :: x in ts[0] && k < x ==> x in After(ts[0], k);
      } else {
        WalkOfSizeZero(ts[1..], 0);
        FlattenCons([], Walk(ts[1..], 0, 0));
        forall x | k < x && InAll(ts, x) ensures !Ends(ts, k, 0) {
          assert InAll(ts[1..], x);
        }
      }
    }
  }

  /** The largest page size: one empty page and the end, whatever there is to list. */
  lemma WalkOfLargestSize(ts: seq<seq<nat>>, k: nat)
    requires AllAscending(ts)
    ensures Flatten(Walk(ts, k, U32 - 1)) == [] && (Ends(ts, k, U32 - 1) <==> ts != [])
  {
    if ts != [] {
      assert Walk(ts, k, U32 - 1) == [[]] + [];
      FlattenCons<nat>([], []);
    }
  }

  /** Everything listed was there, nothing twice; and once the walk ends, whatever was there for all of it is listed. */
  ghost predicate ListsAll(ts: seq<seq<nat>>, k: nat, limit: nat, all: seq<nat>)
    requires AllAscending(ts) && limit < U32
  {
    && Ascending(all)
    && (forall x :: x in all ==> k < x && exists i :: 0 <= i < |ts| && x in ts[i])
    && (Ends(ts, k, limit) && limit != U32 - 1 ==>
          forall x :: k < x && InAll(ts, x) ==> x in all)
  }

  lemma NextPageListsAll(ts: seq<seq<nat>>, k: nat, limit: nat, rest: seq<nat>)
    requires AllAscending(ts) && 1 <= limit < U32 - 1 && ts != [] && PageOf(ts[0], k, limit).next.Some?
    requires ListsAll(ts[1..], PageOf(ts[0], k, limit).next.value, limit, rest)
    ensures ListsAll(ts, k, limit, PageOf(ts[0], k, limit).ids + rest)
  {
    var p := PageOf(ts[0], k, limit);
    PageFacts(ts[0], k, limit);
    AscendingJoin(p.ids, rest, p.next.value);
    forall x | x in p.ids + rest ensures k < x && exists i :: 0 <= i < |ts| && x in ts[i] {
      if x in rest {
        var i :| 0 <= i < |ts[1..]| && x in ts[1..][i];
        assert x in ts[i + 1];
      } else {
        assert x in ts[0];
      }
    }
    if Ends(ts, k, limit) {
      forall x | k < x && InAll(ts, x) ensures x in p.ids + rest {
        assert x in ts[0];
        assert InAll(ts[1..], x);
      }
    }
  }

  /**
   Paging under concurrent change, for every page size but the largest: whatever is inserted or deleted between requests, the ids returned
   are strictly ascending, hence without repetition, and when the walk ends they include every id that was there for all of it.
   */
  lemma {:induction false} WalkUnderChange(ts: seq<seq<nat>>, k: nat, limit: nat)
    requires AllAscending(ts) && limit < U32
    ensures ListsAll(ts, k, limit, Flatten(Walk(ts, k, limit)))
    decreases |ts|
  {
    if limit == 0 {
      WalkOfSizeZero(ts, k);
    } else if limit == U32 - 1 {
      WalkOfLargestSize(ts, k);
    } else if ts != [] {
      var p := PageOf(ts[0], k, limit);
      if p.next.None? {
        PageFacts(ts[0], k, limit);
        FlattenCons(p.ids, []);
        assert p.ids + [] == p.ids;
      } else {
        WalkUnderChange(ts[1..], p.next.value, limit);
        FlattenCons(p.ids, Walk(ts[1..], p.next.value, limit));
        NextPageListsAll(ts, k, limit, Flatten(Walk(ts[1..], p.next.value, limit)));
      }
    }
  }

  /** No walk with a positive page size goes on for ever: with 32-bit ids, requests that all got a token are bounded in number. */
  lemma {:induction false} WalkIsBounded(ts: seq<seq<nat>>, k: nat, limit: nat)
    requires AllAscending(ts) && 1 <= limit < U32 && k < U32
    requires forall i :: 0 <= i < |ts| ==> forall x :: x in ts[i] ==> x < U32
    requires !Ends(ts, k, limit)
    ensures |ts| * limit < U32 - k
    decreases |ts|
  {
    if ts == [] {
      assert |ts| * limit == 0;
    } else {
      assert limit != U32 - 1;
      var p := PageOf(ts[0], k, limit);
      PageFacts(ts[0], k, limit);
      AscendingSpread(p.ids, k);
      assert k + limit <= p.next.value < U32;
      WalkIsBounded(ts[1..], p.next.value, limit);
      MulStep(|ts[1..]|, limit);
    }
  }

  lemma MulStep(n: nat, d: nat)
    ensures (n + 1) * d == n * d + d
  {
  }

  /** n distinct ids above k reach at least k + n. */
  lemma {:induction false} AscendingSpread(ids: seq<nat>, k: nat)
    requires Ascending(ids) && forall x :: x in ids ==> k < x
    ensures ids != [] ==> k + |ids| <= ids[|ids| - 1]
    decreases |ids|
  {
    if |ids| > 1 {
      var init := ids[..|ids| - 1];
      assert forall x :: x in init ==> x in ids;
      AscendingSpread(init, k);
    } else if |ids| == 1 {
      assert ids[0] in ids;
    }
  }

  /** The number of pages for n ids. */
  function PageCount(n: nat, limit: nat): (c: nat)
    requires 1 <= limit
    ensures 1 <= c
    decreases n
  {
    if n <= limit then 1 else 1 + PageCount(n - limit, limit)
  }

  /** It is max(1, ceil(n / limit)): the least c >= 1 with n <= c * limit. */
  lemma {:induction false} PageCountIsCeiling(n: nat, limit: nat)
    requires 1 <= limit
    ensures var c := PageCount(n, limit); (c - 1) * limit < Max(n, 1) && n <= c * limit
    decreases n
  {
    if n > limit {
      PageCountIsCeiling(n - limit, limit);
      MulStep(PageCount(n - limit, limit), limit);
      MulStep(PageCount(n - limit, limit) - 1, limit);
    }
  }

  function Max(a: nat, b: nat): nat {
    if a < b then b else a
  }

  /** Continuing after the last id of a page drops exactly that page. */
  lemma AfterPage(t: seq<nat>, k: nat, limit: nat)
    requires Ascending(t) && 1 <= limit < |After(t, k)|
    ensures After(t, After(t, k)[limit - 1]) == After(t, k)[limit..]
  {
    var rest := After(t, k);
    var m := rest[limit - 1];
    assert m in rest;
    SameMembers(After(t, m), rest[limit..], t, k, m, limit);
  }

  lemma SameMembers(a: seq<nat>, b: seq<nat>, t: seq<nat>, k: nat, m: nat, limit: nat)
    requires Ascending(t) && 1 <= limit < |After(t, k)| && m == After(t, k)[limit - 1] && k < m
    requires a == After(t, m) && b == After(t, k)[limit..]
    ensures a == b
  {
    var rest := After(t, k);
    forall x ensures x in a <==> x in b {
      assert x in a <==> x in rest && m < x;
      SuffixMembers(rest, limit, x);
    }
    AscendingUnique(a, b);
  }

  /** What lies behind position `n - 1` of an ascending list is what exceeds the id there. */
  lemma SuffixMembers(t: seq<nat>, n: nat, x: nat)
    requires Ascending(t) && 1 <= n < |t|
    ensures x in t[n..] <==> x in t && t[n - 1] < x
  {
    if x in t[n..] {
      var i :| 0 <= i < |t[n..]| && t[n..][i] == x;
      assert t[i + n] == x;
    }
    if x in t && t[n - 1] < x {
      var i :| 0 <= i < |t| && t[i] == x;
      assert t[n..][i - n] == x;
    }
  }

  /** An ascending list is determined by its members. */
  lemma {:induction false} AscendingUnique(a: seq<nat>, b: seq<nat>)
    requires Ascending(a) && Ascending(b) && forall x :: x in a <==> x in b
    ensures a == b
    decreases |a|
  {
    if a == [] {
      assert forall i :: 0 <= i < |b| ==> b[i] in a;
    } else {
      assert a[0] in a;
      assert b != [];
      assert b[0] in b;
      assert a[0] == b[0];
      forall x ensures x in a[1..] <==> x in b[1..] {
        if x in a[1..] { assert x in a && x != a[0]; assert x in b; }
        if x in b[1..] { assert x in b && x != b[0]; assert x in a; }
      }
      AscendingUnique(a[1..], b[1..]);
    }
  }

  ghost predicate Unchanged(ts: seq<seq<nat>>, t: seq<nat>) {
    forall i :: 0 <= i < |ts| ==> ts[i] == t
  }

  /** A walk of `calls` requests has ended exactly if that was enough, and then it has listed `rest` in that many pages. */
  predicate ListedIn(ended: bool, all: seq<nat>, pages: nat, calls: nat, rest: seq<nat>, limit: nat)
    requires 1 <= limit
  {
    && (ended <==> PageCount(|rest|, limit) <= calls)
    && (ended ==> all == rest && pages == PageCount(|rest|, limit))
  }

  ghost predicate Lists(ts: seq<seq<nat>>, k: nat, limit: nat, rest: seq<nat>)
    requires AllAscending(ts) && 1 <= limit < U32 - 1
  {
    ListedIn(Ends(ts, k, limit), Flatten(Walk(ts, k, limit)), |Walk(ts, k, limit)|, |ts|, rest, limit)
  }

  /**
   On an unchanged table the walk lists everything after `k` in order, in exactly max(1, ceil(n / limit)) requests, where n is the number
   of ids after `k`: it has ended by then, and not earlier.
   */
  lemma {:induction false} WalkUnchanged(ts: seq<seq<nat>>, t: seq<nat>, k: nat, limit: nat)
    requires Ascending(t) && Unchanged(ts, t) && AllAscending(ts) && 1 <= limit < U32 - 1
    ensures Lists(ts, k, limit, After(t, k))
    decreases |ts|
  {
    var rest := After(t, k);
    if ts == [] {
    } else if |rest| <= limit {
      WalkLastPage(ts, t, k, limit);
    } else {
      var next := rest[limit - 1];
      AfterPage(t, k, limit);
      WalkUnchanged(ts[1..], t, next, limit);
      WalkNextPage(ts, t, k, next, limit);
      OnePageMore(Ends(ts, k, limit), Flatten(Walk(ts[1..], next, limit)), Flatten(Walk(ts, k, limit)),
                  |Walk(ts[1..], next, limit)|, |ts[1..]|, rest[limit..], rest, limit);
    }
  }

  lemma PageCountStep(n: nat, limit: nat)
    requires 1 <= limit < n
    ensures PageCount(n, limit) == 1 + PageCount(n - limit, limit)
  {
  }

  lemma OnePageMore(ended: bool, later: seq<nat>, all: seq<nat>, pages: nat, calls: nat, tail: seq<nat>, rest: seq<nat>, limit: nat)
    requires 1 <= limit < |rest| && |tail| == |rest| - limit && ListedIn(ended, later, pages, calls, tail, limit)
    requires later == tail ==> all == rest
    ensures ListedIn(ended, all, 1 + pages, 1 + calls, rest, limit)
  {
    PageCountStep(|rest|, limit);
  }

  lemma WalkLastPage(ts: seq<seq<nat>>, t: seq<nat>, k: nat, limit: nat)
    requires ts != [] && ts[0] == t && AllAscending(ts) && Ascending(t) && 1 <= limit < U32 - 1 && |After(t, k)| <= limit
    ensures Ends(ts, k, limit) && Walk(ts, k, limit) == [After(t, k)] && Flatten(Walk(ts, k, limit)) == After(t, k)
  {
    var rest := After(t, k);
    assert PageOf(t, k, limit) == Page(rest, None);
    FlattenCons(rest, []);
    assert [rest] + [] == [rest] && rest + [] == rest;
  }

  lemma WalkNextPage(ts: seq<seq<nat>>, t: seq<nat>, k: nat, next: nat, limit: nat)
    requires ts != [] && ts[0] == t && AllAscending(ts) && Ascending(t) && 1 <= limit < |After(t, k)| && limit < U32 - 1
    requires next == After(t, k)[limit - 1] && After(t, next) == After(t, k)[limit..]
    ensures Ends(ts, k, limit) == Ends(ts[1..], next, limit)
    ensures |Walk(ts, k, limit)| == 1 + |Walk(ts[1..], next, limit)|
    ensures Flatten(Walk(ts[1..], next, limit)) == After(t, next) ==> Flatten(Walk(ts, k, limit)) == After(t, k)
  {
    var rest := After(t, k);
    assert PageOf(t, k, limit) == Page(rest[..limit], Some(next));
    FlattenCons(rest[..limit], Walk(ts[1..], next, limit));
    assert rest == rest[..limit] + rest[limit..];
  }


  /** Some number of requests to the unchanged table `t` ends, and has listed exactly what follows `k`. */
  ghost predicate ListedWhole(t: seq<nat>, k: nat, limit: nat)
    requires Ascending(t) && limit < U32
  {
    exists n: nat :: WholeAfter(t, k, limit, n)
  }

  ghost predicate WholeAfter(t: seq<nat>, k: nat, limit: nat, n: nat)
    requires Ascending(t) && limit < U32
  {
    var ts := seq(n, _ => t);
    Ends(ts, k, limit) && Flatten(Walk(ts, k, limit)) == After(t, k)
  }

  /** Exactly the page sizes for which following the tokens lists the whole of an unchanged table. */
  lemma WalkExact(t: seq<nat>, k: nat, limit: nat)
    requires Ascending(t) && limit < U32
    ensures ListedWhole(t, k, limit) <==> 1 <= limit < U32 - 1 || After(t, k) == []
  {
    if 1 <= limit < U32 - 1 {
      var n := PageCount(|After(t, k)|, limit);
      WalkUnchanged(seq(n, _ => t), t, k, limit);
      assert WholeAfter(t, k, limit, n);
    } else if After(t, k) == [] {
      NothingLeft(t, k, limit);
    } else {
      forall n: nat ensures !WholeAfter(t, k, limit, n) {
        NotListed(t, k, limit, n);
      }
    }
  }

  lemma NothingLeft(t: seq<nat>, k: nat, limit: nat)
    requires Ascending(t) && limit < U32 && After(t, k) == [] && (limit == 0 || limit == U32 - 1)
    ensures WholeAfter(t, k, limit, 1)
  {
    var ts := seq(1, _ => t);
    assert ts[0] == t && AnyPage(t, k, limit) == Page([], None);
    assert Walk(ts, k, limit) == [[]] + [];
    FlattenCons<nat>([], []);
  }

  lemma NotListed(t: seq<nat>, k: nat, limit: nat, n: nat)
    requires Ascending(t) && After(t, k) != [] && (limit == 0 || limit == U32 - 1)
    ensures !WholeAfter(t, k, limit, n)
  {
    var ts := seq(n, _ => t);
    var x := After(t, k)[0];
    assert x in After(t, k) && InAll(ts, x);
    if limit == 0 {
      WalkOfSizeZero(ts, k);
    } else {
      WalkOfLargestSize(ts, k);
    }
  }
}
