/** Cursor pagination over a list of strings that is sorted anew for every request. */
module StringPaging {
  import opened Results
  import opened Basics
  import opened Bytes

  /** `Limit.Limit()`; each panic of the source is a precondition. */
  function PageLimit(want: Option<nat>, default: nat, max: nat): (n: nat)
    requires want.Some? ==> 0 < max < U32 && want.value < U32
    requires want.None? ==> 0 < default < U32
    ensures n < U32 && (want != Some(0) ==> n >= 1)
    ensures want.Some? ==> n <= max && n <= want.value && (n == max || n == want.value)
    ensures want.None? ==> n == default
  {
    if want.Some? then (if want.value < max then want.value else max) else default
  }

  /** The strings above `last`, in order. */
  function Above(t: seq<Text>, last: Text): seq<Text> {
    if t == [] then [] else if Less(last, t[0]) then [t[0]] + Above(t[1..], last) else Above(t[1..], last)
  }

  datatype Page = Page(texts: seq<Text>, next: Option<Text>)

  /** What a request returns for sorted strings `t`: a full page carries a token, whether or not anything follows. */
  function PageOf(t: seq<Text>, last: Text, limit: nat): Page
    requires 1 <= limit
  {
    var rest := Above(t, last);
    if |rest| < limit then Page(rest, None) else Page(rest[..limit], Some(rest[limit - 1]))
  }

  /** What a request returns for any page size: size 0 gives the first string and no token. */
  function AnyPage(t: seq<Text>, last: Text, limit: nat): Page {
    if limit >= 1 then PageOf(t, last, limit)
    else Page(var rest := Above(t, last); if rest == [] then [] else rest[..1], None)
  }

  lemma {:induction false} AboveStep(t: seq<Text>, i: nat, last: Text)
    requires i < |t|
    ensures Above(t[..i + 1], last) == Above(t[..i], last) + if Less(last, t[i]) then [t[i]] else []
    decreases i
  {
    if i == 0 {
      assert t[..1] == [t[0]] && t[..0] == [];
      assert t[..1][1..] == [];
    } else {
      AboveStep(t[1..], i - 1, last);
      assert t[..i + 1][1..] == t[1..][..i];
      assert t[..i][1..] == t[1..][..i - 1];
    }
  }

  lemma {:induction false} AbovePrefix(t: seq<Text>, i: nat, last: Text)
    requires i <= |t|
    ensures Above(t[..i], last) <= Above(t, last)
    decreases |t| - i
  {
    if i == |t| {
      assert t[..i] == t;
    } else {
      AboveStep(t, i, last);
      AbovePrefix(t, i + 1, last);
    }
  }

  /** `ListFromStrings` below its token handling: sorts in place, skips what was seen, stops at a full page. */
  method ListFromStrings(strings: array<Text>, limit: nat, last: Text) returns (page: Page)
    modifies strings
    ensures strings[..] == Sort(old(strings[..]))
    ensures page == AnyPage(strings[..], last, limit)
  {
    SortInPlace(strings);
    var out: seq<Text> := [];
    var i := 0;
    ghost var all := strings[..];
    assert Above(all[..0], last) == [];
    while i < strings.Length
      invariant 0 <= i <= strings.Length && strings[..] == all
      invariant out == Above(all[..i], last)
      invariant out == [] || |out| < limit
    {
      AboveStep(all, i, last);
      if !Less(last, strings[i]) {
        i := i + 1;
        continue;
      }
      out := out + [strings[i]];
      i := i + 1;
      if |out| >= limit {
        break;
      }
    }
    AbovePrefix(all, i, last);
    assert i == strings.Length ==> all[..i] == all;
    page := Page(out, if |out| == limit && |out| > 0 then Some(out[|out| - 1]) else None);
  }

  method SortInPlace(a: array<Text>)
    modifies a
    ensures a[..] == Sort(old(a[..]))
  {
    var sorted := Sort(a[..]);
    SortSorts(a[..]);
    var i := 0;
    while i < a.Length
      invariant 0 <= i <= a.Length && |sorted| == a.Length
      invariant a[..i] == sorted[..i]
    {
      a[i] := sorted[i];
      i := i + 1;
    }
    assert sorted[..a.Length] == sorted;
  }

  // ---------------------------------------------------------------------- a walk

  /**
   The pages of at most `calls` requests that follow the tokens, for any page size.  `resume` is what a token brings back of the last
   string of a page.
   */
  function Walk(resume: Text -> Text, t: seq<Text>, last: Text, limit: nat, calls: nat): seq<seq<Text>>
    decreases calls
  {
    if calls == 0 then [] else
      var p := AnyPage(t, last, limit);
      [p.texts] + if p.next.None? then [] else Walk(resume, t, resume(p.next.value), limit, calls - 1)
  }

  /** The last of at most `calls` requests got no token. */
  predicate Ends(resume: Text -> Text, t: seq<Text>, last: Text, limit: nat, calls: nat)
    decreases calls
  {
    calls > 0 && (var p := AnyPage(t, last, limit); p.next.None? || Ends(resume, t, resume(p.next.value), limit, calls - 1))
  }

  lemma {:induction false} AboveAll(t: seq<Text>, last: Text)
    requires forall i :: 0 <= i < |t| ==> Less(last, t[i])
    ensures Above(t, last) == t
    decreases |t|
  {
    if t != [] {
      AboveAll(t[1..], last);
    }
  }

  /** In a strictly sorted list, what lies above any text is a tail of the list. */
  lemma {:induction false} AboveIsTail(t: seq<Text>, last: Text) returns (q: nat)
    requires StrictlySorted(t)
    ensures q <= |t| && Above(t, last) == t[q..]
    ensures forall i :: 0 <= i < |t| ==> (Less(last, t[i]) <==> q <= i)
    decreases |t|
  {
    if t == [] {
      q := 0;
    } else if Less(last, t[0]) {
      q := 0;
      forall i | 0 <= i < |t| ensures Less(last, t[i]) {
        if i > 0 { LessTrans(last, t[0], t[i]); }
      }
      AboveAll(t, last);
      assert t[0..] == t;
    } else {
      var q' := AboveIsTail(t[1..], last);
      q := q' + 1;
      assert t[1..][q'..] == t[q..];
      forall i | 0 <= i < |t| ensures Less(last, t[i]) <==> q <= i {
        if i > 0 { assert t[1..][i - 1] == t[i]; }
      }
    }
  }

  /** A token for the string at `i` leads to the one behind it. */
  predicate Resumes(resume: Text -> Text, t: seq<Text>, i: nat)
    requires i < |t|
  {
    Above(t, resume(t[i])) == t[i + 1..]
  }

  /** It does if and only if what it brings back is not below the string itself and is below the next one. */
  lemma ResumesExact(resume: Text -> Text, t: seq<Text>, i: nat)
    requires StrictlySorted(t) && i < |t|
    ensures Resumes(resume, t, i) <==> !Less(resume(t[i]), t[i]) && (i + 1 < |t| ==> Less(resume(t[i]), t[i + 1]))
  {
    var q := AboveIsTail(t, resume(t[i]));
    assert |t[q..]| == |t| - q && |t[i + 1..]| == |t| - (i + 1);
  }

  lemma FaithfulResumes(resume: Text -> Text, t: seq<Text>, i: nat)
    requires StrictlySorted(t) && i < |t| && resume(t[i]) == t[i]
    ensures Resumes(resume, t, i)
  {
    LessTotal(t[i], t[i]);
    ResumesExact(resume, t, i);
  }

  /** The number of requests for n strings. */
  function CallCount(n: nat, limit: nat): (c: nat)
    requires 1 <= limit
    ensures 1 <= c
  {
    if n < limit then 1 else 1 + CallCount(n - limit, limit)
  }

  /** It is floor(n / limit) + 1. */
  lemma {:induction false} CallCountIsFloor(n: nat, limit: nat)
    requires 1 <= limit
    ensures var c := CallCount(n, limit); (c - 1) * limit <= n < c * limit
    decreases n
  {
    if n >= limit {
      var c := CallCount(n - limit, limit);
      CallCountIsFloor(n - limit, limit);
      assert (c + 1) * limit == c * limit + limit && c * limit == (c - 1) * limit + limit;
    }
  }

  /** Every full page from position `j` on ends in a string whose token leads to the next one. */
  predicate AllResume(resume: Text -> Text, t: seq<Text>, j: nat, limit: nat)
    requires 1 <= limit && j <= |t|
    decreases |t| - j
  {
    |t| - j < limit || (Resumes(resume, t, j + limit - 1) && AllResume(resume, t, j + limit, limit))
  }

  lemma WalkUnfolds(resume: Text -> Text, t: seq<Text>, j: nat, last: Text, limit: nat, calls: nat)
    requires 1 <= limit && 1 <= calls && j + limit <= |t| && Above(t, last) == t[j..]
    ensures var next := resume(t[j + limit - 1]);
      && Ends(resume, t, last, limit, calls) == Ends(resume, t, next, limit, calls - 1)
      && Walk(resume, t, last, limit, calls) == [t[j..j + limit]] + Walk(resume, t, next, limit, calls - 1)
  {
    assert t[j..][..limit] == t[j..j + limit];
    assert PageOf(t, last, limit) == Page(t[j..j + limit], Some(t[j + limit - 1]));
  }

  /** A page in front of other pages completes the list if and only if those list what is behind it. */
  lemma PageInFront(t: seq<Text>, j: nat, m: nat, rest: seq<seq<Text>>)
    requires j <= m <= |t|
    ensures Flatten([t[j..m]] + rest) == t[j..] <==> Flatten(rest) == t[m..]
  {
    FlattenCons(t[j..m], rest);
    assert t[j..] == t[j..m] + t[m..];
    SamePrefix(t[j..m], Flatten(rest), t[m..]);
  }

  lemma WalkNextPage(resume: Text -> Text, t: seq<Text>, j: nat, last: Text, limit: nat, calls: nat)
    requires 1 <= limit && 1 <= calls && j + limit <= |t| && Above(t, last) == t[j..]
    ensures var next := resume(t[j + limit - 1]);
      && Ends(resume, t, last, limit, calls) == Ends(resume, t, next, limit, calls - 1)
      && |Walk(resume, t, last, limit, calls)| == 1 + |Walk(resume, t, next, limit, calls - 1)|
  {
    WalkUnfolds(resume, t, j, last, limit, calls);
  }

  lemma NextPageLists(resume: Text -> Text, t: seq<Text>, j: nat, m: nat, last: Text, limit: nat, calls: nat)
    requires 1 <= limit && 1 <= calls && m == j + limit <= |t| && Above(t, last) == t[j..]
    ensures Flatten(Walk(resume, t, last, limit, calls)) == t[j..] <==> Flatten(Walk(resume, t, resume(t[m - 1]), limit, calls - 1)) == t[m..]
  {
    WalkUnfolds(resume, t, j, last, limit, calls);
    PageInFront(t, j, m, Walk(resume, t, resume(t[m - 1]), limit, calls - 1));
  }

  lemma SamePrefix(p: seq<Text>, a: seq<Text>, b: seq<Text>)
    ensures p + a == p + b <==> a == b
  {
    assert (p + a)[|p|..] == a && (p + b)[|p|..] == b;
  }

  lemma WalkLastPage(resume: Text -> Text, t: seq<Text>, j: nat, last: Text, limit: nat, calls: nat)
    requires 1 <= limit && 1 <= calls && j <= |t| && |t| - j < limit && Above(t, last) == t[j..]
    ensures Ends(resume, t, last, limit, calls) && Walk(resume, t, last, limit, calls) == [t[j..]]
    ensures Flatten(Walk(resume, t, last, limit, calls)) == t[j..]
  {
    assert Walk(resume, t, last, limit, calls) == [t[j..]] + [];
    FlattenCons(t[j..], []);
    assert t[j..] + [] == t[j..];
  }

  /** The walk has ended once there were exactly enough requests, and then it has listed `rest` in that many pages. */
  predicate Lists(resume: Text -> Text, t: seq<Text>, last: Text, limit: nat, calls: nat, rest: seq<Text>)
    requires 1 <= limit
  {
    && (Ends(resume, t, last, limit, calls) <==> CallCount(|rest|, limit) <= calls)
    && (Ends(resume, t, last, limit, calls) ==>
          && Flatten(Walk(resume, t, last, limit, calls)) == rest
          && |Walk(resume, t, last, limit, calls)| == CallCount(|rest|, limit))
  }

  lemma ListsOneMore(resume: Text -> Text, t: seq<Text>, j: nat, m: nat, last: Text, limit: nat, calls: nat)
    requires 1 <= limit && 1 <= calls && m == j + limit <= |t| && Above(t, last) == t[j..]
    requires Lists(resume, t, resume(t[m - 1]), limit, calls - 1, t[m..])
    ensures Lists(resume, t, last, limit, calls, t[j..])
  {
    assert |t[j..]| == |t| - j && |t[m..]| == |t| - m;
    FullPage(resume, t, j, limit);
    WalkNextPage(resume, t, j, last, limit, calls);
    NextPageLists(resume, t, j, m, last, limit, calls);
  }

  /** Following tokens that all lead on, from position `j` of a strictly sorted list. */
  lemma {:induction false} WalkFrom(resume: Text -> Text, t: seq<Text>, j: nat, last: Text, limit: nat, calls: nat)
    requires 1 <= limit && j <= |t| && StrictlySorted(t) && Above(t, last) == t[j..] && AllResume(resume, t, j, limit)
    ensures Lists(resume, t, last, limit, calls, t[j..])
    decreases calls
  {
    if calls == 0 {
    } else if |t| - j < limit {
      WalkLastPage(resume, t, j, last, limit, calls);
    } else {
      FullPage(resume, t, j, limit);
      WalkFrom(resume, t, j + limit, resume(t[j + limit - 1]), limit, calls - 1);
      ListsOneMore(resume, t, j, j + limit, last, limit, calls);
    }
  }

  /** A walk that lists exactly a tail of the list has started right before it. */
  lemma ListsTail(resume: Text -> Text, t: seq<Text>, m: nat, last: Text, limit: nat, calls: nat)
    requires 1 <= limit && 1 <= calls && m <= |t| && StrictlySorted(t) && Flatten(Walk(resume, t, last, limit, calls)) == t[m..]
    ensures Above(t, last) == t[m..]
  {
    var q := AboveIsTail(t, last);
    var p := PageOf(t, last, limit);
    var more := if p.next.None? then [] else Walk(resume, t, resume(p.next.value), limit, calls - 1);
    FlattenCons(p.texts, more);
    if q < |t| {
      assert p.texts[0] == t[q] && t[m..] == p.texts + Flatten(more);
      assert t[m..][0] == t[q] && t[m..][0] == t[m];
      LessTotal(t[q], t[q]);
      assert !(m < q) && !(q < m);
    } else {
      assert p == Page([], None);
    }
  }

  lemma FullPage(resume: Text -> Text, t: seq<Text>, j: nat, limit: nat)
    requires 1 <= limit && j + limit <= |t|
    ensures CallCount(|t| - j, limit) == 1 + CallCount(|t| - (j + limit), limit)
    ensures AllResume(resume, t, j, limit) <==> Resumes(resume, t, j + limit - 1) && AllResume(resume, t, j + limit, limit)
  {
  }

  /** The walk is where it should be at position `j`, with exactly the requests left that it needs, and will list the rest. */
  ghost predicate OnCourse(resume: Text -> Text, t: seq<Text>, j: nat, last: Text, limit: nat)
    requires 1 <= limit && j <= |t|
  {
    Above(t, last) == t[j..] && Flatten(Walk(resume, t, last, limit, CallCount(|t| - j, limit))) == t[j..]
  }

  lemma StaysOnCourse(resume: Text -> Text, t: seq<Text>, j: nat, m: nat, last: Text, limit: nat)
    requires 1 <= limit && m == j + limit <= |t| && StrictlySorted(t) && OnCourse(resume, t, j, last, limit)
    ensures Resumes(resume, t, m - 1) && OnCourse(resume, t, m, resume(t[m - 1]), limit)
  {
    FullPage(resume, t, j, limit);
    TokenLedOn(resume, t, j, m, last, limit, CallCount(|t| - m, limit));
  }

  lemma TokenLedOn(resume: Text -> Text, t: seq<Text>, j: nat, m: nat, last: Text, limit: nat, calls: nat)
    requires 1 <= limit && m == j + limit <= |t| && StrictlySorted(t) && Above(t, last) == t[j..] && 1 <= calls
    requires Flatten(Walk(resume, t, last, limit, 1 + calls)) == t[j..]
    ensures Flatten(Walk(resume, t, resume(t[m - 1]), limit, calls)) == t[m..] && Above(t, resume(t[m - 1])) == t[m..]
  {
    NextPageLists(resume, t, j, m, last, limit, 1 + calls);
    ListsTail(resume, t, m, resume(t[m - 1]), limit, calls);
  }

  /** A walk that lists the whole tail has only used tokens that lead on. */
  lemma {:induction false} WalkNeedsTokens(resume: Text -> Text, t: seq<Text>, j: nat, last: Text, limit: nat)
    requires 1 <= limit && j <= |t| && StrictlySorted(t) && OnCourse(resume, t, j, last, limit)
    ensures AllResume(resume, t, j, limit)
    decreases |t| - j
  {
    if j + limit <= |t| {
      StaysOnCourse(resume, t, j, j + limit, last, limit);
      WalkNeedsTokens(resume, t, j + limit, resume(t[j + limit - 1]), limit);
    }
  }

  /** With exactly the requests that the list needs, the walk lists it if and only if every token leads on. */
  lemma WalkExact(resume: Text -> Text, t: seq<Text>, last: Text, limit: nat)
    requires 1 <= limit && StrictlySorted(t) && Above(t, last) == t
    ensures Flatten(Walk(resume, t, last, limit, CallCount(|t|, limit))) == t <==> AllResume(resume, t, 0, limit)
  {
    assert t[0..] == t;
    if AllResume(resume, t, 0, limit) {
      WalkFrom(resume, t, 0, last, limit, CallCount(|t|, limit));
    } else if Flatten(Walk(resume, t, last, limit, CallCount(|t|, limit))) == t {
      WalkNeedsTokens(resume, t, 0, last, limit);
    }
  }

  lemma FromTheStart(strings: seq<Text>)
    requires Distinct(strings) && [] !in strings
    ensures StrictlySorted(Sort(strings)) && |Sort(strings)| == |strings| && Above(Sort(strings), []) == Sort(strings)[0..]
  {
    var t := Sort(strings);
    SortSorts(strings);
    SortDistinct(strings);
    forall i | 0 <= i < |t| ensures Less([], t[i]) {
      assert t[i] in multiset(t);
      assert t[i] in strings;
    }
    AboveAll(t, []);
    assert t[0..] == t;
  }

  lemma {:induction false} FaithfulAllResume(resume: Text -> Text, t: seq<Text>, j: nat, limit: nat)
    requires StrictlySorted(t) && 1 <= limit && j <= |t| && forall i :: 0 <= i < |t| ==> resume(t[i]) == t[i]
    ensures AllResume(resume, t, j, limit)
    decreases |t| - j
  {
    if j + limit <= |t| {
      FaithfulResumes(resume, t, j + limit - 1);
      FaithfulAllResume(resume, t, j + limit, limit);
    }
  }

  /**
   String paging walk: for distinct non-empty strings whose tokens bring them back, following the tokens from none gives exactly the sorted
   list, nothing lost and nothing repeated, and takes exactly floor(n / limit) + 1 requests.
   */
  lemma StringWalk(resume: Text -> Text, strings: seq<Text>, limit: nat, calls: nat)
    requires 1 <= limit && Distinct(strings) && [] !in strings
    requires forall i :: 0 <= i < |Sort(strings)| ==> resume(Sort(strings)[i]) == Sort(strings)[i]
    ensures Ends(resume, Sort(strings), [], limit, calls) <==> CallCount(|strings|, limit) <= calls
    ensures Ends(resume, Sort(strings), [], limit, calls) ==>
      && Flatten(Walk(resume, Sort(strings), [], limit, calls)) == Sort(strings)
      && |Walk(resume, Sort(strings), [], limit, calls)| == CallCount(|strings|, limit)
  {
    var t := Sort(strings);
    FromTheStart(strings);
    FaithfulAllResume(resume, t, 0, limit);
    assert t[0..] == t;
    WalkFrom(resume, t, 0, [], limit, calls);
  }

  /** Page size 0 gives one page with the first string and ends: the whole list exactly when there is at most one string. */
  lemma WalkOfSizeZero(resume: Text -> Text, strings: seq<Text>, calls: nat)
    requires 1 <= calls && Distinct(strings) && [] !in strings
    ensures Ends(resume, Sort(strings), [], 0, calls)
    ensures Flatten(Walk(resume, Sort(strings), [], 0, calls)) == Sort(strings) <==> |strings| <= 1
  {
    var t := Sort(strings);
    FromTheStart(strings);
    assert t[0..] == t;
    var page := if t == [] then [] else t[..1];
    assert Walk(resume, t, [], 0, calls) == [page] + [];
    FlattenCons(page, []);
    assert page + [] == page;
  }

  // ---------------------------------------------------- a list that changes in between

  ghost predicate AllSorted(ts: seq<seq<Text>>) {
    forall i :: 0 <= i < |ts| ==> StrictlySorted(ts[i])
  }

  /** `x` is in every one of the lists. */
  ghost predicate InAll(ts: seq<seq<Text>>, x: Text) {
    forall i :: 0 <= i < |ts| ==> x in ts[i]
  }

  /** Tokens bring back every string of the lists. */
  ghost predicate Faithful(resume: Text -> Text, ts: seq<seq<Text>>) {
    forall i, x :: 0 <= i < |ts| && x in ts[i] ==> resume(x) == x
  }

  /** The pages returned when the i-th request finds the sorted list `ts[i]` and carries the token of the request before it. */
  ghost function WalkOver(resume: Text -> Text, ts: seq<seq<Text>>, last: Text, limit: nat): seq<seq<Text>>
    decreases |ts|
  {
    if ts == [] then [] else
      var p := AnyPage(ts[0], last, limit);
      [p.texts] + if p.next.None? then [] else WalkOver(resume, ts[1..], resume(p.next.value), limit)
  }

  ghost predicate EndsOver(resume: Text -> Text, ts: seq<seq<Text>>, last: Text, limit: nat)
    decreases |ts|
  {
    ts != [] &&
    var p := AnyPage(ts[0], last, limit);
    p.next.None? || EndsOver(resume, ts[1..], resume(p.next.value), limit)
  }

  lemma TailFacts(t: seq<Text>, last: Text, x: Text)
    requires StrictlySorted(t)
    ensures StrictlySorted(Above(t, last)) && (x in Above(t, last) <==> x in t && Less(last, x))
  {
    var q := AboveIsTail(t, last);
    if x in Above(t, last) {
      var i :| 0 <= i < |t[q..]| && t[q..][i] == x;
      assert t[q + i] == x;
    }
    if x in t && Less(last, x) {
      var i :| 0 <= i < |t| && t[i] == x;
      assert t[q..][i - q] == x;
    }
  }

  /** The first strings of a sorted list, and the rest. */
  lemma TakeFacts(rest: seq<Text>, n: nat, x: Text)
    requires StrictlySorted(rest) && 1 <= n <= |rest|
    ensures x in rest[..n] ==> x in rest && (x == rest[n - 1] || Less(x, rest[n - 1]))
    ensures x in rest && x !in rest[..n] ==> Less(rest[n - 1], x)
  {
    assert forall i :: 0 <= i < n ==> rest[i] in rest[..n];
  }

  lemma PageFacts(t: seq<Text>, last: Text, limit: nat, x: Text)
    requires StrictlySorted(t) && 1 <= limit
    ensures var p := PageOf(t, last, limit);
      && StrictlySorted(p.texts)
      && (x in p.texts ==> x in t && Less(last, x))
      && (p.next.Some? ==> p.next.value in t && Less(last, p.next.value) && (x in p.texts ==> x == p.next.value || Less(x, p.next.value)))
      && (x in t && Less(last, x) && x !in p.texts ==> p.next.Some? && Less(p.next.value, x))
  {
    var rest := Above(t, last);
    TailFacts(t, last, x);
    if |rest| >= limit {
      TakeFacts(rest, limit, x);
      assert rest[limit - 1] in rest;
      TailFacts(t, last, rest[limit - 1]);
    }
  }

  lemma SortedJoin(a: seq<Text>, b: seq<Text>, m: Text)
    requires StrictlySorted(a) && StrictlySorted(b) && (forall x :: x in a ==> x == m || Less(x, m)) && (forall x :: x in b ==> Less(m, x))
    ensures StrictlySorted(a + b)
  {
    forall i, j | 0 <= i < j < |a + b| ensures Less((a + b)[i], (a + b)[j]) {
      if i < |a| <= j {
        assert a[i] in a && b[j - |a|] in b;
        if a[i] != m {
          LessTrans(a[i], m, b[j - |a|]);
        }
      }
    }
  }

  /** Everything listed was there, nothing twice; and once the walk ends, whatever was there for all of it is listed. */
  ghost predicate ListsAll(ts: seq<seq<Text>>, last: Text, ended: bool, all: seq<Text>) {
    && StrictlySorted(all)
    && (forall x :: x in all ==> Less(last, x) && exists i :: 0 <= i < |ts| && x in ts[i])
    && (ended ==> forall x :: Less(last, x) && InAll(ts, x) ==> x in all)
  }

  lemma NextPageListsAll(ts: seq<seq<Text>>, last: Text, limit: nat, ended: bool, rest: seq<Text>)
    requires AllSorted(ts) && 1 <= limit && ts != [] && PageOf(ts[0], last, limit).next.Some?
    requires ListsAll(ts[1..], PageOf(ts[0], last, limit).next.value, ended, rest)
    ensures ListsAll(ts, last, ended, PageOf(ts[0], last, limit).texts + rest)
  {
    var p := PageOf(ts[0], last, limit);
    var m := p.next.value;
    forall x ensures
      && StrictlySorted(p.texts) && Less(last, m)
      && (x in p.texts ==> x in ts[0] && Less(last, x) && (x == m || Less(x, m)))
      && (x in ts[0] && Less(last, x) && x !in p.texts ==> Less(m, x))
    {
      PageFacts(ts[0], last, limit, x);
    }
    PageFacts(ts[0], last, limit, m);
    SortedJoin(p.texts, rest, m);
    forall x | x in p.texts + rest ensures Less(last, x) && exists i :: 0 <= i < |ts| && x in ts[i] {
      if x in rest {
        LessTrans(last, m, x);
        var i :| 0 <= i < |ts[1..]| && x in ts[1..][i];
        assert x in ts[i + 1];
      } else {
        assert x in ts[0];
      }
    }
    if ended {
      forall x | Less(last, x) && InAll(ts, x) ensures x in p.texts + rest {
        assert x in ts[0] && InAll(ts[1..], x);
      }
    }
  }

  lemma LastPageListsAll(ts: seq<seq<Text>>, last: Text, limit: nat)
    requires AllSorted(ts) && 1 <= limit && ts != [] && PageOf(ts[0], last, limit).next.None?
    ensures ListsAll(ts, last, true, PageOf(ts[0], last, limit).texts)
  {
    forall x ensures
      && StrictlySorted(PageOf(ts[0], last, limit).texts)
      && (x in PageOf(ts[0], last, limit).texts <==> x in ts[0] && Less(last, x))
    {
      PageFacts(ts[0], last, limit, x);
    }
    assert forall x :: x in ts[0] ==> exists i :: 0 <= i < |ts| && x in ts[i];
  }

  /**
   String paging while the list changes: for strings that their tokens bring back, whatever appears or goes between requests, the strings come in
   strictly ascending order, all of them real, and a walk that ends has missed none that was there throughout.
   */
  lemma {:induction false} WalkUnderChange(resume: Text -> Text, ts: seq<seq<Text>>, last: Text, limit: nat)
    requires AllSorted(ts) && Faithful(resume, ts) && 1 <= limit
    ensures ListsAll(ts, last, EndsOver(resume, ts, last, limit), Flatten(WalkOver(resume, ts, last, limit)))
    decreases |ts|
  {
    if ts != [] {
      var p := PageOf(ts[0], last, limit);
      if p.next.None? {
        LastPageListsAll(ts, last, limit);
        FlattenCons(p.texts, []);
        assert p.texts + [] == p.texts;
      } else {
        PageFacts(ts[0], last, limit, p.next.value);
        assert resume(p.next.value) == p.next.value;
        WalkUnderChange(resume, ts[1..], p.next.value, limit);
        FlattenCons(p.texts, WalkOver(resume, ts[1..], p.next.value, limit));
        NextPageListsAll(ts, last, limit, EndsOver(resume, ts[1..], p.next.value, limit), Flatten(WalkOver(resume, ts[1..], p.next.value, limit)));
      }
    }
  }
}
