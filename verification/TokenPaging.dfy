/** The two paging algorithms as a client sees them: requests that carry the token text of the answer before. */
module TokenPaging {
  import opened Results
  import opened Basics
  import opened Bytes
  import opened JsonText
  import PageToken
  import Paging
  import StringPaging

  datatype Reply<T> = Reply(items: seq<T>, token: Option<Text>)

  function IdReply(p: Paging.Page): Reply<nat> {
    Reply(p.ids, if p.next.Some? then Some(PageToken.EncodeId(p.next.value)) else None)
  }

  /** `ListPtr` with its token: a bad token is refused before the table is read. */
  method ListIds(t: seq<nat>, token: Option<Text>, want: Option<nat>, default: nat, max: nat)
    returns (r: Result<Reply<nat>, PageToken.TokenError>)
    requires Paging.Ascending(t)
    requires 0 < default < U32 && 0 < max < U32 && (want.Some? ==> want.value < U32)
    ensures match PageToken.DecodeId(token)
            case Err(e) => r == Err(e)
            case Ok(last) => r == Ok(IdReply(Paging.AnyPage(t, last, Paging.PageLimit(want, default, max))))
  {
    var limit := Paging.PageLimit(want, default, max);
    match PageToken.DecodeId(token) {
      case Err(e) => r := Err(e);
      case Ok(last) =>
        var page := Paging.ListPage(t, last, limit);
        r := Ok(IdReply(page));
    }
  }

  /** What a client collects that sends request i to a table `ts[i]`, starting with `token`. */
  ghost function IdWalk(ts: seq<seq<nat>>, token: Option<Text>, limit: nat): seq<seq<nat>>
    requires Paging.AllAscending(ts) && limit < U32
    decreases |ts|
  {
    if ts == [] || PageToken.DecodeId(token).Err? then [] else
      var reply := IdReply(Paging.AnyPage(ts[0], PageToken.DecodeId(token).value, limit));
      [reply.items] + if reply.token.None? then [] else IdWalk(ts[1..], reply.token, limit)
  }

  ghost predicate SmallIds(ts: seq<seq<nat>>) {
    forall i :: 0 <= i < |ts| ==> forall x :: x in ts[i] ==> x < U32
  }

  lemma NextIsSmall(t: seq<nat>, last: nat, limit: nat)
    requires Paging.Ascending(t) && limit < U32 && forall x :: x in t ==> x < U32
    ensures Paging.AnyPage(t, last, limit).next.Some? ==> Paging.AnyPage(t, last, limit).next.value < U32
  {
    if 1 <= limit < U32 - 1 {
      Paging.PageFacts(t, last, limit);
    }
  }

  /** Sending tokens back and forth is the same as remembering the last id, for every page size. */
  lemma {:induction false} IdWalkIsWalk(ts: seq<seq<nat>>, token: Option<Text>, limit: nat)
    requires Paging.AllAscending(ts) && SmallIds(ts) && limit < U32 && PageToken.DecodeId(token).Ok?
    ensures IdWalk(ts, token, limit) == Paging.Walk(ts, PageToken.DecodeId(token).value, limit)
    decreases |ts|
  {
    if ts != [] {
      var last := PageToken.DecodeId(token).value;
      var p := Paging.AnyPage(ts[0], last, limit);
      if p.next.Some? {
        NextIsSmall(ts[0], last, limit);
        PageToken.IdRoundTrip(p.next.value);
        IdWalkIsWalk(ts[1..], Some(PageToken.EncodeId(p.next.value)), limit);
      }
    }
  }

  /** Through tokens, too, nothing is repeated and nothing that stays is missed, whatever else changes between the requests. */
  lemma IdWalkUnderChange(ts: seq<seq<nat>>, limit: nat)
    requires Paging.AllAscending(ts) && SmallIds(ts) && limit < U32
    ensures Paging.ListsAll(ts, 0, limit, Flatten(IdWalk(ts, None, limit)))
  {
    IdWalkIsWalk(ts, None, limit);
    Paging.WalkUnderChange(ts, 0, limit);
  }

  /** A token codec for strings. */
  datatype Codec = Codec(encode: Text -> Text, decode: Option<Text> -> Result<Text, PageToken.TokenError>)

  const STRING_CODEC := Codec(PageToken.EncodeString, PageToken.DecodeString)

  /** What a client of the string lists collects in at most `calls` requests. */
  function TextWalk(codec: Codec, t: seq<Text>, token: Option<Text>, limit: nat, calls: nat): seq<seq<Text>>
    decreases calls
  {
    if calls == 0 || codec.decode(token).Err? then [] else
      var p := StringPaging.AnyPage(t, codec.decode(token).value, limit);
      [p.texts] + if p.next.None? then [] else TextWalk(codec, t, Some(codec.encode(p.next.value)), limit, calls - 1)
  }

  /** Tokens bring back what `resume` says. */
  ghost predicate Brings(codec: Codec, resume: Text -> Text) {
    forall x :: codec.decode(Some(codec.encode(x))) == Ok(resume(x))
  }

  lemma {:induction false} TextWalkIsWalk(codec: Codec, resume: Text -> Text, t: seq<Text>, token: Option<Text>, last: Text, limit: nat, calls: nat)
    requires Brings(codec, resume) && codec.decode(token) == Ok(last)
    ensures TextWalk(codec, t, token, limit, calls) == StringPaging.Walk(resume, t, last, limit, calls)
    decreases calls
  {
    if calls > 0 {
      var p := StringPaging.AnyPage(t, last, limit);
      if p.next.Some? {
        TextWalkIsWalk(codec, resume, t, Some(codec.encode(p.next.value)), resume(p.next.value), limit, calls - 1);
      }
    }
  }

  lemma StringCodecBrings()
    ensures Brings(STRING_CODEC, Clean) && STRING_CODEC.decode(None) == Ok([])
  {
    forall x ensures STRING_CODEC.decode(Some(STRING_CODEC.encode(x))) == Ok(Clean(x)) {
      PageToken.StringTokenReads(x);
    }
  }

  /**
   From no token, for any distinct non-empty strings, UTF-8 or not: the replies of floor(n / limit) + 1 requests hold exactly the sorted
   strings if and only if the cleaned form of the last string of each full page lies between that string and the next.
   */
  lemma TextWalkExact(strings: seq<Text>, limit: nat)
    requires 1 <= limit && Distinct(strings) && [] !in strings
    ensures var calls := StringPaging.CallCount(|strings|, limit);
      Flatten(TextWalk(STRING_CODEC, Sort(strings), None, limit, calls)) == Sort(strings) <==>
      StringPaging.AllResume(Clean, Sort(strings), 0, limit)
  {
    var t := Sort(strings);
    StringPaging.FromTheStart(strings);
    assert t[0..] == t;
    StringCodecBrings();
    StringPaging.WalkExact(Clean, t, [], limit);
    TextWalkIsWalk(STRING_CODEC, Clean, t, None, [], limit, StringPaging.CallCount(|strings|, limit));
  }

  ghost predicate AllValid(t: seq<Text>) {
    forall i :: 0 <= i < |t| ==> ValidUtf8(t[i])
  }

  /** Valid UTF-8 strings always meet the condition: nothing is lost, nothing repeated, in exactly that many requests. */
  lemma TextWalkListsAll(strings: seq<Text>, limit: nat)
    requires 1 <= limit && Distinct(strings) && [] !in strings && AllValid(strings)
    ensures var calls := StringPaging.CallCount(|strings|, limit);
      && Flatten(TextWalk(STRING_CODEC, Sort(strings), None, limit, calls)) == Sort(strings)
      && |TextWalk(STRING_CODEC, Sort(strings), None, limit, calls)| == calls
  {
    var calls := StringPaging.CallCount(|strings|, limit);
    SortSorts(strings);
    forall i | 0 <= i < |Sort(strings)| ensures Clean(Sort(strings)[i]) == Sort(strings)[i] {
      assert Sort(strings)[i] in multiset(strings);
      CleanFixes(Sort(strings)[i]);
    }
    StringPaging.StringWalk(Clean, strings, limit, calls);
    StringCodecBrings();
    TextWalkIsWalk(STRING_CODEC, Clean, Sort(strings), None, [], limit, calls);
  }

  /** What a client collects that sends request i to the sorted list `ts[i]`, starting with `token`. */
  ghost function TextWalkOver(codec: Codec, ts: seq<seq<Text>>, token: Option<Text>, limit: nat): seq<seq<Text>>
    decreases |ts|
  {
    if ts == [] || codec.decode(token).Err? then [] else
      var p := StringPaging.AnyPage(ts[0], codec.decode(token).value, limit);
      [p.texts] + if p.next.None? then [] else TextWalkOver(codec, ts[1..], Some(codec.encode(p.next.value)), limit)
  }

  lemma {:induction false} TextWalkOverIsWalk(codec: Codec, resume: Text -> Text, ts: seq<seq<Text>>, token: Option<Text>, last: Text, limit: nat)
    requires Brings(codec, resume) && codec.decode(token) == Ok(last)
    ensures TextWalkOver(codec, ts, token, limit) == StringPaging.WalkOver(resume, ts, last, limit)
    decreases |ts|
  {
    if ts != [] {
      var p := StringPaging.AnyPage(ts[0], last, limit);
      if p.next.Some? {
        TextWalkOverIsWalk(codec, resume, ts[1..], Some(codec.encode(p.next.value)), resume(p.next.value), limit);
      }
    }
  }

  /** Through tokens, for lists of valid UTF-8 names that change between the requests: no name twice, and none that stays is missed. */
  lemma TextWalkUnderChange(ts: seq<seq<Text>>, limit: nat)
    requires StringPaging.AllSorted(ts) && 1 <= limit && forall i :: 0 <= i < |ts| ==> AllValid(ts[i])
    ensures StringPaging.ListsAll(ts, [], StringPaging.EndsOver(Clean, ts, [], limit), Flatten(TextWalkOver(STRING_CODEC, ts, None, limit)))
  {
    forall i, x | 0 <= i < |ts| && x in ts[i] ensures Clean(x) == x {
      CleanFixes(x);
    }
    StringCodecBrings();
    StringPaging.WalkUnderChange(Clean, ts, [], limit);
    TextWalkOverIsWalk(STRING_CODEC, Clean, ts, None, [], limit);
  }

  // ----------------------------------------------------------- a name that is not UTF-8

  const BAD_NAME: Text := [0xFF]

  lemma BadNameCleans()
    ensures Clean(BAD_NAME) == REPLACEMENT && Less(REPLACEMENT, BAD_NAME)
  {
    assert RuneLen(BAD_NAME) == 0 && BAD_NAME[1..] == [];
    assert Clean([]) == [] && REPLACEMENT + [] == REPLACEMENT;
  }

  /** What such a name comes back as is below it, so at page size 1 the walk returns it again and again. */
  lemma {:induction false} BadNameRepeats(last: Text, calls: nat)
    requires Less(last, BAD_NAME)
    ensures StringPaging.Walk(Clean, [BAD_NAME], last, 1, calls) == seq(calls, _ => [BAD_NAME])
    ensures !StringPaging.Ends(Clean, [BAD_NAME], last, 1, calls)
    decreases calls
  {
    if calls > 0 {
      var t := [BAD_NAME];
      assert t[1..] == [] && StringPaging.Above([], last) == [];
      assert StringPaging.PageOf(t, last, 1) == StringPaging.Page(t, Some(BAD_NAME));
      BadNameCleans();
      BadNameRepeats(Clean(BAD_NAME), calls - 1);
    }
  }

  /** The same seen by a client: however many requests it makes, each returns the name, and none is the last. */
  lemma BadNameForever(calls: nat)
    ensures TextWalk(STRING_CODEC, [BAD_NAME], None, 1, calls) == seq(calls, _ => [BAD_NAME])
  {
    StringCodecBrings();
    TextWalkIsWalk(STRING_CODEC, Clean, [BAD_NAME], None, [], 1, calls);
    BadNameRepeats([], calls);
  }
}
