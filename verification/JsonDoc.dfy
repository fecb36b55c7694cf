/** JSON documents: the grammar of RFC 8259 as a parser, and the flat objects that page tokens are made of. */
module JsonDoc {
  import opened Results
  import opened Bytes
  import opened JsonText

  datatype Value =
    | Null
    | Bool(b: bool)
    | Number(digits: Text)
    | Str(text: Text)
    | Array(items: seq<Value>)
    | Object(members: seq<Member>)

  datatype Member = Member(key: Text, value: Value)

  const COMMA: Byte := 44
  const COLON: Byte := 58
  const OPEN_BRACE: Byte := 123
  const CLOSE_BRACE: Byte := 125
  const OPEN_BRACKET: Byte := 91
  const CLOSE_BRACKET: Byte := 93
  const MINUS: Byte := 45
  const ZERO: Byte := 48

  predicate IsSpace(b: Byte) {
    b == 32 || b == 9 || b == 10 || b == 13
  }

  function SkipSpace(s: Text): (r: Text)
    ensures |r| <= |s|
  {
    if s != [] && IsSpace(s[0]) then SkipSpace(s[1..]) else s
  }

  predicate StartsWith(s: Text, b: Byte) {
    s != [] && s[0] == b
  }

  // --------------------------------------------------------------------- numbers

  predicate IsDigit(b: Byte) {
    48 <= b <= 57
  }

  function DigitRun(s: Text): (n: nat)
    ensures n <= |s|
  {
    if s != [] && IsDigit(s[0]) then 1 + DigitRun(s[1..]) else 0
  }

  /** The length of the integer part, 0 at a syntax error. */
  function IntLen(s: Text): (n: nat)
    ensures n <= |s|
  {
    if StartsWith(s, ZERO) then 1 else DigitRun(s)
  }

  /** A fraction, if there is one: its length, or none when the point is not followed by a digit. */
  function FracLen(s: Text): (n: Option<nat>)
    ensures n.Some? ==> n.value <= |s|
  {
    if !StartsWith(s, 46) then Some(0)
    else if DigitRun(s[1..]) == 0 then None
    else Some(1 + DigitRun(s[1..]))
  }

  function ExpLen(s: Text): (n: Option<nat>)
    ensures n.Some? ==> n.value <= |s|
  {
    if !StartsWith(s, 101) && !StartsWith(s, 69) then Some(0)
    else
      var sign := if StartsWith(s[1..], 43) || StartsWith(s[1..], MINUS) then 1 else 0;
      if DigitRun(s[1 + sign..]) == 0 then None else Some(1 + sign + DigitRun(s[1 + sign..]))
  }

  function ParseNumber(s: Text): (r: Option<Parsed<Value>>)
    ensures r.Some? ==> |r.value.rest| < |s|
  {
    var sign := if StartsWith(s, MINUS) then 1 else 0;
    var i := IntLen(s[sign..]);
    if i == 0 then None else
      match FracLen(s[sign + i..])
      case None => None
      case Some(f) =>
        match ExpLen(s[sign + i + f..])
        case None => None
        case Some(e) => Some(Parsed(Number(s[..sign + i + f + e]), s[sign + i + f + e..]))
  }

  // ---------------------------------------------------------------------- values

  function Literal(s: Text, word: Text, v: Value): (r: Option<Parsed<Value>>)
    requires word != []
    ensures r.Some? ==> |r.value.rest| < |s|
  {
    if |word| <= |s| && s[..|word|] == word then Some(Parsed(v, s[|word|..])) else None
  }

  function ParseValue(input: Text): (r: Option<Parsed<Value>>)
    ensures r.Some? ==> |r.value.rest| < |input|
    decreases |input|, 1
  {
    var s := SkipSpace(input);
    if s == [] then None
    else if s[0] == OPEN_BRACE then
      if StartsWith(SkipSpace(s[1..]), CLOSE_BRACE) then Some(Parsed(Object([]), SkipSpace(s[1..])[1..]))
      else
        match ParseMembers(s[1..])
        case None => None
        case Some(p) => Some(Parsed(Object(p.value), p.rest))
    else if s[0] == OPEN_BRACKET then
      if StartsWith(SkipSpace(s[1..]), CLOSE_BRACKET) then Some(Parsed(Array([]), SkipSpace(s[1..])[1..]))
      else
        match ParseItems(s[1..])
        case None => None
        case Some(p) => Some(Parsed(Array(p.value), p.rest))
    else if s[0] == QUOTE then
      match UnquoteBody(s[1..])
      case None => None
      case Some(p) => Some(Parsed(Str(p.value), p.rest))
    else if s[0] == MINUS || IsDigit(s[0]) then ParseNumber(s)
    else if s[0] == 116 then Literal(s, [116, 114, 117, 101], Bool(true))
    else if s[0] == 102 then Literal(s, [102, 97, 108, 115, 101], Bool(false))
    else Literal(s, [110, 117, 108, 108], Null)
  }

  function ParseItems(s: Text): (r: Option<Parsed<seq<Value>>>)
    ensures r.Some? ==> |r.value.rest| < |s|
    decreases |s|, 2
  {
    match ParseValue(s)
    case None => None
    case Some(item) =>
      var after := SkipSpace(item.rest);
      if StartsWith(after, CLOSE_BRACKET) then Some(Parsed([item.value], after[1..]))
      else if !StartsWith(after, COMMA) then None
      else
        match ParseItems(after[1..])
        case None => None
        case Some(more) => Some(Parsed([item.value] + more.value, more.rest))
  }

  /** A key, a colon and a value. */
  function ParseMember(input: Text): (r: Option<Parsed<Member>>)
    ensures r.Some? ==> |r.value.rest| < |input|
    decreases |input|, 2
  {
    var s := SkipSpace(input);
    if !StartsWith(s, QUOTE) then None else
      match UnquoteBody(s[1..])
      case None => None
      case Some(key) =>
        var colon := SkipSpace(key.rest);
        if !StartsWith(colon, COLON) then None else
          match ParseValue(colon[1..])
          case None => None
          case Some(v) => Some(Parsed(Member(key.value, v.value), v.rest))
  }

  function ParseMembers(s: Text): (r: Option<Parsed<seq<Member>>>)
    ensures r.Some? ==> |r.value.rest| < |s|
    decreases |s|, 3
  {
    match ParseMember(s)
    case None => None
    case Some(m) =>
      var after := SkipSpace(m.rest);
      if StartsWith(after, CLOSE_BRACE) then Some(Parsed([m.value], after[1..]))
      else if !StartsWith(after, COMMA) then None
      else
        match ParseMembers(after[1..])
        case None => None
        case Some(more) => Some(Parsed([m.value] + more.value, more.rest))
  }

  /** A whole document: one value, then nothing but space. */
  function ParseDocument(s: Text): Option<Value> {
    match ParseValue(s)
    case None => None
    case Some(p) => if SkipSpace(p.rest) == [] then Some(p.value) else None
  }

  // --------------------------------------------------------------------- writing

  function Decimal(n: nat): (d: Text)
    ensures d != []
  {
    if n < 10 then [48 + n] else Decimal(n / 10) + [48 + n % 10]
  }

  function DecimalValue(d: Text): nat
    requires forall i :: 0 <= i < |d| ==> IsDigit(d[i])
  {
    if d == [] then 0 else
      assert IsDigit(d[|d| - 1]);
      DecimalValue(d[..|d| - 1]) * 10 + (d[|d| - 1] - 48)
  }

  /** Values whose numbers are natural numbers in decimal, at any depth. */
  ghost predicate Writable(v: Value) {
    match v
    case Number(digits) => exists n: nat :: digits == Decimal(n)
    case Array(items) => forall i :: 0 <= i < |items| ==> Writable(items[i])
    case Object(ms) => forall i :: 0 <= i < |ms| ==> Writable(ms[i].value)
    case _ => true
  }

  function WriteValue(v: Value): Text
    decreases v
  {
    match v
    case Null => [110, 117, 108, 108]
    case Bool(b) => if b then [116, 114, 117, 101] else [102, 97, 108, 115, 101]
    case Number(digits) => digits
    case Str(text) => Quote(text)
    case Array(items) => [OPEN_BRACKET] + (if items == [] then [CLOSE_BRACKET] else WriteItems(items))
    case Object(ms) => [OPEN_BRACE] + (if ms == [] then [CLOSE_BRACE] else WriteMembers(ms))
  }

  /** The items of an array, up to and including the closing bracket. */
  function WriteItems(items: seq<Value>): Text
    requires items != []
    decreases items
  {
    if |items| == 1 then WriteValue(items[0]) + [CLOSE_BRACKET]
    else WriteValue(items[0]) + [COMMA] + WriteItems(items[1..])
  }

  function WriteMember(m: Member): Text
    decreases m
  {
    Quote(m.key) + [COLON] + WriteValue(m.value)
  }

  function WriteMembers(ms: seq<Member>): Text
    requires ms != []
    decreases ms
  {
    if |ms| == 1 then WriteMember(ms[0]) + [CLOSE_BRACE]
    else WriteMember(ms[0]) + [COMMA] + WriteMembers(ms[1..])
  }

  // ------------------------------------------------------------------ round trip

  lemma {:induction false} DecimalDigits(n: nat)
    ensures forall i :: 0 <= i < |Decimal(n)| ==> IsDigit(Decimal(n)[i])
    ensures DecimalValue(Decimal(n)) == n
    ensures Decimal(n)[0] == ZERO ==> n == 0
    decreases n
  {
    if n >= 10 {
      DecimalDigits(n / 10);
      var d := Decimal(n);
      assert d[..|d| - 1] == Decimal(n / 10);
    }
  }

  lemma {:induction false} DigitRunAll(d: Text, rest: Text)
    requires forall i :: 0 <= i < |d| ==> IsDigit(d[i])
    requires rest != [] && !IsDigit(rest[0])
    ensures DigitRun(d + rest) == |d|
    decreases |d|
  {
    if d == [] {
      assert d + rest == rest;
    } else {
      DigitRunAll(d[1..], rest);
      assert (d + rest)[1..] == d[1..] + rest;
    }
  }

  predicate EndsScalar(rest: Text) {
    StartsWith(rest, COMMA) || StartsWith(rest, CLOSE_BRACE) || StartsWith(rest, CLOSE_BRACKET)
  }

  lemma IntLenDecimal(n: nat, rest: Text)
    requires EndsScalar(rest)
    ensures IntLen(Decimal(n) + rest) == |Decimal(n)|
  {
    DecimalDigits(n);
    DigitRunAll(Decimal(n), rest);
    if Decimal(n)[0] == ZERO {
      assert Decimal(0) == [ZERO];
    }
  }

  lemma NumberRoundTrip(n: nat, rest: Text)
    requires EndsScalar(rest)
    ensures ParseNumber(Decimal(n) + rest) == Some(Parsed(Number(Decimal(n)), rest))
  {
    var d := Decimal(n);
    var s := d + rest;
    DecimalDigits(n);
    assert IsDigit(d[0]) && s[0] == d[0];
    IntLenDecimal(n, rest);
    assert s[0..] == s && s[|d|..] == rest && s[..|d|] == d;
  }

  // One unfolding of the parser for each shape of input.

  lemma ParseStringValue(s: Text)
    requires StartsWith(s, QUOTE) && UnquoteBody(s[1..]).Some?
    ensures ParseValue(s) == Some(Parsed(Str(UnquoteBody(s[1..]).value.value), UnquoteBody(s[1..]).value.rest))
  {
  }

  lemma ParseNumberValue(s: Text)
    requires s != [] && IsDigit(s[0])
    ensures ParseValue(s) == ParseNumber(s)
  {
  }

  lemma ParseMemberParts(s: Text, key: Text, colon: Text, v: Value, rest: Text)
    requires StartsWith(s, QUOTE) && UnquoteBody(s[1..]) == Some(Parsed(key, colon))
    requires StartsWith(colon, COLON) && ParseValue(colon[1..]) == Some(Parsed(v, rest))
    ensures ParseMember(s) == Some(Parsed(Member(key, v), rest))
  {
  }

  lemma ParseLastMember(s: Text, m: Member, after: Text)
    requires ParseMember(s) == Some(Parsed(m, after)) && StartsWith(after, CLOSE_BRACE)
    ensures ParseMembers(s) == Some(Parsed([m], after[1..]))
  {
  }

  lemma ParseMoreMembers(s: Text, m: Member, after: Text, more: seq<Member>, rest: Text)
    requires ParseMember(s) == Some(Parsed(m, after)) && StartsWith(after, COMMA)
    requires ParseMembers(after[1..]) == Some(Parsed(more, rest))
    ensures ParseMembers(s) == Some(Parsed([m] + more, rest))
  {
  }

  lemma StringReads(text: Text, rest: Text)
    ensures StartsWith(Quote(text) + rest, QUOTE)
    ensures UnquoteBody((Quote(text) + rest)[1..]) == Some(Parsed(Clean(text), rest))
  {
    BodyReads(text, rest);
    BehindFirst(QUOTE, QuoteBody(text), QUOTE, rest);
  }

  lemma BehindFirst(a: Byte, body: Text, b: Byte, rest: Text)
    ensures ([a] + body + [b] + rest)[1..] == body + [b] + rest && StartsWith([a] + body + [b] + rest, a)
  {
    assert [a] + body + [b] + rest == [a] + (body + [b] + rest);
  }

  /** What values and members become by writing and reading: the same, up to bytes that are not UTF-8. */
  function CleanValue(v: Value): Value
    decreases v
  {
    match v
    case Str(text) => Str(Clean(text))
    case Array(items) => Array(CleanItems(items))
    case Object(ms) => Object(CleanMembers(ms))
    case _ => v
  }

  function CleanItems(items: seq<Value>): seq<Value>
    decreases items
  {
    if items == [] then [] else [CleanValue(items[0])] + CleanItems(items[1..])
  }

  function CleanMember(m: Member): Member
    decreases m
  {
    Member(Clean(m.key), CleanValue(m.value))
  }

  function CleanMembers(ms: seq<Member>): seq<Member>
    decreases ms
  {
    if ms == [] then [] else [CleanMember(ms[0])] + CleanMembers(ms[1..])
  }

  lemma CleanOneItem(items: seq<Value>)
    requires |items| == 1
    ensures CleanItems(items) == [CleanValue(items[0])]
  {
    assert items[1..] == [];
    assert CleanItems(items) == [CleanValue(items[0])] + CleanItems(items[1..]);
  }

  lemma CleanOneMember(ms: seq<Member>)
    requires |ms| == 1
    ensures CleanMembers(ms) == [CleanMember(ms[0])]
  {
    assert ms[1..] == [];
    assert CleanMembers(ms) == [CleanMember(ms[0])] + CleanMembers(ms[1..]);
  }

  ghost predicate AllItems(items: seq<Value>) {
    forall i :: 0 <= i < |items| ==> Writable(items[i])
  }

  ghost predicate Flat(ms: seq<Member>) {
    forall i :: 0 <= i < |ms| ==> Writable(ms[i].value)
  }

  // One unfolding of the parser for each shape of input.

  lemma ParseLiterals(rest: Text)
    ensures ParseValue([110, 117, 108, 108] + rest) == Some(Parsed(Null, rest))
    ensures ParseValue([116, 114, 117, 101] + rest) == Some(Parsed(Bool(true), rest))
    ensures ParseValue([102, 97, 108, 115, 101] + rest) == Some(Parsed(Bool(false), rest))
  {
    LiteralReads([110, 117, 108, 108], rest, Null);
    LiteralReads([116, 114, 117, 101], rest, Bool(true));
    LiteralReads([102, 97, 108, 115, 101], rest, Bool(false));
  }

  lemma LiteralReads(word: Text, rest: Text, v: Value)
    requires word != []
    ensures Literal(word + rest, word, v) == Some(Parsed(v, rest))
  {
    assert (word + rest)[..|word|] == word && (word + rest)[|word|..] == rest;
  }

  lemma ParseEmpty(rest: Text)
    ensures ParseValue([OPEN_BRACKET] + [CLOSE_BRACKET] + rest) == Some(Parsed(Array([]), rest))
    ensures ParseValue([OPEN_BRACE] + [CLOSE_BRACE] + rest) == Some(Parsed(Object([]), rest))
  {
    var a, o := [OPEN_BRACKET] + [CLOSE_BRACKET] + rest, [OPEN_BRACE] + [CLOSE_BRACE] + rest;
    assert a[1..] == [CLOSE_BRACKET] + rest && a[1..][1..] == rest;
    assert o[1..] == [CLOSE_BRACE] + rest && o[1..][1..] == rest;
  }

  lemma ParseArray(body: Text, items: seq<Value>, rest: Text)
    requires body != [] && !IsSpace(body[0]) && body[0] != CLOSE_BRACKET && ParseItems(body) == Some(Parsed(items, rest))
    ensures ParseValue([OPEN_BRACKET] + body) == Some(Parsed(Array(items), rest))
  {
    assert ([OPEN_BRACKET] + body)[1..] == body;
  }

  lemma ParseObject(body: Text, ms: seq<Member>, rest: Text)
    requires StartsWith(body, QUOTE) && ParseMembers(body) == Some(Parsed(ms, rest))
    ensures ParseValue([OPEN_BRACE] + body) == Some(Parsed(Object(ms), rest))
  {
    assert ([OPEN_BRACE] + body)[1..] == body;
  }

  lemma ParseLastItem(s: Text, v: Value, after: Text)
    requires ParseValue(s) == Some(Parsed(v, after)) && StartsWith(after, CLOSE_BRACKET)
    ensures ParseItems(s) == Some(Parsed([v], after[1..]))
  {
  }

  lemma ParseMoreItems(s: Text, v: Value, after: Text, more: seq<Value>, rest: Text)
    requires ParseValue(s) == Some(Parsed(v, after)) && StartsWith(after, COMMA)
    requires ParseItems(after[1..]) == Some(Parsed(more, rest))
    ensures ParseItems(s) == Some(Parsed([v] + more, rest))
  {
  }

  // Written values start with a character that tells what they are.

  lemma WrittenStart(v: Value)
    requires Writable(v)
    ensures WriteValue(v) != [] && !IsSpace(WriteValue(v)[0]) && WriteValue(v)[0] != CLOSE_BRACKET
  {
    if v.Number? {
      var n: nat :| v.digits == Decimal(n);
      DecimalDigits(n);
      assert IsDigit(Decimal(n)[0]);
    }
  }

  lemma WrittenItemsStart(items: seq<Value>)
    requires items != [] && AllItems(items)
    ensures WriteItems(items) != [] && !IsSpace(WriteItems(items)[0]) && WriteItems(items)[0] != CLOSE_BRACKET
  {
    WrittenStart(items[0]);
  }

  lemma WrittenMembersStart(ms: seq<Member>)
    requires ms != []
    ensures StartsWith(WriteMembers(ms), QUOTE)
  {
    assert StartsWith(WriteMember(ms[0]), QUOTE);
  }

  // ---------------------------------------------------------------- reading written values

  lemma NumberReads(v: Value, rest: Text)
    requires v.Number? && Writable(v) && EndsScalar(rest)
    ensures ParseValue(WriteValue(v) + rest) == Some(Parsed(v, rest))
  {
    var n: nat :| v.digits == Decimal(n);
    DecimalDigits(n);
    NumberRoundTrip(n, rest);
    assert IsDigit(Decimal(n)[0]);
    ParseNumberValue(Decimal(n) + rest);
  }

  /** Reading a written value gives it back, cleaned, whatever arrays and objects it is made of. */
  lemma {:induction false} ValueReads(v: Value, rest: Text)
    requires Writable(v) && EndsScalar(rest)
    ensures ParseValue(WriteValue(v) + rest) == Some(Parsed(CleanValue(v), rest))
    decreases v
  {
    match v
    case Null => ParseLiterals(rest);
    case Bool(b) => ParseLiterals(rest);
    case Number(_) => NumberReads(v, rest);
    case Str(text) =>
      StringReads(text, rest);
      ParseStringValue(Quote(text) + rest);
    case Array(items) =>
      if items == [] {
        ParseEmpty(rest);
      } else {
        ItemsRead(items, rest);
        ArrayReads(items, rest);
      }
    case Object(ms) =>
      if ms == [] {
        ParseEmpty(rest);
      } else {
        MembersRead(ms, rest);
        ObjectReads(ms, rest);
      }
  }

  lemma ArrayReads(items: seq<Value>, rest: Text)
    requires items != [] && AllItems(items) && ParseItems(WriteItems(items) + rest) == Some(Parsed(CleanItems(items), rest))
    ensures ParseValue([OPEN_BRACKET] + WriteItems(items) + rest) == Some(Parsed(Array(CleanItems(items)), rest))
  {
    WrittenItemsStart(items);
    assert [OPEN_BRACKET] + WriteItems(items) + rest == [OPEN_BRACKET] + (WriteItems(items) + rest);
    ParseArray(WriteItems(items) + rest, CleanItems(items), rest);
  }

  lemma ObjectReads(ms: seq<Member>, rest: Text)
    requires ms != [] && ParseMembers(WriteMembers(ms) + rest) == Some(Parsed(CleanMembers(ms), rest))
    ensures ParseValue([OPEN_BRACE] + WriteMembers(ms) + rest) == Some(Parsed(Object(CleanMembers(ms)), rest))
  {
    WrittenMembersStart(ms);
    assert [OPEN_BRACE] + WriteMembers(ms) + rest == [OPEN_BRACE] + (WriteMembers(ms) + rest);
    ParseObject(WriteMembers(ms) + rest, CleanMembers(ms), rest);
  }

  lemma {:induction false} ItemsRead(items: seq<Value>, rest: Text)
    requires items != [] && AllItems(items)
    ensures ParseItems(WriteItems(items) + rest) == Some(Parsed(CleanItems(items), rest))
    decreases items
  {
    var first := items[0];
    if |items| == 1 {
      ValueReads(first, [CLOSE_BRACKET] + rest);
      LastItemReads(WriteValue(first), CleanValue(first), rest);
      CleanOneItem(items);
    } else {
      ItemsRead(items[1..], rest);
      ValueReads(first, [COMMA] + (WriteItems(items[1..]) + rest));
      MoreItemsRead(WriteValue(first), CleanValue(first), CleanItems(items[1..]), WriteItems(items[1..]), rest);
    }
  }

  lemma CommaText(text: Text, later: Text, rest: Text)
    ensures text + [COMMA] + later + rest == text + ([COMMA] + (later + rest))
    ensures ([COMMA] + (later + rest))[1..] == later + rest && StartsWith([COMMA] + (later + rest), COMMA)
  {
  }

  lemma LastItemReads(text: Text, v: Value, rest: Text)
    requires ParseValue(text + ([CLOSE_BRACKET] + rest)) == Some(Parsed(v, [CLOSE_BRACKET] + rest))
    ensures ParseItems(text + [CLOSE_BRACKET] + rest) == Some(Parsed([v], rest))
  {
    var tail := [CLOSE_BRACKET] + rest;
    assert text + [CLOSE_BRACKET] + rest == text + tail && tail[1..] == rest;
    ParseLastItem(text + tail, v, tail);
  }

  lemma MoreItemsRead(text: Text, v: Value, more: seq<Value>, later: Text, rest: Text)
    requires ParseValue(text + ([COMMA] + (later + rest))) == Some(Parsed(v, [COMMA] + (later + rest)))
    requires ParseItems(later + rest) == Some(Parsed(more, rest))
    ensures ParseItems(text + [COMMA] + later + rest) == Some(Parsed([v] + more, rest))
  {
    var tail := [COMMA] + (later + rest);
    CommaText(text, later, rest);
    ParseMoreItems(text + tail, v, tail, more, rest);
  }

  lemma MemberText(key: Text, value: Text, rest: Text)
    ensures key + [COLON] + value + rest == key + ([COLON] + (value + rest))
    ensures ([COLON] + (value + rest))[1..] == value + rest && StartsWith([COLON] + (value + rest), COLON)
  {
  }

  lemma {:induction false} MemberReads(m: Member, rest: Text)
    requires Writable(m.value) && EndsScalar(rest)
    ensures ParseMember(WriteMember(m) + rest) == Some(Parsed(CleanMember(m), rest))
    decreases m
  {
    ValueReads(m.value, rest);
    KeyedReads(m.key, WriteValue(m.value), CleanValue(m.value), rest);
  }

  lemma KeyedReads(key: Text, text: Text, v: Value, rest: Text)
    requires ParseValue(text + rest) == Some(Parsed(v, rest))
    ensures ParseMember(Quote(key) + [COLON] + text + rest) == Some(Parsed(Member(Clean(key), v), rest))
  {
    var colon := [COLON] + (text + rest);
    MemberText(Quote(key), text, rest);
    StringReads(key, colon);
    ParseMemberParts(Quote(key) + colon, Clean(key), colon, v, rest);
  }

  lemma {:induction false} MembersRead(ms: seq<Member>, rest: Text)
    requires ms != [] && Flat(ms)
    ensures ParseMembers(WriteMembers(ms) + rest) == Some(Parsed(CleanMembers(ms), rest))
    decreases ms
  {
    var first := ms[0];
    if |ms| == 1 {
      MemberReads(first, [CLOSE_BRACE] + rest);
      LastMemberReads(WriteMember(first), CleanMember(first), rest);
      CleanOneMember(ms);
    } else {
      MembersRead(ms[1..], rest);
      MemberReads(first, [COMMA] + (WriteMembers(ms[1..]) + rest));
      MoreMembersRead(WriteMember(first), CleanMember(first), CleanMembers(ms[1..]), WriteMembers(ms[1..]), rest);
    }
  }

  lemma LastMemberReads(text: Text, m: Member, rest: Text)
    requires ParseMember(text + ([CLOSE_BRACE] + rest)) == Some(Parsed(m, [CLOSE_BRACE] + rest))
    ensures ParseMembers(text + [CLOSE_BRACE] + rest) == Some(Parsed([m], rest))
  {
    var tail := [CLOSE_BRACE] + rest;
    assert text + [CLOSE_BRACE] + rest == text + tail && tail[1..] == rest;
    ParseLastMember(text + tail, m, tail);
  }

  lemma MoreMembersRead(text: Text, m: Member, more: seq<Member>, later: Text, rest: Text)
    requires ParseMember(text + ([COMMA] + (later + rest))) == Some(Parsed(m, [COMMA] + (later + rest)))
    requires ParseMembers(later + rest) == Some(Parsed(more, rest))
    ensures ParseMembers(text + [COMMA] + later + rest) == Some(Parsed([m] + more, rest))
  {
    var tail := [COMMA] + (later + rest);
    CommaText(text, later, rest);
    ParseMoreMembers(text + tail, m, tail, more, rest);
  }

  /** Parsing a written object gives back its members, nested to any depth, cleaned. */
  lemma ObjectRoundTrip(ms: seq<Member>)
    requires Flat(ms) && ms != []
    ensures ParseDocument(WriteValue(Object(ms))) == Some(Object(CleanMembers(ms)))
  {
    MembersRead(ms, []);
    ObjectReads(ms, []);
    assert WriteMembers(ms) + [] == WriteMembers(ms);
    assert [OPEN_BRACE] + WriteMembers(ms) + [] == [OPEN_BRACE] + WriteMembers(ms);
  }

  // ------------------------------------------------------------------- white space

  lemma SkipsSpace(b: Byte, s: Text)
    requires IsSpace(b)
    ensures SkipSpace([b] + s) == SkipSpace(s)
  {
    assert ([b] + s)[1..] == s;
  }

  /** Space in front of a value does not count. */
  lemma SpaceInFront(b: Byte, s: Text)
    requires IsSpace(b)
    ensures ParseValue([b] + s) == ParseValue(s)
  {
    SkipsSpace(b, s);
  }
}
