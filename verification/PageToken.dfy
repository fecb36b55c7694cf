/** Page tokens: a magic number and the last seen key, as a JSON object in base64. */
module PageToken {
  import opened Results
  import opened Basics
  import opened Bytes
  import opened JsonText
  import opened JsonDoc
  import Base64

  const ID_MAGIC: nat := 3734103234
  const STRING_MAGIC: nat := 217668344

  // The field names "magic_number", "last_seen_id" and "last_seen_string".
  const MAGIC_KEY: Text := [109, 97, 103, 105, 99, 95, 110, 117, 109, 98, 101, 114]
  const ID_KEY: Text := [108, 97, 115, 116, 95, 115, 101, 101, 110, 95, 105, 100]
  const STRING_KEY: Text := [108, 97, 115, 116, 95, 115, 101, 101, 110, 95, 115, 116, 114, 105, 110, 103]

  datatype TokenError = BadBase64 | BadJson | BadMagic

  // -------------------------------------------------------------------- decoding

  /** Field names match up to case, where the Kelvin sign counts as a k and the long s as an s. */
  function Fold(key: Text): Text {
    if key == [] then []
    else if 65 <= key[0] <= 90 then [key[0] + 32] + Fold(key[1..])
    else if |key| >= 2 && key[0] == 0xC5 && key[1] == 0xBF then [115] + Fold(key[2..])
    else if |key| >= 3 && key[0] == 0xE2 && key[1] == 0x84 && key[2] == 0xAA then [107] + Fold(key[3..])
    else [key[0]] + Fold(key[1..])
  }

  /** A number that fits an unsigned 32-bit field. */
  function Uint32(d: Text): Option<nat> {
    if d != [] && (forall i :: 0 <= i < |d| ==> IsDigit(d[i])) && DecimalValue(d) < U32 then Some(DecimalValue(d)) else None
  }

  /** The value a numeric field ends up with: the last one wins, null changes nothing, any other type is an error. */
  function ReadNumber(ms: seq<Member>, key: Text): Option<nat> {
    if ms == [] then Some(0) else
      var m := ms[|ms| - 1];
      match ReadNumber(ms[..|ms| - 1], key)
      case None => None
      case Some(before) =>
        if Fold(m.key) != key || m.value.Null? then Some(before)
        else if m.value.Number? then Uint32(m.value.digits)
        else None
  }

  function ReadString(ms: seq<Member>, key: Text): Option<Text> {
    if ms == [] then Some([]) else
      var m := ms[|ms| - 1];
      match ReadString(ms[..|ms| - 1], key)
      case None => None
      case Some(before) =>
        if Fold(m.key) != key || m.value.Null? then Some(before)
        else if m.value.Str? then Some(m.value.text)
        else None
  }

  /** The members of the token's object; a null document is an object without any. */
  function OpenToken(token: Text): Result<seq<Member>, TokenError> {
    match Base64.Decode(token)
    case None => Err(BadBase64)
    case Some(doc) =>
      match ParseDocument(doc)
      case Some(Object(ms)) => Ok(ms)
      case Some(Null) => Ok([])
      case _ => Err(BadJson)
  }

  function IdFrom(ms: seq<Member>): Result<nat, TokenError> {
    match (ReadNumber(ms, MAGIC_KEY), ReadNumber(ms, ID_KEY))
    case (Some(magic), Some(id)) => if magic == ID_MAGIC then Ok(id) else Err(BadMagic)
    case _ => Err(BadJson)
  }

  function StringFrom(ms: seq<Member>): Result<Text, TokenError> {
    match (ReadNumber(ms, MAGIC_KEY), ReadString(ms, STRING_KEY))
    case (Some(magic), Some(text)) => if magic == STRING_MAGIC then Ok(text) else Err(BadMagic)
    case _ => Err(BadJson)
  }

  /** `toLastSeenId`. */
  function DecodeId(token: Option<Text>): Result<nat, TokenError> {
    if token.None? then Ok(0) else
      match OpenToken(token.value) case Err(e) => Err(e) case Ok(ms) => IdFrom(ms)
  }

  /** `toLastSeenString`. */
  function DecodeString(token: Option<Text>): Result<Text, TokenError> {
    if token.None? then Ok([]) else
      match OpenToken(token.value) case Err(e) => Err(e) case Ok(ms) => StringFrom(ms)
  }

  // -------------------------------------------------------------------- encoding

  function TokenOf(magic: nat, key: Text, value: Value): Text {
    Base64.Encode(WriteValue(Object([Member(MAGIC_KEY, Number(Decimal(magic))), Member(key, value)])))
  }

  /** `fromLastSeenId`. */
  function EncodeId(id: nat): Text {
    TokenOf(ID_MAGIC, ID_KEY, Number(Decimal(id)))
  }

  /** `fromLastSeenString`. */
  function EncodeString(text: Text): Text {
    TokenOf(STRING_MAGIC, STRING_KEY, Str(text))
  }

  // ------------------------------------------------------------------ round trip

  predicate PlainName(key: Text) {
    forall i :: 0 <= i < |key| ==> 95 <= key[i] <= 122
  }

  lemma {:induction false} PlainNameFacts(key: Text)
    requires PlainName(key)
    ensures Fold(key) == key && ValidUtf8(key)
    decreases |key|
  {
    if key != [] {
      PlainNameFacts(key[1..]);
      assert RuneLen(key) == 1;
    }
  }

  lemma KeyFacts()
    ensures PlainName(MAGIC_KEY) && PlainName(ID_KEY) && PlainName(STRING_KEY)
    ensures MAGIC_KEY[0] != ID_KEY[0] && MAGIC_KEY[0] != STRING_KEY[0]
    ensures MAGIC_KEY != ID_KEY && MAGIC_KEY != STRING_KEY && |ID_KEY| != |STRING_KEY|
  {
    assert MAGIC_KEY[0] == 109 && ID_KEY[0] == 108 && STRING_KEY[0] == 108;
  }

  lemma Names()
    ensures Fold(MAGIC_KEY) == MAGIC_KEY && Fold(ID_KEY) == ID_KEY && Fold(STRING_KEY) == STRING_KEY
    ensures MAGIC_KEY != ID_KEY && MAGIC_KEY != STRING_KEY
  {
    KeyFacts();
    PlainNameFacts(MAGIC_KEY);
    PlainNameFacts(ID_KEY);
    PlainNameFacts(STRING_KEY);
  }

  lemma DecimalFits(n: nat)
    ensures Uint32(Decimal(n)) == if n < U32 then Some(n) else None
  {
    DecimalDigits(n);
  }

  lemma OpenWritten(ms: seq<Member>)
    requires Flat(ms) && ms != []
    ensures OpenToken(Base64.Encode(WriteValue(Object(ms)))) == Ok(CleanMembers(ms))
  {
    ObjectRoundTrip(ms);
    Base64.RoundTrip(WriteValue(Object(ms)));
  }

  lemma CleanTwo(a: Member, b: Member)
    ensures CleanMembers([a, b]) == [CleanMember(a), CleanMember(b)]
  {
    var ms := [a, b];
    assert ms[1..] == [b];
    CleanOneMember([b]);
    assert CleanMembers(ms) == [CleanMember(a)] + CleanMembers(ms[1..]);
  }

  lemma OpenTwo(a: Member, b: Member)
    requires Writable(a.value) && Writable(b.value)
    ensures OpenToken(Base64.Encode(WriteValue(Object([a, b])))) == Ok([CleanMember(a), CleanMember(b)])
  {
    CleanTwo(a, b);
    OpenWritten([a, b]);
  }

  lemma NumberIsClean(n: nat, key: Text)
    requires PlainName(key)
    ensures Writable(Number(Decimal(n))) && CleanMember(Member(key, Number(Decimal(n)))) == Member(key, Number(Decimal(n)))
  {
    PlainNameFacts(key);
    CleanFixes(key);
  }

  /** Opening a token gives back the two members it was made of, a text cleaned. */
  lemma OpenRoundTrip(magic: nat, key: Text, value: Value)
    requires PlainName(key) && Writable(value)
    ensures OpenToken(TokenOf(magic, key, value)) == Ok([Member(MAGIC_KEY, Number(Decimal(magic))), Member(key, CleanValue(value))])
  {
    KeyFacts();
    NumberIsClean(magic, MAGIC_KEY);
    PlainNameFacts(key);
    CleanFixes(key);
    OpenTwo(Member(MAGIC_KEY, Number(Decimal(magic))), Member(key, value));
  }

  lemma ReadTwoNumbers(a: Member, b: Member, key: Text)
    ensures ReadNumber([a, b], key) ==
      match ReadNumber([a], key)
      case None => None
      case Some(before) =>
        if Fold(b.key) != key || b.value.Null? then Some(before)
        else if b.value.Number? then Uint32(b.value.digits) else None
  {
    assert [a, b][..1] == [a];
  }

  lemma ReadOneNumber(a: Member, key: Text)
    ensures ReadNumber([a], key) ==
      if Fold(a.key) != key || a.value.Null? then Some(0)
      else if a.value.Number? then Uint32(a.value.digits) else None
  {
    assert [a][..0] == [];
  }

  lemma ReadTwoStrings(a: Member, b: Member, key: Text)
    requires Fold(a.key) != key
    ensures ReadString([a, b], key) ==
      if Fold(b.key) != key || b.value.Null? then Some([])
      else if b.value.Str? then Some(b.value.text) else None
  {
    assert [a, b][..1] == [a] && [a][..0] == [];
    assert ReadString([a], key) == Some([]);
  }

  /** The magic number of a token is read back, whatever its other field is. */
  lemma ReadMagic(magic: nat, key: Text, value: Value)
    requires magic < U32 && Fold(key) == key && key != MAGIC_KEY
    ensures ReadNumber([Member(MAGIC_KEY, Number(Decimal(magic))), Member(key, value)], MAGIC_KEY) == Some(magic)
  {
    var a, b := Member(MAGIC_KEY, Number(Decimal(magic))), Member(key, value);
    Names();
    DecimalFits(magic);
    ReadOneNumber(a, MAGIC_KEY);
    ReadTwoNumbers(a, b, MAGIC_KEY);
  }

  /** What the id decoder makes of a magic number and one more field. */
  lemma IdFromTwo(magic: nat, key: Text, value: Value)
    requires magic < U32 && Fold(key) == key && key != MAGIC_KEY
    ensures var r := IdFrom([Member(MAGIC_KEY, Number(Decimal(magic))), Member(key, value)]);
      && (magic != ID_MAGIC && key != ID_KEY ==> r == Err(BadMagic))
      && (magic == ID_MAGIC && key == ID_KEY && value.Number? && Uint32(value.digits).Some? ==>
            r == Ok(Uint32(value.digits).value))
  {
    var a, b := Member(MAGIC_KEY, Number(Decimal(magic))), Member(key, value);
    Names();
    ReadMagic(magic, key, value);
    ReadOneNumber(a, ID_KEY);
    ReadTwoNumbers(a, b, ID_KEY);
  }

  /** What the string decoder makes of a magic number and one more field. */
  lemma StringFromTwo(magic: nat, key: Text, value: Value)
    requires magic < U32 && Fold(key) == key && key != MAGIC_KEY
    ensures var r := StringFrom([Member(MAGIC_KEY, Number(Decimal(magic))), Member(key, value)]);
      && (magic != STRING_MAGIC && key != STRING_KEY ==> r == Err(BadMagic))
      && (magic == STRING_MAGIC && key == STRING_KEY && value.Str? ==> r == Ok(value.text))
  {
    var a, b := Member(MAGIC_KEY, Number(Decimal(magic))), Member(key, value);
    Names();
    ReadMagic(magic, key, value);
    ReadTwoStrings(a, b, STRING_KEY);
  }

  /** Decoding an encoded id gives back every unsigned 32-bit number. */
  lemma IdRoundTrip(id: nat)
    requires id < U32
    ensures DecodeId(Some(EncodeId(id))) == Ok(id)
  {
    KeyFacts();
    Names();
    DecimalFits(id);
    OpenRoundTrip(ID_MAGIC, ID_KEY, Number(Decimal(id)));
    IdFromTwo(ID_MAGIC, ID_KEY, Number(Decimal(id)));
  }

  /** Decoding an encoded string gives back its cleaned text. */
  lemma StringTokenReads(text: Text)
    ensures DecodeString(Some(EncodeString(text))) == Ok(Clean(text))
  {
    KeyFacts();
    Names();
    OpenRoundTrip(STRING_MAGIC, STRING_KEY, Str(text));
    StringFromTwo(STRING_MAGIC, STRING_KEY, Str(Clean(text)));
  }

  /** Decoding an encoded string gives the string back if and only if it is valid UTF-8. */
  lemma StringTokenRoundTrip(text: Text)
    ensures DecodeString(Some(EncodeString(text))) == Ok(text) <==> ValidUtf8(text)
  {
    StringTokenReads(text);
    CleanFixes(text);
  }

  /** The id decoder rejects every string token, by its magic number. */
  lemma IdRejectsString(text: Text)
    ensures DecodeId(Some(EncodeString(text))) == Err(BadMagic)
  {
    KeyFacts();
    Names();
    OpenRoundTrip(STRING_MAGIC, STRING_KEY, Str(text));
    IdFromTwo(STRING_MAGIC, STRING_KEY, Str(Clean(text)));
  }

  /** The string decoder rejects id tokens, by their magic number. */
  lemma StringRejectsId(id: nat)
    ensures DecodeString(Some(EncodeId(id))) == Err(BadMagic)
  {
    KeyFacts();
    Names();
    OpenRoundTrip(ID_MAGIC, ID_KEY, Number(Decimal(id)));
    StringFromTwo(ID_MAGIC, ID_KEY, Number(Decimal(id)));
  }

  // ------------------------------------------------------------- what it looks like

  lemma KeysLookLike()
    ensures MAGIC_KEY == Ascii("magic_number") && ID_KEY == Ascii("last_seen_id") && STRING_KEY == Ascii("last_seen_string")
  {
  }

  lemma DecimalNext(n: nat, d: Text)
    requires n >= 10 && Decimal(n / 10) == d
    ensures Decimal(n) == d + [48 + n % 10]
  {
  }

  lemma IdMagicLooksLike()
    ensures Decimal(ID_MAGIC) == Ascii("3734103234")
  {
    assert Decimal(3) == [51];
    DecimalNext(37, [51]);
    DecimalNext(373, [51, 55]);
    DecimalNext(3734, [51, 55, 51]);
    DecimalNext(37341, [51, 55, 51, 52]);
    DecimalNext(373410, [51, 55, 51, 52, 49]);
    DecimalNext(3734103, [51, 55, 51, 52, 49, 48]);
    DecimalNext(37341032, [51, 55, 51, 52, 49, 48, 51]);
    DecimalNext(373410323, [51, 55, 51, 52, 49, 48, 51, 50]);
    DecimalNext(3734103234, [51, 55, 51, 52, 49, 48, 51, 50, 51]);
  }

  lemma StringMagicLooksLike()
    ensures Decimal(STRING_MAGIC) == Ascii("217668344")
  {
    assert Decimal(2) == [50];
    DecimalNext(21, [50]);
    DecimalNext(217, [50, 49]);
    DecimalNext(2176, [50, 49, 55]);
    DecimalNext(21766, [50, 49, 55, 54]);
    DecimalNext(217668, [50, 49, 55, 54, 54]);
    DecimalNext(2176683, [50, 49, 55, 54, 54, 56]);
    DecimalNext(21766834, [50, 49, 55, 54, 54, 56, 51]);
    DecimalNext(217668344, [50, 49, 55, 54, 54, 56, 51, 52]);
  }

  /** A plain name is written as it is. */
  lemma {:induction false} PlainNameQuotes(key: Text)
    requires PlainName(key)
    ensures QuoteBody(key) == key
    decreases |key|
  {
    if key != [] {
      assert RuneLen(key) == 1 && QuoteRune(key) == [key[0]];
      PlainNameQuotes(key[1..]);
      assert key == [key[0]] + key[1..];
    }
  }

  /** The JSON text of a token. */
  function TokenText(magic: Text, key: string, value: Text): Text {
    Ascii("{\"") + Ascii("magic_number") + Ascii("\":") + magic + Ascii(",\"") + Ascii(key) + Ascii("\":") + value + Ascii("}")
  }

  lemma WriteTwo(a: Member, b: Member)
    ensures WriteValue(Object([a, b])) == [OPEN_BRACE] + (WriteMember(a) + [COMMA] + (WriteMember(b) + [CLOSE_BRACE]))
  {
    var ms := [a, b];
    assert ms[1..] == [b];
    assert WriteMembers([b]) == WriteMember(b) + [CLOSE_BRACE];
  }

  lemma Punctuation()
    ensures Ascii("{\"") == [OPEN_BRACE, QUOTE] && Ascii("\":") == [QUOTE, COLON] && Ascii(",\"") == [COMMA, QUOTE] && Ascii("}") == [CLOSE_BRACE]
  {
  }

  lemma TokenPieces(first: Text, magic: Text, key: Text, value: Text)
    ensures [OPEN_BRACE] + (([QUOTE] + first + [QUOTE]) + [COLON] + magic + [COMMA] + (([QUOTE] + key + [QUOTE]) + [COLON] + value + [CLOSE_BRACE]))
         == [OPEN_BRACE, QUOTE] + first + [QUOTE, COLON] + magic + [COMMA, QUOTE] + key + [QUOTE, COLON] + value + [CLOSE_BRACE]
  {
  }

  lemma PlainMember(key: Text, value: Value)
    requires PlainName(key)
    ensures WriteMember(Member(key, value)) == [QUOTE] + key + [QUOTE] + [COLON] + WriteValue(value)
  {
    PlainNameQuotes(key);
  }

  lemma TokenWrites(magic: nat, key: string, value: Value)
    requires PlainName(Ascii(key))
    ensures WriteValue(Object([Member(MAGIC_KEY, Number(Decimal(magic))), Member(Ascii(key), value)]))
         == TokenText(Decimal(magic), key, WriteValue(value))
  {
    KeyFacts();
    KeysLookLike();
    WriteTwo(Member(MAGIC_KEY, Number(Decimal(magic))), Member(Ascii(key), value));
    PlainMember(MAGIC_KEY, Number(Decimal(magic)));
    PlainMember(Ascii(key), value);
    Punctuation();
    TokenPieces(MAGIC_KEY, Decimal(magic), Ascii(key), WriteValue(value));
  }

  /** An id token is the base64 of {"magic_number":3734103234,"last_seen_id":N}. */
  lemma IdTokenLooksLike(id: nat)
    ensures EncodeId(id) == Base64.Encode(TokenText(Ascii("3734103234"), "last_seen_id", Decimal(id)))
  {
    KeyFacts();
    KeysLookLike();
    IdMagicLooksLike();
    TokenWrites(ID_MAGIC, "last_seen_id", Number(Decimal(id)));
  }

  /** A string token is the base64 of {"magic_number":217668344,"last_seen_string":S}, with S quoted as JSON. */
  lemma StringTokenLooksLike(text: Text)
    ensures EncodeString(text) == Base64.Encode(TokenText(Ascii("217668344"), "last_seen_string", Quote(text)))
  {
    KeyFacts();
    KeysLookLike();
    StringMagicLooksLike();
    TokenWrites(STRING_MAGIC, "last_seen_string", Str(text));
  }

  // ---------------------------------------------------------- tokens made by others

  /** Field names match up to ASCII case. */
  lemma {:induction false} FoldsCase(key: Text)
    requires forall i :: 0 <= i < |key| ==> key[i] < 0x80
    ensures |Fold(key)| == |key|
    ensures forall i :: 0 <= i < |key| ==> Fold(key)[i] == if 'A' as int <= key[i] <= 'Z' as int then key[i] + 32 else key[i]
    decreases |key|
  {
    if key != [] {
      FoldsCase(key[1..]);
    }
  }

  /** Of several fields of one name the last one counts, a null counts for nothing, and a value that is no 32-bit number is an error. */
  lemma LastNumberCounts(ms: seq<Member>, m: Member, key: Text)
    requires ReadNumber(ms, key).Some?
    ensures Fold(m.key) != key ==> ReadNumber(ms + [m], key) == ReadNumber(ms, key)
    ensures Fold(m.key) == key && m.value == Null ==> ReadNumber(ms + [m], key) == ReadNumber(ms, key)
    ensures forall n: nat :: Fold(m.key) == key && m.value == Number(Decimal(n)) ==>
      ReadNumber(ms + [m], key) == if n < U32 then Some(n) else None
    ensures Fold(m.key) == key && (m.value.Str? || m.value.Bool? || m.value.Array? || m.value.Object?) ==> ReadNumber(ms + [m], key) == None
  {
    var all := ms + [m];
    assert all[..|all| - 1] == ms && all[|all| - 1] == m;
    forall n: nat ensures Uint32(Decimal(n)) == if n < U32 then Some(n) else None {
      DecimalFits(n);
    }
  }

  lemma LastStringCounts(ms: seq<Member>, m: Member, key: Text)
    requires ReadString(ms, key).Some?
    ensures Fold(m.key) != key ==> ReadString(ms + [m], key) == ReadString(ms, key)
    ensures Fold(m.key) == key && m.value == Null ==> ReadString(ms + [m], key) == ReadString(ms, key)
    ensures forall text :: Fold(m.key) == key && m.value == Str(text) ==> ReadString(ms + [m], key) == Some(text)
    ensures Fold(m.key) == key && (m.value.Number? || m.value.Bool? || m.value.Array? || m.value.Object?) ==> ReadString(ms + [m], key) == None
  {
    var all := ms + [m];
    assert all[..|all| - 1] == ms && all[|all| - 1] == m;
  }

  /** Whatever token is accepted carries the right magic number; one without is refused, an absent token starts at the beginning. */
  lemma AcceptedHasMagic(token: Text)
    ensures DecodeId(None) == Ok(0) && DecodeString(None) == Ok([])
    ensures DecodeId(Some(token)).Ok? ==> OpenToken(token).Ok? && ReadNumber(OpenToken(token).value, MAGIC_KEY) == Some(ID_MAGIC)
    ensures DecodeString(Some(token)).Ok? ==> OpenToken(token).Ok? && ReadNumber(OpenToken(token).value, MAGIC_KEY) == Some(STRING_MAGIC)
    ensures Base64.Decode(token).None? ==> DecodeId(Some(token)) == Err(BadBase64) && DecodeString(Some(token)) == Err(BadBase64)
  {
  }
}
