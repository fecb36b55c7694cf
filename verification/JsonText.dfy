/**
 JSON strings as Go writes and reads them: escaping as in section 7 of RFC 8259, with the extra escapes that keep the
 text safe inside HTML, and UTF-8 as in section 4 of RFC 3629.
 */
module JsonText {
  import opened Results
  import opened Bytes

  const QUOTE: Byte := 34
  const BACKSLASH: Byte := 92

  predicate Between(lo: Byte, b: Byte, hi: Byte) {
    lo <= b <= hi
  }

  predicate Cont(s: Text, i: nat) {
    i < |s| && Between(0x80, s[i], 0xBF)
  }

  /** The length of the UTF-8 sequence at the start of `s`; 0 when there is none. */
  function RuneLen(s: Text): (n: nat)
    ensures n <= |s| && n <= 4
  {
    if s == [] then 0
    else if s[0] < 0x80 then 1
    else if |s| < 2 then 0
    else if Between(0xC2, s[0], 0xDF) then (if Cont(s, 1) then 2 else 0)
    else if Between(0xE0, s[0], 0xEF) then
      (if (if s[0] == 0xE0 then Between(0xA0, s[1], 0xBF)
           else if s[0] == 0xED then Between(0x80, s[1], 0x9F)
           else Cont(s, 1)) && Cont(s, 2) then 3 else 0)
    else if Between(0xF0, s[0], 0xF4) then
      (if (if s[0] == 0xF0 then Between(0x90, s[1], 0xBF)
           else if s[0] == 0xF4 then Between(0x80, s[1], 0x8F)
           else Cont(s, 1)) && Cont(s, 2) && Cont(s, 3) then 4 else 0)
    else 0
  }

  predicate ValidUtf8(s: Text) {
    s == [] || (RuneLen(s) > 0 && ValidUtf8(s[RuneLen(s)..]))
  }

  function EncodeRune(r: nat): Text
    requires r < 0x110000
  {
    if r < 0x80 then [r]
    else if r < 0x800 then [0xC0 + r / 64, 0x80 + r % 64]
    else if r < 0x10000 then
      (if 0xD800 <= r < 0xE000 then REPLACEMENT else [0xE0 + r / 4096, 0x80 + r / 64 % 64, 0x80 + r % 64])
    else [0xF0 + r / 262144, 0x80 + r / 4096 % 64, 0x80 + r / 64 % 64, 0x80 + r % 64]
  }

  const REPLACEMENT: Text := [0xEF, 0xBF, 0xBD]

  // --------------------------------------------------------------------- writing

  function HexDigit(d: nat): Byte
    requires d < 16
  {
    if d < 10 then 48 + d else 97 + (d - 10)
  }

  /** A backslash, `u`, and four hexadecimal digits. */
  function UnicodeEscape(r: nat): Text
    requires r < 0x10000
  {
    [BACKSLASH, 117, HexDigit(r / 4096), HexDigit(r / 256 % 16), HexDigit(r / 16 % 16), HexDigit(r % 16)]
  }

  /** The letter of a two-character escape, if the byte has one. */
  function ShortEscape(b: Byte): Option<Byte> {
    if b == QUOTE || b == BACKSLASH then Some(b)
    else if b == 8 then Some(98)
    else if b == 9 then Some(116)
    else if b == 10 then Some(110)
    else if b == 12 then Some(102)
    else if b == 13 then Some(114)
    else None
  }

  function QuoteAscii(b: Byte): Text
    requires b < 0x80
  {
    if ShortEscape(b).Some? then [BACKSLASH, ShortEscape(b).value]
    else if b < 0x20 || b == 60 || b == 62 || b == 38 then UnicodeEscape(b)
    else [b]
  }

  predicate IsLineSeparator(s: Text) {
    |s| >= 3 && s[0] == 0xE2 && s[1] == 0x80 && (s[2] == 0xA8 || s[2] == 0xA9)
  }

  /** What is written for the first sequence of `s`. */
  function QuoteRune(s: Text): Text
    requires s != []
  {
    if RuneLen(s) == 0 then UnicodeEscape(0xFFFD)
    else if RuneLen(s) == 1 then QuoteAscii(s[0])
    else if IsLineSeparator(s) then UnicodeEscape(if s[2] == 0xA8 then 0x2028 else 0x2029)
    else s[..RuneLen(s)]
  }

  function RuneStep(s: Text): (n: nat)
    requires s != []
    ensures 1 <= n <= |s|
  {
    if RuneLen(s) == 0 then 1 else RuneLen(s)
  }

  function QuoteBody(s: Text): Text {
    if s == [] then [] else QuoteRune(s) + QuoteBody(s[RuneStep(s)..])
  }

  function Quote(s: Text): Text {
    [QUOTE] + QuoteBody(s) + [QUOTE]
  }

  // --------------------------------------------------------------------- reading

  function HexValue(b: Byte): Option<nat> {
    if 48 <= b <= 57 then Some(b - 48)
    else if 97 <= b <= 102 then Some(b - 97 + 10)
    else if 65 <= b <= 70 then Some(b - 65 + 10)
    else None
  }

  /** The value of `\uXXXX` at the start of `s`. */
  function UnicodeValue(s: Text): (r: Option<nat>)
    ensures r.Some? ==> r.value < 0x10000 && |s| >= 6
  {
    if |s| < 6 || s[0] != BACKSLASH || s[1] != 117 then None else
      var a, b, c, d := HexValue(s[2]), HexValue(s[3]), HexValue(s[4]), HexValue(s[5]);
      if a.None? || b.None? || c.None? || d.None? then None
      else Some(a.value * 4096 + b.value * 256 + c.value * 16 + d.value)
  }

  function UnescapeShort(b: Byte): Option<Byte> {
    if b == QUOTE || b == BACKSLASH || b == 47 then Some(b)
    else if b == 98 then Some(8)
    else if b == 116 then Some(9)
    else if b == 110 then Some(10)
    else if b == 102 then Some(12)
    else if b == 114 then Some(13)
    else None
  }

  /** One decoded piece of a string body and how many bytes it took; none at a syntax error. */
  datatype Piece = Piece(text: Text, used: nat)

  function UnquoteEscape(s: Text): (p: Option<Piece>)
    requires s != [] && s[0] == BACKSLASH
    ensures p.Some? ==> 1 <= p.value.used <= |s|
  {
    if |s| < 2 then None
    else if s[1] == 117 then
      match UnicodeValue(s)
      case None => None
      case Some(r) =>
        if 0xD800 <= r < 0xDC00 && UnicodeValue(s[6..]).Some? && 0xDC00 <= UnicodeValue(s[6..]).value < 0xE000 then
          Some(Piece(EncodeRune(0x10000 + (r - 0xD800) * 1024 + (UnicodeValue(s[6..]).value - 0xDC00)), 12))
        else Some(Piece(EncodeRune(r), 6))
    else
      match UnescapeShort(s[1])
      case None => None
      case Some(b) => Some(Piece([b], 2))
  }

  function UnquotePiece(s: Text): (p: Option<Piece>)
    requires s != [] && s[0] != QUOTE
    ensures p.Some? ==> 1 <= p.value.used <= |s|
  {
    if s[0] == BACKSLASH then UnquoteEscape(s)
    else if s[0] < 0x20 then None
    else if RuneLen(s) == 0 then Some(Piece(REPLACEMENT, 1))
    else Some(Piece(s[..RuneLen(s)], RuneLen(s)))
  }

  /** A parsed value and the input behind it. */
  datatype Parsed<T> = Parsed(value: T, rest: Text)

  /** The body of a string up to and including its closing quote. */
  function UnquoteBody(s: Text): (r: Option<Parsed<Text>>)
    ensures r.Some? ==> |r.value.rest| < |s|
  {
    if s == [] then None
    else if s[0] == QUOTE then Some(Parsed([], s[1..]))
    else
      match UnquotePiece(s)
      case None => None
      case Some(p) =>
        match UnquoteBody(s[p.used..])
        case None => None
        case Some(more) => Some(Parsed(p.text + more.value, more.rest))
  }

  // ------------------------------------------------------------------ round trip

  /** What the first sequence of `s` becomes by writing and reading: itself, or the replacement character for a byte that starts none. */
  function CleanRune(s: Text): Text
    requires s != []
  {
    if RuneLen(s) == 0 then REPLACEMENT else s[..RuneLen(s)]
  }

  /** A text with every byte that is not part of a UTF-8 sequence replaced. */
  function Clean(s: Text): Text {
    if s == [] then [] else CleanRune(s) + Clean(s[RuneStep(s)..])
  }

  /** Cleaning never shortens a text, and leaves it alone if and only if it is valid UTF-8. */
  lemma {:induction false} CleanFixes(s: Text)
    ensures |s| <= |Clean(s)|
    ensures Clean(s) == s <==> ValidUtf8(s)
    ensures |s| == |Clean(s)| ==> ValidUtf8(s)
    decreases |s|
  {
    if s != [] {
      CleanFixes(s[RuneStep(s)..]);
      SplitAt(s, RuneStep(s));
    }
  }

  /** The length of a sequence is decided by its own bytes. */
  lemma RuneLenPrefix(s: Text, tail: Text)
    requires RuneLen(s) > 0
    ensures RuneLen(s[..RuneLen(s)] + tail) == RuneLen(s)
  {
    var n := RuneLen(s);
    var t := s[..n] + tail;
    assert forall i :: 0 <= i < n ==> t[i] == s[i];
  }

  lemma HexDigitRoundTrip(d: nat)
    requires d < 16
    ensures HexValue(HexDigit(d)) == Some(d)
  {
  }

  lemma FourDigits(r: nat)
    requires r < 0x10000
    ensures r == r / 4096 * 4096 + r / 256 % 16 * 256 + r / 16 % 16 * 16 + r % 16
  {
    assert r / 256 == r / 16 / 16 && r / 4096 == r / 256 / 16;
  }

  lemma HexRoundTrip(r: nat, tail: Text)
    requires r < 0x10000
    ensures UnicodeValue(UnicodeEscape(r) + tail) == Some(r)
  {
    HexDigitRoundTrip(r / 4096);
    HexDigitRoundTrip(r / 256 % 16);
    HexDigitRoundTrip(r / 16 % 16);
    HexDigitRoundTrip(r % 16);
    FourDigits(r);
  }

  lemma EscapeRoundTrip(r: nat, tail: Text)
    requires r < 0xD800 || 0xE000 <= r < 0x10000
    ensures UnquotePiece(UnicodeEscape(r) + tail) == Some(Piece(EncodeRune(r), 6))
  {
    HexRoundTrip(r, tail);
  }

  lemma AsciiRoundTrip(b: Byte, tail: Text)
    requires b < 0x80
    ensures QuoteAscii(b) != [] && QuoteAscii(b)[0] != QUOTE
    ensures UnquotePiece(QuoteAscii(b) + tail) == Some(Piece([b], |QuoteAscii(b)|))
  {
    if ShortEscape(b).Some? {
    } else if b < 0x20 || b == 60 || b == 62 || b == 38 {
      EscapeRoundTrip(b, tail);
    } else {
      assert ([b] + tail)[..1] == [b];
    }
  }

  lemma SeparatorRoundTrip(s: Text, tail: Text)
    requires IsLineSeparator(s)
    ensures UnquotePiece(UnicodeEscape(if s[2] == 0xA8 then 0x2028 else 0x2029) + tail) == Some(Piece(s[..3], 6))
  {
    EscapeRoundTrip(if s[2] == 0xA8 then 0x2028 else 0x2029, tail);
    EncodeSeparators();
    assert s[..3] == [0xE2, 0x80, s[2]];
  }

  lemma EncodeSeparators()
    ensures EncodeRune(0x2028) == [0xE2, 0x80, 0xA8] && EncodeRune(0x2029) == [0xE2, 0x80, 0xA9]
  {
  }

  lemma RawRoundTrip(s: Text, tail: Text)
    requires RuneLen(s) > 1
    ensures UnquotePiece(s[..RuneLen(s)] + tail) == Some(Piece(s[..RuneLen(s)], RuneLen(s)))
  {
    var n := RuneLen(s);
    RuneLenPrefix(s, tail);
    assert (s[..n] + tail)[..n] == s[..n];
  }

  lemma InvalidRoundTrip(tail: Text)
    ensures UnquotePiece(UnicodeEscape(0xFFFD) + tail) == Some(Piece(REPLACEMENT, 6))
  {
    EscapeRoundTrip(0xFFFD, tail);
    EncodeReplacement();
  }

  lemma EncodeReplacement()
    ensures EncodeRune(0xFFFD) == REPLACEMENT
  {
  }

  /** Reading back what was written for one sequence. */
  lemma RuneRoundTrip(s: Text, tail: Text)
    requires s != []
    ensures QuoteRune(s) != [] && QuoteRune(s)[0] != QUOTE
    ensures UnquotePiece(QuoteRune(s) + tail) == Some(Piece(CleanRune(s), |QuoteRune(s)|))
  {
    if RuneLen(s) == 0 {
      InvalidRoundTrip(tail);
    } else if RuneLen(s) == 1 {
      AsciiRoundTrip(s[0], tail);
      assert s[..1] == [s[0]];
    } else if IsLineSeparator(s) {
      SeparatorRoundTrip(s, tail);
    } else {
      RawRoundTrip(s, tail);
    }
  }

  lemma UnquoteStep(q: Text, tail: Text, text: Text)
    requires q != [] && q[0] != QUOTE && UnquotePiece(q + tail) == Some(Piece(text, |q|)) && UnquoteBody(tail).Some?
    ensures UnquoteBody(q + tail) == Some(Parsed(text + UnquoteBody(tail).value.value, UnquoteBody(tail).value.rest))
  {
    assert (q + tail)[|q|..] == tail;
  }

  lemma Regroup(a: Text, b: Text, c: Text, d: Text)
    ensures (a + b) + c + d == a + (b + c + d)
  {
  }

  /** Reading a quoted string gives back the cleaned text, whatever the bytes. */
  lemma {:induction false} BodyReads(s: Text, rest: Text)
    ensures UnquoteBody(QuoteBody(s) + [QUOTE] + rest) == Some(Parsed(Clean(s), rest))
    decreases |s|
  {
    if s == [] {
      assert QuoteBody(s) + [QUOTE] + rest == [QUOTE] + rest;
    } else {
      var n := RuneStep(s);
      BodyReads(s[n..], rest);
      RuneRoundTrip(s, QuoteBody(s[n..]) + [QUOTE] + rest);
      Assemble(QuoteRune(s), QuoteBody(s[n..]), CleanRune(s), Clean(s[n..]), rest);
      QuoteBodyStep(s);
    }
  }

  /** Reading a quoted string gives back the string if and only if it is valid UTF-8. */
  lemma BodyRoundTrip(s: Text, rest: Text)
    ensures UnquoteBody(QuoteBody(s) + [QUOTE] + rest) == Some(Parsed(s, rest)) <==> ValidUtf8(s)
  {
    BodyReads(s, rest);
    CleanFixes(s);
  }

  lemma SplitAt(s: Text, n: nat)
    requires n <= |s|
    ensures s[..n] + s[n..] == s
  {
  }

  lemma Assemble(q: Text, body: Text, first: Text, later: Text, rest: Text)
    requires q != [] && q[0] != QUOTE && UnquotePiece(q + (body + [QUOTE] + rest)) == Some(Piece(first, |q|))
    requires UnquoteBody(body + [QUOTE] + rest) == Some(Parsed(later, rest))
    ensures UnquoteBody(q + body + [QUOTE] + rest) == Some(Parsed(first + later, rest))
  {
    Regroup(q, body, [QUOTE], rest);
    UnquoteStep(q, body + [QUOTE] + rest, first);
  }

  lemma QuoteBodyStep(s: Text)
    requires s != []
    ensures QuoteBody(s) == QuoteRune(s) + QuoteBody(s[RuneStep(s)..])
  {
  }

  // ------------------------------------------------------------- what it looks like

  /** Quotes, backslashes and control characters are escaped, and so are the characters that are special in HTML. */
  lemma EscapesLookLike()
    ensures QuoteAscii(34) == Ascii("\\\"") && QuoteAscii(92) == Ascii("\\\\") && QuoteAscii(10) == Ascii("\\n") && QuoteAscii(97) == Ascii("a")
  {
  }

  lemma UnicodeEscapesLookLike()
    ensures QuoteAscii(1) == Ascii("\\u0001") && QuoteAscii(60) == Ascii("\\u003c") && QuoteAscii(38) == Ascii("\\u0026")
  {
  }

  /** A slash may be escaped, other letters may not, control characters are refused, stray bytes are replaced. */
  lemma UnescapesLookLike()
    ensures UnquotePiece(Ascii("\\/")) == Some(Piece([47], 2)) && UnquotePiece(Ascii("\\x")) == None
    ensures UnquotePiece([10]) == None && UnquotePiece([0xFF]) == Some(Piece(REPLACEMENT, 1))
  {
    assert Ascii("\\/") == [92, 47] && Ascii("\\x") == [92, 120];
  }

  /** Two escaped surrogates make one character; a high one without a low one is replaced. */
  lemma SurrogatePair(hi: nat, lo: nat, tail: Text)
    requires 0xD800 <= hi < 0xDC00 && lo < 0x10000
    ensures UnquotePiece(UnicodeEscape(hi) + (UnicodeEscape(lo) + tail)) ==
      Some(if 0xDC00 <= lo < 0xE000 then Piece(EncodeRune(0x10000 + (hi - 0xD800) * 0x400 + (lo - 0xDC00)), 12) else Piece(REPLACEMENT, 6))
  {
    var s := UnicodeEscape(hi) + (UnicodeEscape(lo) + tail);
    HexRoundTrip(lo, tail);
    HexRoundTrip(hi, UnicodeEscape(lo) + tail);
    assert s[6..] == UnicodeEscape(lo) + tail;
    assert EncodeRune(hi) == REPLACEMENT;
  }

  lemma GrinningFace()
    ensures EncodeRune(0x10000 + (0xD83D - 0xD800) * 0x400 + (0xDE00 - 0xDC00)) == [0xF0, 0x9F, 0x98, 0x80]
  {
  }
}
