/** The padded base64 encoding of section 4 of RFC 4648, decoded the way Go's standard decoder does it. */
module Base64 {
  import opened Results
  import opened Bytes

  type Digit = d: int | 0 <= d < 64

  const PAD: Byte := 61
  const CR: Byte := 13
  const LF: Byte := 10

  function CharOf(d: Digit): Byte {
    if d < 26 then 65 + d
    else if d < 52 then 97 + (d - 26)
    else if d < 62 then 48 + (d - 52)
    else if d == 62 then 43 else 47
  }

  function DigitOf(c: Byte): Option<Digit> {
    if 65 <= c <= 90 then Some(c - 65)
    else if 97 <= c <= 122 then Some(c - 97 + 26)
    else if 48 <= c <= 57 then Some(c - 48 + 52)
    else if c == 43 then Some(62)
    else if c == 47 then Some(63)
    else None
  }

  function Quantum3(a: Byte, b: Byte, c: Byte): Text {
    [CharOf(a / 4), CharOf(a % 4 * 16 + b / 16), CharOf(b % 16 * 4 + c / 64), CharOf(c % 64)]
  }

  function Quantum2(a: Byte, b: Byte): Text {
    [CharOf(a / 4), CharOf(a % 4 * 16 + b / 16), CharOf(b % 16 * 4), PAD]
  }

  function Quantum1(a: Byte): Text {
    [CharOf(a / 4), CharOf(a % 4 * 16), PAD, PAD]
  }

  function Encode(s: Text): Text {
    if s == [] then []
    else if |s| == 1 then Quantum1(s[0])
    else if |s| == 2 then Quantum2(s[0], s[1])
    else Quantum3(s[0], s[1], s[2]) + Encode(s[3..])
  }

  /** Line breaks are ignored wherever they stand. */
  function DropBreaks(s: Text): Text {
    if s == [] then [] else (if s[0] == CR || s[0] == LF then [] else [s[0]]) + DropBreaks(s[1..])
  }

  /** Quanta of four characters; padding ends the input, and bits beyond the last byte are not looked at. */
  function DecodeQuanta(s: Text): Option<Text> {
    if s == [] then Some([])
    else if |s| < 4 then None
    else
      var d0, d1, d2, d3 := DigitOf(s[0]), DigitOf(s[1]), DigitOf(s[2]), DigitOf(s[3]);
      if d0.None? || d1.None? then None
      else
        var b0: Byte := d0.value * 4 + d1.value / 16;
        if s[2] == PAD then (if s[3] == PAD && |s| == 4 then Some([b0]) else None)
        else if d2.None? then None
        else
          var b1: Byte := d1.value % 16 * 16 + d2.value / 4;
          if s[3] == PAD then (if |s| == 4 then Some([b0, b1]) else None)
          else if d3.None? then None
          else
            match DecodeQuanta(s[4..])
            case None => None
            case Some(rest) => Some([b0, b1, d2.value % 4 * 64 + d3.value] + rest)
  }

  function Decode(s: Text): Option<Text> {
    DecodeQuanta(DropBreaks(s))
  }

  lemma DigitRoundTrip(d: Digit)
    ensures DigitOf(CharOf(d)) == Some(d) && CharOf(d) != PAD && CharOf(d) != CR && CharOf(d) != LF
  {
  }

  lemma DecodeQuantum1(a: Byte)
    ensures DecodeQuanta(Quantum1(a)) == Some([a])
  {
    DigitRoundTrip(a / 4);
    DigitRoundTrip(a % 4 * 16);
    assert a / 4 * 4 + a % 4 * 16 / 16 == a;
  }

  lemma DecodeQuantum2(a: Byte, b: Byte)
    ensures DecodeQuanta(Quantum2(a, b)) == Some([a, b])
  {
    var d1, d2 := a % 4 * 16 + b / 16, b % 16 * 4;
    DigitRoundTrip(a / 4);
    DigitRoundTrip(d1);
    DigitRoundTrip(d2);
    assert a / 4 * 4 + d1 / 16 == a;
    assert d1 % 16 * 16 + d2 / 4 == b;
  }

  lemma Bits3(a: Byte, b: Byte, c: Byte)
    ensures var d1, d2 := a % 4 * 16 + b / 16, b % 16 * 4 + c / 64;
      && a / 4 * 4 + d1 / 16 == a && d1 % 16 * 16 + d2 / 4 == b && d2 % 4 * 64 + c % 64 == c
  {
  }

  /** One full quantum, given by its digits and its bytes. */
  lemma DecodeDigits(d0: Digit, d1: Digit, d2: Digit, d3: Digit, a: Byte, b: Byte, c: Byte, q: Text, tail: Text)
    requires q == [CharOf(d0), CharOf(d1), CharOf(d2), CharOf(d3)]
    requires d0 * 4 + d1 / 16 == a && d1 % 16 * 16 + d2 / 4 == b && d2 % 4 * 64 + d3 == c
    ensures DecodeQuanta(q + tail) ==
              match DecodeQuanta(tail) case None => None case Some(rest) => Some([a, b, c] + rest)
  {
    DigitRoundTrip(d0);
    DigitRoundTrip(d1);
    DigitRoundTrip(d2);
    DigitRoundTrip(d3);
    assert (q + tail)[4..] == tail;
  }

  lemma DecodeQuantum3(a: Byte, b: Byte, c: Byte, tail: Text)
    ensures DecodeQuanta(Quantum3(a, b, c) + tail) ==
              match DecodeQuanta(tail) case None => None case Some(rest) => Some([a, b, c] + rest)
  {
    Bits3(a, b, c);
    DecodeDigits(a / 4, a % 4 * 16 + b / 16, b % 16 * 4 + c / 64, c % 64, a, b, c, Quantum3(a, b, c), tail);
  }

  lemma {:induction false} QuantaRoundTrip(s: Text)
    ensures DecodeQuanta(Encode(s)) == Some(s)
    decreases |s|
  {
    if s == [] {
    } else if |s| == 1 {
      DecodeQuantum1(s[0]);
      assert s == [s[0]];
    } else if |s| == 2 {
      DecodeQuantum2(s[0], s[1]);
      assert s == [s[0], s[1]];
    } else {
      QuantaRoundTrip(s[3..]);
      ThreeMore(s[0], s[1], s[2], s[3..]);
      assert s == [s[0], s[1], s[2]] + s[3..];
    }
  }

  lemma ThreeMore(a: Byte, b: Byte, c: Byte, rest: Text)
    requires DecodeQuanta(Encode(rest)) == Some(rest)
    ensures DecodeQuanta(Encode([a, b, c] + rest)) == Some([a, b, c] + rest)
  {
    DecodeQuantum3(a, b, c, Encode(rest));
    assert ([a, b, c] + rest)[3..] == rest;
  }

  predicate NoBreaks(s: Text) {
    forall i :: 0 <= i < |s| ==> s[i] != CR && s[i] != LF
  }

  lemma {:induction false} EncodeHasNoBreaks(s: Text)
    ensures NoBreaks(Encode(s))
    decreases |s|
  {
    if |s| >= 3 {
      EncodeHasNoBreaks(s[3..]);
    }
  }

  lemma {:induction false} DropNothing(s: Text)
    requires NoBreaks(s)
    ensures DropBreaks(s) == s
    decreases |s|
  {
    if s != [] {
      DropNothing(s[1..]);
    }
  }

  /** Decoding an encoding gives the bytes back. */
  lemma RoundTrip(s: Text)
    ensures Decode(Encode(s)) == Some(s)
  {
    EncodeHasNoBreaks(s);
    DropNothing(Encode(s));
    QuantaRoundTrip(s);
  }

  // ------------------------------------------------------------- what it looks like

  /** Table 1 of section 4 of RFC 4648. */
  lemma AlphabetIsStandard(d: Digit)
    ensures 0 <= d <= 25 ==> CharOf(d) == 'A' as int + d
    ensures 26 <= d <= 51 ==> CharOf(d) == 'a' as int + (d - 26)
    ensures 52 <= d <= 61 ==> CharOf(d) == '0' as int + (d - 52)
    ensures CharOf(62) == '+' as int && CharOf(63) == '/' as int && PAD == '=' as int
  {
  }

  /** Test vectors of section 10 of RFC 4648. */
  lemma Vectors()
    ensures Encode(Ascii("")) == [] && Encode(Ascii("f")) == Ascii("Zg==") && Encode(Ascii("fo")) == Ascii("Zm8=")
  {
    assert Ascii("f") == [102] && Ascii("fo") == [102, 111];
  }

  lemma LongVectors()
    ensures Encode(Ascii("foo")) == Ascii("Zm9v") && Encode(Ascii("foob")) == Ascii("Zm9v") + Ascii("Yg==")
  {
    var foo, foob := Ascii("foo"), Ascii("foob");
    assert foo == [102, 111, 111] && foo[3..] == [] && foob == [102, 111, 111, 98] && foob[3..] == [98];
    assert Quantum3(102, 111, 111) == Ascii("Zm9v") && Encode([98]) == Ascii("Yg==");
  }

  lemma {:induction false} DropBreaksJoins(a: Text, b: Text)
    ensures DropBreaks(a + b) == DropBreaks(a) + DropBreaks(b)
    decreases |a|
  {
    if a == [] {
      assert a + b == b;
    } else {
      assert (a + b)[0] == a[0] && (a + b)[1..] == a[1..] + b;
      DropBreaksJoins(a[1..], b);
    }
  }

  /** A line break anywhere in the input changes nothing. */
  lemma BreaksAreIgnored(a: Text, br: Byte, b: Text)
    requires br == CR || br == LF
    ensures Decode(a + [br] + b) == Decode(a + b)
  {
    DropBreaksJoins(a + [br], b);
    DropBreaksJoins(a, [br]);
    DropBreaksJoins(a, b);
    assert [br][1..] == [] && DropBreaks([br]) == [];
    assert DropBreaks(a) + [] == DropBreaks(a);
  }

  /** What is accepted comes in fours, from the alphabet, with padding only at the very end. */
  lemma {:induction false} AcceptedShape(s: Text)
    requires DecodeQuanta(s).Some?
    ensures |s| % 4 == 0
    ensures forall i :: 0 <= i < |s| ==> DigitOf(s[i]).Some? || (s[i] == PAD && |s| - 2 <= i)
    decreases |s|
  {
    if s != [] && s[2] != PAD && s[3] != PAD {
      AcceptedShape(s[4..]);
      forall i | 4 <= i < |s| ensures DigitOf(s[i]).Some? || (s[i] == PAD && |s| - 2 <= i) {
        assert s[4..][i - 4] == s[i];
      }
    }
  }
}
