/** Quoted-printable bodies, section 6.7 of RFC 2045: the decoder, and every encoder it undoes. */
module QuotedPrintable {
  import opened Common

  const EQUALS: Byte := 0x3D
  const CR: Byte := 0x0D
  const LF: Byte := 0x0A

  datatype DecodeError = Truncated | InvalidEscape

  function HexValue(value: Byte): Option<nat> {
    if 0x30 <= value <= 0x39 then Some(value - 0x30)
    else if 0x61 <= value <= 0x66 then Some(value - 0x61 + 10)
    else if 0x41 <= value <= 0x46 then Some(value - 0x41 + 10)
    else None
  }

  function Prepend(prefix: Bytes, rest: Result<Bytes, DecodeError>): Result<Bytes, DecodeError> {
    match rest
    case Ok(bytes) => Ok(prefix + bytes)
    case Err(error) => Err(error)
  }

  function Decode(body: Bytes): Result<Bytes, DecodeError> {
    if body == [] then Ok([])
    else if body[0] != EQUALS then Prepend([body[0]], Decode(body[1..]))
    else if |body| > 2 && body[1] == CR && body[2] == LF then Decode(body[3..])
    else if |body| > 1 && body[1] == LF then Decode(body[2..])
    else if |body| <= 2 then Err(Truncated)
    else
      match (HexValue(body[1]), HexValue(body[2]))
      case (Some(high), Some(low)) => Prepend([16 * high + low], Decode(body[3..]))
      case _ => Err(InvalidEscape)
  }

  method DecodeQuotedPrintable(body: Bytes) returns (r: Result<Bytes, DecodeError>)
    ensures r == Decode(body)
  {
    var output: Bytes := [];
    var index := 0;
    assert body[0..] == body;
    OutputPrefix([], [], Decode(body));
    while index < |body|
      invariant index <= |body| && Decode(body) == Prepend(output, Decode(body[index..]))
    {
      var rest := body[index..];
      if body[index] == EQUALS {
        if index + 2 < |body| && body[index + 1] == CR && body[index + 2] == LF {
          assert rest[3..] == body[index + 3..];
          index := index + 3;
          continue;
        }
        if index + 1 < |body| && body[index + 1] == LF {
          assert rest[2..] == body[index + 2..];
          index := index + 2;
          continue;
        }
        if index + 2 >= |body| {
          return Err(Truncated);
        }
        var high, low := HexValue(body[index + 1]), HexValue(body[index + 2]);
        if high.None? || low.None? {
          return Err(InvalidEscape);
        }
        assert rest[3..] == body[index + 3..];
        OutputPrefix(output, [16 * high.value + low.value], Decode(body[index + 3..]));
        output := output + [16 * high.value + low.value];
        index := index + 3;
      } else {
        assert rest[1..] == body[index + 1..];
        OutputPrefix(output, [body[index]], Decode(body[index + 1..]));
        output := output + [body[index]];
        index := index + 1;
      }
    }
    assert body[index..] == [] && output + [] == output;
    return Ok(output);
  }

  lemma OutputPrefix(a: Bytes, b: Bytes, r: Result<Bytes, DecodeError>)
    ensures Prepend(a, Prepend(b, r)) == Prepend(a + b, r) && Prepend([], r) == r
  {
    if r.Ok? {
      assert a + (b + r.value) == (a + b) + r.value && [] + r.value == r.value;
    }
  }

  // ---- The encoders.

  /**
   * An encoder passes a byte through or escapes it, in digits of either case, and may break the line anywhere.
   * Its output is stated from the payload, without the decoder's table of digits.
   */
  datatype Unit = Literal(byte: Byte) | Escape(byte: Byte, upperHigh: bool, upperLow: bool) | SoftBreak(crlf: bool)

  predicate UnitOk(u: Unit) {
    u.Literal? ==> u.byte != 0x3D
  }

  predicate UnitsOk(us: seq<Unit>) {
    forall u | u in us :: UnitOk(u)
  }

  function HexDigit(n: nat, upper: bool): Byte
    requires n < 16
  {
    (if upper then "0123456789ABCDEF" else "0123456789abcdef")[n] as int
  }

  function EncodeUnit(u: Unit): Bytes {
    match u
    case Literal(byte) => [byte]
    case Escape(byte, upperHigh, upperLow) => [0x3D, HexDigit(byte / 16, upperHigh), HexDigit(byte % 16, upperLow)]
    case SoftBreak(crlf) => if crlf then [0x3D, 0x0D, 0x0A] else [0x3D, 0x0A]
  }

  function UnitPayload(u: Unit): Bytes {
    match u
    case Literal(byte) => [byte]
    case Escape(byte, _, _) => [byte]
    case SoftBreak(_) => []
  }

  function Encode(us: seq<Unit>): Bytes {
    if us == [] then [] else EncodeUnit(us[0]) + Encode(us[1..])
  }

  function Payload(us: seq<Unit>): Bytes {
    if us == [] then [] else UnitPayload(us[0]) + Payload(us[1..])
  }

  /** The decoder's table of digits inverts the encoder's two alphabets, and knows no other digit. */
  lemma DigitsInvert(n: nat, upper: bool)
    requires n < 16
    ensures HexValue(HexDigit(n, upper)) == Some(n) && HexDigit(n, upper) != 0x0A && HexDigit(n, upper) != 0x0D
  {
    var lower, capital := "0123456789abcdef", "0123456789ABCDEF";
    assert n < 10 ==> lower[n] as int == 0x30 + n == capital[n] as int;
    assert n >= 10 ==> lower[n] as int == 0x57 + n && capital[n] as int == 0x37 + n;
  }

  lemma DigitOf(value: Byte) returns (n: nat, upper: bool)
    requires HexValue(value).Some?
    ensures n < 16 && n == HexValue(value).value && HexDigit(n, upper) == value
  {
    n, upper := HexValue(value).value, value <= 0x46;
    DigitsInvert(n, upper);
    var lower, capital := "0123456789abcdef", "0123456789ABCDEF";
    assert n < 10 ==> lower[n] as int == 0x30 + n == capital[n] as int;
    assert n >= 10 ==> lower[n] as int == 0x57 + n && capital[n] as int == 0x37 + n;
  }

  /** One unit at a time, whatever follows it. */
  lemma DecodesUnit(u: Unit, rest: Bytes)
    requires UnitOk(u)
    ensures Decode(EncodeUnit(u) + rest) == Prepend(UnitPayload(u), Decode(rest))
  {
    hide HexValue, HexDigit;
    var body := EncodeUnit(u) + rest;
    match u {
      case Literal(byte) =>
        assert body[1..] == rest;
      case Escape(byte, upperHigh, upperLow) =>
        DigitsInvert(byte / 16, upperHigh);
        DigitsInvert(byte % 16, upperLow);
        assert body[3..] == rest;
      case SoftBreak(crlf) =>
        assert crlf ==> body[3..] == rest;
        assert !crlf ==> body[2..] == rest;
        OutputPrefix([], [], Decode(rest));
    }
  }

  /** The decoder undoes every encoder. */
  lemma {:induction false} DecodesEveryEncoding(us: seq<Unit>)
    requires UnitsOk(us)
    ensures Decode(Encode(us)) == Ok(Payload(us))
  {
    hide Decode;
    if us == [] {
      DecodesNothing();
    } else {
      assert us[0] in us && UnitOk(us[0]);
      DecodesEveryEncoding(us[1..]);
      DecodesUnit(us[0], Encode(us[1..]));
    }
  }

  lemma DecodesNothing()
    ensures Decode([]) == Ok([])
  {
  }

  lemma FirstUnit(body: Bytes) returns (u: Unit)
    requires body != [] && Decode(body).Ok?
    ensures UnitOk(u) && EncodeUnit(u) <= body && Decode(body[|EncodeUnit(u)|..]).Ok?
  {
    hide HexValue, HexDigit;
    if body[0] != 0x3D {
      u := Literal(body[0]);
    } else if |body| > 2 && body[1] == 0x0D && body[2] == 0x0A {
      u := SoftBreak(true);
    } else if body[1] == 0x0A {
      u := SoftBreak(false);
    } else {
      var high, upperHigh := DigitOf(body[1]);
      var low, upperLow := DigitOf(body[2]);
      u := Escape(16 * high + low, upperHigh, upperLow);
      assert (16 * high + low) / 16 == high && (16 * high + low) % 16 == low;
    }
  }

  /** Whatever the decoder accepts is the work of some encoder, and the output is that encoder's input. */
  lemma {:induction false} AcceptsOnlyEncodings(body: Bytes) returns (us: seq<Unit>)
    requires Decode(body).Ok?
    ensures UnitsOk(us) && Encode(us) == body && Decode(body) == Ok(Payload(us))
  {
    if body == [] {
      us := [];
    } else {
      var first := FirstUnit(body);
      var rest := AcceptsOnlyEncodings(body[|EncodeUnit(first)|..]);
      us := [first] + rest;
      assert us[1..] == rest && body == EncodeUnit(first) + body[|EncodeUnit(first)|..];
      assert [] + Payload(rest) == Payload(rest);
      DecodesEveryEncoding(us);
    }
  }

  /** A body decodes to a payload exactly when some encoder turns that payload into it. */
  lemma DecodesIffEncoded(body: Bytes, payload: Bytes)
    ensures Decode(body) == Ok(payload) <==> exists us :: UnitsOk(us) && Encode(us) == body && Payload(us) == payload
  {
    if Decode(body).Ok? {
      var us := AcceptsOnlyEncodings(body);
    }
    forall us | UnitsOk(us) && Encode(us) == body ensures Decode(body) == Ok(Payload(us)) {
      DecodesEveryEncoding(us);
    }
  }

  /** One of the digits of either alphabet. */
  predicate IsDigit(value: Byte) {
    exists c | c in "0123456789ABCDEFabcdef" :: c as int == value
  }

  lemma DigitsKnown(value: Byte)
    ensures HexValue(value).Some? <==> IsDigit(value)
  {
    var all := "0123456789ABCDEFabcdef";
    if HexValue(value).Some? {
      var at := if value <= 0x39 then value - 0x30 else if value <= 0x46 then value - 0x37 else value - 0x51;
      assert all[at] in all && all[at] as int == value;
    }
  }

  /** A tail that no unit begins: an equals sign cut short, or one before anything but two digits or a line end. */
  predicate BadTail(tail: Bytes) {
    && tail != [] && tail[0] == 0x3D
    && (|tail| > 1 ==> tail[1] != 0x0A)
    && (|tail| > 2 ==> [tail[1], tail[2]] != [0x0D, 0x0A] && !(IsDigit(tail[1]) && IsDigit(tail[2])))
  }

  /** Which error a body is refused with, after any encoded beginning. */
  lemma {:induction false} RefusesBadTail(us: seq<Unit>, tail: Bytes)
    requires UnitsOk(us) && BadTail(tail)
    ensures Decode(Encode(us) + tail) == Err(if |tail| <= 2 then Truncated else InvalidEscape)
  {
    hide HexValue, HexDigit, IsDigit;
    if us == [] {
      assert Encode(us) + tail == tail;
      if |tail| > 2 {
        assert [tail[1], tail[2]] == [0x0D, 0x0A] <==> tail[1] == 0x0D && tail[2] == 0x0A;
        DigitsKnown(tail[1]);
        DigitsKnown(tail[2]);
      }
    } else {
      assert us[0] in us && UnitOk(us[0]);
      RefusesBadTail(us[1..], tail);
      DecodesUnit(us[0], Encode(us[1..]) + tail);
      assert Encode(us) + tail == EncodeUnit(us[0]) + (Encode(us[1..]) + tail);
    }
  }
}
