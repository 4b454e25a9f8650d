/** The `std::string` descriptor's string escaping, and the decoding of a JSON
    string body that the parser applies when the text is read back (section 7
    of RFC 8259, decoded to UTF-8 as the JSON parser does). A `std::string` is a
    sequence of bytes, here characters below 256. */
module StringEscapes {
  import opened Wrappers

  type ByteChar = c: char | (c as int) < 256 witness 'a'
  type Bytes = seq<ByteChar>

  const BACKSLASH: ByteChar := 0x5C as char
  const QUOTE: ByteChar := 0x22 as char

  function B(n: int): ByteChar
    requires 0 <= n < 256
  {
    n as char
  }

  /** One lower-case hexadecimal digit, as `std::hex` writes it. */
  function HexDigit(d: int): (c: ByteChar)
    requires 0 <= d < 16
    ensures 0x30 <= c as int <= 0x39 || 0x61 <= c as int <= 0x66
  {
    if d < 10 then B(0x30 + d) else B(0x61 + d - 10)
  }

  /** The value of a hexadecimal digit of either case, if it is one. */
  function HexValue(c: char): (r: Option<int>)
    ensures r.Some? ==> 0 <= r.value < 16
  {
    if '0' <= c <= '9' then Some(c as int - 0x30)
    else if 'a' <= c <= 'f' then Some(c as int - 0x61 + 10)
    else if 'A' <= c <= 'F' then Some(c as int - 0x41 + 10)
    else None
  }

  lemma HexDigitValue(d: int)
    requires 0 <= d < 16
    ensures HexValue(HexDigit(d)) == Some(d)
  {
  }

  /** Four hexadecimal digits, zero padded: `std::setw(4)` with fill '0'. */
  function Hex4(code: int): (r: Bytes)
    requires 0 <= code < 0x10000
    ensures |r| == 4
  {
    [HexDigit(code / 16 / 16 / 16), HexDigit(code / 16 / 16 % 16), HexDigit(code / 16 % 16), HexDigit(code % 16)]
  }

  /** The value of four hexadecimal digits. */
  function Hex4Value(t: seq<char>): (r: Option<int>)
    requires |t| == 4
    ensures r.Some? ==> 0 <= r.value < 0x10000
  {
    match (HexValue(t[0]), HexValue(t[1]), HexValue(t[2]), HexValue(t[3]))
    case (Some(a), Some(b), Some(c), Some(d)) => Some(((a * 16 + b) * 16 + c) * 16 + d)
    case _ => None
  }

  lemma Hex4RoundTrip(code: int)
    requires 0 <= code < 0x10000
    ensures Hex4Value(Hex4(code)) == Some(code)
  {
    var q1, q2 := code / 16, code / 16 / 16;
    HexDigitValue(q2 / 16);
    HexDigitValue(q2 % 16);
    HexDigitValue(q1 % 16);
    HexDigitValue(code % 16);
    assert code == q1 * 16 + code % 16 && q1 == q2 * 16 + q1 % 16 && q2 == q2 / 16 * 16 + q2 % 16;
  }

  /** The two-character escape of `\`, `"`, backspace, form feed, newline,
      carriage return and tab, if `c` is one of them. */
  function ShortEscape(c: ByteChar): Option<ByteChar>
  {
    var n := c as int;
    if n == 0x5C then Some(BACKSLASH)
    else if n == 0x22 then Some(QUOTE)
    else if n == 0x08 then Some('b')
    else if n == 0x0C then Some('f')
    else if n == 0x0A then Some('n')
    else if n == 0x0D then Some('r')
    else if n == 0x09 then Some('t')
    else None
  }

  /** The escape of one byte as the `switch` of `Serialize` writes it: a short
      escape, else `\u` and four hex digits for a byte below 0x20 or above 0x7E,
      else the byte itself. */
  function EscapeByte(c: ByteChar): (r: Bytes)
    ensures |r| >= 1
    ensures forall i :: 0 <= i < |r| ==> 0x20 <= r[i] as int <= 0x7E
  {
    var n := c as int;
    match ShortEscape(c)
    case Some(e) => [BACKSLASH, e]
    case None =>
      if n < 0x20 || n > 0x7E then [BACKSLASH, 'u'] + Hex4(n) else [c]
  }

  /** The escaped body written between the quotes of `"data":"..."`. */
  function Escaped(s: Bytes): (r: Bytes)
    ensures forall i :: 0 <= i < |r| ==> 0x20 <= r[i] as int <= 0x7E
  {
    if s == [] then [] else EscapeByte(s[0]) + Escaped(s[1..])
  }

  /** The escaping loop of the `std::string` descriptor's `Serialize`, one byte
      appended after another: as written, every byte above 0x7E is escaped. */
  method EscapeString(data: Bytes) returns (escaped: Bytes)
    ensures escaped == Escaped(data)
  {
    escaped := [];
    var i := 0;
    while i < |data|
      invariant 0 <= i <= |data|
      invariant escaped + Escaped(data[i..]) == Escaped(data)
    {
      assert data[i..][1..] == data[i + 1..];
      escaped := escaped + EscapeByte(data[i]);
      i := i + 1;
    }
    assert data[i..] == [];
  }

  /** The escape of one byte with bytes from 0x80 up copied as they are: a JSON
      string may hold any non-ASCII character unescaped. */
  function EscapeByteKeepingUtf8(c: ByteChar): (r: Bytes)
    ensures |r| >= 1
    ensures forall i :: 0 <= i < |r| ==> r[i] as int >= 0x20
    ensures c as int < 0x80 ==> r == EscapeByte(c)
  {
    if c as int >= 0x80 then [c] else EscapeByte(c)
  }

  /** The corrected escaped body. */
  function EscapedKeepingUtf8(s: Bytes): (r: Bytes)
    ensures forall i :: 0 <= i < |r| ==> r[i] as int >= 0x20
  {
    if s == [] then [] else EscapeByteKeepingUtf8(s[0]) + EscapedKeepingUtf8(s[1..])
  }

  /** A printable ASCII byte that is neither a quote nor a backslash. */
  predicate IsPlain(c: ByteChar)
  {
    0x20 <= c as int <= 0x7E && c != QUOTE && c != BACKSLASH
  }

  /** A string of plain bytes is written as it is. */
  lemma {:induction false} PlainIsKept(s: Bytes)
    requires forall i :: 0 <= i < |s| ==> IsPlain(s[i])
    ensures EscapedKeepingUtf8(s) == s
  {
    if s != [] {
      var tail := s[1..];
      PlainTail(s);
      PlainIsKept(tail);
      PlainByteIsKept(s[0]);
      assert EscapedKeepingUtf8(s) == [s[0]] + tail;
      assert s == [s[0]] + tail;
    }
  }

  lemma PlainTail(s: Bytes)
    requires s != [] && forall i :: 0 <= i < |s| ==> IsPlain(s[i])
    ensures forall i :: 0 <= i < |s[1..]| ==> IsPlain(s[1..][i])
  {
    forall i | 0 <= i < |s[1..]| ensures IsPlain(s[1..][i]) {
      assert s[1..][i] == s[i + 1];
    }
  }

  /** A plain byte is written as it is. */
  lemma PlainByteIsKept(c: ByteChar)
    requires IsPlain(c)
    ensures EscapeByteKeepingUtf8(c) == [c]
  {
    assert ShortEscape(c).None?;
  }

  /** A string of plain bytes is written as it is by the escaper as written. */
  lemma PlainIsKeptAsWritten(s: Bytes)
    requires forall i :: 0 <= i < |s| ==> IsPlain(s[i])
    ensures Escaped(s) == s
  {
    assert IsAscii(s) by {
      forall i | 0 <= i < |s| ensures s[i] as int < 0x80 {
        assert IsPlain(s[i]);
      }
    }
    PlainIsKept(s);
    EscapersAgreeOnAscii(s);
  }

  predicate IsAscii(s: Bytes)
  {
    forall i :: 0 <= i < |s| ==> s[i] as int < 0x80
  }

  /** On ASCII input the two escapers agree. */
  lemma {:induction false} EscapersAgreeOnAscii(s: Bytes)
    requires IsAscii(s)
    ensures EscapedKeepingUtf8(s) == Escaped(s)
  {
    if s != [] {
      assert IsAscii(s[1..]) by {
        forall i | 0 <= i < |s[1..]| ensures s[1..][i] as int < 0x80 {
          assert s[1..][i] == s[i + 1];
        }
      }
      EscapersAgreeOnAscii(s[1..]);
    }
  }

  /** A code point below 0x10000 in UTF-8, as the JSON parser stores a `\u`
      escape. */
  function Utf8(code: int): (r: Bytes)
    requires 0 <= code < 0x10000
    ensures code < 0x80 ==> r == [B(code)]
    ensures 1 <= |r| <= 3
  {
    if code < 0x80 then [B(code)]
    else if code < 0x800 then [B(0xC0 + code / 64), B(0x80 + code % 64)]
    else [B(0xE0 + code / 4096), B(0x80 + code / 64 % 64), B(0x80 + code % 64)]
  }

  /** The byte a short escape letter stands for. */
  function ShortUnescape(c: char): Option<ByteChar>
  {
    if c == QUOTE then Some(QUOTE)
    else if c == BACKSLASH then Some(BACKSLASH)
    else if c == '/' then Some('/')
    else if c == 'b' then Some(B(0x08))
    else if c == 'f' then Some(B(0x0C))
    else if c == 'n' then Some(B(0x0A))
    else if c == 'r' then Some(B(0x0D))
    else if c == 't' then Some(B(0x09))
    else None
  }

  lemma ShortRoundTrip(c: ByteChar)
    requires ShortEscape(c).Some?
    ensures ShortUnescape(ShortEscape(c).value) == Some(c)
  {
  }

  /** The bytes a JSON string body stands for (section 7 of RFC 8259): escapes
      decoded, a `\u` escape stored as UTF-8, other bytes copied; a raw
      control byte, a raw quote or a malformed escape is an error. Decoding
      never makes the text longer. */
  function Unescape(t: Bytes): (r: Option<Bytes>)
    ensures r.Some? ==> |r.value| <= |t|
  {
    if t == [] then Some([])
    else if t[0] == BACKSLASH then
      if |t| < 2 then None
      else if t[1] == 'u' then
        if |t| < 6 then None
        else match Hex4Value(t[2..6])
          case None => None
          case Some(code) =>
            if 0xD800 <= code < 0xE000 then None
            else match Unescape(t[6..])
              case None => None
              case Some(rest) => Some(Utf8(code) + rest)
      else match (ShortUnescape(t[1]), Unescape(t[2..]))
        case (Some(c), Some(rest)) => Some([c] + rest)
        case _ => None
    else if t[0] as int < 0x20 || t[0] == QUOTE then None
    else match Unescape(t[1..])
      case None => None
      case Some(rest) => Some([t[0]] + rest)
  }

  /** A decoded prefix in front of a decoding that may have failed. */
  function Prepend(p: Bytes, rest: Option<Bytes>): Option<Bytes>
  {
    if rest.None? then None else Some(p + rest.value)
  }

  /** What one byte decodes back to after `EscapeByte`. */
  function Decoded(c: ByteChar): Bytes
  {
    if c as int < 0x80 then [c] else Utf8(c as int)
  }

  /** Decoding undoes one byte's escape: the byte comes back when it is
      below 0x80, and as its two-byte UTF-8 form otherwise. */
  lemma UnescapeEscapeByte(c: ByteChar, t: Bytes)
    ensures Unescape(EscapeByte(c) + t) == Prepend(Decoded(c), Unescape(t))
  {
    var n := c as int;
    if ShortEscape(c).Some? {
      UnescapeShortEscape(c, t);
    } else if n < 0x20 || n > 0x7E {
      UnescapeHexEscape(c, t);
    } else {
      var e := EscapeByte(c) + t;
      assert e[0] == c && e[1..] == t;
    }
  }

  /** A two-character escape decodes to its byte. */
  lemma UnescapeShortEscape(c: ByteChar, t: Bytes)
    requires ShortEscape(c).Some?
    ensures Unescape(EscapeByte(c) + t) == Prepend(Decoded(c), Unescape(t))
  {
    var e := EscapeByte(c) + t;
    ShortRoundTrip(c);
    assert e[0] == BACKSLASH && e[1] == ShortEscape(c).value && e[2..] == t;
  }

  /** A `\u` escape decodes to the UTF-8 form of its byte. */
  lemma UnescapeHexEscape(c: ByteChar, t: Bytes)
    requires ShortEscape(c).None? && (c as int < 0x20 || c as int > 0x7E)
    ensures Unescape(EscapeByte(c) + t) == Prepend(Decoded(c), Unescape(t))
  {
    var n := c as int;
    var e := EscapeByte(c) + t;
    assert EscapeByte(c) == [BACKSLASH, 'u'] + Hex4(n);
    assert e[0] == BACKSLASH && e[1] == 'u';
    assert e[2..6] == Hex4(n) && e[6..] == t;
    Hex4RoundTrip(n);
  }

  /** For ASCII input, decoding the escaped body recovers the input. */
  lemma {:induction false} AsciiRoundTrip(s: Bytes)
    requires IsAscii(s)
    ensures Unescape(Escaped(s)) == Some(s)
  {
    if s != [] {
      assert IsAscii(s[1..]) by {
        forall i | 0 <= i < |s[1..]| ensures s[1..][i] as int < 0x80 {
          assert s[1..][i] == s[i + 1];
        }
      }
      AsciiRoundTrip(s[1..]);
      UnescapeEscapeByte(s[0], Escaped(s[1..]));
      assert [s[0]] + s[1..] == s;
    }
  }

  /** A byte from 0x80 up is escaped as `\u00XX`, which decodes to two bytes. */
  lemma HighByteComesBackAsTwo(c: ByteChar)
    requires c as int >= 0x80
    ensures Unescape(EscapeByte(c)) == Some(Utf8(c as int))
    ensures |Utf8(c as int)| == 2
  {
    var empty: Bytes := [];
    UnescapeEscapeByte(c, empty);
    assert EscapeByte(c) + empty == EscapeByte(c);
    assert Unescape(empty) == Some(empty);
    assert Decoded(c) + empty == Utf8(c as int);
  }

  /** The byte 0xE9 (the lead byte of many accented letters in UTF-8, and
      e-acute itself in Latin-1) is escaped as `\u00e9`, which reads back as
      the two bytes C3 A9. */
  lemma EscapedHighByteChanges()
    ensures Escaped([B(0xE9)]) == [BACKSLASH, 'u', '0', '0', 'e', '9']
    ensures Unescape(Escaped([B(0xE9)])) == Some([B(0xC3), B(0xA9)])
    ensures Unescape(Escaped([B(0xE9)])) != Some([B(0xE9)])
  {
    var c := B(0xE9);
    assert Hex4(0xE9) == ['0', '0', 'e', '9'];
    assert Escaped([c]) == EscapeByte(c) + Escaped([]);
    assert EscapeByte(c) + [] == EscapeByte(c);
    HighByteComesBackAsTwo(c);
    assert Utf8(0xE9) == [B(0xC3), B(0xA9)];
  }

  /** What a whole string decodes back to after `Escaped`: each byte below
      0x80 as itself, each byte from 0x80 up as its two-byte UTF-8 form. */
  function DecodedAll(s: Bytes): (r: Bytes)
    ensures |r| >= |s|
    ensures s != [] && s[0] as int >= 0x80 ==> |r| > |s|
  {
    if s == [] then [] else Decoded(s[0]) + DecodedAll(s[1..])
  }

  /** Decoding the escaped body as written recovers `DecodedAll` of the input. */
  lemma {:induction false} UnescapeEscaped(s: Bytes)
    ensures Unescape(Escaped(s)) == Some(DecodedAll(s))
  {
    if s != [] {
      UnescapeEscaped(s[1..]);
      UnescapeEscapeByte(s[0], Escaped(s[1..]));
    }
  }

  /** Decoding gives back exactly the input only for ASCII input. */
  lemma {:induction false} DecodedAllIsInputIffAscii(s: Bytes)
    ensures DecodedAll(s) == s <==> IsAscii(s)
  {
    if s != [] {
      var tail := s[1..];
      DecodedAllIsInputIffAscii(tail);
      assert IsAscii(s) <==> s[0] as int < 0x80 && IsAscii(tail) by {
        if s[0] as int < 0x80 && IsAscii(tail) {
          forall i | 0 <= i < |s| ensures s[i] as int < 0x80 {
            if i > 0 { assert s[i] == tail[i - 1]; }
          }
        }
        if IsAscii(s) {
          forall i | 0 <= i < |tail| ensures tail[i] as int < 0x80 {
            assert tail[i] == s[i + 1];
          }
        }
      }
      if s[0] as int < 0x80 {
        assert DecodedAll(s) == [s[0]] + DecodedAll(tail);
        assert s == [s[0]] + tail;
        if DecodedAll(s) == s {
          assert DecodedAll(tail) == DecodedAll(s)[1..];
        }
      }
    }
  }

  /** The string the escaped body as written stands for is the input exactly
      when the input is ASCII; otherwise the text reads back as another
      string. */
  lemma RoundTripIffAscii(s: Bytes)
    ensures Unescape(Escaped(s)) == Some(s) <==> IsAscii(s)
  {
    UnescapeEscaped(s);
    DecodedAllIsInputIffAscii(s);
  }

  /** Decoding undoes one byte's corrected escape, for every byte. */
  lemma UnescapeEscapeByteKeepingUtf8(c: ByteChar, t: Bytes)
    ensures Unescape(EscapeByteKeepingUtf8(c) + t) == Prepend([c], Unescape(t))
  {
    if c as int >= 0x80 {
      var e := EscapeByteKeepingUtf8(c) + t;
      assert e[0] == c && e[1..] == t;
    } else {
      UnescapeEscapeByte(c, t);
    }
  }

  /** With bytes from 0x80 up copied, decoding recovers every input. */
  lemma {:induction false} RoundTripKeepingUtf8(s: Bytes)
    ensures Unescape(EscapedKeepingUtf8(s)) == Some(s)
  {
    if s != [] {
      RoundTripKeepingUtf8(s[1..]);
      UnescapeEscapeByteKeepingUtf8(s[0], EscapedKeepingUtf8(s[1..]));
      assert [s[0]] + s[1..] == s;
    }
  }
}
