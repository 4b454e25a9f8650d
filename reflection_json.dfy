/** The parsed JSON values the descriptors deserialise from, the typed
    readers `ReadJsonAs<T>` of `ReflectionBase.cpp`, and the JSON text of a
    value, which is what the descriptors' `Serialize` methods write. */
module JsonValues {
  import opened Wrappers
  import opened StringEscapes

  /** A parsed JSON value. rapidjson keeps a number written without fraction
      or exponent as an integer when it fits the 64-bit signed or unsigned
      range, and parses every other number, a wider integer included, as a
      double. */
  datatype Json =
    | JNull
    | JBool(b: bool)
    | JInt(i: int)
    | JDouble(d: real)
    | JString(s: Bytes)
    | JArray(items: seq<Json>)
    | JObject(members: seq<JMember>)

  datatype JMember = JMember(key: Bytes, value: Json)

  const INT32_MIN := -0x8000_0000
  const INT32_MAX := 0x7FFF_FFFF
  const UINT32_MAX := 0xFFFF_FFFF
  const INT64_MIN := -0x8000_0000_0000_0000
  const INT64_MAX := 0x7FFF_FFFF_FFFF_FFFF
  const UINT64_MAX := 0xFFFF_FFFF_FFFF_FFFF

  /** The number-kind queries: an integer answers every kind whose range holds it. */
  predicate IsInt(v: Json) { v.JInt? && INT32_MIN <= v.i <= INT32_MAX }
  predicate IsUint(v: Json) { v.JInt? && 0 <= v.i <= UINT32_MAX }
  predicate IsInt64(v: Json) { v.JInt? && INT64_MIN <= v.i <= INT64_MAX }
  predicate IsUint64(v: Json) { v.JInt? && 0 <= v.i <= UINT64_MAX }
  predicate IsDouble(v: Json) { v.JDouble? }

  /** The first member with the key, as `FindMember` finds it. */
  function Find(members: seq<JMember>, key: Bytes): (r: Option<Json>)
    ensures r.Some? <==> exists i :: 0 <= i < |members| && members[i].key == key
    ensures r.Some? ==> exists i :: 0 <= i < |members| && members[i] == JMember(key, r.value)
  {
    if members == [] then None
    else if members[0].key == key then Some(members[0].value)
    else
      var r := Find(members[1..], key);
      assert forall i :: 1 <= i < |members| ==> members[i] == members[1..][i - 1];
      r
  }

  predicate HasMember(v: Json, key: Bytes)
  {
    v.JObject? && Find(v.members, key).Some?
  }

  /** The `data` member, when there is one. */
  function Data(v: Json): (r: Option<Json>)
    ensures r.Some? <==> HasMember(v, DATA_KEY)
  {
    if v.JObject? then Find(v.members, DATA_KEY) else None
  }

  const TYPE_KEY: Bytes := "type"
  const DATA_KEY: Bytes := "data"

  /** The envelope every descriptor writes: `{"type":<name>,"data":<data>}`. */
  function Envelope(typeName: Bytes, data: Json): Json
  {
    JObject([JMember(TYPE_KEY, JString(typeName)), JMember(DATA_KEY, data)])
  }

  lemma EnvelopeData(typeName: Bytes, data: Json)
    ensures Data(Envelope(typeName, data)) == Some(data)
  {
    assert Envelope(typeName, data).members[1..][0].key == DATA_KEY;
  }

  /** C++'s cast to an integer type: the value truncated toward zero. */
  function Truncate(d: real): (r: int)
    ensures d >= 0.0 ==> r as real <= d < r as real + 1.0
    ensures d < 0.0 ==> r as real - 1.0 < d <= r as real
  {
    if d >= 0.0 then d.Floor else -((-d).Floor)
  }

  /** Wrap-around into the 32-bit signed range. */
  function WrapInt32(i: int): (r: int)
    ensures INT32_MIN <= r <= INT32_MAX
    ensures INT32_MIN <= i <= INT32_MAX ==> r == i
    ensures (r - i) % 0x1_0000_0000 == 0
  {
    (i + 0x8000_0000) % 0x1_0000_0000 - 0x8000_0000
  }

  /** Wrap-around into the 64-bit signed range. */
  function WrapInt64(i: int): (r: int)
    ensures INT64_MIN <= r <= INT64_MAX
    ensures INT64_MIN <= i <= INT64_MAX ==> r == i
    ensures (r - i) % 0x1_0000_0000_0000_0000 == 0
  {
    (i + 0x8000_0000_0000_0000) % 0x1_0000_0000_0000_0000 - 0x8000_0000_0000_0000
  }

  /** Wrap-around into the 32-bit unsigned range. */
  function WrapUint32(i: int): (r: int)
    ensures 0 <= r <= UINT32_MAX
    ensures 0 <= i <= UINT32_MAX ==> r == i
    ensures (r - i) % 0x1_0000_0000 == 0
  {
    i % 0x1_0000_0000
  }

  /** Wrap-around into the 64-bit unsigned range. */
  function WrapUint64(i: int): (r: int)
    ensures 0 <= r <= UINT64_MAX
    ensures 0 <= i <= UINT64_MAX ==> r == i
    ensures (r - i) % 0x1_0000_0000_0000_0000 == 0
  {
    i % 0x1_0000_0000_0000_0000
  }

  /** `ReadJsonAs<bool>`: `GetBool`, which asserts that the value is a bool. */
  function ReadBool(v: Json): (r: Result<bool, string>)
    ensures r.Success? <==> v.JBool?
    ensures r.Success? ==> r.value == v.b
  {
    if v.JBool? then Success(v.b) else Failure("GetBool on a value that is not a bool")
  }

  /** `ReadJsonAs<int>`: an int as it is, an int64 or a double cast down
      (truncated toward zero, then wrapped to 32 bits); anything else throws. */
  function ReadInt(v: Json): (r: Result<int, string>)
    ensures r.Success? <==> IsInt(v) || IsInt64(v) || IsDouble(v)
    ensures r.Success? ==> INT32_MIN <= r.value <= INT32_MAX
    ensures IsInt(v) ==> r == Success(v.i)
    ensures r.Failure? ==> r.error == "JSON value is not an integer (int)"
  {
    if IsInt(v) then Success(v.i)
    else if IsInt64(v) then Success(WrapInt32(v.i))
    else if IsDouble(v) then Success(WrapInt32(Truncate(v.d)))
    else Failure("JSON value is not an integer (int)")
  }

  /** `ReadJsonAs<unsigned>`: a uint as it is, a uint64 or a double cast down. */
  function ReadUnsigned(v: Json): (r: Result<int, string>)
    ensures r.Success? <==> IsUint(v) || IsUint64(v) || IsDouble(v)
    ensures r.Success? ==> 0 <= r.value <= UINT32_MAX
    ensures IsUint(v) ==> r == Success(v.i)
    ensures r.Failure? ==> r.error == "JSON value is not an unsigned integer (unsigned)"
  {
    if IsUint(v) then Success(v.i)
    else if IsUint64(v) then Success(WrapUint32(v.i))
    else if IsDouble(v) then Success(WrapUint32(Truncate(v.d)))
    else Failure("JSON value is not an unsigned integer (unsigned)")
  }

  /** `ReadJsonAs<int64_t>`: an int64 or an int as it is, a double cast down. */
  function ReadInt64(v: Json): (r: Result<int, string>)
    ensures r.Success? <==> IsInt64(v) || IsDouble(v)
    ensures r.Success? ==> INT64_MIN <= r.value <= INT64_MAX
    ensures IsInt64(v) ==> r == Success(v.i)
    ensures r.Failure? ==> r.error == "JSON value is not an integer (int64_t)"
  {
    if IsInt64(v) then Success(v.i)
    else if IsInt(v) then Success(v.i)
    else if IsDouble(v) then Success(WrapInt64(Truncate(v.d)))
    else Failure("JSON value is not an integer (int64_t)")
  }

  /** `ReadJsonAs<uint64_t>`: a uint64 or a uint as it is, a double cast down. */
  function ReadUint64(v: Json): (r: Result<int, string>)
    ensures r.Success? <==> IsUint64(v) || IsDouble(v)
    ensures r.Success? ==> 0 <= r.value <= UINT64_MAX
    ensures IsUint64(v) ==> r == Success(v.i)
    ensures r.Failure? ==> r.error == "JSON value is not an unsigned integer (uint64_t)"
  {
    if IsUint64(v) then Success(v.i)
    else if IsUint(v) then Success(v.i)
    else if IsDouble(v) then Success(WrapUint64(Truncate(v.d)))
    else Failure("JSON value is not an unsigned integer (uint64_t)")
  }

  /** `ReadJsonAs<double>`: a double, an int or an int64; anything else throws,
      so does an integer above the int64 range. `ReadJsonAs<float>` is this
      reading cast down, which over `real` is the same value. */
  function ReadDouble(v: Json): (r: Result<real, string>)
    ensures r.Success? <==> IsDouble(v) || IsInt(v) || IsInt64(v)
    ensures IsDouble(v) ==> r == Success(v.d)
    ensures IsInt64(v) ==> r == Success(v.i as real)
    ensures r.Failure? ==> r.error == "JSON value is not a number (double)"
  {
    if IsDouble(v) then Success(v.d)
    else if IsInt(v) then Success(v.i as real)
    else if IsInt64(v) then Success(v.i as real)
    else Failure("JSON value is not a number (double)")
  }

  /** An integer too large for int64 is a number the double reader rejects. */
  lemma LargeUnsignedIsNotADouble()
    ensures ReadDouble(JInt(INT64_MAX + 1)).Failure?
    ensures ReadUint64(JInt(INT64_MAX + 1)) == Success(INT64_MAX + 1)
  {
  }

  /** A 64-bit integer that fits in an int reads back unchanged through the
      int reader, and a double with an integral value in range reads back as
      that value. */
  lemma ReadIntExact(v: Json, n: int)
    requires INT32_MIN <= n <= INT32_MAX
    requires v == JInt(n) || v == JDouble(n as real)
    ensures ReadInt(v) == Success(n)
  {
    if v == JDouble(n as real) {
      assert Truncate(n as real) == n;
    }
  }

  /** `ReadJsonAs<std::string>`: only a string. */
  function ReadString(v: Json): (r: Result<Bytes, string>)
    ensures r.Success? <==> v.JString?
    ensures r.Success? ==> r.value == v.s
  {
    if v.JString? then Success(v.s) else Failure("JSON value is not a string")
  }

  /** The decimal digits `operator<<` writes for an integer. */
  function IntText(i: int): (r: Bytes)
    ensures |r| >= 1
    ensures i < 0 <==> r[0] == '-'
  {
    if i < 0 then "-" + NatText(-i) else NatText(i)
  }

  function NatText(n: nat): (r: Bytes)
    ensures |r| >= 1 && forall k :: 0 <= k < |r| ==> '0' <= r[k] <= '9'
  {
    if n < 10 then [B(0x30 + n)] else NatText(n / 10) + [B(0x30 + n % 10)]
  }

  /** The texts joined with a separator between neighbours. */
  function Join(parts: seq<Bytes>, sep: Bytes): (r: Bytes)
    ensures parts == [] ==> r == []
    ensures |parts| == 1 ==> r == parts[0]
  {
    if parts == [] then []
    else if |parts| == 1 then parts[0]
    else parts[0] + sep + Join(parts[1..], sep)
  }

  lemma JoinAppend(parts: seq<Bytes>, p: Bytes, sep: Bytes)
    ensures Join(parts + [p], sep) == if parts == [] then p else Join(parts, sep) + sep + p
  {
    if |parts| > 1 {
      assert (parts + [p])[1..] == parts[1..] + [p];
      JoinAppend(parts[1..], p, sep);
    } else if |parts| == 1 {
      assert (parts + [p])[1..] == [p];
    }
  }

  /** Joining one more element of a sequence's prefix: that element, after a
      separator unless it is the first. */
  lemma JoinPrefixStep(parts: seq<Bytes>, i: nat, sep: Bytes)
    requires i < |parts|
    ensures Join(parts[..i + 1], sep) == if i == 0 then parts[i] else Join(parts[..i], sep) + sep + parts[i]
  {
    assert parts[..i + 1] == parts[..i] + [parts[i]];
    JoinAppend(parts[..i], parts[i], sep);
  }

  const LBRACE: Bytes := "{"
  const RBRACE: Bytes := "}"
  const LBRACKET: Bytes := "["
  const RBRACKET: Bytes := "]"
  const COMMA: Bytes := ","
  const COLON: Bytes := ":"

  /** A double's text is `operator<<`'s formatting, which is not modelled. */
  type DoubleFormat = real -> Bytes

  /** The JSON text of a value, as the descriptors write it: no white space,
      strings and keys quoted and escaped. */
  function Print(v: Json, fmt: DoubleFormat): Bytes
    decreases v, 1
  {
    match v
    case JNull => "null"
    case JBool(b) => if b then "true" else "false"
    case JInt(i) => IntText(i)
    case JDouble(d) => fmt(d)
    case JString(s) => Quoted(s)
    case JArray(items) => LBRACKET + Join(PrintAll(items, fmt), COMMA) + RBRACKET
    case JObject(members) => LBRACE + Join(PrintMembers(members, fmt), COMMA) + RBRACE
  }

  /** A string as the `std::string` descriptor writes it: quoted, escaped
      with `Escaped`, so every byte from 0x80 up becomes a `\u00XX` escape. */
  function Quoted(s: Bytes): Bytes
  {
    [QUOTE] + Escaped(s) + [QUOTE]
  }

  /** The body between the quotes reads back, under JSON's unescaping, as the
      string written exactly when that string is ASCII. */
  lemma QuotedReadsBackIffAscii(s: Bytes)
    ensures var r := Quoted(s);
      |r| >= 2 && r[0] == QUOTE && r[|r| - 1] == QUOTE &&
      (Unescape(r[1..|r| - 1]) == Some(s) <==> IsAscii(s))
  {
    var r := Quoted(s);
    assert r[1..|r| - 1] == Escaped(s);
    RoundTripIffAscii(s);
  }

  /** The corrected quoting, with bytes from 0x80 up copied as they are. */
  function QuotedKeepingUtf8(s: Bytes): Bytes
  {
    [QUOTE] + EscapedKeepingUtf8(s) + [QUOTE]
  }

  /** With the corrected quoting every string reads back as itself. */
  lemma QuotedKeepingUtf8ReadsBack(s: Bytes)
    ensures var r := QuotedKeepingUtf8(s);
      |r| >= 2 && r[0] == QUOTE && r[|r| - 1] == QUOTE &&
      Unescape(r[1..|r| - 1]) == Some(s)
  {
    var r := QuotedKeepingUtf8(s);
    assert r[1..|r| - 1] == EscapedKeepingUtf8(s);
    RoundTripKeepingUtf8(s);
  }

  function PrintAll(items: seq<Json>, fmt: DoubleFormat): (r: seq<Bytes>)
    decreases items, 0
    ensures |r| == |items|
    ensures forall i :: 0 <= i < |items| ==> r[i] == Print(items[i], fmt)
  {
    if items == [] then [] else [Print(items[0], fmt)] + PrintAll(items[1..], fmt)
  }

  function PrintMembers(members: seq<JMember>, fmt: DoubleFormat): (r: seq<Bytes>)
    decreases members, 0
    ensures |r| == |members|
    ensures forall i :: 0 <= i < |members| ==> r[i] == MemberText(members[i].key, Print(members[i].value, fmt))
  {
    if members == [] then []
    else
      var m := members[0];
      assert m in members;
      [MemberText(m.key, Print(m.value, fmt))] + PrintMembers(members[1..], fmt)
  }

  /** The envelope's text, with the data's text spliced in: the shape every
      `Serialize` writes, `{"type":"<name>","data":<data>}` (see `QuotedKeys`).
      The type name is written between the quotes as it is, unescaped. */
  function EnvelopeText(typeName: Bytes, dataText: Bytes): Bytes
  {
    LBRACE + MemberText(TYPE_KEY, [QUOTE] + typeName + [QUOTE]) + COMMA + MemberText(DATA_KEY, dataText) + RBRACE
  }

  /** What is written before the data: `{"type":"<name>","data":`. */
  function EnvelopeHead(typeName: Bytes): Bytes
  {
    LBRACE + MemberText(TYPE_KEY, [QUOTE] + typeName + [QUOTE]) + COMMA + Quoted(DATA_KEY) + COLON
  }

  /** The envelope is its head, the data, and a closing brace. */
  lemma EnvelopeSplit(typeName: Bytes, dataText: Bytes)
    ensures EnvelopeText(typeName, dataText) == EnvelopeHead(typeName) + dataText + RBRACE
  {
    var x := LBRACE + MemberText(TYPE_KEY, [QUOTE] + typeName + [QUOTE]) + COMMA;
    var q := Quoted(DATA_KEY);
    assert MemberText(DATA_KEY, dataText) == q + COLON + dataText;
    assert x + (q + COLON + dataText) == x + q + COLON + dataText;
  }

  /** An envelope whose data is an array, written piece by piece: the head,
      the opening bracket, the elements, `]}`. */
  lemma ArrayEnvelope(typeName: Bytes, elements: Bytes)
    ensures EnvelopeHead(typeName) + LBRACKET + elements + RBRACKET + RBRACE
         == EnvelopeText(typeName, LBRACKET + elements + RBRACKET)
  {
    EnvelopeSplit(typeName, LBRACKET + elements + RBRACKET);
    var h := EnvelopeHead(typeName);
    assert h + (LBRACKET + elements + RBRACKET) == h + LBRACKET + elements + RBRACKET;
  }

  /** A name made of plain bytes only, as every C++ type name is. */
  predicate IsPlainName(name: Bytes)
  {
    forall i :: 0 <= i < |name| ==> IsPlain(name[i])
  }

  /** One member of an object: the quoted key, a colon, the value's text. */
  function MemberText(key: Bytes, valueText: Bytes): Bytes
  {
    Quoted(key) + COLON + valueText
  }

  /** A plain name is quoted as it is. */
  lemma QuotedPlainName(name: Bytes)
    requires IsPlainName(name)
    ensures Quoted(name) == [QUOTE] + name + [QUOTE]
  {
    PlainIsKeptAsWritten(name);
  }

  lemma PlainKeys()
    ensures IsPlainName(TYPE_KEY) && IsPlainName(DATA_KEY)
  {
    var t, d := TYPE_KEY, DATA_KEY;
    assert IsPlain(t[0]) && IsPlain(t[1]) && IsPlain(t[2]) && IsPlain(t[3]);
    assert IsPlain(d[0]) && IsPlain(d[1]) && IsPlain(d[2]) && IsPlain(d[3]);
  }

  lemma QuotedKeys()
    ensures Quoted(TYPE_KEY) == "\"type\"" && Quoted(DATA_KEY) == "\"data\""
  {
    PlainKeys();
    QuotedPlainName(TYPE_KEY);
    QuotedPlainName(DATA_KEY);
    assert [QUOTE] + TYPE_KEY + [QUOTE] == "\"type\"";
    assert [QUOTE] + DATA_KEY + [QUOTE] == "\"data\"";
  }

  /** The braces around two members joined by a comma. */
  lemma BracedPair(p1: Bytes, p2: Bytes)
    ensures LBRACE + Join([p1, p2], COMMA) + RBRACE == LBRACE + p1 + COMMA + p2 + RBRACE
  {
    assert [p1, p2][1..] == [p2];
  }

  /** For a plain type name, the text every `Serialize` writes is the JSON
      text of the envelope value. */
  lemma PrintEnvelope(typeName: Bytes, data: Json, fmt: DoubleFormat)
    requires IsPlainName(typeName)
    ensures Print(Envelope(typeName, data), fmt) == EnvelopeText(typeName, Print(data, fmt))
  {
    var env := Envelope(typeName, data);
    var p1, p2 := MemberText(TYPE_KEY, [QUOTE] + typeName + [QUOTE]), MemberText(DATA_KEY, Print(data, fmt));
    PlainIsKeptAsWritten(typeName);
    assert Print(JString(typeName), fmt) == [QUOTE] + typeName + [QUOTE];
    assert PrintMembers(env.members, fmt) == [p1, p2];
    BracedPair(p1, p2);
  }
}
