/** The primitive descriptors of `ReflectionBase.cpp`: `int`, `unsigned`,
    `int64_t`, `uint64_t`, `double`, `float`, `bool` and `std::string`. Each
    writes `{"type":"<TYPE>","data":<value>}` and reads the value back through
    the matching `ReadJsonAs<T>`. A value is held as a mathematical integer,
    real, bool or byte string; the C++ width is the range predicate `InRange`. */
module ReflectionPrimitives {
  import opened Wrappers
  import opened StringEscapes
  import opened JsonValues

  datatype Primitive = PInt | PUnsigned | PInt64 | PUint64 | PDouble | PFloat | PBool | PString

  datatype PrimValue = IntV(i: int) | RealV(r: real) | BoolV(b: bool) | StrV(s: Bytes)

  /** The descriptor's name, the stringised C++ type of the macro. */
  function PrimitiveName(p: Primitive): Bytes
  {
    match p
    case PInt => "int"
    case PUnsigned => "unsigned"
    case PInt64 => "int64_t"
    case PUint64 => "uint64_t"
    case PDouble => "double"
    case PFloat => "float"
    case PBool => "bool"
    case PString => "std::string"
  }

  /** The primitive a registered name belongs to. */
  function PrimitiveNamed(name: Bytes): (r: Option<Primitive>)
    ensures r.Some? ==> PrimitiveName(r.value) == name
  {
    if name == "int" then Some(PInt)
    else if name == "unsigned" then Some(PUnsigned)
    else if name == "int64_t" then Some(PInt64)
    else if name == "uint64_t" then Some(PUint64)
    else if name == "double" then Some(PDouble)
    else if name == "float" then Some(PFloat)
    else if name == "bool" then Some(PBool)
    else if name == "std::string" then Some(PString)
    else None
  }

  /** Each primitive's name leads back to it, so no two primitive
      descriptors register under the same name. */
  lemma PrimitiveNamesDistinct(p: Primitive, q: Primitive)
    ensures PrimitiveNamed(PrimitiveName(p)) == Some(p)
    ensures p != q ==> PrimitiveName(p) != PrimitiveName(q)
  {
    var np := PrimitiveName(p);
    match p
    case PInt =>
    case PUnsigned => assert np != "int";
    case PInt64 => assert np != "int" && np != "unsigned";
    case PUint64 => assert np != "int" && np != "unsigned" && np != "int64_t";
    case PDouble =>
    case PFloat =>
    case PBool =>
    case PString =>
  }

  lemma PlainChars(n: Bytes)
    requires forall c :: c in n ==> IsPlain(c)
    ensures IsPlainName(n)
  {
    forall i | 0 <= i < |n| ensures IsPlain(n[i]) {
      assert n[i] in n;
    }
  }

  /** Every primitive name is plain, so it is written without escapes. */
  lemma PrimitiveNamePlain(p: Primitive)
    ensures IsPlainName(PrimitiveName(p))
  {
    var n := PrimitiveName(p);
    assert forall c :: c in n ==> IsPlain(c);
    PlainChars(n);
  }

  /** A value of the C++ type: an integer in the type's range, any real for the
      floating types, a bool, a string. */
  predicate InRange(p: Primitive, v: PrimValue)
  {
    match p
    case PInt => v.IntV? && INT32_MIN <= v.i <= INT32_MAX
    case PUnsigned => v.IntV? && 0 <= v.i <= UINT32_MAX
    case PInt64 => v.IntV? && INT64_MIN <= v.i <= INT64_MAX
    case PUint64 => v.IntV? && 0 <= v.i <= UINT64_MAX
    case PDouble => v.RealV?
    case PFloat => v.RealV?
    case PBool => v.BoolV?
    case PString => v.StrV?
  }

  /** The JSON value of the `data` member a value is written as. */
  function DataJson(v: PrimValue): Json
  {
    match v
    case IntV(i) => JInt(i)
    case RealV(r) => JDouble(r)
    case BoolV(b) => JBool(b)
    case StrV(s) => JString(s)
  }

  /** The parsed form of what `Serialize` writes. */
  function JsonOf(p: Primitive, v: PrimValue): Json
  {
    Envelope(PrimitiveName(p), DataJson(v))
  }

  /** The text after `"data":`: the decimal integer, the double as `operator<<`
      formats it, the literal `true` or `false`, the quoted escaped string. */
  function DataText(v: PrimValue, fmt: DoubleFormat): Bytes
  {
    match v
    case IntV(i) => IntText(i)
    case RealV(r) => fmt(r)
    case BoolV(b) => if b then "true" else "false"
    case StrV(s) => Quoted(s)
  }

  /** The text `Serialize` writes. */
  function SerializeText(p: Primitive, v: PrimValue, fmt: DoubleFormat): Bytes
  {
    EnvelopeText(PrimitiveName(p), DataText(v, fmt))
  }

  /** The text written is the JSON text of `JsonOf`. */
  lemma SerializeTextIsJson(p: Primitive, v: PrimValue, fmt: DoubleFormat)
    ensures SerializeText(p, v, fmt) == Print(JsonOf(p, v), fmt)
  {
    PrimitiveNamePlain(p);
    PrintEnvelope(PrimitiveName(p), DataJson(v), fmt);
  }

  /** A string's written text, read back by a JSON parser, is the string
      written exactly when that string is ASCII: each byte from 0x80 up is
      written as a `\u00XX` escape and reads back as two UTF-8 bytes. */
  lemma StringTextReadsBackIffAscii(s: Bytes, fmt: DoubleFormat)
    ensures var t := DataText(StrV(s), fmt);
      |t| >= 2 && (Unescape(t[1..|t| - 1]) == Some(s) <==> IsAscii(s))
  {
    QuotedReadsBackIffAscii(s);
  }

  /** The error `Deserialize` throws for a value without a `data` member. */
  function MalformedMessage(p: Primitive): string
  {
    match p
    case PBool => "Malformed JSON for bool"
    case PString => "Malformed JSON for std::string"
    case _ => "Malformed JSON for primitive type"
  }

  /** `ReadJsonAs<T>` for the primitive, on the `data` member. */
  function ReadAs(p: Primitive, data: Json): (r: Result<PrimValue, string>)
    ensures r.Success? ==> InRange(p, r.value)
  {
    match p
    case PInt => ReadInt(data).MapSuccess(i => IntV(i))
    case PUnsigned => ReadUnsigned(data).MapSuccess(i => IntV(i))
    case PInt64 => ReadInt64(data).MapSuccess(i => IntV(i))
    case PUint64 => ReadUint64(data).MapSuccess(i => IntV(i))
    case PDouble => ReadDouble(data).MapSuccess(d => RealV(d))
    case PFloat => ReadDouble(data).MapSuccess(d => RealV(d))
    case PBool => ReadBool(data).MapSuccess(b => BoolV(b))
    case PString => ReadString(data).MapSuccess(s => StrV(s))
  }

  /** `Deserialize`: the value must be an object with a `data` member, which
      for `std::string` must itself be a string; the value stored is what
      `ReadJsonAs<T>` returns. On failure nothing is stored. */
  function Deserialize(p: Primitive, value: Json): (r: Result<PrimValue, string>)
    ensures !HasMember(value, DATA_KEY) ==> r == Failure(MalformedMessage(p))
    ensures p == PString && HasMember(value, DATA_KEY) && !Data(value).value.JString? ==>
      r == Failure(MalformedMessage(p))
    ensures HasMember(value, DATA_KEY) && (p != PString || Data(value).value.JString?) ==>
      r == ReadAs(p, Data(value).value)
    ensures r.Success? ==> InRange(p, r.value)
  {
    match Data(value)
    case None => Failure(MalformedMessage(p))
    case Some(data) =>
      if p == PString && !data.JString? then Failure(MalformedMessage(p))
      else ReadAs(p, data)
  }

  /** Every value of the type reads back as itself. */
  lemma RoundTrip(p: Primitive, v: PrimValue)
    requires InRange(p, v)
    ensures Deserialize(p, JsonOf(p, v)) == Success(v)
  {
    EnvelopeData(PrimitiveName(p), DataJson(v));
  }

  /** A number of one integer type read through another: an `int64_t` beyond
      the 32-bit range wraps when read as an `int`. */
  lemma WideIntWraps()
    ensures Deserialize(PInt, JsonOf(PInt64, IntV(0x1_0000_0001))) == Success(IntV(1))
  {
    EnvelopeData(PrimitiveName(PInt64), JInt(0x1_0000_0001));
  }

  /** A double read as an `int` is truncated toward zero. */
  lemma DoubleReadAsIntTruncates()
    ensures Deserialize(PInt, JsonOf(PDouble, RealV(-2.5))) == Success(IntV(-2))
  {
    EnvelopeData(PrimitiveName(PDouble), JDouble(-2.5));
  }

  /** A bool is not a number, and a number is not a string. */
  lemma KindsDoNotMix(b: bool, i: int)
    ensures Deserialize(PInt, JsonOf(PBool, BoolV(b))).Failure?
    ensures Deserialize(PString, JsonOf(PInt, IntV(i))) == Failure(MalformedMessage(PString))
  {
    EnvelopeData(PrimitiveName(PBool), JBool(b));
    EnvelopeData(PrimitiveName(PInt), JInt(i));
  }
}
