/** The descriptors of `ReflectionBase.hpp` for reflected structs and for
    `std::vector`. A descriptor is modelled by what the others use of it: its
    name (`ToString`), the text its `Serialize` writes, the JSON value that
    text parses to, and its `Deserialize`, which reads a JSON value into an
    existing object and fails where the C++ code throws. */
module ReflectionContainers {
  import opened Wrappers
  import opened StringEscapes
  import opened JsonValues

  /** The descriptor of an element type `T`. `read(o, v)` is `Deserialize`
      into an object whose old value is `o`. */
  datatype ItemDescriptor<!T> = ItemDescriptor(
    name: Bytes,
    text: T -> Bytes,
    json: T -> Json,
    read: (T, Json) -> Result<T, string>)

  /** The text written is the JSON text of the value. */
  ghost predicate Prints<T(!new)>(d: ItemDescriptor<T>, fmt: DoubleFormat)
  {
    forall x :: d.text(x) == Print(d.json(x), fmt)
  }

  /** Reading a written value back gives the value, whatever the target held. */
  ghost predicate ReadsBack<T(!new)>(d: ItemDescriptor<T>)
  {
    forall x, o :: d.read(o, d.json(x)) == Success(x)
  }

  function Texts<T(!new)>(d: ItemDescriptor<T>, items: seq<T>): (r: seq<Bytes>)
    ensures |r| == |items| && forall i :: 0 <= i < |items| ==> r[i] == d.text(items[i])
  {
    seq(|items|, i requires 0 <= i < |items| => d.text(items[i]))
  }

  function Jsons<T(!new)>(d: ItemDescriptor<T>, items: seq<T>): (r: seq<Json>)
    ensures |r| == |items| && forall i :: 0 <= i < |items| ==> r[i] == d.json(items[i])
  {
    seq(|items|, i requires 0 <= i < |items| => d.json(items[i]))
  }

  /** The elements written one after another with a comma between two. */
  lemma PrintsElements<T(!new)>(d: ItemDescriptor<T>, items: seq<T>, fmt: DoubleFormat)
    requires Prints(d, fmt)
    ensures Print(JArray(Jsons(d, items)), fmt) == LBRACKET + Join(Texts(d, items), COMMA) + RBRACKET
  {
    assert PrintAll(Jsons(d, items), fmt) == Texts(d, items);
  }

  // ---------------------------------------------------------------- structs

  /** A member of a reflected struct `S`: its name and its type's descriptor
      applied through `get_ptr`, so that `read(o, v)` is the struct `o` with
      that member deserialised from `v`. */
  datatype Member<!S> = Member(
    name: Bytes,
    text: S -> Bytes,
    json: S -> Json,
    read: (S, Json) -> Result<S, string>)

  datatype StructDescriptor<!S> = StructDescriptor(name: Bytes, members: seq<Member<S>>)

  function MemberTexts<S(!new)>(members: seq<Member<S>>, obj: S): (r: seq<Bytes>)
    ensures |r| == |members| && forall i :: 0 <= i < |members| ==> r[i] == members[i].text(obj)
  {
    seq(|members|, i requires 0 <= i < |members| => members[i].text(obj))
  }

  function MemberJsons<S(!new)>(members: seq<Member<S>>, obj: S): (r: seq<Json>)
    ensures |r| == |members| && forall i :: 0 <= i < |members| ==> r[i] == members[i].json(obj)
  {
    seq(|members|, i requires 0 <= i < |members| => members[i].json(obj))
  }

  /** The text the struct's `Serialize` writes: the envelope with the
      members' texts, in member order, as the data array. */
  function StructText<S(!new)>(d: StructDescriptor<S>, obj: S): Bytes
  {
    EnvelopeText(d.name, LBRACKET + Join(MemberTexts(d.members, obj), COMMA) + RBRACKET)
  }

  /** The parsed form of that text. */
  function StructJson<S(!new)>(d: StructDescriptor<S>, obj: S): Json
  {
    Envelope(d.name, JArray(MemberJsons(d.members, obj)))
  }

  /** `Serialize`: the head, then each member's text with a comma before all
      but the first, then `]}`. */
  method SerializeStruct<S(!new)>(d: StructDescriptor<S>, obj: S) returns (text: Bytes)
    ensures text == StructText(d, obj)
  {
    var body := StructBody(d, obj);
    text := EnvelopeHead(d.name) + LBRACKET + body + RBRACKET + RBRACE;
    ArrayEnvelope(d.name, body);
  }

  /** The loop of `Serialize`: the members' texts with a comma between each
      two. */
  method StructBody<S(!new)>(d: StructDescriptor<S>, obj: S) returns (body: Bytes)
    ensures body == Join(MemberTexts(d.members, obj), COMMA)
  {
    ghost var texts := MemberTexts(d.members, obj);
    body := [];
    var first := true;
    var i := 0;
    while i < |d.members|
      invariant 0 <= i <= |d.members|
      invariant first <==> i == 0
      invariant body == Join(texts[..i], COMMA)
    {
      JoinPrefixStep(texts, i, COMMA);
      if !first {
        body := body + COMMA;
      }
      first := false;
      body := body + d.members[i].text(obj);
      i := i + 1;
    }
    assert texts[..i] == texts;
  }

  /** With plain names and members whose texts are their JSON texts, the
      struct's text is the JSON text of `StructJson`. */
  lemma StructTextIsJson<S(!new)>(d: StructDescriptor<S>, obj: S, fmt: DoubleFormat)
    requires IsPlainName(d.name)
    requires forall i :: 0 <= i < |d.members| ==> d.members[i].text(obj) == Print(d.members[i].json(obj), fmt)
    ensures StructText(d, obj) == Print(StructJson(d, obj), fmt)
  {
    var items := MemberJsons(d.members, obj);
    assert PrintAll(items, fmt) == MemberTexts(d.members, obj);
    assert Print(JArray(items), fmt) == LBRACKET + Join(MemberTexts(d.members, obj), COMMA) + RBRACKET;
    PrintEnvelope(d.name, JArray(items), fmt);
  }

  function MalformedStruct(name: Bytes): string
  {
    "Malformed JSON while deserializing struct '" + name + "'"
  }

  function SizeMismatch(name: Bytes, expected: nat, got: nat): string
  {
    "Array size mismatch while deserializing struct '" + name + "' : expected " + NatText(expected) + " got " + NatText(got)
  }

  /** The data array of an envelope, when the value is an object whose `data`
      member is an array. */
  function DataArray(value: Json): (r: Option<seq<Json>>)
    ensures r.Some? <==> HasMember(value, DATA_KEY) && Data(value).value.JArray?
    ensures r.Some? ==> r.value == Data(value).value.items
  {
    match Data(value)
    case Some(JArray(items)) => Some(items)
    case _ => None
  }

  /** The members from `i` on read from the array elements, member `i` from
      element `i`; the first failure ends the reading. */
  function ReadMembers<S(!new)>(members: seq<Member<S>>, obj: S, arr: seq<Json>, i: nat): Result<S, string>
    requires |arr| == |members| && i <= |members|
    decreases |members| - i
  {
    if i == |members| then Success(obj)
    else
      match members[i].read(obj, arr[i])
      case Failure(e) => Failure(e)
      case Success(next) => ReadMembers(members, next, arr, i + 1)
  }

  /** The struct's `Deserialize`: a malformed value and an array of the wrong
      length are errors; otherwise every member is read in order. */
  function StructRead<S(!new)>(d: StructDescriptor<S>, obj: S, value: Json): (r: Result<S, string>)
    ensures DataArray(value).None? ==> r == Failure(MalformedStruct(d.name))
    ensures DataArray(value).Some? && |DataArray(value).value| != |d.members| ==>
      r == Failure(SizeMismatch(d.name, |d.members|, |DataArray(value).value|))
    ensures DataArray(value).Some? && |DataArray(value).value| == |d.members| ==>
      r == ReadMembers(d.members, obj, DataArray(value).value, 0)
  {
    match DataArray(value)
    case None => Failure(MalformedStruct(d.name))
    case Some(arr) =>
      if |arr| != |d.members| then Failure(SizeMismatch(d.name, |d.members|, |arr|))
      else ReadMembers(d.members, obj, arr, 0)
  }

  /** The member loop of `Deserialize`. */
  method DeserializeStruct<S(!new)>(d: StructDescriptor<S>, obj: S, value: Json) returns (r: Result<S, string>)
    ensures r == StructRead(d, obj, value)
  {
    var arr := DataArray(value);
    if arr.None? {
      return Failure(MalformedStruct(d.name));
    }
    var items := arr.value;
    if |items| != |d.members| {
      return Failure(SizeMismatch(d.name, |d.members|, |items|));
    }
    var cur := obj;
    var i := 0;
    while i < |d.members|
      invariant 0 <= i <= |d.members|
      invariant ReadMembers(d.members, cur, items, i) == ReadMembers(d.members, obj, items, 0)
    {
      var next := d.members[i].read(cur, items[i]);
      if next.Failure? {
        return Failure(next.error);
      }
      cur := next.value;
      i := i + 1;
    }
    r := Success(cur);
  }

  /** Each member reads its own written value back, so that afterwards it
      writes the same value again, whatever the struct held. */
  ghost predicate MembersReadBack<S(!new)>(members: seq<Member<S>>, x: S)
  {
    forall i, o :: 0 <= i < |members| ==>
      members[i].read(o, members[i].json(x)).Success? &&
      members[i].json(members[i].read(o, members[i].json(x)).value) == members[i].json(x)
  }

  /** Reading one member leaves what every other member writes unchanged:
      the members are distinct fields. */
  ghost predicate Independent<S(!new)>(members: seq<Member<S>>)
  {
    forall i, j, o, v :: 0 <= i < |members| && 0 <= j < |members| && i != j && members[i].read(o, v).Success? ==>
      members[j].json(members[i].read(o, v).value) == members[j].json(o)
  }

  lemma {:induction false} ReadMembersBack<S(!new)>(members: seq<Member<S>>, x: S, obj: S, i: nat)
    requires i <= |members|
    requires MembersReadBack(members, x) && Independent(members)
    requires forall j :: 0 <= j < i ==> members[j].json(obj) == members[j].json(x)
    ensures ReadMembers(members, obj, MemberJsons(members, x), i).Success?
    ensures MemberJsons(members, ReadMembers(members, obj, MemberJsons(members, x), i).value) == MemberJsons(members, x)
    decreases |members| - i
  {
    var arr := MemberJsons(members, x);
    if i == |members| {
      assert MemberJsons(members, obj) == arr;
    } else {
      var next := members[i].read(obj, arr[i]).value;
      assert members[i].json(next) == members[i].json(x);
      forall j | 0 <= j < i + 1 ensures members[j].json(next) == members[j].json(x) {
        if j != i {
          assert members[j].json(next) == members[j].json(obj);
        }
      }
      ReadMembersBack(members, x, next, i + 1);
    }
  }

  /** Reading back what a struct wrote gives an object that writes exactly
      the same members, whatever the target held before. */
  lemma StructRoundTrip<S(!new)>(d: StructDescriptor<S>, x: S, obj: S)
    requires MembersReadBack(d.members, x) && Independent(d.members)
    ensures StructRead(d, obj, StructJson(d, x)).Success?
    ensures StructJson(d, StructRead(d, obj, StructJson(d, x)).value) == StructJson(d, x)
  {
    EnvelopeData(d.name, JArray(MemberJsons(d.members, x)));
    ReadMembersBack(d.members, x, obj, 0);
  }

  // ---------------------------------------------------------------- vectors

  /** `std::vector<item>`: the name the descriptor takes once its item type is
      resolved. */
  function VectorName(item: Bytes): Bytes
  {
    "std::vector<" + item + ">"
  }

  /** Different item types give different vector names. */
  lemma VectorNameInjective(a: Bytes, b: Bytes)
    requires VectorName(a) == VectorName(b)
    ensures a == b
  {
    var prefix: Bytes := "std::vector<";
    assert a == VectorName(a)[|prefix|..|VectorName(a)| - 1];
    assert b == VectorName(b)[|prefix|..|VectorName(b)| - 1];
  }

  function VectorText<T(!new)>(d: ItemDescriptor<T>, items: seq<T>): Bytes
  {
    EnvelopeText(VectorName(d.name), LBRACKET + Join(Texts(d, items), COMMA) + RBRACKET)
  }

  function VectorJson<T(!new)>(d: ItemDescriptor<T>, items: seq<T>): Json
  {
    Envelope(VectorName(d.name), JArray(Jsons(d, items)))
  }

  /** `Serialize`: an empty vector is the envelope with `[]`; otherwise each
      element's text followed by a comma unless it is the last. */
  method SerializeVector<T(!new)>(d: ItemDescriptor<T>, items: seq<T>) returns (text: Bytes)
    ensures text == VectorText(d, items)
    ensures items == [] ==> text == EnvelopeText(VectorName(d.name), LBRACKET + RBRACKET)
  {
    var name := VectorName(d.name);
    var n := |items|;
    if n == 0 {
      text := EnvelopeHead(name) + LBRACKET + RBRACKET + RBRACE;
      assert EnvelopeHead(name) + LBRACKET + [] == EnvelopeHead(name) + LBRACKET;
      VectorTextOf(d, items, []);
      assert LBRACKET + [] == LBRACKET;
      return;
    }
    var body := VectorBody(d, items);
    text := EnvelopeHead(name) + LBRACKET + body + RBRACKET + RBRACE;
    VectorTextOf(d, items, body);
  }

  /** The pieces `Serialize` writes around the elements' joined texts make up
      the vector's text. */
  lemma VectorTextOf<T(!new)>(d: ItemDescriptor<T>, items: seq<T>, body: Bytes)
    requires body == Join(Texts(d, items), COMMA)
    ensures EnvelopeHead(VectorName(d.name)) + LBRACKET + body + RBRACKET + RBRACE == VectorText(d, items)
    ensures EnvelopeText(VectorName(d.name), LBRACKET + body + RBRACKET) == VectorText(d, items)
  {
    ArrayEnvelope(VectorName(d.name), body);
  }

  /** The loop of `Serialize` over a non-empty vector: the elements' texts
      with a comma between each two. */
  method VectorBody<T(!new)>(d: ItemDescriptor<T>, items: seq<T>) returns (body: Bytes)
    requires items != []
    ensures body == Join(Texts(d, items), COMMA)
  {
    var n := |items|;
    ghost var texts := Texts(d, items);
    body := [];
    var index := 0;
    while index < n
      invariant 0 <= index <= n
      invariant index == 0 ==> body == []
      invariant 0 < index < n ==> body == Join(texts[..index], COMMA) + COMMA
      invariant index == n ==> body == Join(texts, COMMA)
    {
      JoinPrefixStep(texts, index, COMMA);
      body := body + d.text(items[index]);
      assert body == Join(texts[..index + 1], COMMA);
      if index < n - 1 {
        body := body + COMMA;
      } else {
        assert texts[..index + 1] == texts;
      }
      index := index + 1;
    }
  }

  /** With a plain item name and items whose texts are their JSON texts, the
      vector's text is the JSON text of `VectorJson`. */
  lemma VectorTextIsJson<T(!new)>(d: ItemDescriptor<T>, items: seq<T>, fmt: DoubleFormat)
    requires IsPlainName(VectorName(d.name)) && Prints(d, fmt)
    ensures VectorText(d, items) == Print(VectorJson(d, items), fmt)
  {
    PrintsElements(d, items, fmt);
    PrintEnvelope(VectorName(d.name), JArray(Jsons(d, items)), fmt);
  }

  const MALFORMED_VECTOR: string := "Malformed JSON while deserializing std::vector"

  /** The elements from `i` on read into the vector: `set_item` grows the
      vector by a default element when `i` is past its end, and the element
      at `i` is then read from `arr[i]`. */
  function ReadElements<T(!new)>(read: (T, Json) -> Result<T, string>, vec: seq<T>, arr: seq<Json>, dflt: T, i: nat): Result<seq<T>, string>
    requires i <= |arr| && i <= |vec|
    decreases |arr| - i
  {
    if i == |arr| then Success(vec)
    else
      var grown := if i < |vec| then vec else vec + [dflt];
      match read(grown[i], arr[i])
      case Failure(e) => Failure(e)
      case Success(x) => ReadElements(read, grown[i := x], arr, dflt, i + 1)
  }

  /** The vector's `Deserialize`: a malformed value is an error; otherwise the
      elements are read in order, overwriting and growing, never shrinking. */
  function VectorRead<T(!new)>(d: ItemDescriptor<T>, vec: seq<T>, value: Json, dflt: T): (r: Result<seq<T>, string>)
    ensures DataArray(value).None? ==> r == Failure(MALFORMED_VECTOR)
  {
    match DataArray(value)
    case None => Failure(MALFORMED_VECTOR)
    case Some(arr) => ReadElements(d.read, vec, arr, dflt, 0)
  }

  /** The element loop of `Deserialize`, with `set_item`'s resize. */
  method DeserializeVector<T(!new)>(d: ItemDescriptor<T>, vec: seq<T>, value: Json, dflt: T) returns (r: Result<seq<T>, string>)
    ensures r == VectorRead(d, vec, value, dflt)
  {
    var arr := DataArray(value);
    if arr.None? {
      return Failure(MALFORMED_VECTOR);
    }
    var items := arr.value;
    var cur := vec;
    var i := 0;
    while i < |items|
      invariant 0 <= i <= |items| && i <= |cur|
      invariant ReadElements(d.read, cur, items, dflt, i) == ReadElements(d.read, vec, items, dflt, 0)
    {
      if i >= |cur| {
        cur := cur + [dflt];
      }
      var x := d.read(cur[i], items[i]);
      if x.Failure? {
        return Failure(x.error);
      }
      cur := cur[i := x.value];
      i := i + 1;
    }
    r := Success(cur);
  }

  /** After reading elements `i..` successfully, the length is the larger of
      the two, the first elements are unchanged, and every element past the
      array is the vector's old one. */
  lemma {:induction false} ReadElementsShape<T(!new)>(read: (T, Json) -> Result<T, string>, vec: seq<T>, arr: seq<Json>, dflt: T, i: nat)
    requires i <= |arr| && i <= |vec|
    requires ReadElements(read, vec, arr, dflt, i).Success?
    ensures var out := ReadElements(read, vec, arr, dflt, i).value;
      && |out| == (if |arr| > |vec| then |arr| else |vec|)
      && out[..i] == vec[..i]
      && (forall j :: |arr| <= j < |vec| ==> out[j] == vec[j])
    decreases |arr| - i
  {
    if i < |arr| {
      var grown := if i < |vec| then vec else vec + [dflt];
      var x := read(grown[i], arr[i]).value;
      ReadElementsShape(read, grown[i := x], arr, dflt, i + 1);
    }
  }

  /** A successful vector read has length max(old, n) and keeps the old
      elements beyond the array's length. */
  lemma VectorReadGrowsOnly<T(!new)>(d: ItemDescriptor<T>, vec: seq<T>, value: Json, dflt: T)
    requires VectorRead(d, vec, value, dflt).Success?
    ensures var out := VectorRead(d, vec, value, dflt).value;
      var n := |DataArray(value).value|;
      && |out| == (if n > |vec| then n else |vec|)
      && (forall j :: n <= j < |vec| ==> out[j] == vec[j])
  {
    ReadElementsShape(d.read, vec, DataArray(value).value, dflt, 0);
  }

  lemma {:induction false} ReadElementsBack<T(!new)>(d: ItemDescriptor<T>, items: seq<T>, vec: seq<T>, dflt: T, i: nat)
    requires ReadsBack(d)
    requires i <= |items| && i <= |vec|
    requires vec[..i] == items[..i]
    ensures ReadElements(d.read, vec, Jsons(d, items), dflt, i)
      == Success(items + (if |vec| > |items| then vec[|items|..] else []))
    decreases |items| - i
  {
    var arr := Jsons(d, items);
    if i == |items| {
      assert items[..i] == items;
      if |vec| > |items| {
        assert vec == vec[..i] + vec[|items|..];
      } else {
        assert vec == vec[..i];
        assert items + [] == items;
      }
    } else {
      var grown := if i < |vec| then vec else vec + [dflt];
      assert d.read(grown[i], d.json(items[i])) == Success(items[i]);
      var next := grown[i := items[i]];
      assert next[..i + 1] == items[..i + 1] by {
        assert grown[..i] == vec[..i];
      }
      assert |next| > |items| <==> |vec| > |items|;
      assert |next| > |items| ==> next[|items|..] == vec[|items|..];
      ReadElementsBack(d, items, next, dflt, i + 1);
    }
  }

  /** Reading back what a vector wrote gives its elements, followed by the
      target's own elements past that length: reading into an empty or
      shorter vector gives exactly the vector written. */
  lemma VectorRoundTrip<T(!new)>(d: ItemDescriptor<T>, items: seq<T>, vec: seq<T>, dflt: T)
    requires ReadsBack(d)
    ensures VectorRead(d, vec, VectorJson(d, items), dflt)
      == Success(items + (if |vec| > |items| then vec[|items|..] else []))
    ensures |vec| <= |items| ==> VectorRead(d, vec, VectorJson(d, items), dflt) == Success(items)
  {
    EnvelopeData(VectorName(d.name), JArray(Jsons(d, items)));
    ReadElementsBack(d, items, vec, dflt, 0);
    assert items + [] == items;
  }
}
