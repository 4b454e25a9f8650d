/** The descriptors of `ReflectionBase.hpp` for `std::unordered_map`,
    `std::pair` and `std::shared_ptr<T>`, over the element descriptors of
    `ReflectionContainers`. */
module ReflectionMaps {
  import opened Wrappers
  import opened StringEscapes
  import opened JsonValues
  import opened ReflectionContainers

  // ------------------------------------------------------------------ maps

  function MapName(key: Bytes, value: Bytes): Bytes
  {
    "std::unordered_map<" + key + ", " + value + ">"
  }

  /** The order in which the map's iteration visits its keys: each key once. */
  ghost predicate IsIterationOrder<K(!new), V>(order: seq<K>, m: map<K, V>)
  {
    && (forall i, j :: 0 <= i < j < |order| ==> order[i] != order[j])
    && (forall k :: k in m <==> k in order)
  }

  /** One entry as `Serialize` writes it: `[key,value]`. */
  function EntryText<K(!new), V(!new)>(kd: ItemDescriptor<K>, vd: ItemDescriptor<V>, k: K, v: V): Bytes
  {
    LBRACKET + kd.text(k) + COMMA + vd.text(v) + RBRACKET
  }

  function EntryJson<K(!new), V(!new)>(kd: ItemDescriptor<K>, vd: ItemDescriptor<V>, k: K, v: V): Json
  {
    JArray([kd.json(k), vd.json(v)])
  }

  function EntryTexts<K(!new), V(!new)>(kd: ItemDescriptor<K>, vd: ItemDescriptor<V>, m: map<K, V>, order: seq<K>): (r: seq<Bytes>)
    requires forall i :: 0 <= i < |order| ==> order[i] in m
    ensures |r| == |order| && forall i :: 0 <= i < |order| ==> r[i] == EntryText(kd, vd, order[i], m[order[i]])
  {
    seq(|order|, i requires 0 <= i < |order| && order[i] in m => EntryText(kd, vd, order[i], m[order[i]]))
  }

  function EntryJsons<K(!new), V(!new)>(kd: ItemDescriptor<K>, vd: ItemDescriptor<V>, m: map<K, V>, order: seq<K>): (r: seq<Json>)
    requires forall i :: 0 <= i < |order| ==> order[i] in m
    ensures |r| == |order| && forall i :: 0 <= i < |order| ==> r[i] == EntryJson(kd, vd, order[i], m[order[i]])
  {
    seq(|order|, i requires 0 <= i < |order| && order[i] in m => EntryJson(kd, vd, order[i], m[order[i]]))
  }

  function MapText<K(!new), V(!new)>(kd: ItemDescriptor<K>, vd: ItemDescriptor<V>, m: map<K, V>, order: seq<K>): Bytes
    requires IsIterationOrder(order, m)
  {
    EnvelopeText(MapName(kd.name, vd.name), LBRACKET + Join(EntryTexts(kd, vd, m, order), COMMA) + RBRACKET)
  }

  function MapJson<K(!new), V(!new)>(kd: ItemDescriptor<K>, vd: ItemDescriptor<V>, m: map<K, V>, order: seq<K>): Json
    requires IsIterationOrder(order, m)
  {
    Envelope(MapName(kd.name, vd.name), JArray(EntryJsons(kd, vd, m, order)))
  }

  /** `Serialize`: the entries in iteration order, a comma before all but the
      first. */
  method SerializeMap<K(!new), V(!new)>(kd: ItemDescriptor<K>, vd: ItemDescriptor<V>, m: map<K, V>, order: seq<K>)
    returns (text: Bytes)
    requires IsIterationOrder(order, m)
    ensures text == MapText(kd, vd, m, order)
  {
    var body := MapBody(kd, vd, m, order);
    text := EnvelopeHead(MapName(kd.name, vd.name)) + LBRACKET + body + RBRACKET + RBRACE;
    ArrayEnvelope(MapName(kd.name, vd.name), body);
  }

  /** The loop of `Serialize`: the entries' texts in iteration order with a
      comma between each two. */
  method MapBody<K(!new), V(!new)>(kd: ItemDescriptor<K>, vd: ItemDescriptor<V>, m: map<K, V>, order: seq<K>)
    returns (body: Bytes)
    requires forall i :: 0 <= i < |order| ==> order[i] in m
    ensures body == Join(EntryTexts(kd, vd, m, order), COMMA)
  {
    ghost var texts := EntryTexts(kd, vd, m, order);
    body := [];
    var first := true;
    var i := 0;
    while i < |order|
      invariant 0 <= i <= |order|
      invariant first <==> i == 0
      invariant body == Join(texts[..i], COMMA)
    {
      var k := order[i];
      var entry := EntryText(kd, vd, k, m[k]);
      assert entry == texts[i];
      JoinPrefixStep(texts, i, COMMA);
      if !first {
        body := body + COMMA;
      }
      first := false;
      body := body + entry;
      i := i + 1;
    }
    assert texts[..i] == texts;
  }

  /** An entry's text is the JSON text of its two-element array. */
  lemma EntryTextIsJson<K(!new), V(!new)>(kd: ItemDescriptor<K>, vd: ItemDescriptor<V>, k: K, v: V, fmt: DoubleFormat)
    requires Prints(kd, fmt) && Prints(vd, fmt)
    ensures EntryText(kd, vd, k, v) == Print(EntryJson(kd, vd, k, v), fmt)
  {
    var a, b := kd.text(k), vd.text(v);
    assert PrintAll([kd.json(k), vd.json(v)], fmt) == [a, b];
    assert [a, b][1..] == [b];
    assert Join([a, b], COMMA) == a + COMMA + b;
    assert LBRACKET + (a + COMMA + b) == LBRACKET + a + COMMA + b;
  }

  /** With a plain name and element texts that are their JSON texts, the
      map's text is the JSON text of `MapJson`. */
  lemma MapTextIsJson<K(!new), V(!new)>(kd: ItemDescriptor<K>, vd: ItemDescriptor<V>, m: map<K, V>, order: seq<K>, fmt: DoubleFormat)
    requires IsIterationOrder(order, m)
    requires IsPlainName(MapName(kd.name, vd.name)) && Prints(kd, fmt) && Prints(vd, fmt)
    ensures MapText(kd, vd, m, order) == Print(MapJson(kd, vd, m, order), fmt)
  {
    var entries := EntryJsons(kd, vd, m, order);
    EntryTextsAreJson(kd, vd, m, order, fmt);
    assert Print(JArray(entries), fmt) == LBRACKET + Join(EntryTexts(kd, vd, m, order), COMMA) + RBRACKET;
    PrintEnvelope(MapName(kd.name, vd.name), JArray(entries), fmt);
  }

  /** Entry by entry, the texts written are the JSON texts of the entries. */
  lemma EntryTextsAreJson<K(!new), V(!new)>(kd: ItemDescriptor<K>, vd: ItemDescriptor<V>, m: map<K, V>, order: seq<K>, fmt: DoubleFormat)
    requires forall i :: 0 <= i < |order| ==> order[i] in m
    requires Prints(kd, fmt) && Prints(vd, fmt)
    ensures PrintAll(EntryJsons(kd, vd, m, order), fmt) == EntryTexts(kd, vd, m, order)
  {
    var entries := EntryJsons(kd, vd, m, order);
    forall i | 0 <= i < |order| ensures PrintAll(entries, fmt)[i] == EntryTexts(kd, vd, m, order)[i] {
      EntryTextIsJson(kd, vd, order[i], m[order[i]], fmt);
    }
  }

  const MALFORMED_MAP: string := "Malformed JSON while deserializing std::unordered_map"
  /** `arr[i][0]` and `arr[i][1]` on an element that is not an array of at
      least two values: rapidjson's assertion. */
  const NOT_AN_ENTRY: string := "rapidjson assertion: map entry is not a [key, value] array"

  /** The entries from `i` on: key and value each read into a default-made
      object, key first, then `map[key] = val`. */
  function ReadEntries<K(!new), V(!new)>(kd: ItemDescriptor<K>, vd: ItemDescriptor<V>, m: map<K, V>, arr: seq<Json>,
                                         kdflt: K, vdflt: V, i: nat): Result<map<K, V>, string>
    requires i <= |arr|
    decreases |arr| - i
  {
    if i == |arr| then Success(m)
    else if !arr[i].JArray? || |arr[i].items| < 2 then Failure(NOT_AN_ENTRY)
    else
      match kd.read(kdflt, arr[i].items[0])
      case Failure(e) => Failure(e)
      case Success(key) =>
        match vd.read(vdflt, arr[i].items[1])
        case Failure(e) => Failure(e)
        case Success(val) => ReadEntries(kd, vd, m[key := val], arr, kdflt, vdflt, i + 1)
  }

  /** The map's `Deserialize`. */
  function MapRead<K(!new), V(!new)>(kd: ItemDescriptor<K>, vd: ItemDescriptor<V>, m: map<K, V>, value: Json,
                                     kdflt: K, vdflt: V): (r: Result<map<K, V>, string>)
    ensures DataArray(value).None? ==> r == Failure(MALFORMED_MAP)
  {
    match DataArray(value)
    case None => Failure(MALFORMED_MAP)
    case Some(arr) => ReadEntries(kd, vd, m, arr, kdflt, vdflt, 0)
  }

  /** The entry loop of `Deserialize`. */
  method DeserializeMap<K(!new), V(!new)>(kd: ItemDescriptor<K>, vd: ItemDescriptor<V>, m: map<K, V>, value: Json,
                                          kdflt: K, vdflt: V) returns (r: Result<map<K, V>, string>)
    ensures r == MapRead(kd, vd, m, value, kdflt, vdflt)
  {
    var arr := DataArray(value);
    if arr.None? {
      return Failure(MALFORMED_MAP);
    }
    var items := arr.value;
    var cur := m;
    var i := 0;
    while i < |items|
      invariant 0 <= i <= |items|
      invariant ReadEntries(kd, vd, cur, items, kdflt, vdflt, i) == ReadEntries(kd, vd, m, items, kdflt, vdflt, 0)
    {
      var entry := items[i];
      if !entry.JArray? || |entry.items| < 2 {
        return Failure(NOT_AN_ENTRY);
      }
      var key := kd.read(kdflt, entry.items[0]);
      if key.Failure? {
        return Failure(key.error);
      }
      var val := vd.read(vdflt, entry.items[1]);
      if val.Failure? {
        return Failure(val.error);
      }
      cur := cur[key.value := val.value];
      i := i + 1;
    }
    r := Success(cur);
  }

  /** Reading never removes a key. */
  lemma {:induction false} ReadEntriesKeepsKeys<K(!new), V(!new)>(kd: ItemDescriptor<K>, vd: ItemDescriptor<V>, m: map<K, V>,
                                                                  arr: seq<Json>, kdflt: K, vdflt: V, i: nat)
    requires i <= |arr|
    requires ReadEntries(kd, vd, m, arr, kdflt, vdflt, i).Success?
    ensures m.Keys <= ReadEntries(kd, vd, m, arr, kdflt, vdflt, i).value.Keys
    decreases |arr| - i
  {
    if i < |arr| {
      var key := kd.read(kdflt, arr[i].items[0]).value;
      var val := vd.read(vdflt, arr[i].items[1]).value;
      ReadEntriesKeepsKeys(kd, vd, m[key := val], arr, kdflt, vdflt, i + 1);
    }
  }

  /** `cur` with the keys of `keys`, in order, set to their values in `m`. */
  function Inserted<K(!new), V(!new)>(cur: map<K, V>, m: map<K, V>, keys: seq<K>): map<K, V>
    requires forall i :: 0 <= i < |keys| ==> keys[i] in m
    decreases |keys|
  {
    if keys == [] then cur else Inserted(cur[keys[0] := m[keys[0]]], m, keys[1..])
  }

  /** The keys inserted take their values in `m`; every other key keeps its value. */
  lemma {:induction false} InsertedValues<K(!new), V(!new)>(cur: map<K, V>, m: map<K, V>, keys: seq<K>)
    requires forall i :: 0 <= i < |keys| ==> keys[i] in m
    ensures forall k :: k in Inserted(cur, m, keys) <==> k in cur || k in keys
    ensures forall k :: k in keys ==> Inserted(cur, m, keys)[k] == m[k]
    ensures forall k :: k in cur && k !in keys ==> Inserted(cur, m, keys)[k] == cur[k]
    decreases |keys|
  {
    if keys != [] {
      var rest := keys[1..];
      assert forall k :: k in keys <==> k == keys[0] || k in rest by {
        assert keys == [keys[0]] + rest;
      }
      InsertedValues(cur[keys[0] := m[keys[0]]], m, rest);
    }
  }

  /** The entries `i..` of the written map, read on top of `cur`. */
  lemma {:induction false} ReadEntriesBack<K(!new), V(!new)>(kd: ItemDescriptor<K>, vd: ItemDescriptor<V>, m: map<K, V>,
                                                             order: seq<K>, cur: map<K, V>, kdflt: K, vdflt: V, i: nat)
    requires ReadsBack(kd) && ReadsBack(vd)
    requires IsIterationOrder(order, m) && i <= |order|
    ensures ReadEntries(kd, vd, cur, EntryJsons(kd, vd, m, order), kdflt, vdflt, i) == Success(Inserted(cur, m, order[i..]))
    decreases |order| - i
  {
    var arr := EntryJsons(kd, vd, m, order);
    if i < |order| {
      var k := order[i];
      assert arr[i] == JArray([kd.json(k), vd.json(m[k])]);
      assert kd.read(kdflt, kd.json(k)) == Success(k);
      assert vd.read(vdflt, vd.json(m[k])) == Success(m[k]);
      ReadEntriesBack(kd, vd, m, order, cur[k := m[k]], kdflt, vdflt, i + 1);
      assert order[i..][1..] == order[i + 1..];
    }
  }

  /** Reading back what a map wrote gives the target with every written
      entry inserted or overwritten and every other key kept. */
  lemma MapRoundTrip<K(!new), V(!new)>(kd: ItemDescriptor<K>, vd: ItemDescriptor<V>, m: map<K, V>, order: seq<K>,
                                       target: map<K, V>, kdflt: K, vdflt: V)
    requires ReadsBack(kd) && ReadsBack(vd) && IsIterationOrder(order, m)
    ensures MapRead(kd, vd, target, MapJson(kd, vd, m, order), kdflt, vdflt) == Success(target + m)
  {
    EnvelopeData(MapName(kd.name, vd.name), JArray(EntryJsons(kd, vd, m, order)));
    ReadEntriesBack(kd, vd, m, order, target, kdflt, vdflt, 0);
    assert order[0..] == order;
    InsertedIsUnion(target, m, order);
  }

  /** Inserting every key of `m` is the union in which `m` wins. */
  lemma InsertedIsUnion<K(!new), V(!new)>(target: map<K, V>, m: map<K, V>, order: seq<K>)
    requires IsIterationOrder(order, m)
    ensures Inserted(target, m, order) == target + m
  {
    InsertedValues(target, m, order);
    var r := Inserted(target, m, order);
    assert r.Keys == target.Keys + m.Keys;
  }

  /** When a key appears twice, the later entry wins. */
  lemma LastEntryWins<K(!new), V(!new)>(kd: ItemDescriptor<K>, vd: ItemDescriptor<V>, target: map<K, V>,
                                        k: K, v1: V, v2: V, kdflt: K, vdflt: V)
    requires ReadsBack(kd) && ReadsBack(vd)
    ensures MapRead(kd, vd, target, Envelope(MapName(kd.name, vd.name), JArray([EntryJson(kd, vd, k, v1), EntryJson(kd, vd, k, v2)])), kdflt, vdflt)
      == Success(target[k := v2])
  {
    var arr := [EntryJson(kd, vd, k, v1), EntryJson(kd, vd, k, v2)];
    EnvelopeData(MapName(kd.name, vd.name), JArray(arr));
    assert kd.read(kdflt, kd.json(k)) == Success(k);
    assert vd.read(vdflt, vd.json(v1)) == Success(v1);
    assert vd.read(vdflt, vd.json(v2)) == Success(v2);
    assert ReadEntries(kd, vd, target[k := v1][k := v2], arr, kdflt, vdflt, 2) == Success(target[k := v1][k := v2]);
    assert ReadEntries(kd, vd, target[k := v1], arr, kdflt, vdflt, 1) == Success(target[k := v1][k := v2]);
    assert ReadEntries(kd, vd, target, arr, kdflt, vdflt, 0) == Success(target[k := v1][k := v2]);
    assert target[k := v1][k := v2] == target[k := v2];
  }

  // ----------------------------------------------------------------- pairs

  function PairName(first: Bytes, second: Bytes): Bytes
  {
    "std::pair<" + first + ", " + second + ">"
  }

  function PairText<A(!new), B(!new)>(fd: ItemDescriptor<A>, sd: ItemDescriptor<B>, p: (A, B)): Bytes
  {
    EnvelopeText(PairName(fd.name, sd.name), LBRACKET + fd.text(p.0) + COMMA + sd.text(p.1) + RBRACKET)
  }

  function PairJson<A(!new), B(!new)>(fd: ItemDescriptor<A>, sd: ItemDescriptor<B>, p: (A, B)): Json
  {
    Envelope(PairName(fd.name, sd.name), JArray([fd.json(p.0), sd.json(p.1)]))
  }

  /** `Serialize`: the head, the first, a comma, the second, `]}`. */
  method SerializePair<A(!new), B(!new)>(fd: ItemDescriptor<A>, sd: ItemDescriptor<B>, p: (A, B)) returns (text: Bytes)
    ensures text == PairText(fd, sd, p)
  {
    var name := PairName(fd.name, sd.name);
    var body := fd.text(p.0) + COMMA + sd.text(p.1);
    text := EnvelopeHead(name) + LBRACKET + body + RBRACKET + RBRACE;
    ArrayEnvelope(name, body);
    assert LBRACKET + body == LBRACKET + fd.text(p.0) + COMMA + sd.text(p.1);
  }

  lemma PairTextIsJson<A(!new), B(!new)>(fd: ItemDescriptor<A>, sd: ItemDescriptor<B>, p: (A, B), fmt: DoubleFormat)
    requires IsPlainName(PairName(fd.name, sd.name)) && Prints(fd, fmt) && Prints(sd, fmt)
    ensures PairText(fd, sd, p) == Print(PairJson(fd, sd, p), fmt)
  {
    EntryTextIsJson(fd, sd, p.0, p.1, fmt);
    PrintEnvelope(PairName(fd.name, sd.name), JArray([fd.json(p.0), sd.json(p.1)]), fmt);
  }

  const MALFORMED_PAIR: string := "Malformed JSON while deserializing std::pair"
  const PAIR_ARITY: string := "std::pair expects array of size 2"

  /** The pair's `Deserialize`: exactly two elements, the first read into the
      first, then the second into the second. */
  function PairRead<A(!new), B(!new)>(fd: ItemDescriptor<A>, sd: ItemDescriptor<B>, p: (A, B), value: Json): (r: Result<(A, B), string>)
    ensures DataArray(value).None? ==> r == Failure(MALFORMED_PAIR)
    ensures DataArray(value).Some? && |DataArray(value).value| != 2 ==> r == Failure(PAIR_ARITY)
    ensures r.Success? ==> DataArray(value).Some? && |DataArray(value).value| == 2
  {
    match DataArray(value)
    case None => Failure(MALFORMED_PAIR)
    case Some(arr) =>
      if |arr| != 2 then Failure(PAIR_ARITY)
      else
        match fd.read(p.0, arr[0])
        case Failure(e) => Failure(e)
        case Success(first) =>
          match sd.read(p.1, arr[1])
          case Failure(e) => Failure(e)
          case Success(second) => Success((first, second))
  }

  lemma PairRoundTrip<A(!new), B(!new)>(fd: ItemDescriptor<A>, sd: ItemDescriptor<B>, p: (A, B), target: (A, B))
    requires ReadsBack(fd) && ReadsBack(sd)
    ensures PairRead(fd, sd, target, PairJson(fd, sd, p)) == Success(p)
  {
    EnvelopeData(PairName(fd.name, sd.name), JArray([fd.json(p.0), sd.json(p.1)]));
    assert fd.read(target.0, fd.json(p.0)) == Success(p.0);
    assert sd.read(target.1, sd.json(p.1)) == Success(p.1);
  }

  // ------------------------------------------------------ shared pointers

  function SharedName(item: Bytes): Bytes
  {
    "std::shared_ptr<" + item + ">"
  }

  const NULL_TEXT: Bytes := "null"

  /** `Serialize`: a null pointer is `null`, a non-null one the pointee's own
      text, with no envelope of its own. */
  function SharedText<T(!new)>(d: ItemDescriptor<T>, p: Option<T>): (r: Bytes)
    ensures p.None? ==> r == NULL_TEXT
    ensures p.Some? ==> r == d.text(p.value)
  {
    if p.None? then NULL_TEXT else d.text(p.value)
  }

  function SharedJson<T(!new)>(d: ItemDescriptor<T>, p: Option<T>): Json
  {
    if p.None? then JNull else d.json(p.value)
  }

  lemma SharedTextIsJson<T(!new)>(d: ItemDescriptor<T>, p: Option<T>, fmt: DoubleFormat)
    requires Prints(d, fmt)
    ensures SharedText(d, p) == Print(SharedJson(d, p), fmt)
  {
  }

  /** `Deserialize`: `null` empties the pointer; anything else is read into a
      freshly made object (`dflt`), whatever the pointer held before. */
  function SharedRead<T(!new)>(d: ItemDescriptor<T>, value: Json, dflt: T): (r: Result<Option<T>, string>)
    ensures value.JNull? ==> r == Success(None)
    ensures !value.JNull? ==> r == d.read(dflt, value).MapSuccess(x => Some(x))
  {
    if value.JNull? then Success(None) else d.read(dflt, value).MapSuccess(x => Some(x))
  }

  /** A pointer reads back as itself, provided no pointee is written as `null`. */
  lemma SharedRoundTrip<T(!new)>(d: ItemDescriptor<T>, p: Option<T>, dflt: T)
    requires ReadsBack(d) && forall x :: d.json(x) != JNull
    ensures SharedRead(d, SharedJson(d, p), dflt) == Success(p)
  {
    if p.Some? {
      assert d.read(dflt, d.json(p.value)) == Success(p.value);
    }
  }

  /** The descriptor of `std::shared_ptr<T>` as an element descriptor. */
  function SharedDescriptor<T(!new)>(d: ItemDescriptor<T>, dflt: T): ItemDescriptor<Option<T>>
  {
    ItemDescriptor(SharedName(d.name), p => SharedText(d, p), p => SharedJson(d, p), (o, v) => SharedRead(d, v, dflt))
  }

  /** The proviso matters: a non-null pointer to a null pointer is written as
      `null` and reads back as a null pointer. */
  lemma NestedNullCollapses<T(!new)>(d: ItemDescriptor<T>, dflt: T, outerDflt: Option<T>)
    ensures var outer := SharedDescriptor(d, dflt);
      && SharedJson(outer, Some(None)) == JNull
      && SharedRead(outer, SharedJson(outer, Some(None)), outerDflt) == Success(None)
  {
  }
}
