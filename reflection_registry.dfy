/** The descriptor registry of `ReflectionBase.hpp` and `ReflectionBase.cpp`:
    the global `type_descriptor_lookup()` map from a type name to its
    descriptor, filled by `GetPrimitiveDescriptor<T>`, by the
    `TypeResolver<...>::Get` specialisations for the containers and by
    `REFL_REGISTER_END` for reflected structs. Every descriptor is a
    function-local static, one per C++ type, so a descriptor is identified
    here by the type it describes. */
module ReflectionRegistry {
  import opened StringEscapes
  import opened ReflectionPrimitives
  import opened ReflectionContainers
  import opened ReflectionMaps
  import opened ReflectionBlobs

  /** The C++ types that have descriptors. */
  datatype TypeKey =
    | Prim(p: Primitive)
    | Reflected(structName: Bytes)
    | VectorOf(item: TypeKey)
    | MapOf(key: TypeKey, value: TypeKey)
    | PairOf(first: TypeKey, second: TypeKey)
    | SharedOf(pointee: TypeKey)
    | SharedVoid

  /** The descriptor's `name` (its `ToString`). */
  function NameOf(k: TypeKey): Bytes
  {
    match k
    case Prim(p) => PrimitiveName(p)
    case Reflected(n) => n
    case VectorOf(i) => VectorName(NameOf(i))
    case MapOf(a, b) => MapName(NameOf(a), NameOf(b))
    case PairOf(a, b) => PairName(NameOf(a), NameOf(b))
    case SharedOf(i) => SharedName(NameOf(i))
    case SharedVoid => BLOB_NAME
  }

  /** Registration as every `Get` does it: the entry is added only when the
      name is absent. */
  function Registered(m: map<Bytes, TypeKey>, name: Bytes, d: TypeKey): (r: map<Bytes, TypeKey>)
    ensures r.Keys == m.Keys + {name}
    ensures name in m ==> r == m
    ensures name !in m ==> r[name] == d && forall n :: n in m ==> r[n] == m[n]
  {
    if name in m then m else m[name := d]
  }

  /** The first registration under a name wins. */
  lemma FirstRegistrationWins(m: map<Bytes, TypeKey>, name: Bytes, d1: TypeKey, d2: TypeKey)
    ensures Registered(Registered(m, name, d1), name, d2) == Registered(m, name, d1)
    ensures Registered(m, name, d1)[name] == if name in m then m[name] else d1
  {
  }

  /** The names resolving `k` registers: its own and, through the
      constructors of the container descriptors, those of its element types.
      A reflected struct's `TypeResolver` returns `&T::Reflection` and
      registers nothing. */
  function Names(k: TypeKey): set<Bytes>
  {
    match k
    case Prim(_) => {NameOf(k)}
    case Reflected(_) => {}
    case VectorOf(i) => {NameOf(k)} + Names(i)
    case MapOf(a, b) => {NameOf(k)} + Names(a) + Names(b)
    case PairOf(a, b) => {NameOf(k)} + Names(a) + Names(b)
    case SharedOf(i) => {NameOf(k)} + Names(i)
    case SharedVoid => {NameOf(k)}
  }

  /** The function-local statics that resolving `k` initialises. */
  function Statics(k: TypeKey): set<TypeKey>
  {
    match k
    case Prim(_) => {k}
    case Reflected(_) => {}
    case VectorOf(i) => {k} + Statics(i)
    case MapOf(a, b) => {k} + Statics(a) + Statics(b)
    case PairOf(a, b) => {k} + Statics(a) + Statics(b)
    case SharedOf(i) => {k} + Statics(i)
    case SharedVoid => {k}
  }

  /** The statics of the element types of `k`. */
  function ElementStatics(k: TypeKey): set<TypeKey>
  {
    match k
    case VectorOf(i) => Statics(i)
    case MapOf(a, b) => Statics(a) + Statics(b)
    case PairOf(a, b) => Statics(a) + Statics(b)
    case SharedOf(i) => Statics(i)
    case _ => {}
  }

  /** The registry after `TypeResolver<k>::Get()`: the element descriptors are
      resolved first (key before value, first before second), then the
      descriptor's own name is registered if absent. */
  function Resolved(m: map<Bytes, TypeKey>, k: TypeKey): map<Bytes, TypeKey>
    decreases k
  {
    match k
    case Prim(_) => Registered(m, NameOf(k), k)
    case Reflected(_) => m
    case VectorOf(i) => Registered(Resolved(m, i), NameOf(k), k)
    case MapOf(a, b) => Registered(Resolved(Resolved(m, a), b), NameOf(k), k)
    case PairOf(a, b) => Registered(Resolved(Resolved(m, a), b), NameOf(k), k)
    case SharedOf(i) => Registered(Resolved(m, i), NameOf(k), k)
    case SharedVoid => Registered(m, NameOf(k), k)
  }

  /** Resolving adds exactly the names of `k` and never replaces an entry. */
  lemma {:induction false} ResolvedKeys(m: map<Bytes, TypeKey>, k: TypeKey)
    ensures Resolved(m, k).Keys == m.Keys + Names(k)
    ensures forall n :: n in m ==> Resolved(m, k)[n] == m[n]
    decreases k
  {
    match k
    case Prim(_) =>
    case Reflected(_) =>
    case VectorOf(i) => ResolvedKeys(m, i);
    case MapOf(a, b) => ResolvedKeys(m, a); ResolvedKeys(Resolved(m, a), b);
    case PairOf(a, b) => ResolvedKeys(m, a); ResolvedKeys(Resolved(m, a), b);
    case SharedOf(i) => ResolvedKeys(m, i);
    case SharedVoid =>
  }

  /** Once all of its names are registered, resolving a type changes nothing;
      in particular resolving twice is resolving once. */
  lemma {:induction false} ResolvedIdle(m: map<Bytes, TypeKey>, k: TypeKey)
    requires Names(k) <= m.Keys
    ensures Resolved(m, k) == m
    decreases k
  {
    match k
    case Prim(_) =>
    case Reflected(_) =>
    case VectorOf(i) => ResolvedIdle(m, i);
    case MapOf(a, b) => ResolvedIdle(m, a); ResolvedIdle(m, b);
    case PairOf(a, b) => ResolvedIdle(m, a); ResolvedIdle(m, b);
    case SharedOf(i) => ResolvedIdle(m, i);
    case SharedVoid =>
  }

  lemma ResolvedTwice(m: map<Bytes, TypeKey>, k: TypeKey)
    ensures Resolved(Resolved(m, k), k) == Resolved(m, k)
  {
    ResolvedKeys(m, k);
    ResolvedIdle(Resolved(m, k), k);
  }

  /** An element type's names are no longer than its own name, so they are
      shorter than the name of any container of it. */
  lemma {:induction false} NamesNoLonger(k: TypeKey)
    ensures forall n :: n in Names(k) ==> |n| <= |NameOf(k)|
  {
    match k
    case Prim(_) =>
    case Reflected(_) =>
    case VectorOf(i) => NamesNoLonger(i);
    case MapOf(a, b) => NamesNoLonger(a); NamesNoLonger(b);
    case PairOf(a, b) => NamesNoLonger(a); NamesNoLonger(b);
    case SharedOf(i) => NamesNoLonger(i);
    case SharedVoid =>
  }

  /** The names a container's element types register never include the
      container's own name. */
  lemma ElementNamesDiffer(m: map<Bytes, TypeKey>, k: TypeKey)
    requires !k.Reflected? && !k.Prim? && !k.SharedVoid?
    ensures NameOf(k) !in m ==> NameOf(k) !in ElementRegistry(m, k)
  {
    match k
    case VectorOf(i) => ResolvedKeys(m, i); NamesNoLonger(i);
    case MapOf(a, b) =>
      ResolvedKeys(m, a); ResolvedKeys(Resolved(m, a), b);
      NamesNoLonger(a); NamesNoLonger(b);
    case PairOf(a, b) =>
      ResolvedKeys(m, a); ResolvedKeys(Resolved(m, a), b);
      NamesNoLonger(a); NamesNoLonger(b);
    case SharedOf(i) => ResolvedKeys(m, i); NamesNoLonger(i);
  }

  /** The registry once the element types of `k` are resolved. */
  function ElementRegistry(m: map<Bytes, TypeKey>, k: TypeKey): map<Bytes, TypeKey>
  {
    match k
    case VectorOf(i) => Resolved(m, i)
    case MapOf(a, b) => Resolved(Resolved(m, a), b)
    case PairOf(a, b) => Resolved(Resolved(m, a), b)
    case SharedOf(i) => Resolved(m, i)
    case _ => m
  }

  /** After resolving `k` its name is registered, to `k`'s own static unless
      an earlier registration already holds the name. */
  lemma OwnEntry(m: map<Bytes, TypeKey>, k: TypeKey)
    requires !k.Reflected?
    ensures NameOf(k) in Resolved(m, k)
    ensures Resolved(m, k)[NameOf(k)] == if NameOf(k) in m then m[NameOf(k)] else k
  {
    ResolvedKeys(m, k);
    if !k.Prim? && !k.SharedVoid? {
      ElementNamesDiffer(m, k);
      assert Resolved(m, k) == Registered(ElementRegistry(m, k), NameOf(k), k);
    }
  }

  /** The registry after the members of a reflected struct are resolved in
      declaration order. */
  function ResolvedAll(m: map<Bytes, TypeKey>, ks: seq<TypeKey>): map<Bytes, TypeKey>
    decreases |ks|
  {
    if ks == [] then m else Resolved(ResolvedAll(m, ks[..|ks| - 1]), ks[|ks| - 1])
  }

  /** Set of all the names resolving `ks` registers. */
  function AllNames(ks: seq<TypeKey>): set<Bytes>
    decreases |ks|
  {
    if ks == [] then {} else AllNames(ks[..|ks| - 1]) + Names(ks[|ks| - 1])
  }

  /** Set of all the statics resolving `ks` constructs. */
  function AllStatics(ks: seq<TypeKey>): set<TypeKey>
    decreases |ks|
  {
    if ks == [] then {} else AllStatics(ks[..|ks| - 1]) + Statics(ks[|ks| - 1])
  }

  /** Resolving the members adds exactly their names and replaces nothing. */
  lemma {:induction false} ResolvedAllKeys(m: map<Bytes, TypeKey>, ks: seq<TypeKey>)
    ensures ResolvedAll(m, ks).Keys == m.Keys + AllNames(ks)
    ensures forall n :: n in m ==> ResolvedAll(m, ks)[n] == m[n]
    decreases |ks|
  {
    if ks != [] {
      ResolvedAllKeys(m, ks[..|ks| - 1]);
      ResolvedKeys(ResolvedAll(m, ks[..|ks| - 1]), ks[|ks| - 1]);
    }
  }

  /** The global registry, with the set of descriptor statics already
      constructed. */
  class Registry {
    var lookup: map<Bytes, TypeKey>
    var constructed: set<TypeKey>

    /** A constructed static has registered all of its names and has had its
        element statics constructed. */
    ghost predicate Valid()
      reads this
    {
      forall c :: c in constructed ==> Names(c) <= lookup.Keys && Statics(c) <= constructed
    }

    /** The empty registry before any static is initialised. */
    constructor()
      ensures lookup == map[] && constructed == {}
      ensures Valid()
    {
      lookup := map[];
      constructed := {};
    }

    /** The lookup step every `Get` ends with. */
    method RegisterIfAbsent(name: Bytes, d: TypeKey)
      modifies this
      ensures lookup == Registered(old(lookup), name, d)
      ensures constructed == old(constructed)
    {
      if name !in lookup {
        lookup := lookup[name := d];
      }
    }

    /** `GetPrimitiveDescriptor<T>`: the same static on every call, its name
        registered only if absent. */
    method GetPrimitiveDescriptor(p: Primitive) returns (d: TypeKey)
      modifies this
      requires Valid()
      ensures Valid()
      ensures d == Prim(p)
      ensures lookup == Registered(old(lookup), PrimitiveName(p), Prim(p))
      ensures constructed == old(constructed) + {Prim(p)}
    {
      d := Prim(p);
      constructed := constructed + {d};
      RegisterIfAbsent(PrimitiveName(p), d);
    }

    /** `TypeResolver<k>::Get()`. On the first call the static is
        constructed, which resolves the element types; every call then
        registers the name if absent and returns the static. A reflected
        struct resolves to its `Reflection` member without touching the
        registry. */
    method Resolve(k: TypeKey) returns (d: TypeKey)
      modifies this
      requires Valid()
      ensures Valid()
      ensures d == k
      ensures lookup == Resolved(old(lookup), k)
      ensures constructed == old(constructed) + Statics(k)
      decreases k, 1
    {
      d := k;
      if k.Reflected? {
        return;
      }
      if k.Prim? {
        d := GetPrimitiveDescriptor(k.p);
        return;
      }
      if k in constructed {
        ResolvedIdle(lookup, k);
        ResolvedKeys(lookup, k);
        RegisterIfAbsent(NameOf(k), k);
        return;
      }
      var m0 := lookup;
      ResolveElements(k);
      ResolvedKeys(m0, k);
      constructed := constructed + {k};
      RegisterIfAbsent(NameOf(k), k);
    }

    /** The construction of a container's static: the element types are
        resolved in the order of its member initialisers. */
    method ResolveElements(k: TypeKey)
      modifies this
      requires Valid()
      ensures Valid()
      ensures lookup == ElementRegistry(old(lookup), k)
      ensures constructed == old(constructed) + ElementStatics(k)
      decreases k, 0
    {
      match k {
        case VectorOf(i) =>
          var _ := Resolve(i);
        case MapOf(a, b) =>
          var _ := Resolve(a);
          var _ := Resolve(b);
        case PairOf(a, b) =>
          var _ := Resolve(a);
          var _ := Resolve(b);
        case SharedOf(i) =>
          var _ := Resolve(i);
        case _ =>
      }
    }

    /** `REFL_REGISTER_START` ... `REFL_REGISTER_END` for a struct: building
        the member list resolves each member's type in declaration order,
        then the struct's name is registered unconditionally, replacing any
        earlier entry. */
    method RegisterStruct(name: Bytes, members: seq<TypeKey>)
      modifies this
      requires Valid()
      ensures Valid()
      ensures lookup == ResolvedAll(old(lookup), members)[name := Reflected(name)]
      ensures lookup[name] == Reflected(name)
      ensures constructed == old(constructed) + AllStatics(members)
    {
      var i := 0;
      while i < |members|
        invariant 0 <= i <= |members|
        invariant Valid()
        invariant lookup == ResolvedAll(old(lookup), members[..i])
        invariant constructed == old(constructed) + AllStatics(members[..i])
      {
        assert members[..i + 1][..i] == members[..i];
        var _ := Resolve(members[i]);
        i := i + 1;
      }
      assert members[..i] == members;
      lookup := lookup[name := Reflected(name)];
    }
  }
}
