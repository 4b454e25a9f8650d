/** `ComponentManager`: registers component types under their readable type
    name, gives them sequential IDs, and owns one `ComponentArray` per type.
    All component types share the value type `V` here; the C++ template
    parameter `T` becomes the type name. */
module ComponentManagers {
  import opened Wrappers
  import opened EcsTypes
  import opened ComponentArrays

  /** `GetReadableTypeName`: drops a leading "struct " or "class " from a raw type name. */
  function ReadableTypeName(rawName: string): (r: string)
    ensures |r| <= |rawName| && r == rawName[|rawName| - |r|..]
  {
    if |rawName| >= 7 && rawName[..7] == "struct " then rawName[7..]
    else if |rawName| >= 6 && rawName[..6] == "class " then rawName[6..]
    else rawName
  }

  lemma StripsStruct(name: string)
    ensures ReadableTypeName("struct " + name) == name
  {
    assert ("struct " + name)[..7] == "struct ";
    assert ("struct " + name)[7..] == name;
  }

  lemma StripsClass(name: string)
    ensures ReadableTypeName("class " + name) == name
  {
    assert ("class " + name)[0] == 'c';
    assert ("class " + name)[..6] == "class ";
    assert ("class " + name)[6..] == name;
  }

  /** A name starting with neither keyword comes back unchanged. */
  lemma KeepsOtherNames(name: string)
    requires !(|name| >= 7 && name[..7] == "struct ")
    requires !(|name| >= 6 && name[..6] == "class ")
    ensures ReadableTypeName(name) == name
  {
  }

  class ComponentManager<V> {
    /** `MAX_ENTITIES`, the capacity of every component array. */
    const capacity: nat
    /** The value-initialised component `T{}`. */
    const empty: V
    var components: map<string, nat>
    var componentArrays: map<string, ComponentArray<V>>
    var nextComponentID: nat
    /** The arrays this manager owns, each with the type name it is registered
        under: makes the arrays pairwise distinct. */
    ghost var owner: map<ComponentArray<V>, string>

    ghost predicate Valid()
      reads this, owner.Keys
    {
      && components.Keys == componentArrays.Keys
      && IdsBelow(components, nextComponentID)
      && (forall n :: n in componentArrays ==> OwnedBy(n, componentArrays[n]))
    }

    ghost predicate OwnedBy(n: string, arr: ComponentArray<V>)
      reads this, owner.Keys
    {
      && arr in owner && owner[arr] == n
      && arr.capacity == capacity
      && arr.empty == empty
      && arr.Valid()
    }

    /** The components stored for a registered type. */
    ghost function Components(typeName: string): map<Entity, V>
      reads this, owner.Keys
      requires Valid()
      requires typeName in componentArrays
    {
      componentArrays[typeName].Contents()
    }

    constructor (capacity: nat, empty: V)
      ensures Valid() && owner == map[]
      ensures this.capacity == capacity && this.empty == empty
      ensures components == map[] && componentArrays == map[] && nextComponentID == 0
    {
      this.capacity := capacity;
      this.empty := empty;
      components := map[];
      componentArrays := map[];
      nextComponentID := 0;
      owner := map[];
    }

    /** Gives the type the next ID and an empty component array. */
    method RegisterComponent(typeName: string)
      requires Valid()
      requires typeName !in components
      modifies this
      ensures Valid()
      ensures componentArrays.Keys == old(componentArrays).Keys + {typeName}
      ensures fresh(componentArrays[typeName]) && owner == old(owner)[componentArrays[typeName] := typeName]
      ensures components == old(components)[typeName := old(nextComponentID)]
      ensures nextComponentID == old(nextComponentID) + 1
      ensures Components(typeName) == map[]
      ensures forall n :: n in old(componentArrays) ==> Components(n) == old(Components(n))
    {
      var arr := new ComponentArray<V>(capacity, empty);
      components := components[typeName := nextComponentID];
      componentArrays := componentArrays[typeName := arr];
      nextComponentID := nextComponentID + 1;
      owner := owner[arr := typeName];
      NextIdKeepsIdsDistinct(old(components), old(nextComponentID), typeName);
      RegisteredKeepsOthers(typeName, arr);
    }

    /** Adding a fresh, empty array under a new name keeps the manager valid and
        leaves the other arrays' contents as they were. */
    twostate lemma RegisteredKeepsOthers(typeName: string, new arr: ComponentArray<V>)
      requires old(Valid()) && typeName !in old(componentArrays)
      requires fresh(arr) && arr.Valid() && arr.Contents() == map[]
      requires arr.capacity == capacity && arr.empty == empty
      requires components.Keys == old(components).Keys + {typeName}
      requires IdsBelow(components, nextComponentID)
      requires componentArrays == old(componentArrays)[typeName := arr]
      requires owner == old(owner)[arr := typeName]
      requires unchanged(old(owner).Keys)
      ensures Valid() && Components(typeName) == map[]
      ensures forall n :: n in old(componentArrays) ==> Components(n) == old(Components(n))
    {
      forall n | n in old(componentArrays)
        ensures OwnedBy(n, componentArrays[n]) && componentArrays[n].Contents() == old(Components(n))
      {
        assert old(OwnedBy(n, componentArrays[n]));
      }
    }

    function GetComponentID(typeName: string): (id: nat)
      reads this, owner.Keys
      requires Valid()
      requires typeName in components
      ensures id < nextComponentID
      ensures forall other :: other in components && other != typeName ==> components[other] != id
    {
      components[typeName]
    }

    method AddComponent(typeName: string, entity: Entity, component: V)
      requires Valid()
      requires typeName in components
      requires entity !in Components(typeName) ==> componentArrays[typeName].size < capacity
      modifies componentArrays[typeName]
      ensures Valid()
      ensures Components(typeName) ==
        if entity in old(Components(typeName)) then old(Components(typeName))
        else old(Components(typeName))[entity := component]
      ensures forall n :: n in componentArrays && n != typeName ==> Components(n) == old(Components(n))
    {
      var arr := componentArrays[typeName];
      arr.InsertComponent(entity, component);
    }

    method RemoveComponent(typeName: string, entity: Entity)
      requires Valid()
      requires typeName in components
      modifies componentArrays[typeName]
      ensures Valid()
      ensures Components(typeName) == old(Components(typeName)) - {entity}
      ensures forall n :: n in componentArrays && n != typeName ==> Components(n) == old(Components(n))
    {
      var arr := componentArrays[typeName];
      arr.RemoveComponent(entity);
    }

    function GetComponent(typeName: string, entity: Entity): (c: V)
      reads this, owner.Keys
      requires Valid()
      requires typeName in components
      requires entity in componentArrays[typeName].entityToIndex
      ensures entity in Components(typeName) && c == Components(typeName)[entity]
    {
      componentArrays[typeName].GetComponent(entity)
    }

    function TryGetComponent(typeName: string, entity: Entity): (r: Option<V>)
      reads this, owner.Keys
      requires Valid()
      requires typeName in components
      ensures r.None? <==> entity !in Components(typeName)
      ensures r.Some? ==> r.value == Components(typeName)[entity]
    {
      componentArrays[typeName].TryGetComponent(entity)
    }

    /** Removes the entity's component from every registered array. */
    method EntityDestroyed(entity: Entity)
      requires Valid()
      modifies owner.Keys
      ensures Valid()
      ensures componentArrays == old(componentArrays)
      ensures forall n :: n in componentArrays ==> Components(n) == old(Components(n)) - {entity}
    {
      var remaining := componentArrays.Keys;
      while remaining != {}
        invariant Valid() && componentArrays == old(componentArrays)
        invariant remaining <= componentArrays.Keys
        invariant forall n :: n in remaining ==> Components(n) == old(Components(n))
        invariant forall n :: n in componentArrays && n !in remaining ==> Components(n) == old(Components(n)) - {entity}
        decreases remaining
      {
        var n :| n in remaining;
        ArrayEntityDestroyed(n, entity);
        remaining := remaining - {n};
      }
    }

    /** Empties every registered array. */
    method AllEntitiesDestroyed()
      requires Valid()
      modifies owner.Keys
      ensures Valid()
      ensures componentArrays == old(componentArrays)
      ensures forall n :: n in componentArrays ==> Components(n) == map[]
    {
      var remaining := componentArrays.Keys;
      while remaining != {}
        invariant Valid() && componentArrays == old(componentArrays)
        invariant remaining <= componentArrays.Keys
        invariant forall n :: n in componentArrays.Keys - remaining ==> Components(n) == map[]
        decreases remaining
      {
        var n :| n in remaining;
        ArrayAllEntitiesDestroyed(n, componentArrays.Keys - remaining);
        assert componentArrays.Keys - (remaining - {n}) == (componentArrays.Keys - remaining) + {n};
        remaining := remaining - {n};
      }
    }

    /** One step of `EntityDestroyed`: the array of one type drops the entity. */
    method ArrayEntityDestroyed(typeName: string, entity: Entity)
      requires Valid() && typeName in componentArrays
      modifies componentArrays[typeName]
      ensures Valid()
      ensures Components(typeName) == old(Components(typeName)) - {entity}
      ensures forall n :: n in componentArrays && n != typeName ==> Components(n) == old(Components(n))
    {
      var arr := componentArrays[typeName];
      arr.EntityDestroyed(entity);
      OthersUntouched(typeName);
    }

    /** One step of `AllEntitiesDestroyed`: the array of one type is emptied. */
    method ArrayAllEntitiesDestroyed(typeName: string, ghost emptied: set<string>)
      requires Valid() && typeName in componentArrays
      requires emptied <= componentArrays.Keys
      requires forall n :: n in emptied ==> Components(n) == map[]
      modifies componentArrays[typeName]
      ensures Valid()
      ensures Components(typeName) == map[]
      ensures forall n :: n in componentArrays && n != typeName ==> Components(n) == old(Components(n))
      ensures forall n :: n in emptied + {typeName} ==> Components(n) == map[]
    {
      var arr := componentArrays[typeName];
      arr.AllEntitiesDestroyed();
      OthersUntouched(typeName);
    }

    /** After one array changed, the other arrays and their contents are as they were. */
    twostate lemma OthersUntouched(n: string)
      requires old(Valid()) && n in old(componentArrays)
      requires unchanged(this)
      requires forall a :: a in old(owner) && a != old(componentArrays[n]) ==> unchanged(a)
      requires componentArrays[n].Valid()
      ensures Valid()
      ensures forall k :: k in componentArrays && k != n ==> Components(k) == old(Components(k))
    {
      forall k | k in componentArrays && k != n
        ensures OwnedBy(k, componentArrays[k]) && Components(k) == old(Components(k))
      {
        assert old(OwnedBy(k, componentArrays[k]));
        assert componentArrays[k] != componentArrays[n];
      }
    }
  }

  /** The IDs are pairwise distinct and all below the next one to hand out. */
  ghost predicate IdsBelow(ids: map<string, nat>, next: nat)
  {
    && (forall n :: n in ids ==> ids[n] < next)
    && (forall n, m :: n in ids && m in ids && n != m ==> ids[n] != ids[m])
  }

  lemma NextIdKeepsIdsDistinct(ids: map<string, nat>, next: nat, typeName: string)
    requires IdsBelow(ids, next) && typeName !in ids
    ensures IdsBelow(ids[typeName := next], next + 1)
  {
  }

  /** Registering types in a row hands out 0, 1, 2, ... in registration order. */
  method RegistrationOrder() returns (first: nat, second: nat)
    ensures first == 0 && second == 1
  {
    var m := new ComponentManager<int>(8, 0);
    m.RegisterComponent("ModelRenderComponent");
    m.RegisterComponent("TextRenderComponent");
    first := m.GetComponentID("ModelRenderComponent");
    second := m.GetComponentID("TextRenderComponent");
  }
}
