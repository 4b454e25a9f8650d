/** `ComponentArray<T>`: the densely packed store of one component type.
    Components of live entities occupy slots `0 .. size-1` of a fixed-size
    array; two maps translate between entities and slots. */
module ComponentArrays {
  import opened Wrappers
  import opened EcsTypes

  class ComponentArray<T> {
    /** `std::array<T, MAX_ENTITIES>`, held by value inside the object. */
    var componentArray: seq<T>
    /** `MAX_ENTITIES`. */
    const capacity: nat
    /** The value-initialised component `T{}`. */
    const empty: T
    var entityToIndex: map<Entity, nat>
    var indexToEntity: map<nat, Entity>
    var size: nat

    /** The two maps are mutual inverses and their slots are exactly `0 .. size-1`. */
    ghost predicate Valid()
      reads this
    {
      && |componentArray| == capacity
      && size <= capacity
      && Dense(entityToIndex, indexToEntity, size)
    }

    /** The component each entity retrieves. */
    ghost function Contents(): map<Entity, T>
      reads this
      requires Valid()
    {
      Stored(entityToIndex, componentArray)
    }

    constructor (capacity: nat, empty: T)
      ensures Valid()
      ensures this.capacity == capacity
      ensures this.empty == empty
      ensures size == 0 && Contents() == map[]
      ensures forall i :: 0 <= i < capacity ==> componentArray[i] == empty
    {
      componentArray := seq(capacity, _ => empty);
      this.capacity := capacity;
      this.empty := empty;
      entityToIndex := map[];
      indexToEntity := map[];
      size := 0;
    }

    /** There is exactly one live entity per occupied slot. */
    lemma SizeIsEntityCount()
      requires Valid()
      ensures |entityToIndex| == size
    {
      DenseKeysSize(indexToEntity, size);
      InverseMapsSameSize(entityToIndex, indexToEntity);
    }

    method InsertComponent(entity: Entity, component: T)
      requires Valid()
      requires entity !in entityToIndex ==> size < capacity
      modifies this
      ensures Valid()
      ensures entity in old(entityToIndex) ==>
        entityToIndex == old(entityToIndex) && indexToEntity == old(indexToEntity)
        && size == old(size) && componentArray == old(componentArray)
      ensures entity !in old(entityToIndex) ==>
        && size == old(size) + 1
        && entityToIndex == old(entityToIndex)[entity := old(size)]
        && indexToEntity == old(indexToEntity)[old(size) := entity]
        && componentArray == old(componentArray)[old(size) := component]
      ensures Contents() == if entity in old(Contents()) then old(Contents())
                            else old(Contents())[entity := component]
    {
      if entity in entityToIndex {
        return;
      }
      var newIndex := size;
      entityToIndex := entityToIndex[entity := newIndex];
      indexToEntity := indexToEntity[newIndex := entity];
      componentArray := componentArray[newIndex := component];
      size := size + 1;
    }

    method RemoveComponent(entity: Entity)
      requires Valid()
      modifies this
      ensures Valid()
      ensures entity !in old(entityToIndex) ==>
        entityToIndex == old(entityToIndex) && indexToEntity == old(indexToEntity)
        && size == old(size) && componentArray == old(componentArray)
      ensures entity in old(entityToIndex) ==> size == old(size) - 1
      ensures Contents() == old(Contents()) - {entity}
    {
      if entity !in entityToIndex {
        return;
      }
      var indexOfRemoved := entityToIndex[entity];
      var indexOfLast := size - 1;
      var slots := componentArray[indexOfRemoved := componentArray[indexOfLast]];

      var entityOfLast := indexToEntity[indexOfLast];
      var e2i := entityToIndex[entityOfLast := indexOfRemoved];
      var i2e := indexToEntity[indexOfRemoved := entityOfLast];

      e2i := e2i - {entity};
      i2e := i2e - {indexOfLast};
      RemoveKeepsDense(entityToIndex, indexToEntity, componentArray, size, entity, e2i, i2e, slots);
      componentArray := slots;
      entityToIndex := e2i;
      indexToEntity := i2e;
      size := size - 1;
    }

    function GetComponent(entity: Entity): (c: T)
      reads this
      requires Valid()
      requires entity in entityToIndex
      ensures entity in Contents() && c == Contents()[entity]
    {
      componentArray[entityToIndex[entity]]
    }

    function TryGetComponent(entity: Entity): (r: Option<T>)
      reads this
      requires Valid()
      ensures r.None? <==> entity !in Contents()
      ensures r.Some? ==> r.value == Contents()[entity]
    {
      if entity in entityToIndex then Some(componentArray[entityToIndex[entity]]) else None
    }

    method EntityDestroyed(entity: Entity)
      requires Valid()
      modifies this
      ensures Valid()
      ensures entity !in old(entityToIndex) ==>
        entityToIndex == old(entityToIndex) && indexToEntity == old(indexToEntity)
        && size == old(size) && componentArray == old(componentArray)
      ensures Contents() == old(Contents()) - {entity}
    {
      if entity in entityToIndex {
        RemoveComponent(entity);
      }
    }

    method AllEntitiesDestroyed()
      requires Valid()
      modifies this
      ensures Valid()
      ensures entityToIndex == map[] && indexToEntity == map[] && size == 0
      ensures forall i :: 0 <= i < capacity ==> componentArray[i] == empty
      ensures Contents() == map[]
    {
      var i := 0;
      while i < capacity
        invariant 0 <= i <= capacity && |componentArray| == capacity
        invariant forall j :: 0 <= j < i ==> componentArray[j] == empty
      {
        componentArray := componentArray[i := empty];
        i := i + 1;
      }
      entityToIndex := map[];
      indexToEntity := map[];
      size := 0;
    }
  }

  /** The two maps are mutual inverses and their slots are exactly `0 .. size-1`. */
  ghost predicate Dense(entityToIndex: map<Entity, nat>, indexToEntity: map<nat, Entity>, size: nat)
  {
    && (forall i: nat :: i in indexToEntity <==> i < size)
    && (forall e :: e in entityToIndex ==>
          entityToIndex[e] in indexToEntity && indexToEntity[entityToIndex[e]] == e)
    && (forall i :: i in indexToEntity ==>
          indexToEntity[i] in entityToIndex && entityToIndex[indexToEntity[i]] == i)
  }

  /** The component each entity retrieves through its slot. */
  ghost function Stored<T>(entityToIndex: map<Entity, nat>, slots: seq<T>): map<Entity, T>
    requires forall e :: e in entityToIndex ==> entityToIndex[e] < |slots|
  {
    map e | e in entityToIndex :: slots[entityToIndex[e]]
  }

  /** Moving the last slot into the hole keeps the maps dense and inverse, and
      every other entity keeps its component. */
  lemma RemoveKeepsDense<T>(e2i: map<Entity, nat>, i2e: map<nat, Entity>, slots: seq<T>, size: nat, entity: Entity,
                            e2i': map<Entity, nat>, i2e': map<nat, Entity>, slots': seq<T>)
    requires Dense(e2i, i2e, size) && size <= |slots| && entity in e2i
    requires var last := size - 1; var removed := e2i[entity];
      && e2i' == e2i[i2e[last] := removed] - {entity}
      && i2e' == i2e[removed := i2e[last]] - {last}
      && slots' == slots[removed := slots[last]]
    ensures size > 0 && Dense(e2i', i2e', size - 1) && |slots'| == |slots|
    ensures Stored(e2i', slots') == Stored(e2i, slots) - {entity}
  {
    var last := size - 1;
    var removed := e2i[entity];
    forall e | e in e2i'
      ensures e2i'[e] in i2e' && i2e'[e2i'[e]] == e
      ensures slots'[e2i'[e]] == slots[e2i[e]]
    {
      if e != i2e[last] {
        assert e2i[e] != removed;
      }
    }
  }
}
