/** `EntityManager`: hands out entity IDs from a FIFO queue of free IDs, and
    keeps each entity's active bit and component signature. */
module EntityManagers {
  import opened EcsTypes

  /** The value after `--x` on a `uint32_t`. */
  function DecrementU32(x: nat): (r: nat)
    requires x < UINT32_LIMIT
    ensures r < UINT32_LIMIT
    ensures x > 0 ==> r == x - 1
    ensures x == 0 ==> r == UINT32_LIMIT - 1
  {
    (x + UINT32_LIMIT - 1) % UINT32_LIMIT
  }

  class EntityManager {
    /** `MAX_ENTITIES`. */
    const maxEntities: nat
    /** `availableEntities`; the front of the queue is element 0. */
    var availableEntities: seq<Entity>
    /** The `activeEntities` bitset. */
    const activeEntities: array<bool>
    const entitySignatures: array<Signature>
    /** `activeEntityCount`, a `uint32_t`. */
    var activeEntityCount: nat

    /** What every operation keeps, whatever IDs its callers pass: the queue
        length and the live count add up to `MAX_ENTITIES` modulo 2^32. */
    ghost predicate Valid()
      reads this
    {
      && 0 < maxEntities < UINT32_LIMIT
      && activeEntities.Length == maxEntities
      && entitySignatures.Length == maxEntities
      && activeEntityCount < UINT32_LIMIT
      && (|availableEntities| + activeEntityCount) % UINT32_LIMIT == maxEntities
    }

    /** What holds as long as only live entities are destroyed: the queue holds
        distinct in-range IDs and, with the live count, accounts for every ID. */
    ghost predicate Healthy()
      reads this
    {
      && Valid()
      && (forall i :: 0 <= i < |availableEntities| ==> availableEntities[i] < maxEntities)
      && Distinct(availableEntities)
      && activeEntityCount + |availableEntities| == maxEntities
    }

    /** Queues the IDs 0 .. MAX_ENTITIES-1 in ascending order. */
    constructor (maxEntities: nat)
      requires 0 < maxEntities < UINT32_LIMIT
      ensures Healthy()
      ensures this.maxEntities == maxEntities
      ensures availableEntities == Range(maxEntities)
      ensures activeEntityCount == 0
      ensures forall e :: 0 <= e < maxEntities ==> !activeEntities[e] && entitySignatures[e] == {}
      ensures fresh(activeEntities) && fresh(entitySignatures)
    {
      var queue := [];
      var entity := 0;
      while entity < maxEntities
        invariant 0 <= entity <= maxEntities
        invariant queue == Range(entity)
      {
        queue := queue + [entity];
        entity := entity + 1;
      }
      this.maxEntities := maxEntities;
      activeEntities := new bool[maxEntities](_ => false);
      entitySignatures := new Signature[maxEntities](_ => {});
      activeEntityCount := 0;
      availableEntities := queue;
      new;
      RangeIsHealthy(maxEntities);
    }

    /** Takes the ID at the front of the queue. */
    method CreateEntity() returns (entity: Entity)
      requires Valid()
      requires activeEntityCount < maxEntities
      modifies this, activeEntities
      ensures Valid()
      ensures old(availableEntities) != [] && entity == old(availableEntities)[0]
      ensures availableEntities == old(availableEntities)[1..]
      ensures activeEntityCount == old(activeEntityCount) + 1
      ensures entity < maxEntities ==> activeEntities[..] == old(activeEntities[..])[entity := true]
      ensures old(Healthy()) ==> Healthy() && entity < maxEntities
    {
      entity := availableEntities[0];
      availableEntities := availableEntities[1..];
      activeEntityCount := activeEntityCount + 1;
      if entity < maxEntities {
        activeEntities[entity] := true;
      }
    }

    /** Frees the ID; nothing checks that the entity was live. */
    method DestroyEntity(entity: Entity)
      requires Valid()
      requires entity < maxEntities
      modifies this, activeEntities, entitySignatures
      ensures Valid()
      ensures entitySignatures[..] == old(entitySignatures[..])[entity := {}]
      ensures availableEntities == old(availableEntities) + [entity]
      ensures activeEntityCount == DecrementU32(old(activeEntityCount))
      ensures activeEntities[..] == old(activeEntities[..])[entity := false]
      ensures old(Healthy()) && entity !in old(availableEntities) ==> Healthy()
    {
      if Healthy() && entity !in availableEntities {
        DistinctBelowIsShort(availableEntities, maxEntities, entity);
      }
      entitySignatures[entity] := {};
      availableEntities := availableEntities + [entity];
      activeEntityCount := DecrementU32(activeEntityCount);
      activeEntities[entity] := false;
    }

    function GetEntitySignature(entity: Entity): (s: Signature)
      reads this, entitySignatures
      requires Valid()
      requires entity < maxEntities
    {
      entitySignatures[entity]
    }

    method SetEntitySignature(entity: Entity, signature: Signature)
      requires Valid()
      requires entity < maxEntities
      modifies entitySignatures
      ensures entitySignatures[..] == old(entitySignatures[..])[entity := signature]
      ensures GetEntitySignature(entity) == signature
    {
      entitySignatures[entity] := signature;
    }

    function GetActiveEntityCount(): (n: nat)
      reads this
      requires Valid()
      ensures n < UINT32_LIMIT
    {
      activeEntityCount
    }

    /** Resets every signature and active bit and rebuilds the queue 0 .. MAX_ENTITIES-1. */
    method DestroyAllEntities()
      requires Valid()
      modifies this, activeEntities, entitySignatures
      ensures Healthy()
      ensures availableEntities == Range(maxEntities)
      ensures activeEntityCount == 0
      ensures forall e :: 0 <= e < maxEntities ==> !activeEntities[e] && entitySignatures[e] == {}
    {
      var i := 0;
      while i < entitySignatures.Length
        invariant 0 <= i <= entitySignatures.Length
        invariant forall j :: 0 <= j < i ==> entitySignatures[j] == {}
      {
        entitySignatures[i] := {};
        i := i + 1;
      }
      i := 0;
      while i < activeEntities.Length
        invariant 0 <= i <= activeEntities.Length
        invariant forall j :: 0 <= j < i ==> !activeEntities[j]
        invariant Cleared(entitySignatures.Length, 0)
      {
        activeEntities[i] := false;
        i := i + 1;
      }
      while availableEntities != []
        invariant Cleared(entitySignatures.Length, activeEntities.Length)
        decreases |availableEntities|
      {
        availableEntities := availableEntities[1..];
      }
      var entity := 0;
      while entity < maxEntities
        invariant 0 <= entity <= maxEntities
        invariant availableEntities == Range(entity)
        invariant Cleared(entitySignatures.Length, activeEntities.Length)
      {
        availableEntities := availableEntities + [entity];
        entity := entity + 1;
      }
      activeEntityCount := 0;
      RangeIsHealthy(maxEntities);
    }

    /** The first `signatures` signatures are empty and the first `bits` active bits are clear. */
    ghost predicate Cleared(signatures: nat, bits: nat)
      reads this, entitySignatures, activeEntities
    {
      && signatures <= entitySignatures.Length
      && bits <= activeEntities.Length
      && (forall j :: 0 <= j < signatures ==> entitySignatures[j] == {})
      && (forall j :: 0 <= j < bits ==> !activeEntities[j])
    }

    method SetActive(entity: Entity, isActive: bool)
      requires Valid()
      requires entity < maxEntities
      modifies activeEntities
      ensures activeEntities[..] == old(activeEntities[..])[entity := isActive]
      ensures IsActive(entity) == isActive
    {
      activeEntities[entity] := isActive;
    }

    function IsActive(entity: Entity): (b: bool)
      reads this, activeEntities
      requires Valid()
      requires entity < maxEntities
    {
      activeEntities[entity]
    }

    /** While only live entities are destroyed, a create always finds a free ID. */
    lemma HealthyQueueNonEmpty()
      requires Healthy()
      requires activeEntityCount < maxEntities
      ensures availableEntities != []
    {
    }
  }

  /** The set {0, ..., n-1}. */
  function Below(n: nat): (r: set<nat>)
    ensures |r| == n
    ensures forall x: nat :: x in r <==> x < n
  {
    if n == 0 then {} else Below(n - 1) + {n - 1}
  }

  ghost predicate Distinct(q: seq<nat>)
  {
    forall i, j :: 0 <= i < j < |q| ==> q[i] != q[j]
  }

  /** A repetition-free sequence drawn from `s` is no longer than `s` is large. */
  lemma {:induction false} DistinctWithin(q: seq<nat>, s: set<nat>)
    requires Distinct(q)
    requires forall i :: 0 <= i < |q| ==> q[i] in s
    ensures |q| <= |s|
  {
    if q != [] {
      var last := q[|q| - 1];
      var q' := q[..|q| - 1];
      forall i | 0 <= i < |q'|
        ensures q'[i] in s - {last}
      {
        assert q'[i] == q[i];
      }
      DistinctWithin(q', s - {last});
    }
  }

  /** Distinct IDs below `max` that miss one ID below `max` number fewer than `max`. */
  lemma DistinctBelowIsShort(q: seq<nat>, max: nat, missing: nat)
    requires Distinct(q)
    requires forall i :: 0 <= i < |q| ==> q[i] < max
    requires missing < max && missing !in q
    ensures |q| < max
  {
    DistinctWithin(q, Below(max) - {missing});
  }

  lemma RangeIsHealthy(n: nat)
    ensures Distinct(Range(n))
    ensures forall i :: 0 <= i < n ==> Range(n)[i] < n
  {
  }

  /** A fresh manager hands out 0, 1, 2, ... in order. */
  method FreshManagerCreatesInOrder(maxEntities: nat) returns (first: Entity, second: Entity)
    requires 1 < maxEntities < UINT32_LIMIT
    ensures first == 0 && second == 1
  {
    var m := new EntityManager(maxEntities);
    first := m.CreateEntity();
    second := m.CreateEntity();
  }

  /** FIFO reuse: a destroyed ID comes back only after every ID queued before it. */
  method RecycledAfterQueued() returns (ids: seq<Entity>)
    ensures ids == [0, 1, 2, 0]
  {
    var m := new EntityManager(3);
    var a := m.CreateEntity();
    m.DestroyEntity(a);
    var b := m.CreateEntity();
    var c := m.CreateEntity();
    var d := m.CreateEntity();
    ids := [a, b, c, d];
  }

  /** Destroying an ID twice queues it twice, so two later creates return the same ID. */
  method DoubleDestroyHandsOutTwice() returns (c: Entity, d: Entity)
    ensures c == d == 0
  {
    var m := new EntityManager(2);
    var a := m.CreateEntity();
    var b := m.CreateEntity();
    m.DestroyEntity(a);
    m.DestroyEntity(a);
    c := m.CreateEntity();
    d := m.CreateEntity();
  }
}
