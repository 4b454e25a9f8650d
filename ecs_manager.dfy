/** `ECSManager`: one world. It owns an entity manager, a component manager and
    a system manager, and keeps them consistent: adding or removing a component
    updates the entity's signature and tells the systems about it. */
module EcsManagers {
  import opened Wrappers
  import opened EcsTypes
  import opened EntityManagers
  import opened ComponentManagers
  import opened SystemManagers

  /** The readable type names that `Initialize` registers. */
  const MODEL_RENDER_COMPONENT: string := "ModelRenderComponent"
  const TEXT_RENDER_COMPONENT: string := "TextRenderComponent"
  const MODEL_SYSTEM: string := "ModelSystem"
  const TEXT_RENDERING_SYSTEM: string := "TextRenderingSystem"

  class ECSManager<V> {
    const entityManager: EntityManager
    const componentManager: ComponentManager<V>
    const systemManager: SystemManager

    /** The three managers are valid and agree on `MAX_ENTITIES`. */
    ghost predicate Valid()
      reads this, entityManager, systemManager, componentManager, componentManager.owner.Keys
    {
      && entityManager.Valid() && componentManager.Valid() && systemManager.Valid()
      && componentManager.capacity == entityManager.maxEntities
    }

    /** Every object a world's operations may change. */
    ghost function Objects(): set<object>
      reads componentManager
    {
      var managers: set<object> := {entityManager, entityManager.activeEntities, entityManager.entitySignatures, systemManager};
      managers + componentManager.owner.Keys
    }

    /** The state `ClearAllEntities` leaves: no live entity, every ID queued in
        order, and no component or system member left. */
    ghost predicate Cleared()
      reads this, entityManager, systemManager, componentManager, componentManager.owner.Keys, entityManager.entitySignatures
      requires Valid()
    {
      && entityManager.Healthy()
      && entityManager.availableEntities == Range(entityManager.maxEntities)
      && entityManager.activeEntityCount == 0
      && (forall e :: 0 <= e < entityManager.maxEntities ==> entityManager.entitySignatures[e] == {})
      && (forall n :: n in componentManager.componentArrays ==> componentManager.Components(n) == map[])
      && (forall n :: n in systemManager.systems ==> systemManager.systems[n] == {})
    }

    /** The signature stored for an entity. */
    ghost function SignatureOf(entity: Entity): Signature
      reads this, entityManager, systemManager, componentManager, componentManager.owner.Keys, entityManager.entitySignatures
      requires Valid() && entity < entityManager.maxEntities
    {
      entityManager.entitySignatures[entity]
    }

    /** `Initialize`, run by the constructor: registers `ModelRenderComponent` and
        then `TextRenderComponent`, and gives `ModelSystem` and
        `TextRenderingSystem` the signature of their component. */
    constructor (maxEntities: nat, empty: V)
      requires 0 < maxEntities < UINT32_LIMIT
      ensures Valid()
      ensures fresh(entityManager) && fresh(entityManager.activeEntities) && fresh(entityManager.entitySignatures)
      ensures fresh(componentManager) && fresh(systemManager)
      ensures entityManager.Healthy() && entityManager.maxEntities == maxEntities
      ensures entityManager.availableEntities == Range(maxEntities)
      ensures forall e :: 0 <= e < maxEntities ==> entityManager.entitySignatures[e] == {}
      ensures componentManager.components == map[MODEL_RENDER_COMPONENT := 0, TEXT_RENDER_COMPONENT := 1]
      ensures forall n :: n in componentManager.componentArrays ==> componentManager.Components(n) == map[]
      ensures systemManager.signatures == map[MODEL_SYSTEM := {0}, TEXT_RENDERING_SYSTEM := {1}]
      ensures systemManager.systems == map[MODEL_SYSTEM := {}, TEXT_RENDERING_SYSTEM := {}]
    {
      var em, cm, sm := InitialManagers(maxEntities, empty);
      entityManager := em;
      componentManager := cm;
      systemManager := sm;
    }

    /** Takes the next free ID; no component is added. */
    method CreateEntity() returns (entity: Entity)
      requires Valid()
      requires entityManager.activeEntityCount < entityManager.maxEntities
      modifies entityManager, entityManager.activeEntities
      ensures Valid()
      ensures old(entityManager.availableEntities) != [] && entity == old(entityManager.availableEntities)[0]
      ensures entityManager.availableEntities == old(entityManager.availableEntities)[1..]
      ensures entityManager.activeEntityCount == old(entityManager.activeEntityCount) + 1
      ensures old(entityManager.Healthy()) ==> entityManager.Healthy() && entity < entityManager.maxEntities
    {
      entity := entityManager.CreateEntity();
    }

    /** Frees the ID, drops the entity's components from every array and the
        entity from every system. */
    method DestroyEntity(entity: Entity)
      requires Valid()
      requires entity < entityManager.maxEntities
      modifies entityManager, entityManager.activeEntities, entityManager.entitySignatures,
        componentManager.owner.Keys, systemManager
      ensures Valid()
      ensures entityManager.availableEntities == old(entityManager.availableEntities) + [entity]
      ensures entityManager.activeEntityCount == DecrementU32(old(entityManager.activeEntityCount))
      ensures entityManager.entitySignatures[..] == old(entityManager.entitySignatures[..])[entity := {}]
      ensures old(entityManager.Healthy()) && entity !in old(entityManager.availableEntities) ==> entityManager.Healthy()
      ensures componentManager.componentArrays == old(componentManager.componentArrays)
      ensures forall n :: n in componentManager.componentArrays ==>
        componentManager.Components(n) == old(componentManager.Components(n)) - {entity}
      ensures systemManager.signatures == old(systemManager.signatures)
      ensures systemManager.systems.Keys == old(systemManager.systems).Keys
      ensures forall n :: n in systemManager.systems ==>
        systemManager.systems[n] == old(systemManager.systems)[n] - {entity}
    {
      entityManager.DestroyEntity(entity);
      ComponentsUnchanged(componentManager);
      componentManager.EntityDestroyed(entity);
      SystemsForget(entity);
    }

    /** The system step of `DestroyEntity`: the entity leaves every system,
        and the component arrays are left as they are. */
    method SystemsForget(entity: Entity)
      requires Valid()
      modifies systemManager
      ensures Valid()
      ensures forall n :: n in componentManager.componentArrays ==>
        componentManager.Components(n) == old(componentManager.Components(n))
      ensures systemManager.signatures == old(systemManager.signatures)
      ensures systemManager.systems.Keys == old(systemManager.systems).Keys
      ensures forall n :: n in systemManager.systems ==>
        systemManager.systems[n] == old(systemManager.systems)[n] - {entity}
    {
      systemManager.EntityDestroyed(entity);
      ComponentsUnchanged(componentManager);
    }

    /** Resets the three managers together. */
    method ClearAllEntities()
      requires Valid()
      modifies entityManager, entityManager.activeEntities, entityManager.entitySignatures,
        componentManager.owner.Keys, systemManager
      ensures Valid()
      ensures entityManager.Healthy()
      ensures entityManager.availableEntities == Range(entityManager.maxEntities)
      ensures entityManager.activeEntityCount == 0
      ensures forall e :: 0 <= e < entityManager.maxEntities ==> entityManager.entitySignatures[e] == {}
      ensures componentManager.componentArrays == old(componentManager.componentArrays)
      ensures forall n :: n in componentManager.componentArrays ==> componentManager.Components(n) == map[]
      ensures systemManager.signatures == old(systemManager.signatures)
      ensures systemManager.systems.Keys == old(systemManager.systems).Keys
      ensures forall n :: n in systemManager.systems ==> systemManager.systems[n] == {}
    {
      entityManager.DestroyAllEntities();
      ComponentsUnchanged(componentManager);
      componentManager.AllEntitiesDestroyed();
      SystemsEmptied();
    }

    /** The system step of `ClearAllEntities`: every system is emptied, and
        the component arrays are left as they are. */
    method SystemsEmptied()
      requires Valid()
      modifies systemManager
      ensures Valid()
      ensures forall n :: n in componentManager.componentArrays ==>
        componentManager.Components(n) == old(componentManager.Components(n))
      ensures systemManager.signatures == old(systemManager.signatures)
      ensures systemManager.systems.Keys == old(systemManager.systems).Keys
      ensures forall n :: n in systemManager.systems ==> systemManager.systems[n] == {}
    {
      systemManager.AllEntitiesDestroyed();
      ComponentsUnchanged(componentManager);
    }

    /** `RegisterComponent<T>`: delegates to the component manager. */
    method RegisterComponent(typeName: string)
      requires Valid()
      requires typeName !in componentManager.components
      modifies componentManager
      ensures Valid()
      ensures componentManager.components == old(componentManager.components)[typeName := old(componentManager.nextComponentID)]
      ensures componentManager.Components(typeName) == map[]
      ensures forall n :: n in old(componentManager.componentArrays) ==>
        componentManager.Components(n) == old(componentManager.Components(n))
    {
      componentManager.RegisterComponent(typeName);

    }

    /** `AddComponent<T>`: stores the component, sets bit `ID(T)` of the entity's
        signature and re-files the entity in every system. */
    method AddComponent(typeName: string, entity: Entity, component: V)
      requires Valid()
      requires typeName in componentManager.components
      requires entity < entityManager.maxEntities
      requires entity !in componentManager.Components(typeName) ==>
        componentManager.componentArrays[typeName].size < componentManager.capacity
      modifies componentManager.componentArrays[typeName], entityManager.entitySignatures, systemManager
      ensures Valid()
      ensures componentManager.Components(typeName) ==
        if entity in old(componentManager.Components(typeName)) then old(componentManager.Components(typeName))
        else old(componentManager.Components(typeName))[entity := component]
      ensures forall n :: n in componentManager.componentArrays && n != typeName ==>
        componentManager.Components(n) == old(componentManager.Components(n))
      ensures entityManager.entitySignatures[..] == old(entityManager.entitySignatures[..])
        [entity := old(SignatureOf(entity)) + {componentManager.components[typeName]}]
      ensures SignaturesRefiled(old(systemManager.signatures), old(systemManager.systems),
        systemManager.signatures, systemManager.systems, entity,
        old(SignatureOf(entity)) + {componentManager.components[typeName]})
    {
      componentManager.AddComponent(typeName, entity, component);
      var signature := entityManager.GetEntitySignature(entity);
      signature := signature + {componentManager.GetComponentID(typeName)};
      Refile(entity, signature);
    }

    /** The signature step of `AddComponent` and `RemoveComponent`: the entity's
        new signature is stored and every system re-files the entity; the
        component arrays are left as they are. */
    method Refile(entity: Entity, signature: Signature)
      requires Valid()
      requires entity < entityManager.maxEntities
      modifies entityManager.entitySignatures, systemManager
      ensures Valid()
      ensures forall n :: n in componentManager.componentArrays ==>
        componentManager.Components(n) == old(componentManager.Components(n))
      ensures entityManager.entitySignatures[..] == old(entityManager.entitySignatures[..])[entity := signature]
      ensures SignaturesRefiled(old(systemManager.signatures), old(systemManager.systems),
        systemManager.signatures, systemManager.systems, entity, signature)
    {
      entityManager.SetEntitySignature(entity, signature);
      systemManager.OnEntitySignatureChanged(entity, signature);
      ComponentsUnchanged(componentManager);
    }

    /** `RemoveComponent<T>`: drops the component, clears bit `ID(T)` of the
        entity's signature and re-files the entity in every system. */
    method RemoveComponent(typeName: string, entity: Entity)
      requires Valid()
      requires typeName in componentManager.components
      requires entity < entityManager.maxEntities
      modifies componentManager.componentArrays[typeName], entityManager.entitySignatures, systemManager
      ensures Valid()
      ensures componentManager.Components(typeName) == old(componentManager.Components(typeName)) - {entity}
      ensures forall n :: n in componentManager.componentArrays && n != typeName ==>
        componentManager.Components(n) == old(componentManager.Components(n))
      ensures entityManager.entitySignatures[..] == old(entityManager.entitySignatures[..])
        [entity := old(SignatureOf(entity)) - {componentManager.components[typeName]}]
      ensures SignaturesRefiled(old(systemManager.signatures), old(systemManager.systems),
        systemManager.signatures, systemManager.systems, entity,
        old(SignatureOf(entity)) - {componentManager.components[typeName]})
    {
      componentManager.RemoveComponent(typeName, entity);
      var signature := entityManager.GetEntitySignature(entity);
      signature := signature - {componentManager.GetComponentID(typeName)};
      Refile(entity, signature);
    }

    function GetComponent(typeName: string, entity: Entity): (c: V)
      reads this, entityManager, systemManager, componentManager, componentManager.owner.Keys
      requires Valid()
      requires typeName in componentManager.components
      requires entity in componentManager.Components(typeName)
      ensures c == componentManager.Components(typeName)[entity]
    {
      componentManager.GetComponent(typeName, entity)
    }

    function TryGetComponent(typeName: string, entity: Entity): (r: Option<V>)
      reads this, entityManager, systemManager, componentManager, componentManager.owner.Keys
      requires Valid()
      requires typeName in componentManager.components
      ensures r.None? <==> entity !in componentManager.Components(typeName)
      ensures r.Some? ==> r.value == componentManager.Components(typeName)[entity]
    {
      componentManager.TryGetComponent(typeName, entity)
    }

    /** `HasComponent<T>`: whether `TryGetComponent<T>` finds a value. */
    function HasComponent(typeName: string, entity: Entity): (b: bool)
      reads this, entityManager, systemManager, componentManager, componentManager.owner.Keys
      requires Valid()
      requires typeName in componentManager.components
      ensures b <==> TryGetComponent(typeName, entity).Some?
      ensures b <==> entity in componentManager.Components(typeName)
    {
      TryGetComponent(typeName, entity).Some?
    }

    /** `RegisterSystem<T>`: delegates to the system manager. */
    method RegisterSystem(typeName: string)
      requires Valid()
      requires typeName !in systemManager.systems
      modifies systemManager
      ensures Valid()
      ensures systemManager.systems == old(systemManager.systems)[typeName := {}]
      ensures systemManager.signatures == old(systemManager.signatures)
    {
      systemManager.RegisterSystem(typeName);
    }

    /** `SetSystemSignature<T>`: delegates to the system manager. */
    method SetSystemSignature(typeName: string, signature: Signature)
      requires Valid()
      requires typeName in systemManager.systems
      modifies systemManager
      ensures Valid()
      ensures systemManager.signatures == old(systemManager.signatures)[typeName := signature]
      ensures systemManager.systems == old(systemManager.systems)
    {
      systemManager.SetSignature(typeName, signature);
    }
  }

  /** In a fresh world the first entity is 0 and has no components. */
  method FirstEntityHasNoComponents() returns (entity: Entity, signature: Signature)
    ensures entity == 0 && signature == {}
  {
    var world := new ECSManager<int>(4, 0);
    entity := world.CreateEntity();
    signature := world.entityManager.GetEntitySignature(entity);
  }

  /** With the systems `Initialize` sets up, a signature holding exactly the model
      render component's ID puts the entity in the model system and takes it out
      of the text system. */
  lemma ModelComponentJoinsModelSystem(systems: map<string, set<Entity>>, signatures': map<string, Signature>,
                                       systems': map<string, set<Entity>>, entity: Entity)
    requires systems.Keys == {MODEL_SYSTEM, TEXT_RENDERING_SYSTEM}
    requires SignaturesRefiled(map[MODEL_SYSTEM := {0}, TEXT_RENDERING_SYSTEM := {1}], systems,
                               signatures', systems', entity, {0})
    ensures entity in systems'[MODEL_SYSTEM] && entity !in systems'[TEXT_RENDERING_SYSTEM]
  {
    assert MODEL_SYSTEM in systems';
    assert TEXT_RENDERING_SYSTEM in systems';
  }

  /** A component manager whose objects did not change keeps its contents. */
  twostate lemma ComponentsUnchanged<V>(cm: ComponentManager<V>)
    requires old(cm.Valid()) && unchanged(cm) && unchanged(old(cm.owner).Keys)
    ensures cm.Valid()
    ensures forall n :: n in cm.componentArrays ==> cm.Components(n) == old(cm.Components(n))
  {
  }

  /** The system manager's maps after `OnEntitySignatureChanged(entity, signature)`:
      every system keeps its name, and the entity is in a system iff the system's
      signature is a subset of the new signature, everyone else staying put. */
  ghost predicate SignaturesRefiled(signatures: map<string, Signature>, systems: map<string, set<Entity>>,
                                    signatures': map<string, Signature>, systems': map<string, set<Entity>>,
                                    entity: Entity, signature: Signature)
  {
    && systems'.Keys == systems.Keys
    && signatures'.Keys == systems.Keys
    && (forall n :: n in signatures' ==> signatures'[n] == SignatureIn(signatures, n))
    && (forall n :: n in systems' ==> systems'[n] == Refiled(systems[n], SignatureIn(signatures, n), entity, signature))
  }

  /** The three managers `Initialize` creates, with what it registers in them. */
  method InitialManagers<V>(maxEntities: nat, empty: V)
    returns (em: EntityManager, cm: ComponentManager<V>, sm: SystemManager)
    requires 0 < maxEntities < UINT32_LIMIT
    ensures fresh(em) && fresh(em.activeEntities) && fresh(em.entitySignatures) && fresh(sm) && fresh(cm)
    ensures em.Healthy() && em.maxEntities == maxEntities
    ensures em.availableEntities == Range(maxEntities)
    ensures forall e :: 0 <= e < maxEntities ==> em.entitySignatures[e] == {}
    ensures cm.Valid() && cm.capacity == maxEntities
    ensures cm.components == map[MODEL_RENDER_COMPONENT := 0, TEXT_RENDER_COMPONENT := 1]
    ensures forall n :: n in cm.componentArrays ==> cm.Components(n) == map[]
    ensures sm.Valid()
    ensures sm.signatures == map[MODEL_SYSTEM := {0}, TEXT_RENDERING_SYSTEM := {1}]
    ensures sm.systems == map[MODEL_SYSTEM := {}, TEXT_RENDERING_SYSTEM := {}]
  {
    em := new EntityManager(maxEntities);
    cm := InitialComponents(maxEntities, empty);
    var modelId := cm.GetComponentID(MODEL_RENDER_COMPONENT);
    var textId := cm.GetComponentID(TEXT_RENDER_COMPONENT);
    sm := InitialSystems(modelId, textId);
  }

  /** The component half of `Initialize`: the two render components, in order. */
  method InitialComponents<V>(capacity: nat, empty: V) returns (cm: ComponentManager<V>)
    ensures cm.Valid() && fresh(cm)
    ensures cm.capacity == capacity
    ensures cm.components == map[MODEL_RENDER_COMPONENT := 0, TEXT_RENDER_COMPONENT := 1]
    ensures cm.componentArrays.Keys == {MODEL_RENDER_COMPONENT, TEXT_RENDER_COMPONENT}
    ensures cm.Components(MODEL_RENDER_COMPONENT) == map[] && cm.Components(TEXT_RENDER_COMPONENT) == map[]
  {
    assert MODEL_RENDER_COMPONENT != TEXT_RENDER_COMPONENT by {
      assert MODEL_RENDER_COMPONENT[0] != TEXT_RENDER_COMPONENT[0];
    }
    cm := new ComponentManager<V>(capacity, empty);
    cm.RegisterComponent(MODEL_RENDER_COMPONENT);
    assert cm.components == map[MODEL_RENDER_COMPONENT := 0];
    assert cm.componentArrays.Keys == {MODEL_RENDER_COMPONENT};
    cm.RegisterComponent(TEXT_RENDER_COMPONENT);
  }

  /** The system half of `Initialize`: each render system requires its component. */
  method InitialSystems(modelId: nat, textId: nat) returns (sm: SystemManager)
    ensures sm.Valid() && fresh(sm)
    ensures sm.signatures == map[MODEL_SYSTEM := {modelId}, TEXT_RENDERING_SYSTEM := {textId}]
    ensures sm.systems == map[MODEL_SYSTEM := {}, TEXT_RENDERING_SYSTEM := {}]
  {
    sm := new SystemManager();
    sm.RegisterSystem(MODEL_SYSTEM);
    sm.SetSignature(MODEL_SYSTEM, {modelId});
    sm.RegisterSystem(TEXT_RENDERING_SYSTEM);
    sm.SetSignature(TEXT_RENDERING_SYSTEM, {textId});
  }
}
