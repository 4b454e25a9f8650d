/** `ECSRegistry`: the worlds of the application, each an `ECSManager` stored
    under a name, and the name of the active one. */
module EcsRegistries {
  import opened EcsTypes
  import opened EcsManagers

  class ECSRegistry<V> {
    /** `MAX_ENTITIES` and `T{}`, with which every new world is built. */
    const maxEntities: nat
    const empty: V
    var ecsManagers: map<string, ECSManager<V>>
    var activeECSManagerName: string

    /** The active name is empty or names a world, so `GetActiveECSManager`
        never looks up a missing entry. */
    ghost predicate Valid()
      reads this
    {
      && 0 < maxEntities < UINT32_LIMIT
      && (activeECSManagerName == "" || activeECSManagerName in ecsManagers)
    }

    /** The private constructor behind `GetInstance`: no worlds, none active. */
    constructor (maxEntities: nat, empty: V)
      requires 0 < maxEntities < UINT32_LIMIT
      ensures Valid()
      ensures this.maxEntities == maxEntities && this.empty == empty
      ensures ecsManagers == map[] && activeECSManagerName == ""
    {
      this.maxEntities := maxEntities;
      this.empty := empty;
      ecsManagers := map[];
      activeECSManagerName := "";
    }

    /** Adds a fresh world under a new name; it becomes active when none is. */
    method CreateECSManager(name: string) returns (world: ECSManager<V>)
      requires Valid()
      requires name !in ecsManagers
      modifies this
      ensures Valid()
      ensures fresh(world) && world.Valid()
      ensures fresh(world.entityManager) && fresh(world.entityManager.activeEntities)
      ensures fresh(world.entityManager.entitySignatures)
      ensures fresh(world.componentManager) && fresh(world.systemManager)
      ensures ecsManagers == old(ecsManagers)[name := world]
      ensures activeECSManagerName == if old(activeECSManagerName) == "" then name else old(activeECSManagerName)
    {
      world := new ECSManager<V>(maxEntities, empty);
      ecsManagers := ecsManagers[name := world];
      if activeECSManagerName == "" {
        SetActiveECSManager(name);
      }
    }

    function GetECSManager(name: string): (world: ECSManager<V>)
      reads this
      requires name in ecsManagers
      ensures world == ecsManagers[name]
    {
      ecsManagers[name]
    }

    /** Removes a world other than the active one; the others stay. */
    method DestroyECSManager(name: string)
      requires Valid()
      requires name in ecsManagers
      requires name != activeECSManagerName
      modifies this
      ensures Valid()
      ensures ecsManagers == old(ecsManagers) - {name}
      ensures activeECSManagerName == old(activeECSManagerName)
    {
      ecsManagers := ecsManagers - {name};
    }

    method SetActiveECSManager(name: string)
      requires Valid()
      requires name in ecsManagers
      modifies this
      ensures Valid()
      ensures activeECSManagerName == name
      ensures ecsManagers == old(ecsManagers)
    {
      activeECSManagerName := name;
    }

    /** The active world: defined whenever a name is active. */
    function GetActiveECSManager(): (world: ECSManager<V>)
      reads this
      requires Valid()
      requires activeECSManagerName != ""
      ensures activeECSManagerName in ecsManagers && world == ecsManagers[activeECSManagerName]
    {
      ecsManagers[activeECSManagerName]
    }

    /** Moves the world under `oldName` to `newName`; the active name follows it. */
    method RenameECSManager(oldName: string, newName: string)
      requires Valid()
      requires oldName in ecsManagers
      requires newName !in ecsManagers
      modifies this
      ensures Valid()
      ensures ecsManagers == Renamed(old(ecsManagers), oldName, newName)
      ensures activeECSManagerName == if old(activeECSManagerName) == oldName then newName else old(activeECSManagerName)
    {
      ecsManagers := ecsManagers[newName := ecsManagers[oldName]];
      ecsManagers := ecsManagers - {oldName};
      if oldName == activeECSManagerName {
        activeECSManagerName := newName;
      }
    }
  }

  /** The map after moving the entry under `oldName` to `newName`. */
  function Renamed<W>(m: map<string, W>, oldName: string, newName: string): (r: map<string, W>)
    requires oldName in m && newName !in m
    ensures newName in r && r[newName] == m[oldName]
    ensures oldName !in r
    ensures forall k :: k != oldName && k != newName ==> (k in r <==> k in m) && (k in r ==> r[k] == m[k])
  {
    m[newName := m[oldName]] - {oldName}
  }

  /** A rename keeps the number of worlds. */
  lemma RenameKeepsCount<W>(m: map<string, W>, oldName: string, newName: string)
    requires oldName in m && newName !in m
    ensures |Renamed(m, oldName, newName)| == |m|
  {
    var r := Renamed(m, oldName, newName);
    assert r.Keys == m.Keys - {oldName} + {newName};
  }

  /** Renaming there and back restores the map. */
  lemma RenameBack<W>(m: map<string, W>, oldName: string, newName: string)
    requires oldName in m && newName !in m
    ensures Renamed(Renamed(m, oldName, newName), newName, oldName) == m
  {
  }
}
