/** `SceneManager`: owns the current scene and keeps the registry's worlds in
    step with it. A scene instance is identified by the name it was built
    with; what it does when initialised, updated, drawn or exited is outside
    this model, so the calls made on it are recorded as a trace. */
module SceneManagers {
  import opened Wrappers
  import opened EcsTypes
  import opened EcsManagers
  import opened EcsRegistries

  const TEST_SCENE := "TestScene"
  const TEMP_SUFFIX := ".temp"

  /** One call the manager makes on a scene instance. */
  datatype SceneEvent =
    | Initialized(scene: string)
    | Updated(scene: string, dt: real)
    | Drawn(scene: string)
    | Exited(scene: string)

  /** The file a scene's play-mode snapshot is written to. */
  function TempScenePath(scenePath: string): (r: string)
    ensures |r| == |scenePath| + 5 && r[..|scenePath|] == scenePath && r[|scenePath|..] == TEMP_SUFFIX
  {
    scenePath + TEMP_SUFFIX
  }

  /** Distinct scene paths have distinct snapshot files. */
  lemma TempScenePathInjective(p: string, q: string)
    requires TempScenePath(p) == TempScenePath(q)
    ensures p == q
  {
    assert |p| == |q|;
    assert p == TempScenePath(p)[..|p|];
  }

  /** The registry side of leaving a scene: the world under `oldName` is
      emptied and then moved to `newName`. */
  method ClearAndRename<V>(registry: ECSRegistry<V>, oldName: string, newName: string)
    requires registry.Valid()
    requires oldName in registry.ecsManagers && registry.ecsManagers[oldName].Valid()
    requires newName !in registry.ecsManagers
    modifies registry, registry.ecsManagers[oldName].Objects()
    ensures registry.Valid()
    ensures registry.ecsManagers == Renamed(old(registry.ecsManagers), oldName, newName)
    ensures registry.activeECSManagerName ==
      if old(registry.activeECSManagerName) == oldName then newName else old(registry.activeECSManagerName)
    ensures registry.ecsManagers[newName].Valid() && registry.ecsManagers[newName].Cleared()
  {
    var world := registry.GetECSManager(oldName);
    world.ClearAllEntities();
    assert world.Cleared();
    registry.RenameECSManager(oldName, newName);
  }

  class SceneManager<V> {
    const registry: ECSRegistry<V>
    /** The current scene instance, by name; `None` when there is none. */
    var currentScene: Option<string>
    var currentScenePath: string
    /** The calls made on scene instances so far, oldest first. */
    var events: seq<SceneEvent>

    /** A scene carries the path it was loaded from; with no scene the path is empty. */
    ghost predicate Valid()
      reads this, registry
    {
      && registry.Valid()
      && (currentScene.Some? ==> currentScene.value == currentScenePath)
      && (currentScene.None? ==> currentScenePath == "")
    }

    constructor (registry: ECSRegistry<V>)
      requires registry.Valid()
      ensures Valid() && this.registry == registry
      ensures currentScene.None? && currentScenePath == "" && events == []
    {
      this.registry := registry;
      currentScene := None;
      currentScenePath := "";
      events := [];
    }

    /** Builds the world "TestScene" and enters a scene of that name. The scene
        replaced here, if any, is dropped without being exited. */
    method LoadTestScene()
      requires Valid()
      requires TEST_SCENE !in registry.ecsManagers
      modifies this, registry
      ensures Valid()
      ensures TEST_SCENE in registry.ecsManagers && registry.ecsManagers[TEST_SCENE].Valid()
      ensures registry.ecsManagers == old(registry.ecsManagers)[TEST_SCENE := registry.ecsManagers[TEST_SCENE]]
      ensures old(registry.activeECSManagerName) == "" ==> registry.activeECSManagerName == TEST_SCENE
      ensures currentScene == Some(TEST_SCENE) && currentScenePath == TEST_SCENE
      ensures events == old(events) + [Initialized(TEST_SCENE)]
    {
      var world := registry.CreateECSManager(TEST_SCENE);
      currentScene := Some(TEST_SCENE);
      currentScenePath := TEST_SCENE;
      events := events + [Initialized(TEST_SCENE)];
    }

    /** Leaves the current scene, if any: its world is emptied and moved to the
        new path, keeping its registrations. Then the new scene is entered. */
    method LoadScene(scenePath: string)
      requires Valid()
      requires currentScene.Some? ==>
        && currentScenePath in registry.ecsManagers
        && registry.ecsManagers[currentScenePath].Valid()
        && scenePath !in registry.ecsManagers
      modifies this, registry
      modifies if currentScene.Some? then registry.ecsManagers[currentScenePath].Objects() else {}
      ensures Valid()
      ensures currentScene == Some(scenePath) && currentScenePath == scenePath
      ensures old(currentScene).None? ==>
        && registry.ecsManagers == old(registry.ecsManagers)
        && registry.activeECSManagerName == old(registry.activeECSManagerName)
        && events == old(events) + [Initialized(scenePath)]
      ensures old(currentScene).Some? ==>
        && registry.ecsManagers == Renamed(old(registry.ecsManagers), old(currentScenePath), scenePath)
        && registry.activeECSManagerName ==
             (if old(registry.activeECSManagerName) == old(currentScenePath) then scenePath
              else old(registry.activeECSManagerName))
        && events == old(events) + [Exited(old(currentScenePath)), Initialized(scenePath)]
        && registry.ecsManagers[scenePath].Valid()
        && registry.ecsManagers[scenePath].Cleared()
    {
      var leaving := currentScene;
      var leavingPath := currentScenePath;
      if leaving.Some? {
        events := events + [Exited(leavingPath)];
      }
      currentScene := Some(scenePath);
      currentScenePath := scenePath;
      events := events + [Initialized(scenePath)];
      if leaving.Some? {
        ClearAndRename(registry, leavingPath, scenePath);
      }
    }

    method UpdateScene(dt: real)
      requires Valid()
      modifies this
      ensures Valid()
      ensures currentScene == old(currentScene) && currentScenePath == old(currentScenePath)
      ensures events == old(events) + (if currentScene.Some? then [Updated(currentScenePath, dt)] else [])
    {
      if currentScene.Some? {
        events := events + [Updated(currentScenePath, dt)];
      }
    }

    method DrawScene()
      requires Valid()
      modifies this
      ensures Valid()
      ensures currentScene == old(currentScene) && currentScenePath == old(currentScenePath)
      ensures events == old(events) + (if currentScene.Some? then [Drawn(currentScenePath)] else [])
    {
      if currentScene.Some? {
        events := events + [Drawn(currentScenePath)];
      }
    }

    /** Exits and drops the current scene, if any, and forgets its path. */
    method ExitScene()
      requires Valid()
      modifies this
      ensures Valid()
      ensures currentScene.None? && currentScenePath == ""
      ensures events == old(events) + (if old(currentScene).Some? then [Exited(old(currentScenePath))] else [])
    {
      if currentScene.Some? {
        events := events + [Exited(currentScenePath)];
        currentScene := None;
        currentScenePath := "";
      }
    }

    /** The snapshot path of the current scene; the write itself is not part of
        this model. */
    function SaveTempScene(): (tempScenePath: string)
      reads this
      ensures TempScenePath(currentScenePath) == tempScenePath
    {
      currentScenePath + TEMP_SUFFIX
    }

    /** Looks for the current scene's snapshot; `fileExists` stands for the
        filesystem. Reports whether the snapshot was found. */
    function ReloadTempScene(fileExists: string -> bool): (found: bool)
      reads this
      ensures found <==> fileExists(TempScenePath(currentScenePath))
    {
      fileExists(currentScenePath + TEMP_SUFFIX)
    }
  }
}
