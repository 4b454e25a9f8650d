# GAM300 engine and editor core, modelled in Dafny

This project models the sequential, state-keeping core of the GAM300 C++ game engine and its editor, and proves properties of that model. It covers these parts:

- **Entity-component-system.**
  - `EntityManager` hands out entity IDs from a FIFO free list and tracks signatures and active bits.
  - `ComponentArray<T>` is a densely packed array with swap-with-last removal and two mutually inverse index maps.
  - `ComponentManager` hands out sequential component IDs.
  - In `SystemManager`, an entity belongs to a system iff the system's signature is a subset of the entity's.
  - `ECSManager` composes the three managers.
  - `ECSRegistry` keeps named worlds and an active name that follows renames.
  - `SceneManager` clears and renames the world on a scene switch.
- **Transforms and vectors.**
  - `TransformSystem` recomputes a model matrix only when position, rotation or scale changed; `Vector3D`'s assignment copies only x and y, which the model follows.
  - `Vector3D` provides indexing, copy, assignment, the compound operators and equality.
- **Input.**
  - The engine's `InputManager` keeps key and button maps with previous-frame snapshots.
  - The editor's `EditorInputManager` detects a "pressed this frame" edge.
- **Logging.**
  - `GuiLogQueue` is a bounded FIFO (1000 messages, oldest dropped).
  - The logging front end has an initialised flag.
  - `ConsolePanel` maps levels and keeps a bounded history with level filters.
- **Editor state.**
  - The Edit/Play/Paused machine of `EditorState` and `Engine`.
  - The `PanelManager` registry keeps a vector and a map in sync.
  - `AssetBrowserPanel` provides extension classification, case-insensitive search, selection, the sorted listing and breadcrumbs.
- **Reflection serializer.**
  - Values are written in the JSON envelope `{"type":...,"data":...}`.
  - Primitive readers convert the JSON number kinds.
  - The string escaper writes JSON string bodies that a parser following section 7 of RFC 8259 reads back, as the same string only for ASCII.
  - Struct, vector, map, pair and shared-pointer descriptors are modelled, with their structural checks.
  - Vector deserialisation only grows and map deserialisation only merges.
  - Byte-order helpers and the size-prefixed `shared_ptr<void>` blob are included.
  - The registry of primitive descriptors lets the first registration win.
- **Rendering bookkeeping, with GL, FreeType and FMOD abstracted away.**
  - `GraphicsManager` keeps a render queue and sorts it by render order when a camera is set.
  - `ModelSystem` and `TextRenderingSystem` filter what they submit.
  - `TextUtils` places and aligns text.
  - `LightManager` keeps the point-light list.
  - `Material` clamps its setters, keeps a texture map and counts texture units.
  - `TextureManager` keeps a texture cache keyed by path.
  - `AudioManager` keeps sound and channel maps.
  - `DebugDrawSystem` expires timed commands and generates wireframe indices.
  - `RaycastUtil` selects the closest hit and converts between row-major and column-major layouts.

How the C++ maps onto Dafny:

- There is one module per C++ file, plus shared modules for entity types (`EcsTypes`), small vector and matrix values (`Glm`), render components and the ordered walk over a system's entity set (`SystemIteration`).
- Objects whose fields the C++ mutates are Dafny classes with `modifies` frames. Each method is proved against a specification function of the object's abstract state.
- Pure helpers are functions, each with lemmas about it.
- Maps, vectors, queues and bitsets are `map`, `seq` and `set` fields.
- `float` is `real`.
- Effects outside the core are parameters of the operations that use them. These are the filesystem, FMOD results, the clock, GUIDs, font metrics, square roots and the matrix maths of `calculateModelMatrix`.

Where a header and its `.cpp` disagree, the model follows the `.cpp` body. For example:

- `EditorState::GetState` is modelled from `EditorState.cpp`, not from the inline version in the header.
- `GraphicsManager` uses the `IRenderItem` queue of the source, not the `IRenderComponent` of the header.
- The `Logging` names are those of `Logging.cpp`.

## Model

| member | source | states |
|---|---|---|
| ComponentArrays.ComponentArray.constructor | Project/Engine/src/ECS/ComponentArray.hpp:87-92 | a new array is empty: no entity, no slot in use, every slot the value-initialised component |
| ComponentArrays.ComponentArray.SizeIsEntityCount | Project/Engine/src/ECS/ComponentArray.hpp:88-92 | while the maps are dense, `size` is the number of entities holding a component |
| ComponentArrays.ComponentArray.InsertComponent | Project/Engine/src/ECS/ComponentArray.hpp:27-38 | an entity that already has a component changes nothing; otherwise it takes slot `size`, `size` grows by one, and `Contents()` gains exactly that entity with that component; the maps stay dense and mutually inverse |
| ComponentArrays.ComponentArray.RemoveComponent | Project/Engine/src/ECS/ComponentArray.hpp:40-60 | a missing entity changes nothing; otherwise `size` drops by one and `Contents()` loses exactly that entity, every other entity keeping its component, with the maps still dense and inverse |
| ComponentArrays.RemoveKeepsDense | Project/Engine/src/ECS/ComponentArray.hpp:46-59 | moving the last slot into the removed one and erasing both map entries leaves the maps dense over `size - 1` slots, and the stored map is the old one without the entity |
| ComponentArrays.ComponentArray.GetComponent | Project/Engine/src/ECS/ComponentArray.hpp:62-65 | the component returned is the one `Contents()` holds for the entity |
| ComponentArrays.ComponentArray.TryGetComponent | Project/Engine/src/ECS/ComponentArray.hpp:67-72 | empty exactly when the entity has no component, and otherwise that component |
| ComponentArrays.ComponentArray.EntityDestroyed | Project/Engine/src/ECS/ComponentArray.hpp:74-78 | the destroyed entity's component is gone and nothing else changes; without one the array is untouched |
| ComponentArrays.ComponentArray.AllEntitiesDestroyed | Project/Engine/src/ECS/ComponentArray.hpp:80-85 | both maps are empty, `size` is 0 and every slot holds the value-initialised component |
| EntityManagers.DecrementU32 | Project/Engine/src/ECS/EntityManager.cpp:29 | `--activeEntityCount` on a `uint32_t`: one less, and 0 wraps to 2^32 - 1 |
| EntityManagers.EntityManager.constructor | Project/Engine/src/ECS/EntityManager.cpp:5-9 | the free queue is 0 .. MAX_ENTITIES-1 in ascending order, nothing is live and every signature is empty |
| EntityManagers.EntityManager.CreateEntity | Project/Engine/src/ECS/EntityManager.cpp:11-21 | with fewer than MAX_ENTITIES live, returns the front of the free queue, pops it, counts one more live entity and sets its active bit; a healthy manager stays healthy and returns an ID in range |
| EntityManagers.EntityManager.HealthyQueueNonEmpty | Project/Engine/src/ECS/EntityManager.cpp:12-14 | while only live entities are destroyed, the assertion `activeEntityCount < MAX_ENTITIES` guarantees the queue `front()` reads is non-empty |
| EntityManagers.EntityManager.DestroyEntity | Project/Engine/src/ECS/EntityManager.cpp:23-32 | clears the signature, queues the ID at the back, decrements the live count with `uint32_t` wrap-around and clears the active bit; nothing checks that the entity was live, and only destroying a live one keeps the manager healthy |
| EntityManagers.EntityManager.SetEntitySignature | Project/Engine/src/ECS/EntityManager.cpp:34-42 | only that entity's signature changes, and `GetEntitySignature` then returns it |
| EntityManagers.EntityManager.GetActiveEntityCount | Project/Engine/src/ECS/EntityManager.cpp:44-46 | the count fits a `uint32_t` |
| EntityManagers.EntityManager.DestroyAllEntities | Project/Engine/src/ECS/EntityManager.cpp:48-63 | every signature and active bit is cleared, the live count is 0 and the queue is rebuilt as 0 .. MAX_ENTITIES-1, whatever state it started in |
| EntityManagers.EntityManager.SetActive | Project/Engine/src/ECS/EntityManager.cpp:65-73 | only that entity's active bit changes, and `IsActive` then returns it |
| EntityManagers.DistinctWithin | Project/Engine/src/ECS/EntityManager.cpp:11-16 | a free queue without repeats drawn from a set is no longer than that set |
| EntityManagers.DistinctBelowIsShort | Project/Engine/src/ECS/EntityManager.cpp:23-29 | freeing a live ID cannot overfill the queue: distinct in-range IDs that miss one in-range ID are fewer than MAX_ENTITIES |
| EntityManagers.RangeIsHealthy | Project/Engine/src/ECS/EntityManager.cpp:60-62 | the rebuilt queue holds distinct IDs, all in range |
| EntityManagers.FreshManagerCreatesInOrder | Project/Engine/src/ECS/EntityManager.cpp:5-21 | a fresh manager hands out 0 and then 1 |
| EntityManagers.RecycledAfterQueued | Project/Engine/src/ECS/EntityManager.cpp:11-32 | FIFO reuse: with three IDs, creating and freeing 0 and then creating three times yields 1, 2 and only then 0 |
| EntityManagers.DoubleDestroyHandsOutTwice | Project/Engine/src/ECS/EntityManager.cpp:23-32 | destroying the same ID twice queues it twice, so two later creates can both return it |
| ComponentManagers.ReadableTypeName | Project/Engine/src/ECS/ComponentManager.hpp:11-23 | the readable name is a suffix of the raw name, never longer |
| ComponentManagers.StripsStruct | Project/Engine/src/ECS/ComponentManager.hpp:16-18 | a leading `struct ` is dropped |
| ComponentManagers.StripsClass | Project/Engine/src/ECS/ComponentManager.hpp:19-21 | a leading `class ` is dropped |
| ComponentManagers.KeepsOtherNames | Project/Engine/src/ECS/ComponentManager.hpp:14-22 | a name starting with neither keyword comes back unchanged |
| ComponentManagers.ComponentManager.constructor | Project/Engine/src/ECS/ComponentManager.hpp:78-81 | no type is registered and the next ID is 0 |
| ComponentManagers.ComponentManager.RegisterComponent | Project/Engine/src/ECS/ComponentManager.hpp:28-35 | an unregistered type gets the next ID and a fresh, empty array, the next ID grows by one, and every other array keeps its contents |
| ComponentManagers.NextIdKeepsIdsDistinct | Project/Engine/src/ECS/ComponentManager.hpp:32-34 | handing out `nextComponentID` and incrementing it keeps every ID distinct and below the next one |
| ComponentManagers.ComponentManager.GetComponentID | Project/Engine/src/ECS/ComponentManager.hpp:37-42 | a registered type's ID is below the next ID and differs from every other registered type's ID |
| ComponentManagers.ComponentManager.AddComponent | Project/Engine/src/ECS/ComponentManager.hpp:44-47 | the type's array gains the entity's component unless it already had one, and every other array keeps its contents |
| ComponentManagers.ComponentManager.RemoveComponent | Project/Engine/src/ECS/ComponentManager.hpp:49-52 | the type's array loses the entity, and every other array keeps its contents |
| ComponentManagers.ComponentManager.GetComponent | Project/Engine/src/ECS/ComponentManager.hpp:54-57 | the stored component of that type for the entity |
| ComponentManagers.ComponentManager.TryGetComponent | Project/Engine/src/ECS/ComponentManager.hpp:59-62 | empty exactly when the entity has no component of that type, and otherwise that component |
| ComponentManagers.ComponentManager.EntityDestroyed | Project/Engine/src/ECS/ComponentManager.hpp:64-69 | every registered array loses the entity and nothing else; no type is added or dropped |
| ComponentManagers.ComponentManager.AllEntitiesDestroyed | Project/Engine/src/ECS/ComponentManager.hpp:71-76 | every registered array is empty; no type is added or dropped |
| ComponentManagers.RegistrationOrder | Project/Engine/src/ECS/ComponentManager.hpp:28-42 | the first two types registered get IDs 0 and 1, in registration order |
| SystemManagers.SystemManager.constructor | Project/Engine/src/ECS/SystemManager.hpp:61-63 | no system and no signature |
| SystemManagers.SystemManager.RegisterSystem | Project/Engine/src/ECS/SystemManager.hpp:11-21 | an unregistered system is added with no entities; signatures are untouched |
| SystemManagers.SystemManager.SetSignature | Project/Engine/src/ECS/SystemManager.hpp:23-30 | only the registered system's signature changes |
| SystemManagers.SystemManager.EntityDestroyed | Project/Engine/src/ECS/SystemManager.hpp:32-37 | every system loses the entity and nothing else |
| SystemManagers.SystemManager.AllEntitiesDestroyed | Project/Engine/src/ECS/SystemManager.hpp:39-44 | every system is emptied; systems and signatures stay registered |
| SystemManagers.SystemManager.OnEntitySignatureChanged | Project/Engine/src/ECS/SystemManager.hpp:46-59 | every system ends up holding the entity exactly when the entity's signature has every bit of the system's signature, other entities staying put; `signatures[typeName]` gives each system without one an empty signature |
| SystemManagers.SignatureIn | Project/Engine/src/ECS/SystemManager.hpp:50 | `signatures[typeName]`: the stored signature, or the empty one when there is none |
| SystemManagers.Refiled | Project/Engine/src/ECS/SystemManager.hpp:53-57 | the entity is a member iff `(entitySignature & systemSignature) == systemSignature`, always so for an empty system signature, and no other entity's membership changes |
| EcsManagers.ECSManager.constructor | Project/Engine/src/ECS/ECSManager.cpp:6-38 | `Initialize`: three fresh managers; `ModelRenderComponent` gets ID 0 and `TextRenderComponent` ID 1, both with empty arrays; `ModelSystem` has signature {0} and `TextRenderingSystem` {1}, both empty; the entity queue is 0 .. MAX_ENTITIES-1 |
| EcsManagers.InitialManagers | Project/Engine/src/ECS/ECSManager.cpp:6-38 | the managers `Initialize` builds, with exactly the registrations above |
| EcsManagers.InitialComponents | Project/Engine/src/ECS/ECSManager.cpp:11-14 | registering the two render components in order gives IDs 0 and 1 and two empty arrays |
| EcsManagers.InitialSystems | Project/Engine/src/ECS/ECSManager.cpp:25-37 | each render system is registered empty and given the one-bit signature of its component |
| EcsManagers.ECSManager.CreateEntity | Project/Engine/src/ECS/ECSManager.cpp:40-47 | the entity manager's `CreateEntity`: the front of the queue, one more live entity; no component is added |
| EcsManagers.ECSManager.DestroyEntity | Project/Engine/src/ECS/ECSManager.cpp:49-55 | frees the ID (wrapping live count, cleared signature), drops the entity from every component array and every system, and changes nothing else in them |
| EcsManagers.ECSManager.SystemsForget | Project/Engine/src/ECS/ECSManager.cpp:52 | the system step of `DestroyEntity` leaves every component array as it was |
| EcsManagers.ECSManager.ClearAllEntities | Project/Engine/src/ECS/ECSManager.cpp:57-63 | the world is left with no live entity, the full queue, empty signatures, empty arrays and empty systems, with every type and system still registered |
| EcsManagers.ECSManager.SystemsEmptied | Project/Engine/src/ECS/ECSManager.cpp:60 | the system step of `ClearAllEntities` leaves every component array as it was |
| EcsManagers.ComponentsUnchanged | Project/Engine/src/ECS/ECSManager.cpp:49-63 | a step that touches neither the component manager nor its arrays keeps every array's contents |
| EcsManagers.ECSManager.RegisterComponent | Project/Engine/include/ECS/ECSManager.hpp:24-27 | the type gets the next ID and an empty array; other arrays are untouched |
| EcsManagers.ECSManager.AddComponent | Project/Engine/include/ECS/ECSManager.hpp:29-41 | the component is stored unless the entity already had one, the entity's signature gains the type's bit, every system re-files the entity by the new signature, and other arrays keep their contents |
| EcsManagers.ECSManager.Refile | Project/Engine/include/ECS/ECSManager.hpp:37-40 | storing the new signature and re-filing the entity leaves the component arrays as they were |
| EcsManagers.ECSManager.RemoveComponent | Project/Engine/include/ECS/ECSManager.hpp:43-55 | the component is dropped, the entity's signature loses the type's bit, every system re-files the entity, and other arrays keep their contents |
| EcsManagers.ECSManager.GetComponent | Project/Engine/include/ECS/ECSManager.hpp:57-60 | the stored component of that type |
| EcsManagers.ECSManager.TryGetComponent | Project/Engine/include/ECS/ECSManager.hpp:62-65 | empty exactly when the entity has no such component, and otherwise the component |
| EcsManagers.ECSManager.HasComponent | Project/Engine/include/ECS/ECSManager.hpp:67-70 | true iff `TryGetComponent` has a value, that is iff the entity has the component |
| EcsManagers.ECSManager.RegisterSystem | Project/Engine/include/ECS/ECSManager.hpp:72-75 | the system is added with no entities |
| EcsManagers.ECSManager.SetSystemSignature | Project/Engine/include/ECS/ECSManager.hpp:77-80 | only that system's signature changes |
| EcsManagers.FirstEntityHasNoComponents | Project/Engine/src/ECS/ECSManager.cpp:40-47 | in a fresh world the first entity is 0 and its signature is empty |
| EcsManagers.ModelComponentJoinsModelSystem | Project/Engine/src/ECS/ECSManager.cpp:25-37 | with the systems `Initialize` sets up, an entity whose signature is just the model component's bit is in the model system and not in the text system |
| EcsRegistries.ECSRegistry.constructor | Project/Engine/include/ECS/ECSRegistry.hpp:45-49 | no world and no active name |
| EcsRegistries.ECSRegistry.CreateECSManager | Project/Engine/src/ECS/ECSRegistry.cpp:11-23 | a fresh, initialised world is stored under the new name and returned; it becomes active exactly when no name was active |
| EcsRegistries.ECSRegistry.GetECSManager | Project/Engine/src/ECS/ECSRegistry.cpp:25-28 | the world stored under the name |
| EcsRegistries.ECSRegistry.DestroyECSManager | Project/Engine/src/ECS/ECSRegistry.cpp:30-35 | a world other than the active one is removed; the rest and the active name stay |
| EcsRegistries.ECSRegistry.SetActiveECSManager | Project/Engine/src/ECS/ECSRegistry.cpp:37-40 | an existing world becomes active; the worlds are untouched |
| EcsRegistries.ECSRegistry.GetActiveECSManager | Project/Engine/src/ECS/ECSRegistry.cpp:42-45 | whenever a name is active it names a stored world, and that world is returned |
| EcsRegistries.ECSRegistry.RenameECSManager | Project/Engine/include/ECS/ECSRegistry.hpp:30-42 | the world moves from the old name to the new one, every other entry stays, and the active name follows the world |
| EcsRegistries.Renamed | Project/Engine/include/ECS/ECSRegistry.hpp:34-35 | the new name holds the old name's world, the old name is gone, every other name keeps its entry |
| EcsRegistries.RenameKeepsCount | Project/Engine/include/ECS/ECSRegistry.hpp:34-35 | a rename keeps the number of worlds |
| EcsRegistries.RenameBack | Project/Engine/include/ECS/ECSRegistry.hpp:34-35 | renaming there and back restores the map |
| SceneManagers.TempScenePath | Project/Engine/src/Scene/SceneManager.cpp:70 | the snapshot path is the scene path followed by `.temp` |
| SceneManagers.TempScenePathInjective | Project/Engine/src/Scene/SceneManager.cpp:68-76 | distinct scene paths never share a snapshot file |
| SceneManagers.SceneManager.constructor | Project/Engine/src/Scene/SceneManager.cpp:7-17 | no scene, an empty path, nothing called on a scene yet |
| SceneManagers.SceneManager.LoadTestScene | Project/Engine/src/Scene/SceneManager.cpp:12-17 | creates the world `TestScene` (active when none was), makes `TestScene` the current scene and path, and initialises it; no other world changes |
| SceneManagers.ClearAndRename | Project/Engine/src/Scene/SceneManager.cpp:27-28 | the old scene's world is cleared and then moved to the new path, the active name following it; all other worlds stay |
| SceneManagers.SceneManager.LoadScene | Project/Engine/src/Scene/SceneManager.cpp:22-40 | with no current scene, only the new scene is initialised and no world changes; otherwise the old scene is exited, its world cleared and renamed to the new path (keeping its registrations), and then the new scene is initialised; either way the new path is current |
| SceneManagers.SceneManager.UpdateScene | Project/Engine/src/Scene/SceneManager.cpp:42-46 | the current scene, if any, is updated with `dt`; nothing else happens |
| SceneManagers.SceneManager.DrawScene | Project/Engine/src/Scene/SceneManager.cpp:48-52 | the current scene, if any, is drawn; nothing else happens |
| SceneManagers.SceneManager.ExitScene | Project/Engine/src/Scene/SceneManager.cpp:54-61 | a current scene is exited and dropped and the path cleared; with none, nothing is called |
| SceneManagers.SceneManager.SaveTempScene | Project/Engine/src/Scene/SceneManager.cpp:68-72 | the snapshot path of the current scene |
| SceneManagers.SceneManager.ReloadTempScene | Project/Engine/src/Scene/SceneManager.cpp:74-84 | the snapshot is found exactly when the file `<path>.temp` exists |
| Vector3Ds.Index | Project/Engine/src/Math/Vector3D.cpp:22-26 | index 0, 1, 2 reads x, y, z; any other index fails with "Vector3 indexing out of range", and only those fail |
| Vector3Ds.SetIndex | Project/Engine/src/Math/Vector3D.cpp:16-20 | a write through the returned reference fails with the same message exactly for an index outside 0..2 |
| Vector3Ds.SetThenIndex | Project/Engine/src/Math/Vector3D.cpp:16-26 | writing a component and reading it back gives the value written; the other two keep theirs |
| Vector3Ds.CopyAsWritten | Project/Engine/src/Math/Vector3D.cpp:29-33 | the copy constructor as written copies x and y and leaves z indeterminate |
| Vector3Ds.AssignAsWritten | Project/Engine/src/Math/Vector3D.cpp:35-40 | `operator=` as written takes x and y from the source and keeps the target's own z |
| Vector3Ds.AssignAsWrittenCopiesOnlyMatchingZ | Project/Engine/src/Math/Vector3D.cpp:35-40 | assignment as written yields the source exactly when the target already had the source's z |
| Vector3Ds.AssignAsWrittenDropsZ | Project/Engine/src/Math/Vector3D.cpp:35-40 | assigning (1, 2, 3) to the zero vector gives (1, 2, 0), which `==` says differs from (1, 2, 3) |
| Vector3Ds.Assign | Project/Engine/src/Math/Vector3D.cpp:29-40 | the intended copy and assignment: the result equals the source and reads the same at every index |
| Vector3Ds.AssignForgetsTarget | Project/Engine/src/Math/Vector3D.cpp:35-40 | intended assignment does not depend on the target and is idempotent |
| Vector3Ds.Add | Project/Engine/src/Math/Vector3D.cpp:43 | each component is the sum of the operands' components |
| Vector3Ds.Sub | Project/Engine/src/Math/Vector3D.cpp:44 | each component is the difference of the operands' components |
| Vector3Ds.Mul | Project/Engine/src/Math/Vector3D.cpp:45 | each component is the product of the operands' components |
| Vector3Ds.Div | Project/Engine/src/Math/Vector3D.cpp:46 | with no zero divisor component, multiplying the quotient back by the divisor restores the dividend |
| Vector3Ds.Scale | Project/Engine/src/Math/Vector3D.cpp:48 | scaling is the componentwise product with (s, s, s) |
| Vector3Ds.ScaleLeft | Project/Engine/src/Math/Vector3D.cpp:145 | `scalar * v` is the componentwise product of (s, s, s) with v |
| Vector3Ds.DivScalar | Project/Engine/src/Math/Vector3D.cpp:49 | for a non-zero scalar, scaling the quotient back restores the vector |
| Vector3Ds.Negate | Project/Engine/src/Math/Vector3D.cpp:43-44 | the negation added to the vector gives the zero vector |
| Vector3Ds.SubUndoesAdd | Project/Engine/src/Math/Vector3D.cpp:43-44 | subtracting undoes adding and adding undoes subtracting |
| Vector3Ds.AddAssign | Project/Engine/src/Math/Vector3D.cpp:51-55 | `+=` changes all three components to those of `+` |
| Vector3Ds.SubAssign | Project/Engine/src/Math/Vector3D.cpp:57-61 | `-=` changes all three components to those of `-` |
| Vector3Ds.MulAssign | Project/Engine/src/Math/Vector3D.cpp:63-67 | `*=` changes all three components to those of `*` |
| Vector3Ds.DivAssign | Project/Engine/src/Math/Vector3D.cpp:69-73 | `/=` changes all three components to those of `/` |
| Vector3Ds.ScaleAssign | Project/Engine/src/Math/Vector3D.cpp:75-79 | `*= scalar` changes all three components to those of `* scalar` |
| Vector3Ds.DivScalarAssign | Project/Engine/src/Math/Vector3D.cpp:81-85 | `/= scalar` changes all three components to those of `/ scalar` |
| Vector3Ds.Eq | Project/Engine/src/Math/Vector3D.cpp:89 | `==` holds iff the vectors are equal, iff they read the same at every index |
| Vector3Ds.Neq | Project/Engine/src/Math/Vector3D.cpp:90 | `!=` holds iff the vectors differ |
| Vector3Ds.ProductSymmetries | Project/Engine/src/Math/Vector3D.cpp:94-104 | `dot` is symmetric and `cross` anti-symmetric |
| Vector3Ds.Dot | Project/Engine/src/Math/Vector3D.cpp:94 | a vector's dot product with itself, its squared length, is never negative |
| Vector3Ds.Cross | Project/Engine/src/Math/Vector3D.cpp:96-104 | the cross product is orthogonal to both factors, and zero for a vector with itself |
| Vector3Ds.LengthSq | Project/Engine/src/Math/Vector3D.cpp:106 | the squared length is never negative and is zero for the zero vector |
| Vector3Ds.Normalized | Project/Engine/src/Math/Vector3D.cpp:109-113 | for a positive length, the result scaled by the length is the vector; otherwise the zero vector |
| Vector3Ds.Normalize | Project/Engine/src/Math/Vector3D.cpp:115-125 | for a positive length, the new vector scaled by the length is the old one; otherwise the vector is unchanged |
| Vector3Ds.NormalizeMatchesNormalized | Project/Engine/src/Math/Vector3D.cpp:109-125 | the two forms agree when the length is positive or the vector is zero, and differ otherwise |
| Vector3Ds.ProjectOnto | Project/Engine/src/Math/Vector3D.cpp:127-132 | zero when `n`'s squared length is not positive, in particular for `n` zero |
| Vector3Ds.ProjectOntoKeepsMultiples | Project/Engine/src/Math/Vector3D.cpp:127-132 | projecting a multiple of `n` onto `n` gives it back |
| Vector3Ds.Reflect | Project/Engine/src/Math/Vector3D.cpp:134-137 | adding back twice the projection on the normal restores the vector |
| Vector3Ds.Lerp | Project/Engine/src/Math/Vector3D.cpp:139-142 | `a` at t = 0 and `b` at t = 1 |
| TransformSystems.DefaultTransform | Project/Engine/include/Transform/TransformComponent.hpp:4-17 | a default transform sits at the origin with unit scale and no rotation, and all three last-frame values are zero |
| TransformSystems.NeedsRecompute | Project/Engine/src/TransformSystem.cpp:27 | the dirty check holds exactly when position, scale or rotation differs from its last-frame value |
| TransformSystems.Initialised | Project/Engine/src/TransformSystem.cpp:9-18 | one entity's step of `Initialise`: the matrix is recomputed from the current values, which are kept; each last-frame value receives the current x and y through `operator=` and keeps its own z, so the next frame is clean exactly when the three z components were already in step |
| TransformSystems.Stepped | Project/Engine/src/TransformSystem.cpp:24-35 | one entity's step of `update`: the matrix is recomputed exactly when the dirty check holds and kept otherwise; each last-frame value receives only x and y, so the transform is clean afterwards exactly when the z components were in step, and whether they are in step never changes |
| TransformSystems.SteppedSettlesOnlyInStep | Project/Engine/src/TransformSystem.cpp:21-35 | a frame leaves the matrix current whenever it was current or in step before; a second frame changes nothing when the z components are in step, and is dirty again when they are not |
| TransformSystems.DefaultNeverSettles | Project/Engine/src/TransformSystem.cpp:7-36 | a default transform is dirty after `Initialise` and after every later frame, because its scale's z (1) never reaches `lastScale` (0) |
| TransformSystems.SetPosition | Project/Engine/src/TransformSystem.cpp:50-55 | the position receives the new x and y and keeps its own z; the matrix is recomputed at once; `lastPosition` receives the sentinel's x and y (-99999) and keeps its own z; the other fields stay |
| TransformSystems.SetRotation | Project/Engine/src/TransformSystem.cpp:57-62 | the same for the rotation and `lastRotation` |
| TransformSystems.SetScale | Project/Engine/src/TransformSystem.cpp:64-69 | the same for the scale and `lastScale` |
| TransformSystems.SetterForcesRecompute | Project/Engine/src/TransformSystem.cpp:50-69 | after a setter given a value whose x or y differs from the sentinel's, the next frame sees a change and leaves the matrix current |
| TransformSystems.SentinelLikePositionNotForced | Project/Engine/src/TransformSystem.cpp:50-55 | a position sharing the sentinel's x and y forces nothing: on a settled transform, setting (-99999, -99999, 5) leaves the next frame clean and the position's z at 0 |
| TransformSystems.InitialisedCorrected | Project/Engine/src/TransformSystem.cpp:9-18 | with a three-component assignment, `Initialise` leaves the matrix current and the transform clean |
| TransformSystems.SteppedCorrected | Project/Engine/src/TransformSystem.cpp:24-35 | with a three-component assignment, `update` recomputes exactly when dirty and leaves nothing dirty |
| TransformSystems.UpdateSettles | Project/Engine/src/TransformSystem.cpp:21-35 | with the corrected step, a frame leaves the matrix current whenever it was current or in step before, and a second frame with no edits changes nothing |
| TransformSystems.DefaultSettlesCorrected | Project/Engine/src/TransformSystem.cpp:7-36 | with the corrected steps, a default transform is clean after `Initialise` and the next frame changes nothing |
| TransformSystems.TransformSystem.constructor | Project/Engine/src/TransformSystem.cpp:38-48 | no member entities; `calculateModelMatrix` is the given function |
| TransformSystems.TransformSystem.Initialise | Project/Engine/src/TransformSystem.cpp:7-19 | every member's transform becomes `Initialised` of its old value (the two-component assignment as written); non-members and the member set are untouched |
| TransformSystems.TransformSystem.Update | Project/Engine/src/TransformSystem.cpp:21-36 | every member's transform becomes `Stepped` of its old value (as written); non-members and the member set are untouched |
| InputManagers.StateOf | Project/Engine/src/Input/InputManager.cpp:40-44 | a `find` lookup reads true exactly when the key is present and true |
| InputManagers.Touched | Project/Engine/src/Input/InputManager.cpp:37 | `operator[]` inserts a missing key as `false`, and no lookup reads differently afterwards |
| InputManagers.AnyDown | Project/Engine/src/Input/InputManager.cpp:67-87 | finds a tracked key that is down now and was not down the previous frame iff one exists; the previous-frame map only gains `false` entries |
| InputManagers.InputManager.constructor | Project/Engine/src/Input/InputManager.cpp:8-16 | the static members' initial values: empty maps, zero cursor and scroll, no platform |
| InputManagers.InputManager.Initialize | Project/Engine/src/Input/InputManager.cpp:18-23 | detaches the platform and changes nothing else |
| InputManagers.InputManager.Update | Project/Engine/src/Input/InputManager.cpp:25-33 | the previous-frame maps become copies of the current ones, so right after it nothing reads as pressed this frame |
| InputManagers.InputManager.GetKeyDown | Project/Engine/src/Input/InputManager.cpp:35-38 | true iff the key is down now and was not down the previous frame; the key is inserted into the current map when missing, and into the previous map only when it is down (`&&` short-circuits) |
| InputManagers.InputManager.GetKey | Project/Engine/src/Input/InputManager.cpp:40-44 | held iff present and true; nothing is inserted |
| InputManagers.InputManager.GetMouseButtonDown | Project/Engine/src/Input/InputManager.cpp:46-49 | as `GetKeyDown`, for the mouse-button maps |
| InputManagers.InputManager.GetMouseButton | Project/Engine/src/Input/InputManager.cpp:51-55 | held iff present and true; nothing is inserted |
| InputManagers.InputManager.GetMouseX | Project/Engine/src/Input/InputManager.cpp:57-60 | the stored cursor x |
| InputManagers.InputManager.GetMouseY | Project/Engine/src/Input/InputManager.cpp:62-65 | the stored cursor y |
| InputManagers.InputManager.GetAnyKeyDown | Project/Engine/src/Input/InputManager.cpp:67-76 | true iff some tracked key went down this frame; only the previous-frame key map may gain `false` entries |
| InputManagers.InputManager.GetAnyMouseButtonDown | Project/Engine/src/Input/InputManager.cpp:78-87 | true iff some tracked button went down this frame; only the previous-frame button map may gain `false` entries |
| InputManagers.InputManager.GetAnyInputDown | Project/Engine/src/Input/InputManager.cpp:89-92 | true iff a key or a button went down this frame; the current maps are untouched, each previous-frame map only gains keys as `false`, and the cursor, the scroll offsets and the platform are kept |
| InputManagers.InputManager.OnKeyEvent | Project/Engine/src/Input/InputManager.cpp:95-98 | PRESS and REPEAT mark the key down and RELEASE marks it up; nothing else changes |
| InputManagers.InputManager.OnMouseButtonEvent | Project/Engine/src/Input/InputManager.cpp:100-103 | the same for a mouse button |
| InputManagers.InputManager.OnMousePositionEvent | Project/Engine/src/Input/InputManager.cpp:105-109 | overwrites the cursor position; nothing else changes |
| InputManagers.InputManager.OnScrollEvent | Project/Engine/src/Input/InputManager.cpp:111-115 | adds the offsets to the accumulated scroll; nothing else changes |
| InputManagers.PressIsDownForOneFrame | Project/Engine/src/Input/InputManager.cpp:25-38 | a press is "down" on exactly one frame: right after it, and no longer after the next snapshot |
| InputManagers.PaddingIsInvisible | Project/Engine/src/Input/InputManager.cpp:37 | the `false` entries the queries insert never change what a later lookup reads |
| EngineLogging.LastN | Project/Engine/src/Logging.cpp:66-71 | the last `n` elements, or all when there are no more than `n` |
| EngineLogging.Pushed | Project/Engine/src/Logging.cpp:63-72 | the queue after `Push`: never over MAX_QUEUE_SIZE (1000), ending with the message; below the cap the message is appended, at the cap the oldest messages are dropped and the newest 999 kept in order |
| EngineLogging.PushedIsFifo | Project/Engine/src/Logging.cpp:63-83 | below the cap the queue is first in, first out: the front stays the front and the new message comes out last |
| EngineLogging.GuiLogQueue.constructor | Project/Engine/src/Logging.cpp:59 | the queue starts empty |
| EngineLogging.GuiLogQueue.Push | Project/Engine/src/Logging.cpp:63-72 | the queue becomes `Pushed` of the old queue and the message |
| EngineLogging.GuiLogQueue.TryPop | Project/Engine/src/Logging.cpp:74-83 | an empty queue reports failure and stays empty; otherwise the front message is returned and removed |
| EngineLogging.GuiLogQueue.Clear | Project/Engine/src/Logging.cpp:85-89 | the queue is emptied |
| EngineLogging.GuiLogQueue.Size | Project/Engine/src/Logging.cpp:91-94 | the number of queued messages |
| EngineLogging.LoggingSystem.constructor | Project/Engine/src/Logging.cpp:56-60 | not initialised, no logger, an empty queue |
| EngineLogging.LoggingSystem.Initialize | Project/Engine/src/Logging.cpp:97-142 | a second call succeeds and changes nothing; a failing setup reports failure, logs nothing, and still marks the system initialised; otherwise the logger is installed when spdlog is compiled in and "Engine logging system initialized" is logged at Info |
| EngineLogging.LoggingSystem.Shutdown | Project/Engine/src/Logging.cpp:144-161 | nothing happens when not initialised; otherwise the logger is dropped, the queue emptied and the flag cleared |
| EngineLogging.LoggingSystem.GetGuiLogQueue | Project/Engine/src/Logging.cpp:163-165 | the one GUI queue |
| EngineLogging.LoggingSystem.LogInternal | Project/Engine/src/Logging.cpp:168-200 | nothing before `Initialize`; otherwise the message is pushed with its level, and pushed once more through the GUI sink when a logger is set |
| EngineLogging.LoggingSystem.LogTrace | Project/Engine/src/Logging.cpp:203-205 | `LogInternal` at Trace |
| EngineLogging.LoggingSystem.LogDebug | Project/Engine/src/Logging.cpp:207-209 | `LogInternal` at Debug |
| EngineLogging.LoggingSystem.LogInfo | Project/Engine/src/Logging.cpp:211-213 | `LogInternal` at Info |
| EngineLogging.LoggingSystem.LogWarn | Project/Engine/src/Logging.cpp:215-217 | `LogInternal` at Warn |
| EngineLogging.LoggingSystem.LogError | Project/Engine/src/Logging.cpp:219-221 | `LogInternal` at Error |
| EngineLogging.LoggingSystem.LogCritical | Project/Engine/src/Logging.cpp:223-225 | `LogInternal` at Critical |
| EngineLogging.LogAddsCopies | Project/Engine/src/Logging.cpp:168-186 | with room in the queue, a log call adds one copy of the message at the back, or two when the spdlog GUI sink also pushes it |
| ConsolePanels.ConvertEngineLogLevel | Project/Editor/src/Panels/ConsolePanel.cpp:130-144 | Trace, Debug and Info give 0, Warn gives 1, Error and Critical give 2, and nothing else is produced |
| ConsolePanels.ToEntry | Project/Editor/src/Panels/ConsolePanel.cpp:112-119 | an engine message becomes an entry with its text, its converted level and the engine's own timestamp |
| ConsolePanels.AppendedKeepsLatest | Project/Editor/src/Panels/ConsolePanel.cpp:146-158 | within the cap, push-back followed by erasing the front when over the cap keeps exactly the newest `m_MaxLogEntries` entries |
| ConsolePanels.Converted | Project/Editor/src/Panels/ConsolePanel.cpp:110-121 | the entries made from a list of messages, one per message, in order |
| ConsolePanels.LastNOfLastN | Project/Editor/src/Panels/ConsolePanel.cpp:121-126 | trimming to the newest n after every push equals trimming once at the end |
| ConsolePanels.AppendedThenMore | Project/Editor/src/Panels/ConsolePanel.cpp:121-126 | one trimmed push followed by more entries keeps the same newest entries as taking them all at once |
| ConsolePanels.LastNOfLastNAppend | Project/Editor/src/Panels/ConsolePanel.cpp:121-126 | the same for any number of later entries |
| ConsolePanels.DrainedKeepsLatest | Project/Editor/src/Panels/ConsolePanel.cpp:103-128 | draining keeps the newest `m_MaxLogEntries` of the old entries followed by the converted messages, oldest first |
| ConsolePanels.DrainBelowCapAppends | Project/Editor/src/Panels/ConsolePanel.cpp:103-128 | below the cap, draining appends every message and erases nothing |
| ConsolePanels.StartupEntries | Project/Editor/src/Panels/ConsolePanel.cpp:8-14 | the panel starts with three entries: two at info level and one warning |
| ConsolePanels.StartupKeepsLatest | Project/Editor/src/Panels/ConsolePanel.cpp:11-13 | the three startup pushes keep the newest of the three within the cap |
| ConsolePanels.IsShown | Project/Editor/src/Panels/ConsolePanel.cpp:41-59 | levels 0, 1 and 2 follow their checkbox; any other level is never shown; with every box ticked exactly levels 0-2 show, with none ticked nothing does |
| ConsolePanels.LevelLabel | Project/Editor/src/Panels/ConsolePanel.cpp:63-64 | `[INFO]` for 0, `[WARN]` for 1 and `[ERROR]` for anything else |
| ConsolePanels.Displayed | Project/Editor/src/Panels/ConsolePanel.cpp:40-69 | at most one line per entry, and none when every box is cleared |
| ConsolePanels.AllBoxesShowEverything | Project/Editor/src/Panels/ConsolePanel.cpp:40-69 | with every box ticked, entries of levels 0-2 each give the line `[timestamp] tag message`, in order |
| ConsolePanels.ConsolePanel.constructor | Project/Editor/src/Panels/ConsolePanel.cpp:8-14 | a panel named "Console", open, with every box and auto-scroll on, holding the newest `m_MaxLogEntries` of the three startup entries |
| ConsolePanels.ConsolePanel.AddLog | Project/Editor/src/Panels/ConsolePanel.cpp:146-158 | the entry, stamped with the clock reading, is appended and only the newest `m_MaxLogEntries` are kept; the checkboxes are untouched |
| ConsolePanels.ConsolePanel.Clear | Project/Editor/src/Panels/ConsolePanel.cpp:160-162 | every entry is gone; the checkboxes are untouched |
| ConsolePanels.ConsolePanel.DrainEngineLogQueue | Project/Editor/src/Panels/ConsolePanel.cpp:103-128 | the engine queue ends empty and the entries are the newest `m_MaxLogEntries` of the old entries followed by the converted messages |
| ConsolePanels.ClearedBy | Project/Editor/src/Panels/ConsolePanel.cpp:29-31 | pressing Clear empties the entries before they are shown |
| ConsolePanels.CommandLogged | Project/Editor/src/Panels/ConsolePanel.cpp:78-98 | a non-empty submitted command is logged at info level as "Command: " followed by it; an empty one logs nothing |
| ConsolePanels.ConsolePanel.RenderBody | Project/Editor/src/Panels/ConsolePanel.cpp:21-99 | takes the frame's checkbox values, clears on request, shows the entries the boxes let through, then logs a submitted command |
| ConsolePanels.ConsolePanel.OnImGuiRender | Project/Editor/src/Panels/ConsolePanel.cpp:16-101 | drains the engine queue first; a hidden window shows nothing and changes nothing more; the close button closes the panel |
| EditorStates.StatesCorrespond | Project/Editor/src/EditorState.cpp:13-18 | the write-through mapping to the engine and the read-back mapping are inverse bijections, so a state written is the state read |
| EditorStates.StateName | Project/Editor/src/EditorState.cpp:22-24 | each state's printed name is its own enumerator name, and only that state has it |
| EditorStates.TransitionsBehave | Project/Editor/src/EditorState.cpp:39-56 | play always ends in play mode, pause pauses only from play, pausing then playing resumes, and pausing from edit mode does nothing |
| EditorStates.EditorState.constructor | Project/Editor/include/EditorState.hpp:46-52 | nothing is selected at first |
| EditorStates.EditorState.GetState | Project/Editor/src/EditorState.cpp:28-37 | the state read is the one matching the engine's game state |
| EditorStates.EditorState.IsEditMode | Project/Editor/include/EditorState.hpp:29 | holds exactly when the engine is in edit mode |
| EditorStates.EditorState.IsPlayMode | Project/Editor/include/EditorState.hpp:30 | holds exactly when the engine is in play mode |
| EditorStates.EditorState.IsPaused | Project/Editor/include/EditorState.hpp:31 | holds exactly when the engine is paused |
| EditorStates.EditorState.ShouldRunGameLogic | Project/Editor/include/EditorState.hpp:32 | game logic runs exactly in play mode, never in edit or paused mode |
| EditorStates.EditorState.SetState | Project/Editor/src/EditorState.cpp:9-26 | afterwards the state is the one asked for; the engine is written and a change line printed exactly when it differed, and otherwise the engine is untouched |
| EditorStates.EditorState.Play | Project/Editor/src/EditorState.cpp:39-46 | the new state is the play transition of the old one |
| EditorStates.EditorState.Pause | Project/Editor/src/EditorState.cpp:48-52 | the new state is the pause transition of the old one |
| EditorStates.EditorState.Stop | Project/Editor/src/EditorState.cpp:54-56 | the state is edit mode afterwards |
| EditorStates.EditorState.SetSelectedEntity | Project/Editor/src/EditorState.cpp:58-63 | the entity is selected afterwards, and a line is printed exactly when it differed from the old selection |
| EditorStates.EditorState.ClearSelection | Project/Editor/src/EditorState.cpp:65-70 | nothing is selected afterwards, and a line is printed exactly when something was |
| EditorStates.EditorState.GetSelectedEntity | Project/Editor/include/EditorState.hpp:42 | the selected entity |
| EditorStates.EditorState.HasSelectedEntity | Project/Editor/include/EditorState.hpp:43 | holds exactly when the selection is not the invalid entity |
| Engines.ExactlyOneMode | Project/Engine/src/Engine.cpp:342-356 | exactly one of edit, play and paused holds, and game logic runs exactly when neither edit nor paused does |
| Engines.Engine.constructor | Project/Engine/src/Engine.cpp:22 | the game state starts in edit mode |
| Engines.Engine.Initialize | Project/Engine/src/Engine.cpp:34-40 | initialisation fails, leaving the game state alone, exactly when logging cannot start; on success the engine is in play mode |
| Engines.Engine.SetGameState | Project/Engine/src/Engine.cpp:334-336 | the game state is the one given |
| Engines.Engine.GetGameState | Project/Engine/src/Engine.cpp:338-340 | the current game state |
| Engines.Engine.ShouldRunGameLogic | Project/Engine/src/Engine.cpp:342-344 | holds exactly in play mode |
| Engines.Engine.IsEditMode | Project/Engine/src/Engine.cpp:346-348 | holds exactly in edit mode |
| Engines.Engine.IsPlayMode | Project/Engine/src/Engine.cpp:350-352 | holds exactly in play mode |
| Engines.Engine.IsPaused | Project/Engine/src/Engine.cpp:354-356 | holds exactly in paused mode |
| Engines.Engine.Update | Project/Engine/src/Engine.cpp:292-301 | the loaded scene is updated by the frame time exactly when game logic runs and a scene is loaded; the scene itself is unchanged |
| Engines.Engine.EndDraw | Project/Engine/src/Engine.cpp:311-320 | the input snapshot for the next frame is taken exactly when game logic runs; the current key and button states are unchanged |
| PanelManagers.EditorPanel.constructor | Project/Editor/src/Panels/EditorPanel.cpp:4-7 | a panel with the given non-empty name and open flag |
| PanelManagers.EditorPanel.GetName | Project/Editor/include/Panels/EditorPanel.hpp:25 | the panel's name |
| PanelManagers.EditorPanel.IsOpen | Project/Editor/include/Panels/EditorPanel.hpp:31 | the panel's open flag |
| PanelManagers.EditorPanel.SetOpen | Project/Editor/include/Panels/EditorPanel.hpp:37 | the open flag is the one given |
| PanelManagers.EditorPanel.ToggleOpen | Project/Editor/include/Panels/EditorPanel.hpp:42 | the open flag is flipped |
| PanelManagers.WithoutName | Project/Editor/src/Panels/PanelManager.cpp:15-20 | what `erase(remove_if(...))` leaves: exactly the panels with another name, from the list, and the whole list when the name is absent |
| PanelManagers.NamesCons | Project/Editor/src/Panels/PanelManager.cpp:4-9 | the names of a list with a front panel are that name plus the rest's |
| PanelManagers.DistinctCons | Project/Editor/src/Panels/PanelManager.cpp:4-9 | a list's names are distinct exactly when the front name is new to the rest and the rest's are distinct |
| PanelManagers.WithoutNameKeepsOthers | Project/Editor/src/Panels/PanelManager.cpp:11-25 | removing by name leaves the other names, all of them, still distinct |
| PanelManagers.OpenNames | Project/Editor/src/Panels/PanelManager.cpp:32-38 | at most one name per panel |
| PanelManagers.OpenNamesAreOpenPanels | Project/Editor/src/Panels/PanelManager.cpp:32-38 | a name is rendered exactly when an open panel carries it; with every panel open, every panel is rendered |
| PanelManagers.PanelManager.constructor | Project/Editor/include/Panels/PanelManager.hpp:16-64 | no panels, in the list or the map |
| PanelManagers.PanelManager.RegisterPanel | Project/Editor/src/Panels/PanelManager.cpp:4-9 | a non-null panel with a new name is appended and mapped; a null panel or a taken name changes nothing; list and map stay in step |
| PanelManagers.PanelManager.UnregisterPanel | Project/Editor/src/Panels/PanelManager.cpp:11-25 | the name leaves the list, which keeps its order, and the map; an unknown name changes nothing |
| PanelManagers.PanelManager.GetPanel | Project/Editor/src/Panels/PanelManager.cpp:27-30 | null exactly when no panel has the name, and otherwise the registered panel of that name |
| PanelManagers.PanelManager.HasPanel | Project/Editor/src/Panels/PanelManager.cpp:47-49 | holds exactly when some registered panel has the name, in the map and in the list |
| PanelManagers.PanelManager.TogglePanel | Project/Editor/src/Panels/PanelManager.cpp:40-45 | only the named panel's open flag flips; an unknown name touches nothing |
| PanelManagers.PanelManager.RenderOpenPanels | Project/Editor/src/Panels/PanelManager.cpp:32-38 | the open panels are rendered once each, in registration order |
| AssetBrowsers.LowerChar | Project/Editor/src/Panels/AssetBrowserPanel.cpp:399-400 | `::tolower` in the C locale: 'A'..'Z' move up by 32 to lower case, every other character is kept, and no result is upper case |
| AssetBrowsers.ToLower | Project/Editor/src/Panels/AssetBrowserPanel.cpp:399-400 | the same length, each character lowered |
| AssetBrowsers.ToLowerIdempotent | Project/Editor/src/Panels/AssetBrowserPanel.cpp:418-421 | lower-casing twice is lower-casing once |
| AssetBrowsers.GetAssetTypeFromExtension | Project/Editor/src/Panels/AssetBrowserPanel.cpp:418-435 | textures, models, shaders, audio or fonts exactly when the lower-cased extension is in that type's list, otherwise All |
| AssetBrowsers.IsValidAssetFile | Project/Editor/src/Panels/AssetBrowserPanel.cpp:555-568 | holds exactly when the lower-cased extension is one of the eighteen listed |
| AssetBrowsers.ValidIffTyped | Project/Editor/src/Panels/AssetBrowserPanel.cpp:555-568 | an extension is valid exactly when its type is not All, and neither test depends on letter case |
| AssetBrowsers.UpperCaseTexture | Project/Editor/src/Panels/AssetBrowserPanel.cpp:418-435 | ".PNG" is a texture, and ".meta" is not a valid asset |
| AssetBrowsers.PassesFilter | Project/Editor/src/Panels/AssetBrowserPanel.cpp:394-416 | an asset passes exactly when the lowered query is empty or occurs in its lowered name, and the type is All, the asset is a directory, or its type matches |
| AssetBrowsers.FilterDefaults | Project/Editor/src/Panels/AssetBrowserPanel.cpp:394-416 | with no query and type All everything passes; a directory ignores the type; the empty query occurs in every name |
| AssetBrowsers.LexLessIrreflexive | Project/Editor/src/Panels/AssetBrowserPanel.cpp:362 | no name sorts before itself |
| AssetBrowsers.LexLessTransitive | Project/Editor/src/Panels/AssetBrowserPanel.cpp:362 | name order is transitive |
| AssetBrowsers.LexLessTotal | Project/Editor/src/Panels/AssetBrowserPanel.cpp:362 | of two different names one sorts first |
| AssetBrowsers.NotBeforeTransitive | Project/Editor/src/Panels/AssetBrowserPanel.cpp:358-363 | the refresh comparator is a strict weak order: not-before is transitive |
| AssetBrowsers.ListedBeforeAsymmetric | Project/Editor/src/Panels/AssetBrowserPanel.cpp:358-363 | no two entries each sort before the other |
| AssetBrowsers.InsertListed | Project/Editor/src/Panels/AssetBrowserPanel.cpp:358-363 | inserting one entry gives the old entries plus it, one longer |
| AssetBrowsers.InsertListedSorted | Project/Editor/src/Panels/AssetBrowserPanel.cpp:358-363 | inserting into a sorted listing keeps it sorted |
| AssetBrowsers.SortListing | Project/Editor/src/Panels/AssetBrowserPanel.cpp:358-363 | the sorted listing is a permutation of its input |
| AssetBrowsers.SortListingSorted | Project/Editor/src/Panels/AssetBrowserPanel.cpp:358-363 | the sorted listing is in comparator order, with every directory before every file |
| AssetBrowsers.KeptEntries | Project/Editor/src/Panels/AssetBrowserPanel.cpp:328-338 | exactly the entries refresh keeps, from the listing, at most as many |
| AssetBrowsers.KeptAreTyped | Project/Editor/src/Panels/AssetBrowserPanel.cpp:328-338 | everything kept is a directory or a file of a known type |
| AssetBrowsers.KeptStep | Project/Editor/src/Panels/AssetBrowserPanel.cpp:322-355 | the entries kept from position i on: entry i when it is kept, then those kept after it |
| AssetBrowsers.CollectAssets | Project/Editor/src/Panels/AssetBrowserPanel.cpp:322-355 | the loop keeps exactly the entries refresh keeps, in listing order |
| AssetBrowsers.SplitParts | Project/Editor/src/Panels/AssetBrowserPanel.cpp:388-390 | at least one part, and no part holds a '/' unless it was already in the part being read |
| AssetBrowsers.Breadcrumbs | Project/Editor/src/Panels/AssetBrowserPanel.cpp:382-392 | no breadcrumb holds a '/' |
| AssetBrowsers.JoinSplitParts | Project/Editor/src/Panels/AssetBrowserPanel.cpp:112-116 | joining the split parts each after a '/' gives back the path with a leading '/' |
| AssetBrowsers.BreadcrumbsRoundTrip | Project/Editor/src/Panels/AssetBrowserPanel.cpp:105-116 | following every breadcrumb from the root leads back to the directory they came from |
| AssetBrowsers.JoinCrumbsAppend | Project/Editor/src/Panels/AssetBrowserPanel.cpp:112-116 | one more breadcrumb adds '/' and that crumb |
| AssetBrowsers.AssetBrowserPanel.constructor | Project/Editor/src/Panels/AssetBrowserPanel.cpp:25-39 | an open panel named "Asset Browser" rooted at "Resources", with type All, no selection, no assets and a refresh pending |
| AssetBrowsers.AssetBrowserPanel.SelectAsset | Project/Editor/src/Panels/AssetBrowserPanel.cpp:437-448 | without multi-select the selection is exactly the asset, which becomes the last selected; with it the asset is toggled, becoming last selected only when it was added; the directory, listing, breadcrumbs, search query, type filter and pending refresh are untouched |
| AssetBrowsers.AssetBrowserPanel.ClearSelection | Project/Editor/src/Panels/AssetBrowserPanel.cpp:450-453 | no asset is selected and the last selected is the zero GUID; nothing else changes |
| AssetBrowsers.AssetBrowserPanel.IsAssetSelected | Project/Editor/src/Panels/AssetBrowserPanel.cpp:455-457 | holds exactly when the GUID is selected |
| AssetBrowsers.AssetBrowserPanel.RefreshAssets | Project/Editor/src/Panels/AssetBrowserPanel.cpp:314-370 | a missing directory falls back to the root; the assets are the kept entries of the listing, sorted and a permutation of them, or, when an entry throws, the entries kept before it in listing order; the breadcrumbs are rebuilt on both paths; the selection, search query, type filter and pending refresh are untouched |
| AssetBrowsers.AssetBrowserPanel.NavigateToDirectory | Project/Editor/src/Panels/AssetBrowserPanel.cpp:372-380 | an existing directory becomes current, clears the selection and asks for a refresh, otherwise the directory, selection and pending refresh are kept; on both paths the listing, breadcrumbs, search query and type filter are kept |
| AssetBrowsers.AssetBrowserPanel.BreadcrumbTarget | Project/Editor/src/Panels/AssetBrowserPanel.cpp:111-116 | breadcrumb i leads to the root followed by the first i + 1 crumbs, each after a '/' |
| AssetBrowsers.AssetBrowserPanel.VisibleAssets | Project/Editor/src/Panels/AssetBrowserPanel.cpp:233-234 | an asset is shown exactly when it is listed and passes the filter |
| AssetBrowsers.Visible | Project/Editor/src/Panels/AssetBrowserPanel.cpp:233-234 | an asset is kept exactly when it is in the list and passes the filter |
| EditorInputManagers.ButtonStep | Project/Editor/src/EditorInputManager.cpp:39-45 | pressed exactly when down now and not before, and the new down flag is the current one |
| EditorInputManagers.NeverPressedTwice | Project/Editor/src/EditorInputManager.cpp:39-45 | one button never reads pressed on two consecutive steps |
| EditorInputManagers.MouseAfter | Project/Editor/src/EditorInputManager.cpp:13-46 | the first update gives a zero delta and clears the first-mouse flag; later, the delta added to the last position gives the current one; both positions become the current one, the scroll is the wheel, and each button goes through its edge step |
| EditorInputManagers.DeltaIsMovement | Project/Editor/src/EditorInputManager.cpp:20-29 | from the second update on, the delta is the distance moved since the previous update |
| EditorInputManagers.NoButtonPressedTwice | Project/Editor/src/EditorInputManager.cpp:39-45 | no mouse button reads pressed on two consecutive updates |
| EditorInputManagers.KeyboardAfter | Project/Editor/src/EditorInputManager.cpp:48-61 | the modifier flags and the Q, W, E, R presses are this frame's, whatever they were before |
| EditorInputManagers.GizmoShortcut | Project/Editor/src/EditorInputManager.cpp:88-96 | 0 reads Q, 1 W, 2 E, 3 R, and any other type reads not pressed |
| EditorInputManagers.ShortcutNeedsItsKey | Project/Editor/src/EditorInputManager.cpp:48-61 | after a keyboard update a shortcut reads pressed exactly when its gizmo type is 0-3 and ImGui reported that type's key |
| EditorInputManagers.EditorInputManager.constructor | Project/Editor/include/EditorInputManager.hpp:19-44 | the structs' initial values: first-mouse set, every flag clear, zero positions |
| EditorInputManagers.EditorInputManager.Update | Project/Editor/src/EditorInputManager.cpp:8-11 | the mouse state is stepped and the keyboard state replaced by this frame's |
| EditorInputManagers.EditorInputManager.UpdateMouseState | Project/Editor/src/EditorInputManager.cpp:13-46 | the mouse state is stepped by this frame's input; the keyboard state is untouched |
| EditorInputManagers.EditorInputManager.UpdateKeyboardState | Project/Editor/src/EditorInputManager.cpp:48-61 | the keyboard state is this frame's; the mouse state is untouched |
| EditorInputManagers.EditorInputManager.GetMouseState | Project/Editor/src/EditorInputManager.cpp:63-65 | the mouse state |
| EditorInputManagers.EditorInputManager.GetKeyboardState | Project/Editor/src/EditorInputManager.cpp:67-69 | the keyboard state |
| EditorInputManagers.EditorInputManager.GetMouseDelta | Project/Editor/src/EditorInputManager.cpp:78-80 | sensitivity 1 gives the delta itself and sensitivity 0 gives zero |
| EditorInputManagers.EditorInputManager.ShouldHandleCameraInput | Project/Editor/src/EditorInputManager.cpp:82-86 | holds exactly when the window is hovered and no item is |
| EditorInputManagers.EditorInputManager.IsGizmoShortcutPressed | Project/Editor/src/EditorInputManager.cpp:88-96 | only a type 0-3 can read pressed, and such a type reads its own key's flag |
| StringEscapes.HexDigit | Project/Engine/src/Reflection/ReflectionBase.cpp:171 | `std::hex` writes a digit as '0'-'9' or 'a'-'f' |
| StringEscapes.HexValue | Project/Engine/src/Reflection/ReflectionBase.cpp:183-184 | a recognised hexadecimal digit has a value below 16 |
| StringEscapes.HexDigitValue | Project/Engine/src/Reflection/ReflectionBase.cpp:171 | a written digit reads back as its value |
| StringEscapes.Hex4 | Project/Engine/src/Reflection/ReflectionBase.cpp:171 | `setw(4)` with fill '0' gives exactly four digits |
| StringEscapes.Hex4Value | Project/Engine/src/Reflection/ReflectionBase.cpp:183-184 | four hexadecimal digits read as a value below 0x10000 |
| StringEscapes.Hex4RoundTrip | Project/Engine/src/Reflection/ReflectionBase.cpp:171 | four written digits read back as the code they encode |
| StringEscapes.EscapeByte | Project/Engine/src/Reflection/ReflectionBase.cpp:159-174 | every byte's escape is non-empty and made of printable ASCII only |
| StringEscapes.Escaped | Project/Engine/src/Reflection/ReflectionBase.cpp:156-176 | the escaped body is printable ASCII only |
| StringEscapes.EscapeString | Project/Engine/src/Reflection/ReflectionBase.cpp:152-178 | the loop writes exactly the escape of each byte of the string, in order |
| StringEscapes.EscapeByteKeepingUtf8 | Project/Engine/src/Reflection/ReflectionBase.cpp:168-173 | the corrected escape: never a control byte, and the same as the original below 0x80 |
| StringEscapes.EscapedKeepingUtf8 | Project/Engine/src/Reflection/ReflectionBase.cpp:156-176 | the corrected escaped body holds no control byte |
| StringEscapes.PlainIsKept | Project/Engine/src/Reflection/ReflectionBase.cpp:173 | the corrected escaper writes a string of printable bytes other than quote and backslash unchanged |
| StringEscapes.PlainIsKeptAsWritten | Project/Engine/src/Reflection/ReflectionBase.cpp:173 | the escaper as written also writes such a string unchanged, so every type name and key is written as it stands |
| StringEscapes.PlainByteIsKept | Project/Engine/src/Reflection/ReflectionBase.cpp:173 | such a byte is written as itself by the corrected escaper |
| StringEscapes.EscapersAgreeOnAscii | Project/Engine/src/Reflection/ReflectionBase.cpp:168-173 | on ASCII input the original and the corrected escaper write the same text |
| StringEscapes.Utf8 | Project/Engine/src/Reflection/ReflectionBase.cpp:183-184 | a `\u` code below 0x80 is stored as that one byte |
| StringEscapes.ShortRoundTrip | Project/Engine/src/Reflection/ReflectionBase.cpp:161-167 | each two-character escape reads back as the byte it stands for |
| StringEscapes.Unescape | Project/Engine/src/Reflection/ReflectionBase.cpp:183-184 | decoding a JSON string body never makes it longer (its round trips with the escapers are the lemmas below) |
| StringEscapes.UnescapeEscapeByte | Project/Engine/src/Reflection/ReflectionBase.cpp:159-174 | reading undoes one byte's escape: the byte comes back below 0x80, its two-byte UTF-8 form otherwise |
| StringEscapes.UnescapeShortEscape | Project/Engine/src/Reflection/ReflectionBase.cpp:161-167 | a two-character escape reads back as its byte |
| StringEscapes.UnescapeHexEscape | Project/Engine/src/Reflection/ReflectionBase.cpp:169-171 | a `\u00XX` escape reads back as the UTF-8 form of its byte |
| StringEscapes.AsciiRoundTrip | Project/Engine/src/Reflection/ReflectionBase.cpp:152-186 | for ASCII strings, reading the escaped body gives back the string |
| StringEscapes.HighByteComesBackAsTwo | Project/Engine/src/Reflection/ReflectionBase.cpp:169-171 | a byte from 0x80 up is escaped as a code point, which reads back as two bytes |
| StringEscapes.EscapedHighByteChanges | Project/Engine/src/Reflection/ReflectionBase.cpp:169-171 | the byte 0xE9 is written as `\u00e9` and read back as C3 A9, not as itself |
| StringEscapes.DecodedAll | Project/Engine/src/Reflection/ReflectionBase.cpp:169-171 | what a string decodes back to after the escaper as written is never shorter, and is longer when it starts with a byte from 0x80 up |
| StringEscapes.UnescapeEscaped | Project/Engine/src/Reflection/ReflectionBase.cpp:152-186 | reading the body the escaper as written produces gives each byte below 0x80 back and each byte from 0x80 up as two UTF-8 bytes |
| StringEscapes.DecodedAllIsInputIffAscii | Project/Engine/src/Reflection/ReflectionBase.cpp:152-186 | that decoding is the input exactly for ASCII input |
| StringEscapes.RoundTripIffAscii | Project/Engine/src/Reflection/ReflectionBase.cpp:152-186 | a string written by the escaper as written reads back as itself exactly when it is ASCII |
| StringEscapes.UnescapeEscapeByteKeepingUtf8 | Project/Engine/src/Reflection/ReflectionBase.cpp:159-174 | reading undoes every byte's corrected escape |
| StringEscapes.RoundTripKeepingUtf8 | Project/Engine/src/Reflection/ReflectionBase.cpp:152-186 | with bytes from 0x80 up copied, reading the escaped body gives back every string |
| JsonValues.Find | Project/Engine/src/Reflection/ReflectionBase.cpp:91 | a member is found exactly when one has the key, and what is found is that member's value |
| JsonValues.Data | Project/Engine/src/Reflection/ReflectionBase.cpp:91-92 | the `data` member is there exactly when the value has one |
| JsonValues.EnvelopeData | Project/Engine/include/Reflection/ReflectionBase.hpp:173-185 | the envelope's `data` member is the data written into it |
| JsonValues.Truncate | Project/Engine/src/Reflection/ReflectionBase.cpp:17 | a cast of a double to an integer truncates toward zero |
| JsonValues.WrapInt32 | Project/Engine/src/Reflection/ReflectionBase.cpp:16-17 | a cast to `int` lands in the 32-bit range, keeps values already in it and differs by a multiple of 2^32 |
| JsonValues.WrapInt64 | Project/Engine/src/Reflection/ReflectionBase.cpp:35 | a cast to `int64_t` lands in the 64-bit range, keeps values already in it and differs by a multiple of 2^64 |
| JsonValues.WrapUint32 | Project/Engine/src/Reflection/ReflectionBase.cpp:25-26 | a cast to `unsigned` lands in 0..2^32-1, keeps values already there and differs by a multiple of 2^32 |
| JsonValues.WrapUint64 | Project/Engine/src/Reflection/ReflectionBase.cpp:44 | a cast to `uint64_t` lands in 0..2^64-1, keeps values already there and differs by a multiple of 2^64 |
| JsonValues.ReadBool | Project/Engine/src/Reflection/ReflectionBase.cpp:10 | succeeds exactly on a bool, giving it |
| JsonValues.ReadInt | Project/Engine/src/Reflection/ReflectionBase.cpp:13-19 | succeeds exactly on an int, an int64 or a double, with a 32-bit result that is the int itself when it is one; otherwise the int error message |
| JsonValues.ReadUnsigned | Project/Engine/src/Reflection/ReflectionBase.cpp:22-28 | succeeds exactly on a uint, a uint64 or a double, with a result in the unsigned range that is the uint itself when it is one; otherwise the unsigned error message |
| JsonValues.ReadInt64 | Project/Engine/src/Reflection/ReflectionBase.cpp:31-37 | succeeds exactly on an int64 (which every int is) or a double, giving the int64 itself when it is one; otherwise the int64_t error message |
| JsonValues.ReadUint64 | Project/Engine/src/Reflection/ReflectionBase.cpp:40-46 | succeeds exactly on a uint64 (which every uint is) or a double, giving the uint64 itself when it is one; otherwise the uint64_t error message |
| JsonValues.ReadDouble | Project/Engine/src/Reflection/ReflectionBase.cpp:49-55 | succeeds exactly on a double, an int or an int64, giving its value; otherwise the double error message |
| JsonValues.LargeUnsignedIsNotADouble | Project/Engine/src/Reflection/ReflectionBase.cpp:49-55 | an integer just above the int64 range is refused by the double reader and read by the uint64 one |
| JsonValues.ReadIntExact | Project/Engine/src/Reflection/ReflectionBase.cpp:13-19 | an int in range, written as an integer or as a whole double, reads back as itself |
| JsonValues.ReadString | Project/Engine/src/Reflection/ReflectionBase.cpp:64-68 | succeeds exactly on a string, giving its bytes |
| JsonValues.IntText | Project/Engine/src/Reflection/ReflectionBase.cpp:83-86 | an integer's decimal text is non-empty and begins with '-' exactly when it is negative |
| JsonValues.NatText | Project/Engine/src/Reflection/ReflectionBase.cpp:83-86 | a non-negative integer's decimal text is non-empty and all digits |
| JsonValues.Join | Project/Engine/include/Reflection/ReflectionBase.hpp:175-184 | no parts give nothing and one part gives itself |
| JsonValues.JoinAppend | Project/Engine/include/Reflection/ReflectionBase.hpp:175-184 | one more part adds a separator and that part, except after no parts |
| JsonValues.JoinPrefixStep | Project/Engine/include/Reflection/ReflectionBase.hpp:175-184 | the parts up to i joined are those before i joined, a separator and part i, except for the first |
| JsonValues.PrintAll | Project/Engine/include/Reflection/ReflectionBase.hpp:311-317 | one text per item, each the item's JSON text |
| JsonValues.PrintMembers | Project/Engine/include/Reflection/ReflectionBase.hpp:385-397 | one text per member, each its quoted key, a colon and its value's text |
| JsonValues.EnvelopeSplit | Project/Engine/include/Reflection/ReflectionBase.hpp:175-184 | the envelope text is its head, the data text and a closing brace |
| JsonValues.ArrayEnvelope | Project/Engine/include/Reflection/ReflectionBase.hpp:175-184 | writing the head, '[', the elements, ']' and '}' gives the envelope of the bracketed elements |
| JsonValues.QuotedPlainName | Project/Engine/include/Reflection/ReflectionBase.hpp:175 | a plain name is quoted as it stands |
| JsonValues.QuotedReadsBackIffAscii | Project/Engine/src/Reflection/ReflectionBase.cpp:152-178 | a string printed between quotes by the `std::string` descriptor reads back as itself exactly when it is ASCII |
| JsonValues.QuotedKeepingUtf8ReadsBack | Project/Engine/src/Reflection/ReflectionBase.cpp:152-178 | with the corrected quoting every string reads back as itself |
| JsonValues.PlainKeys | Project/Engine/include/Reflection/ReflectionBase.hpp:175 | "type" and "data" are plain |
| JsonValues.QuotedKeys | Project/Engine/include/Reflection/ReflectionBase.hpp:175 | the quoted keys are `"type"` and `"data"` |
| JsonValues.BracedPair | Project/Engine/include/Reflection/ReflectionBase.hpp:175 | two members joined by a comma inside braces |
| JsonValues.PrintEnvelope | Project/Engine/include/Reflection/ReflectionBase.hpp:173-185 | for a plain type name, the text every `Serialize` writes is the JSON text of the envelope value |
| ReflectionContainers.Texts | Project/Engine/include/Reflection/ReflectionBase.hpp:311-316 | one text per element, the element's own, in order |
| ReflectionContainers.Jsons | Project/Engine/include/Reflection/ReflectionBase.hpp:311-316 | one JSON value per element, the element's own, in order |
| ReflectionContainers.PrintsElements | Project/Engine/include/Reflection/ReflectionBase.hpp:311-317 | when each element's text is its JSON text, the elements with a comma between two, in brackets, are the JSON text of the array |
| ReflectionContainers.MemberTexts | Project/Engine/include/Reflection/ReflectionBase.hpp:176-183 | one text per member, what that member writes, in declaration order |
| ReflectionContainers.MemberJsons | Project/Engine/include/Reflection/ReflectionBase.hpp:176-183 | one JSON value per member, in declaration order |
| ReflectionContainers.SerializeStruct | Project/Engine/include/Reflection/ReflectionBase.hpp:173-185 | the struct writes `{"type":"<name>","data":[`, its members' texts separated by commas, then `]}` |
| ReflectionContainers.StructBody | Project/Engine/include/Reflection/ReflectionBase.hpp:176-183 | the loop writes the members' texts with a comma before every one but the first |
| ReflectionContainers.StructTextIsJson | Project/Engine/include/Reflection/ReflectionBase.hpp:173-185 | for a plain name and members that write their JSON texts, the struct's text is the JSON text of its envelope |
| ReflectionContainers.DataArray | Project/Engine/include/Reflection/ReflectionBase.hpp:189-193 | there is a data array exactly when the value has a `data` member holding an array, and it is that array |
| ReflectionContainers.StructRead | Project/Engine/include/Reflection/ReflectionBase.hpp:187-209 | no data array gives the malformed-struct error, an array of the wrong size the size-mismatch error naming both sizes, and otherwise each member is read from its element in order |
| ReflectionContainers.DeserializeStruct | Project/Engine/include/Reflection/ReflectionBase.hpp:187-209 | the loop computes the struct read |
| ReflectionContainers.ReadMembersBack | Project/Engine/include/Reflection/ReflectionBase.hpp:203-207 | reading members from i on from what an object wrote succeeds, and afterwards every member writes what that object wrote |
| ReflectionContainers.StructRoundTrip | Project/Engine/include/Reflection/ReflectionBase.hpp:173-209 | reading what a struct wrote into any object succeeds and gives an object that writes the same JSON |
| ReflectionContainers.VectorNameInjective | Project/Engine/include/Reflection/ReflectionBase.hpp:274-281 | different item types give different vector names |
| ReflectionContainers.SerializeVector | Project/Engine/include/Reflection/ReflectionBase.hpp:302-318 | the vector writes its envelope, and an empty vector writes the envelope with `[]` |
| ReflectionContainers.VectorTextOf | Project/Engine/include/Reflection/ReflectionBase.hpp:311-317 | the head, '[', the elements joined by commas, ']' and '}' make the vector's envelope |
| ReflectionContainers.VectorBody | Project/Engine/include/Reflection/ReflectionBase.hpp:312-316 | the loop writes the elements' texts with a comma after every one but the last |
| ReflectionContainers.VectorTextIsJson | Project/Engine/include/Reflection/ReflectionBase.hpp:302-318 | for a plain name and items that write their JSON texts, the vector's text is the JSON text of its envelope |
| ReflectionContainers.VectorRead | Project/Engine/include/Reflection/ReflectionBase.hpp:320-331 | no data array gives the malformed-vector error |
| ReflectionContainers.DeserializeVector | Project/Engine/include/Reflection/ReflectionBase.hpp:320-331 | the loop, growing the target with `set_item`'s resize, computes the vector read |
| ReflectionContainers.ReadElementsShape | Project/Engine/include/Reflection/ReflectionBase.hpp:238-242 | after the reads, the length is the larger of the array's and the old vector's, and old elements past the array are kept |
| ReflectionContainers.VectorReadGrowsOnly | Project/Engine/include/Reflection/ReflectionBase.hpp:320-331 | a successful read never shrinks the target, and keeps its elements past the array's length |
| ReflectionContainers.ReadElementsBack | Project/Engine/include/Reflection/ReflectionBase.hpp:325-329 | reading what a vector wrote from i on gives its elements, followed by any longer target's own |
| ReflectionContainers.VectorRoundTrip | Project/Engine/include/Reflection/ReflectionBase.hpp:302-331 | reading what a vector wrote gives its elements followed by the target's own past that length, and exactly the elements when the target is no longer |
| ReflectionMaps.EntryTexts | Project/Engine/include/Reflection/ReflectionBase.hpp:387-396 | one `[key,value]` text per key of the iteration order, in that order |
| ReflectionMaps.EntryJsons | Project/Engine/include/Reflection/ReflectionBase.hpp:387-396 | one two-element array per key of the iteration order, in that order |
| ReflectionMaps.SerializeMap | Project/Engine/include/Reflection/ReflectionBase.hpp:382-398 | the map writes its envelope around its entries in iteration order |
| ReflectionMaps.MapBody | Project/Engine/include/Reflection/ReflectionBase.hpp:386-396 | the loop writes the entries' texts with a comma before every one but the first |
| ReflectionMaps.EntryTextIsJson | Project/Engine/include/Reflection/ReflectionBase.hpp:391-395 | an entry's text is the JSON text of its two-element array |
| ReflectionMaps.MapTextIsJson | Project/Engine/include/Reflection/ReflectionBase.hpp:382-398 | for a plain name and elements that write their JSON texts, the map's text is the JSON text of its envelope |
| ReflectionMaps.EntryTextsAreJson | Project/Engine/include/Reflection/ReflectionBase.hpp:387-396 | entry by entry, the texts written are the entries' JSON texts |
| ReflectionMaps.MapRead | Project/Engine/include/Reflection/ReflectionBase.hpp:400-416 | no data array gives the malformed-map error |
| ReflectionMaps.DeserializeMap | Project/Engine/include/Reflection/ReflectionBase.hpp:400-416 | the loop, reading each key and value into fresh objects and then assigning, computes the map read |
| ReflectionMaps.ReadEntriesKeepsKeys | Project/Engine/include/Reflection/ReflectionBase.hpp:407-415 | reading never removes a key from the target |
| ReflectionMaps.InsertedValues | Project/Engine/include/Reflection/ReflectionBase.hpp:414 | the keys assigned take their new values and every other key keeps its own |
| ReflectionMaps.ReadEntriesBack | Project/Engine/include/Reflection/ReflectionBase.hpp:407-415 | reading what a map wrote from entry i on assigns exactly the remaining keys their values |
| ReflectionMaps.MapRoundTrip | Project/Engine/include/Reflection/ReflectionBase.hpp:382-416 | reading what a map wrote into any target gives the target overridden by the map: entries are added, never cleared |
| ReflectionMaps.InsertedIsUnion | Project/Engine/include/Reflection/ReflectionBase.hpp:414 | assigning every key of a map is the union in which that map wins |
| ReflectionMaps.LastEntryWins | Project/Engine/include/Reflection/ReflectionBase.hpp:414 | when a key appears twice, the later entry's value is kept |
| ReflectionMaps.SerializePair | Project/Engine/include/Reflection/ReflectionBase.hpp:589-597 | the pair writes the head, the first, a comma, the second and `]}` |
| ReflectionMaps.PairTextIsJson | Project/Engine/include/Reflection/ReflectionBase.hpp:589-597 | for a plain name and elements that write their JSON texts, the pair's text is the JSON text of its envelope |
| ReflectionMaps.PairRead | Project/Engine/include/Reflection/ReflectionBase.hpp:599-609 | no data array gives the malformed-pair error, a size other than 2 the arity error, and only a two-element array can succeed |
| ReflectionMaps.PairRoundTrip | Project/Engine/include/Reflection/ReflectionBase.hpp:589-609 | reading what a pair wrote into any pair gives the pair |
| ReflectionMaps.SharedText | Project/Engine/include/Reflection/ReflectionBase.hpp:459-464 | a null pointer writes `null` and a non-null one what its pointee writes |
| ReflectionMaps.SharedTextIsJson | Project/Engine/include/Reflection/ReflectionBase.hpp:459-464 | a pointer's text is the JSON text of its value |
| ReflectionMaps.SharedRead | Project/Engine/include/Reflection/ReflectionBase.hpp:466-476 | `null` empties the pointer, and anything else is read into a new default-made pointee |
| ReflectionMaps.SharedRoundTrip | Project/Engine/include/Reflection/ReflectionBase.hpp:459-476 | a pointer reads back as itself, provided no pointee writes `null` |
| ReflectionMaps.NestedNullCollapses | Project/Engine/include/Reflection/ReflectionBase.hpp:459-476 | a non-null pointer to a null pointer is written as `null` and reads back as null |
| ReflectionBlobs.Pow256Eight | Project/Engine/include/Reflection/ReflectionBase.hpp:45-53 | eight bytes span exactly the 64-bit range |
| ReflectionBlobs.LEBytes | Project/Engine/include/Reflection/ReflectionBase.hpp:50 | a value laid out in n bytes takes exactly n bytes |
| ReflectionBlobs.Reverse | Project/Engine/include/Reflection/ReflectionBase.hpp:45-62 | a big-endian host's byte order: the same bytes, last first |
| ReflectionBlobs.ReverseReverse | Project/Engine/include/Reflection/ReflectionBase.hpp:45-62 | reversing twice gives the bytes back |
| ReflectionBlobs.FromLEBound | Project/Engine/include/Reflection/ReflectionBase.hpp:50 | n bytes read least significant first stay below 256^n |
| ReflectionBlobs.FromLEOfLE | Project/Engine/include/Reflection/ReflectionBase.hpp:50 | reading back the bytes of a value that fits gives the value |
| ReflectionBlobs.LEOfFromLE | Project/Engine/include/Reflection/ReflectionBase.hpp:50 | laying out a value read from bytes gives those bytes |
| ReflectionBlobs.FromLEAppend | Project/Engine/include/Reflection/ReflectionBase.hpp:50 | one more most significant byte adds that byte times 256^n |
| ReflectionBlobs.HostBytes | Project/Engine/include/Reflection/ReflectionBase.hpp:49 | a `uint64_t` occupies eight bytes of memory |
| ReflectionBlobs.HostValueBound | Project/Engine/include/Reflection/ReflectionBase.hpp:49 | eight bytes of memory hold a 64-bit value |
| ReflectionBlobs.HostRoundTrip | Project/Engine/include/Reflection/ReflectionBase.hpp:49 | storing a value and loading it gives the value, and loading memory and storing it gives the bytes |
| ReflectionBlobs.ToLittleEndianU64 | Project/Engine/include/Reflection/ReflectionBase.hpp:45-53 | the loop computes the value whose bytes are those of v in address order, read least significant first |
| ReflectionBlobs.FromLittleEndianU64 | Project/Engine/include/Reflection/ReflectionBase.hpp:55-62 | the same loop, so the same conversion |
| ReflectionBlobs.ConversionInvolutive | Project/Engine/include/Reflection/ReflectionBase.hpp:45-62 | the conversion keeps 64-bit values 64-bit, is the identity on a little-endian host, and undoes itself on either host |
| ReflectionBlobs.Encode | Project/Engine/include/Reflection/ReflectionBase.hpp:514 | the codec as a stand-in: one output character per byte |
| ReflectionBlobs.Decode | Project/Engine/include/Reflection/ReflectionBase.hpp:529 | the codec as a stand-in: one byte per character |
| ReflectionBlobs.DecodeEncode | Project/Engine/include/Reflection/ReflectionBase.hpp:514-529 | decoding undoes encoding |
| ReflectionBlobs.PersistedAsWritten | Project/Engine/include/Reflection/ReflectionBase.hpp:508-514 | as written, the persisted bytes are the raw eight-byte prefix, in host order, and the data it counts; `le_size` is computed and never used |
| ReflectionBlobs.StoredSizeIsLittleEndian | Project/Engine/include/Reflection/ReflectionBase.hpp:532-535 | the size read back is always the prefix read as little-endian, on any host |
| ReflectionBlobs.BlobReadAsWritten | Project/Engine/include/Reflection/ReflectionBase.hpp:520-545 | `null` empties the pointer, and a successful read holds at least the eight-byte prefix |
| ReflectionBlobs.LittleEndianRoundTripAsWritten | Project/Engine/include/Reflection/ReflectionBase.hpp:502-545 | on a little-endian host the block read back is the block written |
| ReflectionBlobs.BigEndianRoundTripFailsAsWritten | Project/Engine/include/Reflection/ReflectionBase.hpp:502-545 | on a big-endian host a one-byte block is refused with the length-mismatch error |
| ReflectionBlobs.MisreadSizeFails | Project/Engine/include/Reflection/ReflectionBase.hpp:530-537 | whenever the prefix read as little-endian is not the data size, reading back what was written fails with the length-mismatch error |
| ReflectionBlobs.BigEndianOne | Project/Engine/include/Reflection/ReflectionBase.hpp:49 | on a big-endian host 1 is stored as seven zero bytes and a one, and loads back as 1 |
| ReflectionBlobs.ZeroBytes | Project/Engine/include/Reflection/ReflectionBase.hpp:50 | zero is all zero bytes, and they read as zero |
| ReflectionBlobs.TopByteOne | Project/Engine/include/Reflection/ReflectionBase.hpp:50 | seven zero bytes and a one, read least significant first, are 2^56 |
| ReflectionBlobs.PersistedBlock | Project/Engine/include/Reflection/ReflectionBase.hpp:508-514 | first correction, to `Serialize`: the persisted bytes are the size's little-endian bytes (`le_size`) and then the data |
| ReflectionBlobs.BlobRead | Project/Engine/include/Reflection/ReflectionBase.hpp:520-545 | second correction, to `Deserialize`: the checks as written, but the block stored holds the size converted back to host order instead of the copied little-endian prefix of line 541; `null` empties the pointer, and every block read is well formed for the host |
| ReflectionBlobs.BlobRoundTrip | Project/Engine/include/Reflection/ReflectionBase.hpp:502-545 | with both corrections (`le_size` written, the prefix stored back in host order), the block read back is the block written, on either host |
| ReflectionBlobs.ReadPersisted | Project/Engine/include/Reflection/ReflectionBase.hpp:529-545 | with the corrected `Deserialize`, bytes whose little-endian prefix counts the rest read back as that count in host order followed by the rest (as written, line 541 would keep the little-endian prefix) |
| ReflectionPrimitives.PrimitiveNamed | Project/Engine/src/Reflection/ReflectionBase.cpp:111-116 | a name maps back to a primitive only if it is that primitive's name |
| ReflectionPrimitives.PrimitiveNamesDistinct | Project/Engine/src/Reflection/ReflectionBase.cpp:111-116 | each primitive's name leads back to it, so no two primitive descriptors register under one name |
| ReflectionPrimitives.PlainChars | Project/Engine/src/Reflection/ReflectionBase.cpp:78 | a name of plain characters is plain |
| ReflectionPrimitives.PrimitiveNamePlain | Project/Engine/src/Reflection/ReflectionBase.cpp:78 | every primitive name is written without escapes |
| ReflectionPrimitives.SerializeTextIsJson | Project/Engine/src/Reflection/ReflectionBase.cpp:83-86 | the text a primitive writes is the printed text of its envelope, with a string's data escaped by the escaper as written |
| ReflectionPrimitives.StringTextReadsBackIffAscii | Project/Engine/src/Reflection/ReflectionBase.cpp:152-178 | the string a JSON parser reads from a written `std::string` is the one written exactly when it is ASCII |
| ReflectionPrimitives.ReadAs | Project/Engine/src/Reflection/ReflectionBase.cpp:7-67 | a successful read gives a value of the C++ type's range |
| ReflectionPrimitives.Deserialize | Project/Engine/src/Reflection/ReflectionBase.cpp:88-94 | no `data` member gives the malformed-primitive error, a string descriptor also refuses non-string data, otherwise `ReadJsonAs` decides, and any result is in range |
| ReflectionPrimitives.RoundTrip | Project/Engine/src/Reflection/ReflectionBase.cpp:83-94 | the parsed JSON value of what `Serialize` writes reads back as the value written (the text in between is `SerializeText`; see `StringTextReadsBackIffAscii` and the double formatting under Left out) |
| ReflectionPrimitives.WideIntWraps | Project/Engine/src/Reflection/ReflectionBase.cpp:16 | an `int64_t` beyond the 32-bit range wraps when read as an `int` |
| ReflectionPrimitives.DoubleReadAsIntTruncates | Project/Engine/src/Reflection/ReflectionBase.cpp:17 | a double read as an `int` is truncated toward zero |
| ReflectionPrimitives.KindsDoNotMix | Project/Engine/src/Reflection/ReflectionBase.cpp:10-68 | a bool is not read as a number and a number is not read as a string |
| ReflectionRegistry.Registered | Project/Engine/src/Reflection/ReflectionBase.cpp:101 | the name is added when absent with the given descriptor, and otherwise nothing changes |
| ReflectionRegistry.FirstRegistrationWins | Project/Engine/src/Reflection/ReflectionBase.cpp:101 | a second registration under a name changes nothing, so the first wins |
| ReflectionRegistry.ResolvedKeys | Project/Engine/include/Reflection/ReflectionBase.hpp:334-346 | resolving a type adds exactly its names and never replaces an entry |
| ReflectionRegistry.ResolvedIdle | Project/Engine/include/Reflection/ReflectionBase.hpp:342 | once all of a type's names are registered, resolving it changes nothing |
| ReflectionRegistry.ResolvedTwice | Project/Engine/include/Reflection/ReflectionBase.hpp:334-346 | resolving twice is resolving once |
| ReflectionRegistry.NamesNoLonger | Project/Engine/include/Reflection/ReflectionBase.hpp:249 | the names a type registers are no longer than its own |
| ReflectionRegistry.ElementNamesDiffer | Project/Engine/include/Reflection/ReflectionBase.hpp:359-362 | resolving a container's element types never registers the container's own name |
| ReflectionRegistry.OwnEntry | Project/Engine/include/Reflection/ReflectionBase.hpp:425 | after resolving, a type's name is registered, to its own static unless an earlier entry holds it |
| ReflectionRegistry.ResolvedAllKeys | Project/Engine/include/Reflection/ReflectionBase.hpp:643-649 | resolving the members adds exactly their names and replaces nothing |
| ReflectionRegistry.Registry.constructor | Project/Engine/include/Reflection/ReflectionBase.hpp:76-81 | an empty lookup and no statics constructed |
| ReflectionRegistry.Registry.RegisterIfAbsent | Project/Engine/src/Reflection/ReflectionBase.cpp:101 | the lookup after the registration step; no static is constructed |
| ReflectionRegistry.Registry.GetPrimitiveDescriptor | Project/Engine/src/Reflection/ReflectionBase.cpp:96-103 | the same static on every call, registered under its name only if the name is absent |
| ReflectionRegistry.Registry.Resolve | Project/Engine/include/Reflection/ReflectionBase.hpp:334-346 | every static of the type is constructed and the lookup is the resolved one |
| ReflectionRegistry.Registry.ResolveElements | Project/Engine/include/Reflection/ReflectionBase.hpp:359-360 | a container's element types are resolved in the order of its member initialisers |
| ReflectionRegistry.Registry.RegisterStruct | Project/Engine/include/Reflection/ReflectionBase.hpp:634-655 | the members are resolved in declaration order, and then the struct's name is set to its descriptor, replacing any earlier entry; exactly the members' statics are constructed |
| GraphicsManagers.Drawn | Project/Engine/src/Graphics/GraphicsManager.cpp:75-92 | only items that pass the draw guard, at most one per queued item |
| GraphicsManagers.DrawnConcat | Project/Engine/src/Graphics/GraphicsManager.cpp:75-84 | what a queue draws is what its two halves draw, one after the other |
| GraphicsManagers.SplitAt | Project/Engine/src/Graphics/GraphicsManager.cpp:69-72 | a queue is its part before k, item k and its part after k, and dropping item k removes one copy of it |
| GraphicsManagers.DrawnWithout | Project/Engine/src/Graphics/GraphicsManager.cpp:75-84 | dropping one item drops exactly what it would draw |
| GraphicsManagers.DrawnPermutation | Project/Engine/src/Graphics/GraphicsManager.cpp:69-84 | which items are drawn does not depend on the queue's order, so the unstable sort draws the same items |
| GraphicsManagers.SameWithoutOne | Project/Engine/src/Graphics/GraphicsManager.cpp:69-72 | two permutations of one queue each less one equal item are still permutations |
| GraphicsManagers.Insert | Project/Engine/src/Graphics/GraphicsManager.cpp:69-72 | an insertion step adds exactly the item, and it goes first when its order is no higher than the front's |
| GraphicsManagers.InsertSorted | Project/Engine/src/Graphics/GraphicsManager.cpp:69-72 | inserting into a queue sorted by render order keeps it sorted |
| GraphicsManagers.GraphicsManager.constructor | Project/Engine/include/Graphics/GraphicsManager.hpp:48-49 | an empty queue and no camera |
| GraphicsManagers.GraphicsManager.Initialize | Project/Engine/src/Graphics/GraphicsManager.cpp:10-13 | always reports failure |
| GraphicsManagers.GraphicsManager.Shutdown | Project/Engine/src/Graphics/GraphicsManager.cpp:15-20 | the queue is empty and the camera is cleared |
| GraphicsManagers.GraphicsManager.BeginFrame | Project/Engine/src/Graphics/GraphicsManager.cpp:22-25 | the queue is empty and the camera is kept |
| GraphicsManagers.GraphicsManager.SetCamera | Project/Engine/src/Graphics/GraphicsManager.cpp:38-41 | the camera is the one given and the queue is kept |
| GraphicsManagers.GraphicsManager.Submit | Project/Engine/src/Graphics/GraphicsManager.cpp:43-49 | a present, visible item is appended and anything else is dropped; the camera is kept and a queue of visible items stays so |
| GraphicsManagers.GraphicsManager.SubmitModel | Project/Engine/src/Graphics/GraphicsManager.cpp:51-58 | with both a model and a shader a visible model item with the transform is appended, and otherwise nothing is |
| GraphicsManagers.GraphicsManager.Render | Project/Engine/src/Graphics/GraphicsManager.cpp:60-85 | without a camera nothing changes and nothing is drawn; with one the queue is sorted by render order, a permutation of itself, and the items passing the draw guard are drawn in that order, never more than the unsorted queue held |
| GraphicsManagers.GraphicsManager.SortByOrder | Project/Engine/src/Graphics/GraphicsManager.cpp:69-72 | the result is sorted by ascending render order and a permutation of the queue |
| GraphicsManagers.GraphicsManager.DrawAll | Project/Engine/src/Graphics/GraphicsManager.cpp:75-84 | the loop draws exactly the items that pass the guard, in queue order |
| ModelSystems.UpdateSubmitsEachOnce | Project/Engine/src/Graphics/Model/ModelSystem.cpp:15-34 | each entity whose model component is visible with a model and a shader is submitted exactly once, in ascending entity order, and no other entity is |
| ModelSystems.SubmittedItemsDrawn | Project/Engine/src/Graphics/Model/ModelSystem.cpp:25-31 | every item the system submits passes the graphics manager's visibility check and its draw guard |
| ModelSystems.ModelSystem.constructor | Project/Engine/src/Graphics/Model/ModelSystem.cpp:9-13 | a system with no entities |
| ModelSystems.ModelSystem.Initialise | Project/Engine/src/Graphics/Model/ModelSystem.cpp:9-13 | always reports success |
| ModelSystems.ModelSystem.Update | Project/Engine/src/Graphics/Model/ModelSystem.cpp:15-34 | the render queue grows by exactly the qualifying components' model items in entity order, and the camera is kept |
| ModelSystems.ModelSystem.SubmitIfDrawable | Project/Engine/src/Graphics/Model/ModelSystem.cpp:23-32 | one component adds its model item when it is visible with a model and a shader, and nothing otherwise |
| TextRenderingSystems.UpdateSubmitsEachOnce | Project/Engine/src/Graphics/TextRendering/TextRenderingSystem.cpp:13-32 | each entity whose text component is visible with non-empty text, a font and a shader is submitted once as a copy, in ascending entity order, and no other entity is |
| TextRenderingSystems.SubmittedTextNotDrawn | Project/Engine/src/Graphics/GraphicsManager.cpp:75-84 | a submitted text copy passes the visibility check and keeps its render order, but the drawing loop, which handles model items only, never draws it |
| TextRenderingSystems.TextRenderingSystem.constructor | Project/Engine/src/Graphics/TextRendering/TextRenderingSystem.cpp:7-11 | a system with no entities |
| TextRenderingSystems.TextRenderingSystem.Initialise | Project/Engine/src/Graphics/TextRendering/TextRenderingSystem.cpp:7-11 | always reports success |
| TextRenderingSystems.TextRenderingSystem.Update | Project/Engine/src/Graphics/TextRendering/TextRenderingSystem.cpp:13-32 | the render queue grows by exactly the qualifying components' copies in entity order, and the camera is kept |
| TextRenderingSystems.TextRenderingSystem.SubmitIfDrawable | Project/Engine/src/Graphics/TextRendering/TextRenderingSystem.cpp:21-30 | one component adds its copy when it is visible and valid, and nothing otherwise |
| TextUtils.SetText | Project/Engine/src/Graphics/TextRendering/TextUtils.cpp:5-8 | the text becomes the one given and every other field is unchanged |
| TextUtils.SetColor | Project/Engine/src/Graphics/TextRendering/TextUtils.cpp:10-13 | the colour becomes the one given and every other field is unchanged |
| TextUtils.SetColorRgb | Project/Engine/src/Graphics/TextRendering/TextUtils.cpp:15-18 | the three-component overload is the vector overload on those components |
| TextUtils.SetPosition | Project/Engine/src/Graphics/TextRendering/TextUtils.cpp:20-24 | the screen position is set, the component leaves 3D mode, and nothing else changes |
| TextUtils.SetPositionXyz | Project/Engine/src/Graphics/TextRendering/TextUtils.cpp:26-30 | the three-component overload is the vector overload on those components |
| TextUtils.SetScale | Project/Engine/src/Graphics/TextRendering/TextUtils.cpp:32-35 | the scale becomes the one given and every other field is unchanged |
| TextUtils.SetAlignment | Project/Engine/src/Graphics/TextRendering/TextUtils.cpp:37-40 | the alignment becomes the one given and every other field is unchanged |
| TextUtils.SetWorldTransform | Project/Engine/src/Graphics/TextRendering/TextUtils.cpp:42-46 | the transform is set, the component enters 3D mode, and nothing else changes |
| TextUtils.SetWorldPosition | Project/Engine/src/Graphics/TextRendering/TextUtils.cpp:48-52 | the transform becomes a translation whose translation column is the position, in 3D mode |
| TextUtils.SetWorldPositionXyz | Project/Engine/src/Graphics/TextRendering/TextUtils.cpp:54-57 | the three-component overload is the vector overload on those components |
| TextUtils.EstimatedWidth | Project/Engine/src/Graphics/TextRendering/TextUtils.cpp:59-66 | the font's width of the text at the component's scale, or 0 without a font |
| TextUtils.EstimatedHeight | Project/Engine/src/Graphics/TextRendering/TextUtils.cpp:68-74 | the font's line height at the component's scale, or 0 without a font |
| TextUtils.TextDimensions | Project/Engine/src/Graphics/TextRendering/TextUtils.cpp:115-118 | the pair of the width and height estimates, (0, 0) without a font |
| TextUtils.CenterOnScreen | Project/Engine/src/Graphics/TextRendering/TextUtils.cpp:81-88 | the position is the screen centre at depth 0, centred, in screen mode, and nothing else changes |
| TextUtils.AnchorAlignment | Project/Engine/src/Graphics/TextRendering/TextUtils.cpp:100-112 | left exactly below 0.33, right exactly above 0.66, centre exactly in between with both bounds |
| TextUtils.SetScreenAnchor | Project/Engine/src/Graphics/TextRendering/TextUtils.cpp:90-113 | the position is the anchor scaled by the screen size at depth 0, with the anchor's alignment, in screen mode, and nothing else changes |
| TextUtils.AnchorAlignmentMonotone | Project/Engine/src/Graphics/TextRendering/TextUtils.cpp:100-112 | moving the anchor right never moves the alignment left |
| TextUtils.CenterIsMiddleAnchor | Project/Engine/src/Graphics/TextRendering/TextUtils.cpp:81-113 | centring on the screen is anchoring at (0.5, 0.5) |
| TextUtils.LastPlacementDecidesMode | Project/Engine/src/Graphics/TextRendering/TextUtils.cpp:20-52 | the last of a screen and a world placement decides 3D mode, and the other placement's data is kept |
| TextUtils.ValidityOfSetters | Project/Engine/src/Graphics/TextRendering/TextUtils.cpp:76-79 | a new component is valid exactly with text, a font and a shader; clearing the text invalidates; the colour, position, scale, alignment and world-position setters keep validity |
| Lights.ColoredPointLight | Project/Engine/src/Graphics/LightManager.cpp:24-36 | the position, a twentieth of the colour as ambient, the colour times the intensity as diffuse, the colour as specular, and attenuation 1, 0.09 and 0.032 |
| Lights.ColoredDirectional | Project/Engine/src/Graphics/LightManager.cpp:19-22 | the direction with a fifth of the colour as ambient and the colour as diffuse and specular |
| Lights.ConeSpot | Project/Engine/src/Graphics/LightManager.cpp:60-72 | the position, the normalised direction, no ambient, the colour as diffuse and specular, the standard attenuation, and the cosines of the two cone angles in degrees as cut-offs |
| Lights.Removed | Project/Engine/src/Graphics/LightManager.cpp:43-53 | an index in range removes exactly that light and keeps the others in order; an index out of range keeps the list |
| Lights.RemoveUndoesAdd | Project/Engine/src/Graphics/LightManager.cpp:38-53 | removing the light just added restores the old list |
| Lights.RemovedKeepsOthers | Project/Engine/src/Graphics/LightManager.cpp:43-48 | removing a light loses exactly one copy of that light and nothing else |
| Lights.LightManager.constructor | Project/Engine/include/Graphics/LightManager.hpp:5-32 | the default directional light, no point lights, the default spotlight, enabled |
| Lights.LightManager.SetDirectionalLight | Project/Engine/src/Graphics/LightManager.cpp:11-17 | the directional light has the four given parts and the other lights are kept |
| Lights.LightManager.SetDirectionalLightColor | Project/Engine/src/Graphics/LightManager.cpp:19-22 | the directional light is the colour form of the given colour and the other lights are kept |
| Lights.LightManager.AddPointLightColor | Project/Engine/src/Graphics/LightManager.cpp:24-36 | the coloured point light is appended and the other lights are kept |
| Lights.LightManager.AddPointLightDefault | Project/Engine/include/Graphics/LightManager.hpp:42 | the colour overload with its default intensity 1: the appended light's diffuse is the colour itself |
| Lights.LightManager.AddPointLight | Project/Engine/src/Graphics/LightManager.cpp:38-41 | the given point light is appended and the other lights are kept |
| Lights.LightManager.RemovePointLight | Project/Engine/src/Graphics/LightManager.cpp:43-53 | the point lights lose the light at an index in range and are kept otherwise; the other lights are kept |
| Lights.LightManager.ClearPointLights | Project/Engine/src/Graphics/LightManager.cpp:55-58 | no point lights remain and the other lights are kept |
| Lights.LightManager.SetSpotLightCone | Project/Engine/src/Graphics/LightManager.cpp:60-72 | the spotlight is the cone spotlight of the arguments; the enabled flag and the other lights are kept |
| Lights.LightManager.SetSpotLightDefaultCone | Project/Engine/include/Graphics/LightManager.hpp:47 | the five-argument form with its default cones: cut-offs are the cosines of 12.5 and 15 degrees |
| Lights.LightManager.SetSpotLight | Project/Engine/src/Graphics/LightManager.cpp:74-77 | the spotlight is replaced wholesale and everything else is kept |
| Lights.LightManager.EnableSpotLight | Project/Engine/include/Graphics/LightManager.hpp:49 | the enabled flag is the one given and every light is kept |
| Lights.LightManager.PointLightCount | Project/Engine/include/Graphics/LightManager.hpp:57 | the number of point lights |
| Lights.LightManager.ClearAllLights | Project/Engine/src/Graphics/LightManager.cpp:79-89 | the state the constructor makes: default directional light and spotlight, no point lights, spotlight enabled |
| Materials.Clamp | Project/Engine/src/Graphics/Material.cpp:30-53 | the value inside the range, the lower bound below it and the upper bound above it |
| Materials.ClampIdempotent | Project/Engine/src/Graphics/Material.cpp:30-53 | clamping twice is clamping once |
| Materials.TextureTypeToString | Project/Engine/src/Graphics/Material.cpp:199-213 | every texture type's uniform suffix ends in `Map` (its inverse and distinctness are `TextureTypeNamed` and `TextureTypeNamesDistinct`) |
| Materials.TextureTypeNamed | Project/Engine/src/Graphics/Material.cpp:199-213 | the inverse of the uniform-suffix naming: a name it accepts is the name of the type it returns |
| Materials.TextureTypeNamesDistinct | Project/Engine/src/Graphics/Material.cpp:199-213 | every type's suffix leads back to it, so distinct types have distinct suffixes |
| Materials.BindingsLength | Project/Engine/src/Graphics/Material.cpp:137-149 | when the units suffice, every entry is bound, with one bind and one sampler uniform each |
| Materials.BindingAt | Project/Engine/src/Graphics/Material.cpp:137-149 | the i-th entry of the loop's order is bound to unit i and its sampler is set to i |
| Materials.BindingsFirst | Project/Engine/src/Graphics/Material.cpp:137-149 | the loop binds its first entry to the current unit and then continues with the next unit |
| Materials.PairAfterPair | Project/Engine/src/Graphics/Material.cpp:137-149 | after one entry's pair of effects, the later pairs are where they were in the remaining effects |
| Materials.BindingsBelowLimit | Project/Engine/src/Graphics/Material.cpp:139 | no bind effect and no sampler uniform ever uses a unit of 16 or more |
| Materials.DistinctTypesAtMostEight | Project/Engine/src/Graphics/Material.cpp:137 | a table of texture types has at most eight entries, so it never runs out of the 16 units |
| Materials.Material.constructor | Project/Engine/include/Graphics/Material.hpp:61-71 | the given name, the header's default colours and scalars, and no textures |
| Materials.Material.SetShininess | Project/Engine/src/Graphics/Material.cpp:30-33 | the shininess is the value clamped to 1..256, everything else is kept, and the scalar ranges stay valid |
| Materials.Material.SetOpacity | Project/Engine/src/Graphics/Material.cpp:35-38 | the opacity is the value clamped to 0..1, everything else is kept, and the scalar ranges stay valid |
| Materials.Material.SetMetallic | Project/Engine/src/Graphics/Material.cpp:40-43 | the metallic value is clamped to 0..1, everything else is kept, and the scalar ranges stay valid |
| Materials.Material.SetRoughness | Project/Engine/src/Graphics/Material.cpp:45-48 | the roughness is clamped to 0..1, everything else is kept, and the scalar ranges stay valid |
| Materials.Material.SetAO | Project/Engine/src/Graphics/Material.cpp:50-53 | the ambient occlusion is clamped to 0..1, everything else is kept, and the scalar ranges stay valid |
| Materials.Material.SetColors | Project/Engine/src/Graphics/Material.cpp:10-28 | the four colours are stored as given and the scalars, name and textures are kept |
| Materials.Material.SetTexture | Project/Engine/src/Graphics/Material.cpp:55-61 | a null entry leaves the table alone; otherwise that type's entry is stored or replaced, `HasTexture` then holds, and the other types are kept; the name, scalars and colours are kept |
| Materials.Material.GetTextureInfo | Project/Engine/src/Graphics/Material.cpp:64-73 | empty exactly when the type has no texture, and otherwise the stored entry |
| Materials.Material.HasTexture | Project/Engine/src/Graphics/Material.cpp:80-83 | holds exactly when `GetTextureInfo` finds an entry |
| Materials.Material.RemoveTexture | Project/Engine/src/Graphics/Material.cpp:85-88 | the type's entry is gone, the other entries are kept, and an absent type is a no-op; the name, scalars and colours are kept |
| Materials.Material.SetName | Project/Engine/src/Graphics/Material.cpp:90-93 | the name is the one given; the textures, scalars and colours are kept |
| Materials.Material.BindTextures | Project/Engine/src/Graphics/Material.cpp:119-150 | the four availability flags, then one bind and sampler uniform per texture entry in the table's iteration order |
| Materials.Material.BindLoop | Project/Engine/src/Graphics/Material.cpp:136-149 | the loop with its unit counter produces exactly the bindings of the iteration order from unit 0 |
| Materials.Material.AvailabilityFlags | Project/Engine/src/Graphics/Material.cpp:125-129 | four flags, for the diffuse, specular, normal and emissive maps |
| Materials.Material.ApplyToShader | Project/Engine/src/Graphics/Material.cpp:100-117 | the four colours, shininess and opacity uniforms in that order, without the PBR values, then the texture binding |
| Materials.AllTexturesBound | Project/Engine/src/Graphics/Material.cpp:119-150 | every texture entry is bound to its own unit, its position in the iteration order, and a table never needs more than 8 units |
| Materials.CreateDefault | Project/Engine/src/Graphics/Material.cpp:152-160 | a new material named DefaultMaterial with the default colours, shininess 32 and no textures |
| Materials.CreateMetal | Project/Engine/src/Graphics/Material.cpp:162-172 | a new MetalMaterial with the colour scaled by 0.1 and 0.3, white specular, shininess 128, fully metallic with roughness 0.1 |
| Materials.CreatePlastic | Project/Engine/src/Graphics/Material.cpp:174-184 | a new PlasticMaterial with the colour scaled by 0.2 as ambient, the colour as diffuse, grey specular, shininess 32, non-metallic with roughness 0.5 |
| Materials.CreateWood | Project/Engine/src/Graphics/Material.cpp:186-197 | a new WoodMaterial of the wood colour, shininess 8, non-metallic with roughness 0.8 |
| TextureManagers.LastIndexOf | Project/Engine/src/Graphics/TextureManager.cpp:95 | none exactly when the character is absent; otherwise an index holding it with no later occurrence |
| TextureManagers.Extension | Project/Engine/src/Graphics/TextureManager.cpp:95 | fails exactly when the path has no dot; otherwise the path's suffix that starts at its last dot and holds no other dot |
| TextureManagers.NoneAfter | Project/Engine/src/Graphics/TextureManager.cpp:95 | past the last occurrence the character does not occur |
| TextureManagers.SuffixExtension | Project/Engine/src/Graphics/TextureManager.cpp:95 | the extension of a stem, a dot and a dot-free suffix is the dot and that suffix |
| TextureManagers.FormatFromExtension | Project/Engine/src/Graphics/TextureManager.cpp:93-114 | fails exactly when the path has no dot; RGBA exactly for the extensions .png and .PNG, and RGB for every other one |
| TextureManagers.PngSuffixIsRgba | Project/Engine/src/Graphics/TextureManager.cpp:97-100 | any path ending in .png is RGBA |
| TextureManagers.LastDotDecides | Project/Engine/src/Graphics/TextureManager.cpp:95-113 | only the last dot counts and the check is case-sensitive: .png.jpg is RGB, .PNG is RGBA and .Png is RGB |
| TextureManagers.JpgAfterPng | Project/Engine/src/Graphics/TextureManager.cpp:95-104 | a path ending in .png.jpg is RGB |
| TextureManagers.UpperPng | Project/Engine/src/Graphics/TextureManager.cpp:97-100 | a path ending in .PNG is RGBA |
| TextureManagers.MixedCasePng | Project/Engine/src/Graphics/TextureManager.cpp:109-113 | a path ending in .Png falls to the default and is RGB |
| TextureManagers.SuffixFormat | Project/Engine/src/Graphics/TextureManager.cpp:93-114 | for a dot-free suffix the format is RGBA exactly when the suffix is png or PNG |
| TextureManagers.Loaded | Project/Engine/src/Graphics/TextureManager.cpp:13-38 | a cached path returns its texture unchanged; a missing file returns null; a new file without a dot throws; otherwise a new texture with no unit and the file's format is cached and returned |
| TextureManagers.LoadedIsCached | Project/Engine/src/Graphics/TextureManager.cpp:13-38 | a returned texture is the one cached under its path, only that path is added, and every old entry is kept |
| TextureManagers.LoadTwice | Project/Engine/src/Graphics/TextureManager.cpp:15-19 | loading a path a second time returns the same texture and changes nothing, whatever the second call's arguments |
| TextureManagers.TextureManager.constructor | Project/Engine/include/Graphics/TextureManager.h:32 | an empty cache |
| TextureManagers.TextureManager.LoadTexture | Project/Engine/src/Graphics/TextureManager.cpp:13-38 | the result and the new cache are those of the load function |
| TextureManagers.TextureManager.GetTexture | Project/Engine/src/Graphics/TextureManager.cpp:40-49 | present exactly for a cached path, and then the cached texture |
| TextureManagers.TextureManager.IsLoaded | Project/Engine/src/Graphics/TextureManager.cpp:51-54 | holds exactly when `getTexture` finds the path in the cache |
| TextureManagers.TextureManager.UnloadTexture | Project/Engine/src/Graphics/TextureManager.cpp:56-64 | only that path leaves the cache; an unknown path changes nothing |
| TextureManagers.TextureManager.ClearCache | Project/Engine/src/Graphics/TextureManager.cpp:66-70 | the cache is empty |
| TextureManagers.TextureManager.GetCacheSize | Project/Engine/src/Graphics/TextureManager.cpp:72-75 | the number of cached paths |
| TextureManagers.LoadThenUnload | Project/Engine/src/Graphics/TextureManager.cpp:13-64 | loading a new file grows the cache by one, and unloading it restores the old cache |
| AudioManagers.AudioManager.constructor | Project/Engine/src/Sound/AudioManager.cpp:6-8 | no system, no sounds and no channels |
| AudioManagers.AudioManager.Initialize | Project/Engine/src/Sound/AudioManager.cpp:15-35 | succeeds exactly when the system is created and initialised; a created system is kept even when its initialisation fails; sounds and channels are kept |
| AudioManagers.AudioManager.Shutdown | Project/Engine/src/Sound/AudioManager.cpp:37-51 | with a system everything is stopped and unloaded and the system dropped; without one nothing changes |
| AudioManagers.AudioManager.LoadSound | Project/Engine/src/Sound/AudioManager.cpp:61-106 | fails without a system; an already loaded name succeeds with nothing changed; otherwise succeeds exactly when the file exists and the sound is created, and then records it under the name with its path and looping mode; every channel still belongs to a loaded sound |
| AudioManagers.AudioManager.UnloadSound | Project/Engine/src/Sound/AudioManager.cpp:108-122 | a loaded name loses its sound and its channel; an unknown name changes nothing; every channel still belongs to a loaded sound |
| AudioManagers.AudioManager.UnloadAllSounds | Project/Engine/src/Sound/AudioManager.cpp:124-132 | no sound remains while the channels are left, so the channel invariant holds again only when no channel was recorded |
| AudioManagers.AudioManager.PlaySound | Project/Engine/src/Sound/AudioManager.cpp:134-166 | succeeds exactly with a system, a loaded name and a started channel, and then records that channel with the volume and pitch, unpaused, replacing any earlier one; otherwise nothing changes |
| AudioManagers.AudioManager.StopSound | Project/Engine/src/Sound/AudioManager.cpp:168-181 | only that name's channel goes |
| AudioManagers.AudioManager.StopAllSounds | Project/Engine/src/Sound/AudioManager.cpp:183-191 | no channel remains and the sounds are kept |
| AudioManagers.AudioManager.PauseSound | Project/Engine/src/Sound/AudioManager.cpp:193-205 | only that name's channel, if any, gets the paused flag |
| AudioManagers.AudioManager.PauseAllSounds | Project/Engine/src/Sound/AudioManager.cpp:207-214 | every recorded channel gets the paused flag and no channel is added or dropped |
| AudioManagers.AudioManager.SetSoundVolume | Project/Engine/src/Sound/AudioManager.cpp:235-247 | only that name's channel, if any, gets the volume |
| AudioManagers.AudioManager.SetSoundPitch | Project/Engine/src/Sound/AudioManager.cpp:249-261 | only that name's channel, if any, gets the pitch |
| AudioManagers.AudioManager.IsSoundPlaying | Project/Engine/src/Sound/AudioManager.cpp:269-279 | true exactly when the name has a recorded channel that FMOD reports as playing |
| AudioManagers.AudioManager.GetLoadedSounds | Project/Engine/src/Sound/AudioManager.cpp:281-289 | every loaded name exactly once, in an unspecified order, so a name is listed exactly when `isSoundLoaded` holds for it |
| AudioManagers.AudioManager.IsSoundLoaded | Project/Engine/src/Sound/AudioManager.cpp:264-267 | a name that is not loaded has no recorded channel while every channel belongs to a loaded sound; `GetLoadedSounds` lists exactly the names it holds for |
| DebugDrawSystems.CubeEdges | Project/Engine/src/Graphics/DebugDraw/DebugDrawSystem.cpp:67-85 | eight corners and twenty-four indices, all in range, forming twelve line pairs that are each an edge of the cube |
| DebugDrawSystems.CubeCorners | Project/Engine/src/Graphics/DebugDraw/DebugDrawSystem.cpp:78-85 | every corner of the cube ends one of its lines |
| DebugDrawSystems.CubeGeometry | Project/Engine/src/Graphics/DebugDraw/DebugDrawSystem.cpp:67-99 | the cube's vertex array, its corners and line indices, and an index count of 24 |
| DebugDrawSystems.CellOkExtended | Project/Engine/src/Graphics/DebugDraw/DebugDrawSystem.cpp:126-143 | indices already in place stay in place as the list grows |
| DebugDrawSystems.CellOf | Project/Engine/src/Graphics/DebugDraw/DebugDrawSystem.cpp:126-143 | every position of the index list belongs to exactly the cell the loops were at when they pushed it |
| DebugDrawSystems.SphereIsWireframe | Project/Engine/src/Graphics/DebugDraw/DebugDrawSystem.cpp:126-143 | every line pair of the sphere joins neighbouring vertices of one ring or of two adjacent rings, and every index names a vertex of the grid |
| DebugDrawSystems.SphereVertices | Project/Engine/src/Graphics/DebugDraw/DebugDrawSystem.cpp:110-123 | the vertices are the grid of ring and segment points at half-unit radius, ring by ring |
| DebugDrawSystems.SphereIndexList | Project/Engine/src/Graphics/DebugDraw/DebugDrawSystem.cpp:126-143 | every cell's horizontal line, and its vertical line except on the last ring, in loop order |
| DebugDrawSystems.LineGeometry | Project/Engine/src/Graphics/DebugDraw/DebugDrawSystem.cpp:158-175 | the unit segment along x, with no element buffer and the fixed index count 2 |
| DebugDrawSystems.Prepared | Project/Engine/src/Graphics/DebugDraw/DebugDrawSystem.cpp:35-44 | only a component with no cube vertex array takes the system's shader, vertex arrays and index counts; visibility, render order and commands are kept |
| DebugDrawSystems.PreparedIdempotent | Project/Engine/src/Graphics/DebugDraw/DebugDrawSystem.cpp:35-44 | setting up twice is setting up once |
| DebugDrawSystems.PreparedAll | Project/Engine/src/Graphics/DebugDraw/DebugDrawSystem.cpp:26-49 | the storage keeps its entities |
| DebugDrawSystems.AgedCommand | Project/Engine/src/Graphics/DebugDraw/DebugDrawSystem.cpp:191-197 | a timed command loses the step and is dropped exactly when that leaves it at or below 0; a permanent command is kept as it is |
| DebugDrawSystems.Aged | Project/Engine/src/Graphics/DebugDraw/DebugDrawSystem.cpp:189-199 | never more commands than before |
| DebugDrawSystems.Permanent | Project/Engine/src/Graphics/DebugDraw/DebugDrawSystem.cpp:192-196 | only the commands of non-positive duration |
| DebugDrawSystems.AgedKeepsPermanent | Project/Engine/src/Graphics/DebugDraw/DebugDrawSystem.cpp:189-199 | aging keeps every permanent command, in order, and turns no timed command into a permanent one |
| DebugDrawSystems.PermanentConcat | Project/Engine/src/Graphics/DebugDraw/DebugDrawSystem.cpp:192-196 | the permanent commands of two lists are those of each, one after the other |
| DebugDrawSystems.AgedPastEveryTimer | Project/Engine/src/Graphics/DebugDraw/DebugDrawSystem.cpp:189-199 | a step at least as long as every timed command leaves only the permanent ones |
| DebugDrawSystems.AgedTimedSurvives | Project/Engine/src/Graphics/DebugDraw/DebugDrawSystem.cpp:192-194 | a timed command with more than the step left survives, shorter by the step |
| DebugDrawSystems.AgedContents | Project/Engine/src/Graphics/DebugDraw/DebugDrawSystem.cpp:189-199 | the survivors are exactly the aged forms of the commands that are not dropped |
| DebugDrawSystems.AgedComponent | Project/Engine/src/Graphics/DebugDraw/DebugDrawSystem.cpp:186-199 | only the commands of the component change, to their aged list |
| DebugDrawSystems.AgedAll | Project/Engine/src/Graphics/DebugDraw/DebugDrawSystem.cpp:181-201 | the components of the system's entities are aged and every other component is kept |
| DebugDrawSystems.PreparedAllAt | Project/Engine/src/Graphics/DebugDraw/DebugDrawSystem.cpp:26-49 | a visited entity's component is set up, every other one is kept, and set-up does not change whether it is visited |
| DebugDrawSystems.PreparedAlong | Project/Engine/src/Graphics/DebugDraw/DebugDrawSystem.cpp:26-49 | walking entities keeps the storage's entities |
| DebugDrawSystems.PreparedAlongAt | Project/Engine/src/Graphics/DebugDraw/DebugDrawSystem.cpp:26-49 | walking sets up a visited entity's component once however often it is walked |
| DebugDrawSystems.PreparedAlongIsPreparedAll | Project/Engine/src/Graphics/DebugDraw/DebugDrawSystem.cpp:26-49 | walking the entity set in any order gives the same storage |
| DebugDrawSystems.PreparedAlongStep | Project/Engine/src/Graphics/DebugDraw/DebugDrawSystem.cpp:26-49 | one more entity walked sets up its component if it is visited |
| DebugDrawSystems.UpdateSubmitsEachOnce | Project/Engine/src/Graphics/DebugDraw/DebugDrawSystem.cpp:26-49 | each entity whose component is visible with commands is submitted once, as its set-up copy, in ascending entity order; no other entity is; the copies pass the visibility check but are never drawn |
| DebugDrawSystems.SubmitsEachOnceFrom | Project/Engine/src/Graphics/DebugDraw/DebugDrawSystem.cpp:26-49 | the same holds for any storage that agrees with the set-up components on the walked entities |
| DebugDrawSystems.PreparedKeepsVisited | Project/Engine/src/Graphics/DebugDraw/DebugDrawSystem.cpp:30-44 | set-up changes neither the visibility nor the commands the loop checks |
| DebugDrawSystems.DebugDrawSystem.constructor | Project/Engine/include/Graphics/DebugDraw/DebugDrawSystem.hpp:35-47 | no entities, no shader and no geometry yet |
| DebugDrawSystems.DebugDrawSystem.Initialise | Project/Engine/src/Graphics/DebugDraw/DebugDrawSystem.cpp:9-18 | always succeeds, with the debug shader and all three geometries created; the entities are kept |
| DebugDrawSystems.DebugDrawSystem.CreatePrimitiveGeometry | Project/Engine/src/Graphics/DebugDraw/DebugDrawSystem.cpp:60-65 | the cube, sphere and line geometries are created and the shader and entities are kept |
| DebugDrawSystems.DebugDrawSystem.CreateCubeGeometry | Project/Engine/src/Graphics/DebugDraw/DebugDrawSystem.cpp:67-99 | only the cube geometry changes, to the cube |
| DebugDrawSystems.DebugDrawSystem.CreateSphereGeometry | Project/Engine/src/Graphics/DebugDraw/DebugDrawSystem.cpp:101-156 | only the sphere geometry changes: its grid vertices, its wireframe indices and an index count of 480 |
| DebugDrawSystems.DebugDrawSystem.CreateLineGeometry | Project/Engine/src/Graphics/DebugDraw/DebugDrawSystem.cpp:158-175 | only the line geometry changes, to the unit segment |
| DebugDrawSystems.DebugDrawSystem.Update | Project/Engine/src/Graphics/DebugDraw/DebugDrawSystem.cpp:20-53 | the queue grows by the set-up copies of the visited components in entity order, and the storage afterwards is every set-up component aged by one fixed frame |
| DebugDrawSystems.DebugDrawSystem.SubmitVisited | Project/Engine/src/Graphics/DebugDraw/DebugDrawSystem.cpp:26-49 | the loop submits exactly the visited components' set-up copies and leaves the set-up storage |
| DebugDrawSystems.DebugDrawSystem.VisitLeast | Project/Engine/src/Graphics/DebugDraw/DebugDrawSystem.cpp:26-49 | one iteration visits the least entity not yet visited and keeps the loop's invariant |
| DebugDrawSystems.DebugDrawSystem.Visit | Project/Engine/src/Graphics/DebugDraw/DebugDrawSystem.cpp:28-48 | a visited component is set up in the storage and its copy appended; any other changes nothing |
| DebugDrawSystems.DebugDrawSystem.UpdateTimedCommands | Project/Engine/src/Graphics/DebugDraw/DebugDrawSystem.cpp:181-201 | every component of the system's entities is aged by the step and every other is kept |
| DebugDrawSystems.VisitStep | Project/Engine/src/Graphics/DebugDraw/DebugDrawSystem.cpp:26-49 | one iteration of the loop keeps its invariant and shrinks what remains |
| DebugDrawSystems.WalkedAll | Project/Engine/src/Graphics/DebugDraw/DebugDrawSystem.cpp:26-49 | once no entity remains, the queue and storage are what the loop promises |
| DebugDrawSystems.AgedAllStep | Project/Engine/src/Graphics/DebugDraw/DebugDrawSystem.cpp:185-200 | aging one more entity's component extends the aged storage by that entity |
| Raycast.RayAABBIntersection | Project/Editor/src/RaycastUtil.cpp:42-61 | a miss exactly when the entering parameter exceeds the leaving one or the box is behind the ray; a hit is a non-negative distance, the entering parameter or, from inside, the leaving one |
| Raycast.ProductSign | Project/Editor/src/RaycastUtil.cpp:43-45 | multiplying by a non-zero factor keeps or flips a sign with the factor's sign |
| Raycast.CrossingOffset | Project/Editor/src/RaycastUtil.cpp:43-45 | how far a coordinate is past a bound at a parameter, in terms of the crossing parameter |
| Raycast.SlabInterval | Project/Editor/src/RaycastUtil.cpp:43-48 | on one axis a moving coordinate is within the slab exactly between the two crossing parameters |
| Raycast.BetweenAll | Project/Editor/src/RaycastUtil.cpp:50-51 | being inside three intervals is being between the largest lower and smallest upper bound |
| Raycast.InBoxCoordinates | Project/Editor/src/RaycastUtil.cpp:44-51 | a ray point is in the box exactly when it is in all three slabs |
| Raycast.InBoxBetween | Project/Editor/src/RaycastUtil.cpp:42-61 | a ray point is in a proper box exactly when its parameter lies between the entering and leaving parameters |
| Raycast.IntersectionIsContact | Project/Editor/src/RaycastUtil.cpp:42-61 | a hit is reported exactly when some point of the ray ahead of the origin is in the box; the reported point is in the box; from outside it is the nearest such point, from inside the farthest |
| Raycast.CreateAABBFromTransform | Project/Editor/src/RaycastUtil.cpp:63-78 | the box is centred on the transform's translation with extent the model size times the columns' lengths |
| Raycast.BoxHoldsPosition | Project/Editor/src/RaycastUtil.cpp:63-78 | with a non-negative size the box is proper and holds the entity's position |
| Raycast.EntityHit | Project/Editor/src/RaycastUtil.cpp:96-115 | an entity without a transform is never hit, and a hit distance is non-negative |
| Raycast.HitsOf | Project/Editor/src/RaycastUtil.cpp:94-123 | the hit of every entity of one world and ray |
| Raycast.ScanFindsClosest | Project/Editor/src/RaycastUtil.cpp:80-137 | a hit exactly when some scanned entity is hit; no hit is the default result; a hit is the nearest, the lowest ID among equally near ones, with its point on the ray |
| Raycast.RaycastScene | Project/Editor/src/RaycastUtil.cpp:80-137 | the result of scanning the IDs 0 to 50 of the active world's transforms |
| Raycast.ToColumnMajor | Project/Editor/src/RaycastUtil.cpp:149-154 | entry 4c+r of the array is row r, column c of the matrix |
| Raycast.FromColumnMajor | Project/Editor/src/RaycastUtil.cpp:175-181 | row r, column c of the matrix is entry 4c+r of the array |
| Raycast.LayoutRoundTrip | Project/Editor/src/RaycastUtil.cpp:149-181 | the two layouts are inverse to each other |
| Raycast.GetEntityTransform | Project/Editor/src/RaycastUtil.cpp:139-163 | succeeds exactly when the entity has a transform, and then writes its matrix in column-major order; otherwise the array is untouched |
| Raycast.SetEntityTransform | Project/Editor/src/RaycastUtil.cpp:165-208 | fails exactly without a transform; otherwise the matrix is the array read column-major; position, scale and their last-frame values receive the matrix translation's and column lengths' x and y through `operator=` and each keeps its own z; the rotation and its last value are kept |
| Raycast.SetThenGet | Project/Editor/src/RaycastUtil.cpp:139-208 | reading back a set transform gives the array written, and the next transform frame rebuilds the matrix exactly when the rotation was out of step or the old position or scale had a z other than its last value's |
| Raycast.SetEntityTransformCorrected | Project/Editor/src/RaycastUtil.cpp:165-208 | with a three-component assignment, position and scale are the matrix's own, their last values match them, and the next frame rebuilds the matrix exactly when the rotation was out of step |
| ComponentManagers.ComponentManager.ArrayEntityDestroyed | Project/Engine/src/ECS/ComponentManager.hpp:65-68 | one step of the loop: that type's array loses the entity and every other array keeps its contents |
| ComponentManagers.ComponentManager.ArrayAllEntitiesDestroyed | Project/Engine/src/ECS/ComponentManager.hpp:72-75 | one step of the loop: that type's array is emptied and every other array keeps its contents |
| ComponentManagers.ComponentManager.OthersUntouched | Project/Engine/src/ECS/ComponentManager.hpp:64-76 | a change to one array leaves the manager valid and the other arrays' contents as they were |
| ComponentManagers.ComponentManager.RegisteredKeepsOthers | Project/Engine/src/ECS/ComponentManager.hpp:29-35 | registering a fresh empty array under a new name keeps the manager valid and the other arrays' contents |
| EcsTypes.Range | Project/Engine/src/ECS/EntityManager.cpp:6-7 | the IDs 0 to n-1, in order |
| EcsTypes.InverseMapsSameSize | Project/Engine/src/ECS/ComponentArray.hpp:28-35 | an entity-to-index map and its inverse have the same number of entries |
| EcsTypes.Least | Project/Engine/include/ECS/System.hpp:8 | the smallest entity of a non-empty set, which a set iteration visits first |
| EcsTypes.Ascending | Project/Engine/include/ECS/System.hpp:8 | a listing of the entity set with one entry per member |
| EcsTypes.AscendingMembers | Project/Engine/include/ECS/System.hpp:8 | the listing holds exactly the set's members |
| EcsTypes.AscendingSorted | Project/Engine/include/ECS/System.hpp:8 | the listing is strictly ascending, so no entity is visited twice |
| EcsTypes.AscendingStep | Project/Engine/include/ECS/System.hpp:8 | the listing is the least entity followed by the listing of the rest |
| SystemIteration.Qualifying | Project/Engine/src/Graphics/Model/ModelSystem.cpp:21-33 | the walked entities whose component passes the system's check, no more of them than were walked |
| SystemIteration.Submitted | Project/Engine/src/Graphics/Model/ModelSystem.cpp:21-33 | one item per qualifying entity, built from its component, in walk order |
| SystemIteration.QualifyingMembers | Project/Engine/src/Graphics/Model/ModelSystem.cpp:21-33 | an entity is listed exactly when it was walked and its component qualifies |
| SystemIteration.QualifyingAscending | Project/Engine/src/Graphics/Model/ModelSystem.cpp:21-33 | filtering an ascending walk keeps it ascending, so no entity is listed twice |
| SystemIteration.EachQualifyingOnce | Project/Engine/src/Graphics/Model/ModelSystem.cpp:21-33 | walking a system's set submits each qualifying entity exactly once, in ascending order, and no other |
| SystemIteration.SubmittedStep | Project/Engine/src/Graphics/Model/ModelSystem.cpp:21-33 | one more entity walked adds its item exactly when its component qualifies |
| SystemIteration.UpdateLoopStep | Project/Engine/src/Graphics/Model/ModelSystem.cpp:21-33 | one iteration of an update loop advances the walk by the least remaining entity and the queue by that entity's item |
| Glm.Splat | Project/Engine/src/Graphics/LightManager.cpp:64 | every component is the scalar |
| Glm.Scale | Project/Engine/src/Graphics/LightManager.cpp:21 | every component is multiplied by the scalar |
| Glm.Identity | Project/Engine/src/Graphics/TextRendering/TextUtils.cpp:50 | ones on the diagonal and zeros elsewhere |
| Glm.Translation | Project/Engine/src/Graphics/TextRendering/TextUtils.cpp:50 | the identity with the vector in the translation column |
| RenderComponents.NewTextRenderComponent | Project/Engine/include/Graphics/TextRendering/TextRenderComponent.hpp:13-34 | the given text, font and shader, visible, drawn at order 1000, and every other field at its default |

## Left out

- Console and file output (`std::cout`, the spdlog sinks, `printLightStats`, `printCacheStats`, `DebugPrintProperties`): these write text and keep no state.
- ReflectionPrimitives.RoundTrip: stated on the parsed JSON value, not on the text. The text of a double is a parameter (`operator<<` at its default precision of six significant digits), so a persisted double can lose digits: 0.1234567 is written as 0.123457 and reads back as that.
- ReflectionPrimitives.RoundTrip: a `std::string` holding a byte from 0x80 up does not read back as itself through the text: the byte 0xE9 is written as `\u00e9` and reads back as the two bytes C3 A9 (see `StringTextReadsBackIffAscii` and the Findings).
- Floating point: `float` and `double` are modelled as exact reals. NaN, infinities and rounding are not modelled. A division by zero, which would give an infinity, is excluded by a precondition.
- Square roots, trigonometry, `normalize`, font glyph measurements and `calculateModelMatrix` are parameters (uninterpreted functions), because only their results flow into the logic.
- `MAX_ENTITIES` and `MAX_COMPONENTS` come from `Entity.hpp`, which is not part of this model. The entity capacity is instead a constructor parameter of `EntityManager` and `ComponentArray`.
- ComponentArrays.ComponentArray.InsertComponent: a slot beyond the capacity is excluded by a precondition. The source does not check it and would write past its `std::array`.
- The Base64 codec: `Base64.cpp` is compiled out. `ReflectionBlobs.Encode` and `ReflectionBlobs.Decode` are a stand-in whose only property used is that decoding undoes encoding.
- `ScreenToWorldRay`, the editor camera and the sphere vertex positions: these are floating-point geometry only.
- Raycast.RayAABBIntersection: requires every direction component to be non-zero. The C++ divides by each component and relies on IEEE infinities, which reals do not have.
- Raycast uses of `Transform`: because `ECSManager::Initialize` never registers `Transform`, registration is a precondition of the raycast operations rather than an assertion failure.
- Raycast.SetEntityTransform: modelled on the `Transform` value it produces. The update in place through the component reference is not modelled.
- `calculateModelMatrix` (`TransformSystem.cpp:39`) takes the rotation by value, through `Vector3D`'s copy constructor, which leaves `z` indeterminate. The model passes the rotation itself to the matrix function and does not model that indeterminate `z`.
- `GetReadableTypeName` works on the string `typeid(T).name()` returns, which is implementation-defined. The model takes the name as a string.
- The mutexes of `GuiLogQueue` and of the reflection registry: every operation is modelled as sequential.
- OpenGL, FreeType and FMOD handles are modelled as opaque values. `Clear`, `EndFrame`, `RenderModel`'s GL calls, and the `ApplyLighting` and `SetupMatrices` uniform uploads have no modelled effect.
- The `DebugDrawSystem` entry points `DrawCube`, `DrawSphere`, `DrawLine`, `DrawMeshWireframe` and `SubmitDebugRenderItems` have empty bodies in the source and are not modelled.
- The `Shutdown` of `ModelSystem`, `TextRenderingSystem` and `DebugDrawSystem` only logs and is not modelled.
- AudioManager `update`, `setMasterVolume`, `checkFMODError` and the static wrappers only forward to FMOD. `getFullPath` and the file-exists check are parameters of `loadSound`.
- The filesystem (directory iteration, file-exists checks), `.meta` GUIDs and the directory hash are oracles. The asset browser receives the directory listing as a parameter, so its iteration order is not modelled.
- ImGui: `IsWindowHovered`, `IsAnyItemHovered` and the widgets are parameters. The model keeps the decisions and the contents of what is drawn, not the drawing.
- EditorInputManagers.EditorInputManager.GetMouseDelta: the contract pins only sensitivities 1 and 0, the cases where the scaled delta has a closed meaning.
- A vector, map, struct or pair deserialisation (ReflectionContainers.VectorRead, ReflectionMaps.MapRead, ReflectionContainers.StructRead, ReflectionMaps.PairRead) that fails part-way through leaves the elements or members already written in place. The model reports only the failure and not that partial state.
- JsonValues.ReadInt, ReadUnsigned, ReadInt64 and ReadUint64: a `static_cast` of a double outside the target type's range is undefined behaviour in C++. The model wraps the truncated value modulo the type's width, which is one chosen reading of that behaviour.
- rapidjson asserts on a map entry that is not an array, and on `GetBool` of a non-boolean. The model reports these as deserialisation errors.
- `std::sort` in `GraphicsManager::Render` is unstable. The contract leaves the relative order of items with equal render order unspecified. It states only that the queue is sorted and permuted.
- `SceneManager::SaveScene`, `SaveTempScene` and `ReloadTempScene` touch the filesystem through code not part of this model. They are modelled by the path they use and the world state they leave.
- The header's `m_CurrentState` (`EditorState.hpp:51`) is initialised to `EDIT_MODE` and never written by `EditorState.cpp`. It is not modelled.
- EditorStates.EditorState.IsEditMode: the inline query at `EditorState.hpp:29` compares the never-written `m_CurrentState`, so as written it always holds. The model reads the engine's state through `GetState` instead.
- EditorStates.EditorState.IsPlayMode: the inline query at `EditorState.hpp:30` compares the never-written `m_CurrentState`, so as written it never holds. The model reads the engine's state through `GetState` instead.
- EditorStates.EditorState.IsPaused: the inline query at `EditorState.hpp:31` compares the never-written `m_CurrentState`, so as written it never holds. The model reads the engine's state through `GetState` instead.
- EditorStates.EditorState.ShouldRunGameLogic: the inline query at `EditorState.hpp:32` compares the never-written `m_CurrentState`, so as written it never holds. The model reads the engine's state through `GetState` instead.
- The demo body of `Engine::Initialize`, which loads models and sets up lights and text, is not modelled. Only its switch to `PLAY_MODE` is.
- The iteration order of `std::unordered_map` is a parameter wherever the C++ walks one. This affects material texture binding, audio's loaded-sound list and map serialisation.
- The `TextUtils` setters change a `TextRenderComponent` in place. They are modelled as functions from the old component to the new one.

## Findings

| source | as written | input that shows it | evidently intended | confidence | as-written member | corrected member |
|---|---|---|---|---|---|---|
| Project/Engine/src/Math/Vector3D.cpp:35-40 | `operator=` copies `x` and `y` only; the target keeps its own `z` (the copy constructor at lines 29-33 likewise leaves `z` unset). The transform system, the setters and `SetEntityTransform` all assign through it | target (0,0,0), right-hand side (1,2,3): the result is (1,2,0). For a default transform with scale (1,1,1), `lastScale.z` stays 0 after `Initialise` and after every `update`, so every frame recomputes the model matrix | assignment copies all three components, so a second `update` with no edits recomputes nothing | high, not executed | Vector3Ds.AssignAsWrittenDropsZ, TransformSystems.DefaultNeverSettles, Raycast.SetThenGet | Vector3Ds.Assign, TransformSystems.SteppedCorrected, TransformSystems.UpdateSettles, Raycast.SetEntityTransformCorrected |
| Project/Engine/src/Reflection/ReflectionBase.cpp:157-176 | every byte above 0x7E is written as `\u00XX`, byte by byte | the one-byte string E9 is written as `\u00e9`; a parser following section 7 of RFC 8259 reads that back as code point U+00E9, whose UTF-8 encoding is the two bytes C3 A9, not the original byte | bytes at or above 0x80 are copied verbatim (UTF-8 text is valid JSON), so unescaping gives the input back for every byte string | medium, not executed | StringEscapes.EscapedHighByteChanges, StringEscapes.RoundTripIffAscii, JsonValues.QuotedReadsBackIffAscii | StringEscapes.EscapedKeepingUtf8, StringEscapes.RoundTripKeepingUtf8, JsonValues.QuotedKeepingUtf8ReadsBack |
| Project/Engine/include/Reflection/ReflectionBase.hpp:509-514 | `Serialize` of `shared_ptr<void>` computes `le_size` but copies the host-order size prefix; `Deserialize` (lines 530-534) reads the prefix as little-endian, and its `memcpy` at line 541 copies the decoded bytes, prefix included, unconverted | on a big-endian host, the block with size 1 (bytes 00 00 00 00 00 00 00 01) followed by one byte 2A is read back with size 2^56 and rejected with "length mismatch" | two corrections together: `Serialize` writes `le_size` in place of the raw prefix, and `Deserialize` stores the size converted back to host order before the data in place of the copied little-endian prefix, so the block round-trips on either byte order | high, not executed | ReflectionBlobs.PersistedAsWritten, ReflectionBlobs.BigEndianRoundTripFailsAsWritten | ReflectionBlobs.PersistedBlock, ReflectionBlobs.BlobRead, ReflectionBlobs.BlobRoundTrip |
