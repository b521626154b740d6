# Cycles geometry synchronisation cache, modelled in Dafny

This project models the decision logic of Cycles' Blender geometry
synchronisation, `BlenderSync::sync_geometry` and
`BlenderSync::sync_geometry_motion`. On every update pass the renderer asks
four questions of each Blender object:

- which cached renderer `Mesh` the object maps to;
- whether that mesh can be reused or must be rebuilt;
- which extraction routine rebuilds it: hair, volume or plain mesh;
- whether motion data for it is extracted at a given motion step.

The model has four modules:

- `GeometryTypes` (`geometry_types.dfy`): the values. Shader and mesh handles,
  the `MeshKey`, mesh records and the log of extraction routines.
- `ShaderList` (`shader_list.dfy`): the ordered `used_shaders` list. It is a
  fold over the material slots (`SlotShaders`, `UsedShaders`), and
  `ResolveShaders` is the source's loop, proved equal to that fold.
- `GeometryCache` (`geometry_cache.dfy`): the decisions as functions on the
  state of one pass (`PassState`: `mesh_synced`, `mesh_motion_synced`, the
  mesh records and the extraction log). It covers:
  - the cache key, the three-condition staleness check, the dedup guard and
    the dispatch (`GeometryOutcome`, `GeometryNext`);
  - the motion state machine (`MotionNext`);
  - a pass invariant. It is preserved by every call, in any order of calls
    (`Run`).
- `BlenderGeometrySync` (`blender_sync.dfy`): class `BlenderSync`, whose fields
  `meshSynced`, `meshMotionSynced` and `meshes` are updated in place by
  `SyncGeometry` and `SyncGeometryMotion`. The extraction log is a ghost field.
  Each method is proved to end in exactly the state that `GeometryNext` or
  `MotionNext` gives, and to keep the pass invariant.

Collaborators whose code is not part of this model are inputs:

- `find_shader` is an arrow `FindShader`. From a material, the default shader
  and the list so far, it gives the shaders that one call appends. Nothing is
  assumed about how many it appends.
- `mesh_map.sync` is an arrow `IdMap` from a `MeshKey` to the mesh and its
  "new or tagged" flag.
- `BKE_object_is_modified` and `object_fluid_gas_domain_find` are booleans of
  the request.
- The shaders with `need_update_mesh` set are a set of handles.
- `Mesh::motion_step(motion_time)` is the integer `motionStep` of the motion
  request.
- The extraction routines `sync_hair`, `sync_volume`, `sync_mesh`,
  `sync_hair_motion` and `sync_mesh_motion` append an event to the log. A base
  extraction also marks the mesh's payload as extracted by that routine.

Three consequences of the code's order and of what it delegates:

- `sync_geometry_motion` records the mesh in `mesh_motion_synced`
  (`src/blender/blender_geometry.cpp:122`) before it checks `mesh_synced`
  (line 126). So `mesh_motion_synced` is not a subset of `mesh_synced`
  (`MotionSyncedNotWithinSynced`). A mesh reached by motion sync before its
  rebuild gets no motion extraction for the rest of the pass
  (`MotionBeforeBaseLocksOut`, `MotionLockedForRestOfPass`).
- The shader list is guaranteed non-empty only without a material override.
  With one, the fallback at line 55 is another `find_shader` call, so
  non-emptiness depends on `find_shader`. `UsedShaders` promises a non-empty
  list only when there is no override.
- `sync_geometry` removes no duplicate shaders itself. Any deduplication is up
  to `find_shader`, so the model claims none.

## Model

| member | source | states |
|---|---|---|
| `GeometryCache.ResolveKey` | src/blender/blender_geometry.cpp:32-35 | the key carries the hair flag; its owner is the object instance exactly when the object is modified, otherwise the data block |
| `GeometryCache.KeysAgree` | src/blender/blender_geometry.cpp:33-35 | two objects get the same key iff they agree on hair mode and on being modified, and then on the instance (modified) or the data block (unmodified); a modified object never shares with another instance, and the same data in a different hair mode gets a different key |
| `ShaderList.SlotMaterial` | src/blender/blender_geometry.cpp:44-50 | a slot resolves through the material override when one is set, otherwise through its own material |
| `ShaderList.SlotShaders` | src/blender/blender_geometry.cpp:42-51 | the slot loop only appends: the list before the loop is a prefix of the list after it |
| `ShaderList.UsedShaders` | src/blender/blender_geometry.cpp:53-58 | without an override the list is never empty; if the loop gave nothing, it is `[default_shader]` without an override and one `find_shader(override)` call's output with one; otherwise it is the loop's list |
| `ShaderList.NoSlotsNoOverride` | src/blender/blender_geometry.cpp:53-57 | zero material slots and no override give exactly `[default_shader]` |
| `ShaderList.SlotShadersIgnoreSlotsUnderOverride` | src/blender/blender_geometry.cpp:43-46 | under an override, from any starting list, the loop's result depends only on the number of slots |
| `ShaderList.OverrideIgnoresSlotMaterials` | src/blender/blender_geometry.cpp:43-58 | under an override, two objects with the same number of slots get the same shader list, whatever their slots' materials |
| `ShaderList.SlotShadersLength` | src/blender/blender_geometry.cpp:42-51 | if each `find_shader` call appends exactly one shader, the loop adds one entry per slot |
| `ShaderList.OneShaderPerSlot` | src/blender/blender_geometry.cpp:42-58 | if each `find_shader` call appends exactly one shader, the list has one entry per slot, or one entry when there are no slots |
| `ShaderList.ResolveShaders` | src/blender/blender_geometry.cpp:40-58 | the loop and the fallback compute exactly `UsedShaders` |
| `GeometryCache.Classify` | src/blender/blender_geometry.cpp:97-105 | hair iff the particle-hair flag is set; volume iff not hair and a fluid gas domain; plain mesh iff neither |
| `GeometryCache.AttributeRecalc` | src/blender/blender_geometry.cpp:74-78 | the flag ends true iff some shader of the cached list has `need_update_mesh` set |
| `GeometryCache.Staleness` | src/blender/blender_geometry.cpp:64-82 | the first true condition wins: transform applied on an updated object, then a changed shader list (element-wise), then a shader needing other mesh attributes; `None` iff all three are false |
| `GeometryCache.CachedMeshIsCurrent` | src/blender/blender_geometry.cpp:64-82 | the cached mesh may be returned iff not (updated and transform applied), its stored list equals the new list, and none of its shaders has `need_update_mesh` |
| `GeometryCache.GeometryOutcome` | src/blender/blender_geometry.cpp:63-91 | reuse iff the id map reports no change and all three staleness conditions are false; otherwise a rebuild iff the mesh is not yet in `mesh_synced`, and then with the hair/volume/mesh routine `Classify` picks |
| `GeometryCache.GeometryNext` | src/blender/blender_geometry.cpp:63-105 | without a rebuild nothing changes; a rebuild adds the mesh to `mesh_synced`, logs exactly one extraction, and leaves the mesh cleared with the new shader list, the data-block name and that routine's payload; other meshes and `mesh_motion_synced` are untouched |
| `GeometryCache.FastPathReusesCachedMesh` | src/blender/blender_geometry.cpp:63-81 | an untagged mesh with no staleness condition is returned with its record, `mesh_synced` and the log unchanged |
| `GeometryCache.StaleMeshIsRebuilt` | src/blender/blender_geometry.cpp:63-91 | any one staleness condition sends an untagged mesh that is not yet synced to the rebuild path, including an updated object with `transform_applied` and an identical shader list |
| `GeometryCache.RebuiltOnlyOnce` | src/blender/blender_geometry.cpp:85-91 | in any state where the mesh is already in `mesh_synced`, a `sync_geometry` call that reaches it, with any request and any id-map flag, neither rebuilds it nor changes the state |
| `GeometryCache.NoRebuildForRestOfPass` | src/blender/blender_geometry.cpp:85-91 | once a mesh is in `mesh_synced`, every later sequence of geometry and motion calls in the pass keeps it there and logs no further rebuild of it |
| `GeometryCache.SharedDataSyncedOnce` | src/blender/blender_geometry.cpp:33-91 | two unmodified objects with the same data block and hair mode have the same key; when the id map gives both the same mesh, whatever new/tagged flag it reports to each, the two calls do not both rebuild it |
| `GeometryCache.MotionNext` | src/blender/blender_geometry.cpp:116-143 | afterwards the mesh is in `mesh_motion_synced`; `mesh_synced` and the meshes are untouched; one motion extraction at `motion_step` is logged iff the mesh was not yet motion-synced, was base-synced, the step is non-negative and the object is not a volume; otherwise the log is unchanged |
| `GeometryCache.MotionIdempotent` | src/blender/blender_geometry.cpp:116-122 | after one motion call the mesh is motion-synced and a second call for it changes nothing |
| `GeometryCache.MotionBeforeBaseLocksOut` | src/blender/blender_geometry.cpp:119-127 | a mesh reached by motion sync before its rebuild is recorded without extraction, and the next motion call after its rebuild still extracts nothing |
| `GeometryCache.MotionLockedForRestOfPass` | src/blender/blender_geometry.cpp:119-122 | once a mesh is in `mesh_motion_synced`, every later sequence of calls in the pass keeps it there and logs no further motion extraction of it, even if it is rebuilt meanwhile |
| `GeometryCache.MotionSyncedNotWithinSynced` | src/blender/blender_geometry.cpp:122-127 | a motion call for a mesh that was not rebuilt still puts it in `mesh_motion_synced` |
| `GeometryCache.GeometryKeepsInvariant` | src/blender/blender_geometry.cpp:85-105 | `sync_geometry` keeps the pass invariant: one rebuild per mesh in `mesh_synced` and none otherwise, at most one motion extraction per mesh and only for motion-synced meshes, and every motion extraction after that mesh's rebuild |
| `GeometryCache.MotionKeepsInvariant` | src/blender/blender_geometry.cpp:119-143 | `sync_geometry_motion` keeps the same pass invariant |
| `GeometryCache.RunKeepsInvariant` | src/blender/blender_geometry.cpp:26-144 | any sequence of geometry and motion calls keeps the pass invariant |
| `GeometryCache.PassSyncsEachMeshAtMostOnce` | src/blender/blender_geometry.cpp:85-144 | from empty sets, in any call order, each mesh is rebuilt at most once and motion-extracted at most once per pass, and never motion-extracted before its rebuild in that pass |
| `BlenderGeometrySync.BlenderSync.SyncGeometry` | src/blender/blender_geometry.cpp:26-108 | returns the mesh the id map gives for the object's key and leaves the fields exactly as `GeometryNext` says, keeping the pass invariant |
| `BlenderGeometrySync.BlenderSync.Rebuild` | src/blender/blender_geometry.cpp:93-105 | the mesh is cleared and given the new shader list and the data-block name, then exactly one extraction runs (hair, else volume, else mesh); the sets are untouched |
| `BlenderGeometrySync.BlenderSync.SyncGeometryMotion` | src/blender/blender_geometry.cpp:110-144 | leaves the fields exactly as `MotionNext` says, keeping the pass invariant |

## Left out

- `progress.set_sync_status` (line 89) is left out. It is a status message with no effect on the cache.
- `find_shader`, `mesh_map.sync`, `BKE_object_is_modified`, `object_fluid_gas_domain_find` and `Mesh::motion_step` are inputs. Their code is not part of this model. No deduplication, non-emptiness or key-to-mesh behaviour of theirs is assumed.
- The mesh returned by `mesh_map.sync` must already be in the mesh table (`SyncGeometry` requires it). Creating a new mesh is the id map's work, and that code is not part of this model.
- `Mesh::clear` is modelled as resetting the record to empty: no shaders, `transform_applied` false, an empty name, a cleared payload. `render/mesh.cpp` is not part of this model.
- The geometry work of `sync_mesh`, `sync_hair`, `sync_volume`, `sync_mesh_motion` and `sync_hair_motion` is left out. The model records only that each was called, for which mesh, and at which step. Motion extraction does not change the mesh record.
- `motion_time` is a float, and its mapping to a step happens in code that is not shown. Only the resulting integer step is modelled.
- Emptying `mesh_synced` and `mesh_motion_synced` between passes is left out. It happens in callers that are not part of this model. The class constructor and `StartPass` begin a pass with both sets empty.
- Meshes are values in a map keyed by mesh identity rather than shared pointers. Two objects share a mesh exactly when the id map gives them the same identity.
- The depsgraph, `b_ob` and `b_ob_instance` handles are left out. Only the identities and flags that the decisions read are modelled.
