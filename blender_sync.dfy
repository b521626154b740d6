/**
  `BlenderSync`'s geometry synchronisation as a class: the pass-scoped sets
  `mesh_synced` and `mesh_motion_synced` and the mesh records are fields that
  `SyncGeometry` and `SyncGeometryMotion` update in place. Each method is
  proved to end in the state that module GeometryCache's functions give, and
  to keep that module's pass invariant.
 */
module BlenderGeometrySync {
  import opened GeometryTypes
  import opened ShaderList
  import opened GeometryCache

  class BlenderSync {
    var meshSynced: set<MeshId>
    var meshMotionSynced: set<MeshId>
    var meshes: map<MeshId, Mesh>
    /** The extraction routines called so far in this pass. */
    ghost var log: seq<Event>

    ghost function State(): PassState
      reads this
    {
      PassState(meshSynced, meshMotionSynced, meshes, log)
    }

    ghost predicate Valid()
      reads this
    {
      PassInvariant(State())
    }

    /** A pass starts with both sets empty. */
    constructor (meshes: map<MeshId, Mesh>)
      ensures Valid()
      ensures State() == StartPass(meshes)
    {
      this.meshSynced := {};
      this.meshMotionSynced := {};
      this.meshes := meshes;
      this.log := [];
      new;
      StartPassInvariant(meshes);
    }

    /** `sync_hair`, `sync_volume` or `sync_mesh`: populates the mesh and is recorded in the log. */
    method Extract(kind: GeometryKind, mesh: MeshId)
      requires mesh in meshes
      modifies this
      ensures meshSynced == old(meshSynced) && meshMotionSynced == old(meshMotionSynced)
      ensures meshes == old(meshes)[mesh := old(meshes)[mesh].(payload := Extracted(kind))]
      ensures log == old(log) + [Event.Extract(kind, mesh)]
    {
      meshes := meshes[mesh := meshes[mesh].(payload := Extracted(kind))];
      log := log + [Event.Extract(kind, mesh)];
    }

    /** `sync_hair_motion` or `sync_mesh_motion` at a step: recorded in the log. */
    method ExtractMotion(kind: GeometryKind, mesh: MeshId, step: int)
      modifies this
      ensures meshSynced == old(meshSynced) && meshMotionSynced == old(meshMotionSynced) && meshes == old(meshes)
      ensures log == old(log) + [Event.ExtractMotion(kind, mesh, step)]
    {
      log := log + [Event.ExtractMotion(kind, mesh, step)];
    }

    /**
      `BlenderSync::sync_geometry`: returns the mesh the id map gives for the
      object's key, rebuilding it unless the cached one is still good or it was
      already rebuilt this pass.
     */
    method SyncGeometry(shading: Shading, req: GeometryRequest, idMap: IdMap) returns (mesh: MeshId)
      requires Valid()
      requires idMap(KeyOf(req)).mesh in meshes
      modifies this
      ensures Valid()
      ensures mesh == idMap(KeyOf(req)).mesh
      ensures State() == GeometryNext(old(State()), shading, req, idMap(KeyOf(req)))
    {
      ghost var before := State();
      GeometryKeepsInvariant(before, shading, req, idMap(KeyOf(req)));
      ghost var outcome := GeometryOutcome(before, shading, req, idMap(KeyOf(req)));

      var key := ResolveKey(req.instance, req.data, req.isModified, req.useParticleHair);
      var used := ResolveShaders(req.slots, shading.override, shading.defaultShader, shading.find);
      assert key == KeyOf(req) && used == ShadersOf(shading, req);
      var answer := idMap(key);
      mesh := answer.mesh;

      if !answer.recalc {
        var current := CachedMeshIsCurrent(req.objectUpdated, meshes[mesh], used, shading.needUpdateMesh);
        if current {
          assert outcome == Reused && State() == before;
          return;
        }
      }
      assert outcome != Reused;

      if mesh in meshSynced {
        assert outcome == AlreadySynced && State() == before;
        return;
      }
      assert outcome == Rebuilt(Classify(req.useParticleHair, req.isFluidDomain));

      meshSynced := meshSynced + {mesh};
      Rebuild(mesh, used, req.dataName, req.useParticleHair, req.isFluidDomain);
    }

    /** The rebuild path of `sync_geometry`: clear the mesh, give it the new shader list and name, run one extraction. */
    method Rebuild(mesh: MeshId, used: seq<Shader>, name: string, useParticleHair: bool, isFluidDomain: bool)
      requires mesh in meshes
      modifies this
      ensures meshSynced == old(meshSynced) && meshMotionSynced == old(meshMotionSynced)
      ensures meshes == old(meshes)[mesh := RebuiltMesh(used, name, Classify(useParticleHair, isFluidDomain))]
      ensures log == old(log) + [Event.Extract(Classify(useParticleHair, isFluidDomain), mesh)]
    {
      var rebuilt := Mesh([], false, "", Cleared);  // mesh->clear()
      rebuilt := rebuilt.(usedShaders := used);
      rebuilt := rebuilt.(name := name);
      meshes := meshes[mesh := rebuilt];

      if useParticleHair {
        Extract(Hair, mesh);
      } else if isFluidDomain {
        Extract(Volume, mesh);
      } else {
        Extract(PlainMesh, mesh);
      }
    }

    /**
      `BlenderSync::sync_geometry_motion`: records the mesh as motion-synced,
      then extracts motion at the mesh's step if it was rebuilt this pass and
      the step exists; volumes have no motion extraction.
     */
    method SyncGeometryMotion(req: MotionRequest)
      requires Valid()
      modifies this
      ensures Valid()
      ensures State() == MotionNext(old(State()), req)
    {
      MotionKeepsInvariant(State(), req);
      var mesh := req.mesh;

      if mesh in meshMotionSynced {
        return;
      }

      meshMotionSynced := meshMotionSynced + {mesh};

      if mesh !in meshSynced {
        return;
      }

      var motionStep := req.motionStep;
      if motionStep < 0 {
        return;
      }

      if req.useParticleHair {
        ExtractMotion(Hair, mesh, motionStep);
      } else if req.isFluidDomain {
        // Volumes have no motion extraction.
      } else {
        ExtractMotion(PlainMesh, mesh, motionStep);
      }
    }
  }
}
