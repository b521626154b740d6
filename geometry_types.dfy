/**
  Values shared by the geometry synchronisation cache: handles into the host
  scene and the renderer, the mesh cache key, mesh records and the log of
  extraction routines that ran.
 */
module GeometryTypes {

  /** A renderer shader handle (a `Shader *`). */
  type Shader = nat

  /** Identity of a renderer mesh (a `Mesh *`). */
  type MeshId = nat

  datatype Option<T> = None | Some(value: T)

  /** A host material reference; `NoMaterial` is the null ID (an empty slot, or no override). */
  datatype MaterialRef = NoMaterial | Material(id: nat)

  /**
    The host pointer that owns a cache slot: the object instance itself, or the
    object's data block. Objects and data blocks are distinct host structures,
    so the two kinds of pointer never coincide; the tag makes that explicit.
   */
  datatype KeyOwner = ObjectInstance(obj: nat) | DataBlock(data: nat)

  /** `MeshKey`: the owning pointer paired with the particle-hair flag. */
  datatype MeshKey = MeshKey(owner: KeyOwner, hair: bool)

  /** Which extraction routine populates a mesh. */
  datatype GeometryKind = Hair | Volume | PlainMesh

  /** What the mesh's geometry arrays currently hold. */
  datatype Payload = Cleared | Extracted(kind: GeometryKind)

  /** The fields of a renderer mesh that the cache reads or writes. */
  datatype Mesh = Mesh(usedShaders: seq<Shader>, transformApplied: bool, name: string, payload: Payload)

  /** A call to an extraction routine: `sync_hair`/`sync_volume`/`sync_mesh`, or a motion variant with its step. */
  datatype Event =
    | Extract(kind: GeometryKind, mesh: MeshId)
    | ExtractMotion(kind: GeometryKind, mesh: MeshId, step: int)
}
