/**
  The decisions of `BlenderSync::sync_geometry` and
  `BlenderSync::sync_geometry_motion` as functions on the state of one
  synchronisation pass: the cache key, the staleness check, the dedup guard,
  the dispatch to one extraction routine, and the motion guards. The class in
  module BlenderGeometrySync performs the same steps imperatively and is proved
  to end in the state these functions give.
 */
module GeometryCache {
  import opened GeometryTypes
  import opened ShaderList

  /* ---------------------------------------------------------------- key */

  /** The cache key: the object instance when the host reports the object modified, else its data block. */
  function ResolveKey(instance: nat, data: nat, modified: bool, useParticleHair: bool): (k: MeshKey)
    ensures k.hair == useParticleHair
    ensures k.owner.ObjectInstance? <==> modified
    ensures k.owner.ObjectInstance? ==> k.owner.obj == instance
    ensures k.owner.DataBlock? ==> k.owner.data == data
  {
    MeshKey(if modified then ObjectInstance(instance) else DataBlock(data), useParticleHair)
  }

  /**
    Two objects land in the same cache slot exactly when they agree on the hair
    mode and on being modified, and then on the instance (modified) or the data
    block (unmodified).
   */
  lemma KeysAgree(i1: nat, d1: nat, m1: bool, h1: bool, i2: nat, d2: nat, m2: bool, h2: bool)
    ensures ResolveKey(i1, d1, m1, h1) == ResolveKey(i2, d2, m2, h2) <==>
              h1 == h2 && m1 == m2 && (if m1 then i1 == i2 else d1 == d2)
  {
  }

  /* ----------------------------------------------------------- dispatch */

  /** The extraction routine for an object: hair first, then a fluid gas domain, then a plain mesh. */
  function Classify(useParticleHair: bool, fluidDomain: bool): (k: GeometryKind)
    ensures k == Hair <==> useParticleHair
    ensures k == Volume <==> !useParticleHair && fluidDomain
    ensures k == PlainMesh <==> !useParticleHair && !fluidDomain
  {
    if useParticleHair then Hair else if fluidDomain then Volume else PlainMesh
  }

  /* ---------------------------------------------------------- staleness */

  /** Some shader of the list has its "needs different mesh attributes" flag set. */
  predicate NeedsAttributeRecalc(shaders: seq<Shader>, needUpdateMesh: set<Shader>) {
    exists i :: 0 <= i < |shaders| && shaders[i] in needUpdateMesh
  }

  /** The `foreach` over the cached mesh's shaders that sets `attribute_recalc`. */
  method AttributeRecalc(shaders: seq<Shader>, needUpdateMesh: set<Shader>) returns (recalc: bool)
    ensures recalc <==> NeedsAttributeRecalc(shaders, needUpdateMesh)
  {
    recalc := false;
    for i := 0 to |shaders|
      invariant recalc <==> exists j :: 0 <= j < i && shaders[j] in needUpdateMesh
    {
      if shaders[i] in needUpdateMesh {
        recalc := true;
      }
    }
  }

  /** Why a cached mesh the id map did not flag must still be rebuilt; the first that applies wins. */
  datatype StaleReason = TransformApplied | ShadersChanged | AttributesNeeded

  /** The three-condition check on a cached mesh, in the source's order; `None` means reuse. */
  function Staleness(objectUpdated: bool, cached: Mesh, used: seq<Shader>, needUpdateMesh: set<Shader>)
    : (r: Option<StaleReason>)
    ensures r == Some(TransformApplied) <==> objectUpdated && cached.transformApplied
    ensures r == Some(ShadersChanged) <==> !(objectUpdated && cached.transformApplied) && cached.usedShaders != used
    ensures r == Some(AttributesNeeded) <==>
              !(objectUpdated && cached.transformApplied) && cached.usedShaders == used &&
              NeedsAttributeRecalc(cached.usedShaders, needUpdateMesh)
    ensures r == None <==>
              !(objectUpdated && cached.transformApplied) && cached.usedShaders == used &&
              !NeedsAttributeRecalc(cached.usedShaders, needUpdateMesh)
  {
    if objectUpdated && cached.transformApplied then Some(TransformApplied)
    else if cached.usedShaders != used then Some(ShadersChanged)
    else if NeedsAttributeRecalc(cached.usedShaders, needUpdateMesh) then Some(AttributesNeeded)
    else None
  }

  /** The staleness check as `sync_geometry` runs it: true when the cached mesh may be returned as it is. */
  method CachedMeshIsCurrent(objectUpdated: bool, cached: Mesh, used: seq<Shader>, needUpdateMesh: set<Shader>)
    returns (current: bool)
    ensures current <==> Staleness(objectUpdated, cached, used, needUpdateMesh) == None
    ensures current <==>
              !(objectUpdated && cached.transformApplied) && cached.usedShaders == used &&
              forall s :: s in cached.usedShaders ==> s !in needUpdateMesh
  {
    current := false;
    if objectUpdated && cached.transformApplied {
      // A transform baked into the mesh needs a full update.
    } else if cached.usedShaders != used {
      // Object-level shader changes do not tag the mesh itself.
    } else {
      var attributeRecalc := AttributeRecalc(cached.usedShaders, needUpdateMesh);
      current := !attributeRecalc;
    }
  }

  /* --------------------------------------------------------- pass state */

  /**
    The state one pass works on: the pass-scoped sets `mesh_synced` and
    `mesh_motion_synced`, the mesh records, and the extraction routines run so far.
   */
  datatype PassState = PassState(synced: set<MeshId>, motionSynced: set<MeshId>,
                                 meshes: map<MeshId, Mesh>, log: seq<Event>)

  /** The state at the start of a pass: both sets empty, nothing extracted yet. */
  function StartPass(meshes: map<MeshId, Mesh>): PassState {
    PassState({}, {}, meshes, [])
  }

  /** Scene-wide shading inputs: `scene->default_surface`, the view layer's material override, `find_shader`, and the shaders flagged `need_update_mesh`. */
  datatype Shading = Shading(defaultShader: Shader, override: MaterialRef, find: FindShader,
                             needUpdateMesh: set<Shader>)

  /** What the host tells `sync_geometry` about one object. */
  datatype GeometryRequest = GeometryRequest(
    instance: nat,          // b_ob_instance
    data: nat,              // b_ob.data()
    dataName: string,       // b_ob_data.name()
    isModified: bool,       // BKE_object_is_modified(b_ob)
    useParticleHair: bool,
    isFluidDomain: bool,    // object_fluid_gas_domain_find(b_ob)
    objectUpdated: bool,
    slots: seq<MaterialRef> // the material of each material slot
  )

  /** The answer of `mesh_map.sync` for a key: the mesh, and whether it is new or tagged for recalc. */
  datatype MapAnswer = MapAnswer(mesh: MeshId, recalc: bool)

  /** `mesh_map.sync` as the answer it gives for each key during one call. */
  type IdMap = MeshKey -> MapAnswer

  function KeyOf(req: GeometryRequest): MeshKey {
    ResolveKey(req.instance, req.data, req.isModified, req.useParticleHair)
  }

  function ShadersOf(shading: Shading, req: GeometryRequest): seq<Shader> {
    UsedShaders(req.slots, shading.override, shading.defaultShader, shading.find)
  }

  /* ---------------------------------------------------- base geometry */

  /** Which `return` of `sync_geometry` is taken. */
  datatype Outcome = Reused | AlreadySynced | Rebuilt(kind: GeometryKind)

  function GeometryOutcome(st: PassState, shading: Shading, req: GeometryRequest, ans: MapAnswer): (o: Outcome)
    requires ans.mesh in st.meshes
    ensures o == Reused <==>
              !ans.recalc &&
              !(req.objectUpdated && st.meshes[ans.mesh].transformApplied) &&
              st.meshes[ans.mesh].usedShaders == ShadersOf(shading, req) &&
              !NeedsAttributeRecalc(st.meshes[ans.mesh].usedShaders, shading.needUpdateMesh)
    ensures o == AlreadySynced ==> ans.mesh in st.synced
    ensures o.Rebuilt? <==> o != Reused && ans.mesh !in st.synced
    ensures o.Rebuilt? ==> o.kind == Classify(req.useParticleHair, req.isFluidDomain)
  {
    var cached := st.meshes[ans.mesh];
    if !ans.recalc && Staleness(req.objectUpdated, cached, ShadersOf(shading, req), shading.needUpdateMesh) == None then
      Reused
    else if ans.mesh in st.synced then
      AlreadySynced
    else
      Rebuilt(Classify(req.useParticleHair, req.isFluidDomain))
  }

  /** The mesh as a rebuild leaves it: cleared, given the new shader list and name, then populated. */
  function RebuiltMesh(used: seq<Shader>, name: string, kind: GeometryKind): Mesh {
    Mesh(used, false, name, Extracted(kind))
  }

  /** The state after `sync_geometry` for one object. */
  function GeometryNext(st: PassState, shading: Shading, req: GeometryRequest, ans: MapAnswer): (r: PassState)
    requires ans.mesh in st.meshes
    ensures r.motionSynced == st.motionSynced && r.meshes.Keys == st.meshes.Keys
    ensures forall m :: m in st.meshes && m != ans.mesh ==> r.meshes[m] == st.meshes[m]
    ensures !GeometryOutcome(st, shading, req, ans).Rebuilt? ==> r == st
    ensures GeometryOutcome(st, shading, req, ans).Rebuilt? ==>
              var k := GeometryOutcome(st, shading, req, ans).kind;
              r.synced == st.synced + {ans.mesh} &&
              r.log == st.log + [Extract(k, ans.mesh)] &&
              r.meshes[ans.mesh] == Mesh(ShadersOf(shading, req), false, req.dataName, Extracted(k))
  {
    match GeometryOutcome(st, shading, req, ans)
    case Rebuilt(k) =>
      st.(synced := st.synced + {ans.mesh},
          meshes := st.meshes[ans.mesh := RebuiltMesh(ShadersOf(shading, req), req.dataName, k)],
          log := st.log + [Extract(k, ans.mesh)])
    case _ => st
  }

  /** The fast path: an unflagged, unchanged cached mesh is returned as it is and nothing runs. */
  lemma FastPathReusesCachedMesh(st: PassState, shading: Shading, req: GeometryRequest, ans: MapAnswer)
    requires ans.mesh in st.meshes && !ans.recalc
    requires !(req.objectUpdated && st.meshes[ans.mesh].transformApplied)
    requires st.meshes[ans.mesh].usedShaders == ShadersOf(shading, req)
    requires forall s :: s in st.meshes[ans.mesh].usedShaders ==> s !in shading.needUpdateMesh
    ensures GeometryOutcome(st, shading, req, ans) == Reused
    ensures GeometryNext(st, shading, req, ans) == st
  {
  }

  /**
    Any one staleness condition sends an unflagged mesh to the rebuild path; in
    particular an updated object whose mesh had its transform applied is
    rebuilt even when its shader list is unchanged.
   */
  lemma StaleMeshIsRebuilt(st: PassState, shading: Shading, req: GeometryRequest, ans: MapAnswer)
    requires ans.mesh in st.meshes && ans.mesh !in st.synced
    requires Staleness(req.objectUpdated, st.meshes[ans.mesh], ShadersOf(shading, req), shading.needUpdateMesh) != None
    ensures GeometryOutcome(st, shading, req, ans) == Rebuilt(Classify(req.useParticleHair, req.isFluidDomain))
    ensures ans.mesh in GeometryNext(st, shading, req, ans).synced
  {
  }

  /**
    The dedup guard: once a mesh is in `mesh_synced`, a `sync_geometry` call
    that reaches it, with any request and any id-map flag, neither rebuilds it
    nor changes the state. `NoRebuildForRestOfPass` extends this to every later
    call of the pass.
   */
  lemma RebuiltOnlyOnce(st: PassState, shading: Shading, req: GeometryRequest, ans: MapAnswer)
    requires ans.mesh in st.meshes && ans.mesh in st.synced
    ensures !GeometryOutcome(st, shading, req, ans).Rebuilt?
    ensures GeometryNext(st, shading, req, ans) == st
  {
  }

  /**
    Two unmodified objects with the same data block and hair mode have the same
    key; when the id map gives both the same mesh, whatever its new/tagged flag
    says to each, at most one of the two calls rebuilds it.
   */
  lemma SharedDataSyncedOnce(st: PassState, shading: Shading, req1: GeometryRequest, req2: GeometryRequest,
                             ans1: MapAnswer, ans2: MapAnswer)
    requires !req1.isModified && !req2.isModified
    requires req1.data == req2.data && req1.useParticleHair == req2.useParticleHair
    requires ans1.mesh in st.meshes && ans2.mesh == ans1.mesh
    ensures KeyOf(req1) == KeyOf(req2)
    ensures var st1 := GeometryNext(st, shading, req1, ans1);
            !GeometryOutcome(st1, shading, req2, ans2).Rebuilt? ||
            !GeometryOutcome(st, shading, req1, ans1).Rebuilt?
  {
  }

  /* ---------------------------------------------------------- motion */

  /** What `sync_geometry_motion` is told: `object->mesh`, the object flags, and the mesh's step for the requested time. */
  datatype MotionRequest = MotionRequest(mesh: MeshId, useParticleHair: bool, isFluidDomain: bool, motionStep: int)

  /** The state after `sync_geometry_motion`: the mesh is recorded before the base-sync guard is consulted. */
  function MotionNext(st: PassState, req: MotionRequest): (r: PassState)
    ensures r.synced == st.synced && r.meshes == st.meshes
    ensures r.motionSynced == st.motionSynced + {req.mesh}
    ensures r.log != st.log <==>
              req.mesh !in st.motionSynced && req.mesh in st.synced && req.motionStep >= 0 &&
              Classify(req.useParticleHair, req.isFluidDomain) != Volume
    ensures r.log == st.log ||
            r.log == st.log + [ExtractMotion(Classify(req.useParticleHair, req.isFluidDomain), req.mesh, req.motionStep)]
  {
    if req.mesh in st.motionSynced then st
    else
      var st1 := st.(motionSynced := st.motionSynced + {req.mesh});
      if req.mesh !in st.synced || req.motionStep < 0 then st1
      else
        match Classify(req.useParticleHair, req.isFluidDomain)
        case Hair => st1.(log := st1.log + [ExtractMotion(Hair, req.mesh, req.motionStep)])
        case Volume => st1
        case PlainMesh => st1.(log := st1.log + [ExtractMotion(PlainMesh, req.mesh, req.motionStep)])
  }

  /** A second motion call for the same mesh in the pass changes nothing. */
  lemma MotionIdempotent(st: PassState, r1: MotionRequest, r2: MotionRequest)
    requires r1.mesh == r2.mesh
    ensures r1.mesh in MotionNext(st, r1).motionSynced
    ensures MotionNext(MotionNext(st, r1), r2) == MotionNext(st, r1)
  {
  }

  /**
    The mesh is recorded as motion-synced before the base-sync check, so a mesh
    reached by motion sync before any rebuild is recorded without extraction,
    and the next motion call after its rebuild extracts nothing either
    (`MotionLockedForRestOfPass` covers every later call).
   */
  lemma MotionBeforeBaseLocksOut(st: PassState, m1: MotionRequest, shading: Shading, req: GeometryRequest,
                                 ans: MapAnswer, m2: MotionRequest)
    requires m1.mesh !in st.synced && m1.mesh !in st.motionSynced
    requires ans.mesh == m1.mesh && m2.mesh == m1.mesh && ans.mesh in st.meshes
    ensures var s1 := MotionNext(st, m1);
            s1.log == st.log && m1.mesh in s1.motionSynced && m1.mesh !in s1.synced &&
            var s2 := GeometryNext(s1, shading, req, ans);
            MotionNext(s2, m2).log == s2.log
  {
  }

  /**
    Because of that order, `mesh_motion_synced` is not a subset of
    `mesh_synced`: a motion call for a mesh that was not rebuilt still records it.
   */
  lemma MotionSyncedNotWithinSynced(meshes: map<MeshId, Mesh>, req: MotionRequest)
    ensures var st := MotionNext(StartPass(meshes), req);
            req.mesh in st.motionSynced && req.mesh !in st.synced && st.log == []
  {
  }

  /* ------------------------------------------------- pass invariant */

  /** How many base extractions of mesh `m` the log holds. */
  function BaseCount(log: seq<Event>, m: MeshId): nat
  {
    if log == [] then 0
    else BaseCount(log[..|log| - 1], m) + (if log[|log| - 1].Extract? && log[|log| - 1].mesh == m then 1 else 0)
  }

  /** How many motion extractions of mesh `m` the log holds. */
  function MotionCount(log: seq<Event>, m: MeshId): nat
  {
    if log == [] then 0
    else MotionCount(log[..|log| - 1], m) + (if log[|log| - 1].ExtractMotion? && log[|log| - 1].mesh == m then 1 else 0)
  }

  lemma BaseCountAppend(log: seq<Event>, e: Event, m: MeshId)
    ensures BaseCount(log + [e], m) == BaseCount(log, m) + (if e.Extract? && e.mesh == m then 1 else 0)
  {
  }

  lemma MotionCountAppend(log: seq<Event>, e: Event, m: MeshId)
    ensures MotionCount(log + [e], m) == MotionCount(log, m) + (if e.ExtractMotion? && e.mesh == m then 1 else 0)
  {
  }

  /**
    What holds throughout a pass: a mesh has been rebuilt exactly once if it is
    in `mesh_synced` and never otherwise; motion extraction ran at most once per
    mesh, only for meshes in `mesh_motion_synced`; and every motion extraction
    comes after the base extraction of the same mesh.
   */
  ghost predicate PassInvariant(st: PassState) {
    && (forall m :: BaseCount(st.log, m) == (if m in st.synced then 1 else 0))
    && (forall m :: MotionCount(st.log, m) <= (if m in st.motionSynced then 1 else 0))
    && (forall i :: 0 <= i < |st.log| && st.log[i].ExtractMotion? ==> BaseCount(st.log[..i], st.log[i].mesh) == 1)
  }

  lemma StartPassInvariant(meshes: map<MeshId, Mesh>)
    ensures PassInvariant(StartPass(meshes))
  {
  }

  lemma GeometryKeepsInvariant(st: PassState, shading: Shading, req: GeometryRequest, ans: MapAnswer)
    requires ans.mesh in st.meshes && PassInvariant(st)
    ensures PassInvariant(GeometryNext(st, shading, req, ans))
  {
    var r := GeometryNext(st, shading, req, ans);
    if GeometryOutcome(st, shading, req, ans).Rebuilt? {
      var e := r.log[|st.log|];
      forall m ensures BaseCount(r.log, m) == (if m in r.synced then 1 else 0) {
        BaseCountAppend(st.log, e, m);
      }
      forall m ensures MotionCount(r.log, m) <= (if m in r.motionSynced then 1 else 0) {
        MotionCountAppend(st.log, e, m);
      }
      forall i | 0 <= i < |r.log| && r.log[i].ExtractMotion?
        ensures BaseCount(r.log[..i], r.log[i].mesh) == 1
      {
        assert r.log[..i] == st.log[..i];
      }
    }
  }

  lemma MotionKeepsInvariant(st: PassState, req: MotionRequest)
    requires PassInvariant(st)
    ensures PassInvariant(MotionNext(st, req))
  {
    var r := MotionNext(st, req);
    if r.log != st.log {
      var e := r.log[|st.log|];
      forall m ensures BaseCount(r.log, m) == (if m in r.synced then 1 else 0) {
        BaseCountAppend(st.log, e, m);
      }
      forall m ensures MotionCount(r.log, m) <= (if m in r.motionSynced then 1 else 0) {
        MotionCountAppend(st.log, e, m);
      }
      forall i | 0 <= i < |r.log| && r.log[i].ExtractMotion?
        ensures BaseCount(r.log[..i], r.log[i].mesh) == 1
      {
        if i < |st.log| {
          assert r.log[..i] == st.log[..i];
        } else {
          assert r.log[..i] == st.log;
        }
      }
    }
  }

  /* ------------------------------------------------------- whole pass */

  /** One call made during a pass. */
  datatype Call =
    | GeometryCall(shading: Shading, req: GeometryRequest, ans: MapAnswer)
    | MotionCall(motion: MotionRequest)

  /** Every `sync_geometry` call is answered with a mesh of the table. */
  predicate AnswersIn(keys: set<MeshId>, calls: seq<Call>) {
    forall i :: 0 <= i < |calls| && calls[i].GeometryCall? ==> calls[i].ans.mesh in keys
  }

  function Step(st: PassState, c: Call): (r: PassState)
    requires c.GeometryCall? ==> c.ans.mesh in st.meshes
    ensures r.meshes.Keys == st.meshes.Keys
  {
    match c
    case GeometryCall(shading, req, ans) => GeometryNext(st, shading, req, ans)
    case MotionCall(motion) => MotionNext(st, motion)
  }

  /** The calls after the first still find their meshes once the first has run. */
  lemma AnswersInRest(st: PassState, calls: seq<Call>)
    requires |calls| > 0 && AnswersIn(st.meshes.Keys, calls)
    ensures AnswersIn(Step(st, calls[0]).meshes.Keys, calls[1..])
  {
    forall i | 0 <= i < |calls[1..]| && calls[1..][i].GeometryCall?
      ensures calls[1..][i].ans.mesh in Step(st, calls[0]).meshes.Keys
    {
      assert calls[1..][i] == calls[i + 1];
    }
  }

  /** The state after a sequence of calls, in the caller's order. */
  function Run(st: PassState, calls: seq<Call>): (r: PassState)
    requires AnswersIn(st.meshes.Keys, calls)
    ensures r.meshes.Keys == st.meshes.Keys
    ensures st.log <= r.log
    decreases |calls|
  {
    if |calls| == 0 then st
    else
      var next := Step(st, calls[0]);
      AnswersInRest(st, calls);
      Run(next, calls[1..])
  }

  lemma {:induction false} RunKeepsInvariant(st: PassState, calls: seq<Call>)
    requires AnswersIn(st.meshes.Keys, calls) && PassInvariant(st)
    ensures PassInvariant(Run(st, calls))
    decreases |calls|
  {
    if |calls| > 0 {
      match calls[0] {
        case GeometryCall(shading, req, ans) => GeometryKeepsInvariant(st, shading, req, ans);
        case MotionCall(motion) => MotionKeepsInvariant(st, motion);
      }
      var next := Step(st, calls[0]);
      AnswersInRest(st, calls);
      RunKeepsInvariant(next, calls[1..]);
    }
  }

  /**
    Over a whole pass, in any order of calls: each mesh is rebuilt at most once,
    motion-extracted at most once, and never motion-extracted before it was
    rebuilt in the same pass.
   */
  lemma PassSyncsEachMeshAtMostOnce(meshes: map<MeshId, Mesh>, calls: seq<Call>)
    requires AnswersIn(meshes.Keys, calls)
    ensures var r := Run(StartPass(meshes), calls);
            (forall m :: BaseCount(r.log, m) <= 1 && MotionCount(r.log, m) <= 1) &&
            (forall i :: 0 <= i < |r.log| && r.log[i].ExtractMotion? ==> BaseCount(r.log[..i], r.log[i].mesh) == 1)
  {
    StartPassInvariant(meshes);
    RunKeepsInvariant(StartPass(meshes), calls);
  }

  /** Every later call of the pass leaves a mesh in `mesh_synced` there, and rebuilds it no more. */
  lemma {:induction false} NoRebuildForRestOfPass(st: PassState, calls: seq<Call>, m: MeshId)
    requires AnswersIn(st.meshes.Keys, calls) && m in st.synced
    ensures m in Run(st, calls).synced
    ensures BaseCount(Run(st, calls).log, m) == BaseCount(st.log, m)
    decreases |calls|
  {
    if |calls| > 0 {
      var next := Step(st, calls[0]);
      match calls[0] {
        case GeometryCall(shading, req, ans) =>
          if GeometryOutcome(st, shading, req, ans).Rebuilt? {
            BaseCountAppend(st.log, next.log[|st.log|], m);
          }
        case MotionCall(motion) =>
          if next.log != st.log {
            BaseCountAppend(st.log, next.log[|st.log|], m);
          }
      }
      AnswersInRest(st, calls);
      NoRebuildForRestOfPass(next, calls[1..], m);
    }
  }

  /**
    Every later call of the pass leaves a mesh in `mesh_motion_synced` there and
    extracts no more motion for it, whether or not it is rebuilt meanwhile: with
    `MotionSyncedNotWithinSynced`, a mesh reached by motion sync before its
    rebuild gets no motion data for the rest of the pass.
   */
  lemma {:induction false} MotionLockedForRestOfPass(st: PassState, calls: seq<Call>, m: MeshId)
    requires AnswersIn(st.meshes.Keys, calls) && m in st.motionSynced
    ensures m in Run(st, calls).motionSynced
    ensures MotionCount(Run(st, calls).log, m) == MotionCount(st.log, m)
    decreases |calls|
  {
    if |calls| > 0 {
      var next := Step(st, calls[0]);
      match calls[0] {
        case GeometryCall(shading, req, ans) =>
          if GeometryOutcome(st, shading, req, ans).Rebuilt? {
            MotionCountAppend(st.log, next.log[|st.log|], m);
          }
        case MotionCall(motion) =>
          if next.log != st.log {
            MotionCountAppend(st.log, next.log[|st.log|], m);
          }
      }
      AnswersInRest(st, calls);
      MotionLockedForRestOfPass(next, calls[1..], m);
    }
  }
}
