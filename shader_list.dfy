/**
  The ordered shader list of an object (`used_shaders` in `sync_geometry`):
  one `find_shader` call per material slot, the material override replacing
  every slot's own material, and a fallback when the loop produced nothing.
 */
module ShaderList {
  import opened GeometryTypes

  /**
    `find_shader(id, used_shaders, default_shader)`: given a material (possibly
    null), the default shader and the list built so far, the shaders that one
    call appends. Its body is not part of this model, so nothing is assumed
    about how many it appends or whether it skips duplicates.
   */
  type FindShader = (MaterialRef, Shader, seq<Shader>) -> seq<Shader>

  /** The material a slot is resolved through: the override when one is set. */
  function SlotMaterial(slot: MaterialRef, override: MaterialRef): (m: MaterialRef)
    ensures override != NoMaterial ==> m == override
    ensures override == NoMaterial ==> m == slot
  {
    if override != NoMaterial then override else slot
  }

  /** The list after the material-slot loop has visited `slots`, starting from `acc`. */
  function SlotShaders(slots: seq<MaterialRef>, override: MaterialRef, defaultShader: Shader,
                       find: FindShader, acc: seq<Shader>): (r: seq<Shader>)
    ensures acc <= r
    decreases |slots|
  {
    if |slots| == 0 then acc
    else
      var chunk := find(SlotMaterial(slots[0], override), defaultShader, acc);
      SlotShaders(slots[1..], override, defaultShader, find, acc + chunk)
  }

  /** The shader list `sync_geometry` computes: the slot loop, then the fallback for an empty list. */
  function UsedShaders(slots: seq<MaterialRef>, override: MaterialRef, defaultShader: Shader,
                       find: FindShader): (r: seq<Shader>)
    ensures override == NoMaterial ==> r != []
    ensures SlotShaders(slots, override, defaultShader, find, []) == [] && override == NoMaterial ==> r == [defaultShader]
    ensures SlotShaders(slots, override, defaultShader, find, []) == [] && override != NoMaterial ==>
              r == find(override, defaultShader, [])
    ensures SlotShaders(slots, override, defaultShader, find, []) != [] ==>
              r == SlotShaders(slots, override, defaultShader, find, [])
  {
    var looped := SlotShaders(slots, override, defaultShader, find, []);
    if |looped| == 0 then
      if override != NoMaterial then looped + find(override, defaultShader, looped) else looped + [defaultShader]
    else looped
  }

  /** With no slots and no override the list is exactly the default shader. */
  lemma NoSlotsNoOverride(override: MaterialRef, defaultShader: Shader, find: FindShader)
    requires override == NoMaterial
    ensures UsedShaders([], override, defaultShader, find) == [defaultShader]
  {
  }

  lemma {:induction false} SlotShadersIgnoreSlotsUnderOverride(
    s1: seq<MaterialRef>, s2: seq<MaterialRef>, override: MaterialRef, defaultShader: Shader,
    find: FindShader, acc: seq<Shader>)
    requires override != NoMaterial && |s1| == |s2|
    ensures SlotShaders(s1, override, defaultShader, find, acc) == SlotShaders(s2, override, defaultShader, find, acc)
    decreases |s1|
  {
    if |s1| > 0 {
      SlotShadersIgnoreSlotsUnderOverride(s1[1..], s2[1..], override, defaultShader, find,
                                          acc + find(override, defaultShader, acc));
    }
  }

  /** Under a material override the slots' own materials do not matter, only how many slots there are. */
  lemma OverrideIgnoresSlotMaterials(s1: seq<MaterialRef>, s2: seq<MaterialRef>, override: MaterialRef,
                                     defaultShader: Shader, find: FindShader)
    requires override != NoMaterial && |s1| == |s2|
    ensures UsedShaders(s1, override, defaultShader, find) == UsedShaders(s2, override, defaultShader, find)
  {
    SlotShadersIgnoreSlotsUnderOverride(s1, s2, override, defaultShader, find, []);
  }

  lemma {:induction false} SlotShadersLength(slots: seq<MaterialRef>, override: MaterialRef, defaultShader: Shader,
                                             find: FindShader, acc: seq<Shader>)
    requires forall m, d, sofar :: |find(m, d, sofar)| == 1
    ensures |SlotShaders(slots, override, defaultShader, find, acc)| == |acc| + |slots|
    decreases |slots|
  {
    if |slots| > 0 {
      var chunk := find(SlotMaterial(slots[0], override), defaultShader, acc);
      SlotShadersLength(slots[1..], override, defaultShader, find, acc + chunk);
    }
  }

  /**
    For a `find_shader` that always appends exactly one shader, the list has one
    entry per material slot, or a single entry when there are no slots.
   */
  lemma OneShaderPerSlot(slots: seq<MaterialRef>, override: MaterialRef, defaultShader: Shader, find: FindShader)
    requires forall m, d, sofar :: |find(m, d, sofar)| == 1
    ensures |UsedShaders(slots, override, defaultShader, find)| == if |slots| == 0 then 1 else |slots|
  {
    SlotShadersLength(slots, override, defaultShader, find, []);
  }

  /** The loop of `sync_geometry` that builds `used_shaders`, followed by its empty-list fallback. */
  method ResolveShaders(slots: seq<MaterialRef>, override: MaterialRef, defaultShader: Shader, find: FindShader)
    returns (used: seq<Shader>)
    ensures used == UsedShaders(slots, override, defaultShader, find)
  {
    used := [];
    for i := 0 to |slots|
      invariant SlotShaders(slots[i..], override, defaultShader, find, used) == SlotShaders(slots, override, defaultShader, find, [])
    {
      assert slots[i..][1..] == slots[i + 1..];
      if override != NoMaterial {
        used := used + find(override, defaultShader, used);
      } else {
        used := used + find(slots[i], defaultShader, used);
      }
    }
    assert slots[|slots|..] == [];
    if |used| == 0 {
      if override != NoMaterial {
        used := used + find(override, defaultShader, used);
      } else {
        used := used + [defaultShader];
      }
    }
  }
}
