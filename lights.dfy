/**
 * The light registry of the renderer (`Lights`): two capacity-capped keyed
 * collections of lights, area lights and directional lights, and three dirty
 * flags that tell the next `update` what to rewrite on the GPU:
 *   - `changed`: the per-frame vertex (light counts, world colour) is stale;
 *   - `areasChanged`: the area-light buffer is stale;
 *   - `directionalsChanged`: the directional-light buffer is stale.
 * Light payloads are floating-point records; here they are the opaque type
 * parameters `A` (area) and `L` (directional). GPU buffers are not modelled.
 */
module LightRegistry {
  import opened Wrappers

  /** Capacity of the area-light collection; an insert is refused once the count plus one reaches it. */
  const MAX_AREA_LIGHTS: nat := 2000
  /** Capacity of the directional-light collection, refused the same way. */
  const MAX_DIR_LIGHTS: nat := 1333

  /** The per-frame vertex `create_quad` writes, without its floating-point fields. */
  datatype Quad = Quad(enableLights: bool, dirCount: nat, areaCount: nat)

  /** Removing a key from a keyed collection drops its size by one exactly when the key was present. */
  lemma RemovalCount<V>(m: map<nat, V>, key: nat)
    ensures key in m ==> |m - {key}| == |m| - 1
    ensures key !in m ==> m - {key} == m
  {
    assert (m - {key}).Keys == m.Keys - {key};
    if key in m {
      assert m.Keys == (m.Keys - {key}) + {key};
    }
  }

  class Lights<A, L> {
    /** The area lights by key. */
    var areaLights: map<nat, A>
    /** The directional lights by key. */
    var directionalLights: map<nat, L>
    /**
     * The next key of each kind: a slot map never hands out the same key
     * twice (a reused slot gets a new version), so here keys count upwards
     * and every key below the counter has been handed out.
     */
    var areaNext: nat
    var dirNext: nat
    /** The public counters, which nothing in the registry updates. */
    var areaCount: nat
    var dirCount: nat
    var enableLights: bool
    var changed: bool
    var areasChanged: bool
    var directionalsChanged: bool

    /** Every stored light has an issued key, and neither collection is over its cap. */
    ghost predicate Valid()
      reads this
    {
      && (forall k :: k in areaLights ==> k < areaNext)
      && (forall k :: k in directionalLights ==> k < dirNext)
      && |areaLights| < MAX_AREA_LIGHTS && |directionalLights| < MAX_DIR_LIGHTS
    }

    /** `Lights::new`: no lights, zero counts, lights disabled, and every flag raised. */
    constructor ()
      ensures Valid()
      ensures areaLights == map[] && directionalLights == map[]
      ensures areaNext == 0 && dirNext == 0
      ensures areaCount == 0 && dirCount == 0 && !enableLights
      ensures changed && areasChanged && directionalsChanged
    {
      areaLights, directionalLights := map[], map[];
      areaNext, dirNext := 0, 0;
      areaCount, dirCount := 0, 0;
      enableLights := false;
      changed, areasChanged, directionalsChanged := true, true, true;
    }

    /**
     * `insert_area_light`: refused, with no flag raised, when the count plus
     * one reaches the cap; otherwise stored under a key never handed out
     * before, raising `areasChanged` and `changed`.
     */
    method InsertAreaLight(light: A) returns (r: Option<nat>)
      requires Valid()
      modifies this
      ensures Valid()
      ensures |old(areaLights)| + 1 >= MAX_AREA_LIGHTS ==> r == None && unchanged(this)
      ensures |old(areaLights)| + 1 < MAX_AREA_LIGHTS ==>
        && r == Some(old(areaNext)) && r.value !in old(areaLights)
        && areaLights == old(areaLights)[r.value := light] && |areaLights| == |old(areaLights)| + 1
        && areaNext == old(areaNext) + 1
        && areasChanged && changed
        && directionalsChanged == old(directionalsChanged)
        && directionalLights == old(directionalLights) && dirNext == old(dirNext)
      ensures areaCount == old(areaCount) && dirCount == old(dirCount) && enableLights == old(enableLights)
    {
      if |areaLights| + 1 >= MAX_AREA_LIGHTS {
        return None;
      }
      areasChanged := true;
      changed := true;
      var key := areaNext;
      areaLights := areaLights[key := light];
      areaNext := areaNext + 1;
      return Some(key);
    }

    /** `remove_area_light`: the key leaves, if present, and both flags are raised either way. */
    method RemoveAreaLight(key: nat)
      requires Valid()
      modifies this
      ensures Valid()
      ensures areaLights == old(areaLights) - {key}
      ensures key in old(areaLights) ==> |areaLights| == |old(areaLights)| - 1
      ensures areasChanged && changed && directionalsChanged == old(directionalsChanged)
      ensures areaNext == old(areaNext)
      ensures directionalLights == old(directionalLights) && dirNext == old(dirNext)
      ensures areaCount == old(areaCount) && dirCount == old(dirCount) && enableLights == old(enableLights)
    {
      areasChanged := true;
      changed := true;
      RemovalCount(areaLights, key);
      areaLights := areaLights - {key};
    }

    /**
     * `get_mut_area_light`: the light under `key`, which the caller may then
     * rewrite (here the rewrite is the function `edit`). Only `areasChanged` is
     * raised, and it is raised whether or not the key is present.
     */
    method GetMutAreaLight(key: nat, edit: A -> A) returns (r: Option<A>)
      requires Valid()
      modifies this
      ensures Valid()
      ensures key !in old(areaLights) ==> r == None && areaLights == old(areaLights)
      ensures key in old(areaLights) ==>
        r == Some(old(areaLights)[key]) && areaLights == old(areaLights)[key := edit(old(areaLights)[key])]
      ensures areasChanged
      ensures changed == old(changed) && directionalsChanged == old(directionalsChanged)
      ensures areaNext == old(areaNext)
      ensures directionalLights == old(directionalLights) && dirNext == old(dirNext)
      ensures areaCount == old(areaCount) && dirCount == old(dirCount) && enableLights == old(enableLights)
    {
      areasChanged := true;
      if key in areaLights {
        r := Some(areaLights[key]);
        areaLights := areaLights[key := edit(areaLights[key])];
      } else {
        r := None;
      }
    }

    /** `insert_directional_light`: as `InsertAreaLight`, against the directional cap. */
    method InsertDirectionalLight(light: L) returns (r: Option<nat>)
      requires Valid()
      modifies this
      ensures Valid()
      ensures |old(directionalLights)| + 1 >= MAX_DIR_LIGHTS ==> r == None && unchanged(this)
      ensures |old(directionalLights)| + 1 < MAX_DIR_LIGHTS ==>
        && r == Some(old(dirNext)) && r.value !in old(directionalLights)
        && directionalLights == old(directionalLights)[r.value := light]
        && |directionalLights| == |old(directionalLights)| + 1
        && dirNext == old(dirNext) + 1
        && directionalsChanged && changed
        && areasChanged == old(areasChanged)
        && areaLights == old(areaLights) && areaNext == old(areaNext)
      ensures areaCount == old(areaCount) && dirCount == old(dirCount) && enableLights == old(enableLights)
    {
      if |directionalLights| + 1 >= MAX_DIR_LIGHTS {
        return None;
      }
      directionalsChanged := true;
      changed := true;
      var key := dirNext;
      directionalLights := directionalLights[key := light];
      dirNext := dirNext + 1;
      return Some(key);
    }

    /** `remove_directional_light`: as `RemoveAreaLight`, on the directional lights. */
    method RemoveDirectionalLight(key: nat)
      requires Valid()
      modifies this
      ensures Valid()
      ensures directionalLights == old(directionalLights) - {key}
      ensures key in old(directionalLights) ==> |directionalLights| == |old(directionalLights)| - 1
      ensures directionalsChanged && changed && areasChanged == old(areasChanged)
      ensures dirNext == old(dirNext)
      ensures areaLights == old(areaLights) && areaNext == old(areaNext)
      ensures areaCount == old(areaCount) && dirCount == old(dirCount) && enableLights == old(enableLights)
    {
      directionalsChanged := true;
      changed := true;
      RemovalCount(directionalLights, key);
      directionalLights := directionalLights - {key};
    }

    /** `get_mut_directional_light`: as `GetMutAreaLight`; only `directionalsChanged` is raised. */
    method GetMutDirectionalLight(key: nat, edit: L -> L) returns (r: Option<L>)
      requires Valid()
      modifies this
      ensures Valid()
      ensures key !in old(directionalLights) ==> r == None && directionalLights == old(directionalLights)
      ensures key in old(directionalLights) ==>
        && r == Some(old(directionalLights)[key])
        && directionalLights == old(directionalLights)[key := edit(old(directionalLights)[key])]
      ensures directionalsChanged
      ensures changed == old(changed) && areasChanged == old(areasChanged)
      ensures dirNext == old(dirNext)
      ensures areaLights == old(areaLights) && areaNext == old(areaNext)
      ensures areaCount == old(areaCount) && dirCount == old(dirCount) && enableLights == old(enableLights)
    {
      directionalsChanged := true;
      if key in directionalLights {
        r := Some(directionalLights[key]);
        directionalLights := directionalLights[key := edit(directionalLights[key])];
      } else {
        r := None;
      }
    }

    /** The vertex `create_quad` writes: the lights switch and the current number of each kind. */
    function Vertex(): (q: Quad)
      reads this
      requires Valid()
      ensures q.areaCount == |areaLights| < MAX_AREA_LIGHTS
      ensures q.dirCount == |directionalLights| < MAX_DIR_LIGHTS
      ensures q.enableLights == enableLights
    {
      Quad(enableLights, |directionalLights|, |areaLights|)
    }

    /** `create_quad`: writes the vertex and lowers `changed`, and nothing else. */
    method CreateQuad() returns (q: Quad)
      requires Valid()
      modifies this
      ensures Valid()
      ensures q == old(Vertex())
      ensures !changed
      ensures areasChanged == old(areasChanged) && directionalsChanged == old(directionalsChanged)
      ensures areaLights == old(areaLights) && directionalLights == old(directionalLights)
      ensures areaNext == old(areaNext) && dirNext == old(dirNext)
      ensures areaCount == old(areaCount) && dirCount == old(dirCount) && enableLights == old(enableLights)
    {
      q := Vertex();
      changed := false;
    }

    /**
     * `update`: the vertex is rewritten (and returned) exactly when `changed`
     * was raised, and each light buffer is rewritten from the current lights
     * of its kind (returned here as the collection written) exactly when its
     * flag was raised; afterwards all three flags are lowered and the lights
     * are as they were.
     */
    method Update() returns (written: Option<Quad>, areasWritten: Option<map<nat, A>>,
                             directionalsWritten: Option<map<nat, L>>)
      requires Valid()
      modifies this
      ensures Valid()
      ensures old(changed) ==> written == Some(old(Vertex()))
      ensures !old(changed) ==> written == None
      ensures old(areasChanged) ==> areasWritten == Some(old(areaLights))
      ensures !old(areasChanged) ==> areasWritten == None
      ensures old(directionalsChanged) ==> directionalsWritten == Some(old(directionalLights))
      ensures !old(directionalsChanged) ==> directionalsWritten == None
      ensures !changed && !areasChanged && !directionalsChanged
      ensures areaLights == old(areaLights) && directionalLights == old(directionalLights)
      ensures areaNext == old(areaNext) && dirNext == old(dirNext)
      ensures areaCount == old(areaCount) && dirCount == old(dirCount) && enableLights == old(enableLights)
    {
      written, areasWritten, directionalsWritten := None, None, None;
      if changed {
        var q := CreateQuad();
        written := Some(q);
      }
      if areasChanged {
        areasWritten := Some(areaLights);
        areasChanged := false;
      }
      if directionalsChanged {
        directionalsWritten := Some(directionalLights);
        directionalsChanged := false;
      }
    }
  }
}
