# Atlas-set bookkeeping and the light registry, in Dafny

This project models two pieces of the renderer's `graphics` crate and proves
properties of them.

**`AtlasSet`** (`atlas_set.dfy`, module `AtlasSets`) manages a texture array
of equally sized square layers. Each layer has its own rectangle allocator.
Uploads are placed on some layer and remembered in five collections:

- a slot store of `(allocation, key)` entries indexed by id (`store`);
- a key-to-id table (`lookup`);
- an LRU cache from id to reference count (`lru`, least recently used
  first, plus `refCounts`);
- the set of ids used this frame (`lastUsed`);
- the layers themselves (`layers`). Each layer holds its allocator's live
  rectangles and the ids recorded on it.

The model is a class with these fields, and every operation is a method
over them. The allocator's packing strategy is a function value `place`,
fixed at construction. It depends only on a layer's live rectangles, and
the model proves nothing about where it puts a rectangle. The class
invariant `Books` states how the collections agree:

- `lookup` and `store` are inverse to each other;
- the cache holds exactly the live ids, each once and with a positive count;
- every live allocation names an existing layer that lists its id.

Every operation preserves `Books`. `allocate` is proved against
`AllocationOutcome`, which covers its four stages:

1. reject a request larger than a layer;
2. try the existing layers, first fit;
3. outside reference-counted mode, evict the least recently used ids one by
   one, never one used this frame, and retry after each eviction in the
   layer it freed;
4. possibly add a layer.

Stages 3 and 4 are `RoomMade`. `AfterEvictions` gives the layers after the
first `n` evictions, and `RetryAfter` gives the allocator's answer in the
freed layer at each retry. A placement found by eviction is the answer of
the last retry, and every earlier retry was refused. When eviction finds
nothing, every retry was refused. `LayersAfterAllocation` gives every
layer after the call: the evictions' frees, then the new rectangle in its
layer or in a new last layer.

`EvictedOldest` states exactly what an eviction run removed. `Uploaded`
states what a successful upload leaves behind.

**`Lights`** (`lights.dfy`, module `LightRegistry`) keeps two capacity-capped
keyed collections of lights and three dirty flags. The flags tell `update`
what to rewrite.

`scenarios.dfy` holds short client runs, proved from the operations'
contracts alone. They use a one-rectangle-per-layer allocator:

- a read protects an entry from eviction until `trim`;
- reference-counted mode with a layer limit of one grows to two layers;
- repeated uploads are idempotent;
- the light caps admit exactly 1999 and 1332 lights;
- the dirty flags behave as described.

`wrappers.dfy` holds the `Option` type.

## Model

| member | source | states |
|---|---|---|
| AtlasSets.ClampSize | graphics/src/atlas_set.rs:256 | The layer side is clamped to [256, max texture dimension]: kept when inside, raised to 256 when below, lowered to the maximum when above. |
| AtlasSets.AtlasSet.constructor | graphics/src/atlas_set.rs:249-321 | A new set has the clamped size, the device's layer limit and mode, one empty layer (two on the GL backend), and empty store, lookup, cache and frame set. It satisfies the invariant. |
| AtlasSets.AtlasSet.Size | graphics/src/atlas_set.rs:590-592 | Width and height equal the clamped side, at least 256; depth is the number of layers. |
| AtlasSets.FirstFit | graphics/src/atlas_set.rs:100-109 | The chosen layer is the first whose allocator accepts the request: every earlier one refuses. None means every layer refuses. |
| AtlasSets.AtlasSet.TryExistingLayers | graphics/src/atlas_set.rs:100-109 | The loop places the request on the `FirstFit` layer and changes only that layer, or finds none and changes nothing. |
| AtlasSets.AtlasSet.Allocate | graphics/src/atlas_set.rs:89-159 | `AllocationOutcome` holds. Oversized requests change nothing. A first-fit placement changes only its layer. Evicted ids are exactly the oldest ones and none was used this frame. The layers are exactly `LayersAfterAllocation`: the evicted ids' rectangles given back, then the result's rectangle added to its layer, or to a new last layer. Every result lies on an existing layer that holds its rectangle. |
| AtlasSets.AtlasSet.MakeRoom | graphics/src/atlas_set.rs:111-159 | `RoomMade` holds. In reference-counted mode nothing is evicted and a new layer is tried at once. An empty cache ends with None and no new layer. A new layer is tried only after the loop met an id used this frame. It is kept iff the layer count plus one is not the limit and an empty layer accepts the request. An eviction-found placement is the last retry's answer, after every earlier retry was refused. The layers are `LayersAfterAllocation`. |
| AtlasSets.AtlasSet.EvictForRoom | graphics/src/atlas_set.rs:112-136 | The eviction loop terminates (the cache shrinks every turn) and removes a prefix of the recency order. It stops blocked exactly at the first id used this frame, and returns None once the cache is empty. On None, every retry was refused and the layers are `AfterEvictions`. A placement is the last retry's rectangle, in the last evicted id's layer, after every earlier retry was refused. The layers are then `AfterEvictions` plus that rectangle. |
| AtlasSets.AtlasSet.EvictionTurn | graphics/src/atlas_set.rs:122-133 | One turn evicts the next-oldest id. It succeeds iff the allocator of that id's layer, after the removal, places the request (`RetryAfter`), and the result is that rectangle on that layer. The layers move from `AfterEvictions` of n ids to n + 1 ids, plus the rectangle on success. |
| AtlasSets.AtlasSet.EvictOldest | graphics/src/atlas_set.rs:114-122 | `remove` on the least recently used id, not used this frame, frees it and reports its layer. That layer takes the id's rectangle back and forgets the id; no other layer changes. This extends the evicted prefix by one. |
| AtlasSets.AtlasSet.RetryInLayer | graphics/src/atlas_set.rs:123-133 | The retry asks only the freed layer, and on success changes only that layer. |
| AtlasSets.AtlasSet.TryNewLayer | graphics/src/atlas_set.rs:141-154 | It succeeds iff the layer count plus one is not the limit and an empty layer accepts the request. The new layer is appended holding the rectangle. On failure nothing changes. |
| AtlasSets.EvictionExtends | graphics/src/atlas_set.rs:114-122 | Freeing the oldest id, when it is unused this frame, extends an `EvictedOldest` record by one. The reported layer is that id's layer as the original store records it, and that layer alone took the id's rectangle back. |
| AtlasSets.LayersAfterAllocation | graphics/src/atlas_set.rs:89-159 | The layer count after `allocate` grows by one exactly when a new layer was reached and kept, and otherwise stays the same. |
| AtlasSets.EvictionStep | graphics/src/atlas_set.rs:502-508 | After a removal, the store, lookup and counts are the originals minus the removed ids and their keys. |
| AtlasSets.EvictionOnlyForgets | graphics/src/atlas_set.rs:112-136 | Eviction only forgets: every key still known was known before, and every slot it vacated was among the evicted ids. |
| AtlasSets.AllocationKeepsBooks | graphics/src/atlas_set.rs:101-107 | Handing out a rectangle on an existing layer keeps the invariant. |
| AtlasSets.NewLayerKeepsBooks | graphics/src/atlas_set.rs:145-152 | Pushing a layer keeps the invariant. |
| AtlasSets.AtlasSet.Clear | graphics/src/atlas_set.rs:369-378 | Every layer's allocator is emptied and the number of layers kept. Store, lookup, cache and frame set become empty. |
| AtlasSets.AtlasSet.Trim | graphics/src/atlas_set.rs:383-385 | Only the frame set changes, and it becomes empty. |
| AtlasSets.Promoted | graphics/src/atlas_set.rs:398-401 | A cached id moves to the most recent end. The cache keeps the same ids and stays free of duplicates. An uncached id leaves the order alone. |
| AtlasSets.Without | graphics/src/atlas_set.rs:495 | Popping an id from the cache removes exactly that id, keeps the order of the rest (the result is a `SubSeq` of the cache), and shortens the cache by one when it was present. |
| AtlasSets.WithoutKeepsOrder | graphics/src/atlas_set.rs:495 | After popping an id, any two remaining ids sit in the same relative order as before, which fixes the next id `peek_lru` evicts. |
| AtlasSets.SubSeqOrder | graphics/src/atlas_set.rs:495 | A subsequence keeps relative order: two positions i < j of it hold elements found at positions a < b of the original. |
| AtlasSets.AtlasSet.Promote | graphics/src/atlas_set.rs:398-401 | The recency order becomes `Promoted`. The id joins the frame set even when it is not live. Nothing else changes. |
| AtlasSets.AtlasSet.PromoteByKey | graphics/src/atlas_set.rs:389-394 | A known key promotes its id to most recent and marks it used. An unknown key changes nothing. |
| AtlasSets.AtlasSet.Lookup | graphics/src/atlas_set.rs:405-407 | Some exactly for a known key, and the id's slot carries that key. |
| AtlasSets.AtlasSet.PeekByKey | graphics/src/atlas_set.rs:411-417 | Some exactly for a known key: a live slot carrying that key, on an existing layer. |
| AtlasSets.AtlasSet.Peek | graphics/src/atlas_set.rs:421-423 | Some exactly for a live id: its slot, whose key leads back to it. |
| AtlasSets.AtlasSet.ContainsKey | graphics/src/atlas_set.rs:427-429 | True iff some live slot was uploaded under the key. |
| AtlasSets.AtlasSet.Contains | graphics/src/atlas_set.rs:433-435 | True iff the id is live. A live id is also cached, and its key maps back to it. |
| AtlasSets.AtlasSet.Get | graphics/src/atlas_set.rs:454-462 | A live id returns a copy of its allocation, becomes most recent and is marked used, touching nothing else. A vacant id returns None and changes nothing. |
| AtlasSets.AtlasSet.GetByKey | graphics/src/atlas_set.rs:440-449 | As `Get`, on the key's id. An unknown key returns None and changes nothing. |
| AtlasSets.AtlasSet.Remove | graphics/src/atlas_set.rs:494-509 | An uncached id returns None and changes nothing. In reference-counted mode a count above one is decremented and the id re-pushed as most recent, with nothing else changed. Otherwise the slot is freed everywhere and its layer returned. |
| AtlasSets.AtlasSet.Free | graphics/src/atlas_set.rs:502-508 | The id leaves the store, the cache and the frame set. Its key leaves the lookup. Its layer takes the rectangle back and forgets the id. The result is that layer. |
| AtlasSets.RemovalKeepsBooks | graphics/src/atlas_set.rs:502-508 | Freeing a live slot everywhere keeps the invariant. |
| AtlasSets.RecountKeepsBooks | graphics/src/atlas_set.rs:497-500 | Re-pushing an id with a lower positive count keeps the invariant. |
| AtlasSets.AtlasSet.RemoveByKey | graphics/src/atlas_set.rs:470-486 | An unknown key returns None and changes nothing. Otherwise the effect is `Remove` on the key's id. |
| AtlasSets.FirstVacant | graphics/src/atlas_set.rs:541 | The id given to a new slot is vacant, and it is the lowest vacant one. |
| AtlasSets.AtlasSet.Record | graphics/src/atlas_set.rs:580-583 | The new slot gets a vacant id. The key maps to it, its layer lists it, and it enters the cache with count one as the most recent entry. The invariant is kept. |
| AtlasSets.InsertionKeepsBooks | graphics/src/atlas_set.rs:541-544 | Recording a vacant id under an unknown key keeps the invariant and leaves the entry reachable from every collection. |
| AtlasSets.EvictionThenInsertion | graphics/src/atlas_set.rs:567-584 | An eviction run followed by recording a new slot is an `Uploaded` state: the old books without the evicted ids, plus the new id with count one at the recent end. |
| AtlasSets.AtlasSet.UploadWithAlloc | graphics/src/atlas_set.rs:558-586 | A known key returns its id and stored allocation and changes nothing. A new key follows `AllocationOutcome`. On success the entry is recorded under an id that was vacant or just evicted, with count one, keyed both ways. The layers are `LayersAfterAllocation` with the allocation's layer also listing the id. On failure the evictions still stand, and the layers are `LayersAfterAllocation`. No key other than the uploaded one is ever added. |
| AtlasSets.AtlasSet.Upload | graphics/src/atlas_set.rs:520-547 | As `UploadWithAlloc`, returning only the id. The layers are stated the same way. |
| AtlasScenarios.UsedEntryIsKept | graphics/src/atlas_set.rs:112-141 | With one full layer and a layer limit of two, an entry read this frame is not evicted. The new upload is refused, because the layer count plus one equals the limit. |
| AtlasScenarios.UnusedEntryIsEvicted | graphics/src/atlas_set.rs:112-134 | The least recently used entry, unused this frame, is evicted. The retry in the layer it emptied places the new upload, which succeeds. |
| AtlasScenarios.TrimEndsTheProtection | graphics/src/atlas_set.rs:383-385 | After `trim`, an entry read earlier is evictable again. The new upload takes its place and succeeds. |
| AtlasScenarios.RefCountedModeGrowsPastOneLayer | graphics/src/atlas_set.rs:141-154 | In reference-counted mode with a layer limit of one, a second upload creates a second layer. Removing the first upload frees layer 0. |
| AtlasScenarios.UploadTwiceRemoveOnce | graphics/src/atlas_set.rs:529-531 | Uploading a live key again returns the same id without raising its count, so one remove frees it even in reference-counted mode. |
| LightRegistry.Lights.constructor | graphics/src/lights.rs:97-116 | Both collections empty, counts zero, lights disabled, all three flags raised. |
| LightRegistry.Lights.InsertAreaLight | graphics/src/lights.rs:146-154 | Refused, with nothing changed and no flag raised, when the count plus one reaches 2000. Otherwise the light is stored under a never-issued key, the count grows by one, and `areasChanged` and `changed` are raised. The invariant keeps at most 1999 area lights. |
| LightRegistry.Lights.RemoveAreaLight | graphics/src/lights.rs:156-160 | The key leaves (the count drops by one when it was present). `areasChanged` and `changed` are raised even for an absent key. |
| LightRegistry.RemovalCount | graphics/src/lights.rs:156-160 | Removing a present key lowers a collection's size by exactly one; removing an absent key changes nothing. |
| LightRegistry.Lights.GetMutAreaLight | graphics/src/lights.rs:162-165 | A present light is returned and rewritten by the caller's edit. Only `areasChanged` is raised, present or not. |
| LightRegistry.Lights.InsertDirectionalLight | graphics/src/lights.rs:167-178 | As for area lights, against the cap 1333, so at most 1332 directional lights are stored. |
| LightRegistry.Lights.RemoveDirectionalLight | graphics/src/lights.rs:180-184 | As for area lights, raising `directionalsChanged` and `changed`. |
| LightRegistry.Lights.GetMutDirectionalLight | graphics/src/lights.rs:186-192 | As for area lights. Only `directionalsChanged` is raised. |
| LightRegistry.Lights.Vertex | graphics/src/lights.rs:123-129 | The vertex carries the lights switch and the current number of each kind of light, each below its cap. |
| LightRegistry.Lights.CreateQuad | graphics/src/lights.rs:122-144 | The vertex is written from the current state and `changed` is lowered. Nothing else changes. |
| LightRegistry.Lights.Update | graphics/src/lights.rs:195-235 | The vertex is rewritten iff `changed` was raised. Each light buffer is rewritten from its current lights iff its flag was raised. Afterwards all three flags are lowered and the lights are unchanged. |
| LightScenarios.FillAreaLights | graphics/src/lights.rs:146-154 | Inserting into a new registry until refused stores exactly 1999 area lights. |
| LightScenarios.FillDirectionalLights | graphics/src/lights.rs:167-178 | Inserting into a new registry until refused stores exactly 1332 directional lights. |
| LightScenarios.EditRewritesOnlyItsBuffer | graphics/src/lights.rs:162-165 | After an edit, `update` rewrites the area buffer with the edited light and leaves the vertex alone. |
| LightScenarios.UpdateLowersEveryFlag | graphics/src/lights.rs:195-235 | A second `update` writes nothing. After a remove the vertex is rewritten with no lights counted. |

## Behaviour kept as the code has it

The model follows the code in each of these cases:

- The layer ceiling test is an equality: a layer is refused only when the
  layer count plus one equals the limit. With a limit of one the set grows
  to two layers and keeps growing (`RefCountedModeGrowsPastOneLayer`).
- With an empty cache, outside reference-counted mode, `allocate` returns
  None instead of trying a new layer. `peek_lru()?` returns early.
- `upload` of a live key never raises its count, and a new upload pushes
  count one. So counts never exceed one, and a single `remove` frees an
  entry in either mode (`UploadTwiceRemoveOnce`). The decrement branch of
  `remove` is modelled as written, but no reachable state enters it.
- `promote` marks an id as used this frame even when the id is not live.
  So the frame set is not a subset of the live ids, and the invariant does
  not claim it is.
- A failed upload keeps every eviction its allocation attempt made.

## Left out

- GPU work:
  - `grow`, the texture copy and queue submission;
  - `upload_allocation`;
  - texture, view and bind-group creation in `new`;
  - `bind_group`.

  An upload records only bookkeeping, and the texture is not modelled.
- The rectangle allocator and `Atlas` internals are not part of this model.
  A layer is its multiset of live rectangles and its set of recorded ids.
  Placement is a function of the live rectangles, the side and the request.
  This is a restriction, not a neutral abstraction:
  - an allocator whose answer depends on its history cannot be expressed,
    for example a guillotine or shelf allocator with free lists;
  - a layer emptied by deallocation places exactly like a new layer.
- ClampSize: `requires MIN_SIZE <= maxDimension`, and so does the
  constructor. When the device's maximum texture dimension is below 256,
  `size.clamp(256, max)` at atlas_set.rs line 256 panics. The model
  excludes that case instead of modelling the panic.
- `Slab`'s reuse order: a new slot takes the lowest vacant id (`FirstVacant`).
  The contracts promise only that the id was vacant, or was just evicted.
- `SlotMap` key versions: light keys are taken from counters that never
  repeat. This stands in for a versioned key that is never handed out twice.
- Hashing, and the capacity hints of `Slab::with_capacity` and
  `SlotMap::with_capacity_and_key`.
- `layer_check_limit` (a floating-point product), `deallocations_limit` and
  `layer_free_limit`: nothing in the core reads them.
- The GL backend is the parameter `glBackend`, which only sets the initial
  layer count.
- The floating-point light payloads and their `to_raw` conversions. Light
  payloads are opaque type parameters.
- `world_color`, `z`, `render_layer` and the `DrawOrder` that `create_quad`
  derives from the colour's alpha. The modelled vertex keeps the lights
  switch and the two counts.
- The `write_buffer` offsets in `update`: the model returns which
  collection each buffer is rewritten from. `unload` and the returned
  `OrderedIndex` are left out.
- `area_count` and `dir_count`: nothing in the registry updates them. They
  are modelled as fields that every operation leaves unchanged.
- `get_mut_area_light` and `get_mut_directional_light` hand out a mutable
  reference. Here the caller's write is the function `edit`, applied to the
  light in place.
- `remove_by_key` repeats the body of `remove` instead of calling it. It
  removes the key it was given rather than the one stored in the slot. Under
  the invariant the two agree, so `RemoveByKey` is `Remove` on the key's id.
- `Slab::remove` and the `get_mut(layer)?` lookups panic or return early on
  a vacant slot or a missing layer. The invariant rules both out, so those
  paths are not modelled.
- 32-bit widths and heights, and `usize` overflow, are left out. Sizes are
  unbounded naturals.
