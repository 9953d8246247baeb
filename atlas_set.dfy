/**
 * The bookkeeping of a texture-atlas manager (`AtlasSet`).
 *
 * An atlas set owns a sequence of square layers, each with its own rectangle
 * allocator, and five collections kept in step with each other:
 *   - `store`: the slot table, id -> (allocation, key it was uploaded under);
 *   - `lookup`: key -> id;
 *   - the LRU cache of reference counts, here `lru` (ids, least recently used
 *     first) together with `refCounts` (id -> count);
 *   - `lastUsed`: the ids read during the current frame.
 * The GPU texture behind the layers (creation, growth by copy, byte uploads,
 * bind groups) is not part of this model.
 */
module AtlasSets {
  import opened Wrappers

  /** Smallest side length of a layer; a smaller requested size is clamped up to it. */
  const MIN_SIZE: nat := 256

  /** A rectangle handed out by a layer's rectangle allocator. */
  datatype Rect = Rect(x: nat, y: nat, width: nat, height: nat)

  /** A placed rectangle, the index of the layer holding it and the caller's metadata. */
  datatype Allocation<D> = Allocation(rect: Rect, layer: nat, data: D)

  /** One slot of the store: an allocation and the key it was uploaded under. */
  datatype Entry<K, D> = Entry(allocation: Allocation<D>, key: K)

  /**
   * The packing strategy of a layer's rectangle allocator, which this model
   * does not fix: given the rectangles live in a layer, the layer's side
   * length and a requested width and height, where the allocator places the
   * request, or None when it has no room.
   */
  type Placer = (multiset<Rect>, nat, nat, nat) -> Option<Rect>

  /**
   * One atlas layer: the rectangles its allocator has handed out and not
   * taken back, and the ids recorded on it.
   */
  datatype Layer = Layer(live: multiset<Rect>, ids: set<nat>)

  /** A freshly created layer. */
  function NewLayer(): Layer
  {
    Layer(multiset{}, {})
  }

  /** The layer after its allocator handed out `rect`. */
  function Allocated(layer: Layer, rect: Rect): Layer
  {
    layer.(live := layer.live + multiset{rect})
  }

  /** The layer after `rect` was given back and `id` was taken off it. */
  function Deallocated(layer: Layer, id: nat, rect: Rect): Layer
  {
    Layer(layer.live - multiset{rect}, layer.ids - {id})
  }

  /** `size.clamp(256, max)`; Rust's `clamp` panics unless the lower bound is at most the upper one. */
  function ClampSize(requested: nat, maxDimension: nat): (r: nat)
    requires MIN_SIZE <= maxDimension
    ensures MIN_SIZE <= r <= maxDimension
    ensures MIN_SIZE <= requested <= maxDimension ==> r == requested
    ensures requested < MIN_SIZE ==> r == MIN_SIZE
    ensures maxDimension < requested ==> r == maxDimension
  {
    if requested < MIN_SIZE then MIN_SIZE
    else if maxDimension < requested then maxDimension
    else requested
  }

  /** A strict upper bound of a finite set of ids, so some id is always vacant. */
  ghost function Bound(ids: set<nat>): (r: nat)
    ensures forall id :: id in ids ==> id < r
    decreases ids
  {
    if ids == {} then 0
    else
      var id :| id in ids;
      var rest := Bound(ids - {id});
      assert forall y :: y in ids ==> y == id || y in ids - {id};
      if id < rest then rest else id + 1
  }

  /**
   * The lowest id from `from` on that is not in `ids`: the slot `Slab::insert`
   * hands out is some vacant one, and this model takes the lowest.
   */
  function FirstVacant(ids: set<nat>, from: nat): (r: nat)
    ensures from <= r && r !in ids
    ensures forall j :: from <= j < r ==> j in ids
    decreases Bound(ids) - from
  {
    if from in ids then FirstVacant(ids, from + 1) else from
  }

  /** No id occurs twice in `s`. */
  ghost predicate Distinct(s: seq<nat>)
  {
    s == [] || (s[0] !in s[1..] && Distinct(s[1..]))
  }

  /** Appending an id that does not occur yet keeps a sequence duplicate-free. */
  lemma {:induction false} DistinctAppend(s: seq<nat>, x: nat)
    ensures Distinct(s) && x !in s ==> Distinct(s + [x])
  {
    if s != [] {
      assert (s + [x])[1..] == s[1..] + [x];
      DistinctAppend(s[1..], x);
    }
  }

  /** `r` is `s` with some elements left out: the elements of `r` occur in `s` in the same order. */
  ghost predicate SubSeq(r: seq<nat>, s: seq<nat>)
    decreases |s|
  {
    || r == []
    || (s != [] && ((r[0] == s[0] && SubSeq(r[1..], s[1..])) || SubSeq(r, s[1..])))
  }

  /** Every element of a subsequence occurs in the sequence. */
  lemma {:induction false} SubSeqMembers(r: seq<nat>, s: seq<nat>, y: nat)
    requires SubSeq(r, s) && y in r
    ensures y in s
    decreases |s|
  {
    if r[0] == s[0] && SubSeq(r[1..], s[1..]) {
      if y != r[0] {
        SubSeqMembers(r[1..], s[1..], y);
      }
    } else {
      SubSeqMembers(r, s[1..], y);
    }
  }

  /**
   * A subsequence keeps relative order: for two positions `i < j` of `r`,
   * the same elements sit at two positions `a < b` of `s`.
   */
  lemma {:induction false} SubSeqOrder(r: seq<nat>, s: seq<nat>, i: nat, j: nat)
    requires SubSeq(r, s) && i < j < |r|
    ensures exists a, b :: 0 <= a < b < |s| && s[a] == r[i] && s[b] == r[j]
    decreases |s|
  {
    if r[0] == s[0] && SubSeq(r[1..], s[1..]) {
      if i == 0 {
        assert r[j] in r[1..];
        SubSeqMembers(r[1..], s[1..], r[j]);
        var b' :| 0 <= b' < |s[1..]| && s[1..][b'] == r[j];
        assert s[0] == r[i] && s[b' + 1] == r[j];
      } else {
        SubSeqOrder(r[1..], s[1..], i - 1, j - 1);
        var a', b' :| 0 <= a' < b' < |s[1..]| && s[1..][a'] == r[1..][i - 1] && s[1..][b'] == r[1..][j - 1];
        assert s[a' + 1] == r[i] && s[b' + 1] == r[j];
      }
    } else {
      SubSeqOrder(r, s[1..], i, j);
      var a', b' :| 0 <= a' < b' < |s[1..]| && s[1..][a'] == r[i] && s[1..][b'] == r[j];
      assert s[a' + 1] == r[i] && s[b' + 1] == r[j];
    }
  }

  /** `s` with `x` taken out and the order of the rest kept. */
  function Without(s: seq<nat>, x: nat): (r: seq<nat>)
    ensures forall y :: y in r <==> y in s && y != x
    ensures SubSeq(r, s)
    ensures Distinct(s) ==> Distinct(r)
    ensures Distinct(s) && x in s ==> |r| == |s| - 1
    ensures x !in s ==> r == s
  {
    if s == [] then []
    else if s[0] == x then
      assert SubSeq(Without(s[1..], x), s[1..]);
      Without(s[1..], x)
    else
      var r := [s[0]] + Without(s[1..], x);
      assert r[1..] == Without(s[1..], x);
      r
  }

  /**
   * Popping `x` from the recency order keeps the others in their order: two
   * ids at positions `i < j` of the result sat at positions `a < b` before.
   */
  lemma WithoutKeepsOrder(s: seq<nat>, x: nat, i: nat, j: nat)
    requires i < j < |Without(s, x)|
    ensures exists a, b :: 0 <= a < b < |s| && s[a] == Without(s, x)[i] && s[b] == Without(s, x)[j]
  {
    SubSeqOrder(Without(s, x), s, i, j);
  }

  /** The recency order after `x` is used: it becomes the most recent, if it is cached at all. */
  function Promoted(s: seq<nat>, x: nat): (r: seq<nat>)
    ensures forall y :: y in r <==> y in s
    ensures Distinct(s) ==> Distinct(r)
    ensures x in s ==> r[|r| - 1] == x
    ensures x !in s ==> r == s
  {
    if x in s then DistinctAppend(Without(s, x), x); Without(s, x) + [x] else s
  }

  /**
   * The index of the first layer whose allocator can place a `w` by `h`
   * rectangle, or None when none of them can.
   */
  function FirstFit(layers: seq<Layer>, place: Placer, size: nat, w: nat, h: nat): (r: Option<nat>)
    ensures r.Some? ==> r.value < |layers| && place(layers[r.value].live, size, w, h).Some?
    ensures r.Some? ==> forall j :: 0 <= j < r.value ==> place(layers[j].live, size, w, h).None?
    ensures r.None? ==> forall j :: 0 <= j < |layers| ==> place(layers[j].live, size, w, h).None?
  {
    if layers == [] then None
    else if place(layers[0].live, size, w, h).Some? then Some(0)
    else
      match FirstFit(layers[1..], place, size, w, h)
      case None => None
      case Some(i) => Some(i + 1)
  }

  /**
   * The store, the lookup table and the reference counts `s1`, `k1`, `c1` are
   * `s0`, `k0`, `c0` with exactly the ids in `gone` (and their keys) taken out.
   */
  ghost predicate BooksAfterEviction<K(!new), D>(s0: map<nat, Entry<K, D>>, k0: map<K, nat>, c0: map<nat, nat>,
                                           gone: seq<nat>,
                                           s1: map<nat, Entry<K, D>>, k1: map<K, nat>, c1: map<nat, nat>)
  {
    && (forall id :: id in s1 <==> id in s0 && id !in gone)
    && (forall id :: id in s1 ==> s1[id] == s0[id])
    && (forall id :: id in c1 <==> id in c0 && id !in gone)
    && (forall id :: id in c1 ==> c1[id] == c0[id])
    && (forall key :: key in k1 <==> key in k0 && k0[key] !in gone)
    && (forall key :: key in k1 ==> k1[key] == k0[key])
  }

  /**
   * Relative to an earlier state with store `s0`, lookup table `k0`, counts
   * `c0`, recency order `l0` and frame set `u0`: exactly the `n` least
   * recently used ids have been removed, none of them used this frame, and
   * nothing else in the bookkeeping `store`, `lookup`, `lru`, `refCounts`,
   * `lastUsed` changed.
   */
  ghost predicate EvictedOldest<K(!new), D>(s0: map<nat, Entry<K, D>>, k0: map<K, nat>, c0: map<nat, nat>,
                                            l0: seq<nat>, u0: set<nat>, n: nat,
                                            store: map<nat, Entry<K, D>>, lookup: map<K, nat>,
                                            lru: seq<nat>, refCounts: map<nat, nat>, lastUsed: set<nat>)
  {
    && n <= |l0| && lru == l0[n..] && lastUsed == u0
    && (forall id :: id in l0[..n] ==> id !in u0)
    && BooksAfterEviction(s0, k0, c0, l0[..n], store, lookup, refCounts)
  }

  /** The allocator of the layer `a` names has handed out `a`'s rectangle. */
  ghost predicate PlacedIn<D>(a: Allocation<D>, layers: seq<Layer>)
  {
    a.layer < |layers| && a.rect in layers[a.layer].live
  }

  /**
   * `a` lies in the layer of the `n`-th least recently used id of `l0`
   * (counting from one), as that id's slot in `s0` records it.
   */
  ghost predicate InLayerOfEvicted<K, D>(a: Allocation<D>, s0: map<nat, Entry<K, D>>, l0: seq<nat>, n: nat)
  {
    0 < n <= |l0| && l0[n - 1] in s0 && a.layer == s0[l0[n - 1]].allocation.layer
  }

  /**
   * `layers` after the first `n` ids of the recency order `l0`, oldest first,
   * gave their rectangles back to the layers their slots in `s0` name, each
   * layer also forgetting the id. An id without a slot, or naming no layer,
   * changes nothing.
   */
  ghost function AfterEvictions<K, D>(layers: seq<Layer>, s0: map<nat, Entry<K, D>>, l0: seq<nat>, n: nat)
    : (r: seq<Layer>)
    ensures |r| == |layers|
  {
    if n == 0 || |l0| < n then layers
    else
      var prev := AfterEvictions(layers, s0, l0, n - 1);
      var id := l0[n - 1];
      if id in s0 && s0[id].allocation.layer < |prev| then
        var a := s0[id].allocation;
        prev[a.layer := Deallocated(prev[a.layer], id, a.rect)]
      else prev
  }

  /**
   * What the retry after the `k`-th eviction (counting from zero) of the
   * recency order `l0` yields: the allocator's answer for the layer that
   * eviction freed, in the layers left by the first `k + 1` evictions.
   */
  ghost function RetryAfter<K, D>(place: Placer, size: nat, width: nat, height: nat,
                                  layers0: seq<Layer>, s0: map<nat, Entry<K, D>>, l0: seq<nat>, k: nat): Option<Rect>
  {
    if k < |l0| && l0[k] in s0 && s0[l0[k]].allocation.layer < |layers0| then
      place(AfterEvictions(layers0, s0, l0, k + 1)[s0[l0[k]].allocation.layer].live, size, width, height)
    else None
  }

  /** The retries after each of the first `n` evictions of `l0` all found no room. */
  ghost predicate RetriesRefused<K, D>(place: Placer, size: nat, width: nat, height: nat,
                                       layers0: seq<Layer>, s0: map<nat, Entry<K, D>>, l0: seq<nat>, n: nat)
  {
    forall k :: 0 <= k < n ==> RetryAfter(place, size, width, height, layers0, s0, l0, k).None?
  }

  /** `layers` with layer `l` also listing `id`. */
  function Listed(layers: seq<Layer>, l: nat, id: nat): (r: seq<Layer>)
    ensures |r| == |layers|
    ensures l < |layers| ==> r[l].ids == layers[l].ids + {id} && r[l].live == layers[l].live
    ensures forall j :: 0 <= j < |layers| && j != l ==> r[j] == layers[j]
  {
    if l < |layers| then layers[l := layers[l].(ids := layers[l].ids + {id})] else layers
  }

  /**
   * The layers after `allocate` on `layers0`, given its result `placed`, the
   * number `evicted` of least recently used ids of `l0` it removed, and
   * whether it reached the new-layer step: the evictions' frees, then the
   * placed rectangle in its layer, or in a new last layer.
   */
  ghost function LayersAfterAllocation<K, D>(layers0: seq<Layer>, s0: map<nat, Entry<K, D>>, l0: seq<nat>,
                                             evicted: nat, placed: Option<Allocation<D>>, reachedNewLayer: bool)
    : (r: seq<Layer>)
    ensures |r| == |layers0| + (if placed.Some? && reachedNewLayer then 1 else 0)
  {
    var freed := AfterEvictions(layers0, s0, l0, evicted);
    if placed.None? then freed
    else if reachedNewLayer then freed + [Allocated(NewLayer(), placed.value.rect)]
    else if placed.value.layer < |freed| then
      freed[placed.value.layer := Allocated(freed[placed.value.layer], placed.value.rect)]
    else freed
  }

  /**
   * The bookkeeping `layers1` ... `u1` is `layers0` ... `u0` after the live id
   * `id` was freed: its slot, key, cache entry and frame mark are gone, its
   * layer took the rectangle back and forgot the id, and `r` reports that layer.
   */
  ghost predicate Freed<K, D>(id: nat, r: Option<nat>,
                              layers0: seq<Layer>, store0: map<nat, Entry<K, D>>, lookup0: map<K, nat>,
                              lru0: seq<nat>, c0: map<nat, nat>, u0: set<nat>,
                              layers1: seq<Layer>, store1: map<nat, Entry<K, D>>, lookup1: map<K, nat>,
                              lru1: seq<nat>, c1: map<nat, nat>, u1: set<nat>)
  {
    && id in store0
    && var e := store0[id];
    && e.allocation.layer < |layers0|
    && r == Some(e.allocation.layer)
    && layers1 == layers0[e.allocation.layer := Deallocated(layers0[e.allocation.layer], id, e.allocation.rect)]
    && store1 == store0 - {id} && lookup1 == lookup0 - {e.key} && lru1 == Without(lru0, id)
    && c1 == c0 - {id} && u1 == u0 - {id}
  }

  /**
   * `id` was just recorded with `entry`: its slot holds the entry, the entry's
   * key leads to it, its count is one, it is the most recently used, and its
   * layer lists it.
   */
  ghost predicate Recorded<K, D>(id: nat, entry: Entry<K, D>, store: map<nat, Entry<K, D>>, lookup: map<K, nat>,
                                 lru: seq<nat>, refCounts: map<nat, nat>, layers: seq<Layer>)
  {
    && id in store && store[id] == entry
    && entry.key in lookup && lookup[entry.key] == id
    && id in refCounts && refCounts[id] == 1
    && lru != [] && lru[|lru| - 1] == id
    && entry.allocation.layer < |layers| && id in layers[entry.allocation.layer].ids
  }

  /**
   * What steps 3 and 4 of `allocate(width, height, data)` return, for a set
   * with layers `layers0`, store `store0`, recency order `lru0` and frame set
   * `u0` whose existing layers had no room, where `evicted` counts the least
   * recently used ids the eviction loop removed and `reachedNewLayer` says
   * that a new layer was considered:
   *   - in reference-counted mode nothing is evicted and a new layer is
   *     considered at once; an evicted id was never used this frame;
   *   - outside that mode, an empty cache ends the call with None;
   *   - a new layer is considered only after the loop met an id used this
   *     frame (or in reference-counted mode), and it is kept exactly when the
   *     layer count plus one is not the limit and the empty layer has room;
   *   - a placement the eviction loop found lies in the layer of the last id
   *     it removed and is what that layer's allocator gave after the removal,
   *     every earlier retry having found no room;
   *   - otherwise every retry found no room, and a loop that gave up without
   *     meeting a used id emptied the cache.
   */
  ghost predicate RoomMade<K, D>(place: Placer, size: nat, maxLayers: nat, useRefCount: bool,
                                 layers0: seq<Layer>, store0: map<nat, Entry<K, D>>, lru0: seq<nat>,
                                 u0: set<nat>, width: nat, height: nat, data: D,
                                 r: Option<Allocation<D>>, evicted: nat, reachedNewLayer: bool)
  {
    && (useRefCount ==> evicted == 0 && reachedNewLayer)
    && evicted <= |lru0| && (forall id :: id in lru0[..evicted] ==> id !in u0)
    && (!useRefCount && lru0 == [] ==> r == None && !reachedNewLayer)
    && (reachedNewLayer ==>
          && (!useRefCount ==> evicted < |lru0| && lru0[evicted] in u0)
          && (r.Some? <==> |layers0| + 1 != maxLayers && place(multiset{}, size, width, height).Some?))
    && (reachedNewLayer && r.Some? ==>
          r.value == Allocation(place(multiset{}, size, width, height).value, |layers0|, data))
    && (!reachedNewLayer && r.Some? ==>
          && InLayerOfEvicted(r.value, store0, lru0, evicted)
          && RetriesRefused(place, size, width, height, layers0, store0, lru0, evicted - 1)
          && RetryAfter(place, size, width, height, layers0, store0, lru0, evicted - 1) == Some(r.value.rect))
    && (r.None? || reachedNewLayer ==> RetriesRefused(place, size, width, height, layers0, store0, lru0, evicted))
    && (!reachedNewLayer && r.None? ==> evicted == |lru0|)
    && (r.Some? ==> r.value.data == data)
  }

  /**
   * What `allocate(width, height, data)` returns: a request larger than a
   * layer fails at once; otherwise the first existing layer with room takes
   * it; failing that, the result is that of eviction and a new layer, as
   * `RoomMade` describes.
   */
  ghost predicate AllocationOutcome<K, D>(place: Placer, size: nat, maxLayers: nat, useRefCount: bool,
                                          layers0: seq<Layer>, store0: map<nat, Entry<K, D>>, lru0: seq<nat>,
                                          u0: set<nat>, width: nat, height: nat, data: D,
                                          r: Option<Allocation<D>>, evicted: nat, reachedNewLayer: bool)
  {
    var fits := width <= size && height <= size;
    var first := FirstFit(layers0, place, size, width, height);
    && (!fits ==> r == None && evicted == 0 && !reachedNewLayer)
    && (fits && first.Some? ==>
          && r == Some(Allocation(place(layers0[first.value].live, size, width, height).value, first.value, data))
          && evicted == 0 && !reachedNewLayer)
    && (fits && first.None? ==>
          RoomMade(place, size, maxLayers, useRefCount, layers0, store0, lru0, u0, width, height, data,
                   r, evicted, reachedNewLayer))
  }

  /**
   * The collections of an atlas set agree: `lookup` and `store` are inverse
   * to each other, the cache holds exactly the live ids, each once and with a
   * positive count, and every live allocation names an existing layer that
   * records its id. (`lastUsed` is not constrained: `promote` adds any id.)
   */
  ghost predicate Books<K(!new), D>(layers: seq<Layer>, store: map<nat, Entry<K, D>>, lookup: map<K, nat>,
                                    lru: seq<nat>, refCounts: map<nat, nat>)
  {
    && (forall id {:trigger store[id]} :: id in store ==> store[id].key in lookup && lookup[store[id].key] == id)
    && (forall key {:trigger lookup[key]} :: key in lookup ==> lookup[key] in store && store[lookup[key]].key == key)
    && refCounts.Keys == store.Keys
    && (forall id {:trigger refCounts[id]} :: id in refCounts ==> refCounts[id] >= 1)
    && Distinct(lru)
    && (forall id :: id in lru <==> id in store)
    && (forall id {:trigger store[id]} :: id in store ==> store[id].allocation.layer < |layers|)
    && (forall id {:trigger store[id]} :: id in store ==> id in layers[store[id].allocation.layer].ids)
  }

  /** Freeing a live slot everywhere, and giving its rectangle back to its layer, keeps the books consistent. */
  lemma RemovalKeepsBooks<K(!new), D>(layers: seq<Layer>, store: map<nat, Entry<K, D>>, lookup: map<K, nat>,
                                      lru: seq<nat>, refCounts: map<nat, nat>, id: nat)
    requires Books(layers, store, lookup, lru, refCounts)
    requires id in store
    ensures var e := store[id];
      Books(layers[e.allocation.layer := Deallocated(layers[e.allocation.layer], id, e.allocation.rect)],
            store - {id}, lookup - {e.key}, Without(lru, id), refCounts - {id})
  {
    var e := store[id];
    var l := e.allocation.layer;
    var layers' := layers[l := Deallocated(layers[l], id, e.allocation.rect)];
    var store', lookup' := store - {id}, lookup - {e.key};
    forall other | other in store' ensures other in layers'[store'[other].allocation.layer].ids {
      assert other != id && store'[other] == store[other];
    }
    forall key | key in lookup' ensures lookup'[key] in store' && store'[lookup'[key]].key == key {
      assert lookup[key] != id;
    }
  }

  /** Re-pushing a live id as the most recent with a new positive count keeps the books consistent. */
  lemma RecountKeepsBooks<K(!new), D>(layers: seq<Layer>, store: map<nat, Entry<K, D>>, lookup: map<K, nat>,
                                      lru: seq<nat>, refCounts: map<nat, nat>, id: nat, count: nat)
    requires Books(layers, store, lookup, lru, refCounts)
    requires id in store && count >= 1
    ensures Books(layers, store, lookup, Without(lru, id) + [id], refCounts[id := count])
  {
    DistinctAppend(Without(lru, id), id);
  }

  /** Handing out a rectangle in an existing layer leaves the ids on every layer as they were. */
  lemma AllocationKeepsBooks<K(!new), D>(layers: seq<Layer>, store: map<nat, Entry<K, D>>, lookup: map<K, nat>,
                                         lru: seq<nat>, refCounts: map<nat, nat>, i: nat, rect: Rect)
    requires Books(layers, store, lookup, lru, refCounts)
    requires i < |layers|
    ensures Books(layers[i := Allocated(layers[i], rect)], store, lookup, lru, refCounts)
  {
    var layers' := layers[i := Allocated(layers[i], rect)];
    assert forall j :: 0 <= j < |layers| ==> layers'[j].ids == layers[j].ids;
  }

  /** Appending a layer keeps every live allocation's layer index valid. */
  lemma NewLayerKeepsBooks<K(!new), D>(layers: seq<Layer>, store: map<nat, Entry<K, D>>, lookup: map<K, nat>,
                                       lru: seq<nat>, refCounts: map<nat, nat>, layer: Layer)
    requires Books(layers, store, lookup, lru, refCounts)
    ensures Books(layers + [layer], store, lookup, lru, refCounts)
  {
    assert forall j :: 0 <= j < |layers| ==> (layers + [layer])[j] == layers[j];
  }

  /**
   * The bookkeeping `layers1` ... `c1` is `layers0` ... `c0` with `entry`
   * recorded under `id`: in its slot, under its key, on its layer, and as the
   * most recent cache entry with count one.
   */
  ghost predicate Inserted<K, D>(id: nat, entry: Entry<K, D>,
                                 layers0: seq<Layer>, store0: map<nat, Entry<K, D>>, lookup0: map<K, nat>,
                                 lru0: seq<nat>, c0: map<nat, nat>,
                                 layers1: seq<Layer>, store1: map<nat, Entry<K, D>>, lookup1: map<K, nat>,
                                 lru1: seq<nat>, c1: map<nat, nat>)
  {
    var l := entry.allocation.layer;
    && l < |layers0|
    && layers1 == Listed(layers0, l, id)
    && store1 == store0[id := entry] && lookup1 == lookup0[entry.key := id]
    && lru1 == lru0 + [id] && c1 == c0[id := 1]
  }

  /**
   * Recording a new slot under a vacant id and an unused key, with count one
   * and as the most recent cache entry, keeps the books consistent.
   */
  lemma InsertionKeepsBooks<K(!new), D>(id: nat, entry: Entry<K, D>,
                                        layers0: seq<Layer>, store0: map<nat, Entry<K, D>>, lookup0: map<K, nat>,
                                        lru0: seq<nat>, c0: map<nat, nat>,
                                        layers1: seq<Layer>, store1: map<nat, Entry<K, D>>, lookup1: map<K, nat>,
                                        lru1: seq<nat>, c1: map<nat, nat>)
    requires Books(layers0, store0, lookup0, lru0, c0)
    requires id !in store0 && entry.key !in lookup0
    requires Inserted(id, entry, layers0, store0, lookup0, lru0, c0, layers1, store1, lookup1, lru1, c1)
    ensures Books(layers1, store1, lookup1, lru1, c1)
    ensures Recorded(id, entry, store1, lookup1, lru1, c1, layers1)
  {
    assert forall j :: 0 <= j < |layers0| ==> layers0[j].ids <= layers1[j].ids;
    assert id !in lru0;
    DistinctAppend(lru0, id);
  }

  /** Taking the least recent id out of a duplicate-free recency order leaves the rest in order. */
  lemma WithoutOldest(s: seq<nat>)
    requires s != [] && Distinct(s)
    ensures Without(s, s[0]) == s[1..]
  {
  }

  /** Moving the split point of a sequence one place to the right. */
  lemma PrefixStep(s: seq<nat>, k: nat)
    requires k < |s|
    ensures s[..k + 1] == s[..k] + [s[k]]
    ensures s[k..][1..] == s[k + 1..]
  {
    assert s[..k + 1] == s[..k] + [s[k]];
  }

  /**
   * Evicting one more live id, `id`, that was live at the start extends an
   * eviction record by that id.
   */
  lemma EvictionStep<K(!new), D>(s0: map<nat, Entry<K, D>>, k0: map<K, nat>, c0: map<nat, nat>, gone: seq<nat>,
                                 layers: seq<Layer>, store: map<nat, Entry<K, D>>, lookup: map<K, nat>,
                                 lru: seq<nat>, refCounts: map<nat, nat>, id: nat)
    requires BooksAfterEviction(s0, k0, c0, gone, store, lookup, refCounts)
    requires Books(layers, store, lookup, lru, refCounts)
    requires id in store
    ensures BooksAfterEviction(s0, k0, c0, gone + [id], store - {id}, lookup - {store[id].key}, refCounts - {id})
  {
    var key := store[id].key;
    forall k | k in lookup - {key} ensures k0[k] != id {
      assert lookup[k] == k0[k] && lookup[k] in store && store[lookup[k]].key == k;
    }
    forall k | k in k0 && k0[k] !in gone + [id] ensures k in lookup - {key} {
      assert k in lookup;
    }
  }

  /**
   * Freeing the least recently used id, when it was not used this frame,
   * extends by that id a run of oldest ids evicted since `s0` ... `u0`.
   */
  lemma EvictionExtends<K(!new), D>(s0: map<nat, Entry<K, D>>, k0: map<K, nat>, c0: map<nat, nat>,
                                    l0: seq<nat>, u0: set<nat>, n: nat,
                                    layers: seq<Layer>, store: map<nat, Entry<K, D>>, lookup: map<K, nat>,
                                    lru: seq<nat>, refCounts: map<nat, nat>, lastUsed: set<nat>,
                                    layers1: seq<Layer>, store1: map<nat, Entry<K, D>>, lookup1: map<K, nat>,
                                    lru1: seq<nat>, c1: map<nat, nat>, u1: set<nat>, r: Option<nat>)
    requires Books(layers, store, lookup, lru, refCounts)
    requires EvictedOldest(s0, k0, c0, l0, u0, n, store, lookup, lru, refCounts, lastUsed)
    requires lru != [] && lru[0] !in lastUsed
    requires Freed(lru[0], r, layers, store, lookup, lru, refCounts, lastUsed,
                   layers1, store1, lookup1, lru1, c1, u1)
    ensures EvictedOldest(s0, k0, c0, l0, u0, n + 1, store1, lookup1, lru1, c1, u1)
    ensures n < |l0| && l0[n] in s0 && r == Some(s0[l0[n]].allocation.layer)
    ensures var a := s0[l0[n]].allocation;
      a.layer < |layers| && layers1 == layers[a.layer := Deallocated(layers[a.layer], l0[n], a.rect)]
  {
    var id := lru[0];
    assert id in lru && store[id] == s0[id];
    EvictionStep(s0, k0, c0, l0[..n], layers, store, lookup, lru, refCounts, id);
    PrefixStep(l0, n);
    WithoutOldest(lru);
  }

  /**
   * Evicting the `n` oldest ids only forgets: every key still known was known
   * before, and a slot live before but vacant now is among the evicted.
   */
  lemma EvictionOnlyForgets<K(!new), D>(s0: map<nat, Entry<K, D>>, k0: map<K, nat>, c0: map<nat, nat>,
                                        l0: seq<nat>, u0: set<nat>, n: nat,
                                        store: map<nat, Entry<K, D>>, lookup: map<K, nat>,
                                        lru: seq<nat>, refCounts: map<nat, nat>, lastUsed: set<nat>)
    requires EvictedOldest(s0, k0, c0, l0, u0, n, store, lookup, lru, refCounts, lastUsed)
    ensures forall key :: key in lookup ==> key in k0
    ensures forall id :: id in s0 && id !in store ==> id in l0[..n]
  {
  }

  /**
   * Relative to an earlier state `s0` ... `u0`: the `n` least recently used
   * ids, none of them used this frame, were evicted, and then `entry` was
   * recorded under `id` as the most recent cache entry with count one. Apart
   * from `id` and its key, the store, lookup table and counts are the old ones
   * without the evicted ids; `id` itself was vacant unless it was evicted.
   */
  ghost predicate Uploaded<K(!new), D>(id: nat, entry: Entry<K, D>,
                                       s0: map<nat, Entry<K, D>>, k0: map<K, nat>, c0: map<nat, nat>,
                                       l0: seq<nat>, u0: set<nat>, n: nat,
                                       store: map<nat, Entry<K, D>>, lookup: map<K, nat>,
                                       lru: seq<nat>, refCounts: map<nat, nat>, lastUsed: set<nat>)
  {
    && n <= |l0| && lru == l0[n..] + [id] && lastUsed == u0
    && (forall i :: i in l0[..n] ==> i !in u0)
    && id in store && store[id] == entry
    && entry.key in lookup && lookup[entry.key] == id
    && id in refCounts && refCounts[id] == 1
    && (id in s0 ==> id in l0[..n])
    && BooksAfterEviction(s0, k0, c0, l0[..n], store - {id}, lookup - {entry.key}, refCounts - {id})
  }

  /** An eviction run followed by the insertion of a vacant id under an unknown key is an upload. */
  lemma EvictionThenInsertion<K(!new), D>(id: nat, entry: Entry<K, D>,
                                          s0: map<nat, Entry<K, D>>, k0: map<K, nat>, c0: map<nat, nat>,
                                          l0: seq<nat>, u0: set<nat>, n: nat,
                                          layers1: seq<Layer>, store1: map<nat, Entry<K, D>>, lookup1: map<K, nat>,
                                          lru1: seq<nat>, c1: map<nat, nat>, u1: set<nat>,
                                          layers: seq<Layer>, store: map<nat, Entry<K, D>>, lookup: map<K, nat>,
                                          lru: seq<nat>, refCounts: map<nat, nat>)
    requires EvictedOldest(s0, k0, c0, l0, u0, n, store1, lookup1, lru1, c1, u1)
    requires id !in store1 && id !in c1 && entry.key !in lookup1
    requires Inserted(id, entry, layers1, store1, lookup1, lru1, c1, layers, store, lookup, lru, refCounts)
    ensures Uploaded(id, entry, s0, k0, c0, l0, u0, n, store, lookup, lru, refCounts, u1)
  {
    assert store - {id} == store1;
    assert lookup - {entry.key} == lookup1;
    assert refCounts - {id} == c1;
  }

  class AtlasSet<K(==, !new), D> {
    /** Side length of every layer. */
    const size: nat
    /** The device's limit on the number of layers of a texture array. */
    const maxLayers: nat
    /** Reference-counted mode: ids are freed only by `Remove`, never evicted. */
    const useRefCount: bool
    /** The packing strategy shared by every layer's allocator. */
    const place: Placer

    var layers: seq<Layer>
    var store: map<nat, Entry<K, D>>
    var lookup: map<K, nat>
    /** The cache's recency order, least recently used first. */
    var lru: seq<nat>
    /** The cache's values: the reference count of every cached id. */
    var refCounts: map<nat, nat>
    var lastUsed: set<nat>

    /** The collections agree (see `Books`) and the layer size was clamped. */
    ghost predicate Valid()
      reads this
    {
      MIN_SIZE <= size && Books(layers, store, lookup, lru, refCounts)
    }

    /**
     * `AtlasSet::new`: the size is clamped to [256, maxDimension], there is one
     * empty layer (two on the GL backend), and every collection is empty.
     */
    constructor (useRefCount: bool, size: nat, maxDimension: nat, maxArrayLayers: nat,
                 glBackend: bool, place: Placer)
      requires MIN_SIZE <= maxDimension
      ensures Valid()
      ensures this.size == ClampSize(size, maxDimension)
      ensures maxLayers == maxArrayLayers && this.useRefCount == useRefCount && this.place == place
      ensures layers == if glBackend then [NewLayer(), NewLayer()] else [NewLayer()]
      ensures store == map[] && lookup == map[] && lru == [] && refCounts == map[] && lastUsed == {}
    {
      this.size := ClampSize(size, maxDimension);
      maxLayers := maxArrayLayers;
      this.useRefCount := useRefCount;
      this.place := place;
      layers := if glBackend then [NewLayer(), NewLayer()] else [NewLayer()];
      store, lookup, lru, refCounts, lastUsed := map[], map[], [], map[], {};
    }

    /** `size()`: width, height and number of layers. */
    function Size(): (r: (nat, nat, nat))
      reads this
      requires Valid()
      ensures r.0 == r.1 == size && MIN_SIZE <= r.0
      ensures r.2 == |layers|
    {
      (size, size, |layers|)
    }

    /** `lookup(key)`: the id uploaded under `key`, if it is live. */
    function Lookup(key: K): (r: Option<nat>)
      reads this
      requires Valid()
      ensures r.Some? <==> key in lookup
      ensures r.Some? ==> r.value in store && store[r.value].key == key
    {
      if key in lookup then Some(lookup[key]) else None
    }

    /** `contains_key(key)`: a key is known exactly when some live slot was uploaded under it. */
    function ContainsKey(key: K): (r: bool)
      reads this
      requires Valid()
      ensures r <==> exists id :: id in store && store[id].key == key
    {
      assert key in lookup ==> lookup[key] in store && store[lookup[key]].key == key;
      key in lookup
    }

    /** `contains(id)`: a live id is also cached, and its key leads back to it. */
    function Contains(id: nat): (r: bool)
      reads this
      requires Valid()
      ensures r <==> id in store
      ensures r ==> id in lru && id in refCounts && lookup[store[id].key] == id
    {
      id in store
    }

    /** `peek(id)`: the slot of a live id, without touching recency. */
    function Peek(id: nat): (r: Option<Entry<K, D>>)
      reads this
      requires Valid()
      ensures r.Some? <==> id in store
      ensures r.Some? ==> r.value == store[id] && lookup[r.value.key] == id
      ensures r.Some? ==> r.value.allocation.layer < |layers|
    {
      if id in store then Some(store[id]) else None
    }

    /** `peek_by_key(key)`: the slot uploaded under `key`, without touching recency. */
    function PeekByKey(key: K): (r: Option<Entry<K, D>>)
      reads this
      requires Valid()
      ensures r.Some? <==> key in lookup
      ensures r.Some? ==> r.value.key == key && r.value.allocation.layer < |layers|
      ensures r.Some? ==> exists id :: id in store && store[id] == r.value
    {
      if key in lookup && lookup[key] in store then Some(store[lookup[key]]) else None
    }

    /** `trim()`: the frame boundary forgets which ids were used. */
    method Trim()
      requires Valid()
      modifies this
      ensures Valid()
      ensures lastUsed == {}
      ensures layers == old(layers) && store == old(store) && lookup == old(lookup)
      ensures lru == old(lru) && refCounts == old(refCounts)
    {
      lastUsed := {};
    }

    /**
     * `clear()`: every layer's allocator is reset and all bookkeeping is
     * emptied; the layers themselves (and the ids recorded on them) stay.
     */
    method Clear()
      requires Valid()
      modifies this
      ensures Valid()
      ensures store == map[] && lookup == map[] && lru == [] && refCounts == map[] && lastUsed == {}
      ensures |layers| == |old(layers)|
      ensures forall i :: 0 <= i < |layers| ==> layers[i] == old(layers)[i].(live := multiset{})
    {
      var i := 0;
      while i < |layers|
        invariant 0 <= i <= |layers| == |old(layers)|
        invariant forall j :: 0 <= j < i ==> layers[j] == old(layers)[j].(live := multiset{})
        invariant forall j :: i <= j < |layers| ==> layers[j] == old(layers)[j]
      {
        layers := layers[i := layers[i].(live := multiset{})];
        i := i + 1;
      }
      store, lookup, lru, refCounts, lastUsed := map[], map[], [], map[], {};
    }

    /**
     * `promote(id)`: a cached id becomes the most recently used; the id is
     * marked used this frame whether or not it is live.
     */
    method Promote(id: nat)
      requires Valid()
      modifies this
      ensures Valid()
      ensures lru == Promoted(old(lru), id) && lastUsed == old(lastUsed) + {id}
      ensures layers == old(layers) && store == old(store) && lookup == old(lookup)
      ensures refCounts == old(refCounts)
    {
      lru := Promoted(lru, id);
      lastUsed := lastUsed + {id};
    }

    /** `promote_by_key(key)`: `Promote` on the key's id; an unknown key changes nothing. */
    method PromoteByKey(key: K)
      requires Valid()
      modifies this
      ensures Valid()
      ensures key !in old(lookup) ==> unchanged(this)
      ensures key in old(lookup) ==>
        var id := old(lookup)[key];
        && lru == Promoted(old(lru), id) && lru[|lru| - 1] == id
        && lastUsed == old(lastUsed) + {id}
      ensures layers == old(layers) && store == old(store) && lookup == old(lookup)
      ensures refCounts == old(refCounts)
    {
      if key in lookup {
        Promote(lookup[key]);
      }
    }

    /**
     * `get(id)`: on a live id, a copy of its allocation, with the id made most
     * recent and marked used this frame; otherwise None and nothing changes.
     */
    method Get(id: nat) returns (r: Option<Allocation<D>>)
      requires Valid()
      modifies this
      ensures Valid()
      ensures id !in old(store) ==> r == None && unchanged(this)
      ensures id in old(store) ==>
        && r == Some(old(store)[id].allocation)
        && lru == Promoted(old(lru), id) && lru[|lru| - 1] == id
        && lastUsed == old(lastUsed) + {id}
      ensures layers == old(layers) && store == old(store) && lookup == old(lookup)
      ensures refCounts == old(refCounts)
    {
      if id in store {
        lru := Promoted(lru, id);
        lastUsed := lastUsed + {id};
        return Some(store[id].allocation);
      }
      return None;
    }

    /** `get_by_key(key)`: `Get` on the key's id; an unknown key gives None and changes nothing. */
    method GetByKey(key: K) returns (r: Option<Allocation<D>>)
      requires Valid()
      modifies this
      ensures Valid()
      ensures key !in old(lookup) ==> r == None && unchanged(this)
      ensures key in old(lookup) ==>
        var id := old(lookup)[key];
        && r == Some(old(store)[id].allocation) && old(store)[id].key == key
        && lru == Promoted(old(lru), id) && lru[|lru| - 1] == id
        && lastUsed == old(lastUsed) + {id}
      ensures layers == old(layers) && store == old(store) && lookup == old(lookup)
      ensures refCounts == old(refCounts)
    {
      if key !in lookup {
        return None;
      }
      r := Get(lookup[key]);
    }

    /**
     * What `remove(id)` does: an uncached id changes nothing; in
     * reference-counted mode a count above one is decremented and the id made
     * most recent; otherwise the slot is freed everywhere and its layer
     * (which takes the rectangle back) is reported.
     */
    twostate predicate RemoveEffect(id: nat, new r: Option<nat>)
      reads this
    {
      if id !in old(refCounts) then
        && r == None
        && layers == old(layers) && store == old(store) && lookup == old(lookup)
        && lru == old(lru) && refCounts == old(refCounts) && lastUsed == old(lastUsed)
      else if useRefCount && old(refCounts)[id] > 1 then
        && r == None
        && refCounts == old(refCounts)[id := old(refCounts)[id] - 1]
        && lru == Without(old(lru), id) + [id]
        && layers == old(layers) && store == old(store) && lookup == old(lookup)
        && lastUsed == old(lastUsed)
      else
        Freed(id, r, old(layers), old(store), old(lookup), old(lru), old(refCounts), old(lastUsed),
              layers, store, lookup, lru, refCounts, lastUsed)
    }

    /** `remove(id)`. */
    method Remove(id: nat) returns (r: Option<nat>)
      requires Valid()
      modifies this
      ensures Valid()
      ensures RemoveEffect(id, r)
    {
      if id !in refCounts {
        return None;
      }
      // `cache.pop(&id)`, then `saturating_sub(1)`: cached counts are at least one.
      var refcount := refCounts[id] - 1;
      if useRefCount && refcount > 0 {
        // pushed back as the most recent entry
        RecountKeepsBooks(layers, store, lookup, lru, refCounts, id, refcount);
        lru, refCounts := Without(lru, id) + [id], refCounts[id := refcount];
        return None;
      }
      r := Free(id);
    }

    /** The last reference to a live id is gone: its slot is freed everywhere and its layer reported. */
    method Free(id: nat) returns (r: Option<nat>)
      requires Valid() && id in store
      modifies this
      ensures Valid()
      ensures Freed(id, r, old(layers), old(store), old(lookup), old(lru), old(refCounts), old(lastUsed),
                    layers, store, lookup, lru, refCounts, lastUsed)
    {
      var entry := store[id];
      var l := entry.allocation.layer;
      RemovalKeepsBooks(layers, store, lookup, lru, refCounts, id);
      layers, store, lookup, lru, refCounts, lastUsed :=
        layers[l := Deallocated(layers[l], id, entry.allocation.rect)],
        store - {id}, lookup - {entry.key}, Without(lru, id), refCounts - {id}, lastUsed - {id};
      return Some(l);
    }

    /** `remove_by_key(key)`: `Remove` on the key's id; an unknown key gives None and changes nothing. */
    method RemoveByKey(key: K) returns (r: Option<nat>)
      requires Valid()
      modifies this
      ensures Valid()
      ensures key !in old(lookup) ==> r == None && unchanged(this)
      ensures key in old(lookup) ==> old(lookup)[key] in old(store) && RemoveEffect(old(lookup)[key], r)
    {
      if key !in lookup {
        return None;
      }
      r := Remove(lookup[key]);
    }

    /**
     * `allocate(width, height, data)`: place a rectangle.
     *   1. A request wider or taller than a layer fails and changes nothing.
     *   2. Otherwise the first existing layer whose allocator has room takes it.
     *   3. Failing that, and only outside reference-counted mode, the least
     *      recently used ids are removed one by one, oldest first, each time
     *      retrying in the layer the removed id freed; the loop returns None
     *      once the cache is empty and stops at the first id used this frame.
     *   4. Then a new layer is created unless the layer count plus one equals
     *      the layer limit, and kept only if its allocator can place the request.
     * `evicted` counts the ids removed in step 3; `reachedNewLayer` says that step 4 ran.
     */
    method Allocate(width: nat, height: nat, data: D)
      returns (r: Option<Allocation<D>>, ghost evicted: nat, ghost reachedNewLayer: bool)
      requires Valid()
      modifies this
      ensures Valid()
      ensures AllocationOutcome(place, size, maxLayers, useRefCount, old(layers), old(store), old(lru), old(lastUsed),
                                width, height, data, r, evicted, reachedNewLayer)
      // the bookkeeping loses exactly the `evicted` least recently used ids, none of them used this frame
      ensures EvictedOldest(old(store), old(lookup), old(refCounts), old(lru), old(lastUsed), evicted,
                            store, lookup, lru, refCounts, lastUsed)
      ensures width > size || height > size ==> unchanged(this)
      ensures !useRefCount && width <= size && height <= size &&
              FirstFit(old(layers), place, size, width, height).None? && old(lru) == [] ==>
        unchanged(this)
      ensures width <= size && height <= size && FirstFit(old(layers), place, size, width, height).Some? ==>
        var i := FirstFit(old(layers), place, size, width, height).value;
        && layers == old(layers)[i := Allocated(old(layers)[i], r.value.rect)]
        && store == old(store) && lookup == old(lookup) && lru == old(lru) && refCounts == old(refCounts)
        && lastUsed == old(lastUsed)
      // the layers: the evicted ids' frees, then the placement in its layer or in a new last layer
      ensures layers == LayersAfterAllocation(old(layers), old(store), old(lru), evicted, r, reachedNewLayer)
      ensures r.Some? ==> PlacedIn(r.value, layers)
    {
      if width > size || height > size {
        return None, 0, false;
      }
      r := TryExistingLayers(width, height, data);
      if r.Some? {
        return r, 0, false;
      }
      r, evicted, reachedNewLayer := MakeRoom(width, height, data);
    }

    /**
     * Steps 3 and 4 of `Allocate`, once no existing layer has room: evict
     * outside reference-counted mode, then, if the loop met an id used this
     * frame or in reference-counted mode, try a new layer.
     */
    method MakeRoom(width: nat, height: nat, data: D)
      returns (r: Option<Allocation<D>>, ghost evicted: nat, ghost reachedNewLayer: bool)
      requires Valid()
      modifies this
      ensures Valid()
      ensures RoomMade(place, size, maxLayers, useRefCount, old(layers), old(store), old(lru), old(lastUsed),
                       width, height, data, r, evicted, reachedNewLayer)
      ensures EvictedOldest(old(store), old(lookup), old(refCounts), old(lru), old(lastUsed), evicted,
                            store, lookup, lru, refCounts, lastUsed)
      ensures !useRefCount && old(lru) == [] ==> unchanged(this)
      ensures layers == LayersAfterAllocation(old(layers), old(store), old(lru), evicted, r, reachedNewLayer)
    {
      evicted := 0;
      if !useRefCount {
        var blocked;
        r, evicted, blocked := EvictForRoom(width, height, data);
        if !blocked {
          return r, evicted, false;
        }
      }
      reachedNewLayer := true;
      r := TryNewLayer(width, height, data);
    }

    /** Step 2 of `Allocate`: the first existing layer with room, in index order. */
    method TryExistingLayers(width: nat, height: nat, data: D) returns (r: Option<Allocation<D>>)
      requires Valid()
      modifies this
      ensures Valid()
      ensures FirstFit(old(layers), place, size, width, height).None? ==> r == None && unchanged(this)
      ensures FirstFit(old(layers), place, size, width, height).Some? ==>
        var i := FirstFit(old(layers), place, size, width, height).value;
        var rect := place(old(layers)[i].live, size, width, height).value;
        && r == Some(Allocation(rect, i, data))
        && layers == old(layers)[i := Allocated(old(layers)[i], rect)]
      ensures store == old(store) && lookup == old(lookup) && lru == old(lru) && refCounts == old(refCounts)
      ensures lastUsed == old(lastUsed)
    {
      var i := 0;
      while i < |layers|
        invariant 0 <= i <= |layers|
        invariant forall j :: 0 <= j < i ==> place(layers[j].live, size, width, height).None?
      {
        var p := place(layers[i].live, size, width, height);
        if p.Some? {
          AllocationKeepsBooks(layers, store, lookup, lru, refCounts, i, p.value);
          layers := layers[i := Allocated(layers[i], p.value)];
          return Some(Allocation(p.value, i, data));
        }
        i := i + 1;
      }
      return None;
    }

    /**
     * Step 3 of `Allocate`: remove the least recently used id and retry in
     * its layer, until a placement succeeds (`r` is Some), the cache runs
     * empty (None, not `blocked`) or the oldest id was used this frame
     * (None, `blocked`).
     */
    method EvictForRoom(width: nat, height: nat, data: D)
      returns (r: Option<Allocation<D>>, ghost evicted: nat, blocked: bool)
      requires Valid() && !useRefCount
      modifies this
      ensures Valid()
      ensures EvictedOldest(old(store), old(lookup), old(refCounts), old(lru), old(lastUsed), evicted,
                            store, lookup, lru, refCounts, lastUsed)
      ensures old(lru) == [] ==> r == None && !blocked && unchanged(this)
      ensures blocked ==> r == None && evicted < |old(lru)| && old(lru)[evicted] in old(lastUsed)
      ensures !blocked && r.None? ==> evicted == |old(lru)|
      // without a placement, every retry found no room and the layers are the evictions' frees
      ensures r.None? ==>
        && RetriesRefused(place, size, width, height, old(layers), old(store), old(lru), evicted)
        && layers == AfterEvictions(old(layers), old(store), old(lru), evicted)
      // a placement is the last retry's answer, in the layer the last eviction freed
      ensures r.Some? ==>
        && InLayerOfEvicted(r.value, old(store), old(lru), evicted) && r.value.data == data
        && RetriesRefused(place, size, width, height, old(layers), old(store), old(lru), evicted - 1)
        && RetryAfter(place, size, width, height, old(layers), old(store), old(lru), evicted - 1) == Some(r.value.rect)
        && var freed := AfterEvictions(old(layers), old(store), old(lru), evicted);
           layers == freed[r.value.layer := Allocated(freed[r.value.layer], r.value.rect)]
    {
      evicted := 0;
      if lru == [] {
        return None, evicted, false;
      }
      while true
        invariant Valid()
        invariant EvictedOldest(old(store), old(lookup), old(refCounts), old(lru), old(lastUsed), evicted,
                            store, lookup, lru, refCounts, lastUsed)
        invariant RetriesRefused(place, size, width, height, old(layers), old(store), old(lru), evicted)
        invariant layers == AfterEvictions(old(layers), old(store), old(lru), evicted)
        decreases |lru|
      {
        if lru == [] {
          return None, evicted, false;
        }
        var id := lru[0];
        if id in lastUsed {
          return None, evicted, true;
        }
        r := EvictionTurn(old(layers), old(store), old(lookup), old(refCounts), old(lru), old(lastUsed), evicted,
                          width, height, data);
        evicted := evicted + 1;
        if r.Some? {
          return r, evicted, false;
        }
      }
    }

    /**
     * One turn of the eviction loop: the least recently used id, not used this
     * frame, is removed, and the request is retried in the layer it freed.
     * The layers were `layers0` before the loop's first turn; the retry
     * succeeds exactly when that layer's allocator, after the removal, has room.
     */
    method EvictionTurn(ghost layers0: seq<Layer>, ghost s0: map<nat, Entry<K, D>>, ghost k0: map<K, nat>,
                        ghost c0: map<nat, nat>, ghost l0: seq<nat>, ghost u0: set<nat>, ghost n: nat,
                        width: nat, height: nat, data: D)
      returns (r: Option<Allocation<D>>)
      requires Valid() && !useRefCount && lru != [] && lru[0] !in lastUsed
      requires EvictedOldest(s0, k0, c0, l0, u0, n, store, lookup, lru, refCounts, lastUsed)
      requires layers == AfterEvictions(layers0, s0, l0, n)
      modifies this
      ensures Valid()
      ensures EvictedOldest(s0, k0, c0, l0, u0, n + 1, store, lookup, lru, refCounts, lastUsed)
      ensures r.None? <==> RetryAfter(place, size, width, height, layers0, s0, l0, n).None?
      ensures r.None? ==> layers == AfterEvictions(layers0, s0, l0, n + 1)
      ensures r.Some? ==>
        && InLayerOfEvicted(r.value, s0, l0, n + 1) && r.value.data == data
        && RetryAfter(place, size, width, height, layers0, s0, l0, n) == Some(r.value.rect)
        && var freed := AfterEvictions(layers0, s0, l0, n + 1);
           layers == freed[r.value.layer := Allocated(freed[r.value.layer], r.value.rect)]
    {
      var removed := EvictOldest(s0, k0, c0, l0, u0, n);
      r := None;
      if removed.Some? {
        r := RetryInLayer(removed.value, width, height, data);
      }
    }

    /**
     * One turn of the eviction loop in `Allocate`: `remove` on the least
     * recently used id, which was not used this frame. Outside
     * reference-counted mode the id is always freed, extending by one the
     * run of oldest ids evicted since the state `s0`, `k0`, `c0`, `l0`, `u0`.
     */
    method EvictOldest(ghost s0: map<nat, Entry<K, D>>, ghost k0: map<K, nat>, ghost c0: map<nat, nat>,
                       ghost l0: seq<nat>, ghost u0: set<nat>, ghost n: nat)
      returns (removed: Option<nat>)
      requires Valid() && !useRefCount && lru != [] && lru[0] !in lastUsed
      requires EvictedOldest(s0, k0, c0, l0, u0, n, store, lookup, lru, refCounts, lastUsed)
      modifies this
      ensures Valid()
      ensures EvictedOldest(s0, k0, c0, l0, u0, n + 1, store, lookup, lru, refCounts, lastUsed)
      ensures n < |l0| && l0[n] in s0 && removed == Some(s0[l0[n]].allocation.layer)
      // the freed layer took the id's rectangle back and forgot the id; no other layer changed
      ensures var a := s0[l0[n]].allocation;
        a.layer < |old(layers)| && layers == old(layers)[a.layer := Deallocated(old(layers)[a.layer], l0[n], a.rect)]
    {
      removed := Remove(lru[0]);
      EvictionExtends(s0, k0, c0, l0, u0, n, old(layers), old(store), old(lookup), old(lru), old(refCounts),
                      old(lastUsed), layers, store, lookup, lru, refCounts, lastUsed, removed);
    }

    /** The retry of the eviction loop: the layer an eviction freed space in, and only that one. */
    method RetryInLayer(layerId: nat, width: nat, height: nat, data: D) returns (r: Option<Allocation<D>>)
      requires Valid() && layerId < |layers|
      modifies this
      ensures Valid()
      ensures place(old(layers)[layerId].live, size, width, height).None? ==> r == None && unchanged(this)
      ensures place(old(layers)[layerId].live, size, width, height).Some? ==>
        var rect := place(old(layers)[layerId].live, size, width, height).value;
        && r == Some(Allocation(rect, layerId, data))
        && layers == old(layers)[layerId := Allocated(old(layers)[layerId], rect)]
      ensures store == old(store) && lookup == old(lookup) && lru == old(lru) && refCounts == old(refCounts)
      ensures lastUsed == old(lastUsed)
    {
      var p := place(layers[layerId].live, size, width, height);
      if p.Some? {
        AllocationKeepsBooks(layers, store, lookup, lru, refCounts, layerId, p.value);
        layers := layers[layerId := Allocated(layers[layerId], p.value)];
        return Some(Allocation(p.value, layerId, data));
      }
      return None;
    }

    /**
     * Step 4 of `Allocate`: unless the layer count plus one equals the layer
     * limit, a new layer is created and kept if its allocator places the request.
     */
    method TryNewLayer(width: nat, height: nat, data: D) returns (r: Option<Allocation<D>>)
      requires Valid()
      modifies this
      ensures Valid()
      ensures r.Some? <==> |old(layers)| + 1 != maxLayers && place(multiset{}, size, width, height).Some?
      ensures r.None? ==> unchanged(this)
      ensures r.Some? ==>
        && r.value == Allocation(place(multiset{}, size, width, height).value, |old(layers)|, data)
        && layers == old(layers) + [Allocated(NewLayer(), r.value.rect)]
      ensures store == old(store) && lookup == old(lookup) && lru == old(lru) && refCounts == old(refCounts)
      ensures lastUsed == old(lastUsed)
    {
      if |layers| + 1 == maxLayers {
        return None;
      }
      var layer := NewLayer();
      var p := place(layer.live, size, width, height);
      if p.Some? {
        NewLayerKeepsBooks(layers, store, lookup, lru, refCounts, Allocated(layer, p.value));
        layers := layers + [Allocated(layer, p.value)];
        return Some(Allocation(p.value, |layers| - 1, data));
      }
      return None;
    }
  

    /**
     * `upload_with_alloc(key, ...)`, bookkeeping only: a known key gives its
     * id and stored allocation and changes nothing; otherwise the request is
     * placed (possibly evicting `evicted` ids, see `Allocate`) and, on
     * success, recorded under a vacant id with count one as the most recent
     * cache entry. The texture growth and byte upload are not modelled.
     */
    method UploadWithAlloc(key: K, width: nat, height: nat, data: D)
      returns (r: Option<(nat, Allocation<D>)>,
               ghost placed: Option<Allocation<D>>, ghost evicted: nat, ghost reachedNewLayer: bool)
      requires Valid()
      modifies this
      ensures Valid()
      ensures key in old(lookup) ==>
        && old(lookup)[key] in old(store)
        && r == Some((old(lookup)[key], old(store)[old(lookup)[key]].allocation))
        && unchanged(this)
      // a new key: the result is that of `Allocate`
      ensures key !in old(lookup) ==>
        && AllocationOutcome(place, size, maxLayers, useRefCount, old(layers), old(store), old(lru), old(lastUsed),
                             width, height, data, placed, evicted, reachedNewLayer)
        && (r.Some? <==> placed.Some?)
        && (r.Some? ==> r.value.1 == placed.value)
      // a failed upload keeps whatever the allocation evicted
      ensures key !in old(lookup) && r.None? ==>
        && EvictedOldest(old(store), old(lookup), old(refCounts), old(lru), old(lastUsed), evicted,
                         store, lookup, lru, refCounts, lastUsed)
        && layers == LayersAfterAllocation(old(layers), old(store), old(lru), evicted, placed, reachedNewLayer)
      ensures key !in old(lookup) && r.Some? ==>
        var (id, a) := r.value;
        && Uploaded(id, Entry(a, key), old(store), old(lookup), old(refCounts), old(lru), old(lastUsed), evicted,
                    store, lookup, lru, refCounts, lastUsed)
        && layers == Listed(LayersAfterAllocation(old(layers), old(store), old(lru), evicted, placed, reachedNewLayer),
                            a.layer, id)
        && PlacedIn(a, layers)
      ensures forall k :: k in lookup ==> k in old(lookup) || k == key
    {
      if key in lookup {
        return Some((lookup[key], store[lookup[key]].allocation)), None, 0, false;
      }
      var allocation;
      allocation, evicted, reachedNewLayer := Allocate(width, height, data);
      placed := allocation;
      EvictionOnlyForgets(old(store), old(lookup), old(refCounts), old(lru), old(lastUsed), evicted,
                          store, lookup, lru, refCounts, lastUsed);
      if allocation.None? {
        return None, placed, evicted, reachedNewLayer;
      }
      ghost var layers1, store1, lookup1, lru1, c1 := layers, store, lookup, lru, refCounts;
      var id := Record(key, allocation.value);
      EvictionThenInsertion(id, Entry(allocation.value, key), old(store), old(lookup), old(refCounts), old(lru),
                            old(lastUsed), evicted, layers1, store1, lookup1, lru1, c1, lastUsed,
                            layers, store, lookup, lru, refCounts);
      r := Some((id, allocation.value));
    }

    /**
     * The bookkeeping tail of `upload`: the allocation `a` is stored under a
     * vacant id, `key` is mapped to it, its layer lists it, and it enters the
     * cache with count one as the most recent entry.
     */
    method Record(key: K, a: Allocation<D>) returns (id: nat)
      requires Valid() && key !in lookup && a.layer < |layers|
      modifies this
      ensures Valid()
      ensures id !in old(store)
      ensures Recorded(id, Entry(a, key), store, lookup, lru, refCounts, layers)
      ensures Inserted(id, Entry(a, key), old(layers), old(store), old(lookup), old(lru), old(refCounts),
                       layers, store, lookup, lru, refCounts)
      ensures lastUsed == old(lastUsed)
    {
      id := FirstVacant(store.Keys, 0);
      layers, store, lookup, lru, refCounts :=
        layers[a.layer := layers[a.layer].(ids := layers[a.layer].ids + {id})],
        store[id := Entry(a, key)], lookup[key := id], lru + [id], refCounts[id := 1];
      InsertionKeepsBooks(id, Entry(a, key), old(layers), old(store), old(lookup), old(lru), old(refCounts),
                          layers, store, lookup, lru, refCounts);
    }

    /** `upload(key, ...)`: `UploadWithAlloc` without the allocation in the result. */
    method Upload(key: K, width: nat, height: nat, data: D)
      returns (r: Option<nat>, ghost placed: Option<Allocation<D>>, ghost evicted: nat,
               ghost reachedNewLayer: bool)
      requires Valid()
      modifies this
      ensures Valid()
      ensures key in old(lookup) ==> r == Some(old(lookup)[key]) && unchanged(this)
      ensures key !in old(lookup) ==>
        && AllocationOutcome(place, size, maxLayers, useRefCount, old(layers), old(store), old(lru), old(lastUsed),
                             width, height, data, placed, evicted, reachedNewLayer)
        && (r.Some? <==> placed.Some?)
      ensures key !in old(lookup) && r.None? ==>
        && EvictedOldest(old(store), old(lookup), old(refCounts), old(lru), old(lastUsed), evicted,
                         store, lookup, lru, refCounts, lastUsed)
        && layers == LayersAfterAllocation(old(layers), old(store), old(lru), evicted, placed, reachedNewLayer)
      ensures key !in old(lookup) && r.Some? ==>
        && Uploaded(r.value, Entry(placed.value, key), old(store), old(lookup), old(refCounts), old(lru),
                    old(lastUsed), evicted, store, lookup, lru, refCounts, lastUsed)
        && layers == Listed(LayersAfterAllocation(old(layers), old(store), old(lru), evicted, placed, reachedNewLayer),
                            placed.value.layer, r.value)
        && PlacedIn(placed.value, layers)
      ensures forall k :: k in lookup ==> k in old(lookup) || k == key
    {
      var withAlloc;
      withAlloc, placed, evicted, reachedNewLayer := UploadWithAlloc(key, width, height, data);
      r := if withAlloc.Some? then Some(withAlloc.value.0) else None;
    }
  }
}
