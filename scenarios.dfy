/**
 * Small end-to-end runs of an atlas set, each proved from the contracts of
 * the operations alone. The allocator is `OneSlot`: an empty layer places
 * any request at its origin and a layer holding anything is full, so each
 * layer holds one upload at a time.
 */
module AtlasScenarios {
  import opened Wrappers
  import opened AtlasSets

  /** A layer allocator with room for exactly one rectangle. */
  function OneSlot(live: multiset<Rect>, size: nat, w: nat, h: nat): (r: Option<Rect>)
    ensures r.Some? <==> live == multiset{}
    ensures r.Some? ==> r.value.width == w && r.value.height == h
  {
    if live == multiset{} then Some(Rect(0, 0, w, h)) else None
  }

  /**
   * A new atlas set of one layer (side 256) with `OneSlot` placement and the
   * given mode and layer limit, after a 16 by 16 upload under "a": the upload
   * got id `a`, fills layer 0, and is the only entry, with count one and not
   * yet used this frame.
   */
  method StartWithA(useRefCount: bool, maxLayers: nat) returns (atlas: AtlasSet<string, ()>, a: nat)
    ensures fresh(atlas) && atlas.Valid()
    ensures atlas.useRefCount == useRefCount && atlas.maxLayers == maxLayers
    ensures atlas.place == OneSlot && atlas.size == 256
    ensures atlas.lookup == map["a" := a] && atlas.lru == [a] && atlas.lastUsed == {}
    ensures atlas.refCounts == map[a := 1] && a in atlas.store && atlas.store[a].allocation.layer == 0
    ensures |atlas.layers| == 1 && atlas.layers[0].live == multiset{atlas.store[a].allocation.rect}
  {
    atlas := new AtlasSet<string, ()>(useRefCount, 256, 256, maxLayers, false, OneSlot);
    assert FirstFit(atlas.layers, atlas.place, atlas.size, 16, 16) == Some(0);
    var r;
    ghost var placed, evicted, reached;
    r, placed, evicted, reached := atlas.Upload("a", 16, 16, ());
    a := r.value;
    assert atlas.lookup == map["a" := a];
    assert atlas.refCounts == map[a := 1];
  }

  /**
   * When the only layer holds just `a`'s rectangle, the retry after evicting
   * `a` finds that layer empty, so `OneSlot` places a 16 by 16 request there.
   */
  lemma RetryInEmptiedLayer<K>(layers0: seq<Layer>, s0: map<nat, Entry<K, ()>>, a: nat)
    requires |layers0| == 1 && a in s0 && s0[a].allocation.layer == 0
    requires layers0[0].live == multiset{s0[a].allocation.rect}
    ensures RetryAfter(OneSlot, 256, 16, 16, layers0, s0, [a], 0) == Some(Rect(0, 0, 16, 16))
  {
    assert AfterEvictions(layers0, s0, [a], 1)[0].live == multiset{};
  }

  /**
   * With a layer limit of two and an LRU cache: "a" fills the only layer and
   * is read this frame, so uploading "b" is refused and "a" stays. An entry
   * used this frame is never evicted, and since the layer count plus one
   * equals the limit, no layer is added.
   */
  method UsedEntryIsKept() returns (b: Option<nat>, kept: bool)
    ensures b.None? && kept
  {
    var atlas, a := StartWithA(false, 2);
    var got := atlas.Get(a);
    assert atlas.lru == [a] && atlas.lastUsed == {a};
    assert FirstFit(atlas.layers, atlas.place, atlas.size, 16, 16) == None by {
      assert atlas.layers[1..] == [];
    }
    ghost var placed, evicted, reached;
    b, placed, evicted, reached := atlas.Upload("b", 16, 16, ());
    assert evicted == 0;
    kept := atlas.ContainsKey("a");
  }

  /**
   * The same atlas, but "a" is not read again before "b" arrives: "a", the
   * least recently used entry, is evicted, and the retry in the layer it
   * emptied places "b".
   */
  method UnusedEntryIsEvicted() returns (b: Option<nat>, kept: bool)
    ensures b.Some? && !kept
  {
    var atlas, a := StartWithA(false, 2);
    assert FirstFit(atlas.layers, atlas.place, atlas.size, 16, 16) == None by {
      assert atlas.layers[1..] == [];
    }
    ghost var placed, evicted, reached;
    ghost var layers0, store0 := atlas.layers, atlas.store;
    b, placed, evicted, reached := atlas.Upload("b", 16, 16, ());
    assert evicted == 1;
    RetryInEmptiedLayer(layers0, store0, a);
    kept := atlas.ContainsKey("a");
  }

  /** Reading "a" protects it only until the frame ends: after `Trim`, "b" evicts it and takes its place. */
  method TrimEndsTheProtection() returns (b: Option<nat>, kept: bool)
    ensures b.Some? && !kept
  {
    var atlas, a := StartWithA(false, 2);
    var got := atlas.Get(a);
    atlas.Trim();
    assert atlas.lru == [a] && atlas.lastUsed == {};
    assert FirstFit(atlas.layers, atlas.place, atlas.size, 16, 16) == None by {
      assert atlas.layers[1..] == [];
    }
    ghost var placed, evicted, reached;
    ghost var layers0, store0 := atlas.layers, atlas.store;
    b, placed, evicted, reached := atlas.Upload("b", 16, 16, ());
    assert evicted == 1;
    RetryInEmptiedLayer(layers0, store0, a);
    kept := atlas.ContainsKey("a");
  }

  /**
   * In reference-counted mode nothing is evicted: with a layer limit of one,
   * the second upload finds the only layer full, and because the layer count
   * plus one is two, not one, a second layer is created, beyond the limit.
   * Removing the first upload then frees its slot in layer 0.
   */
  method RefCountedModeGrowsPastOneLayer() returns (b: Option<nat>, layerCount: nat, freedIn: Option<nat>)
    ensures b.Some? && layerCount == 2 && freedIn == Some(0)
  {
    var atlas, a := StartWithA(true, 1);
    assert FirstFit(atlas.layers, atlas.place, atlas.size, 16, 16) == None by {
      assert atlas.layers[1..] == [];
    }
    ghost var placed, evicted, reached;
    b, placed, evicted, reached := atlas.Upload("b", 16, 16, ());
    assert b.value != a;
    var size := atlas.Size();
    layerCount := size.2;
    freedIn := atlas.Remove(a);
  }

  /**
   * Uploading a key that is already live returns its id and changes
   * nothing, without raising its count: one `remove` then frees it, even
   * in reference-counted mode.
   */
  method UploadTwiceRemoveOnce() returns (again: Option<nat>, freedIn: Option<nat>, known: bool)
    ensures again.Some? && freedIn == Some(0) && !known
  {
    var atlas, a := StartWithA(true, 4);
    ghost var placed, evicted, reached;
    again, placed, evicted, reached := atlas.Upload("a", 16, 16, ());
    assert again == Some(a);
    freedIn := atlas.Remove(again.value);
    known := atlas.ContainsKey("a");
  }
}

/** End-to-end runs of the light registry, proved from the operations' contracts. */
module LightScenarios {
  import opened Wrappers
  import opened LightRegistry

  /**
   * Inserting area lights into a new registry until one is refused: exactly
   * 1999 are stored (the count plus one may not reach 2000), every insert
   * before the refusal got a key, and the refusal changed nothing.
   */
  method FillAreaLights() returns (stored: nat, refused: Option<nat>)
    ensures stored == MAX_AREA_LIGHTS - 1 && refused == None
  {
    var lights := new Lights<int, int>();
    stored := 0;
    while true
      invariant lights.Valid() && |lights.areaLights| == stored
      decreases MAX_AREA_LIGHTS - stored
    {
      var r := lights.InsertAreaLight(stored);
      if r.None? {
        refused := r;
        return;
      }
      stored := stored + 1;
    }
  }

  /** The same for directional lights: exactly 1332 are stored before the first refusal. */
  method FillDirectionalLights() returns (stored: nat, refused: Option<nat>)
    ensures stored == MAX_DIR_LIGHTS - 1 && refused == None
  {
    var lights := new Lights<int, int>();
    stored := 0;
    while true
      invariant lights.Valid() && |lights.directionalLights| == stored
      decreases MAX_DIR_LIGHTS - stored
    {
      var r := lights.InsertDirectionalLight(stored);
      if r.None? {
        refused := r;
        return;
      }
      stored := stored + 1;
    }
  }

  /**
   * Editing a light marks only its buffer stale: the next `update` rewrites
   * the area buffer, holding the edited light, but not the per-frame vertex.
   */
  method EditRewritesOnlyItsBuffer() returns (first: Option<Quad>, second: Option<Quad>,
                                              edited: Option<map<nat, int>>)
    ensures first == Some(Quad(false, 0, 1))
    ensures second == None && edited == Some(map[0 := 8])
  {
    var lights := new Lights<int, int>();
    var key := lights.InsertAreaLight(7);
    var areas, dirs;
    first, areas, dirs := lights.Update();
    var before := lights.GetMutAreaLight(0, x => x + 1);
    assert lights.areaLights == map[0 := 8];
    second, edited, dirs := lights.Update();
  }

  /**
   * `update` leaves every flag lowered, so a second `update` writes nothing;
   * a remove raises `changed` again, and the next vertex counts no light.
   */
  method UpdateLowersEveryFlag() returns (idle: bool, third: Option<Quad>)
    ensures idle && third == Some(Quad(false, 0, 0))
  {
    var lights := new Lights<int, int>();
    var key := lights.InsertAreaLight(7);
    var first, areas, dirs := lights.Update();
    var nothing;
    nothing, areas, dirs := lights.Update();
    idle := nothing.None? && areas.None? && dirs.None?;
    lights.RemoveAreaLight(0);
    assert lights.areaLights == map[];
    third, areas, dirs := lights.Update();
  }
}
