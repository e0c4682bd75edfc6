/**
 * The item-frame index: a table from the unit cell an entity stands in to
 * the last item frame that spawned there, kept up to date from spawn and
 * despawn events. Entity identity is the entity id; the cell key is the
 * triple of floored coordinates (its `"x,y,z"` rendering is one-to-one).
 */
module EntityIndexer {
  import opened Wrappers

  datatype Pos = Pos(x: real, y: real, z: real)

  /** An entity as seen at one event: id, type name and position. */
  datatype Entity = Entity(id: nat, name: string, position: Pos)

  datatype CellKey = CellKey(x: int, y: int, z: int)

  const FrameTypes: set<string> := {"item_frame", "glow_item_frame"}

  predicate Tracked(e: Entity) {
    e.name in FrameTypes
  }

  /** `getPosKey`: the unit cell containing `p`. */
  function PosKey(p: Pos): (k: CellKey)
    ensures k.x as real <= p.x < k.x as real + 1.0
    ensures k.y as real <= p.y < k.y as real + 1.0
    ensures k.z as real <= p.z < k.z as real + 1.0
  {
    CellKey(p.x.Floor, p.y.Floor, p.z.Floor)
  }

  /** `p` lies in the unit cell `k`. */
  predicate InCell(p: Pos, k: CellKey) {
    && k.x as real <= p.x < k.x as real + 1.0
    && k.y as real <= p.y < k.y as real + 1.0
    && k.z as real <= p.z < k.z as real + 1.0
  }

  /** Every position inside a unit cell gets that cell's key. */
  lemma KeyOfCell(q: Pos, k: CellKey)
    requires InCell(q, k)
    ensures PosKey(q) == k
  {
    var r := PosKey(q);
    assert r.x == k.x by { FloorUnique(q.x, r.x, k.x); }
    assert r.y == k.y by { FloorUnique(q.y, r.y, k.y); }
    assert r.z == k.z by { FloorUnique(q.z, r.z, k.z); }
  }

  /** Two positions share a key exactly when one lies in the other's cell. */
  lemma SameCellSameKey(p: Pos, q: Pos)
    ensures PosKey(p) == PosKey(q) <==> InCell(p, PosKey(q))
  {
    if InCell(p, PosKey(q)) {
      KeyOfCell(p, PosKey(q));
    }
  }

  lemma FloorUnique(v: real, a: int, b: int)
    requires a as real <= v < a as real + 1.0
    requires b as real <= v < b as real + 1.0
    ensures a == b
  {
  }

  function Lookup(m: map<CellKey, Entity>, k: CellKey): Option<Entity> {
    if k in m then Some(m[k]) else None
  }

  /** Every entry is an item frame stored under its own cell. */
  predicate WellFormed(m: map<CellKey, Entity>) {
    forall k | k in m :: Tracked(m[k]) && PosKey(m[k].position) == k
  }

  /** `onEntitySpawn`'s effect on the table. */
  function Spawned(m: map<CellKey, Entity>, e: Entity): (r: map<CellKey, Entity>)
    ensures WellFormed(m) ==> WellFormed(r)
  {
    if Tracked(e) then m[PosKey(e.position) := e] else m
  }

  /** `onEntityDespawn`'s effect on the table. */
  function Despawned(m: map<CellKey, Entity>, e: Entity): (r: map<CellKey, Entity>)
    ensures WellFormed(m) ==> WellFormed(r)
  {
    var k := PosKey(e.position);
    if Tracked(e) && k in m && m[k].id == e.id then m - {k} else m
  }

  /** The table after spawning `es` in order, starting from `m`. */
  function SpawnAll(m: map<CellKey, Entity>, es: seq<Entity>): map<CellKey, Entity> {
    if es == [] then m else Spawned(SpawnAll(m, es[..|es| - 1]), es[|es| - 1])
  }

  /** The last item frame in `es` standing in cell `k`. */
  function LastAt(es: seq<Entity>, k: CellKey): (r: Option<Entity>)
    ensures r.Some? ==> r.value in es && Tracked(r.value) && PosKey(r.value.position) == k
    ensures r.None? <==> forall i | 0 <= i < |es| :: !(Tracked(es[i]) && PosKey(es[i].position) == k)
  {
    if es == [] then None
    else
      var e := es[|es| - 1];
      if Tracked(e) && PosKey(e.position) == k then Some(e) else LastAt(es[..|es| - 1], k)
  }

  /**
   * Spawning a list of entities into an empty table stores, at each cell,
   * the last item frame of the list standing there, and nothing else.
   */
  lemma {:induction false} SpawnAllIsLast(es: seq<Entity>, k: CellKey)
    ensures Lookup(SpawnAll(map[], es), k) == LastAt(es, k)
  {
    if es != [] {
      SpawnAllIsLast(es[..|es| - 1], k);
    }
  }

  /** A spawn followed by the despawn of the same entity removes its cell. */
  lemma SpawnThenDespawn(m: map<CellKey, Entity>, e: Entity)
    requires Tracked(e)
    ensures Despawned(Spawned(m, e), e) == m - {PosKey(e.position)}
  {
  }

  /**
   * When a second frame spawns into the same cell, the despawn of the first
   * no longer removes anything: the entry belongs to the second.
   */
  lemma StaleDespawnKeepsNewer(m: map<CellKey, Entity>, a: Entity, b: Entity)
    requires Tracked(a) && Tracked(b) && a.id != b.id && PosKey(a.position) == PosKey(b.position)
    ensures Despawned(Spawned(Spawned(m, a), b), a) == m[PosKey(b.position) := b]
  {
  }

  class Indexer {
    var index: map<CellKey, Entity>
    /** Whether the spawn and despawn listeners are attached. */
    var listening: bool

    ghost predicate Valid()
      reads this
    {
      WellFormed(index)
    }

    constructor ()
      ensures Valid() && index == map[] && listening
    {
      index := map[];
      listening := true;
    }

    method OnEntitySpawn(e: Entity)
      requires Valid()
      modifies this
      ensures Valid() && listening == old(listening)
      ensures index == Spawned(old(index), e)
    {
      if e.name in FrameTypes {
        var key := PosKey(e.position);
        index := index[key := e];
      }
    }

    method OnEntityDespawn(e: Entity)
      requires Valid()
      modifies this
      ensures Valid() && listening == old(listening)
      ensures index == Despawned(old(index), e)
    {
      if e.name in FrameTypes {
        var key := PosKey(e.position);
        if key in index && index[key].id == e.id {
          index := index - {key};
        }
      }
    }

    /** `getEntityAt`: the frame indexed in the cell of `pos`, which stands in that same cell. */
    method GetEntityAt(pos: Pos) returns (r: Option<Entity>)
      requires Valid()
      ensures r == Lookup(index, PosKey(pos))
      ensures r.Some? ==> Tracked(r.value) && PosKey(r.value.position) == PosKey(pos)
    {
      var key := PosKey(pos);
      if key in index {
        return Some(index[key]);
      }
      return None;
    }

    /**
     * `rescan`: clear, then spawn every current entity in the order given.
     * The bot's entity table is walked in ascending id order, so when two
     * frames share a cell the one with the larger id is kept; callers pass
     * `entities` in that order.
     */
    method Rescan(entities: seq<Entity>)
      requires Valid()
      modifies this
      ensures Valid() && listening == old(listening)
      ensures index == SpawnAll(map[], entities)
    {
      index := map[];
      for i := 0 to |entities|
        invariant Valid() && listening == old(listening)
        invariant index == SpawnAll(map[], entities[..i])
      {
        assert entities[..i + 1][..i] == entities[..i];
        OnEntitySpawn(entities[i]);
      }
      assert entities[..|entities|] == entities;
    }

    /** `destroy`: detach the listeners and empty the index. */
    method Destroy()
      modifies this
      ensures Valid() && index == map[] && !listening
    {
      listening := false;
      index := map[];
    }
  }
}
