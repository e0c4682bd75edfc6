/**
 * The map wall shared by the `name`, `copy` and `open` commands: cell `i`
 * of a `width` x `height` wall sits at column `i / height`, row
 * `i % height`; columns run along the wall's facing direction and rows go
 * down. Shulker boxes for copies line up along the same direction, 27 maps
 * to a box. Also the item-frame lookup the commands use.
 */
module WallLayout {
  import opened Wrappers
  import opened Arith
  import opened Schematic
  import EntityIndexer

  datatype Facing = North | South | West | East

  /** The config's `facing` string; any other string has no direction entry. */
  function ParseFacing(s: string): (r: Option<Facing>)
    ensures r.Some? <==> s in {"north", "south", "west", "east"}
  {
    if s == "north" then Some(North)
    else if s == "south" then Some(South)
    else if s == "west" then Some(West)
    else if s == "east" then Some(East)
    else None
  }

  /** `getMpDirections()[facing]` as `(inc_dx, inc_dy, inc_dz)`. */
  function Direction(f: Facing): (d: Vec3)
    ensures d.y == -1
    ensures (d.x == 0) != (d.z == 0) && -1 <= d.x <= 1 && -1 <= d.z <= 1
  {
    match f
    case North => Vec3(-1, -1, 0)
    case South => Vec3(1, -1, 0)
    case West => Vec3(0, -1, 1)
    case East => Vec3(0, -1, -1)
  }

  /** Cell `i` as `(dx, dy)` = `(parseInt(i / height), i % height)`. */
  function CellOf(i: nat, h: nat): (nat, nat)
    requires h > 0
  {
    (i / h, i % h)
  }

  /** Cell numbering is a bijection between `[0, w*h)` and `[0, w) x [0, h)`. */
  lemma CellOfBijection(w: nat, h: nat)
    requires h > 0
    ensures forall i: nat | i < w * h :: CellOf(i, h).0 < w && CellOf(i, h).1 < h
    ensures forall dx: nat, dy: nat | dx < w && dy < h :: dx * h + dy < w * h && CellOf(dx * h + dy, h) == (dx, dy)
  {
    forall i: nat | i < w * h ensures CellOf(i, h).0 < w && CellOf(i, h).1 < h {
      DivBounds(i, h);
      if i / h >= w {
        MulLe(w, i / h, h);
      }
    }
    forall dx: nat, dy: nat | dx < w && dy < h ensures dx * h + dy < w * h && CellOf(dx * h + dy, h) == (dx, dy) {
      MulLe(dx + 1, w, h);
      DivModUnique(dx * h + dy, h, dx, dy);
    }
  }

  /** `origin + (dx * inc_dx, dy * inc_dy, dx * inc_dz)`. */
  function CellPos(origin: Vec3, f: Facing, dx: int, dy: int): Vec3 {
    var d := Direction(f);
    origin.Offset(dx * d.x, dy * d.y, dx * d.z)
  }

  /** Different cells hang at different positions, whatever the facing. */
  lemma CellPosInjective(origin: Vec3, f: Facing, dx1: int, dy1: int, dx2: int, dy2: int)
    requires (dx1, dy1) != (dx2, dy2)
    ensures CellPos(origin, f, dx1, dy1) != CellPos(origin, f, dx2, dy2)
  {
  }

  /** `a x b`, the vector cross product. */
  function Cross(a: Vec3, b: Vec3): Vec3 {
    Vec3(a.y * b.z - a.z * b.y, a.z * b.x - a.x * b.z, a.x * b.y - a.y * b.x)
  }

  /**
   * The copy command's `standOffest`: the facing direction crossed with up
   * (`CrossUp` below gives the cross product in this form).
   */
  function StandOffset(f: Facing): Vec3 {
    var d := Direction(f);
    Vec3(-d.z, 0, d.x)
  }

  /** Crossing with up turns `(x, y, z)` into `(-z, 0, x)`. */
  lemma CrossUp(a: Vec3)
    ensures Cross(a, Vec3(0, 1, 0)) == Vec3(-a.z, 0, a.x)
  {
  }

  /** The stand offset is a horizontal unit step perpendicular to the column direction. */
  lemma StandOffsetPerpendicular(f: Facing)
    ensures StandOffset(f).y == 0 && (StandOffset(f).x == 0) != (StandOffset(f).z == 0)
    ensures StandOffset(f).x * Direction(f).x + StandOffset(f).z * Direction(f).z == 0
  {
    DotCrossUp(Direction(f));
  }

  lemma DotCrossUp(a: Vec3)
    ensures (-a.z) * a.x + a.x * a.z == 0
  {
  }

  const BoxSlots: nat := 27

  /** The shulker box holding cell `i`'s copies, and its slot there. */
  function BoxOf(i: nat): nat { i / BoxSlots }
  function SlotOf(i: nat): nat { i % BoxSlots }

  /** `Math.ceil(width * height / 27)` boxes hold every cell, each cell at its own box and slot. */
  lemma BoxesCover(w: nat, h: nat)
    ensures CeilDiv(w * h, BoxSlots) >= 0
    ensures forall i: nat | i < w * h :: BoxOf(i) < CeilDiv(w * h, BoxSlots) && SlotOf(i) < BoxSlots
    ensures forall i: nat, j: nat | i < j :: (BoxOf(i), SlotOf(i)) != (BoxOf(j), SlotOf(j))
  {
    var c := CeilDiv(w * h, BoxSlots);
    forall i: nat | i < w * h ensures BoxOf(i) < c && SlotOf(i) < BoxSlots {
      DivBounds(i, BoxSlots);
      if BoxOf(i) >= c {
        MulLe(c, BoxOf(i), BoxSlots);
      }
    }
    forall i: nat, j: nat | i < j ensures (BoxOf(i), SlotOf(i)) != (BoxOf(j), SlotOf(j)) {
      DivBounds(i, BoxSlots);
      DivBounds(j, BoxSlots);
    }
  }

  /** Box `k`'s position: `copy_f_shulker + k * (inc_dx, 0, inc_dz)`. */
  function BoxPos(boxOrigin: Vec3, f: Facing, k: int): Vec3 {
    boxOrigin.Offset(k * Direction(f).x, 0, k * Direction(f).z)
  }

  /**
   * What an item frame holds: the item's name, its map id (if any) and its
   * `display` compound: absent for an item never renamed, otherwise with
   * the custom `Name` if it has one.
   */
  datatype FrameItem = FrameItem(name: string, mapId: Option<int>, display: Option<Option<string>>)

  function AsPos(p: Vec3): EntityIndexer.Pos {
    EntityIndexer.Pos(p.x as real, p.y as real, p.z as real)
  }

  predicate FrameAtExactly(e: EntityIndexer.Entity, pos: Vec3) {
    EntityIndexer.Tracked(e) && e.position == AsPos(pos)
  }

  /** The first item frame, in entity order, standing exactly at `pos`. */
  function FirstFrameAt(entities: seq<EntityIndexer.Entity>, pos: Vec3): (r: Option<EntityIndexer.Entity>)
    ensures r.Some? ==> exists k | 0 <= k < |entities| :: entities[k] == r.value && FrameAtExactly(r.value, pos)
                          && forall j | 0 <= j < k :: !FrameAtExactly(entities[j], pos)
    ensures r.None? <==> forall j | 0 <= j < |entities| :: !FrameAtExactly(entities[j], pos)
  {
    if entities == [] then None
    else if FrameAtExactly(entities[0], pos) then
      assert entities[0] == entities[0];
      Some(entities[0])
    else
      var r := FirstFrameAt(entities[1..], pos);
      assert forall j | 1 <= j < |entities| :: entities[j] == entities[1..][j - 1];
      r
  }

  /**
   * What `getItemFrame` finds: through the entity index when the bot has
   * one (any frame in the cell of `pos`), otherwise the first item frame,
   * in entity order, standing exactly at `pos`.
   */
  function FrameAt(indexer: Option<map<EntityIndexer.CellKey, EntityIndexer.Entity>>,
                   entities: seq<EntityIndexer.Entity>, pos: Vec3): Option<EntityIndexer.Entity>
  {
    if indexer.Some? then EntityIndexer.Lookup(indexer.value, EntityIndexer.PosKey(AsPos(pos)))
    else FirstFrameAt(entities, pos)
  }

  /** `getItemFrame(bot, pos)`: the indexer's cell, or a scan of the entity list. */
  method GetItemFrame(indexer: Option<map<EntityIndexer.CellKey, EntityIndexer.Entity>>,
                      entities: seq<EntityIndexer.Entity>, pos: Vec3)
    returns (r: Option<EntityIndexer.Entity>)
    ensures r == FrameAt(indexer, entities, pos)
    ensures indexer.Some? ==> r == EntityIndexer.Lookup(indexer.value, EntityIndexer.PosKey(AsPos(pos)))
    ensures indexer.None? && r.Some? ==> r.value in entities && FrameAtExactly(r.value, pos)
    ensures indexer.None? && r.None? ==> forall j | 0 <= j < |entities| :: !FrameAtExactly(entities[j], pos)
  {
    if indexer.Some? {
      return EntityIndexer.Lookup(indexer.value, EntityIndexer.PosKey(AsPos(pos)));
    }
    for k := 0 to |entities|
      invariant FirstFrameAt(entities[k..], pos) == FirstFrameAt(entities, pos)
    {
      var entity := entities[k];
      assert entities[k..][1..] == entities[k + 1..];
      if !(entity.name == "glow_item_frame" || entity.name == "item_frame") {
        continue;
      }
      if entity.position != AsPos(pos) {
        continue;
      }
      return Some(entity);
    }
    return None;
  }

  /** The frame holds a filled map (the `metadata[8].itemId == filled_map` test). */
  predicate HoldsMap(frame: Option<EntityIndexer.Entity>, held: nat -> Option<FrameItem>) {
    frame.Some? && held(frame.value.id).Some? && held(frame.value.id).value.name == "filled_map"
  }
}
