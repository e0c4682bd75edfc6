/**
 * Helpers shared by the printers: inclusive box membership, the block
 * equivalence check used to decide whether a world block already matches its
 * palette entry, and the orientation a block is placed with, derived from its
 * `Properties` (the packet writes that follow are not modelled).
 */
module BasePrinter {
  import opened Wrappers
  import opened Schematic

  function Min(a: int, b: int): int { if a < b then a else b }
  function Max(a: int, b: int): int { if a < b then b else a }

  /** `bot.blockAt(pos)?.name`: a position missing from the map is an unloaded block. */
  function BlockAt(world: map<Vec3, string>, pos: Vec3): Option<string> {
    if pos in world then Some(world[pos]) else None
  }

  /** `pos_in_box`: inclusive membership in the box spanned by two corners. */
  predicate PosInBox(pos: Vec3, start: Vec3, end: Vec3) {
    var s := Vec3(Min(start.x, end.x), Min(start.y, end.y), Min(start.z, end.z));
    var e := Vec3(Max(start.x, end.x), Max(start.y, end.y), Max(start.z, end.z));
    if pos.x < s.x || pos.y < s.y || pos.z < s.z then false
    else if pos.x > e.x || pos.y > e.y || pos.z > e.z then false
    else true
  }

  predicate Between(v: int, a: int, b: int) {
    (a <= v <= b) || (b <= v <= a)
  }

  /** The box test is inclusive at both corners and ignores the corners' order. */
  lemma PosInBoxSpec(pos: Vec3, a: Vec3, b: Vec3)
    ensures PosInBox(pos, a, b) <==> Between(pos.x, a.x, b.x) && Between(pos.y, a.y, b.y) && Between(pos.z, a.z, b.z)
    ensures PosInBox(pos, a, b) == PosInBox(pos, b, a)
    ensures PosInBox(a, a, b) && PosInBox(b, a, b)
  {
  }

  /** `BLOCK_EQUIVALENT_LIST`, in the object's key order. */
  const EquivalentClasses: seq<seq<string>> := [
    ["air", "water", "brown_mushroom"],
    ["grass_block", "dirt", "mycelium"],
    ["quartz_pillar", "cobblestone"],
    ["bamboo", "bamboo_sapling"]
  ]

  /** The classes share no name. */
  lemma ClassesDisjoint(n: string, k: nat, k': nat)
    requires k < |EquivalentClasses| && k' < |EquivalentClasses|
    requires n in EquivalentClasses[k] && n in EquivalentClasses[k']
    ensures k == k'
  {
  }

  /** The first class, at or after `from`, that lists `name`. */
  function FirstClassFrom(name: string, from: nat): (r: Option<nat>)
    requires from <= |EquivalentClasses|
    decreases |EquivalentClasses| - from
    ensures r.Some? ==> from <= r.value < |EquivalentClasses| && name in EquivalentClasses[r.value]
    ensures r.Some? ==> forall k | from <= k < r.value :: name !in EquivalentClasses[k]
    ensures r.None? <==> forall k | from <= k < |EquivalentClasses| :: name !in EquivalentClasses[k]
  {
    if from == |EquivalentClasses| then None
    else if name in EquivalentClasses[from] then Some(from)
    else FirstClassFrom(name, from + 1)
  }

  /** Reference relation: equal names, or two names listed in one class. */
  ghost predicate Equivalent(a: string, b: string) {
    a == b || exists k | 0 <= k < |EquivalentClasses| :: a in EquivalentClasses[k] && b in EquivalentClasses[k]
  }

  /**
   * `checkBlock(block, target)`: 0 for an unknown (unloaded) block, 1 when the
   * world block's name equals the target's or shares the target's class.
   */
  function CheckBlock(block: Option<string>, target: string): (r: int)
    ensures r == 0 || r == 1
    ensures block.None? ==> r == 0
    ensures block == Some(target) ==> r == 1
    ensures block.Some? ==> (r == 1 <==> Equivalent(block.value, target))
  {
    match block
    case None => 0
    case Some(name) =>
      if name == target then 1
      else
        match FirstClassFrom(target, 0)
        case None => 0
        case Some(k) =>
          if name in EquivalentClasses[k] then 1
          else
            assert !Equivalent(name, target) by {
              forall k' | 0 <= k' < |EquivalentClasses| && name in EquivalentClasses[k'] && target in EquivalentClasses[k']
                ensures false
              {
                ClassesDisjoint(target, k, k');
              }
            }
            0
  }

  /** A target name listed in no class matches only itself. */
  lemma UnlistedMatchesOnlyItself(name: string, target: string)
    requires forall k | 0 <= k < |EquivalentClasses| :: target !in EquivalentClasses[k]
    ensures CheckBlock(Some(name), target) == 1 <==> name == target
  {
  }

  /** Because the classes are disjoint, the match relation is an equivalence. */
  lemma EquivalentIsEquivalence(a: string, b: string, c: string)
    ensures Equivalent(a, a)
    ensures Equivalent(a, b) ==> Equivalent(b, a)
    ensures Equivalent(a, b) && Equivalent(b, c) ==> Equivalent(a, c)
  {
    if Equivalent(a, b) && Equivalent(b, c) && a != b && b != c {
      var k :| 0 <= k < |EquivalentClasses| && a in EquivalentClasses[k] && b in EquivalentClasses[k];
      var k' :| 0 <= k' < |EquivalentClasses| && b in EquivalentClasses[k'] && c in EquivalentClasses[k'];
      ClassesDisjoint(b, k, k');
    }
  }

  // ---------------------------------------------------------------------------
  // Placement orientation

  datatype Orientation = Orientation(direction: int, yaw: int, pitch: int)

  /** `block?.Properties?.<key>` */
  function Prop(block: PaletteEntry, key: string): Option<string> {
    match block.properties
    case None => None
    case Some(p) => if key in p then Some(p[key]) else None
  }

  predicate IsProp(block: PaletteEntry, key: string, value: string) {
    Prop(block, key) == Some(value)
  }

  /** `sub` occurs in `s` starting at index `i`. */
  predicate OccursAt(sub: string, s: string, i: int) {
    0 <= i && i + |sub| <= |s| && s[i..i + |sub|] == sub
  }

  ghost predicate IsSubstring(sub: string, s: string) {
    exists i :: OccursAt(sub, s, i)
  }

  /** `String.prototype.includes` */
  function Includes(s: string, sub: string): (r: bool)
    ensures r <==> IsSubstring(sub, s)
  {
    if |sub| > |s| then false
    else if s[..|sub|] == sub then
      assert OccursAt(sub, s, 0);
      true
    else
      var r := Includes(s[1..], sub);
      assert r <==> IsSubstring(sub, s) by {
        if IsSubstring(sub, s) {
          var i :| OccursAt(sub, s, i);
          assert i != 0;
          assert s[1..][i - 1..i - 1 + |sub|] == s[i..i + |sub|];
          assert OccursAt(sub, s[1..], i - 1);
        }
        if r {
          var i :| OccursAt(sub, s[1..], i);
          assert s[1..][i..i + |sub|] == s[i + 1..i + 1 + |sub|];
          assert OccursAt(sub, s, i + 1);
        }
      }
      r
  }

  /** JavaScript truthiness of an optional string. */
  predicate Truthy(v: Option<string>) { v.Some? && v.value != "" }

  /** Yaw for a horizontal `facing`, as used for most blocks. */
  function FacingYaw(f: string): int {
    if f == "south" then 0 else if f == "west" then 90
    else if f == "north" then 180 else if f == "east" then 270 else 0
  }

  /** Yaw for trapdoors, buttons and glazed terracotta. */
  function FixtureYaw(f: string): int {
    if f == "north" then 0 else if f == "east" then 90
    else if f == "south" then 180 else if f == "west" then 270 else 0
  }

  ghost predicate IsFixture(name: string) {
    IsSubstring("trapdoor", name) || IsSubstring("button", name) || IsSubstring("_glazed_", name)
  }

  /**
   * The (direction, yaw, pitch) the source derives in `placeWithProperties`
   * through a chain of overrides. The contract states the precedence the
   * chain produces: `facing` up/down beats `axis`, which beats a bottom
   * `half`/`type`; fixtures' yaw table beats the anvil rotation.
   */
  function PlacementOrientation(block: PaletteEntry): (o: Orientation)
    ensures o.direction in {0, 1, 2, 4} && o.yaw in {0, 90, 180, 270} && o.pitch in {-90, 0, 90}
    ensures block.properties.None? ==> o == Orientation(0, 0, 0)
    ensures IsProp(block, "facing", "up") ==> o.direction == 1 && o.pitch == 90
    ensures IsProp(block, "facing", "down") ==> o.direction == 0 && o.pitch == -90
    ensures !IsProp(block, "facing", "up") && !IsProp(block, "facing", "down") ==>
      o.pitch == 0 &&
      o.direction == (if IsProp(block, "axis", "z") then 2
                      else if IsProp(block, "axis", "x") then 4
                      else if IsProp(block, "axis", "y") then 0
                      else if IsProp(block, "half", "bottom") || IsProp(block, "type", "bottom") then 1
                      else 0)
    ensures var f := Prop(block, "facing").GetOr("");
      o.yaw == (if IsFixture(block.name) && f in {"north", "east", "south", "west"} then FixtureYaw(f)
                else if Truthy(Prop(block, "facing")) && IsSubstring("anvil", block.name) then (FacingYaw(f) + 270) % 360
                else FacingYaw(f))
  {
    var direction := if IsProp(block, "half", "bottom") || IsProp(block, "type", "bottom") then 1 else 0;
    var direction := if IsProp(block, "axis", "y") then 0 else direction;
    var direction := if IsProp(block, "axis", "x") then 4 else direction;
    var direction := if IsProp(block, "axis", "z") then 2 else direction;
    var yaw := if IsProp(block, "facing", "south") then 0 else 0;
    var yaw := if IsProp(block, "facing", "west") then 90 else yaw;
    var yaw := if IsProp(block, "facing", "north") then 180 else yaw;
    var yaw := if IsProp(block, "facing", "east") then 270 else yaw;
    var (direction, pitch) := if IsProp(block, "facing", "up") then (1, 90) else (direction, 0);
    var (direction, pitch) := if IsProp(block, "facing", "down") then (0, -90) else (direction, pitch);
    var yaw := if Truthy(Prop(block, "facing")) && Includes(block.name, "anvil") then (yaw + 270) % 360 else yaw;
    var fixture := Includes(block.name, "trapdoor") || Includes(block.name, "button") || Includes(block.name, "_glazed_");
    var yaw := if fixture && IsProp(block, "facing", "north") then 0 else yaw;
    var yaw := if fixture && IsProp(block, "facing", "east") then 90 else yaw;
    var yaw := if fixture && IsProp(block, "facing", "south") then 180 else yaw;
    var yaw := if fixture && IsProp(block, "facing", "west") then 270 else yaw;
    Orientation(direction, yaw, pitch)
  }
}
