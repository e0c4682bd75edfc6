/**
 * A window's slots as the commands read them: each slot is empty or holds
 * a stack with a name, a count and, for a filled map, the map id from its
 * NBT. Slots past the end of the list are empty.
 */
module Inventory {
  import opened Wrappers

  datatype Item = Item(name: string, count: nat, mapId: Option<int>)

  type Slots = seq<Option<Item>>

  function SlotAt(s: Slots, i: nat): Option<Item> {
    if i < |s| then s[i] else None
  }

  /** The name in slot `i` (`slots[i]?.name`). */
  function NameAt(s: Slots, i: nat): Option<string> {
    if SlotAt(s, i).Some? then Some(SlotAt(s, i).value.name) else None
  }
}
