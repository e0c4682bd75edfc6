/**
 * The `debug` command's inventory summary: the total count per item name
 * over the player inventory's slots.
 */
module DebugCommand {
  import opened Wrappers
  import opened Inventory

  /** The total count of `name` over slots `[lo, hi)`. */
  function Total(slots: Slots, lo: nat, hi: nat, name: string): nat
    decreases hi - lo
  {
    if hi <= lo then 0
    else Total(slots, lo, hi - 1, name) + (if NameAt(slots, hi - 1) == Some(name) then SlotAt(slots, hi - 1).value.count else 0)
  }

  /** Some slot of `[lo, hi)` holds a stack called `name`. */
  predicate Occurs(slots: Slots, lo: nat, hi: nat, name: string) {
    exists i | lo <= i < hi :: NameAt(slots, i) == Some(name)
  }

  /** A name's total is positive only where it occurs. */
  lemma {:induction false} TotalWithoutOccurrence(slots: Slots, lo: nat, hi: nat, name: string)
    requires !Occurs(slots, lo, hi, name)
    ensures Total(slots, lo, hi, name) == 0
    decreases hi - lo
  {
    if hi > lo {
      TotalWithoutOccurrence(slots, lo, hi - 1, name);
    }
  }

  /**
   * The summary over slots `inventoryStart..inventoryEnd` (both included):
   * one entry per name found in an occupied slot, holding that name's total.
   * A name whose running total is still 0 (`!mp[n]`) is reset to the new
   * count, which is the same sum.
   */
  method Summarize(slots: Slots, start: nat, end: nat) returns (mp: map<string, nat>)
    ensures forall n :: n in mp <==> Occurs(slots, start, end + 1, n)
    ensures forall n | n in mp :: mp[n] == Total(slots, start, end + 1, n)
  {
    mp := map[];
    var i := start;
    while i <= end
      invariant i == start || start <= i <= end + 1
      invariant forall n :: n in mp <==> Occurs(slots, start, i, n)
      invariant forall n | n in mp :: mp[n] == Total(slots, start, i, n)
    {
      var stack := SlotAt(slots, i);
      if stack.None? {
        assert forall n :: Occurs(slots, start, i + 1, n) <==> Occurs(slots, start, i, n);
        i := i + 1;
        continue;
      }
      var c, n := stack.value.count, stack.value.name;
      if n !in mp || mp[n] == 0 {
        if n !in mp {
          TotalWithoutOccurrence(slots, start, i, n);
        }
        mp := mp[n := c];
      } else {
        mp := mp[n := mp[n] + c];
      }
      assert NameAt(slots, i) == Some(n);
      assert forall m :: Occurs(slots, start, i + 1, m) <==> Occurs(slots, start, i, m) || m == n;
      i := i + 1;
    }
  }
}
