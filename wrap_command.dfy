/**
 * The `wrap` command: it reads the input shulker box once to learn the
 * set of items (27 slots) and how many complete sets it holds, then for
 * each set takes one of every item and puts each into the output box's
 * matching slot.
 */
module WrapCommand {
  import opened Wrappers
  import opened Inventory

  /** At most one stack's worth of sets. */
  const MaxSets := 64

  /** Input slots read: the box's own 27. */
  const BoxSlots := 27

  /**
   * One entry of `wrap_items`: the item's name (`None` for an empty slot)
   * and, for a filled map, its map id as read (`None` when the stack has no
   * map id); any other item records -1.
   */
  datatype WrapItem = WrapItem(name: Option<string>, mapId: Option<int>)

  function ItemOf(stack: Option<Item>): (w: WrapItem)
    ensures stack.None? ==> w == WrapItem(None, Some(-1))
    ensures stack.Some? ==> w.name == Some(stack.value.name)
    ensures w.mapId != Some(-1) ==> stack.Some? && stack.value.name == "filled_map" && w.mapId == stack.value.mapId
  {
    match stack
    case None => WrapItem(None, Some(-1))
    case Some(it) => WrapItem(Some(it.name), if it.name == "filled_map" then it.mapId else Some(-1))
  }

  /**
   * The input scan: `wrap_items` records each of the 27 slots, and
   * `counter` is the fewest items in any occupied slot, capped at 64: the
   * number of complete sets in the box.
   */
  method ReadInput(input: Slots) returns (counter: nat, items: seq<WrapItem>)
    ensures |items| == BoxSlots && forall i | 0 <= i < BoxSlots :: items[i] == ItemOf(SlotAt(input, i))
    ensures counter <= MaxSets
    ensures forall i | 0 <= i < BoxSlots :: SlotAt(input, i).Some? ==> counter <= SlotAt(input, i).value.count
    ensures counter == MaxSets || exists i | 0 <= i < BoxSlots :: SlotAt(input, i).Some? && counter == SlotAt(input, i).value.count
  {
    counter, items := MaxSets, [];
    for i := 0 to BoxSlots
      invariant |items| == i && forall j | 0 <= j < i :: items[j] == ItemOf(SlotAt(input, j))
      invariant counter <= MaxSets
      invariant forall j | 0 <= j < i :: SlotAt(input, j).Some? ==> counter <= SlotAt(input, j).value.count
      invariant counter == MaxSets || exists j | 0 <= j < i :: SlotAt(input, j).Some? && counter == SlotAt(input, j).value.count
    {
      var item := WrapItem(None, Some(-1));
      var stack := SlotAt(input, i);
      if stack.Some? {
        item := item.(name := Some(stack.value.name));
        if stack.value.count < counter {
          counter := stack.value.count;
        }
      }
      if stack.Some? && stack.value.name == "filled_map" {
        item := item.(mapId := stack.value.mapId);
      }
      items := items + [item];
    }
  }

  /**
   * Whether output slot `ff` is where item `w` goes: for a filled map, the
   * map id read there equals the item's (with `==`, so an empty slot
   * matches a map whose id is absent); otherwise the slot's name equals the
   * item's.
   */
  predicate Matches(output: Slots, ff: nat, w: WrapItem) {
    if w.name == Some("filled_map") then
      (if SlotAt(output, ff).Some? then SlotAt(output, ff).value.mapId else None) == w.mapId
    else NameAt(output, ff) == w.name
  }

  /** The output search: the first slot of 27..62 that matches, or -1 (then nothing is clicked). */
  method FindOutput(output: Slots, w: WrapItem) returns (r: int)
    ensures r == -1 <==> forall ff | 27 <= ff <= 62 :: !Matches(output, ff, w)
    ensures r != -1 ==> 27 <= r <= 62 && Matches(output, r, w) && forall ff | 27 <= ff < r :: !Matches(output, ff, w)
  {
    r := -1;
    var ff := 27;
    while ff <= 62
      invariant 27 <= ff <= 63
      invariant forall j | 27 <= j < ff :: !Matches(output, j, w)
    {
      if Matches(output, ff, w) {
        r := ff;
        break;
      }
      ff := ff + 1;
    }
  }

  /**
   * The window after clicking output slot `t` and then box slot `gg`: the
   * stack leaves inventory slot `t`, which is empty from then on.
   */
  function Take(output: Slots, t: nat): (r: Slots)
    ensures SlotAt(r, t).None?
    ensures forall i: nat | i != t :: SlotAt(r, i) == SlotAt(output, i)
  {
    if t < |output| then output[t := None] else output
  }

  /** A filled map whose map id was not read: with `==` it matches any empty output slot. */
  predicate AbsentMapId(w: WrapItem) {
    w.name == Some("filled_map") && w.mapId.None?
  }

  /**
   * One input slot's pick in window `before`: an empty input slot picks
   * nothing; otherwise `t` is the first slot of 27..62 that matches the item,
   * or -1 when none does. `after` is the window once the pick is clicked.
   */
  predicate Pick(w: WrapItem, before: Slots, t: int, after: Slots) {
    && (w.name.None? ==> t == -1)
    && (t == -1 || 27 <= t <= 62)
    && (w.name.Some? && t != -1 ==> Matches(before, t, w) && forall ff | 27 <= ff < t :: !Matches(before, ff, w))
    && (w.name.Some? && t == -1 ==> forall ff | 27 <= ff <= 62 :: !Matches(before, ff, w))
    && after == (if t == -1 then before else Take(before, t))
  }

  /**
   * One set's placement: for each input slot `gg` in turn, the output slot
   * its item is taken from (-1 for none), found by `FindOutput` in the window
   * as the earlier picks left it (`windows[gg]`). Each pick empties the slot
   * it took from, so two picks never share a slot unless the later item is
   * a map whose id was not read.
   */
  method PlaceSet(items: seq<WrapItem>, output: Slots) returns (targets: seq<int>, ghost windows: seq<Slots>)
    requires |items| == BoxSlots
    ensures |targets| == BoxSlots && |windows| == BoxSlots + 1 && windows[0] == output
    ensures forall gg | 0 <= gg < BoxSlots :: Pick(items[gg], windows[gg], targets[gg], windows[gg + 1])
    ensures forall g1, g2 | 0 <= g1 < g2 < BoxSlots && targets[g1] != -1 && targets[g2] != -1 && !AbsentMapId(items[g2]) ::
              targets[g1] != targets[g2]
  {
    targets, windows := [], [output];
    var window := output;
    for gg := 0 to BoxSlots
      invariant |targets| == gg && |windows| == gg + 1 && windows[0] == output && windows[gg] == window
      invariant forall j | 0 <= j < gg :: Pick(items[j], windows[j], targets[j], windows[j + 1])
      invariant forall j | 0 <= j < gg && targets[j] >= 0 :: SlotAt(window, targets[j]).None?
      invariant forall g1, g2 | 0 <= g1 < g2 < gg && targets[g1] != -1 && targets[g2] != -1 && !AbsentMapId(items[g2]) ::
                  targets[g1] != targets[g2]
    {
      var t := -1;
      if items[gg].name.Some? {
        t := FindOutput(window, items[gg]);
      }
      var window' := if t == -1 then window else Take(window, t);
      assert Pick(items[gg], window, t, window');
      PickEmpties(targets, window, t, window');
      if t != -1 && !AbsentMapId(items[gg]) {
        forall j | 0 <= j < gg && targets[j] >= 0
          ensures targets[j] != t
        {
          assert !Matches(window, targets[j], items[gg]);
        }
      }
      window := window';
      targets, windows := targets + [t], windows + [window];
    }
  }

  /** After a pick, every slot picked so far, this one included, is empty. */
  lemma PickEmpties(targets: seq<int>, before: Slots, t: int, after: Slots)
    requires forall j | 0 <= j < |targets| && targets[j] >= 0 :: SlotAt(before, targets[j]).None?
    requires (t == -1 || 27 <= t <= 62) && after == (if t == -1 then before else Take(before, t))
    ensures forall j | 0 <= j < |targets| && targets[j] >= 0 :: SlotAt(after, targets[j]).None?
    ensures t >= 0 ==> SlotAt(after, t).None?
  {
    forall j | 0 <= j < |targets| && targets[j] >= 0
      ensures SlotAt(after, targets[j]).None?
    {
      assert SlotAt(before, targets[j]).None?;
    }
  }

  /**
   * The set loop: `counter` rounds, each opening the input box and then
   * the output box; the first box that will not open ends the command.
   */
  method RunSets(counter: nat, inputOpens: nat -> bool, outputOpens: nat -> bool) returns (done: nat)
    ensures done <= counter
    ensures forall r | 0 <= r < done :: inputOpens(r) && outputOpens(r)
    ensures done < counter ==> !(inputOpens(done) && outputOpens(done))
  {
    done := 0;
    while done < counter
      invariant done <= counter
      invariant forall r | 0 <= r < done :: inputOpens(r) && outputOpens(r)
    {
      if !inputOpens(done) {
        return;
      }
      if !outputOpens(done) {
        return;
      }
      done := done + 1;
    }
  }
}
