/**
 * The `copy` command's bookkeeping: the wall of framed maps, the row of
 * shulker boxes holding the copies (box `i / 27`, slot `i % 27` for map
 * `i`), the stock count read from the boxes, and the choice of maps that
 * still need copying.
 */
module CopyCommand {
  import opened Wrappers
  import opened Seqs
  import opened Arith
  import opened Schematic
  import opened Inventory
  import EntityIndexer
  import opened WallLayout

  /** One entry of `maparts`. */
  datatype CopyCell = CopyCell(dx: nat, dy: nat, pos: Vec3, box: Vec3, slot: nat, hasMap: bool, mapId: Option<int>, amount: nat)

  /** The scan's layout for cell `k`: wall position, box and slot. */
  predicate Placed(c: CopyCell, k: nat, h: nat, origin: Vec3, boxOrigin: Vec3, facing: Facing) {
    && h > 0 && (c.dx, c.dy) == CellOf(k, h)
    && c.pos == CellPos(origin, facing, c.dx, c.dy)
    && c.box == BoxPos(boxOrigin, facing, BoxOf(k)) && c.slot == SlotOf(k)
  }

  /**
   * The scan: every cell with its box and slot, what its frame holds, and
   * an amount of 0 until the boxes are read.
   */
  method ScanWall(w: nat, h: nat, origin: Vec3, boxOrigin: Vec3, facing: Facing,
                  indexer: Option<map<EntityIndexer.CellKey, EntityIndexer.Entity>>,
                  entities: seq<EntityIndexer.Entity>, held: nat -> Option<FrameItem>)
    returns (cells: seq<CopyCell>)
    ensures |cells| == w * h
    ensures forall k | 0 <= k < |cells| ::
              && Placed(cells[k], k, h, origin, boxOrigin, facing)
              && (cells[k].hasMap <==> HoldsMap(FrameAt(indexer, entities, cells[k].pos), held))
              && cells[k].mapId == (if cells[k].hasMap then held(FrameAt(indexer, entities, cells[k].pos).value.id).value.mapId else None)
              && cells[k].amount == 0
  {
    cells := [];
    for i := 0 to w * h
      invariant |cells| == i
      invariant forall k | 0 <= k < |cells| ::
                  && Placed(cells[k], k, h, origin, boxOrigin, facing)
                  && (cells[k].hasMap <==> HoldsMap(FrameAt(indexer, entities, cells[k].pos), held))
                  && cells[k].mapId == (if cells[k].hasMap then held(FrameAt(indexer, entities, cells[k].pos).value.id).value.mapId else None)
                  && cells[k].amount == 0
    {
      assert h > 0;
      var dx, dy := i / h, i % h;
      var pos := CellPos(origin, facing, dx, dy);
      var box := BoxPos(boxOrigin, facing, i / BoxSlots);
      var frame := GetItemFrame(indexer, entities, pos);
      var hasMap := HoldsMap(frame, held);
      cells := cells + [CopyCell(dx, dy, pos, box, i % BoxSlots, hasMap,
                                 if hasMap then held(frame.value.id).value.mapId else None, 0)];
    }
  }

  /**
   * The stock of cell `k`'s map that the box check records: the count in
   * slot `k % 27` of box `k / 27` when that slot holds a stack whose map id
   * equals the cell's (compared with `==`, so two absent ids match), else 0.
   */
  function Stock(boxes: nat -> Option<Slots>, k: nat, mapId: Option<int>): nat {
    var b := boxes(BoxOf(k));
    if b.Some? && SlotAt(b.value, SlotOf(k)).Some? && SlotAt(b.value, SlotOf(k)).value.mapId == mapId
    then SlotAt(b.value, SlotOf(k)).value.count
    else 0
  }

  /** Cell `k` with `amount` as the box check reads it. */
  function Counted(c: CopyCell, boxes: nat -> Option<Slots>, k: nat): CopyCell {
    c.(amount := Stock(boxes, k, c.mapId))
  }

  /**
   * The box check over `box_amount = ceil(w * h / 27)` boxes (enough for
   * every cell, by `BoxesCover`): box `i` is opened (`boxes(i)`, `None` when it will not
   * open, which ends the command) and its 27 slots are matched against the
   * next 27 cells, `checkIndex` advancing once per slot.
   */
  method CheckBoxes(cells: seq<CopyCell>, boxes: nat -> Option<Slots>) returns (r: Option<seq<CopyCell>>)
    requires forall k | 0 <= k < |cells| :: cells[k].amount == 0
    ensures r.None? <==> exists i | 0 <= i < CeilDiv(|cells|, BoxSlots) :: boxes(i).None?
    ensures r.Some? ==> |r.value| == |cells| && forall k | 0 <= k < |cells| :: r.value[k] == Counted(cells[k], boxes, k)
  {
    var boxCount := CeilDiv(|cells|, BoxSlots);
    var out := cells;
    var checkIndex := 0;
    for i := 0 to boxCount
      invariant checkIndex == if i * BoxSlots < |cells| then i * BoxSlots else |cells|
      invariant forall j | 0 <= j < i :: boxes(j).Some?
      invariant |out| == |cells|
      invariant forall k | 0 <= k < |cells| :: out[k] == if k < checkIndex then Counted(cells[k], boxes, k) else cells[k]
    {
      var box := boxes(i);
      if box.None? {
        return None;
      }
      var s := 0;
      while s < BoxSlots && checkIndex < |out|
        invariant 0 <= s <= BoxSlots
        invariant checkIndex == if i * BoxSlots + s < |cells| then i * BoxSlots + s else |cells|
        invariant |out| == |cells|
        invariant forall k | 0 <= k < |cells| :: out[k] == if k < checkIndex then Counted(cells[k], boxes, k) else cells[k]
      {
        DivModUnique(checkIndex, BoxSlots, i, s);
        var stack := SlotAt(box.value, s);
        if stack.Some? && stack.value.mapId == out[checkIndex].mapId {
          out := out[checkIndex := out[checkIndex].(amount := stack.value.count)];
        }
        s, checkIndex := s + 1, checkIndex + 1;
      }
      assert (i + 1) * BoxSlots == i * BoxSlots + BoxSlots;
    }
    return Some(out);
  }

  /** The cells still to copy: a map in the frame and fewer than `copy_amount` copies in stock. */
  predicate NeedsCopy(c: CopyCell, copyAmount: int) {
    c.hasMap && c.amount < copyAmount
  }

  /** The copy loop's selection: every cell, in order, that is not skipped. */
  method SelectForCopy(cells: seq<CopyCell>, copyAmount: int) returns (todo: seq<nat>)
    ensures todo == Indices(0, |cells|, (k: nat) => k < |cells| && NeedsCopy(cells[k], copyAmount))
    ensures forall k: nat :: k in todo <==> k < |cells| && NeedsCopy(cells[k], copyAmount)
    ensures Increasing(todo)
  {
    todo := [];
    for i := 0 to |cells|
      invariant todo == Indices(0, i, (k: nat) => k < |cells| && NeedsCopy(cells[k], copyAmount))
    {
      IndicesStep(0, i + 1, (k: nat) => k < |cells| && NeedsCopy(cells[k], copyAmount));
      if !cells[i].hasMap || cells[i].amount >= copyAmount {
        continue;
      }
      todo := todo + [i];
    }
    IndicesSpec(0, |cells|, (k: nat) => k < |cells| && NeedsCopy(cells[k], copyAmount));
  }

  /** A map with at least `copy_amount` copies in its own slot is not copied again. */
  lemma StockedMapSkipped(c: CopyCell, boxes: nat -> Option<Slots>, k: nat, copyAmount: int)
    requires Stock(boxes, k, c.mapId) >= copyAmount
    ensures !NeedsCopy(Counted(c, boxes, k), copyAmount)
  {
  }
}
