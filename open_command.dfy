/**
 * The `open` command: it finds the map-art grid square the bot stands in,
 * lays out the wall of item frames (one cell per map), notes which frames
 * already hold a filled map, and then walks the cells placing a backing
 * block wherever one is missing.
 */
module OpenCommand {
  import opened Wrappers
  import opened Seqs
  import opened Schematic
  import opened Inventory
  import opened Arith
  import EntityIndexer
  import opened WallLayout
  import Station

  /**
   * `sx` (and likewise `sz`): the west edge of the 128-block map-art square
   * containing the coordinate `x`, for a grid whose lines are at 64 + 128k.
   */
  function GridCorner(x: real): int {
    ((x / 16.0).Floor - 4) / 8 * 128 + 64
  }

  lemma FloorDiv16(x: real)
    ensures (x / 16.0).Floor == x.Floor / 16
  {
    var f := x.Floor;
    var k := f / 16;
    DivBounds(f, 16);
    assert 16 * k <= f < 16 * k + 16;
    assert (16 * k) as real <= x < (16 * k + 16) as real;
    assert k as real <= x / 16.0 < (k + 1) as real;
  }

  /** The corner is on a grid line, and `x` lies in the square that starts there. */
  lemma GridCornerSpec(x: real)
    ensures GridCorner(x) % 128 == 64
    ensures GridCorner(x) <= x.Floor < GridCorner(x) + 128
  {
    FloorDiv16(x);
    var f := x.Floor;
    var k := f / 16;
    var m := (k - 4) / 8;
    DivBounds(f, 16);
    DivBounds(k - 4, 8);
    assert 8 * m + 4 <= k < 8 * m + 12;
    assert 128 * m + 64 <= 16 * k;
    assert 16 * k + 16 <= 128 * m + 192;
    DivModUnique(GridCorner(x), 128, m, 64);
  }

  /** `mapart_ori`: one block east of the corner, two below the configured placement height. */
  function Origin(sx: int, placementY: int, sz: int): Vec3 {
    Vec3(sx + 1, placementY - 2, sz)
  }

  /** One entry of `mpstate`. */
  datatype MapCell = MapCell(
    dx: nat, dy: nat,
    realPos: Vec3,       // where this map's area is in the world
    pos: Vec3,           // the frame on the wall
    hasFrame: bool,
    mapId: Option<int>,
    finish: bool)

  /** What a cell's frame says about it, given the frame found at its position. */
  predicate FrameFacts(c: MapCell, frame: Option<EntityIndexer.Entity>, held: nat -> Option<FrameItem>) {
    && (c.hasFrame <==> frame.Some?)
    && (c.finish <==> HoldsMap(frame, held))
    && c.mapId == (if c.finish then held(frame.value.id).value.mapId else None)
  }

  /**
   * The `mpstate` loop: `dx` outer, `dy` inner, so cell `k` is
   * `(dx, dy)` with `k == dx * h + dy`; its frame sits at `ori + (dx, -dy, 0)`
   * and its map area is the k-th square east of the corner.
   */
  method BuildGrid(w: nat, h: nat, sx: int, sz: int, ori: Vec3,
                   indexer: Option<map<EntityIndexer.CellKey, EntityIndexer.Entity>>,
                   entities: seq<EntityIndexer.Entity>, held: nat -> Option<FrameItem>)
    returns (cells: seq<MapCell>)
    ensures |cells| == w * h
    ensures forall k | 0 <= k < |cells| ::
              && cells[k].dx < w && cells[k].dy < h && cells[k].dx * h + cells[k].dy == k
              && cells[k].pos == ori.Offset(cells[k].dx, -(cells[k].dy as int), 0)
              && cells[k].realPos == Vec3(sx + 128 * k, 256, sz)
              && FrameFacts(cells[k], FrameAt(indexer, entities, cells[k].pos), held)
  {
    cells := [];
    for dx := 0 to w
      invariant |cells| == dx * h
      invariant forall k | 0 <= k < |cells| ::
                  && cells[k].dx < w && cells[k].dy < h && cells[k].dx * h + cells[k].dy == k
                  && cells[k].pos == ori.Offset(cells[k].dx, -(cells[k].dy as int), 0)
                  && cells[k].realPos == Vec3(sx + 128 * k, 256, sz)
                  && FrameFacts(cells[k], FrameAt(indexer, entities, cells[k].pos), held)
    {
      for dy := 0 to h
        invariant |cells| == dx * h + dy
        invariant forall k | 0 <= k < |cells| ::
                    && cells[k].dx < w && cells[k].dy < h && cells[k].dx * h + cells[k].dy == k
                    && cells[k].pos == ori.Offset(cells[k].dx, -(cells[k].dy as int), 0)
                    && cells[k].realPos == Vec3(sx + 128 * k, 256, sz)
                    && FrameFacts(cells[k], FrameAt(indexer, entities, cells[k].pos), held)
      {
        var pos := ori.Offset(dx, 0 - dy, 0);
        var frame := GetItemFrame(indexer, entities, pos);
        var finish := HoldsMap(frame, held);
        var cell := MapCell(dx, dy, Vec3(sx + 128 * (dx * h + dy), 256, sz), pos,
                            frame.Some?, if finish then held(frame.value.id).value.mapId else None, finish);
        cells := cells + [cell];
      }
      assert (dx + 1) * h == dx * h + h;
    }
  }

  /** The grid's frame positions are the south-facing wall layout `name` and `copy` use. */
  lemma GridIsSouthWall(ori: Vec3, dx: nat, dy: nat)
    ensures ori.Offset(dx, -(dy as int), 0) == CellPos(ori, South, dx, dy)
  {
  }

  /** Distinct cells have distinct map areas, each on the grid when the corner is. */
  lemma GridAreasDistinct(cells: seq<MapCell>, sx: int, sz: int)
    requires sx % 128 == 64
    requires forall k | 0 <= k < |cells| :: cells[k].realPos == Vec3(sx + 128 * k, 256, sz)
    ensures forall k | 0 <= k < |cells| :: cells[k].realPos.x % 128 == 64
    ensures forall i, j | 0 <= i < j < |cells| :: cells[i].realPos != cells[j].realPos
  {
    forall k | 0 <= k < |cells| ensures cells[k].realPos.x % 128 == 64 {
      DivModUnique(sx + 128 * k, 128, sx / 128 + k, 64);
    }
  }

  /** Which slots `getEmptySlots` reports: the empty ones among the main inventory's 9..43. */
  function EmptyIn(slots: Slots): nat -> bool {
    (i: nat) => SlotAt(slots, i).None?
  }

  /** `getEmptySlots`: the empty main-inventory slots, ascending. */
  method GetEmptySlots(slots: Slots) returns (r: seq<nat>)
    ensures r == Indices(9, 44, EmptyIn(slots))
    ensures forall i: nat :: i in r <==> 9 <= i < 44 && SlotAt(slots, i).None?
    ensures Increasing(r)
  {
    r := [];
    for i := 9 to 44
      invariant r == Indices(9, i, EmptyIn(slots))
    {
      IndicesStep(9, i + 1, EmptyIn(slots));
      if SlotAt(slots, i).None? {
        r := r + [i];
      }
    }
    IndicesSpec(9, 44, EmptyIn(slots));
  }

  /** A player inventory window: crafting slots, armour, main inventory, hotbar and off-hand. */
  predicate PlayerWindow(slots: Slots) {
    |slots| == 46
  }

  /** The window after a stack is picked up from `from` and dropped into the empty slot `t`. */
  function Moved(slots: Slots, from: nat, t: nat): Slots {
    if t == from || t >= |slots| || from >= |slots| then slots else slots[t := slots[from]][from := None]
  }

  /** The least empty main-inventory slot is the one `getEmptySlots` lists first. */
  lemma FirstEmptyIsLeast(slots: Slots)
    requires Indices(9, 44, EmptyIn(slots)) != []
    ensures var t := Indices(9, 44, EmptyIn(slots))[0];
            && 9 <= t < 44 && SlotAt(slots, t).None?
            && forall j | 9 <= j < t :: SlotAt(slots, j).Some?
  {
    var t := Indices(9, 44, EmptyIn(slots))[0];
    IndicesFirst(9, 44, EmptyIn(slots));
    forall j | 9 <= j < t ensures SlotAt(slots, j).Some? {
      assert !EmptyIn(slots)(j);
    }
  }

  /**
   * `moveToEmptySlot(bot, from)`: pick up the stack in `from` and drop it in
   * the first empty main-inventory slot; with no empty slot it throws.
   */
  method MoveToEmptySlot(slots: Slots, from: nat) returns (r: Result<Slots, string>)
    requires PlayerWindow(slots) && from < 46
    ensures r.Failure? <==> forall i | 9 <= i < 44 :: slots[i].Some?
    ensures r.Success? ==> Indices(9, 44, EmptyIn(slots)) != [] && r.value == Moved(slots, from, Indices(9, 44, EmptyIn(slots))[0])
  {
    var empty := GetEmptySlots(slots);
    if |empty| == 0 {
      forall i | 9 <= i < 44 ensures slots[i].Some? {
        assert i !in empty && SlotAt(slots, i) == slots[i];
      }
      return Failure("Can't find empty slot to use");
    }
    assert empty[0] in empty;
    r := Success(Moved(slots, from, empty[0]));
  }

  /** Moving a stack into an empty slot keeps the inventory's contents. */
  lemma MoveKeepsContents(slots: Slots, from: nat, t: nat)
    requires from < |slots| && t < |slots| && slots[t].None?
    ensures Moved(slots, from, t)[t] == slots[from]
    ensures multiset(Moved(slots, from, t)) == multiset(slots)
  {
    if t != from {
      var a := slots[t := slots[from]];
      assert multiset(a) == multiset(slots) - multiset{None} + multiset{slots[from]};
    }
  }

  /** The block `open` backs its frames with. */
  const BackingBlock := "quartz_block"

  /** The search for a backing-block stack in slots 9..43: the first such slot, or -1. */
  method FindStock(slots: Slots) returns (r: int)
    ensures r == -1 <==> forall i | 9 <= i <= 43 :: NameAt(slots, i) != Some(BackingBlock)
    ensures r != -1 ==> 9 <= r <= 43 && NameAt(slots, r) == Some(BackingBlock)
                        && forall i | 9 <= i < r :: NameAt(slots, i) != Some(BackingBlock)
  {
    r := -1;
    var id := 9;
    while id <= 43
      invariant 9 <= id <= 44
      invariant forall i | 9 <= i < id :: NameAt(slots, i) != Some(BackingBlock)
    {
      if NameAt(slots, id) == Some(BackingBlock) {
        r := id;
        break;
      }
      id := id + 1;
    }
  }

  /** The block behind a frame cell, as the bot sees it. */
  datatype Behind = Unloaded | Air | Solid

  /**
   * What the placement loop looks at in one round: the block behind the
   * current cell, whether slot 44 holds the backing block, and what
   * `FindStock` reports.
   */
  datatype Look = Look(behind: Behind, holding: bool, stockSlot: int)

  /** What one round of the placement loop does. */
  datatype Action =
    | FlyCloser          // the block is not loaded: fly to the cell
    | Refill(slot: nat)  // swap the backing block into slot 44
    | Restock            // station mode: fetch 64 more, warp back
    | Retry              // no backing block and no station: try again
    | Place              // fly up and place the block behind the frame
    | Advance            // the cell is backed: next cell

  /** One round: only a loaded, non-air block behind the cell moves the cursor on. */
  function Round(look: Look, station: bool): (a: Action)
    ensures a == Advance <==> look.behind == Solid
    ensures a == Place <==> look.behind == Air && look.holding
    ensures a.Refill? <==> look.behind == Air && !look.holding && look.stockSlot >= 0
    ensures a == FlyCloser <==> look.behind == Unloaded
  {
    match look.behind
    case Unloaded => FlyCloser
    case Solid => Advance
    case Air =>
      if look.holding then Place
      else if look.stockSlot >= 0 then Refill(look.stockSlot)
      else if station then Restock
      else Retry
  }

  /** A recorded round: the cursor, what was seen, what was done. */
  datatype Tick = Tick(cursor: nat, look: Look, action: Action)

  function NextCursor(t: Tick): nat {
    if t.action == Advance then t.cursor + 1 else t.cursor
  }

  /** Consecutive rounds chain: each starts where the previous left the cursor, and the last leaves it at `final`. */
  predicate Chained(ticks: seq<Tick>, final: nat) {
    && (ticks == [] ==> final == 0)
    && (ticks != [] ==> ticks[0].cursor == 0)
    && (forall t | 0 <= t < |ticks| - 1 :: ticks[t + 1].cursor == NextCursor(ticks[t]))
    && (ticks != [] ==> final == NextCursor(ticks[|ticks| - 1]))
  }

  /**
   * The placement loop over `n` cells, run for at most `fuel` rounds;
   * `look(r, i)` is what round `r` sees at cell `i`.
   */
  method PlaceBacking(n: nat, look: (nat, nat) -> Look, station: bool, fuel: nat) returns (i: nat, ticks: seq<Tick>)
    ensures i <= n && |ticks| <= fuel
    ensures |ticks| < fuel ==> i == n
    ensures Chained(ticks, i)
    ensures forall r | 0 <= r < |ticks| ::
              && ticks[r].cursor < n
              && ticks[r].look == look(r, ticks[r].cursor)
              && ticks[r].action == Round(ticks[r].look, station)
  {
    i, ticks := 0, [];
    while i < n && |ticks| < fuel
      invariant i <= n && |ticks| <= fuel
      invariant Chained(ticks, i)
      invariant forall r | 0 <= r < |ticks| ::
                  && ticks[r].cursor < n
                  && ticks[r].look == look(r, ticks[r].cursor)
                  && ticks[r].action == Round(ticks[r].look, station)
      decreases fuel - |ticks|
    {
      var seen := look(|ticks|, i);
      var action := Round(seen, station);
      var tick := Tick(i, seen, action);
      ticks := ticks + [tick];
      i := NextCursor(tick);
    }
  }

  /** When the cursor reaches `k`, every cell before it was seen backed by a solid block. */
  lemma {:induction false} PassedCellsAreBacked(ticks: seq<Tick>, final: nat, j: nat)
    requires Chained(ticks, final) && j < final
    requires forall r | 0 <= r < |ticks| :: ticks[r].action == Advance ==> ticks[r].look.behind == Solid
    ensures exists r | 0 <= r < |ticks| :: ticks[r].cursor == j && ticks[r].look.behind == Solid
  {
    var m := |ticks| - 1;
    var last := ticks[m];
    if last.action == Advance && last.cursor == j {
      assert ticks[m].cursor == j && ticks[m].look.behind == Solid;
    } else {
      var prefix := ticks[..m];
      assert Chained(prefix, last.cursor);
      PassedCellsAreBacked(prefix, last.cursor, j);
      var r :| 0 <= r < |prefix| && prefix[r].cursor == j && prefix[r].look.behind == Solid;
      assert ticks[r] == prefix[r];
    }
  }

  /** A run that reaches the end has seen a backing block behind every cell. */
  lemma FinishedRunBacksEveryCell(n: nat, look: (nat, nat) -> Look, station: bool, ticks: seq<Tick>, j: nat)
    requires Chained(ticks, n) && j < n
    requires forall r | 0 <= r < |ticks| :: ticks[r].action == Round(ticks[r].look, station)
    ensures exists r | 0 <= r < |ticks| :: ticks[r].cursor == j && ticks[r].look.behind == Solid
  {
    PassedCellsAreBacked(ticks, n, j);
  }

  /**
   * A `Retry` round awaits nothing before the loop goes round again, so the
   * world it looks at cannot change: from a `Retry` round on, seeing the
   * same thing at that cell, every later round retries at the same cell.
   */
  lemma {:induction false} RetryStays(ticks: seq<Tick>, look: (nat, nat) -> Look, station: bool, r: nat, q: nat)
    requires forall t | 0 <= t < |ticks| - 1 :: ticks[t + 1].cursor == NextCursor(ticks[t])
    requires forall t | 0 <= t < |ticks| :: ticks[t].look == look(t, ticks[t].cursor) && ticks[t].action == Round(ticks[t].look, station)
    requires r <= q < |ticks| && ticks[r].action == Retry
    requires forall p | r <= p :: look(p, ticks[r].cursor) == ticks[r].look
    ensures ticks[q].cursor == ticks[r].cursor && ticks[q].action == Retry
    decreases q - r
  {
    if q > r {
      RetryStays(ticks, look, station, r, q - 1);
    }
  }

  /**
   * Without a station and with no backing block anywhere in 9..44, the loop
   * spins: it never gets past the cell, and a run ends only when its rounds
   * run out.
   */
  lemma RetryHangs(n: nat, look: (nat, nat) -> Look, station: bool, fuel: nat, i: nat, ticks: seq<Tick>, r: nat)
    requires i <= n && |ticks| <= fuel && (|ticks| < fuel ==> i == n) && Chained(ticks, i)
    requires forall t | 0 <= t < |ticks| ::
               && ticks[t].cursor < n
               && ticks[t].look == look(t, ticks[t].cursor)
               && ticks[t].action == Round(ticks[t].look, station)
    requires r < |ticks| && ticks[r].action == Retry
    requires forall p | r <= p :: look(p, ticks[r].cursor) == ticks[r].look
    ensures !station && ticks[r].look.behind == Air && !ticks[r].look.holding && ticks[r].look.stockSlot < 0
    ensures forall q | r <= q < |ticks| :: ticks[q].cursor == ticks[r].cursor && ticks[q].action == Retry
    ensures i == ticks[r].cursor < n && |ticks| == fuel
  {
    forall q | r <= q < |ticks|
      ensures ticks[q].cursor == ticks[r].cursor && ticks[q].action == Retry
    {
      RetryStays(ticks, look, station, r, q);
    }
    assert ticks[|ticks| - 1].action == Retry;
  }

  // ---------------------------------------------------------------------
  // The station restock of a `Restock` round.
  // ---------------------------------------------------------------------

  /** The functions the station module provides. */
  const StationFunctions: set<string> :=
    {"checkSupport", "getIndexOF", "getIndicesOF", "restock", "restockSingleItem",
     "processBoxList", "processOverfull", "operateBox", "log"}

  /**
   * A `Restock` round calling station function `fn` for one stack (64) of
   * the backing block. `restock` plans the box operations of that item; a
   * name the station module does not define is `undefined`, and calling it
   * throws, which ends the command.
   */
  function CallRestock(fn: string, cfg: Station.StationConfig,
                       withdrawRun: (nat, int) -> Station.BoxRun, depositRun: nat -> Station.BoxRun)
    : (r: Result<Station.ItemRestock, string>)
    requires fn == "restock" || fn == "newrestock"
    ensures r.Failure? <==> fn !in StationFunctions
  {
    if fn !in StationFunctions then Failure("station." + fn + " is not a function")
    else Success(Station.ItemPlan(cfg, BackingBlock, 64, withdrawRun, depositRun))
  }

  /** The restock of a `Restock` round as written: it calls `station.newrestock`. */
  function RestockRoundAsWritten(cfg: Station.StationConfig,
                                 withdrawRun: (nat, int) -> Station.BoxRun, depositRun: nat -> Station.BoxRun)
    : Result<Station.ItemRestock, string>
  {
    CallRestock("newrestock", cfg, withdrawRun, depositRun)
  }

  /**
   * The station module has no `newrestock`: whatever the station holds, the
   * first `Restock` round throws and the command ends with the frames
   * still unbacked.
   */
  lemma RestockRoundThrows(cfg: Station.StationConfig,
                           withdrawRun: (nat, int) -> Station.BoxRun, depositRun: nat -> Station.BoxRun)
    ensures RestockRoundAsWritten(cfg, withdrawRun, depositRun) == Failure("station.newrestock is not a function")
  {
    assert "newrestock" != "restock" && "newrestock" != "restockSingleItem";
    assert "newrestock" !in StationFunctions;
    assert "station." + "newrestock" + " is not a function" == "station.newrestock is not a function";
  }

  /**
   * The restock of a `Restock` round through the station's `restock`: it
   * withdraws from the boxes configured for the backing block, in order,
   * stopping early only once nothing more is owed, and never uses the
   * overflow box.
   */
  function RestockRound(cfg: Station.StationConfig,
                        withdrawRun: (nat, int) -> Station.BoxRun, depositRun: nat -> Station.BoxRun)
    : (r: Station.ItemRestock)
    ensures CallRestock("restock", cfg, withdrawRun, depositRun) == Success(r)
    ensures !r.overfull
    ensures var m := Station.MaterialIndices(cfg, BackingBlock);
            && |r.visited| <= |m| && r.visited == m[..|r.visited|]
            && (|r.visited| < |m| ==> Station.BoxList(m, 64, Station.WithdrawMode, withdrawRun, depositRun).remain <= 0)
  {
    Station.WithdrawStopsWhenSatisfied(cfg, BackingBlock, 64, withdrawRun, depositRun);
    Station.ItemPlan(cfg, BackingBlock, 64, withdrawRun, depositRun)
  }
}
