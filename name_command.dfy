/**
 * The `name` command: it scans the wall of framed maps, and for every map
 * not yet renamed takes it down, renames it on an anvil to its grid
 * position, and puts it back, retrying the put-back a bounded number of
 * times.
 */
module NameCommand {
  import opened Wrappers
  import opened Seqs
  import opened Text
  import opened Schematic
  import opened Inventory
  import EntityIndexer
  import opened WallLayout

  /** One entry of `maparts`. */
  datatype NameCell = NameCell(dx: nat, dy: nat, pos: Vec3, hasMap: bool, mapId: Option<int>, named: bool)

  /**
   * How the scan reads whether a framed map is named, as written:
   * `display.value.Name` throws when the item has no `display` compound,
   * which is the case for every map that was never renamed.
   */
  function ReadNamedAsWritten(item: FrameItem): (r: Result<bool, string>)
    ensures r.Failure? <==> item.display.None?
    ensures r.Success? ==> (r.value <==> item.display.value.Some?)
  {
    match item.display
    case None => Failure("Cannot read properties of undefined (reading 'value')")
    case Some(name) => Success(name.Some?)
  }

  /** Whether a framed map is named: it has a `display` compound holding a `Name`. */
  function ReadNamed(item: FrameItem): (r: bool)
    ensures r <==> item.display.Some? && item.display.value.Some?
    ensures ReadNamedAsWritten(item).Success? ==> r == ReadNamedAsWritten(item).value
  {
    item.display.Some? && item.display.value.Some?
  }

  /**
   * A fresh map, the kind the command exists to name, stops the scan as
   * written; read with the absent `display` as "not named", it is queued.
   */
  lemma FreshMapStopsScan(mapId: int)
    ensures ReadNamedAsWritten(FrameItem("filled_map", Some(mapId), None)).Failure?
    ensures !ReadNamed(FrameItem("filled_map", Some(mapId), None))
  {
  }

  /** What the scan records for a cell whose frame is `frame`. */
  predicate CellFacts(c: NameCell, frame: Option<EntityIndexer.Entity>, held: nat -> Option<FrameItem>) {
    && (c.hasMap <==> HoldsMap(frame, held))
    && c.mapId == (if c.hasMap then held(frame.value.id).value.mapId else None)
    && c.named == (c.hasMap && ReadNamed(held(frame.value.id).value))
  }

  /**
   * The scan: cell `i` of `w * h` is `(i / h, i % h)`, its frame sits at
   * `CellPos(origin, facing, dx, dy)`, and what that frame holds decides
   * `hasMap`, `mapId` and `named`.
   */
  method ScanWall(w: nat, h: nat, origin: Vec3, facing: Facing,
                  indexer: Option<map<EntityIndexer.CellKey, EntityIndexer.Entity>>,
                  entities: seq<EntityIndexer.Entity>, held: nat -> Option<FrameItem>)
    returns (cells: seq<NameCell>)
    ensures |cells| == w * h
    ensures forall k | 0 <= k < |cells| ::
              && h > 0 && (cells[k].dx, cells[k].dy) == CellOf(k, h)
              && cells[k].pos == CellPos(origin, facing, cells[k].dx, cells[k].dy)
              && CellFacts(cells[k], FrameAt(indexer, entities, cells[k].pos), held)
  {
    cells := [];
    for i := 0 to w * h
      invariant |cells| == i
      invariant forall k | 0 <= k < |cells| ::
                  && h > 0 && (cells[k].dx, cells[k].dy) == CellOf(k, h)
                  && cells[k].pos == CellPos(origin, facing, cells[k].dx, cells[k].dy)
                  && CellFacts(cells[k], FrameAt(indexer, entities, cells[k].pos), held)
    {
      assert h > 0;
      var dx, dy := i / h, i % h;
      var pos := CellPos(origin, facing, dx, dy);
      var frame := GetItemFrame(indexer, entities, pos);
      var hasMap := HoldsMap(frame, held);
      var cell := NameCell(dx, dy, pos, hasMap,
                           if hasMap then held(frame.value.id).value.mapId else None,
                           hasMap && ReadNamed(held(frame.value.id).value));
      cells := cells + [cell];
    }
  }

  lemma CellOfInjective(i: nat, j: nat, h: nat)
    requires h > 0 && CellOf(i, h) == CellOf(j, h)
    ensures i == j
  {
    assert i == (i / h) * h + i % h;
    assert j == (j / h) * h + j % h;
  }

  /** The scan puts no two cells' frames at the same position. */
  lemma ScanPositionsDistinct(cells: seq<NameCell>, h: nat, origin: Vec3, facing: Facing)
    requires h > 0
    requires forall k | 0 <= k < |cells| ::
               && h > 0 && (cells[k].dx, cells[k].dy) == CellOf(k, h)
               && cells[k].pos == CellPos(origin, facing, cells[k].dx, cells[k].dy)
    ensures forall i, j | 0 <= i < j < |cells| :: cells[i].pos != cells[j].pos
  {
    forall i, j | 0 <= i < j < |cells| ensures cells[i].pos != cells[j].pos {
      if CellOf(i, h) == CellOf(j, h) {
        CellOfInjective(i, j, h);
      }
      CellPosInjective(origin, facing, cells[i].dx, cells[i].dy, cells[j].dx, cells[j].dy);
    }
  }

  /** The cells the renaming loop works on: a map in the frame and no custom name yet. */
  predicate Pending(c: NameCell) {
    c.hasMap && !c.named
  }

  /** The anvil name: `"<name> - dx-dy"` when a name is configured, otherwise `"dx-dy"`. */
  function Label(name: Option<string>, dx: nat, dy: nat): string {
    var index := NatToString(dx) + "-" + NatToString(dy);
    if name.Some? && name.value != "" then name.value + " - " + index else index
  }

  /** The longest run of digits at the end of `s`. */
  function TrailingDigits(s: string): (r: string)
    ensures |r| <= |s| && AllDigits(r)
  {
    if s == [] || !IsDigit(s[|s| - 1]) then []
    else TrailingDigits(s[..|s| - 1]) + [s[|s| - 1]]
  }

  lemma {:induction false} TrailingDigitsOf(p: string, d: string)
    requires AllDigits(d)
    requires p == [] || !IsDigit(p[|p| - 1])
    ensures TrailingDigits(p + d) == d
  {
    var s := p + d;
    if d == [] {
      assert s == p;
    } else {
      var init := d[..|d| - 1];
      assert s[|s| - 1] == d[|d| - 1] && IsDigit(s[|s| - 1]);
      assert s[..|s| - 1] == p + init;
      assert TrailingDigits(s) == TrailingDigits(p + init) + [d[|d| - 1]];
      TrailingDigitsOf(p, init);
      assert d == init + [d[|d| - 1]];
    }
  }

  /** The grid position a label names: the digits after its last `-`, and the digits just before that `-`. */
  function ParseLabel(text: string): Option<(nat, nat)> {
    var q := LastIndexOf(text, '-');
    if q < 0 then None
    else
      var ys := text[q + 1..];
      var xs := TrailingDigits(text[..q]);
      if xs == [] || ys == [] || !AllDigits(ys) then None
      else Some((ParseDigits(xs), ParseDigits(ys)))
  }

  /**
   * Text made of a prefix not ending in a digit, a run of digits, `-` and
   * another run of digits parses back to those two runs.
   */
  lemma ParseLabelParts(prefix: string, xs: string, ys: string)
    requires xs != [] && ys != [] && AllDigits(xs) && AllDigits(ys)
    requires prefix == [] || !IsDigit(prefix[|prefix| - 1])
    ensures ParseLabel((prefix + xs) + "-" + ys) == Some((ParseDigits(xs), ParseDigits(ys)))
  {
    var l := (prefix + xs) + "-" + ys;
    var q := |prefix| + |xs|;
    assert l[q] == '-';
    forall j | q < j < |l| ensures l[j] != '-' {
      assert l[j] == ys[j - q - 1];
    }
    LastIndexOfAt(l, '-', q);
    assert l[..q] == prefix + xs && l[q + 1..] == ys;
    TrailingDigitsOf(prefix, xs);
  }

  /** A label gives back the grid position it was made from, whatever the configured name. */
  lemma LabelRoundTrip(name: Option<string>, dx: nat, dy: nat)
    ensures ParseLabel(Label(name, dx, dy)) == Some((dx, dy))
  {
    var xs, ys := NatToString(dx), NatToString(dy);
    var prefix := if name.Some? && name.value != "" then name.value + " - " else "";
    assert Label(name, dx, dy) == (prefix + xs) + "-" + ys;
    ParseLabelParts(prefix, xs, ys);
    ParseNatToString(dx);
    ParseNatToString(dy);
  }

  /** Different cells get different names. */
  lemma LabelsDistinct(name: Option<string>, dx1: nat, dy1: nat, dx2: nat, dy2: nat)
    requires (dx1, dy1) != (dx2, dy2)
    ensures Label(name, dx1, dy1) != Label(name, dx2, dy2)
  {
    LabelRoundTrip(name, dx1, dy1);
    LabelRoundTrip(name, dx2, dy2);
  }

  /** `getMapItemByMapIDInInventory`: the first slot whose stack carries this map id. */
  function FindMap(slots: Slots, mapId: int): (r: Option<nat>)
    ensures r.Some? ==> r.value < |slots| && slots[r.value].Some? && slots[r.value].value.mapId == Some(mapId)
                        && forall j | 0 <= j < r.value :: !(slots[j].Some? && slots[j].value.mapId == Some(mapId))
    ensures r.None? ==> forall j | 0 <= j < |slots| :: !(slots[j].Some? && slots[j].value.mapId == Some(mapId))
  {
    if slots == [] then None
    else if slots[0].Some? && slots[0].value.mapId == Some(mapId) then Some(0)
    else
      var r := FindMap(slots[1..], mapId);
      assert forall j | 1 <= j < |slots| :: slots[j] == slots[1..][j - 1];
      if r.None? then None else Some(r.value + 1)
  }

  /** One round of putting the renamed map back into its frame. */
  datatype PutBack =
    | FrameMissing                       // no frame found: warp back, not counted
    | Activated(after: Option<Option<int>>)  // clicked; the frame then holds this map id, or is gone

  /**
   * The round succeeded: the frame is there and shows the map id that was
   * renamed (compared with `==`, so two absent ids match).
   */
  predicate Shows(p: PutBack, mapId: Option<int>) {
    p.Activated? && p.after == Some(mapId)
  }

  predicate Failed(p: PutBack, mapId: Option<int>) {
    p.Activated? && !Shows(p, mapId)
  }

  /** The put-back limit: `fail_c < 10`. */
  const MaxFailures := 10

  /**
   * The put-back loop for one map, for at most `fuel` rounds; round `r`
   * sees `round(r)`. Only failed activations count toward the limit.
   */
  method PutBackMap(mapId: Option<int>, round: nat -> PutBack, fuel: nat) returns (rounds: nat, fails: nat, placed: bool)
    ensures rounds <= fuel && fails <= MaxFailures
    ensures fails == |Indices(0, rounds, (r: nat) => Failed(round(r), mapId))|
    ensures placed <==> rounds > 0 && Shows(round(rounds - 1), mapId)
    ensures forall r | 0 <= r < rounds - 1 :: !Shows(round(r), mapId)
    ensures !placed && rounds < fuel ==> fails == MaxFailures
  {
    rounds, fails, placed := 0, 0, false;
    while fails < MaxFailures && rounds < fuel
      invariant rounds <= fuel && fails <= MaxFailures
      invariant fails == |Indices(0, rounds, (r: nat) => Failed(round(r), mapId))|
      invariant forall r | 0 <= r < rounds :: !Shows(round(r), mapId)
      decreases fuel - rounds
    {
      var seen := round(rounds);
      IndicesStep(0, rounds + 1, (r: nat) => Failed(round(r), mapId));
      rounds := rounds + 1;
      if seen.FrameMissing? {
        continue;
      }
      if Shows(seen, mapId) {
        placed := true;
        break;
      }
      fails := fails + 1;
    }
  }

  /** The put-back gives up only after ten failed activations, however many warps came between. */
  lemma {:induction false} GivingUpNeedsTenFailures(mapId: Option<int>, round: nat -> PutBack, rounds: nat)
    requires |Indices(0, rounds, (r: nat) => Failed(round(r), mapId))| == MaxFailures
    ensures rounds >= MaxFailures
  {
  }

  /** What the renaming loop did with one cell. */
  datatype CellRun =
    | Skipped                                                // no map, or already named
    | NoFrame                                                // the frame was gone when the bot arrived
    | Renamed(tag: string, rounds: nat, fails: nat, placed: bool)

  /**
   * The renaming loop: each pending cell whose frame is still there is
   * renamed to its label and put back; every other cell is left alone.
   * `frameThere(k)` says whether cell `k`'s frame is found on arrival and
   * `rounds(k, r)` is round `r` of its put-back.
   */
  method NameAll(cells: seq<NameCell>, name: Option<string>, frameThere: nat -> bool,
                 round: (nat, nat) -> PutBack, fuel: nat)
    returns (runs: seq<CellRun>)
    ensures |runs| == |cells|
    ensures forall k | 0 <= k < |cells| :: runs[k] == Skipped <==> !Pending(cells[k])
    ensures forall k | 0 <= k < |cells| :: runs[k] == NoFrame <==> Pending(cells[k]) && !frameThere(k)
    ensures forall k | 0 <= k < |cells| :: runs[k].Renamed? ==>
              && runs[k].tag == Label(name, cells[k].dx, cells[k].dy)
              && runs[k].fails <= MaxFailures && runs[k].rounds <= fuel
              && (runs[k].placed <==> runs[k].rounds > 0 && Shows(round(k, runs[k].rounds - 1), cells[k].mapId))
  {
    runs := [];
    for k := 0 to |cells|
      invariant |runs| == k
      invariant forall j | 0 <= j < k :: runs[j] == Skipped <==> !Pending(cells[j])
      invariant forall j | 0 <= j < k :: runs[j] == NoFrame <==> Pending(cells[j]) && !frameThere(j)
      invariant forall j | 0 <= j < k :: runs[j].Renamed? ==>
                  && runs[j].tag == Label(name, cells[j].dx, cells[j].dy)
                  && runs[j].fails <= MaxFailures && runs[j].rounds <= fuel
                  && (runs[j].placed <==> runs[j].rounds > 0 && Shows(round(j, runs[j].rounds - 1), cells[j].mapId))
    {
      var c := cells[k];
      if !c.hasMap || c.named {
        runs := runs + [Skipped];
        continue;
      }
      if !frameThere(k) {
        runs := runs + [NoFrame];
        continue;
      }
      var tag := Label(name, c.dx, c.dy);
      var rounds, fails, placed := PutBackMap(c.mapId, (r: nat) => round(k, r), fuel);
      runs := runs + [Renamed(tag, rounds, fails, placed)];
    }
  }
}
