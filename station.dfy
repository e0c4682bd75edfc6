/**
 * The material station: a list of boxes, each configured for one material,
 * and an optional overflow box. Restocking an item withdraws from its boxes
 * in configuration order until nothing is owed; putting an item back
 * deposits into its boxes and then into the overflow box when something is
 * left. What happens at a box (walking there, opening it, the transfer) is
 * an outcome parameter; `OperateBox` models the retry bounds of getting a
 * box open.
 */
module Station {
  import opened Wrappers
  import opened Seqs

  /** `[x, y, z, standOffset, buttonOffset]`: a box and the offsets to stand at and to its button. */
  datatype BoxRef = BoxRef(x: int, y: int, z: int, stand: nat, button: nat)

  /** One `materials` entry: `[name, box]`. */
  datatype MaterialBox = MaterialBox(name: string, box: BoxRef)

  datatype StationConfig = StationConfig(materials: seq<MaterialBox>, overfull: Option<BoxRef>)

  function NameKeep(ms: seq<MaterialBox>, target: string): nat -> bool {
    (i: nat) => i < |ms| && ms[i].name == target
  }

  /** The boxes configured for `target`, in configuration order. */
  function MaterialIndices(cfg: StationConfig, target: string): seq<nat> {
    Indices(0, |cfg.materials|, NameKeep(cfg.materials, target))
  }

  /** `MaterialIndices` lists exactly the boxes configured for `target`, ascending. */
  lemma MaterialIndicesSpec(cfg: StationConfig, target: string)
    ensures forall i: nat :: i in MaterialIndices(cfg, target) <==> i < |cfg.materials| && cfg.materials[i].name == target
    ensures Increasing(MaterialIndices(cfg, target))
    ensures MaterialIndices(cfg, target) == [] <==> forall j | 0 <= j < |cfg.materials| :: cfg.materials[j].name != target
    ensures MaterialIndices(cfg, target) != [] ==> forall i: nat | i in MaterialIndices(cfg, target) :: MaterialIndices(cfg, target)[0] <= i
  {
    var m := MaterialIndices(cfg, target);
    IndicesSpec(0, |cfg.materials|, NameKeep(cfg.materials, target));
    if m != [] {
      assert m[0] in m;
      forall i: nat | i in m ensures m[0] <= i {
        var k :| 0 <= k < |m| && m[k] == i;
        assert k == 0 || m[0] < m[k];
      }
    }
  }

  /** `getIndexOF`: the first box configured for `target`, or -1. */
  method GetIndexOf(cfg: StationConfig, target: string) returns (r: int)
    ensures -1 <= r < |cfg.materials|
    ensures r >= 0 ==> cfg.materials[r].name == target && forall j | 0 <= j < r :: cfg.materials[j].name != target
    ensures r == -1 <==> forall j | 0 <= j < |cfg.materials| :: cfg.materials[j].name != target
  {
    var i := 0;
    while i < |cfg.materials|
      invariant i <= |cfg.materials|
      invariant forall j | 0 <= j < i :: cfg.materials[j].name != target
    {
      if cfg.materials[i].name == target {
        return i;
      }
      i := i + 1;
    }
    return -1;
  }

  /** `getIndicesOF`: every box configured for `target`, in configuration order. */
  method GetIndicesOf(cfg: StationConfig, target: string) returns (indices: seq<nat>)
    ensures indices == MaterialIndices(cfg, target)
  {
    var keep := NameKeep(cfg.materials, target);
    indices := [];
    for i := 0 to |cfg.materials|
      invariant indices == Indices(0, i, keep)
    {
      if cfg.materials[i].name == target {
        indices := indices + [i];
      }
    }
  }

  /** `getIndexOF` is the first of `getIndicesOF`, or -1 when that list is empty. */
  lemma FirstOfIndices(cfg: StationConfig, target: string, r: int)
    requires -1 <= r < |cfg.materials|
    requires r >= 0 ==> cfg.materials[r].name == target && forall j | 0 <= j < r :: cfg.materials[j].name != target
    requires r == -1 <==> forall j | 0 <= j < |cfg.materials| :: cfg.materials[j].name != target
    ensures r == if MaterialIndices(cfg, target) == [] then -1 else MaterialIndices(cfg, target)[0]
  {
    var m := MaterialIndices(cfg, target);
    MaterialIndicesSpec(cfg, target);
    if r >= 0 {
      assert r in m;
      assert m[0] in m;
    }
  }

  /** `checkSupport`: some box is configured for `target`. */
  method CheckSupport(cfg: StationConfig, target: string) returns (b: bool)
    ensures b <==> MaterialIndices(cfg, target) != []
  {
    var r := GetIndexOf(cfg, target);
    FirstOfIndices(cfg, target, r);
    b := r != -1;
  }

  datatype Mode = WithdrawMode | DepositMode

  /**
   * What happened at one box: no container could be opened (the action
   * never ran), the action threw, or the container operation returned a value.
   */
  datatype BoxRun = NotOpened | Failed | Returned(value: int)

  /** The outcome of a walk over a box list: what is owed at the end, and the boxes operated on. */
  datatype Sweep = Sweep(remain: int, visited: seq<nat>)

  /** The new `remain` after operating on box `idx`. */
  function AfterBox(mode: Mode, idx: nat, remain: int, withdrawRun: (nat, int) -> BoxRun, depositRun: nat -> BoxRun): int {
    match mode
    case WithdrawMode =>
      (match withdrawRun(idx, remain)
       case Returned(v) => if v == -2 then remain else v
       case _ => remain)
    case DepositMode =>
      (match depositRun(idx)
       case Returned(v) => v
       case _ => remain)
  }

  /**
   * `processBoxList`, as a function of the box outcomes: withdrawing stops
   * once nothing is owed, depositing visits every box.
   */
  function BoxList(indices: seq<nat>, remain: int, mode: Mode,
                   withdrawRun: (nat, int) -> BoxRun, depositRun: nat -> BoxRun): (r: Sweep)
    ensures |r.visited| <= |indices| && r.visited == indices[..|r.visited|]
    ensures mode == DepositMode ==> r.visited == indices
    ensures mode == WithdrawMode && |r.visited| < |indices| ==> r.remain <= 0
    ensures mode == WithdrawMode && remain <= 0 ==> r == Sweep(remain, [])
  {
    if indices == [] || (mode == WithdrawMode && remain <= 0) then Sweep(remain, [])
    else
      var rest := BoxList(indices[1..], AfterBox(mode, indices[0], remain, withdrawRun, depositRun), mode, withdrawRun, depositRun);
      assert indices == [indices[0]] + indices[1..];
      Sweep(rest.remain, [indices[0]] + rest.visited)
  }

  /** An empty box (-2) or a box that could not be worked leaves what is owed unchanged. */
  lemma EmptyBoxKeepsRemain(idx: nat, remain: int, withdrawRun: (nat, int) -> BoxRun, depositRun: nat -> BoxRun)
    requires withdrawRun(idx, remain) == Returned(-2) || !withdrawRun(idx, remain).Returned?
    ensures AfterBox(WithdrawMode, idx, remain, withdrawRun, depositRun) == remain
  {
  }

  /** When every box is empty, withdrawing visits them all and still owes everything. */
  lemma {:induction false} AllEmptyOwesAll(indices: seq<nat>, remain: int, withdrawRun: (nat, int) -> BoxRun, depositRun: nat -> BoxRun)
    requires remain > 0
    requires forall k | 0 <= k < |indices| :: withdrawRun(indices[k], remain) == Returned(-2)
    ensures BoxList(indices, remain, WithdrawMode, withdrawRun, depositRun) == Sweep(remain, indices)
  {
    if indices != [] {
      AllEmptyOwesAll(indices[1..], remain, withdrawRun, depositRun);
    }
  }

  /**
   * One box of the list: the sweep from box `k` is that box followed by the
   * sweep from box `k + 1`, so moving box `k` into the visited prefix keeps
   * what remains owed and the full visit order.
   */
  lemma BoxListStep(indices: seq<nat>, k: nat, remain: int, mode: Mode,
                    withdrawRun: (nat, int) -> BoxRun, depositRun: nat -> BoxRun)
    requires k < |indices| && !(mode == WithdrawMode && remain <= 0)
    ensures var tail := BoxList(indices[k..], remain, mode, withdrawRun, depositRun);
            var rest := BoxList(indices[k + 1..], AfterBox(mode, indices[k], remain, withdrawRun, depositRun), mode, withdrawRun, depositRun);
            && tail.remain == rest.remain
            && indices[..k] + tail.visited == indices[..k + 1] + rest.visited
  {
    var s, x := indices[k..], indices[k];
    assert s[0] == x && s[1..] == indices[k + 1..];
    var rest := BoxList(s[1..], AfterBox(mode, x, remain, withdrawRun, depositRun), mode, withdrawRun, depositRun);
    assert BoxList(s, remain, mode, withdrawRun, depositRun) == Sweep(rest.remain, [x] + rest.visited);
    assert indices[..k + 1] == indices[..k] + [x];
    assert indices[..k] + ([x] + rest.visited) == (indices[..k] + [x]) + rest.visited;
  }

  /** The sweep stops at the end of the list, or once a withdrawal owes nothing more. */
  lemma BoxListStop(indices: seq<nat>, k: nat, remain: int, mode: Mode,
                    withdrawRun: (nat, int) -> BoxRun, depositRun: nat -> BoxRun)
    requires k <= |indices| && (k == |indices| || (mode == WithdrawMode && remain <= 0))
    ensures BoxList(indices[k..], remain, mode, withdrawRun, depositRun) == Sweep(remain, [])
  {
  }

  /** `processBoxList`. */
  method ProcessBoxList(indices: seq<nat>, quantity: int, mode: Mode,
                        withdrawRun: (nat, int) -> BoxRun, depositRun: nat -> BoxRun)
    returns (remain: int, visited: seq<nat>)
    ensures Sweep(remain, visited) == BoxList(indices, quantity, mode, withdrawRun, depositRun)
  {
    ghost var whole := BoxList(indices, quantity, mode, withdrawRun, depositRun);
    remain := quantity;
    visited := [];
    var k := 0;
    assert indices[k..] == indices;
    while k < |indices| && !(mode == WithdrawMode && remain <= 0)
      invariant k <= |indices| && visited == indices[..k]
      invariant whole.remain == BoxList(indices[k..], remain, mode, withdrawRun, depositRun).remain
      invariant whole.visited == visited + BoxList(indices[k..], remain, mode, withdrawRun, depositRun).visited
    {
      BoxListStep(indices, k, remain, mode, withdrawRun, depositRun);
      remain := AfterBox(mode, indices[k], remain, withdrawRun, depositRun);
      visited := indices[..k + 1];
      k := k + 1;
    }
    BoxListStop(indices, k, remain, mode, withdrawRun, depositRun);
    assert visited + [] == visited;
  }

  /** The box operations of restocking one item. */
  datatype ItemRestock = ItemRestock(visited: seq<nat>, overfull: bool)

  /**
   * `restockSingleItem`: a quantity of -1 puts the item back, into its boxes
   * and then into the overflow box (if one is configured) unless the last
   * deposit left exactly nothing over; any other quantity is withdrawn from
   * the item's boxes, and an item no box holds is not touched at all.
   */
  function ItemPlan(cfg: StationConfig, name: string, quantity: int,
                    withdrawRun: (nat, int) -> BoxRun, depositRun: nat -> BoxRun): ItemRestock
  {
    var indices := MaterialIndices(cfg, name);
    if quantity == -1 then
      var remain := if indices != [] then BoxList(indices, -1, DepositMode, withdrawRun, depositRun).remain else -1;
      ItemRestock(indices, remain != 0 && cfg.overfull.Some?)
    else if indices == [] then ItemRestock([], false)
    else ItemRestock(BoxList(indices, quantity, WithdrawMode, withdrawRun, depositRun).visited, false)
  }

  /** A withdrawal of an item no box holds does no box operation at all. */
  lemma UnsupportedWithdrawIsNoop(cfg: StationConfig, name: string, quantity: int,
                                  withdrawRun: (nat, int) -> BoxRun, depositRun: nat -> BoxRun)
    requires quantity != -1 && forall j | 0 <= j < |cfg.materials| :: cfg.materials[j].name != name
    ensures ItemPlan(cfg, name, quantity, withdrawRun, depositRun) == ItemRestock([], false)
  {
    MaterialIndicesSpec(cfg, name);
  }

  /**
   * Putting back an item no box holds goes straight to the overflow box
   * (when there is one): `remain` is still -1, which is not 0.
   */
  lemma UnsupportedDepositOverflows(cfg: StationConfig, name: string,
                                    withdrawRun: (nat, int) -> BoxRun, depositRun: nat -> BoxRun)
    requires forall j | 0 <= j < |cfg.materials| :: cfg.materials[j].name != name
    ensures ItemPlan(cfg, name, -1, withdrawRun, depositRun) == ItemRestock([], cfg.overfull.Some?)
  {
    MaterialIndicesSpec(cfg, name);
  }

  /** Withdrawing visits a prefix of the item's boxes, and stops early only when nothing is owed. */
  lemma WithdrawStopsWhenSatisfied(cfg: StationConfig, name: string, quantity: int,
                                   withdrawRun: (nat, int) -> BoxRun, depositRun: nat -> BoxRun)
    requires quantity != -1
    ensures var r := ItemPlan(cfg, name, quantity, withdrawRun, depositRun);
            var m := MaterialIndices(cfg, name);
            && !r.overfull && |r.visited| <= |m| && r.visited == m[..|r.visited|]
            && (|r.visited| < |m| ==> BoxList(m, quantity, WithdrawMode, withdrawRun, depositRun).remain <= 0)
  {
  }

  /** `restockSingleItem`. */
  method RestockSingleItem(cfg: StationConfig, name: string, quantity: int,
                           withdrawRun: (nat, int) -> BoxRun, depositRun: nat -> BoxRun)
    returns (r: ItemRestock)
    ensures r == ItemPlan(cfg, name, quantity, withdrawRun, depositRun)
  {
    var remain := quantity;
    var isDeposit := quantity == -1;
    var materialIndices := GetIndicesOf(cfg, name);
    if |materialIndices| == 0 && !isDeposit {
      return ItemRestock([], false);
    }
    if isDeposit {
      var visited := [];
      if |materialIndices| > 0 {
        remain, visited := ProcessBoxList(materialIndices, -1, DepositMode, withdrawRun, depositRun);
      }
      var overfull := false;
      if remain != 0 {
        overfull := ProcessOverfull(cfg);
      }
      r := ItemRestock(visited, overfull);
    } else {
      var visited;
      remain, visited := ProcessBoxList(materialIndices, remain, WithdrawMode, withdrawRun, depositRun);
      r := ItemRestock(visited, false);
    }
  }

  /** `processOverfull`: operates on the overflow box, if one is configured. */
  method ProcessOverfull(cfg: StationConfig) returns (operated: bool)
    ensures operated <==> cfg.overfull.Some?
  {
    if cfg.overfull.None? {
      return false;
    }
    return true;
  }

  /** `restock`: each requested item in turn; the outcomes of item `k` are `withdrawRun(k, ...)` and `depositRun(k, ...)`. */
  method Restock(cfg: StationConfig, items: seq<(string, int)>,
                 withdrawRun: (nat, nat, int) -> BoxRun, depositRun: (nat, nat) -> BoxRun)
    returns (results: seq<ItemRestock>)
    ensures |results| == |items|
    ensures forall k | 0 <= k < |items| ::
              results[k] == ItemPlan(cfg, items[k].0, items[k].1,
                                     (idx: nat, rem: int) => withdrawRun(k, idx, rem), (idx: nat) => depositRun(k, idx))
  {
    results := [];
    for k := 0 to |items|
      invariant |results| == k
      invariant forall j | 0 <= j < k ::
                  results[j] == ItemPlan(cfg, items[j].0, items[j].1,
                                         (idx: nat, rem: int) => withdrawRun(j, idx, rem), (idx: nat) => depositRun(j, idx))
    {
      var r := RestockSingleItem(cfg, items[k].0, items[k].1,
                                 (idx: nat, rem: int) => withdrawRun(k, idx, rem), (idx: nat) => depositRun(k, idx));
      results := results + [r];
    }
  }

  /** How getting one box worked went: walks, open attempts, and what ran. */
  datatype BoxVisit = BoxVisit(walks: nat, openAttempts: nat, actionRan: bool, closed: bool, success: bool)

  /** At most 3 walks to the standing cell, at most 5 attempts to open the box. */
  const MaxWalks: nat := 3
  const MaxOpens: nat := 5

  /**
   * `operateBox` after the long-distance warp: walk until within reach
   * (`arrived(k)` after walk `k`), try to open (`isOpen(k)` on attempt `k`),
   * and run the action (which may throw) only when the box opened, closing
   * it afterwards whether or not the action threw.
   */
  method OperateBox(arrived: nat -> bool, isOpen: nat -> bool, actionThrows: bool) returns (v: BoxVisit)
    ensures 1 <= v.walks <= MaxWalks && 1 <= v.openAttempts <= MaxOpens
    ensures v.walks < MaxWalks ==> arrived(v.walks - 1)
    ensures forall k | 0 <= k < v.walks - 1 :: !arrived(k)
    ensures forall k | 0 <= k < v.openAttempts - 1 :: !isOpen(k)
    ensures v.actionRan <==> isOpen(v.openAttempts - 1)
    ensures v.closed <==> v.actionRan
    ensures v.success <==> v.actionRan && !actionThrows
  {
    var retry := 0;
    while retry < MaxWalks
      invariant retry <= MaxWalks
      invariant forall k | 0 <= k < retry :: !arrived(k)
    {
      retry := retry + 1;
      if arrived(retry - 1) {
        break;
      }
    }
    var attempt := 0;
    var container := false;
    while attempt < MaxOpens
      invariant attempt <= MaxOpens
      invariant forall k | 0 <= k < attempt :: !isOpen(k)
    {
      container := isOpen(attempt);
      attempt := attempt + 1;
      if container {
        break;
      }
    }
    if !container {
      return BoxVisit(retry, attempt, false, false, false);
    }
    return BoxVisit(retry, attempt, true, true, !actionThrows);
  }
}
