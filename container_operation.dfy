/**
 * The count arithmetic of moving one item type between the bot's inventory
 * and an open container. The container protocol itself is not modelled: the
 * counts the source reads from the container window are parameters, and
 * what the server hands over is an outcome parameter.
 */
module ContainerOperation {
  import opened Wrappers
  import opened Arith

  function Min(a: int, b: int): int { if a < b then a else b }

  /** What `container.withdraw` did: it threw, or this many items arrived in the player slots. */
  datatype Transfer = Threw | Received(n: int)

  /** What `withdraw` decides before it touches the container. */
  datatype WithdrawPlan =
    | InventoryFull               // returns -1
    | ContainerEmpty              // returns -2
    | Take(count: int, remain: int)

  /** The player slots left once `reserve` (absent: 0) are kept free. */
  function UsableSlots(emptySlots: int, reserve: Option<int>): int {
    emptySlots - reserve.GetOr(0)
  }

  /**
   * `withdraw`'s clamping: at most what the container holds, and at most
   * what fits in the usable empty slots; what the container lacks is
   * `remain`, except that when the slots are the limit `remain` is 0.
   * `stock` is the item's count in the container's own slots.
   */
  function PlanWithdraw(stock: nat, stackSize: nat, emptySlots: int, reserve: Option<int>, count: int): (p: WithdrawPlan)
    requires stackSize > 0
    ensures p.InventoryFull? <==> UsableSlots(emptySlots, reserve) < 1
    ensures p.ContainerEmpty? <==> UsableSlots(emptySlots, reserve) >= 1 && Min(count, stock) == 0
    ensures p.Take? ==> p.count != 0 && p.count <= stock && p.count <= stackSize * UsableSlots(emptySlots, reserve)
    ensures p.Take? && CeilDiv(Min(count, stock), stackSize) <= UsableSlots(emptySlots, reserve) ==>
              p.count == Min(count, stock) && p.count + p.remain == count && p.remain >= 0
    ensures p.Take? && CeilDiv(Min(count, stock), stackSize) > UsableSlots(emptySlots, reserve) ==>
              p.count == stackSize * UsableSlots(emptySlots, reserve) && p.remain == 0
  {
    var remain := if count > stock then count - stock else 0;
    var clamped := if count > stock then stock else count;
    var needSlots := CeilDiv(clamped, stackSize);
    var slots := UsableSlots(emptySlots, reserve);
    if slots < 1 then InventoryFull
    else
      var (c, r) := if needSlots > slots then (stackSize * slots, 0) else (clamped, remain);
      if c == 0 then ContainerEmpty
      else
        assert c <= stackSize * slots by {
          if needSlots <= slots {
            MulLe(needSlots, slots, stackSize);
            assert clamped <= needSlots * stackSize;
          }
        }
        assert c <= stock by {
          if needSlots > slots {
            MulLe(slots, needSlots - 1, stackSize);
            assert (needSlots - 1) * stackSize < clamped;
          }
        }
        Take(c, r)
  }

  /**
   * `withdraw`'s result: -1 or -2 from the plan; otherwise the number of
   * items still owed, which is everything planned when the transfer threw,
   * and grows by the shortfall when fewer items arrived than planned.
   */
  function WithdrawResult(p: WithdrawPlan, outcome: Transfer): (r: int)
    ensures p.InventoryFull? ==> r == -1
    ensures p.ContainerEmpty? ==> r == -2
    ensures p.Take? && outcome.Threw? ==> r == p.count + p.remain
    ensures p.Take? && outcome.Received? && outcome.n >= p.count ==> r == p.remain
    ensures p.Take? && outcome.Received? && outcome.n < p.count ==> r == p.remain + p.count - outcome.n
  {
    match p
    case InventoryFull => -1
    case ContainerEmpty => -2
    case Take(count, remain) =>
      match outcome
      case Threw => count + remain
      case Received(n) => if n < count then remain + (count - n) else remain
  }

  /** `withdraw(bot, container, id, count, dontlog, reserve)`. */
  function Withdraw(stock: nat, stackSize: nat, emptySlots: int, reserve: Option<int>, count: int, outcome: Transfer): int
    requires stackSize > 0
  {
    WithdrawResult(PlanWithdraw(stock, stackSize, emptySlots, reserve, count), outcome)
  }

  /** A full inventory is reported as -1 even when the container is empty too: the -1 check comes first. */
  lemma FullBeforeEmpty(stock: nat, stackSize: nat, emptySlots: int, reserve: Option<int>, count: int, outcome: Transfer)
    requires stackSize > 0 && UsableSlots(emptySlots, reserve) < 1
    ensures Withdraw(stock, stackSize, emptySlots, reserve, count, outcome) == -1
  {
  }

  /**
   * When the slots are not the limit, what arrives plus what `withdraw`
   * reports as still owed is what the caller asked for.
   */
  lemma WithdrawAccounts(stock: nat, stackSize: nat, emptySlots: int, reserve: Option<int>, count: int, n: int)
    requires stackSize > 0 && UsableSlots(emptySlots, reserve) >= 1 && count > 0 && stock > 0
    requires CeilDiv(Min(count, stock), stackSize) <= UsableSlots(emptySlots, reserve)
    requires n <= Min(count, stock)
    ensures Withdraw(stock, stackSize, emptySlots, reserve, count, Received(n)) + n == count
  {
    var p := PlanWithdraw(stock, stackSize, emptySlots, reserve, count);
    assert p.Take?;
  }

  /** What `deposit` decides before it touches the container. */
  datatype DepositPlan =
    | NothingAsked                // returns 0
    | ContainerFull               // returns -1
    | Put(count: int, remain: int)

  /** The count `deposit` is asked for: -1 stands for everything the bot holds. */
  function Asked(held: nat, count: int): int {
    if count == -1 then held else count
  }

  /**
   * `deposit`'s clamping: at most what the bot holds, and at most the
   * container's free capacity `slots * stackSize - inContainer`; what does
   * not fit is `remain`. `slots` is the container's `inventoryStart`.
   */
  function PlanDeposit(held: nat, inContainer: nat, slots: nat, stackSize: nat, count: int): (p: DepositPlan)
    ensures p.NothingAsked? <==> Asked(held, count) == 0
    ensures p.ContainerFull? <==> Asked(held, count) != 0 && Min(Min(Asked(held, count), held), slots * stackSize - inContainer) <= 0
    ensures p.Put? ==> 0 < p.count <= held && p.count <= slots * stackSize - inContainer && p.remain >= 0
    ensures p.Put? ==> p.count + p.remain == Min(Asked(held, count), held)
  {
    var asked := Asked(held, count);
    if asked == 0 then NothingAsked
    else
      var c := if asked > held then held else asked;
      var maxCanDeposit := slots * stackSize - inContainer;
      var (c', remain) := if c > maxCanDeposit then (maxCanDeposit, c - maxCanDeposit) else (c, 0);
      if c' <= 0 then ContainerFull else Put(c', remain)
  }

  /** `deposit`'s result: 0, -1, or what did not fit (a throwing transfer is only logged). */
  function DepositResult(p: DepositPlan): (r: int)
    ensures p.NothingAsked? ==> r == 0
    ensures p.ContainerFull? ==> r == -1
    ensures p.Put? ==> r == p.remain
  {
    match p
    case NothingAsked => 0
    case ContainerFull => -1
    case Put(_, remain) => remain
  }

  /** `deposit(bot, container, id, count, dontlog)`. */
  function Deposit(held: nat, inContainer: nat, slots: nat, stackSize: nat, count: int): int {
    DepositResult(PlanDeposit(held, inContainer, slots, stackSize, count))
  }

  /** Depositing everything into a container with room for it leaves nothing over. */
  lemma DepositAllFits(held: nat, inContainer: nat, slots: nat, stackSize: nat)
    requires 0 < held <= slots * stackSize - inContainer
    ensures PlanDeposit(held, inContainer, slots, stackSize, -1) == Put(held, 0)
    ensures Deposit(held, inContainer, slots, stackSize, -1) == 0
  {
  }

  /** Depositing into a container already at capacity reports -1, whatever is asked. */
  lemma DepositIntoFull(held: nat, inContainer: nat, slots: nat, stackSize: nat, count: int)
    requires slots * stackSize <= inContainer && Asked(held, count) != 0
    ensures Deposit(held, inContainer, slots, stackSize, count) == -1
  {
  }
}
