/**
 * The bounded A* search the printers use to fly the bot next to a block:
 * an array-backed binary min-heap, one search step that expands at most
 * twelve moves through passable cells, the reconstruction of the path from
 * the end node's parent chain, and the outer loop's counters.
 *
 * Distances are abstract: the heuristic `h` is a parameter (the Euclidean
 * distance to the target in the source), and the wall-clock deadlines are
 * oracles indexed by the iteration they are consulted in.
 */
module Pathfinder {
  import opened Wrappers
  import opened Schematic
  import BasePrinter

  // ---------------------------------------------------------------------
  // MinHeap
  // ---------------------------------------------------------------------

  /** Index of the parent of heap slot `i`. */
  function Parent(i: nat): nat
    requires i > 0
  {
    (i - 1) / 2
  }

  /** Heap order: no slot is smaller than its parent under `key`. */
  ghost predicate Ordered<T>(d: seq<T>, key: T -> real) {
    forall k | 0 < k < |d| :: key(d[Parent(k)]) <= key(d[k])
  }

  /** Heap order except between slot `i` and its parent; `i`'s parent is below `i`'s children. */
  ghost predicate OrderedAbove<T>(d: seq<T>, key: T -> real, i: nat) {
    && (forall k | 0 < k < |d| && k != i :: key(d[Parent(k)]) <= key(d[k]))
    && (0 < i < |d| ==> forall k | 0 < k < |d| && Parent(k) == i :: key(d[Parent(i)]) <= key(d[k]))
  }

  /** Heap order except between slot `i` and its children; `i`'s parent is below `i`'s children. */
  ghost predicate OrderedBelow<T>(d: seq<T>, key: T -> real, i: nat) {
    && (forall k | 0 < k < |d| && Parent(k) != i :: key(d[Parent(k)]) <= key(d[k]))
    && (0 < i < |d| ==> forall k | 0 < k < |d| && Parent(k) == i :: key(d[Parent(i)]) <= key(d[k]))
  }

  /** The root of an ordered heap is a minimum. */
  lemma {:induction false} RootIsMin<T>(d: seq<T>, key: T -> real, k: nat)
    requires Ordered(d, key) && k < |d|
    ensures key(d[0]) <= key(d[k])
    decreases k
  {
    if k > 0 {
      RootIsMin(d, key, Parent(k));
    }
  }

  /** `MinHeap`: `compare(a, b) < 0` exactly when `key(a) < key(b)`. */
  class MinHeap<T> {
    var data: seq<T>
    const key: T -> real

    ghost predicate Valid()
      reads this
    {
      Ordered(data, key)
    }

    constructor(key: T -> real)
      ensures Valid() && data == [] && this.key == key
    {
      data := [];
      this.key := key;
    }

    /** `push`: add `val`, keeping the heap order. */
    method Push(val: T)
      requires Valid()
      modifies this
      ensures Valid()
      ensures multiset(data) == multiset(old(data)) + multiset{val}
      ensures |data| == |old(data)| + 1
    {
      data := data + [val];
      Up(|data| - 1);
    }

    /**
     * `pop`: `None` (the source's `null`) on an empty heap; otherwise a
     * minimum under `key`, removed from the heap.
     */
    method Pop() returns (top: Option<T>)
      requires Valid()
      modifies this
      ensures Valid()
      ensures top.None? <==> old(data) == []
      ensures top.None? ==> data == []
      ensures top.Some? ==> multiset(old(data)) == multiset(data) + multiset{top.value}
      ensures top.Some? ==> |data| == |old(data)| - 1
      ensures top.Some? ==> forall k | 0 <= k < |old(data)| :: key(top.value) <= key(old(data)[k])
    {
      if |data| == 0 {
        return None;
      }
      RootIsMinAll(data, key);
      top := Some(data[0]);
      if |data| == 1 {
        assert data == [data[0]];
        data := [];
      } else {
        LastToRoot(data, key);
        data := data[..|data| - 1][0 := data[|data| - 1]];
        Down(0);
      }
    }

    /** `_up(i)`: move slot `i` towards the root while it is below its parent. */
    method Up(i0: nat)
      requires i0 < |data| && OrderedAbove(data, key, i0)
      modifies this
      ensures Valid()
      ensures multiset(data) == multiset(old(data)) && |data| == |old(data)|
    {
      var i: nat := i0;
      while i > 0
        invariant i < |data| && OrderedAbove(data, key, i)
        invariant multiset(data) == multiset(old(data)) && |data| == |old(data)|
        decreases i
      {
        var p := Parent(i);
        if key(data[i]) < key(data[p]) {
          SwapUp(data, key, i);
          SwapSame(data, i, p);
          data := data[i := data[p]][p := data[i]];
          i := p;
        } else {
          break;
        }
      }
    }

    /** `_down(i)`: move slot `i` towards the leaves while a child is below it. */
    method Down(i0: nat)
      requires i0 < |data| && OrderedBelow(data, key, i0)
      modifies this
      ensures Valid()
      ensures multiset(data) == multiset(old(data)) && |data| == |old(data)|
    {
      var i: nat := i0;
      var len := |data|;
      while true
        invariant i < |data| == len && OrderedBelow(data, key, i)
        invariant multiset(data) == multiset(old(data)) && |data| == |old(data)|
        decreases len - i
      {
        var left := 2 * i + 1;
        var right := 2 * i + 2;
        var best := i;
        if left < len && key(data[left]) < key(data[best]) {
          best := left;
        }
        if right < len && key(data[right]) < key(data[best]) {
          best := right;
        }
        if best != i {
          ghost var d := data;
          data := data[i := data[best]][best := data[i]];
          assert OrderedBelow(data, key, best) && multiset(data) == multiset(d) by {
            SwapDown(d, key, i, best);
            SwapSame(d, i, best);
          }
          i := best;
        } else {
          Settled(data, key, i);
          break;
        }
      }
    }
  }

  /** The root of an ordered heap is a minimum of every slot. */
  lemma RootIsMinAll<T>(d: seq<T>, key: T -> real)
    requires Ordered(d, key) && |d| > 0
    ensures forall k | 0 <= k < |d| :: key(d[0]) <= key(d[k])
  {
    forall k | 0 <= k < |d| ensures key(d[0]) <= key(d[k]) {
      RootIsMin(d, key, k);
    }
  }

  /** Moving the last slot to the root of an ordered heap leaves the gap at the root, and drops only the old root. */
  lemma LastToRoot<T>(d: seq<T>, key: T -> real)
    requires Ordered(d, key) && |d| > 1
    ensures var e := d[..|d| - 1][0 := d[|d| - 1]];
            && |e| == |d| - 1 && OrderedBelow(e, key, 0)
            && multiset(d) == multiset(e) + multiset{d[0]}
  {
    var e := d[..|d| - 1][0 := d[|d| - 1]];
    assert d == [d[0]] + d[1..|d| - 1] + [d[|d| - 1]];
    assert e == [d[|d| - 1]] + d[1..|d| - 1];
    forall k | 0 < k < |e| && Parent(k) != 0
      ensures key(e[Parent(k)]) <= key(e[k])
    {
      assert e[Parent(k)] == d[Parent(k)] && e[k] == d[k];
    }
  }

  /** Swapping two slots keeps the elements. */
  lemma SwapSame<T>(d: seq<T>, i: nat, j: nat)
    requires i < |d| && j < |d|
    ensures multiset(d[i := d[j]][j := d[i]]) == multiset(d)
  {
  }

  /** A slot no larger than its children closes the only gap in the order. */
  lemma Settled<T>(d: seq<T>, key: T -> real, i: nat)
    requires i < |d| && OrderedBelow(d, key, i)
    requires 2 * i + 1 < |d| ==> key(d[i]) <= key(d[2 * i + 1])
    requires 2 * i + 2 < |d| ==> key(d[i]) <= key(d[2 * i + 2])
    ensures Ordered(d, key)
  {
    forall k | 0 < k < |d| && Parent(k) == i
      ensures key(d[Parent(k)]) <= key(d[k])
    {
      assert k == 2 * i + 1 || k == 2 * i + 2;
    }
  }

  /** Swapping a slot that is below its parent with that parent moves the gap up. */
  lemma SwapUp<T>(d: seq<T>, key: T -> real, i: nat)
    requires 0 < i < |d| && OrderedAbove(d, key, i) && key(d[i]) < key(d[Parent(i)])
    ensures OrderedAbove(d[i := d[Parent(i)]][Parent(i) := d[i]], key, Parent(i))
  {
    var p := Parent(i);
    var e := d[i := d[p]][p := d[i]];
    forall k | 0 < k < |e| && k != p
      ensures key(e[Parent(k)]) <= key(e[k])
    {
      if k == i {
      } else if Parent(k) == i {
      } else if Parent(k) == p {
        assert key(d[p]) <= key(d[k]);
      } else if Parent(k) != i && Parent(k) != p {
        assert e[Parent(k)] == d[Parent(k)];
      }
    }
    if p > 0 {
      forall k | 0 < k < |e| && Parent(k) == p
        ensures key(e[Parent(p)]) <= key(e[k])
      {
        assert e[Parent(p)] == d[Parent(p)];
        assert key(d[Parent(p)]) <= key(d[p]);
        if k != i {
          assert key(d[p]) <= key(d[k]);
        }
      }
    }
  }

  /** Swapping a slot with its smallest child, when that child is below it, moves the gap down. */
  lemma SwapDown<T>(d: seq<T>, key: T -> real, i: nat, best: nat)
    requires i < best < |d| && (best == 2 * i + 1 || best == 2 * i + 2)
    requires OrderedBelow(d, key, i) && key(d[best]) < key(d[i])
    requires 2 * i + 1 < |d| ==> key(d[best]) <= key(d[2 * i + 1])
    requires 2 * i + 2 < |d| ==> key(d[best]) <= key(d[2 * i + 2])
    ensures OrderedBelow(d[i := d[best]][best := d[i]], key, best)
  {
    var e := d[i := d[best]][best := d[i]];
    assert Parent(best) == i;
    forall k | 0 < k < |e| && Parent(k) != best
      ensures key(e[Parent(k)]) <= key(e[k])
    {
      SwapDownOutside(d, key, i, best, k);
    }
    forall k | 0 < k < |e| && Parent(k) == best
      ensures key(e[Parent(best)]) <= key(e[k])
    {
      SwapDownChild(d, key, i, best, k);
    }
  }

  /** After the swap, slot `k` outside the gap still sits above no smaller parent. */
  lemma SwapDownOutside<T>(d: seq<T>, key: T -> real, i: nat, best: nat, k: nat)
    requires i < best < |d| && (best == 2 * i + 1 || best == 2 * i + 2)
    requires OrderedBelow(d, key, i) && key(d[best]) < key(d[i])
    requires 2 * i + 1 < |d| ==> key(d[best]) <= key(d[2 * i + 1])
    requires 2 * i + 2 < |d| ==> key(d[best]) <= key(d[2 * i + 2])
    requires 0 < k < |d| && Parent(k) != best
    ensures key(d[i := d[best]][best := d[i]][Parent(k)]) <= key(d[i := d[best]][best := d[i]][k])
  {
    var e := d[i := d[best]][best := d[i]];
    if k == best {
      assert Parent(k) == i;
    } else if Parent(k) == i {
      assert k == 2 * i + 1 || k == 2 * i + 2;
      assert e[Parent(k)] == d[best] && e[k] == d[k];
    } else if k == i {
      assert key(d[Parent(i)]) <= key(d[best]);
    } else {
      assert e[Parent(k)] == d[Parent(k)] && e[k] == d[k];
    }
  }

  /** After the swap, each child of slot `best` is no smaller than the slot above the gap. */
  lemma SwapDownChild<T>(d: seq<T>, key: T -> real, i: nat, best: nat, k: nat)
    requires i < best < |d| && (best == 2 * i + 1 || best == 2 * i + 2)
    requires OrderedBelow(d, key, i)
    requires 0 < k < |d| && Parent(k) == best
    ensures key(d[i := d[best]][best := d[i]][i]) <= key(d[i := d[best]][best := d[i]][k])
  {
    assert Parent(k) != i;
    assert key(d[best]) <= key(d[k]);
  }

  // ---------------------------------------------------------------------
  // astarStep
  // ---------------------------------------------------------------------

  /** `legitimate_block`: the block names the bot may fly through. */
  const Legitimate: seq<string> := ["air", "cave_air", "light", "water", "vine"]

  /** The six unit moves, in the order they are expanded. */
  const Dirs: seq<Vec3> := [Vec3(0, 1, 0), Vec3(0, -1, 0), Vec3(0, 0, -1), Vec3(0, 0, 1), Vec3(-1, 0, 0), Vec3(1, 0, 0)]

  /** A search node stops being expanded once it is this many moves from the start. */
  const MaxStep: nat := 12

  predicate Legit(b: Option<string>) {
    b.Some? && b.value in Legitimate
  }

  /** The bot fits in `p`: the block there and the block above are both loaded and passable. */
  predicate Passable(world: map<Vec3, string>, p: Vec3) {
    Legit(BasePrinter.BlockAt(world, p)) && Legit(BasePrinter.BlockAt(world, p.Offset(0, 1, 0)))
  }

  predicate Adjacent(a: Vec3, b: Vec3) {
    b.Minus(a) in Dirs
  }

  /**
   * A search node. The source links a node to its parent object; here the
   * parent is the position, in the list of popped nodes, of the node it was
   * discovered from (-1 for the start node).
   */
  datatype Node = Node(pos: Vec3, g: nat, h: real, f: real, step: nat, parent: int)

  /** The heap's `compare`: `(a, b) => a.f - b.f`. */
  function NodeKey(): Node -> real {
    (n: Node) => n.f
  }

  /**
   * `n` was discovered by the search: its costs are those of its parent plus
   * one move, that parent sits before `bound` in `nodes` (the nodes popped so
   * far) and is one move away, and the move lands on a passable cell.
   */
  ghost predicate Linked(world: map<Vec3, string>, start: Vec3, h: Vec3 -> real, nodes: seq<Node>, n: Node, bound: nat) {
    && n.h == h(n.pos) && n.f == n.g as real + n.h && n.step <= MaxStep && n.g == n.step
    && bound <= |nodes|
    && if n.parent < 0 then
         n.parent == -1 && n.pos == start && n.step == 0
       else
         && n.parent < bound
         && Adjacent(nodes[n.parent].pos, n.pos) && Passable(world, n.pos)
         && n.step == nodes[n.parent].step + 1
  }

  /** Every popped node is linked to an earlier one, and its position is closed. */
  ghost predicate ArenaOk(world: map<Vec3, string>, start: Vec3, h: Vec3 -> real, nodes: seq<Node>, closed: set<Vec3>) {
    forall j | 0 <= j < |nodes| :: Linked(world, start, h, nodes, nodes[j], j) && nodes[j].pos in closed
  }

  /**
   * The heap's contents and `openSet` describe the same nodes: one node per
   * open position, none of them closed.
   */
  ghost predicate OpenOk(world: map<Vec3, string>, start: Vec3, h: Vec3 -> real, nodes: seq<Node>,
                         heap: multiset<Node>, openSet: map<Vec3, Node>, closed: set<Vec3>) {
    && (forall n | n in heap :: Linked(world, start, h, nodes, n, |nodes|) && n.pos in openSet && openSet[n.pos] == n && heap[n] == 1)
    && (forall p | p in openSet :: openSet[p] in heap && openSet[p].pos == p && p !in closed)
  }

  predicate Distinct<T(==)>(s: seq<T>) {
    forall i, j | 0 <= i < j < |s| :: s[i] != s[j]
  }

  /**
   * `pushes` lists every position ever pushed onto OPEN, once each: they are
   * exactly the open and the closed positions, and each is the start or passable.
   */
  ghost predicate PushedOk(world: map<Vec3, string>, start: Vec3, pushes: seq<Vec3>, openSet: map<Vec3, Node>, closed: set<Vec3>) {
    && Distinct(pushes)
    && (forall p :: p in pushes <==> p in closed || p in openSet)
    && (forall p | p in pushes :: p == start || Passable(world, p))
  }

  /** Every passable neighbour of an expanded position has been pushed. */
  ghost predicate Expanded(world: map<Vec3, string>, pushes: seq<Vec3>, closed: set<Vec3>, current: Vec3, upto: nat) {
    forall c, i | c in closed && 0 <= i < |Dirs| && (c != current || i < upto) ::
      Passable(world, Move(c, i)) ==> Move(c, i) in pushes
  }

  /** The cell the `i`-th move leads to from `c`. */
  function Move(c: Vec3, i: nat): Vec3
    requires i < |Dirs|
  {
    c.Plus(Dirs[i])
  }

  /** No passable move leaves `region`. */
  ghost predicate ClosedUnderMoves(world: map<Vec3, string>, region: set<Vec3>) {
    forall c, i | c in region && 0 <= i < |Dirs| :: Passable(world, Move(c, i)) ==> Move(c, i) in region
  }

  /** `path` is a flight from `start` one move at a time through passable cells. */
  predicate IsWalk(world: map<Vec3, string>, start: Vec3, path: seq<Vec3>) {
    && (|path| > 0 ==> Hop(world, start, path[0]))
    && forall i | 0 < i < |path| :: Hop(world, path[i - 1], path[i])
  }

  /** One move of a flight: to an adjacent passable cell. */
  predicate Hop(world: map<Vec3, string>, a: Vec3, b: Vec3) {
    Passable(world, b) && Adjacent(a, b)
  }

  /** Where a flight along `path` from `start` ends. */
  function End(start: Vec3, path: seq<Vec3>): Vec3 {
    if path == [] then start else path[|path| - 1]
  }

  lemma LinkedGrow(world: map<Vec3, string>, start: Vec3, h: Vec3 -> real, nodes: seq<Node>, x: Node, n: Node, bound: nat)
    requires Linked(world, start, h, nodes, n, bound)
    ensures Linked(world, start, h, nodes + [x], n, bound)
  {
    if n.parent >= 0 {
      assert (nodes + [x])[n.parent] == nodes[n.parent];
    }
  }

  /**
   * Popping the heap's minimum closes its position and records the node:
   * the heap, the open map, the arena and the pushed list stay in agreement.
   */
  lemma PopKeeps(world: map<Vec3, string>, start: Vec3, h: Vec3 -> real, nodes: seq<Node>,
                 heap: multiset<Node>, rest: multiset<Node>, top: Node, openSet: map<Vec3, Node>, closed: set<Vec3>, pushes: seq<Vec3>)
    requires OpenOk(world, start, h, nodes, heap, openSet, closed)
    requires ArenaOk(world, start, h, nodes, closed)
    requires PushedOk(world, start, pushes, openSet, closed)
    requires heap == rest + multiset{top}
    ensures top.pos in openSet && top.pos !in closed
    ensures OpenOk(world, start, h, nodes + [top], rest, openSet - {top.pos}, closed + {top.pos})
    ensures ArenaOk(world, start, h, nodes + [top], closed + {top.pos})
    ensures PushedOk(world, start, pushes, openSet - {top.pos}, closed + {top.pos})
    ensures Linked(world, start, h, nodes + [top], top, |nodes|)
  {
    var nodes', openSet', closed' := nodes + [top], openSet - {top.pos}, closed + {top.pos};
    assert top in heap;
    LinkedGrow(world, start, h, nodes, top, top, |nodes|);
    forall n | n in rest
      ensures Linked(world, start, h, nodes', n, |nodes'|) && n.pos in openSet' && openSet'[n.pos] == n && rest[n] == 1
    {
      assert n in heap;
      LinkedGrow(world, start, h, nodes, top, n, |nodes|);
      assert heap[n] == rest[n] + (if n == top then 1 else 0);
    }
    forall p | p in openSet'
      ensures openSet'[p] in rest && openSet'[p].pos == p && p !in closed'
    {
      assert openSet[p] != top;
    }
    forall j | 0 <= j < |nodes'|
      ensures Linked(world, start, h, nodes', nodes'[j], j) && nodes'[j].pos in closed'
    {
      if j < |nodes| {
        LinkedGrow(world, start, h, nodes, top, nodes[j], j);
      }
    }
  }

  /**
   * One neighbour of the node just popped (at `ci` in `nodes`): skipped when
   * closed or not passable, and pushed only when its position is not open yet.
   * A cheaper route to an open position is discarded, as in the source, whose
   * new node is built and then dropped.
   */
  method Relax(world: map<Vec3, string>, start: Vec3, h: Vec3 -> real, open: MinHeap<Node>,
               openSet: map<Vec3, Node>, closed: set<Vec3>, nodes: seq<Node>, ghost pushes: seq<Vec3>, ci: nat, d: Vec3)
    returns (openSet': map<Vec3, Node>, ghost pushes': seq<Vec3>)
    requires open.Valid() && open.key == NodeKey()
    requires ci < |nodes| && nodes[ci].step < MaxStep && d in Dirs
    requires Linked(world, start, h, nodes, nodes[ci], ci)
    requires OpenOk(world, start, h, nodes, multiset(open.data), openSet, closed)
    requires PushedOk(world, start, pushes, openSet, closed)
    modifies open
    ensures open.Valid()
    ensures OpenOk(world, start, h, nodes, multiset(open.data), openSet', closed)
    ensures PushedOk(world, start, pushes', openSet', closed)
    ensures pushes' == pushes || pushes' == pushes + [nodes[ci].pos.Plus(d)]
    ensures Passable(world, nodes[ci].pos.Plus(d)) ==> nodes[ci].pos.Plus(d) in pushes'
  {
    openSet', pushes' := openSet, pushes;
    var current := nodes[ci];
    var neighbor := current.pos.Plus(d);
    if neighbor in closed {
      return;
    }
    var block := BasePrinter.BlockAt(world, neighbor);
    var blockAbove := BasePrinter.BlockAt(world, neighbor.Offset(0, 1, 0));
    if block.Some? && blockAbove.Some? && block.value in Legitimate && blockAbove.value in Legitimate {
      var g := current.g + 1;
      var hv := h(neighbor);
      var f := g as real + hv;
      if neighbor in openSet && openSet[neighbor].g <= g {
        return;
      }
      var node := Node(neighbor, g, hv, f, current.step + 1, ci);
      if neighbor !in openSet {
        assert neighbor.Minus(current.pos) == d;
        assert Linked(world, start, h, nodes, node, |nodes|);
        assert node !in multiset(open.data);
        open.Push(node);
        openSet' := openSet[neighbor := node];
        pushes' := pushes + [neighbor];
      }
    }
  }

  /** Every node's parent was popped before it. */
  predicate Backward(nodes: seq<Node>) {
    forall j | 0 <= j < |nodes| :: -1 <= nodes[j].parent < j
  }

  lemma ArenaBackward(world: map<Vec3, string>, start: Vec3, h: Vec3 -> real, nodes: seq<Node>, closed: set<Vec3>)
    requires ArenaOk(world, start, h, nodes, closed)
    ensures Backward(nodes)
  {
    forall j | 0 <= j < |nodes| ensures -1 <= nodes[j].parent < j {
      assert Linked(world, start, h, nodes, nodes[j], j);
    }
  }

  /** The positions on the parent chain of `n`, from the start's first move up to `n`. */
  function Chain(nodes: seq<Node>, n: Node): seq<Vec3>
    requires Backward(nodes) && -1 <= n.parent < |nodes|
    decreases n.parent + 1
  {
    if n.parent < 0 then [] else Chain(nodes, nodes[n.parent]) + [n.pos]
  }

  /**
   * The parent chain of a discovered node is a flight from the start through
   * passable cells, one move per step, ending at the node.
   */
  lemma {:induction false} ChainIsWalk(world: map<Vec3, string>, start: Vec3, h: Vec3 -> real, nodes: seq<Node>,
                                       closed: set<Vec3>, n: Node, bound: nat)
    requires ArenaOk(world, start, h, nodes, closed) && Linked(world, start, h, nodes, n, bound)
    ensures Backward(nodes)
    ensures IsWalk(world, start, Chain(nodes, n))
    ensures |Chain(nodes, n)| == n.step <= MaxStep
    ensures End(start, Chain(nodes, n)) == n.pos
    decreases n.parent + 1
  {
    ArenaBackward(world, start, h, nodes, closed);
    if n.parent >= 0 {
      var p := nodes[n.parent];
      assert Linked(world, start, h, nodes, p, n.parent);
      ChainIsWalk(world, start, h, nodes, closed, p, n.parent);
      var c := Chain(nodes, p);
      assert Chain(nodes, n) == c + [n.pos];
      var w := c + [n.pos];
      assert Hop(world, End(start, c), n.pos);
      forall i | 0 < i < |w|
        ensures Hop(world, w[i - 1], w[i])
      {
        if i < |c| {
          assert w[i] == c[i] && w[i - 1] == c[i - 1];
        } else {
          assert w[i - 1] == End(start, c);
        }
      }
      if |c| > 0 {
        assert w[0] == c[0];
      }
    }
  }

  /** Path reconstruction: follow the parents from `e` back to the start, prepending each position. */
  method Reconstruct(nodes: seq<Node>, e: Node) returns (path: seq<Vec3>)
    requires Backward(nodes) && -1 <= e.parent < |nodes|
    ensures path == Chain(nodes, e)
  {
    path := [];
    var curr := e;
    while curr.parent >= 0
      invariant -1 <= curr.parent < |nodes|
      invariant Chain(nodes, e) == Chain(nodes, curr) + path
      decreases curr.parent
    {
      path := [curr.pos] + path;
      curr := nodes[curr.parent];
    }
  }

  /** One passable move from inside a region closed under moves stays inside. */
  lemma MoveStaysInside(world: map<Vec3, string>, region: set<Vec3>, a: Vec3, b: Vec3)
    requires a in region && ClosedUnderMoves(world, region) && Passable(world, b) && Adjacent(a, b)
    ensures b in region
  {
    var k :| 0 <= k < |Dirs| && Dirs[k] == b.Minus(a);
    assert Move(a, k) == b;
  }

  /** A flight from inside a region closed under passable moves never leaves it. */
  lemma {:induction false} WalkStaysInside(world: map<Vec3, string>, region: set<Vec3>, start: Vec3, path: seq<Vec3>, i: nat)
    requires start in region && ClosedUnderMoves(world, region) && IsWalk(world, start, path) && i < |path|
    ensures path[i] in region
    decreases i
  {
    var prev := if i == 0 then start else path[i - 1];
    if i > 0 {
      WalkStaysInside(world, region, start, path, i - 1);
    }
    assert Hop(world, prev, path[i]);
    MoveStaysInside(world, region, prev, path[i]);
  }

  /**
   * When OPEN runs dry the closed region holds the start and is closed under
   * passable moves, so no flight from the start reaches a cell it lacks.
   */
  lemma ExhaustedIsComplete(world: map<Vec3, string>, start: Vec3, h: Vec3 -> real, closed: set<Vec3>, path: seq<Vec3>)
    requires start in closed && ClosedUnderMoves(world, closed) && forall c | c in closed :: 1.0 <= h(c)
    requires IsWalk(world, start, path)
    ensures forall i | 0 <= i < |path| :: 1.0 <= h(path[i])
  {
    forall i | 0 <= i < |path| ensures 1.0 <= h(path[i]) {
      WalkStaysInside(world, closed, start, path, i);
    }
  }

  /** The state `astarStep` keeps between iterations, as one predicate. */
  ghost predicate Searching(world: map<Vec3, string>, start: Vec3, h: Vec3 -> real, nodes: seq<Node>, heap: multiset<Node>,
                            openSet: map<Vec3, Node>, closed: set<Vec3>, pushes: seq<Vec3>, best: Node) {
    && OpenOk(world, start, h, nodes, heap, openSet, closed)
    && ArenaOk(world, start, h, nodes, closed)
    && PushedOk(world, start, pushes, openSet, closed) && |pushes| > 0 && pushes[0] == start
    && (forall c | c in closed :: 1.0 <= h(c) && best.h <= h(c))
    && Linked(world, start, h, nodes, best, |nodes|) && best.h <= h(start)
  }

  /**
   * Pop the node with the least `f`, move its position from the open map to
   * the closed set, and keep it as the best node when its `h` is smaller.
   */
  method PopNext(world: map<Vec3, string>, start: Vec3, h: Vec3 -> real, open: MinHeap<Node>,
                 openSet: map<Vec3, Node>, closeSet: set<Vec3>, nodes: seq<Node>, ghost pushes: seq<Vec3>, bestNode: Node)
    returns (current: Node, openSet': map<Vec3, Node>, closeSet': set<Vec3>, nodes': seq<Node>, bestNode': Node)
    requires open.Valid() && open.key == NodeKey() && |open.data| > 0
    requires Searching(world, start, h, nodes, multiset(open.data), openSet, closeSet, pushes, bestNode)
    requires Expanded(world, pushes, closeSet, start, |Dirs|)
    modifies open
    ensures open.Valid()
    ensures current.pos in pushes && current.pos !in closeSet && closeSet' == closeSet + {current.pos}
    ensures nodes' == nodes + [current] && Linked(world, start, h, nodes', current, |nodes|)
    ensures ArenaOk(world, start, h, nodes', closeSet')
    ensures OpenOk(world, start, h, nodes', multiset(open.data), openSet', closeSet')
    ensures PushedOk(world, start, pushes, openSet', closeSet')
    ensures Expanded(world, pushes, closeSet', current.pos, 0)
    ensures bestNode' == (if current.h < bestNode.h then current else bestNode)
    ensures Linked(world, start, h, nodes', bestNode', |nodes'|)
    ensures bestNode'.h <= h(start) && bestNode'.h <= current.h
    ensures forall c | c in closeSet :: 1.0 <= h(c) && bestNode'.h <= h(c)
  {
    ghost var heap0 := multiset(open.data);
    var top := open.Pop();
    current := top.value;
    PopKeeps(world, start, h, nodes, heap0, multiset(open.data), current, openSet, closeSet, pushes);
    openSet' := openSet - {current.pos};
    closeSet' := closeSet + {current.pos};
    nodes' := nodes + [current];
    LinkedGrow(world, start, h, nodes, current, bestNode, |nodes|);
    bestNode' := bestNode;
    if current.h < bestNode.h {
      bestNode' := current;
    }
  }

  /** The six moves out of the node just popped, in order (`for (const d of dirs)`). */
  method ExpandNode(world: map<Vec3, string>, start: Vec3, h: Vec3 -> real, open: MinHeap<Node>,
                    openSet: map<Vec3, Node>, closed: set<Vec3>, nodes: seq<Node>, ghost pushes: seq<Vec3>)
    returns (openSet': map<Vec3, Node>, ghost pushes': seq<Vec3>)
    requires open.Valid() && open.key == NodeKey()
    requires |nodes| > 0 && nodes[|nodes| - 1].step < MaxStep
    requires Linked(world, start, h, nodes, nodes[|nodes| - 1], |nodes| - 1)
    requires OpenOk(world, start, h, nodes, multiset(open.data), openSet, closed)
    requires PushedOk(world, start, pushes, openSet, closed)
    requires Expanded(world, pushes, closed, nodes[|nodes| - 1].pos, 0)
    modifies open
    ensures open.Valid()
    ensures OpenOk(world, start, h, nodes, multiset(open.data), openSet', closed)
    ensures PushedOk(world, start, pushes', openSet', closed)
    ensures Expanded(world, pushes', closed, start, |Dirs|)
    ensures pushes <= pushes'
  {
    var ci := |nodes| - 1;
    openSet', pushes' := openSet, pushes;
    for i := 0 to |Dirs|
      invariant open.Valid() && open.key == NodeKey()
      invariant OpenOk(world, start, h, nodes, multiset(open.data), openSet', closed)
      invariant PushedOk(world, start, pushes', openSet', closed)
      invariant Expanded(world, pushes', closed, nodes[ci].pos, i)
      invariant pushes <= pushes'
    {
      ghost var before := pushes';
      openSet', pushes' := Relax(world, start, h, open, openSet', closed, nodes, pushes', ci, Dirs[i]);
      assert forall p | p in before :: p in pushes';
    }
  }

  /** One round of the search loop after the deadline check: pop, then expand unless the popped node ends the search. */
  method SearchRound(world: map<Vec3, string>, start: Vec3, h: Vec3 -> real, open: MinHeap<Node>,
                     openSet: map<Vec3, Node>, closeSet: set<Vec3>, nodes: seq<Node>, ghost pushes: seq<Vec3>, bestNode: Node)
    returns (current: Node, openSet': map<Vec3, Node>, closeSet': set<Vec3>, nodes': seq<Node>, ghost pushes': seq<Vec3>,
             bestNode': Node, ended: bool)
    requires open.Valid() && open.key == NodeKey() && |open.data| > 0
    requires Searching(world, start, h, nodes, multiset(open.data), openSet, closeSet, pushes, bestNode)
    requires Expanded(world, pushes, closeSet, start, |Dirs|)
    modifies open
    ensures open.Valid()
    ensures current.pos !in closeSet && closeSet' == closeSet + {current.pos}
    ensures current.pos == start || current.pos in world
    ensures ended <==> current.h < 1.0 || current.step >= MaxStep
    ensures ended ==> ArenaOk(world, start, h, nodes', closeSet') && Linked(world, start, h, nodes', current, |nodes'|)
    ensures !ended ==> Searching(world, start, h, nodes', multiset(open.data), openSet', closeSet', pushes', bestNode')
    ensures !ended ==> Expanded(world, pushes', closeSet', start, |Dirs|)
    ensures Distinct(pushes') && |pushes'| > 0 && pushes'[0] == start && forall p | p in pushes' :: p == start || Passable(world, p)
  {
    current, openSet', closeSet', nodes', bestNode' := PopNext(world, start, h, open, openSet, closeSet, nodes, pushes, bestNode);
    pushes' := pushes;
    assert current.pos in pushes;
    ended := current.h < 1.0 || current.step >= MaxStep;
    if ended {
      return;
    }
    openSet', pushes' := ExpandNode(world, start, h, open, openSet', closeSet', nodes', pushes);
    RoundKeepsSearching(world, start, h, nodes', multiset(open.data), openSet', closeSet, current, pushes, pushes', bestNode');
  }

  /** A round that closes `current` (not a goal) and expands it leaves the search state intact. */
  lemma RoundKeepsSearching(world: map<Vec3, string>, start: Vec3, h: Vec3 -> real, nodes: seq<Node>, heap: multiset<Node>,
                            openSet: map<Vec3, Node>, closed: set<Vec3>, current: Node, pushes: seq<Vec3>, pushes': seq<Vec3>, best: Node)
    requires OpenOk(world, start, h, nodes, heap, openSet, closed + {current.pos})
    requires ArenaOk(world, start, h, nodes, closed + {current.pos})
    requires PushedOk(world, start, pushes', openSet, closed + {current.pos})
    requires pushes <= pushes' && |pushes| > 0 && pushes[0] == start
    requires forall c | c in closed :: 1.0 <= h(c) && best.h <= h(c)
    requires current.h == h(current.pos) && 1.0 <= current.h && best.h <= current.h
    requires Linked(world, start, h, nodes, best, |nodes|) && best.h <= h(start)
    ensures Searching(world, start, h, nodes, heap, openSet, closed + {current.pos}, pushes', best)
    ensures Distinct(pushes') && |pushes'| > 0 && pushes'[0] == start
  {
    assert pushes'[0] == pushes[0];
  }

  /** The state before the first round: only the start node, open and pushed; nothing closed. */
  lemma SearchStarts(world: map<Vec3, string>, start: Vec3, h: Vec3 -> real, n: Node)
    requires n == Node(start, 0, h(start), 0.0 + h(start), 0, -1)
    ensures Searching(world, start, h, [], multiset{n}, map[start := n], {}, [start], n)
    ensures Expanded(world, [start], {}, start, |Dirs|)
  {
  }

  /** Closing one more position of the universe leaves fewer to close. */
  lemma CloseShrinks(universe: set<Vec3>, closed: set<Vec3>, p: Vec3)
    requires p in universe && p !in closed
    ensures |universe - (closed + {p})| < |universe - closed|
  {
    assert universe - (closed + {p}) == (universe - closed) - {p};
  }

  /** With OPEN empty, every pushed position is closed, so the closed region is closed under moves. */
  lemma Exhausted(world: map<Vec3, string>, start: Vec3, h: Vec3 -> real, nodes: seq<Node>,
                  openSet: map<Vec3, Node>, closed: set<Vec3>, pushes: seq<Vec3>, best: Node)
    requires Searching(world, start, h, nodes, multiset{}, openSet, closed, pushes, best)
    requires Expanded(world, pushes, closed, start, |Dirs|)
    ensures start in closed && ClosedUnderMoves(world, closed)
  {
    assert openSet == map[];
    assert start in pushes;
    forall c, i | c in closed && 0 <= i < |Dirs| && Passable(world, Move(c, i))
      ensures Move(c, i) in closed
    {
      assert Move(c, i) in pushes;
    }
  }

  /**
   * The search loop of `astarStep`: A* over positions from `start`, ordered
   * by `f = g + h`, giving up when `expired` says the 1.5 s budget is spent
   * at the given iteration. `endNode` is the node to fly to (`None`: OPEN
   * ran dry). `closed`, `pushes` and `timedOut` describe the run: the closed
   * positions, every position pushed onto OPEN in order, and whether it
   * ended on the deadline, with the best node seen so far.
   */
  method Search(world: map<Vec3, string>, start: Vec3, h: Vec3 -> real, expired: nat -> bool)
    returns (nodes: seq<Node>, endNode: Option<Node>, ghost closed: set<Vec3>, ghost pushes: seq<Vec3>, ghost timedOut: bool)
    ensures Distinct(pushes) && |pushes| > 0 && pushes[0] == start
    ensures forall p | p in pushes :: p == start || Passable(world, p)
    ensures endNode.None? ==> start in closed && ClosedUnderMoves(world, closed) && forall c | c in closed :: 1.0 <= h(c)
    ensures endNode.Some? ==> ArenaOk(world, start, h, nodes, closed) && Linked(world, start, h, nodes, endNode.value, |nodes|)
    ensures endNode.Some? && !timedOut ==> endNode.value.h < 1.0 || endNode.value.step >= MaxStep
    ensures endNode.Some? && timedOut ==> endNode.value.h <= h(start) && forall c | c in closed :: endNode.value.h <= h(c)
  {
    var open := new MinHeap<Node>(NodeKey());
    var nodeStart := Node(start, 0, h(start), 0.0 + h(start), 0, -1);
    open.Push(nodeStart);
    var openSet := map[start := nodeStart];
    var closeSet: set<Vec3> := {};
    nodes := [];
    pushes := [start];
    timedOut := false;
    endNode := None;
    var bestNode := nodeStart;
    var iterations: nat := 0;
    ghost var universe := world.Keys + {start};
    assert multiset(open.data) == multiset{nodeStart};
    SearchStarts(world, start, h, nodeStart);
    while |open.data| > 0
      invariant open.Valid() && open.key == NodeKey()
      invariant Searching(world, start, h, nodes, multiset(open.data), openSet, closeSet, pushes, bestNode)
      invariant Expanded(world, pushes, closeSet, start, |Dirs|)
      invariant closeSet <= universe
      invariant endNode.None? && !timedOut
      decreases |universe - closeSet|
    {
      iterations := iterations + 1;
      if expired(iterations) {
        endNode := Some(bestNode);
        timedOut := true;
        break;
      }
      ghost var closed0 := closeSet;
      var current, ended;
      current, openSet, closeSet, nodes, pushes, bestNode, ended :=
        SearchRound(world, start, h, open, openSet, closeSet, nodes, pushes, bestNode);
      CloseShrinks(universe, closed0, current.pos);
      if ended {
        endNode := Some(current);
        break;
      }
    }
    closed := closeSet;
    if endNode.None? {
      Exhausted(world, start, h, nodes, openSet, closeSet, pushes, bestNode);
    }
  }

  /**
   * `astarStep` up to the point where the bot starts moving: the search,
   * then the path rebuilt from the end node's parents (`None`: OPEN ran dry
   * and the bot stays where it is).
   */
  method AStarStep(world: map<Vec3, string>, start: Vec3, h: Vec3 -> real, expired: nat -> bool)
    returns (path: Option<seq<Vec3>>, ghost closed: set<Vec3>, ghost pushes: seq<Vec3>, ghost timedOut: bool)
    ensures Distinct(pushes) && |pushes| > 0 && pushes[0] == start
    ensures forall p | p in pushes :: p == start || Passable(world, p)
    ensures path.Some? ==> IsWalk(world, start, path.value) && |path.value| <= MaxStep
    ensures path.Some? && !timedOut ==> h(End(start, path.value)) < 1.0 || |path.value| == MaxStep
    ensures path.Some? && timedOut ==>
              h(End(start, path.value)) <= h(start) && forall c | c in closed :: h(End(start, path.value)) <= h(c)
    ensures path.None? ==>
              start in closed && ClosedUnderMoves(world, closed) && forall c | c in closed :: 1.0 <= h(c)
  {
    var nodes, endNode;
    nodes, endNode, closed, pushes, timedOut := Search(world, start, h, expired);
    if endNode.None? {
      return None, closed, pushes, timedOut;
    }
    var e := endNode.value;
    ChainIsWalk(world, start, h, nodes, closed, e, |nodes|);
    var p := Reconstruct(nodes, e);
    path := Some(p);
  }

  // ---------------------------------------------------------------------
  // astarfly
  // ---------------------------------------------------------------------

  /** The outer loop calls `astarStep` at most this many times. */
  const MaxCalls: nat := 100
  /** More consecutive rounds than this without moving trigger a forced nudge. */
  const StuckLimit: nat := 10
  /** The search radius for a replacement target starts here ... */
  const AltRadius: nat := 4
  /** ... and grows by one per failed search up to this. */
  const MaxAltRadius: nat := 8

  /**
   * `astarfly`: repeatedly search and fly towards `target` until the bot's
   * cell is the target's, 100 searches were made, or `flyExpired` says the
   * 8 s budget is spent after the given number of searches.
   *
   * `dist` is the Euclidean distance, `findAlt(p, r)` the world's search for
   * a passable cell within `r` of `p` (`bot.findBlock`), and
   * `stepExpired(n, i)` the per-search deadline of the `n`-th search at its
   * `i`-th iteration. The bot's position is its cell. The results are where
   * the bot ends, the target it was flying to last, and the number of
   * searches; `stucks` and `radii` record the stuck counter and the
   * replacement-search radius after each search.
   */
  method AStarFly(world: map<Vec3, string>, pos0: Vec3, target0: Vec3, dist: (Vec3, Vec3) -> real,
                  findAlt: (Vec3, nat) -> Option<Vec3>, stepExpired: (nat, nat) -> bool, flyExpired: nat -> bool)
    returns (pos: Vec3, target: Vec3, calls: nat, ghost stucks: seq<nat>, ghost radii: seq<nat>)
    ensures calls <= MaxCalls
    ensures |stucks| == calls && forall k | 0 <= k < calls :: stucks[k] <= StuckLimit
    ensures |radii| == calls && forall k | 0 <= k < calls :: AltRadius <= radii[k] <= MaxAltRadius
    ensures forall k | 0 < k < calls :: radii[k - 1] <= radii[k]
    ensures pos == pos0 || Passable(world, pos)
    ensures || pos == target
            || calls == MaxCalls
            || (calls > 0 && flyExpired(calls))
            || (calls == 0 && pos == pos0 && dist(pos0, target0) < 0.5)
  {
    pos, target, calls := pos0, target0, 0;
    stucks, radii := [], [];
    if dist(pos0, target0) < 0.5 {
      return;
    }
    var alreadyChecked := false;
    var radius: nat := AltRadius;
    var lastPos := pos0;
    var stuckCount: nat := 0;
    while calls < MaxCalls
      invariant calls <= MaxCalls && |stucks| == calls && |radii| == calls
      invariant stuckCount <= StuckLimit && AltRadius <= radius <= MaxAltRadius
      invariant forall k | 0 <= k < calls :: stucks[k] <= StuckLimit
      invariant forall k | 0 <= k < calls :: AltRadius <= radii[k] <= radius
      invariant forall k | 0 < k < calls :: radii[k - 1] <= radii[k]
      invariant pos == pos0 || Passable(world, pos)
      invariant calls > 0 ==> !flyExpired(calls)
      decreases MaxCalls - calls
    {
      if !alreadyChecked && BasePrinter.BlockAt(world, target).Some? {
        alreadyChecked := true;
        if !Legit(BasePrinter.BlockAt(world, target)) {
          var alt := findAlt(target, radius);
          if alt.None? {
            radius := BasePrinter.Min(radius + 1, MaxAltRadius);
            alreadyChecked := false;
          } else {
            target := alt.value;
          }
        }
      }
      if pos == target {
        break;
      }
      if pos == lastPos {
        stuckCount := stuckCount + 1;
        if stuckCount > StuckLimit {
          stuckCount := 0;
        }
      } else {
        stuckCount := 0;
      }
      lastPos := pos;
      var goal := target;
      var n := calls;
      var path: Option<seq<Vec3>>;
      ghost var closed: set<Vec3>, pushes: seq<Vec3>, timedOut: bool;
      path, closed, pushes, timedOut := AStarStep(world, pos, (p: Vec3) => dist(p, goal), (i: nat) => stepExpired(n, i));
      if path.Some? && path.value != [] {
        var last := |path.value| - 1;
        assert Hop(world, if last == 0 then pos else path.value[last - 1], path.value[last]);
        pos := path.value[last];
      }
      calls := calls + 1;
      stucks := stucks + [stuckCount];
      radii := radii + [radius];
      if flyExpired(calls) {
        break;
      }
    }
  }
}
