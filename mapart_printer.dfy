/**
 * The map-art printer: one layer of blocks placed palette by palette. The
 * palettes are visited in a scaffold-first order; for each palette the
 * candidates are the voxels carrying it, and the printer repeatedly picks the
 * nearest unplaced candidate, flies next to it and sweeps a 9x9x9 block of
 * cells around it, placing every matching candidate within reach. A restock
 * plan is computed whenever the bot runs out of the current block.
 */
module MapartPrinter {
  import opened Wrappers
  import opened Arith
  import opened Schematic
  import opened BuildCache
  import opened Seqs
  import BasePrinter

  /** `needFirstBuildList`: palettes placed before all others. */
  const NeedFirstBuild: seq<string> := ["air", "cobblestone", "glass"]

  /** `BLOCK_EXCLUDE_LIST`: palettes that are never placed. */
  const ExcludeList: seq<string> := ["air", "cave_air", "cobblestone"]

  /** The largest quantity of the current block one restock asks for (36 stacks of 64). */
  const RestockLimit: nat := 2304

  /** A candidate at a squared distance below this is taken at once. */
  const NearDistance: real := 16.0

  // ---------------------------------------------------------------------------
  // The build cache

  /** The map-art printer hashes the `schematic` part of the configuration. */
  function ConfigHash(sc: SchematicConfig): CacheHash {
    MapartHash(sc)
  }

  /** The cache after the start-of-build check, and whether `build` returns `'finish'` at once. */
  datatype Prepared = Prepared(cache: Cache, finished: bool)

  /**
   * The start of `build`: a cache for another configuration is reset (the
   * layer fields, which this printer does not use, are kept); a cache for this
   * configuration counts one more reconnection. A cache that records an end
   * time finishes without building.
   */
  function PrepareCache(c: Cache, sch: Schematic, sc: SchematicConfig, now: int): (r: Prepared)
    ensures r.cache.hash == ConfigHash(sc)
    ensures r.finished <==> r.cache.endTime != -1
    ensures c.hash != ConfigHash(sc) ==>
      && !r.finished
      && r.cache.placedBlock == 0 && r.cache.currentPalette == 0
      && r.cache.totalBlocks == sch.totalBlocks
      && r.cache.startTime == now && r.cache.endTime == -1 && r.cache.useTime == -1
      && r.cache.origin == Vec3(0, 0, 0) && r.cache.destination == FarCorner(sch)
      && r.cache.placementOrigin == PlacementPoint(sc)
      && r.cache.placementDestination == PlacementPoint(sc).Plus(FarCorner(sch))
      && r.cache.debug == ZeroDebug
      && r.cache.currentLayer == c.currentLayer && r.cache.totalLayer == c.totalLayer
      && r.cache.regionTotalBlocks == c.regionTotalBlocks
    ensures c.hash == ConfigHash(sc) ==>
      && r.finished == (c.endTime != -1)
      && r.cache == c.(debug := c.debug.(disconnectCount := c.debug.disconnectCount + 1))
  {
    var c' :=
      if c.hash != ConfigHash(sc) then
        var dest := Vec3(0, 0, 0).Plus(Vec3(sch.sx, sch.sy, sch.sz)).Offset(-1, -1, -1);
        c.(hash := ConfigHash(sc), placedBlock := 0, totalBlocks := sch.totalBlocks, currentPalette := 0,
           startTime := now, endTime := -1, useTime := -1,
           origin := Vec3(0, 0, 0), destination := dest,
           placementOrigin := PlacementPoint(sc), debug := ZeroDebug,
           placementDestination := PlacementPoint(sc).Plus(dest))
      else
        c.(debug := c.debug.(disconnectCount := c.debug.disconnectCount + 1));
    Prepared(c', c'.endTime != -1)
  }

  /**
   * Restarting with the same configuration resumes: the second check keeps
   * every progress field of the first and only counts a reconnection.
   */
  lemma RestartResumes(c: Cache, sch: Schematic, sc: SchematicConfig, now: int, later: int)
    ensures var first := PrepareCache(c, sch, sc, now);
            var second := PrepareCache(first.cache, sch, sc, later);
            && second.finished == first.finished
            && second.cache.placedBlock == first.cache.placedBlock
            && second.cache.currentPalette == first.cache.currentPalette
            && second.cache.startTime == first.cache.startTime
            && second.cache.debug.disconnectCount == first.cache.debug.disconnectCount + 1
  {
  }

  /** A finished build of the same configuration is never restarted. */
  lemma FinishedStaysFinished(c: Cache, sch: Schematic, sc: SchematicConfig, now: int)
    requires c.hash == ConfigHash(sc) && c.endTime != -1
    ensures PrepareCache(c, sch, sc, now).finished
    ensures PrepareCache(c, sch, sc, now).cache.placedBlock == c.placedBlock
  {
  }

  // ---------------------------------------------------------------------------
  // Material counts

  predicate NonAir(sch: Schematic, i: nat) {
    i < |sch.pids| && sch.pids[i] != 0
  }

  function NonAirKeep(sch: Schematic): nat -> bool {
    (i: nat) => NonAir(sch, i)
  }

  /** `IgnoreAirArray`: the indices of all non-air voxels, ascending. */
  function IgnoreAir(sch: Schematic): seq<nat> {
    Indices(0, |sch.pids|, NonAirKeep(sch))
  }

  /**
   * The scan that fills `materialListForSch` and `IgnoreAirArray`: every
   * non-air voxel is listed once and counted once under its palette id.
   */
  method CountMaterials(sch: Schematic) returns (materials: seq<nat>, ignoreAir: seq<nat>)
    requires sch.Valid()
    ensures |materials| == |sch.palette|
    ensures forall p | 0 < p < |materials| :: materials[p] == Count(sch.pids, p)
    ensures |materials| > 0 ==> materials[0] == 0
    ensures ignoreAir == IgnoreAir(sch)
    ensures forall i: nat :: i in ignoreAir <==> i < |sch.pids| && sch.pids[i] != 0
    ensures Increasing(ignoreAir)
    ensures Sum(materials) == |ignoreAir|
  {
    materials := Fill(|sch.palette|, 0);
    SumZero(materials);
    ignoreAir := [];
    var i := 0;
    while i < sch.Volume()
      invariant 0 <= i <= |sch.pids|
      invariant |materials| == |sch.palette|
      invariant forall p | 0 < p < |materials| :: materials[p] == Count(sch.pids[..i], p)
      invariant |materials| > 0 ==> materials[0] == 0
      invariant ignoreAir == Indices(0, i, NonAirKeep(sch))
      invariant Sum(materials) == |ignoreAir|
    {
      IndicesStep(0, i + 1, NonAirKeep(sch));
      forall p | 0 < p < |materials|
        ensures Count(sch.pids[..i + 1], p) == Count(sch.pids[..i], p) + (if sch.pids[i] == p then 1 else 0)
      {
        CountSnoc(sch.pids, i, p);
      }
      var p := sch.Pid(i);
      if p != 0 {
        ignoreAir := ignoreAir + [i];
        SumIncrement(materials, p);
        materials := materials[p := materials[p] + 1];
      }
      i := i + 1;
    }
    assert sch.pids[..i] == sch.pids;
    IndicesSpec(0, |sch.pids|, NonAirKeep(sch));
  }

  // ---------------------------------------------------------------------------
  // The scaffold-first palette order

  predicate IsScaffold(pal: seq<PaletteEntry>, i: nat) {
    i < |pal| && pal[i].name in NeedFirstBuild
  }

  function ScaffoldKeep(pal: seq<PaletteEntry>): nat -> bool {
    (i: nat) => IsScaffold(pal, i)
  }

  function RestKeep(pal: seq<PaletteEntry>): nat -> bool {
    (i: nat) => !IsScaffold(pal, i)
  }

  /**
   * The intended `sch_palette_order`: the stable partition of the palette
   * indices that puts the scaffold entries (air, cobblestone, glass) first.
   */
  function ScaffoldFirst(pal: seq<PaletteEntry>): seq<nat> {
    Indices(0, |pal|, ScaffoldKeep(pal)) + Indices(0, |pal|, RestKeep(pal))
  }

  /**
   * The order is a permutation of the palette indices in which every
   * scaffold entry precedes every other entry and each group keeps the
   * palette's own order.
   */
  lemma ScaffoldFirstSpec(pal: seq<PaletteEntry>)
    ensures var r := ScaffoldFirst(pal);
      && |r| == |pal|
      && (forall x: nat :: x in r <==> x < |pal|)
      && (forall i, j | 0 <= i < j < |r| :: r[i] != r[j])
      && (forall i, j | 0 <= i < j < |r| && IsScaffold(pal, r[j]) :: IsScaffold(pal, r[i]))
      && (forall i, j | 0 <= i < j < |r| && IsScaffold(pal, r[i]) == IsScaffold(pal, r[j]) :: r[i] < r[j])
  {
    var a := Indices(0, |pal|, ScaffoldKeep(pal));
    var b := Indices(0, |pal|, RestKeep(pal));
    IndicesSpec(0, |pal|, ScaffoldKeep(pal));
    IndicesSpec(0, |pal|, RestKeep(pal));
    IndicesComplement(0, |pal|, ScaffoldKeep(pal), RestKeep(pal));
    var r := a + b;
    forall i, j | 0 <= i < j < |r|
      ensures r[i] != r[j]
      ensures IsScaffold(pal, r[j]) ==> IsScaffold(pal, r[i])
      ensures IsScaffold(pal, r[i]) == IsScaffold(pal, r[j]) ==> r[i] < r[j]
    {
      if j < |a| {
        assert r[i] == a[i] && r[j] == a[j] && a[i] in a && ScaffoldKeep(pal)(a[i]);
      } else if i >= |a| {
        assert r[i] == b[i - |a|] && r[j] == b[j - |a|] && b[j - |a|] in b && RestKeep(pal)(b[j - |a|]);
      } else {
        assert r[i] == a[i] && a[i] in a && ScaffoldKeep(pal)(a[i]);
        assert r[j] == b[j - |a|] && b[j - |a|] in b && RestKeep(pal)(b[j - |a|]);
      }
    }
  }

  /** The indices still in `sch_palette_order` once the scaffold entries at `b` and above are spliced out. */
  function KeepBelow(pal: seq<PaletteEntry>, b: nat): nat -> bool {
    (i: nat) => !(IsScaffold(pal, i) && i >= b)
  }

  /** The lowest scaffold index spliced out so far: `cobble[m]`, or the palette size before any. */
  function Bound(cobble: seq<nat>, m: nat, n: nat): nat {
    if m < |cobble| then cobble[m] else n
  }

  /** Before the splice at `cobble[j]`, the list is the kept indices below it, then `cobble[j]`, then the kept ones above. */
  lemma {:induction false} SpliceShape(pal: seq<PaletteEntry>, cobble: seq<nat>, j: nat)
    requires cobble == Indices(0, |pal|, ScaffoldKeep(pal))
    requires j < |cobble|
    ensures var c, keep := cobble[j], KeepBelow(pal, Bound(cobble, j + 1, |pal|));
      && c < |pal| && |Indices(0, c, keep)| == c
      && Indices(0, |pal|, keep) == Indices(0, c, keep) + [c] + Indices(c + 1, |pal|, keep)
  {
    var n := |pal|;
    IndicesSpec(0, n, ScaffoldKeep(pal));
    var c := cobble[j];
    assert cobble[j] in cobble;
    assert c < Bound(cobble, j + 1, n);
    var keep := KeepBelow(pal, Bound(cobble, j + 1, n));
    IndicesFull(0, c, keep);
    IndicesSplit(0, c, n, keep);
    IndicesSplit(c, c + 1, n, keep);
    IndicesStep(c, c + 1, keep);
  }

  /** After the splice, the list is the same kept indices below and above `cobble[j]`. */
  lemma {:induction false} SpliceRest(pal: seq<PaletteEntry>, cobble: seq<nat>, j: nat)
    requires cobble == Indices(0, |pal|, ScaffoldKeep(pal))
    requires j < |cobble|
    ensures var c, keep := cobble[j], KeepBelow(pal, Bound(cobble, j + 1, |pal|));
      c < |pal| &&
      Indices(0, |pal|, KeepBelow(pal, c)) == Indices(0, c, keep) + Indices(c + 1, |pal|, keep)
  {
    var n := |pal|;
    IndicesSpec(0, n, ScaffoldKeep(pal));
    var c := cobble[j];
    assert cobble[j] in cobble;
    var keep := KeepBelow(pal, Bound(cobble, j + 1, n));
    var keep' := KeepBelow(pal, c);
    assert ScaffoldKeep(pal)(c) && !keep'(c);
    IndicesSplit(0, c, n, keep');
    IndicesSplit(c, c + 1, n, keep');
    IndicesStep(c, c + 1, keep');
    assert Indices(c, n, keep') == Indices(c + 1, n, keep');
    assert c < Bound(cobble, j + 1, n);
    IndicesCongruent(0, c, keep, keep');
    forall x | c + 1 <= x < n
      ensures keep(x) == keep'(x)
    {
      if IsScaffold(pal, x) {
        SpliceAbove(pal, cobble, j, x);
      }
    }
    IndicesCongruent(c + 1, n, keep, keep');
  }

  /** The scaffold indices above `cobble[j]` are the later entries of `cobble`, from `cobble[j + 1]` on. */
  lemma {:induction false} SpliceAbove(pal: seq<PaletteEntry>, cobble: seq<nat>, j: nat, x: nat)
    requires cobble == Indices(0, |pal|, ScaffoldKeep(pal))
    requires j < |cobble| && cobble[j] < x < |pal| && IsScaffold(pal, x)
    ensures j + 1 < |cobble| && cobble[j + 1] <= x
  {
    IndicesSpec(0, |pal|, ScaffoldKeep(pal));
    assert ScaffoldKeep(pal)(x);
    assert x in cobble;
    var m :| 0 <= m < |cobble| && cobble[m] == x;
    assert j < m;
  }

  /**
   * One `splice`: with the scaffold entries above `cobble[j]` gone, index
   * `cobble[j]` still sits at position `cobble[j]`, and removing it leaves the
   * list with the entries from `cobble[j]` on gone.
   */
  lemma {:induction false} SpliceStep(pal: seq<PaletteEntry>, cobble: seq<nat>, j: nat, order: seq<nat>)
    requires cobble == Indices(0, |pal|, ScaffoldKeep(pal))
    requires j < |cobble|
    requires order == Indices(0, |pal|, KeepBelow(pal, Bound(cobble, j + 1, |pal|)))
    ensures cobble[j] < |order| && order[cobble[j]] == cobble[j]
    ensures order[..cobble[j]] + order[cobble[j] + 1..] == Indices(0, |pal|, KeepBelow(pal, cobble[j]))
  {
    var c, keep := cobble[j], KeepBelow(pal, Bound(cobble, j + 1, |pal|));
    SpliceShape(pal, cobble, j);
    SpliceRest(pal, cobble, j);
    var front, back := Indices(0, c, keep), Indices(c + 1, |pal|, keep);
    assert order == front + [c] + back;
    assert order[..c] == front;
    assert order[c + 1..] == back;
  }

  /** Once every scaffold entry is spliced out, the rest is left in palette order. */
  lemma {:induction false} SplicedAll(pal: seq<PaletteEntry>, cobble: seq<nat>)
    requires cobble == Indices(0, |pal|, ScaffoldKeep(pal))
    ensures Indices(0, |pal|, KeepBelow(pal, Bound(cobble, 0, |pal|))) == Indices(0, |pal|, RestKeep(pal))
  {
    IndicesSpec(0, |pal|, ScaffoldKeep(pal));
    forall x | 0 <= x < |pal|
      ensures KeepBelow(pal, Bound(cobble, 0, |pal|))(x) == RestKeep(pal)(x)
    {
      if IsScaffold(pal, x) {
        assert x in cobble;
        var m :| 0 <= m < |cobble| && cobble[m] == x;
        assert m == 0 || cobble[0] < cobble[m];
      }
    }
    IndicesCongruent(0, |pal|, KeepBelow(pal, Bound(cobble, 0, |pal|)), RestKeep(pal));
  }

  /**
   * `sch_palette_order` as built: all indices in order, the scaffold indices
   * spliced out from the highest down (so each still sits at its own
   * position), then pushed back to the front one by one with `unshift`.
   */
  method PaletteOrder(pal: seq<PaletteEntry>) returns (order: seq<nat>)
    ensures order == ScaffoldFirst(pal)
  {
    var cobble;
    order, cobble := ListPalette(pal);
    var fTmp;
    order, fTmp := SpliceScaffold(pal, cobble, order);
    var k := 0;
    ghost var rest := order;
    while k < |fTmp|
      invariant 0 <= k <= |fTmp|
      invariant order == cobble[|cobble| - k..] + rest
    {
      assert [fTmp[k]] + cobble[|cobble| - k..] == cobble[|cobble| - k - 1..];
      order := [fTmp[k]] + order;
      k := k + 1;
    }
  }

  /** The first loop: every palette index in order, and the scaffold ones apart (`cobblestoneIndex`). */
  method ListPalette(pal: seq<PaletteEntry>) returns (order: seq<nat>, cobble: seq<nat>)
    ensures order == Indices(0, |pal|, KeepBelow(pal, |pal|))
    ensures cobble == Indices(0, |pal|, ScaffoldKeep(pal))
  {
    var n := |pal|;
    order := [];
    cobble := [];
    var i := 0;
    while i < n
      invariant 0 <= i <= n
      invariant |order| == i && forall k | 0 <= k < i :: order[k] == k
      invariant cobble == Indices(0, i, ScaffoldKeep(pal))
    {
      IndicesStep(0, i + 1, ScaffoldKeep(pal));
      order := order + [i];
      if pal[i].name in NeedFirstBuild {
        cobble := cobble + [i];
      }
      i := i + 1;
    }
    IndicesSpec(0, n, KeepBelow(pal, n));
    forall x ensures x in order <==> x in Indices(0, n, KeepBelow(pal, n)) {
      if 0 <= x < n {
        assert order[x] == x;
      }
    }
    IncreasingUnique(order, Indices(0, n, KeepBelow(pal, n)));
  }

  /**
   * The `splice` loop, from the last scaffold index down: it leaves the
   * non-scaffold indices in order and collects the removed ones, highest
   * first, in `f_tmp`.
   */
  method SpliceScaffold(pal: seq<PaletteEntry>, cobble: seq<nat>, order0: seq<nat>)
    returns (order: seq<nat>, fTmp: seq<nat>)
    requires cobble == Indices(0, |pal|, ScaffoldKeep(pal))
    requires order0 == Indices(0, |pal|, KeepBelow(pal, |pal|))
    ensures order == Indices(0, |pal|, RestKeep(pal))
    ensures |fTmp| == |cobble| && forall k | 0 <= k < |fTmp| :: fTmp[k] == cobble[|cobble| - 1 - k]
  {
    var n := |pal|;
    order := order0;
    fTmp := [];
    var j := |cobble| - 1;
    while j >= 0
      invariant -1 <= j < |cobble|
      invariant order == Indices(0, n, KeepBelow(pal, Bound(cobble, j + 1, n)))
      invariant |fTmp| == |cobble| - 1 - j
      invariant forall k | 0 <= k < |fTmp| :: fTmp[k] == cobble[|cobble| - 1 - k]
    {
      SpliceStep(pal, cobble, j, order);
      var at := cobble[j];
      var removed := order[at];
      order := order[..at] + order[at + 1..];
      fTmp := fTmp + [removed];
      j := j - 1;
    }
    SplicedAll(pal, cobble);
  }

  // ---------------------------------------------------------------------------
  // The restock planner

  /** One entry of `needReStock`: a block name, a quantity and a position in the palette order. */
  datatype RestockEntry = RestockEntry(name: string, count: nat, p: nat)

  /** What the planner needs about the palette. */
  predicate OrderOk(pal: seq<PaletteEntry>, order: seq<nat>, materials: seq<nat>) {
    && |order| == |pal| && |materials| == |pal|
    && forall k | 0 <= k < |order| :: order[k] < |pal|
  }

  /**
   * The entries the planner appends for the palettes after the current one,
   * from order position `crt` on with `esc` empty slots still to fill:
   * each palette still short of its schematic total (less what the inventory
   * holds) asks for the shortfall, capped at what the free slots hold.
   */
  function ExtraRestock(pal: seq<PaletteEntry>, order: seq<nat>, materials: seq<nat>, inv: string -> nat,
                        crt: nat, esc: int): seq<RestockEntry>
    requires OrderOk(pal, order, materials)
    decreases |pal| - crt
  {
    if crt >= |pal| || esc < 1 then []
    else
      var realId := order[crt];
      var need := materials[realId] - inv(pal[realId].name);
      if need <= 0 then ExtraRestock(pal, order, materials, inv, crt + 1, esc)
      else
        var count := BasePrinter.Min(need, esc * 64);
        [RestockEntry(pal[realId].name, count, crt)]
          + ExtraRestock(pal, order, materials, inv, crt + 1, esc - CeilDiv(count, 64))
  }

  /** The stacks a list of entries occupies. */
  function Stacks(r: seq<RestockEntry>): nat {
    if r == [] then 0 else CeilDiv(r[0].count, 64) + Stacks(r[1..])
  }

  /**
   * The later entries never overrun the free slots: each asks for a positive
   * quantity that fits the slots still free, they follow the palette order,
   * and together they occupy at most `esc` stacks.
   */
  lemma {:induction false} ExtraRestockSpec(pal: seq<PaletteEntry>, order: seq<nat>, materials: seq<nat>,
                                            inv: string -> nat, crt: nat, esc: int)
    requires OrderOk(pal, order, materials)
    decreases |pal| - crt
    ensures var r := ExtraRestock(pal, order, materials, inv, crt, esc);
      && (forall k | 0 <= k < |r| :: 0 < r[k].count <= esc * 64 && crt <= r[k].p < |pal|)
      && (forall k, l | 0 <= k < l < |r| :: r[k].p < r[l].p)
      && Stacks(r) <= BasePrinter.Max(0, esc)
  {
    ExtraRestockEntries(pal, order, materials, inv, crt, esc);
    ExtraRestockStacks(pal, order, materials, inv, crt, esc);
  }

  lemma {:induction false} ExtraRestockStacks(pal: seq<PaletteEntry>, order: seq<nat>, materials: seq<nat>,
                                              inv: string -> nat, crt: nat, esc: int)
    requires OrderOk(pal, order, materials)
    decreases |pal| - crt
    ensures Stacks(ExtraRestock(pal, order, materials, inv, crt, esc)) <= BasePrinter.Max(0, esc)
  {
    if crt < |pal| && esc >= 1 {
      var realId := order[crt];
      var need := materials[realId] - inv(pal[realId].name);
      if need <= 0 {
        ExtraRestockStacks(pal, order, materials, inv, crt + 1, esc);
      } else {
        var count := BasePrinter.Min(need, esc * 64);
        var used := CeilDiv(count, 64);
        assert 1 <= used <= esc by {
          assert (used - 1) * 64 < count <= esc * 64;
        }
        ExtraRestockStacks(pal, order, materials, inv, crt + 1, esc - used);
        var tail := ExtraRestock(pal, order, materials, inv, crt + 1, esc - used);
        var r := [RestockEntry(pal[realId].name, count, crt)] + tail;
        assert r[1..] == tail;
      }
    }
  }

  /** Every entry asks for a positive amount that fits `esc` stacks, at an order position in [crt, n). */
  predicate EntriesFit(r: seq<RestockEntry>, crt: nat, n: nat, esc: int) {
    forall k | 0 <= k < |r| :: 0 < r[k].count <= esc * 64 && crt <= r[k].p < n
  }

  /** Entries follow the palette order strictly. */
  predicate InOrder(r: seq<RestockEntry>) {
    forall k, l | 0 <= k < l < |r| :: r[k].p < r[l].p
  }

  lemma {:induction false} ExtraRestockEntries(pal: seq<PaletteEntry>, order: seq<nat>, materials: seq<nat>,
                                               inv: string -> nat, crt: nat, esc: int)
    requires OrderOk(pal, order, materials)
    decreases |pal| - crt
    ensures EntriesFit(ExtraRestock(pal, order, materials, inv, crt, esc), crt, |pal|, esc)
    ensures InOrder(ExtraRestock(pal, order, materials, inv, crt, esc))
  {
    if crt < |pal| && esc >= 1 {
      var realId := order[crt];
      var need := materials[realId] - inv(pal[realId].name);
      if need <= 0 {
        assert ExtraRestock(pal, order, materials, inv, crt, esc) == ExtraRestock(pal, order, materials, inv, crt + 1, esc);
        ExtraRestockEntries(pal, order, materials, inv, crt + 1, esc);
        EntriesWiden(ExtraRestock(pal, order, materials, inv, crt + 1, esc), crt, |pal|, esc, esc);
      } else {
        var count := BasePrinter.Min(need, esc * 64);
        var used := CeilDiv(count, 64);
        assert 1 <= used <= esc by {
          assert (used - 1) * 64 < count <= esc * 64;
        }
        ExtraRestockEntries(pal, order, materials, inv, crt + 1, esc - used);
        var e := RestockEntry(pal[realId].name, count, crt);
        var tail := ExtraRestock(pal, order, materials, inv, crt + 1, esc - used);
        assert ExtraRestock(pal, order, materials, inv, crt, esc) == [e] + tail;
        EntriesWiden(tail, crt, |pal|, esc - used, esc);
        EntriesCons(e, tail, crt, |pal|, esc);
      }
    }
  }

  /** Entries that fit from `crt + 1` with `esc'` stacks also fit from `crt` with `esc >= esc'`. */
  lemma EntriesWiden(r: seq<RestockEntry>, crt: nat, n: nat, esc': int, esc: int)
    requires EntriesFit(r, crt + 1, n, esc') && esc' <= esc
    ensures EntriesFit(r, crt, n, esc)
  {
    forall k | 0 <= k < |r|
      ensures 0 < r[k].count <= esc * 64 && crt <= r[k].p < n
    {
      assert esc' * 64 <= esc * 64;
    }
  }

  /** An entry at position `crt` before entries from `crt + 1` on keeps them fitting and in order. */
  lemma EntriesCons(e: RestockEntry, tail: seq<RestockEntry>, crt: nat, n: nat, esc: int)
    requires 0 < e.count <= esc * 64 && e.p == crt < n
    requires EntriesFit(tail, crt, n, esc) && InOrder(tail)
    requires forall k | 0 <= k < |tail| :: crt < tail[k].p
    ensures EntriesFit([e] + tail, crt, n, esc) && InOrder([e] + tail)
  {
    var r := [e] + tail;
    forall k | 0 <= k < |r|
      ensures 0 < r[k].count <= esc * 64 && crt <= r[k].p < n
    {
      if k > 0 {
        assert r[k] == tail[k - 1];
      }
    }
    forall k, l | 0 <= k < l < |r|
      ensures r[k].p < r[l].p
    {
      assert r[l] == tail[l - 1];
      if k > 0 {
        assert r[k] == tail[k - 1];
      }
    }
  }

  /** The count of unplaced candidates, stopping once it reaches `RestockLimit`. */
  method CountUnplaced(state: seq<int>) returns (quantity: nat)
    ensures quantity == BasePrinter.Min(Count(state, 0), RestockLimit)
  {
    quantity := 0;
    var i := 0;
    while i < |state|
      invariant 0 <= i <= |state|
      invariant quantity == Count(state[..i], 0) && quantity < RestockLimit
    {
      CountSnoc(state, i, 0);
      if state[i] == 0 {
        quantity := quantity + 1;
      }
      if quantity >= RestockLimit {
        CountPrefix(state, i + 1, 0);
        return;
      }
      i := i + 1;
    }
    assert state[..i] == state;
  }

  /** The loop over the palettes after the current one, from order position `cp + 1` with `esc` free slots. */
  method PlanLater(pal: seq<PaletteEntry>, order: seq<nat>, materials: seq<nat>, cp: nat, esc0: int, inv: string -> nat)
    returns (extra: seq<RestockEntry>)
    requires OrderOk(pal, order, materials)
    ensures extra == ExtraRestock(pal, order, materials, inv, cp + 1, esc0)
  {
    extra := [];
    var esc := esc0;
    var crt := cp + 1;
    while crt < |pal|
      invariant cp + 1 <= crt
      invariant ExtraRestock(pal, order, materials, inv, cp + 1, esc0)
             == extra + ExtraRestock(pal, order, materials, inv, crt, esc)
      decreases |pal| - crt
    {
      if esc < 1 {
        break;
      }
      var realId := order[crt];
      var crtCount: int := materials[realId];
      var crtInv := inv(pal[realId].name);
      crtCount := crtCount - crtInv;
      if crtCount <= 0 {
        crt := crt + 1;
        continue;
      }
      var count := BasePrinter.Min(crtCount, esc * 64);
      var entry := RestockEntry(pal[realId].name, count, crt);
      assert ExtraRestock(pal, order, materials, inv, crt, esc)
          == [entry] + ExtraRestock(pal, order, materials, inv, crt + 1, esc - CeilDiv(count, 64));
      extra := extra + [entry];
      esc := esc - CeilDiv(count, 64);
      crt := crt + 1;
    }
  }

  /**
   * The planner run when the bot holds none of the current block: the
   * current palette first, with its unplaced candidates capped at
   * `RestockLimit`, then the later palettes while free slots remain.
   * `emptySlots` and `inv` are the inventory at that moment.
   */
  method PlanRestock(pal: seq<PaletteEntry>, order: seq<nat>, materials: seq<nat>, cp: nat, name: string,
                     state: seq<int>, emptySlots: int, inv: string -> nat)
    returns (plan: seq<RestockEntry>)
    requires OrderOk(pal, order, materials) && cp < |pal|
    ensures |plan| >= 1
    ensures plan[0] == RestockEntry(name, BasePrinter.Min(Count(state, 0), RestockLimit), cp)
    ensures plan[1..] == ExtraRestock(pal, order, materials, inv, cp + 1, emptySlots - CeilDiv(plan[0].count, 64))
  {
    var quantity := CountUnplaced(state);
    var extra := PlanLater(pal, order, materials, cp, emptySlots - CeilDiv(quantity, 64), inv);
    plan := [RestockEntry(name, quantity, cp)] + extra;
    assert plan[1..] == extra;
  }

  /**
   * The planner's promise: the later entries occupy at most the slots left
   * once the current block's stacks are reserved (none if those already
   * overflow), follow the palette order and each ask for a positive amount.
   */
  lemma PlanRestockBound(pal: seq<PaletteEntry>, order: seq<nat>, materials: seq<nat>, cp: nat,
                         plan: seq<RestockEntry>, emptySlots: int, inv: string -> nat)
    requires OrderOk(pal, order, materials) && |plan| >= 1
    requires plan[1..] == ExtraRestock(pal, order, materials, inv, cp + 1, emptySlots - CeilDiv(plan[0].count, 64))
    ensures Stacks(plan[1..]) <= BasePrinter.Max(0, emptySlots - CeilDiv(plan[0].count, 64))
    ensures forall k | 1 <= k < |plan| :: plan[k].count > 0 && cp < plan[k].p < |pal|
    ensures forall k, l | 1 <= k < l < |plan| :: plan[k].p < plan[l].p
  {
    var esc := emptySlots - CeilDiv(plan[0].count, 64);
    ExtraRestockSpec(pal, order, materials, inv, cp + 1, esc);
    forall k | 1 <= k < |plan| ensures plan[k].count > 0 && cp < plan[k].p < |pal| {
      assert plan[k] == plan[1..][k - 1];
    }
    forall k, l | 1 <= k < l < |plan| ensures plan[k].p < plan[l].p {
      assert plan[k] == plan[1..][k - 1] && plan[l] == plan[1..][l - 1];
    }
  }

  // ---------------------------------------------------------------------------
  // A palette's candidates

  predicate Candidate(sch: Schematic, p: nat, i: nat) {
    NonAir(sch, i) && sch.pids[i] == p
  }

  function CandidateKeep(sch: Schematic, p: nat): nat -> bool {
    (i: nat) => Candidate(sch, p, i)
  }

  /** `currentPaletteBlocksIndexs` for palette id p: its voxels, ascending. */
  function Candidates(sch: Schematic, p: nat): seq<nat> {
    Indices(0, |sch.pids|, CandidateKeep(sch, p))
  }

  /**
   * The scan of `IgnoreAirArray` that starts a palette: the candidates are
   * exactly the non-air voxels with that id, ascending, and all start at 0.
   */
  method SelectCandidates(sch: Schematic, ignoreAir: seq<nat>, p: nat) returns (blocks: seq<nat>, state: seq<int>)
    requires ignoreAir == IgnoreAir(sch)
    ensures blocks == Candidates(sch, p)
    ensures forall i: nat :: i in blocks <==> i < |sch.pids| && sch.pids[i] != 0 && sch.pids[i] == p
    ensures Increasing(blocks) && forall k | 0 <= k < |blocks| :: blocks[k] < |sch.pids|
    ensures state == Fill(|blocks|, 0)
  {
    IndicesSpec(0, |sch.pids|, NonAirKeep(sch));
    IndicesSpec(0, |sch.pids|, CandidateKeep(sch, p));
    blocks := [];
    state := [];
    var i := 0;
    while i < |ignoreAir|
      invariant 0 <= i <= |ignoreAir|
      invariant forall x: nat :: x in blocks <==> x in ignoreAir[..i] && Candidate(sch, p, x)
      invariant Increasing(blocks)
      invariant state == Fill(|blocks|, 0)
    {
      var x := ignoreAir[i];
      assert x in ignoreAir;
      if sch.pids[x] == p {
        forall k | 0 <= k < |blocks| ensures blocks[k] < x {
          assert blocks[k] in ignoreAir[..i];
          var m :| 0 <= m < i && ignoreAir[m] == blocks[k];
        }
        blocks := blocks + [x];
        state := state + [0];
      }
      assert ignoreAir[..i + 1] == ignoreAir[..i] + [x];
      i := i + 1;
    }
    assert ignoreAir[..i] == ignoreAir;
    IncreasingUnique(blocks, Candidates(sch, p));
    forall k | 0 <= k < |blocks| ensures blocks[k] < |sch.pids| {
      assert blocks[k] in blocks;
    }
  }

  // ---------------------------------------------------------------------------
  // The palette being placed

  /** The inventory as the restock planner sees it: free slots and a count per block name. */
  datatype Stock = Stock(emptySlots: int, inv: string -> nat)

  /** What the bot's held-item logic comes to at one cell (switching stacks as needed). */
  datatype Supply =
    | Ready       // the held item is the current block: place it
    | NotReady    // the held item is still something else: skip the cell
    | OutOfStock  // none of the current block in the inventory: restock

  /**
   * The palette being placed, as the loop body sees it: the schematic, the
   * palette order and material counts, the position `cp` in the order, its
   * candidates, its block name and the placement origin.
   */
  datatype Job = Job(sch: Schematic, order: seq<nat>, materials: seq<nat>, cp: nat,
                     blocks: seq<nat>, name: string, origin: Vec3)
  {
    predicate Valid() {
      && sch.Valid() && OrderOk(sch.palette, order, materials) && cp < |order|
      && blocks == Candidates(sch, order[cp]) && name == sch.palette[order[cp]].name
    }

    /** Candidate k's position in the world. */
    function PosOf(k: nat): Vec3
      requires sch.sx > 0 && sch.sz > 0 && k < |blocks|
    {
      origin.Plus(sch.At(blocks[k]))
    }

    /** The world already holds the current block at candidate k. */
    predicate Built(world: map<Vec3, string>, k: nat)
      requires sch.sx > 0 && sch.sz > 0 && k < |blocks|
    {
      BasePrinter.BlockAt(world, PosOf(k)) == Some(name)
    }
  }

  /** Candidate k still waits for placement: state 0 and not cooling down. */
  predicate Eligible(st: seq<int>, cd: seq<int>, k: nat) {
    k < |st| && st[k] == 0 && k !in cd
  }

  /** Candidate k is eligible and not already built: the nearest scan's choices. */
  predicate Open(j: Job, world: map<Vec3, string>, st: seq<int>, cd: seq<int>, k: nat)
    requires j.sch.sx > 0 && j.sch.sz > 0 && |st| == |j.blocks|
  {
    Eligible(st, cd, k) && !j.Built(world, k)
  }

  function Dist(j: Job, dist: Vec3 -> real, k: nat): real
    requires j.sch.sx > 0 && j.sch.sz > 0 && k < |j.blocks|
  {
    dist(j.PosOf(k))
  }

  /**
   * The nearest scan's outcome from states `st0`: `nearest` is the first open
   * candidate closer than `NearDistance` if any, else the earliest open
   * candidate at the least distance, else -1 when none is open. The eligible
   * candidates found built up to the point the scan stopped are flipped to
   * 1, `flips` of them.
   */
  ghost predicate NearestSpec(j: Job, world: map<Vec3, string>, st0: seq<int>, cd: seq<int>, dist: Vec3 -> real,
                              st: seq<int>, flips: int, nearest: int)
    requires j.sch.sx > 0 && j.sch.sz > 0 && |st0| == |j.blocks|
  {
    && -1 <= nearest < |st0| && |st| == |st0|
    && (nearest == -1 <==> forall k | 0 <= k < |st0| :: !Open(j, world, st0, cd, k))
    && (nearest != -1 ==> Open(j, world, st0, cd, nearest))
    && (nearest != -1 && Dist(j, dist, nearest) < NearDistance ==>
          forall k | 0 <= k < nearest && Open(j, world, st0, cd, k) :: Dist(j, dist, k) >= NearDistance)
    && (nearest != -1 && Dist(j, dist, nearest) >= NearDistance ==>
          forall k | 0 <= k < |st0| && Open(j, world, st0, cd, k) ::
            Dist(j, dist, nearest) <= Dist(j, dist, k) && (k < nearest ==> Dist(j, dist, nearest) < Dist(j, dist, k)))
    && (forall k | 0 <= k < |st| ::
          st[k] == if Eligible(st0, cd, k) && j.Built(world, k)
                      && (nearest == -1 || Dist(j, dist, nearest) >= NearDistance || k < nearest)
                   then 1 else st0[k])
    && Count(st, 1) == Count(st0, 1) + flips
  }

  /**
   * The nearest scan over the candidates (`dist` is the squared distance from
   * the bot): built candidates met on the way are marked done, the first
   * candidate closer than `NearDistance` ends the scan, otherwise the
   * earliest strict minimum wins.
   */
  method ScanNearest(j: Job, world: map<Vec3, string>, st0: seq<int>, cd: seq<int>, dist: Vec3 -> real)
    returns (st: seq<int>, flips: nat, nearest: int)
    requires j.sch.sx > 0 && j.sch.sz > 0 && |st0| == |j.blocks|
    ensures NearestSpec(j, world, st0, cd, dist, st, flips, nearest)
  {
    st := st0;
    flips := 0;
    nearest := -1;
    var minDistance: real := 0.0;
    var i := 0;
    while i < |j.blocks|
      invariant 0 <= i <= |j.blocks| && |st| == |st0|
      invariant forall k | 0 <= k < |st| ::
        st[k] == if k < i && Eligible(st0, cd, k) && j.Built(world, k) then 1 else st0[k]
      invariant Count(st, 1) == Count(st0, 1) + flips
      invariant nearest == -1 <==> forall k | 0 <= k < i :: !Open(j, world, st0, cd, k)
      invariant nearest != -1 ==>
        && 0 <= nearest < i && Open(j, world, st0, cd, nearest)
        && minDistance == Dist(j, dist, nearest) && minDistance >= NearDistance
        && forall k | 0 <= k < i && Open(j, world, st0, cd, k) ::
             minDistance <= Dist(j, dist, k) && (k < nearest ==> minDistance < Dist(j, dist, k))
    {
      assert st[i] == st0[i];
      if st[i] == 0 && IndexOf(cd, i) == -1 {
        var blockPos := j.origin.Plus(j.sch.At(j.blocks[i]));
        assert blockPos == j.PosOf(i);
        if BasePrinter.BlockAt(world, blockPos) == Some(j.name) {
          assert !Open(j, world, st0, cd, i);
          CountUpdate(st, i, 1, 1);
          st := st[i := 1];
          flips := flips + 1;
          i := i + 1;
          continue;
        }
        assert Open(j, world, st0, cd, i);
        var d := dist(blockPos);
        if nearest == -1 || d < minDistance {
          minDistance := d;
          nearest := i;
        }
        if d < NearDistance {
          nearest := i;
          return;
        }
      } else {
        assert !Open(j, world, st0, cd, i);
      }
      i := i + 1;
    }
  }

  /** A restock plan made while placing `j`'s palette with inventory `stock`. */
  predicate IsPlan(j: Job, stock: Stock, r: seq<RestockEntry>)
    requires j.Valid()
  {
    && |r| >= 1 && r[0].name == j.name && r[0].p == j.cp
    && r[1..] == ExtraRestock(j.sch.palette, j.order, j.materials, stock.inv, j.cp + 1,
                              stock.emptySlots - CeilDiv(r[0].count, 64))
  }

  /** What a sweep has done so far: states, flips, the cooldown queue, placements and restock plans. */
  datatype Progress = Progress(st: seq<int>, cd: seq<int>, placed: seq<nat>, flips: nat,
                               restocks: seq<seq<RestockEntry>>)

  /**
   * The effect of a sweep from states `st0` and queue `cd0`: states only rise
   * from 0 to 1, only at candidates not cooling down that are built, and
   * `flips` counts the rises; the queue grows by the placements, each at a
   * candidate still 0, not cooling down and not built; each restock plan
   * starts with the current palette and a quantity between the unplaced
   * counts after and before the sweep (capped at `RestockLimit`).
   */
  ghost predicate SweepInv(j: Job, world: map<Vec3, string>, stock: Stock, st0: seq<int>, cd0: seq<int>, pr: Progress)
    requires j.Valid() && |st0| == |j.blocks|
  {
    && |pr.st| == |st0|
    && (forall k | 0 <= k < |pr.st| :: pr.st[k] == 0 || pr.st[k] == 1)
    && (forall k | 0 <= k < |pr.st| && st0[k] != 0 :: pr.st[k] == st0[k])
    && (forall k | 0 <= k < |pr.st| && st0[k] == 0 && pr.st[k] != 0 :: k !in cd0 && j.Built(world, k))
    && Count(pr.st, 1) == Count(st0, 1) + pr.flips
    && Count(pr.st, 0) + pr.flips == Count(st0, 0)
    && pr.cd == cd0 + pr.placed
    && (forall i | 0 <= i < |pr.placed| ::
          && pr.placed[i] < |st0| && st0[pr.placed[i]] == 0 && pr.st[pr.placed[i]] == 0
          && pr.placed[i] !in cd0 && !j.Built(world, pr.placed[i]))
    && (forall i | 0 <= i < |pr.restocks| ::
          && IsPlan(j, stock, pr.restocks[i])
          && BasePrinter.Min(Count(pr.st, 0), RestockLimit) <= pr.restocks[i][0].count
          && pr.restocks[i][0].count <= BasePrinter.Min(Count(st0, 0), RestockLimit))
  }

  /** Marking a built candidate done keeps the sweep's invariant, with one more flip. */
  lemma FlipKeeps(j: Job, world: map<Vec3, string>, stock: Stock, st0: seq<int>, cd0: seq<int>, pr: Progress, d: nat)
    requires j.Valid() && |st0| == |j.blocks|
    requires SweepInv(j, world, stock, st0, cd0, pr)
    requires d < |pr.st| && pr.st[d] == 0 && d !in pr.cd && j.Built(world, d)
    ensures SweepInv(j, world, stock, st0, cd0, pr.(st := pr.st[d := 1], flips := pr.flips + 1))
  {
    CountUpdate(pr.st, d, 1, 1);
    CountUpdate(pr.st, d, 1, 0);
    assert d !in cd0 by {
      assert pr.cd == cd0 + pr.placed;
    }
    forall i | 0 <= i < |pr.placed| ensures pr.placed[i] != d {
      assert pr.cd[|cd0| + i] == pr.placed[i];
    }
  }

  /** Placing at a candidate that is not built keeps the sweep's invariant, with one more queued. */
  lemma PlaceKeeps(j: Job, world: map<Vec3, string>, stock: Stock, st0: seq<int>, cd0: seq<int>, pr: Progress, d: nat)
    requires j.Valid() && |st0| == |j.blocks|
    requires SweepInv(j, world, stock, st0, cd0, pr)
    requires d < |pr.st| && pr.st[d] == 0 && d !in pr.cd && !j.Built(world, d)
    ensures SweepInv(j, world, stock, st0, cd0, pr.(cd := pr.cd + [d], placed := pr.placed + [d]))
  {
    assert d !in cd0 by {
      assert pr.cd == cd0 + pr.placed;
    }
    assert st0[d] == 0;
  }

  /** A restock plan made from the current states keeps the sweep's invariant. */
  lemma RestockKeeps(j: Job, world: map<Vec3, string>, stock: Stock, st0: seq<int>, cd0: seq<int>, pr: Progress,
                     plan: seq<RestockEntry>)
    requires j.Valid() && |st0| == |j.blocks|
    requires SweepInv(j, world, stock, st0, cd0, pr)
    requires IsPlan(j, stock, plan) && plan[0].count == BasePrinter.Min(Count(pr.st, 0), RestockLimit)
    ensures SweepInv(j, world, stock, st0, cd0, pr.(restocks := pr.restocks + [plan]))
  {
  }

  /**
   * What the sweep leaves at candidate `k` once it has met it: done if it was
   * built and not cooling down when the sweep began, and in any case done,
   * cooling down, or not built with the held-item logic either not ready or
   * out of stock, in which case a restock was planned.
   */
  ghost predicate Swept(j: Job, world: map<Vec3, string>, supply: Vec3 -> Supply, cd0: seq<int>, pr: Progress, k: int)
    requires j.Valid()
  {
    && 0 <= k < |j.blocks| && k < |pr.st|
    && (j.Built(world, k) && k !in cd0 ==> pr.st[k] == 1)
    && (|| pr.st[k] == 1
        || k in pr.cd
        || (!j.Built(world, k) && (supply(j.PosOf(k)) == NotReady || (supply(j.PosOf(k)) == OutOfStock && |pr.restocks| > 0))))
  }

  /** A met candidate stays swept while states only rise and the queue and the restock plans only grow. */
  lemma SweptGrows(j: Job, world: map<Vec3, string>, supply: Vec3 -> Supply, cd0: seq<int>, pr: Progress, pr': Progress, k: int)
    requires j.Valid()
    requires Swept(j, world, supply, cd0, pr, k)
    requires |pr'.st| == |pr.st| && (pr.st[k] == 1 ==> pr'.st[k] == 1)
    requires pr.cd <= pr'.cd && |pr.restocks| <= |pr'.restocks|
    ensures Swept(j, world, supply, cd0, pr', k)
  {
    if k in pr.cd {
      var i :| 0 <= i < |pr.cd| && pr.cd[i] == k;
      assert pr'.cd[i] == k;
    }
  }

  /**
   * A candidate met by the sweep while still 0 and not cooling down: marked
   * done if built, otherwise restocked for or placed as `supply` says.
   */
  method VisitCandidate(j: Job, world: map<Vec3, string>, supply: Vec3 -> Supply, stock: Stock,
                        st0: seq<int>, cd0: seq<int>, pr: Progress, d: nat, dAbs: Vec3)
    returns (pr': Progress)
    requires j.Valid() && |st0| == |j.blocks|
    requires SweepInv(j, world, stock, st0, cd0, pr)
    requires d < |pr.st| && pr.st[d] == 0 && d !in pr.cd && dAbs == j.PosOf(d)
    ensures SweepInv(j, world, stock, st0, cd0, pr')
    ensures j.Built(world, d) ==> pr' == pr.(st := pr.st[d := 1], flips := pr.flips + 1)
    ensures !j.Built(world, d) && supply(dAbs) == OutOfStock ==>
              && pr' == pr.(restocks := pr'.restocks)
              && |pr'.restocks| == |pr.restocks| + 1 && pr'.restocks[..|pr.restocks|] == pr.restocks
              && IsPlan(j, stock, pr'.restocks[|pr.restocks|])
              && pr'.restocks[|pr.restocks|][0].count == BasePrinter.Min(Count(pr.st, 0), RestockLimit)
    ensures !j.Built(world, d) && supply(dAbs) == NotReady ==> pr' == pr
    ensures !j.Built(world, d) && supply(dAbs) == Ready ==> pr' == pr.(cd := pr.cd + [d], placed := pr.placed + [d])
    ensures Swept(j, world, supply, cd0, pr', d)
  {
    if BasePrinter.BlockAt(world, dAbs) == Some(j.name) {
      FlipKeeps(j, world, stock, st0, cd0, pr, d);
      return pr.(st := pr.st[d := 1], flips := pr.flips + 1);
    }
    match supply(dAbs)
    case OutOfStock =>
      var plan := PlanRestock(j.sch.palette, j.order, j.materials, j.cp, j.name, pr.st, stock.emptySlots, stock.inv);
      RestockKeeps(j, world, stock, st0, cd0, pr, plan);
      pr' := pr.(restocks := pr.restocks + [plan]);
    case NotReady =>
      pr' := pr;
    case Ready =>
      PlaceKeeps(j, world, stock, st0, cd0, pr, d);
      pr' := pr.(cd := pr.cd + [d], placed := pr.placed + [d]);
  }

  /** A position in the box from the origin to the far corner has an index inside the volume that maps back to it. */
  lemma InSchematicBox(sch: Schematic, p: Vec3)
    requires sch.Valid() && sch.sy > 0 && BasePrinter.PosInBox(p, Vec3(0, 0, 0), FarCorner(sch))
    ensures 0 <= sch.Index(p) < sch.Volume() && sch.At(sch.Index(p)) == p
  {
    assert 0 <= p.x < sch.sx && 0 <= p.y < sch.sy && 0 <= p.z < sch.sz;
    AtOfIndex(sch, p);
    AtInBox(sch, sch.Index(p));
  }

  /** The box from `o` to `o + fc`, seen from `o`. */
  lemma PosInBoxShift(pos: Vec3, o: Vec3, fc: Vec3)
    requires BasePrinter.PosInBox(pos, o, o.Plus(fc))
    ensures BasePrinter.PosInBox(pos.Minus(o), Vec3(0, 0, 0), fc)
  {
  }

  /**
   * The candidate a block update inside the placement box refers to: the one
   * whose position it is, found by `indexOf` on the update's index.
   */
  lemma VisitTarget(sch: Schematic, blocks: seq<nat>, po: Vec3, pos: Vec3, q: int)
    requires sch.Valid() && Increasing(blocks) && forall k | 0 <= k < |blocks| :: blocks[k] < |sch.pids|
    requires BasePrinter.PosInBox(pos, po, po.Plus(FarCorner(sch)))
    requires q == var idx := sch.Index(pos.Minus(po)); if idx < 0 then -1 else IndexOf(blocks, idx)
    ensures -1 <= q < |blocks|
    ensures forall k | 0 <= k < |blocks| :: pos == po.Plus(sch.At(blocks[k])) <==> k == q
  {
    forall k | 0 <= k < |blocks| && pos == po.Plus(sch.At(blocks[k]))
      ensures q == k
    {
      VisitedIsTarget(sch, blocks, po, pos, k);
    }
    if q != -1 {
      TargetIsVisited(sch, blocks, po, pos, q);
    }
  }

  /** A candidate standing at the updated position is the one `indexOf` finds. */
  lemma VisitedIsTarget(sch: Schematic, blocks: seq<nat>, po: Vec3, pos: Vec3, k: nat)
    requires sch.Valid() && Increasing(blocks) && k < |blocks|
    requires pos == po.Plus(sch.At(blocks[k]))
    ensures sch.Index(pos.Minus(po)) == blocks[k] && IndexOf(blocks, blocks[k]) == k
  {
    assert pos.Minus(po) == sch.At(blocks[k]);
    IndexAtRoundTrip(sch, blocks[k]);
    IndexOfIncreasing(blocks, k);
  }

  /** The candidate `indexOf` finds stands at the updated position. */
  lemma TargetIsVisited(sch: Schematic, blocks: seq<nat>, po: Vec3, pos: Vec3, q: nat)
    requires sch.Valid() && forall k | 0 <= k < |blocks| :: blocks[k] < |sch.pids|
    requires BasePrinter.PosInBox(pos, po, po.Plus(FarCorner(sch)))
    requires q < |blocks| && blocks[q] == sch.Index(pos.Minus(po))
    ensures pos == po.Plus(sch.At(blocks[q]))
  {
    var rel := pos.Minus(po);
    assert blocks[q] < |sch.pids|;
    assert sch.sy > 0;
    PosInBoxShift(pos, po, FarCorner(sch));
    InSchematicBox(sch, rel);
    assert sch.At(blocks[q]) == rel;
  }

  /**
   * The candidate the sweep meets at offset (dx, dy, dz) from `selRel`: -1
   * when that cell is outside the schematic, out of `reach` or holds another
   * palette id; otherwise `indexOf` of the cell's index among the candidates,
   * itself -1 when the cell is not one.
   */
  ghost function SweepTarget(j: Job, reach: Vec3 -> bool, selRel: Vec3, dx: int, dy: int, dz: int): int
    requires j.Valid()
  {
    var dRel := selRel.Offset(dx, dy, dz);
    var idx := j.sch.Index(dRel);
    if !BasePrinter.PosInBox(dRel, Vec3(0, 0, 0), FarCorner(j.sch)) || !reach(j.origin.Plus(selRel).Offset(dx, dy, dz)) then -1
    else if !(0 <= idx < |j.sch.pids| && j.sch.pids[idx] == j.order[j.cp]) then -1
    else IndexOf(j.blocks, idx)
  }

  /**
   * One cell of the sweep, at offset (dx, dy, dz) from the selected candidate:
   * skipped outside the schematic, out of `reach` or with another palette id;
   * a candidate there that is still 0 and not cooling down is visited.
   */
  method SweepCell(j: Job, world: map<Vec3, string>, reach: Vec3 -> bool, supply: Vec3 -> Supply, stock: Stock,
                   selRel: Vec3, dx: int, dy: int, dz: int, st0: seq<int>, cd0: seq<int>, pr: Progress)
    returns (pr': Progress)
    requires j.Valid() && j.sch.sy > 0 && |st0| == |j.blocks|
    requires SweepInv(j, world, stock, st0, cd0, pr)
    ensures SweepInv(j, world, stock, st0, cd0, pr')
    ensures var k := SweepTarget(j, reach, selRel, dx, dy, dz);
      && (k != -1 ==> Swept(j, world, supply, cd0, pr', k))
      && (forall i | 0 <= i < |pr.st| :: pr'.st[i] == pr.st[i] || (i == k && pr'.st[i] == 1))
      && (pr'.placed == pr.placed || (k != -1 && pr'.placed == pr.placed + [k] && supply(j.PosOf(k)) == Ready))
      && pr.restocks <= pr'.restocks
  {
    pr' := pr;
    var sch := j.sch;
    var dRel := selRel.Offset(dx, dy, dz);
    var dAbs := j.origin.Plus(selRel).Offset(dx, dy, dz);
    if !BasePrinter.PosInBox(dRel, Vec3(0, 0, 0), FarCorner(sch)) {
      return;
    }
    if !reach(dAbs) {
      return;
    }
    var idx := sch.Index(dRel);
    InSchematicBox(sch, dRel);
    if sch.Pid(idx) != j.order[j.cp] {
      return;
    }
    var d := IndexOf(j.blocks, idx);
    if d != -1 && pr.st[d] == 0 && IndexOf(pr.cd, d) == -1 {
      assert dAbs == j.PosOf(d);
      pr' := VisitCandidate(j, world, supply, stock, st0, cd0, pr, d, dAbs);
    } else if d != -1 && d in pr.cd && d !in cd0 {
      var i :| 0 <= i < |pr.cd| && pr.cd[i] == d;
      assert i >= |cd0| && pr.placed[i - |cd0|] == d;
    }
  }

  /** The sweep reaches cell (dz, dx, dy): no pause or stop was seen in its column from dy = 5 down to dy. */
  ghost predicate Reached(halted: (int, int, int) -> bool, dz: int, dx: int, dy: int) {
    forall y | dy <= y <= 5 :: !halted(dz, dx, y)
  }

  /** Cell (dz, dx, dy) comes before (dzEnd, dxEnd, dyEnd) in sweep order: dz, then dx, then dy downwards. */
  predicate Before(dz: int, dx: int, dy: int, dzEnd: int, dxEnd: int, dyEnd: int) {
    dz < dzEnd || (dz == dzEnd && (dx < dxEnd || (dx == dxEnd && dy > dyEnd)))
  }

  /** Every cell of the window before (dzEnd, dxEnd, dyEnd) that the sweep reached and that holds a candidate is swept. */
  ghost predicate SweptBefore(j: Job, world: map<Vec3, string>, reach: Vec3 -> bool, supply: Vec3 -> Supply,
                              halted: (int, int, int) -> bool, selRel: Vec3, cd0: seq<int>, pr: Progress,
                              dzEnd: int, dxEnd: int, dyEnd: int)
    requires j.Valid()
  {
    forall dz, dx, dy | -4 <= dz <= 4 && -4 <= dx <= 4 && -3 <= dy <= 5 && Before(dz, dx, dy, dzEnd, dxEnd, dyEnd)
                      && Reached(halted, dz, dx, dy) && SweepTarget(j, reach, selRel, dx, dy, dz) != -1 ::
      Swept(j, world, supply, cd0, pr, SweepTarget(j, reach, selRel, dx, dy, dz))
  }

  /** Candidate `k` is the candidate of some cell of the window the sweep reached. */
  ghost predicate InWindow(j: Job, reach: Vec3 -> bool, halted: (int, int, int) -> bool, selRel: Vec3, k: int)
    requires j.Valid()
  {
    exists dz, dx, dy | -4 <= dz <= 4 && -4 <= dx <= 4 && -3 <= dy <= 5 ::
      Reached(halted, dz, dx, dy) && SweepTarget(j, reach, selRel, dx, dy, dz) == k
  }

  /** The sweep changes states and places only at candidates of reached cells. */
  ghost predicate WithinWindow(j: Job, reach: Vec3 -> bool, halted: (int, int, int) -> bool, selRel: Vec3,
                               st0: seq<int>, st: seq<int>, placed: seq<nat>)
    requires j.Valid() && |st| == |st0|
  {
    && (forall k | 0 <= k < |st| && st[k] != st0[k] :: InWindow(j, reach, halted, selRel, k))
    && (forall i | 0 <= i < |placed| :: InWindow(j, reach, halted, selRel, placed[i]))
  }

  /** Every placement was made where the held-item logic was ready. */
  ghost predicate PlacedReady(j: Job, supply: Vec3 -> Supply, placed: seq<nat>)
    requires j.Valid()
  {
    forall i | 0 <= i < |placed| :: placed[i] < |j.blocks| && supply(j.PosOf(placed[i])) == Ready
  }

  /**
   * One step of the sweep at reached cell (dz, dx, dy) keeps the earlier
   * cells swept, sweeps this one and keeps every change inside the window.
   */
  lemma SweepStep(j: Job, world: map<Vec3, string>, reach: Vec3 -> bool, supply: Vec3 -> Supply, stock: Stock,
                  halted: (int, int, int) -> bool, selRel: Vec3, dz: int, dx: int, dy: int,
                  st0: seq<int>, cd0: seq<int>, pr: Progress, pr': Progress)
    requires j.Valid() && |st0| == |j.blocks|
    requires -4 <= dz <= 4 && -4 <= dx <= 4 && -3 <= dy <= 5 && Reached(halted, dz, dx, dy)
    requires SweepInv(j, world, stock, st0, cd0, pr) && SweepInv(j, world, stock, st0, cd0, pr')
    requires SweptBefore(j, world, reach, supply, halted, selRel, cd0, pr, dz, dx, dy)
    requires WithinWindow(j, reach, halted, selRel, st0, pr.st, pr.placed)
    requires var k := SweepTarget(j, reach, selRel, dx, dy, dz);
      && (k != -1 ==> Swept(j, world, supply, cd0, pr', k))
      && (forall i | 0 <= i < |pr.st| :: pr'.st[i] == pr.st[i] || (i == k && pr'.st[i] == 1))
      && (pr'.placed == pr.placed || (k != -1 && pr'.placed == pr.placed + [k] && supply(j.PosOf(k)) == Ready))
      && pr.restocks <= pr'.restocks
    requires PlacedReady(j, supply, pr.placed)
    ensures SweptBefore(j, world, reach, supply, halted, selRel, cd0, pr', dz, dx, dy - 1)
    ensures WithinWindow(j, reach, halted, selRel, st0, pr'.st, pr'.placed)
    ensures PlacedReady(j, supply, pr'.placed)
  {
    var k := SweepTarget(j, reach, selRel, dx, dy, dz);
    assert pr.cd <= pr'.cd by {
      assert pr.cd == cd0 + pr.placed && pr'.cd == cd0 + pr'.placed;
    }
    forall z, x, y | -4 <= z <= 4 && -4 <= x <= 4 && -3 <= y <= 5 && Before(z, x, y, dz, dx, dy - 1)
                   && Reached(halted, z, x, y) && SweepTarget(j, reach, selRel, x, y, z) != -1
      ensures Swept(j, world, supply, cd0, pr', SweepTarget(j, reach, selRel, x, y, z))
    {
      if Before(z, x, y, dz, dx, dy) {
        SweptGrows(j, world, supply, cd0, pr, pr', SweepTarget(j, reach, selRel, x, y, z));
      }
    }
    assert InWindow(j, reach, halted, selRel, k);
  }

  /**
   * The end of column (dz, dx), reached normally or by a pause or stop seen
   * at dy: every cell of the column the sweep reached is swept.
   */
  lemma ColumnEnd(j: Job, world: map<Vec3, string>, reach: Vec3 -> bool, supply: Vec3 -> Supply,
                  halted: (int, int, int) -> bool, selRel: Vec3, cd0: seq<int>, pr: Progress, dz: int, dx: int, dy: int)
    requires j.Valid()
    requires -4 <= dz <= 4 && -4 <= dx <= 4 && -4 <= dy <= 5 && (dy >= -3 ==> halted(dz, dx, dy))
    requires SweptBefore(j, world, reach, supply, halted, selRel, cd0, pr, dz, dx, dy)
    ensures SweptBefore(j, world, reach, supply, halted, selRel, cd0, pr, dz, dx + 1, 5)
  {
    forall y | -3 <= y <= dy
      ensures !Reached(halted, dz, dx, y)
    {
      assert halted(dz, dx, dy);
    }
  }

  /** One column `(dz, dx)` of the sweep, from `dy = 5` down to the first halt. */
  method SweepColumn(j: Job, world: map<Vec3, string>, reach: Vec3 -> bool, supply: Vec3 -> Supply, stock: Stock,
                     halted: (int, int, int) -> bool, selRel: Vec3, dz: int, dx: int,
                     st0: seq<int>, cd0: seq<int>, pr: Progress)
    returns (pr': Progress)
    requires j.Valid() && j.sch.sy > 0 && |st0| == |j.blocks|
    requires -4 <= dz <= 4 && -4 <= dx <= 4
    requires SweepInv(j, world, stock, st0, cd0, pr)
    requires SweptBefore(j, world, reach, supply, halted, selRel, cd0, pr, dz, dx, 5)
    requires WithinWindow(j, reach, halted, selRel, st0, pr.st, pr.placed)
    requires PlacedReady(j, supply, pr.placed)
    ensures SweepInv(j, world, stock, st0, cd0, pr')
    ensures SweptBefore(j, world, reach, supply, halted, selRel, cd0, pr', dz, dx + 1, 5)
    ensures WithinWindow(j, reach, halted, selRel, st0, pr'.st, pr'.placed)
    ensures PlacedReady(j, supply, pr'.placed)
  {
    pr' := pr;
    var dy := 5;
    while dy >= -3
      invariant -4 <= dy <= 5
      invariant SweepInv(j, world, stock, st0, cd0, pr')
      invariant SweptBefore(j, world, reach, supply, halted, selRel, cd0, pr', dz, dx, dy)
      invariant WithinWindow(j, reach, halted, selRel, st0, pr'.st, pr'.placed)
      invariant PlacedReady(j, supply, pr'.placed)
      invariant forall y | dy < y <= 5 :: !halted(dz, dx, y)
    {
      if halted(dz, dx, dy) {
        break;
      }
      assert Reached(halted, dz, dx, dy);
      var next := SweepCell(j, world, reach, supply, stock, selRel, dx, dy, dz, st0, cd0, pr');
      SweepStep(j, world, reach, supply, stock, halted, selRel, dz, dx, dy, st0, cd0, pr', next);
      pr' := next;
      dy := dy - 1;
    }
    ColumnEnd(j, world, reach, supply, halted, selRel, cd0, pr', dz, dx, dy);
  }

  /**
   * The three nested loops of the sweep around candidate `sel`: dz and dx from
   * -4 to 4, dy from 5 down to -3. `halted(dz, dx, dy)` stands for a pause or
   * stop seen at that cell, which ends only the innermost loop. Every
   * candidate of a reached cell ends swept, and only those candidates change.
   */
  method SweepAround(j: Job, world: map<Vec3, string>, reach: Vec3 -> bool, supply: Vec3 -> Supply, stock: Stock,
                     halted: (int, int, int) -> bool, sel: nat, st0: seq<int>, cd0: seq<int>)
    returns (pr: Progress)
    requires j.Valid() && sel < |j.blocks| && |st0| == |j.blocks|
    requires forall k | 0 <= k < |st0| :: st0[k] == 0 || st0[k] == 1
    ensures SweepInv(j, world, stock, st0, cd0, pr)
    ensures SweptBefore(j, world, reach, supply, halted, j.sch.At(j.blocks[sel]), cd0, pr, 5, -4, 5)
    ensures WithinWindow(j, reach, halted, j.sch.At(j.blocks[sel]), st0, pr.st, pr.placed)
    ensures PlacedReady(j, supply, pr.placed)
  {
    var selRel := j.sch.At(j.blocks[sel]);
    IndicesSpec(0, |j.sch.pids|, CandidateKeep(j.sch, j.order[j.cp]));
    assert j.blocks[sel] in j.blocks;
    assert j.sch.sy > 0;
    pr := Progress(st0, cd0, [], 0, []);
    assert cd0 + [] == cd0;
    var dz := -4;
    while dz <= 4
      invariant -4 <= dz <= 5
      invariant SweepInv(j, world, stock, st0, cd0, pr)
      invariant SweptBefore(j, world, reach, supply, halted, selRel, cd0, pr, dz, -4, 5)
      invariant WithinWindow(j, reach, halted, selRel, st0, pr.st, pr.placed)
      invariant PlacedReady(j, supply, pr.placed)
    {
      var dx := -4;
      while dx <= 4
        invariant -4 <= dx <= 5
        invariant SweepInv(j, world, stock, st0, cd0, pr)
        invariant SweptBefore(j, world, reach, supply, halted, selRel, cd0, pr, dz, dx, 5)
        invariant WithinWindow(j, reach, halted, selRel, st0, pr.st, pr.placed)
        invariant PlacedReady(j, supply, pr.placed)
      {
        pr := SweepColumn(j, world, reach, supply, stock, halted, selRel, dz, dx, st0, cd0, pr);
        dx := dx + 1;
      }
      dz := dz + 1;
    }
  }

  /**
   * What a whole sweep did at the candidate `k` of a reached cell that was 0
   * and not cooling down when it began: done exactly when it is built;
   * otherwise placed and queued when the held-item logic was ready, and a
   * restock planned when it was out of stock.
   */
  lemma SweepOutcome(j: Job, world: map<Vec3, string>, reach: Vec3 -> bool, supply: Vec3 -> Supply, stock: Stock,
                     halted: (int, int, int) -> bool, selRel: Vec3, st0: seq<int>, cd0: seq<int>, pr: Progress,
                     dz: int, dx: int, dy: int)
    requires j.Valid() && |st0| == |j.blocks|
    requires SweepInv(j, world, stock, st0, cd0, pr)
    requires SweptBefore(j, world, reach, supply, halted, selRel, cd0, pr, 5, -4, 5)
    requires PlacedReady(j, supply, pr.placed)
    requires -4 <= dz <= 4 && -4 <= dx <= 4 && -3 <= dy <= 5 && Reached(halted, dz, dx, dy)
    requires var k := SweepTarget(j, reach, selRel, dx, dy, dz); k != -1 && k !in cd0 && st0[k] == 0
    ensures var k := SweepTarget(j, reach, selRel, dx, dy, dz);
      && (pr.st[k] == 1 <==> j.Built(world, k))
      && (!j.Built(world, k) && supply(j.PosOf(k)) == Ready ==> k in pr.placed)
      && (!j.Built(world, k) && supply(j.PosOf(k)) == OutOfStock ==> |pr.restocks| > 0)
  {
    var k := SweepTarget(j, reach, selRel, dx, dy, dz);
    assert Swept(j, world, supply, cd0, pr, k);
    if k in pr.cd {
      var i :| 0 <= i < |pr.cd| && pr.cd[i] == k;
      assert i >= |cd0| && pr.placed[i - |cd0|] == k;
    }
  }

  datatype Status = Finished | Stopped | Paused | Running

  /**
   * The state of one map-art `build` call: the cache, the current palette's
   * candidates (`currentPaletteBlocksIndexs`), their states
   * (`currentPaletteBlocksState`), the cooldown queue (`Block_In_CD`), the
   * current block name, the selected candidate and whether a palette is loaded
   * (`wheatherGetPalette`). The palette order, material counts and non-air
   * list are fixed before the loop starts.
   */
  class MapartBuild {
    const sch: Schematic
    const order: seq<nat>
    const materials: seq<nat>
    const ignoreAir: seq<nat>
    var cache: Cache
    var blocks: seq<nat>
    var state: seq<int>
    var blockInCD: seq<int>
    var currentName: Option<string>
    var selectIndex: int
    var havePalette: bool
    /** `placedBlock` less the current states at 1: the count before this palette's candidates. */
    ghost var placedBase: int

    ghost predicate Valid()
      reads this
    {
      && sch.Valid()
      && order == ScaffoldFirst(sch.palette) && OrderOk(sch.palette, order, materials)
      && ignoreAir == IgnoreAir(sch)
      && cache.origin == Vec3(0, 0, 0) && cache.destination == FarCorner(sch)
      && cache.placementDestination == cache.placementOrigin.Plus(cache.destination)
      && |state| == |blocks| && Increasing(blocks)
      && (forall k | 0 <= k < |blocks| :: blocks[k] < |sch.pids|)
      && (forall k | 0 <= k < |state| :: state[k] == 0 || state[k] == 1)
      && cache.placedBlock == placedBase + Count(state, 1)
      && (havePalette ==>
            && cache.currentPalette < |order|
            && currentName == Some(sch.palette[order[cache.currentPalette]].name)
            && CurrentJob().Valid())
    }

    /** The palette being placed. */
    function CurrentJob(): Job
      reads this
    {
      Job(sch, order, materials, cache.currentPalette, blocks, currentName.GetOr(""), cache.placementOrigin)
    }

    /**
     * The loop's starting point, after the cache check and the preparation of
     * the palette order, material counts and non-air list.
     */
    constructor(sch: Schematic, order: seq<nat>, materials: seq<nat>, ignoreAir: seq<nat>, cache: Cache)
      requires sch.Valid() && order == ScaffoldFirst(sch.palette) && |materials| == |sch.palette|
      requires ignoreAir == IgnoreAir(sch)
      requires cache.origin == Vec3(0, 0, 0) && cache.destination == FarCorner(sch)
      requires cache.placementDestination == cache.placementOrigin.Plus(cache.destination)
      ensures Valid()
      ensures this.sch == sch && this.order == order && this.materials == materials && this.ignoreAir == ignoreAir
      ensures this.cache == cache && !havePalette && blocks == [] && state == [] && blockInCD == []
      ensures currentName == None && selectIndex == 0
    {
      ScaffoldFirstSpec(sch.palette);
      forall k | 0 <= k < |order| ensures order[k] < |sch.palette| {
        assert order[k] in order;
      }
      this.sch := sch;
      this.order := order;
      this.materials := materials;
      this.ignoreAir := ignoreAir;
      this.cache := cache;
      blocks := [];
      state := [];
      blockInCD := [];
      currentName := None;
      selectIndex := 0;
      havePalette := false;
      placedBase := cache.placedBlock;
    }

    /**
     * Entering the palette at `currentPalette`: the cooldown queue and its
     * timers are dropped; an excluded block name moves on to the next palette,
     * any other loads its candidates, all at state 0.
     */
    method StartPalette()
      requires Valid() && !havePalette && cache.currentPalette < |sch.palette|
      modifies this
      ensures Valid() && blockInCD == []
      ensures currentName == Some(sch.palette[order[old(cache.currentPalette)]].name)
      ensures currentName.value in ExcludeList ==>
        && !havePalette && blocks == [] && state == []
        && cache == old(cache).(currentPalette := old(cache.currentPalette) + 1)
      ensures currentName.value !in ExcludeList ==>
        && havePalette && cache == old(cache) && selectIndex == 0
        && blocks == Candidates(sch, order[cache.currentPalette]) && state == Fill(|blocks|, 0)
    {
      var cp := cache.currentPalette;
      var name := sch.palette[order[cp]].name;
      if name in ExcludeList {
        blockInCD, blocks, state, placedBase, currentName := [], [], [], cache.placedBlock, Some(name);
        cache := cache.(currentPalette := cp + 1);
        return;
      }
      var bs, st := SelectCandidates(sch, ignoreAir, order[cp]);
      CountFill(|bs|, 0, 1);
      assert Job(sch, order, materials, cp, bs, name, cache.placementOrigin).Valid();
      blockInCD, blocks, state, placedBase, currentName := [], bs, st, cache.placedBlock, Some(name);
      selectIndex, havePalette := 0, true;
    }

    /**
     * The nearest scan (see `NearestSpec`), counting each candidate found
     * built into `placedBlock`; with no candidate left the palette advances.
     */
    method FindNearest(world: map<Vec3, string>, dist: Vec3 -> real) returns (nearest: int)
      requires Valid() && havePalette
      modifies this
      ensures Valid()
      ensures cache.placedBlock >= old(cache.placedBlock)
      ensures NearestSpec(old(CurrentJob()), world, old(state), blockInCD, dist, state,
                          cache.placedBlock - old(cache.placedBlock), nearest)
      ensures blocks == old(blocks) && blockInCD == old(blockInCD) && currentName == old(currentName)
      ensures nearest == -1 ==>
        && !havePalette && selectIndex == old(selectIndex)
        && cache == old(cache).(placedBlock := cache.placedBlock, currentPalette := old(cache.currentPalette) + 1)
      ensures nearest != -1 ==>
        && havePalette && selectIndex == nearest
        && cache == old(cache).(placedBlock := cache.placedBlock)
    {
      var st, flips, n := ScanNearest(CurrentJob(), world, state, blockInCD, dist);
      state := st;
      cache := cache.(placedBlock := cache.placedBlock + flips);
      nearest := n;
      if nearest == -1 {
        cache := cache.(currentPalette := cache.currentPalette + 1);
        havePalette := false;
        return;
      }
      selectIndex := nearest;
    }

    /**
     * The sweep around the selected candidate (see `SweepInv`, `SweptBefore`
     * and `SweepOutcome`): `placedBlock`
     * counts the candidates found built, `placeCount` the placements and
     * `restock_count` the restocks; `reach` is the eye-distance test, `supply`
     * the held-item logic and `stock` the inventory the planner sees.
     */
    method Sweep(world: map<Vec3, string>, reach: Vec3 -> bool, halted: (int, int, int) -> bool,
                 supply: Vec3 -> Supply, stock: Stock)
      returns (placed: seq<nat>, restocks: seq<seq<RestockEntry>>)
      requires Valid() && havePalette && 0 <= selectIndex < |blocks|
      modifies this
      ensures Valid() && havePalette
      ensures cache.placedBlock >= old(cache.placedBlock)
      ensures blocks == old(blocks) && currentName == old(currentName) && selectIndex == old(selectIndex)
      ensures cache == old(cache).(placedBlock := cache.placedBlock,
                                   debug := old(cache.debug).(placeCount := old(cache.debug.placeCount) + |placed|,
                                                              restockCount := old(cache.debug.restockCount) + |restocks|))
      ensures SweepInv(CurrentJob(), world, stock, old(state), old(blockInCD),
                       Progress(state, blockInCD, placed, cache.placedBlock - old(cache.placedBlock), restocks))
      ensures SweptBefore(CurrentJob(), world, reach, supply, halted, sch.At(blocks[selectIndex]), old(blockInCD),
                          Progress(state, blockInCD, placed, cache.placedBlock - old(cache.placedBlock), restocks), 5, -4, 5)
      ensures WithinWindow(CurrentJob(), reach, halted, sch.At(blocks[selectIndex]), old(state), state, placed)
      ensures PlacedReady(CurrentJob(), supply, placed)
    {
      var pr := SweepAround(CurrentJob(), world, reach, supply, stock, halted, selectIndex, state, blockInCD);
      state, blockInCD := pr.st, pr.cd;
      cache := cache.(placedBlock := cache.placedBlock + pr.flips,
                      debug := cache.debug.(placeCount := cache.debug.placeCount + |pr.placed|,
                                            restockCount := cache.debug.restockCount + |pr.restocks|));
      placed, restocks := pr.placed, pr.restocks;
    }

    /**
     * The `blockUpdate` listener: a block of the current name appearing at a
     * candidate's position inside the placement box marks that candidate done
     * if it was still 0, and counts it.
     */
    method UpdateVisited(pos: Vec3, newName: string)
      requires Valid()
      modifies this
      ensures Valid()
      ensures blocks == old(blocks) && blockInCD == old(blockInCD) && currentName == old(currentName)
      ensures havePalette == old(havePalette) && selectIndex == old(selectIndex)
      ensures cache == old(cache).(placedBlock := cache.placedBlock)
      ensures |state| == |old(state)|
      ensures forall k | 0 <= k < |state| && state[k] != old(state)[k] ::
        && old(state)[k] == 0 && state[k] == 1 && currentName == Some(newName)
        && BasePrinter.PosInBox(pos, cache.placementOrigin, cache.placementDestination)
        && pos == cache.placementOrigin.Plus(sch.At(blocks[k]))
      ensures forall k | 0 <= k < |state| ::
        (&& old(state)[k] == 0 && currentName == Some(newName)
         && BasePrinter.PosInBox(pos, cache.placementOrigin, cache.placementDestination)
         && pos == cache.placementOrigin.Plus(sch.At(blocks[k]))) ==> state[k] == 1
      ensures Count(state, 1) <= Count(old(state), 1) + 1
    {
      if !BasePrinter.PosInBox(pos, cache.placementOrigin, cache.placementDestination) {
        return;
      }
      var rel := pos.Minus(cache.placementOrigin);
      var targetIndex := sch.Index(rel);
      var qindex := if targetIndex < 0 then -1 else IndexOf(blocks, targetIndex);
      VisitTarget(sch, blocks, cache.placementOrigin, pos, qindex);
      if qindex != -1 && currentName == Some(newName) {
        if state[qindex] == 0 {
          CountUpdate(state, qindex, 1, 1);
          state := state[qindex := 1];
          cache := cache.(placedBlock := cache.placedBlock + 1);
        }
      }
    }

    /** A cooldown timer firing: the oldest queued candidate leaves the queue. */
    method ExpireCooldown()
      requires Valid()
      modifies this
      ensures Valid()
      ensures blockInCD == if old(blockInCD) == [] then [] else old(blockInCD)[1..]
      ensures state == old(state) && blocks == old(blocks) && cache == old(cache)
      ensures currentName == old(currentName) && selectIndex == old(selectIndex) && havePalette == old(havePalette)
    {
      if blockInCD != [] {
        blockInCD := blockInCD[1..];
      }
    }

    /**
     * One pass of the main `while` loop: the loop test, stop, pause, entering
     * a palette, the nearest scan and the sweep. `dist`, `reach`, `halted`,
     * `supply` and `stock` are the world as the bot sees it in this pass.
     */
    method Iterate(stop: bool, pause: bool, world: map<Vec3, string>, dist: Vec3 -> real, reach: Vec3 -> bool,
                   halted: (int, int, int) -> bool, supply: Vec3 -> Supply, stock: Stock)
      returns (status: Status, placed: seq<nat>, restocks: seq<seq<RestockEntry>>)
      requires Valid()
      modifies this
      ensures Valid()
      ensures status == Finished <==> old(cache.currentPalette) >= |sch.palette|
      ensures status == Stopped <==> old(cache.currentPalette) < |sch.palette| && stop
      ensures status == Paused <==> old(cache.currentPalette) < |sch.palette| && !stop && pause
      ensures status != Running ==>
        && placed == [] && restocks == [] && cache == old(cache) && state == old(state) && blocks == old(blocks)
        && blockInCD == old(blockInCD) && havePalette == old(havePalette) && currentName == old(currentName)
      ensures cache.currentPalette >= old(cache.currentPalette) && cache.placedBlock >= old(cache.placedBlock)
      ensures cache.currentPalette > old(cache.currentPalette) ==>
        cache.currentPalette == old(cache.currentPalette) + 1 && placed == [] && !havePalette
      ensures status == Running && !old(havePalette) && sch.palette[order[old(cache.currentPalette)]].name in ExcludeList ==>
        placed == [] && restocks == [] && cache.currentPalette == old(cache.currentPalette) + 1
    {
      placed, restocks := [], [];
      if cache.currentPalette >= |sch.palette| {
        return Finished, [], [];
      }
      if stop {
        return Stopped, [], [];
      }
      if pause {
        return Paused, [], [];
      }
      status := Running;
      if !havePalette {
        StartPalette();
        if !havePalette {
          return;
        }
      }
      var nearest := FindNearest(world, dist);
      if nearest == -1 {
        return;
      }
      placed, restocks := Sweep(world, reach, halted, supply, stock);
    }

    /** The end of the loop: the end time is recorded and `build` returns `'finish'`. */
    method Finish(now: int) returns (status: Status)
      requires Valid() && cache.currentPalette >= |sch.palette|
      modifies this
      ensures Valid() && status == Finished
      ensures cache == old(cache).(endTime := now)
      ensures state == old(state) && blocks == old(blocks) && blockInCD == old(blockInCD)
    {
      cache := cache.(endTime := now);
      status := Finished;
    }
  }
}
