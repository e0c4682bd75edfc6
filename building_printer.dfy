/**
 * The building printer: work division into Z strips, the region filter, the
 * cache reset, and (in the scheduler class below) the layer-by-layer,
 * palette-by-palette placement loop with its find-next scan and cooldown
 * queue, followed by the verification pass.
 */
module BuildingPrinter {
  import opened Wrappers
  import opened Arith
  import opened Schematic
  import opened BuildCache
  import opened Seqs
  import opened Sorting
  import opened Text
  import BasePrinter

  /** The part of a bot's configuration the building printer reads. */
  datatype BuildConfig = BuildConfig(
    schematic: SchematicConfig,
    workRegion: Option<WorkRegion>,
    workerCount: int,
    workerId: int)

  // ---------------------------------------------------------------------------
  // Work division

  /** `stripHeight = Math.ceil(totalZ / worker_count)` */
  function StripHeight(r: WorkRegion, n: int): int
    requires n > 0
  {
    CeilDiv(r.maxZ - r.minZ + 1, n)
  }

  /** `myMinZ` of worker `id` */
  function StripMin(r: WorkRegion, n: int, id: int): int
    requires n > 0
  {
    r.minZ + id * StripHeight(r, n)
  }

  /** `myMaxZ` of worker `id` */
  function StripMax(r: WorkRegion, n: int, id: int): int
    requires n > 0
  {
    BasePrinter.Min(r.maxZ, StripMin(r, n, id) + StripHeight(r, n) - 1)
  }

  predicate InStrip(z: int, r: WorkRegion, n: int, id: int)
    requires n > 0
  {
    !(z < StripMin(r, n, id) || z > StripMax(r, n, id))
  }

  /** The worker whose strip holds z: (z - minZ) / stripHeight. */
  function StripOwner(r: WorkRegion, n: int, z: int): (id: int)
    requires n > 0 && r.minZ <= r.maxZ && r.minZ <= z <= r.maxZ
    ensures 0 <= id < n && InStrip(z, r, n, id)
  {
    var total := r.maxZ - r.minZ + 1;
    var h := StripHeight(r, n);
    var d := z - r.minZ;
    var id := d / h;
    DivBounds(d, h);
    assert id < n by {
      if id >= n {
        MulLe(n, id, h);
      }
    }
    id
  }

  /** Two different workers never share a Z coordinate. */
  lemma {:induction false} StripsDisjoint(r: WorkRegion, n: int, a: int, b: int, z: int)
    requires n > 0 && r.minZ <= r.maxZ && a != b
    requires InStrip(z, r, n, a)
    ensures !InStrip(z, r, n, b)
  {
    var h := StripHeight(r, n);
    if a < b {
      MulLe(a + 1, b, h);
      assert (a + 1) * h == a * h + h;
    } else {
      MulLe(b + 1, a, h);
      assert (b + 1) * h == b * h + h;
    }
  }

  /** Every strip of a worker id >= 0 lies inside [minZ, maxZ]. */
  lemma {:induction false} StripsWithinRegion(r: WorkRegion, n: int, id: int, z: int)
    requires n > 0 && r.minZ <= r.maxZ && id >= 0
    requires InStrip(z, r, n, id)
    ensures r.minZ <= z <= r.maxZ
  {
    MulLe(0, id, StripHeight(r, n));
  }

  /**
   * The strips of workers 0 .. n-1 partition [minZ, maxZ]: each z of the region
   * lies in exactly one of them and no strip reaches outside it.
   */
  lemma {:induction false} StripsPartition(r: WorkRegion, n: int, z: int)
    requires n > 0 && r.minZ <= r.maxZ
    ensures (r.minZ <= z <= r.maxZ) <==> exists id | 0 <= id < n :: InStrip(z, r, n, id)
    ensures forall a, b | 0 <= a < n && 0 <= b < n && InStrip(z, r, n, a) && InStrip(z, r, n, b) :: a == b
  {
    if r.minZ <= z <= r.maxZ {
      var id := StripOwner(r, n, z);
    }
    forall id | 0 <= id < n && InStrip(z, r, n, id) ensures r.minZ <= z <= r.maxZ {
      StripsWithinRegion(r, n, id, z);
    }
    forall a, b | 0 <= a < n && 0 <= b < n && InStrip(z, r, n, a) && InStrip(z, r, n, b) ensures a == b {
      if a != b {
        StripsDisjoint(r, n, a, b, z);
        assert false;
      }
    }
  }

  /** A worker past the last needed strip gets an empty strip. */
  lemma {:induction false} HighStripEmpty(r: WorkRegion, n: int, id: int, z: int)
    requires n > 0 && r.minZ <= r.maxZ && id >= 0
    requires StripMin(r, n, id) > r.maxZ
    ensures !InStrip(z, r, n, id)
  {
  }

  // ---------------------------------------------------------------------------
  // Filters

  /** The region test on relative x and z; no region admits everything. */
  predicate InRegion(p: Vec3, wr: Option<WorkRegion>) {
    match wr
    case None => true
    case Some(r) => !(p.x < r.minX || p.x > r.maxX || p.z < r.minZ || p.z > r.maxZ)
  }

  /** With more than one worker the strip formula reads `workRegion`; without one it throws. */
  predicate WorkerConfigOk(cfg: BuildConfig) {
    cfg.workerCount > 1 ==> cfg.workRegion.Some?
  }

  /** The worker test: always passes for a single worker. */
  predicate InOwnStrip(cfg: BuildConfig, p: Vec3)
    requires WorkerConfigOk(cfg)
  {
    cfg.workerCount > 1 ==> InStrip(p.z, cfg.workRegion.value, cfg.workerCount, cfg.workerId)
  }

  /** A non-air voxel inside the work region. */
  predicate RegionBlock(sch: Schematic, wr: Option<WorkRegion>, i: nat) {
    sch.Valid() && i < |sch.pids| && sch.pids[i] != 0 && InRegion(sch.At(i), wr)
  }

  /** A region block that also lies in this worker's strip. */
  predicate WorkerBlock(sch: Schematic, cfg: BuildConfig, i: nat) {
    RegionBlock(sch, cfg.workRegion, i) && WorkerConfigOk(cfg) && InOwnStrip(cfg, sch.At(i))
  }

  /**
   * `IgnoreAirArray` and `totalRegionBlocks`: the ascending list of non-air
   * voxels inside the work region, and its length.
   */
  method RegionBlocks(sch: Schematic, wr: Option<WorkRegion>) returns (arr: seq<nat>, total: nat)
    requires sch.Valid()
    ensures arr == Indices(0, sch.Volume(), (i: nat) => RegionBlock(sch, wr, i))
    ensures forall i: nat :: i in arr <==> i < sch.Volume() && sch.pids[i] != 0 && InRegion(sch.At(i), wr)
    ensures Increasing(arr) && total == |arr|
  {
    arr, total := [], 0;
    var i := 0;
    while i < sch.Volume()
      invariant 0 <= i <= sch.Volume()
      invariant arr == Indices(0, i, (j: nat) => RegionBlock(sch, wr, j)) && total == |arr|
    {
      IndicesStep(0, i + 1, (j: nat) => RegionBlock(sch, wr, j));
      if sch.Pid(i) != 0 {
        var rel := sch.At(i);
        if InRegion(rel, wr) {
          arr, total := arr + [i], total + 1;
        }
      }
      i := i + 1;
    }
    IndicesSpec(0, sch.Volume(), (j: nat) => RegionBlock(sch, wr, j));
  }

  /** How many members of `s` satisfy `f`. */
  function CountWhere(s: seq<nat>, f: nat -> bool): nat {
    if s == [] then 0 else CountWhere(s[..|s| - 1], f) + (if f(s[|s| - 1]) then 1 else 0)
  }

  lemma CountWhereSnoc(p: seq<nat>, x: nat, f: nat -> bool)
    ensures CountWhere(p + [x], f) == CountWhere(p, f) + (if f(x) then 1 else 0)
  {
    assert (p + [x])[..|p|] == p;
  }

  /** Counting a filter over an ascending range is the length of the narrower filter. */
  lemma {:induction false} CountWhereIndices(lo: nat, hi: nat, keep: nat -> bool, f: nat -> bool, both: nat -> bool)
    requires forall i :: both(i) == (keep(i) && f(i))
    ensures CountWhere(Indices(lo, hi, keep), f) == |Indices(lo, hi, both)|
    decreases hi
  {
    if hi > lo {
      var x := hi - 1;
      var p, q := Indices(lo, x, keep), Indices(lo, x, both);
      CountWhereIndices(lo, x, keep, f, both);
      IndicesStep(lo, hi, keep);
      IndicesStep(lo, hi, both);
      assert both(x) == (keep(x) && f(x));
      if keep(x) {
        CountWhereSnoc(p, x, f);
        assert Indices(lo, hi, keep) == p + [x];
        if f(x) {
          assert Indices(lo, hi, both) == q + [x];
        } else {
          assert Indices(lo, hi, both) == q;
        }
      } else {
        assert Indices(lo, hi, keep) == p;
        assert Indices(lo, hi, both) == q;
      }
    }
  }

  /** `workerBlocks`: the region blocks that lie in this worker's strip. */
  method CountWorkerBlocks(sch: Schematic, cfg: BuildConfig, arr: seq<nat>) returns (count: nat)
    requires sch.Valid() && cfg.workerCount > 1 && cfg.workRegion.Some?
    requires arr == Indices(0, sch.Volume(), (i: nat) => RegionBlock(sch, cfg.workRegion, i))
    ensures count == |Indices(0, sch.Volume(), (i: nat) => WorkerBlock(sch, cfg, i))|
  {
    var r := cfg.workRegion.value;
    var myMinZ := StripMin(r, cfg.workerCount, cfg.workerId);
    var myMaxZ := StripMax(r, cfg.workerCount, cfg.workerId);
    var strip := (i: nat) => sch.sx > 0 && sch.sz > 0 && InOwnStrip(cfg, sch.At(i));
    count := 0;
    var k := 0;
    while k < |arr|
      invariant 0 <= k <= |arr|
      invariant count == CountWhere(arr[..k], strip)
    {
      assert arr[..k + 1][..k] == arr[..k];
      var rel := sch.At(arr[k]);
      if rel.z >= myMinZ && rel.z <= myMaxZ {
        count := count + 1;
      }
      k := k + 1;
    }
    assert arr[..|arr|] == arr;
    CountWhereIndices(0, sch.Volume(), (i: nat) => RegionBlock(sch, cfg.workRegion, i), strip,
      (i: nat) => WorkerBlock(sch, cfg, i));
  }

  // ---------------------------------------------------------------------------
  // Cache

  /** `hashConfig({ schematic, workRegion })` */
  function ConfigHash(cfg: BuildConfig): CacheHash {
    BuildingHash(cfg.schematic, cfg.workRegion)
  }

  /** The hash leaves out the worker assignment and nothing else of the record. */
  lemma HashIgnoresWorkers(cfg: BuildConfig, n: int, id: int)
    ensures ConfigHash(cfg.(workerCount := n, workerId := id)) == ConfigHash(cfg)
    ensures forall other: BuildConfig :: ConfigHash(other) == ConfigHash(cfg) <==>
      other.schematic == cfg.schematic && other.workRegion == cfg.workRegion
  {
  }

  /**
   * The cache check at the start of `build`. A hash mismatch resets the
   * progress; with more than one worker and no work region the strip formula
   * throws (a `TypeError`), which the model returns as a failure. A hash
   * match keeps the cache (the vectors are only re-wrapped).
   */
  method PrepareCache(c: Cache, sch: Schematic, cfg: BuildConfig, now: int) returns (r: Result<Cache, string>)
    requires sch.Valid()
    ensures c.hash == ConfigHash(cfg) ==> r == Success(c)
    ensures r.Failure? <==> c.hash != ConfigHash(cfg) && !WorkerConfigOk(cfg)
    ensures c.hash != ConfigHash(cfg) && r.Success? ==>
      var n := r.value;
      && n.hash == ConfigHash(cfg)
      && n.placedBlock == 0 && n.currentLayer == 0 && n.currentPalette == 0
      && n.regionTotalBlocks == |Indices(0, sch.Volume(), (i: nat) => RegionBlock(sch, cfg.workRegion, i))|
      && n.totalBlocks == (if cfg.workerCount > 1 then |Indices(0, sch.Volume(), (i: nat) => WorkerBlock(sch, cfg, i))|
                           else n.regionTotalBlocks)
      && n.totalLayer == sch.sy
      && n.startTime == now && n.endTime == -1 && n.useTime == -1
      && n.origin == Vec3(0, 0, 0)
      && n.destination == Vec3(sch.sx - 1, sch.sy - 1, sch.sz - 1)
      && n.placementOrigin == PlacementPoint(cfg.schematic)
      && n.placementDestination == n.placementOrigin.Plus(n.destination)
      && n.debug == ZeroDebug
  {
    var arr, total := RegionBlocks(sch, cfg.workRegion);
    if c.hash == ConfigHash(cfg) {
      return Success(c);
    }
    var workerBlocks := 0;
    if cfg.workerCount > 1 {
      if cfg.workRegion.None? {
        return Failure("TypeError: cannot read workRegion.maxZ");
      }
      workerBlocks := CountWorkerBlocks(sch, cfg, arr);
    } else {
      workerBlocks := total;
    }
    var destination := FarCorner(sch);
    var placementOrigin := PlacementPoint(cfg.schematic);
    var n := Cache(
      hash := ConfigHash(cfg),
      placedBlock := 0,
      totalBlocks := workerBlocks,
      regionTotalBlocks := total,
      totalLayer := sch.sy,
      currentLayer := 0,
      currentPalette := 0,
      startTime := now,
      endTime := -1,
      useTime := -1,
      origin := Vec3(0, 0, 0),
      destination := destination,
      placementOrigin := placementOrigin,
      placementDestination := placementOrigin.Plus(destination),
      debug := ZeroDebug);
    return Success(n);
  }

  /** Changing only the worker assignment keeps a matching cache as it is. */
  lemma WorkerChangeKeepsProgress(c: Cache, cfg: BuildConfig, n: int, id: int)
    requires c.hash == ConfigHash(cfg)
    ensures c.hash == ConfigHash(cfg.(workerCount := n, workerId := id))
  {
  }

  // ---------------------------------------------------------------------------
  // Per-layer palette order

  predicate IsWall(e: PaletteEntry) {
    match e.properties
    case None => false
    case Some(p) => "face" in p && p["face"] == "wall"
  }

  /** `a.Name.localeCompare(b.Name)`, taken as code-unit order. */
  function LocaleCompare(a: string, b: string): int {
    if a == b then 0 else if StrLess(a, b) then -1 else 1
  }

  /** The comparator passed to `sch_palette_order.sort`. */
  function PaletteCompare(a: PaletteEntry, b: PaletteEntry): int {
    if IsWall(a) && !IsWall(b) then 1
    else if !IsWall(a) && IsWall(b) then -1
    else if a.properties.Some? && b.properties.None? then 1
    else if a.properties.None? && b.properties.Some? then -1
    else LocaleCompare(a.name, b.name)
  }

  /** The sort key's first two parts: wall placement, then presence of Properties. */
  function Rank(e: PaletteEntry): nat {
    (if IsWall(e) then 2 else 0) + (if e.properties.Some? then 1 else 0)
  }

  /**
   * The comparator orders by the key (wall?, has Properties?, name):
   * non-wall before wall, propertyless before propertied, then by name.
   */
  lemma PaletteCompareByKey(a: PaletteEntry, b: PaletteEntry)
    ensures PaletteCompare(a, b) < 0 <==> Rank(a) < Rank(b) || (Rank(a) == Rank(b) && StrLess(a.name, b.name))
    ensures PaletteCompare(a, b) == 0 <==> Rank(a) == Rank(b) && a.name == b.name
  {
    if a.name != b.name {
      StrLessTotal(a.name, b.name);
      if StrLess(a.name, b.name) {
        StrLessAsymmetric(a.name, b.name);
      }
    } else {
      StrLessIrreflexive(a.name);
    }
  }

  /**
   * The stable sort of an ascending list by the comparator is the sort by
   * "comparator, then index".
   */
  predicate PaletteBefore(pal: seq<PaletteEntry>, i: nat, j: nat) {
    i < |pal| && j < |pal| &&
    var c := PaletteCompare(pal[i], pal[j]);
    c < 0 || (c == 0 && i < j)
  }

  function PaletteLt(pal: seq<PaletteEntry>): (nat, nat) -> bool {
    (i: nat, j: nat) => PaletteBefore(pal, i, j)
  }

  lemma PaletteBeforeTransitive(pal: seq<PaletteEntry>, i: nat, j: nat, k: nat)
    requires PaletteBefore(pal, i, j) && PaletteBefore(pal, j, k)
    ensures PaletteBefore(pal, i, k)
  {
    var a, b, c := pal[i], pal[j], pal[k];
    PaletteCompareByKey(a, b);
    PaletteCompareByKey(b, c);
    PaletteCompareByKey(a, c);
    if Rank(a) == Rank(b) == Rank(c) && StrLess(a.name, b.name) && StrLess(b.name, c.name) {
      StrLessTransitive(a.name, b.name, c.name);
    }
  }

  lemma PaletteBeforeConnected(pal: seq<PaletteEntry>, i: nat, j: nat)
    requires i < |pal| && j < |pal| && i != j
    ensures PaletteBefore(pal, i, j) || PaletteBefore(pal, j, i)
  {
    PaletteCompareByKey(pal[i], pal[j]);
    PaletteCompareByKey(pal[j], pal[i]);
    StrLessTotal(pal[i].name, pal[j].name);
  }

  lemma PaletteLtStrictTotal(pal: seq<PaletteEntry>, xs: set<nat>)
    requires forall x | x in xs :: x < |pal|
    ensures StrictTotalOn(PaletteLt(pal), xs)
  {
    var lt := PaletteLt(pal);
    forall a | a in xs ensures !lt(a, a) {
      PaletteCompareByKey(pal[a], pal[a]);
      StrLessIrreflexive(pal[a].name);
    }
    forall a, b | a in xs && b in xs && a != b ensures lt(a, b) || lt(b, a) {
      PaletteBeforeConnected(pal, a, b);
    }
    forall a, b, c | a in xs && b in xs && c in xs && lt(a, b) && lt(b, c) ensures lt(a, c) {
      PaletteBeforeTransitive(pal, a, b, c);
    }
  }

  /** The palettes with a nonzero count in this layer, ascending. */
  function UsedPalettes(counts: seq<nat>): seq<nat> {
    Indices(0, |counts|, (p: nat) => p < |counts| && counts[p] > 0)
  }

  /** `sch_palette_order` after the sort. */
  function PaletteOrder(pal: seq<PaletteEntry>, counts: seq<nat>): seq<nat> {
    Sort(UsedPalettes(counts), PaletteLt(pal))
  }

  lemma PaletteBeforeIrreflexive(pal: seq<PaletteEntry>, i: nat)
    ensures !PaletteBefore(pal, i, i)
  {
    if i < |pal| {
      PaletteCompareByKey(pal[i], pal[i]);
      StrLessIrreflexive(pal[i].name);
    }
  }

  lemma UsedPalettesSpec(counts: seq<nat>)
    ensures forall p: nat :: p in UsedPalettes(counts) <==> p < |counts| && counts[p] > 0
    ensures Distinct(UsedPalettes(counts))
  {
    IndicesSpec(0, |counts|, (p: nat) => p < |counts| && counts[p] > 0);
  }

  lemma SameMembers<T>(a: seq<T>, b: seq<T>)
    requires multiset(a) == multiset(b)
    ensures forall x :: x in a <==> x in b
  {
    forall x ensures x in a <==> x in b {
      assert x in a <==> x in multiset(a);
      assert x in b <==> x in multiset(b);
    }
  }

  /**
   * The layer's palette order lists each palette with a nonzero count exactly
   * once, sorted by the comparator with ties kept in palette order.
   */
  lemma PaletteOrderSpec(pal: seq<PaletteEntry>, counts: seq<nat>)
    requires |counts| == |pal|
    ensures forall p: nat :: p in PaletteOrder(pal, counts) <==> p < |counts| && counts[p] > 0
    ensures Distinct(PaletteOrder(pal, counts))
    ensures SortedBy(PaletteLt(pal), PaletteOrder(pal, counts))
  {
    var used := UsedPalettes(counts);
    var lt := PaletteLt(pal);
    UsedPalettesSpec(counts);
    PaletteLtStrictTotal(pal, set y | y in used);
    SortCorrect(used, lt);
    var order := Sort(used, lt);
    SameMembers(order, used);
    forall i, j | 0 <= i < j < |order| ensures order[i] != order[j] {
      PaletteBeforeIrreflexive(pal, order[i]);
    }
  }

  // ---------------------------------------------------------------------------
  // The placement loop

  /** Bucket membership: a worker block with palette id `p`. */
  predicate LayerKeep(sch: Schematic, cfg: BuildConfig, p: nat, i: nat) {
    WorkerBlock(sch, cfg, i) && sch.pids[i] == p
  }

  function KeepFor(sch: Schematic, cfg: BuildConfig, p: nat): nat -> bool {
    (i: nat) => LayerKeep(sch, cfg, p, i)
  }

  /** `layerPaletteBlocksByIndex[p]` for layer `layer`. */
  function Bucket(sch: Schematic, cfg: BuildConfig, layer: nat, p: nat): seq<nat> {
    Indices(layer * sch.LayerSize(), (layer + 1) * sch.LayerSize(), KeepFor(sch, cfg, p))
  }

  /**
   * A layer's bucket for palette p holds exactly the voxels of that layer with
   * id p that pass the region and strip filters, in ascending order.
   */
  lemma BucketSpec(sch: Schematic, cfg: BuildConfig, layer: nat, p: nat)
    requires sch.Valid() && WorkerConfigOk(cfg) && layer < sch.sy
    ensures forall i: nat :: i in Bucket(sch, cfg, layer, p) <==>
      && i < sch.Volume() && sch.At(i).y == layer
      && sch.pids[i] == p && p != 0
      && InRegion(sch.At(i), cfg.workRegion) && InOwnStrip(cfg, sch.At(i))
    ensures Increasing(Bucket(sch, cfg, layer, p))
  {
    IndicesSpec(layer * sch.LayerSize(), (layer + 1) * sch.LayerSize(), KeepFor(sch, cfg, p));
    LayerWithinVolume(sch, layer);
    forall i: nat ensures sch.At(i).y == layer <==> layer * sch.LayerSize() <= i < (layer + 1) * sch.LayerSize() {
      LayerRange(sch, i, layer);
    }
  }

  /** The world block at schematic voxel i satisfies `checkBlock` for `name`. */
  predicate Matches(sch: Schematic, world: map<Vec3, string>, origin: Vec3, name: string, i: nat)
    requires sch.sx > 0 && sch.sz > 0
  {
    BasePrinter.CheckBlock(BasePrinter.BlockAt(world, origin.Plus(sch.At(i))), name) == 1
  }

  /**
   * What a sweep may have done so far to the state array `st` and cooldown
   * queue `cd` (starting from `st0`, `cd0`): states only rise from 0 to 1 and
   * only where the world already matches, and the queue grows by the
   * placements made, each at a candidate still 0 and not cooling down whose
   * world block is loaded but does not match.
   */
  ghost predicate SweepEffect(sch: Schematic, bucket: seq<nat>, world: map<Vec3, string>, origin: Vec3, name: string,
                              st0: seq<int>, cd0: seq<int>, st: seq<int>, cd: seq<int>, placed: seq<nat>)
    requires sch.sx > 0 && sch.sz > 0
  {
    && |st| == |st0| == |bucket|
    && (forall k | 0 <= k < |st| :: st[k] == 0 || st[k] == 1)
    && (forall k | 0 <= k < |st| && st0[k] != 0 :: st[k] == st0[k])
    && (forall k | 0 <= k < |st| && st0[k] == 0 && st[k] != 0 :: st[k] == 1 && Matches(sch, world, origin, name, bucket[k]))
    && cd == cd0 + placed
    && (forall j | 0 <= j < |placed| ::
          && placed[j] < |st| && st[placed[j]] == 0 && placed[j] !in cd0
          && BasePrinter.BlockAt(world, origin.Plus(sch.At(bucket[placed[j]]))).Some?
          && !Matches(sch, world, origin, name, bucket[placed[j]]))
  }

  /**
   * The scan of one layer (`startIndex` to `endIndex` inclusive) that fills
   * `layerPaletteBlocksByIndex` and `layerPaletteCountByIndex`.
   */
  method FillBuckets(sch: Schematic, cfg: BuildConfig, layer: nat) returns (bs: seq<seq<nat>>, cs: seq<nat>)
    requires sch.Valid() && WorkerConfigOk(cfg) && layer < sch.sy
    ensures |bs| == |cs| == |sch.palette|
    ensures forall p | 0 <= p < |sch.palette| :: bs[p] == Bucket(sch, cfg, layer, p) && cs[p] == |bs[p]|
  {
    var ls := sch.LayerSize();
    var startIndex := layer * ls;
    var endIndex := (layer + 1) * ls - 1;
    LayerWithinVolume(sch, layer);
    var np := |sch.palette|;
    bs := seq(np, _ => []);
    cs := seq(np, _ => 0);
    var i := startIndex;
    while i <= endIndex
      invariant startIndex <= i <= endIndex + 1
      invariant |bs| == |cs| == np
      invariant forall p | 0 <= p < np ::
        bs[p] == Indices(startIndex, i, KeepFor(sch, cfg, p)) && cs[p] == |bs[p]|
    {
      ghost var keep := sch.pids[i] != 0 && InOwnStrip(cfg, sch.At(i)) && InRegion(sch.At(i), cfg.workRegion);
      forall p | 0 <= p < np
        ensures Indices(startIndex, i + 1, KeepFor(sch, cfg, p))
             == Indices(startIndex, i, KeepFor(sch, cfg, p)) + (if keep && sch.pids[i] == p then [i] else [])
      {
        IndicesStep(startIndex, i + 1, KeepFor(sch, cfg, p));
      }
      var pid := sch.Pid(i);
      if pid == 0 {
        i := i + 1;
        continue;
      }
      var rel := sch.At(i);
      if cfg.workerCount > 1 {
        var r := cfg.workRegion.value;
        var myMinZ := StripMin(r, cfg.workerCount, cfg.workerId);
        var myMaxZ := StripMax(r, cfg.workerCount, cfg.workerId);
        if rel.z < myMinZ || rel.z > myMaxZ {
          i := i + 1;
          continue;
        }
      }
      if cfg.workRegion.Some? {
        var r := cfg.workRegion.value;
        if rel.x < r.minX || rel.x > r.maxX || rel.z < r.minZ || rel.z > r.maxZ {
          i := i + 1;
          continue;
        }
      }
      cs := cs[pid := cs[pid] + 1];
      bs := bs[pid := bs[pid] + [i]];
      i := i + 1;
    }
  }

  /** `for (let i in layerPaletteCountByIndex) if (count > 0) push(i)`. */
  method UsedList(cs: seq<nat>) returns (used: seq<nat>)
    ensures used == UsedPalettes(cs)
  {
    used := [];
    var p := 0;
    while p < |cs|
      invariant 0 <= p <= |cs|
      invariant used == Indices(0, p, (q: nat) => q < |cs| && cs[q] > 0)
    {
      IndicesStep(0, p + 1, (q: nat) => q < |cs| && cs[q] > 0);
      if cs[p] > 0 {
        used := used + [p];
      }
      p := p + 1;
    }
  }

  /**
   * What the sweep leaves at bucket position `k` once it has met it: done if
   * the world matched and it was not cooling down when the sweep began, and
   * in any case done, cooling down, or with no loaded block at its position.
   */
  ghost predicate Swept(sch: Schematic, bucket: seq<nat>, world: map<Vec3, string>, origin: Vec3, name: string,
                        cd0: seq<int>, st: seq<int>, cd: seq<int>, k: int)
    requires sch.sx > 0 && sch.sz > 0
  {
    && 0 <= k < |bucket| && k < |st|
    && (Matches(sch, world, origin, name, bucket[k]) && k !in cd0 ==> st[k] == 1)
    && (st[k] == 1 || k in cd || BasePrinter.BlockAt(world, origin.Plus(sch.At(bucket[k]))).None?)
  }

  /** A met position stays swept while states only rise and the queue only grows. */
  lemma SweptGrows(sch: Schematic, bucket: seq<nat>, world: map<Vec3, string>, origin: Vec3, name: string,
                   cd0: seq<int>, st: seq<int>, cd: seq<int>, st': seq<int>, cd': seq<int>, k: int)
    requires sch.sx > 0 && sch.sz > 0
    requires Swept(sch, bucket, world, origin, name, cd0, st, cd, k)
    requires |st'| == |st| && (st[k] == 1 ==> st'[k] == 1) && cd <= cd'
    ensures Swept(sch, bucket, world, origin, name, cd0, st', cd', k)
  {
    if k in cd {
      var i :| 0 <= i < |cd| && cd[i] == k;
      assert cd'[i] == k;
    }
  }

  /**
   * One cell of the 9x9 sweep once it is known to hold candidate `d` of the
   * bucket: mark it done if the world already matches (and it is not cooling
   * down), otherwise place it if it is still 0, not cooling down and loaded.
   */
  method VisitCell(sch: Schematic, bucket: seq<nat>, world: map<Vec3, string>, origin: Vec3, name: string,
                   st0: seq<int>, cd0: seq<int>, st: seq<int>, cd: seq<int>, placed: seq<nat>, d: nat, dAbs: Vec3)
    returns (st': seq<int>, cd': seq<int>, placed': seq<nat>)
    requires sch.sx > 0 && sch.sz > 0
    requires SweepEffect(sch, bucket, world, origin, name, st0, cd0, st, cd, placed)
    requires d < |bucket| && dAbs == origin.Plus(sch.At(bucket[d]))
    ensures SweepEffect(sch, bucket, world, origin, name, st0, cd0, st', cd', placed')
    ensures d !in cd && Matches(sch, world, origin, name, bucket[d]) ==>
              st' == st[d := 1] && cd' == cd && placed' == placed
    ensures d !in cd && !Matches(sch, world, origin, name, bucket[d]) && st[d] == 0
            && BasePrinter.BlockAt(world, dAbs).Some? ==>
              st' == st && cd' == cd + [d] && placed' == placed + [d]
    ensures d in cd || (!Matches(sch, world, origin, name, bucket[d]) && (st[d] != 0 || BasePrinter.BlockAt(world, dAbs).None?)) ==>
              st' == st && cd' == cd && placed' == placed
    ensures Swept(sch, bucket, world, origin, name, cd0, st', cd', d)
  {
    var block := BasePrinter.BlockAt(world, dAbs);
    if d in cd && d !in cd0 {
      var i :| 0 <= i < |cd| && cd[i] == d;
      assert i >= |cd0| && placed[i - |cd0|] == d;
    }
    if IndexOf(cd, d) == -1 && BasePrinter.CheckBlock(block, name) == 1 {
      return st[d := 1], cd, placed;
    } else if st[d] == 0 && IndexOf(cd, d) == -1 {
      if block.None? {
        return st, cd, placed;
      }
      return st, cd + [d], placed + [d];
    }
    return st, cd, placed;
  }

  /**
   * The bucket position the sweep meets at offset (dx, dz) from `selRel`: -1
   * when that cell is outside the schematic, out of `reach`, holds another
   * palette id or lies outside the worker's strip; otherwise `blocks.indexOf`
   * of the cell's index, itself -1 when the bucket does not list the cell.
   */
  ghost function SweepTarget(sch: Schematic, cfg: BuildConfig, bucket: seq<nat>, pid: nat, origin: Vec3, selRel: Vec3,
                             reach: Vec3 -> bool, dx: int, dz: int): int
    requires WorkerConfigOk(cfg)
  {
    var dRel := selRel.Offset(dx, 0, dz);
    var idx := sch.Index(dRel);
    if !BasePrinter.PosInBox(dRel, Vec3(0, 0, 0), FarCorner(sch)) || !reach(origin.Plus(selRel).Offset(dx, 0, dz)) then -1
    else if !(0 <= idx < |sch.pids| && sch.pids[idx] == pid) then -1
    else if !InOwnStrip(cfg, dRel) then -1
    else IndexOf(bucket, idx)
  }

  /** The tests one cell of the sweep goes through before `VisitCell`. */
  method SweepCell(sch: Schematic, cfg: BuildConfig, bucket: seq<nat>, pid: nat, origin: Vec3, selRel: Vec3,
                   world: map<Vec3, string>, reach: Vec3 -> bool, dx: int, dz: int,
                   st0: seq<int>, cd0: seq<int>, st: seq<int>, cd: seq<int>, placed: seq<nat>)
    returns (st': seq<int>, cd': seq<int>, placed': seq<nat>)
    requires sch.Valid() && sch.sy > 0 && WorkerConfigOk(cfg) && pid < |sch.palette|
    requires SweepEffect(sch, bucket, world, origin, sch.palette[pid].name, st0, cd0, st, cd, placed)
    ensures SweepEffect(sch, bucket, world, origin, sch.palette[pid].name, st0, cd0, st', cd', placed')
    ensures var k := SweepTarget(sch, cfg, bucket, pid, origin, selRel, reach, dx, dz);
      && (k != -1 ==> Swept(sch, bucket, world, origin, sch.palette[pid].name, cd0, st', cd', k))
      && (forall i | 0 <= i < |st| :: st'[i] == st[i] || (i == k && st'[i] == 1))
      && (placed' == placed || (k != -1 && placed' == placed + [k]))
  {
    st', cd', placed' := st, cd, placed;
    var dAbs := origin.Plus(selRel).Offset(dx, 0, dz);
    var dRel := selRel.Offset(dx, 0, dz);
    if !BasePrinter.PosInBox(dRel, Vec3(0, 0, 0), FarCorner(sch)) || !reach(dAbs) {
      return;
    }
    var idx := sch.Index(dRel);
    if !(0 <= idx < |sch.pids| && sch.pids[idx] == pid) {
      return;
    }
    if cfg.workerCount > 1 {
      var r := cfg.workRegion.value;
      if dRel.z < StripMin(r, cfg.workerCount, cfg.workerId) || dRel.z > StripMax(r, cfg.workerCount, cfg.workerId) {
        return;
      }
    }
    var d := IndexOf(bucket, idx);
    if d != -1 {
      AtOfIndex(sch, dRel);
      assert dAbs == origin.Plus(sch.At(bucket[d]));
      st', cd', placed' := VisitCell(sch, bucket, world, origin, sch.palette[pid].name, st0, cd0, st, cd, placed, d, dAbs);
    }
  }

  /** The sweep reaches cell (dz, dx): no pause or stop was seen in row dz up to and including dx. */
  ghost predicate Reached(halted: (int, int) -> bool, dz: int, dx: int) {
    forall x | -4 <= x <= dx :: !halted(dz, x)
  }

  /**
   * Every cell of the window before (dzEnd, dxEnd) in sweep order (dz outer,
   * dx inner) that the sweep reached and that holds a candidate is swept.
   */
  ghost predicate SweptBefore(sch: Schematic, cfg: BuildConfig, bucket: seq<nat>, pid: nat, origin: Vec3, selRel: Vec3,
                              world: map<Vec3, string>, reach: Vec3 -> bool, halted: (int, int) -> bool,
                              cd0: seq<int>, st: seq<int>, cd: seq<int>, dzEnd: int, dxEnd: int)
    requires sch.Valid() && WorkerConfigOk(cfg) && pid < |sch.palette|
  {
    forall dz, dx | -4 <= dz <= 4 && -4 <= dx <= 4 && (dz < dzEnd || (dz == dzEnd && dx < dxEnd))
                  && Reached(halted, dz, dx) && SweepTarget(sch, cfg, bucket, pid, origin, selRel, reach, dx, dz) != -1 ::
      Swept(sch, bucket, world, origin, sch.palette[pid].name, cd0, st, cd,
            SweepTarget(sch, cfg, bucket, pid, origin, selRel, reach, dx, dz))
  }

  /** Bucket position `k` is the candidate of some cell of the window the sweep reached. */
  ghost predicate InWindow(sch: Schematic, cfg: BuildConfig, bucket: seq<nat>, pid: nat, origin: Vec3, selRel: Vec3,
                           reach: Vec3 -> bool, halted: (int, int) -> bool, k: int)
    requires WorkerConfigOk(cfg)
  {
    exists dz, dx | -4 <= dz <= 4 && -4 <= dx <= 4 ::
      Reached(halted, dz, dx) && SweepTarget(sch, cfg, bucket, pid, origin, selRel, reach, dx, dz) == k
  }

  /** The sweep changes states and places only at candidates of reached cells. */
  ghost predicate WithinWindow(sch: Schematic, cfg: BuildConfig, bucket: seq<nat>, pid: nat, origin: Vec3, selRel: Vec3,
                               reach: Vec3 -> bool, halted: (int, int) -> bool, st0: seq<int>, st: seq<int>, placed: seq<nat>)
    requires WorkerConfigOk(cfg) && |st| == |st0|
  {
    && (forall k | 0 <= k < |st| && st[k] != st0[k] :: InWindow(sch, cfg, bucket, pid, origin, selRel, reach, halted, k))
    && (forall i | 0 <= i < |placed| :: InWindow(sch, cfg, bucket, pid, origin, selRel, reach, halted, placed[i]))
  }

  /**
   * One step of the sweep at reached cell (dz, dx) keeps the earlier cells
   * swept, sweeps this one and keeps every change inside the window.
   */
  lemma SweepStep(sch: Schematic, cfg: BuildConfig, bucket: seq<nat>, pid: nat, origin: Vec3, selRel: Vec3,
                  world: map<Vec3, string>, reach: Vec3 -> bool, halted: (int, int) -> bool, dz: int, dx: int,
                  st0: seq<int>, cd0: seq<int>, st: seq<int>, cd: seq<int>, placed: seq<nat>,
                  st': seq<int>, cd': seq<int>, placed': seq<nat>)
    requires sch.Valid() && WorkerConfigOk(cfg) && pid < |sch.palette|
    requires -4 <= dz <= 4 && -4 <= dx <= 4 && Reached(halted, dz, dx)
    requires SweepEffect(sch, bucket, world, origin, sch.palette[pid].name, st0, cd0, st, cd, placed)
    requires SweepEffect(sch, bucket, world, origin, sch.palette[pid].name, st0, cd0, st', cd', placed')
    requires SweptBefore(sch, cfg, bucket, pid, origin, selRel, world, reach, halted, cd0, st, cd, dz, dx)
    requires WithinWindow(sch, cfg, bucket, pid, origin, selRel, reach, halted, st0, st, placed)
    requires var k := SweepTarget(sch, cfg, bucket, pid, origin, selRel, reach, dx, dz);
      && (k != -1 ==> Swept(sch, bucket, world, origin, sch.palette[pid].name, cd0, st', cd', k))
      && (forall i | 0 <= i < |st| :: st'[i] == st[i] || (i == k && st'[i] == 1))
      && (placed' == placed || (k != -1 && placed' == placed + [k]))
    ensures SweptBefore(sch, cfg, bucket, pid, origin, selRel, world, reach, halted, cd0, st', cd', dz, dx + 1)
    ensures WithinWindow(sch, cfg, bucket, pid, origin, selRel, reach, halted, st0, st', placed')
  {
    var name := sch.palette[pid].name;
    var k := SweepTarget(sch, cfg, bucket, pid, origin, selRel, reach, dx, dz);
    assert cd <= cd' by {
      assert cd == cd0 + placed && cd' == cd0 + placed';
    }
    forall z, x | -4 <= z <= 4 && -4 <= x <= 4 && (z < dz || (z == dz && x < dx + 1))
                && Reached(halted, z, x) && SweepTarget(sch, cfg, bucket, pid, origin, selRel, reach, x, z) != -1
      ensures Swept(sch, bucket, world, origin, name, cd0, st', cd', SweepTarget(sch, cfg, bucket, pid, origin, selRel, reach, x, z))
    {
      var kk := SweepTarget(sch, cfg, bucket, pid, origin, selRel, reach, x, z);
      if z < dz || x < dx {
        SweptGrows(sch, bucket, world, origin, name, cd0, st, cd, st', cd', kk);
      }
    }
    assert InWindow(sch, cfg, bucket, pid, origin, selRel, reach, halted, k);
  }

  /** The two nested loops of the sweep around bucket member `sel`. */
  method SweepAround(sch: Schematic, cfg: BuildConfig, bucket: seq<nat>, pid: nat, origin: Vec3, sel: nat,
                     world: map<Vec3, string>, reach: Vec3 -> bool, halted: (int, int) -> bool,
                     st0: seq<int>, cd0: seq<int>)
    returns (st: seq<int>, cd: seq<int>, placed: seq<nat>)
    requires sch.Valid() && sch.sy > 0 && WorkerConfigOk(cfg) && pid < |sch.palette|
    requires |st0| == |bucket| && forall k | 0 <= k < |st0| :: st0[k] == 0 || st0[k] == 1
    ensures SweepEffect(sch, bucket, world, origin, sch.palette[pid].name, st0, cd0, st, cd, placed)
    ensures SweptBefore(sch, cfg, bucket, pid, origin, sch.At(sel), world, reach, halted, cd0, st, cd, 5, -4)
    ensures WithinWindow(sch, cfg, bucket, pid, origin, sch.At(sel), reach, halted, st0, st, placed)
  {
    var selRel := sch.At(sel);
    st, cd, placed := st0, cd0, [];
    var dz := -4;
    while dz <= 4
      invariant -4 <= dz <= 5
      invariant SweepEffect(sch, bucket, world, origin, sch.palette[pid].name, st0, cd0, st, cd, placed)
      invariant SweptBefore(sch, cfg, bucket, pid, origin, selRel, world, reach, halted, cd0, st, cd, dz, -4)
      invariant WithinWindow(sch, cfg, bucket, pid, origin, selRel, reach, halted, st0, st, placed)
    {
      var dx := -4;
      while dx <= 4
        invariant -4 <= dx <= 5
        invariant SweepEffect(sch, bucket, world, origin, sch.palette[pid].name, st0, cd0, st, cd, placed)
        invariant SweptBefore(sch, cfg, bucket, pid, origin, selRel, world, reach, halted, cd0, st, cd, dz, dx)
        invariant WithinWindow(sch, cfg, bucket, pid, origin, selRel, reach, halted, st0, st, placed)
        invariant forall x | -4 <= x < dx :: !halted(dz, x)
      {
        if halted(dz, dx) {
          break;
        }
        assert Reached(halted, dz, dx);
        var st', cd', placed' := SweepCell(sch, cfg, bucket, pid, origin, selRel, world, reach, dx, dz, st0, cd0, st, cd, placed);
        SweepStep(sch, cfg, bucket, pid, origin, selRel, world, reach, halted, dz, dx, st0, cd0, st, cd, placed, st', cd', placed');
        st, cd, placed := st', cd', placed';
        dx := dx + 1;
      }
      RowEnd(sch, cfg, bucket, pid, origin, selRel, world, reach, halted, cd0, st, cd, dz, dx);
      dz := dz + 1;
    }
  }

  /**
   * What a whole sweep did at the candidate `k` of a reached cell that was not
   * cooling down: done exactly when the world matched, and placed and queued
   * when its block was loaded but did not match while it was still 0.
   */
  lemma SweepOutcome(sch: Schematic, cfg: BuildConfig, bucket: seq<nat>, pid: nat, origin: Vec3, selRel: Vec3,
                     world: map<Vec3, string>, reach: Vec3 -> bool, halted: (int, int) -> bool,
                     st0: seq<int>, cd0: seq<int>, st: seq<int>, cd: seq<int>, placed: seq<nat>, dz: int, dx: int)
    requires sch.Valid() && WorkerConfigOk(cfg) && pid < |sch.palette|
    requires SweepEffect(sch, bucket, world, origin, sch.palette[pid].name, st0, cd0, st, cd, placed)
    requires SweptBefore(sch, cfg, bucket, pid, origin, selRel, world, reach, halted, cd0, st, cd, 5, -4)
    requires -4 <= dz <= 4 && -4 <= dx <= 4 && Reached(halted, dz, dx)
    requires var k := SweepTarget(sch, cfg, bucket, pid, origin, selRel, reach, dx, dz); k != -1 && k !in cd0
    ensures var k := SweepTarget(sch, cfg, bucket, pid, origin, selRel, reach, dx, dz);
      && (Matches(sch, world, origin, sch.palette[pid].name, bucket[k]) ==> st[k] == 1)
      && (st0[k] == 0 ==> (st[k] == 1 <==> Matches(sch, world, origin, sch.palette[pid].name, bucket[k])))
      && ((st0[k] == 0 && !Matches(sch, world, origin, sch.palette[pid].name, bucket[k])
           && BasePrinter.BlockAt(world, origin.Plus(sch.At(bucket[k]))).Some?) ==> k in placed)
  {
    var k := SweepTarget(sch, cfg, bucket, pid, origin, selRel, reach, dx, dz);
    assert Swept(sch, bucket, world, origin, sch.palette[pid].name, cd0, st, cd, k);
    if k in cd {
      var i :| 0 <= i < |cd| && cd[i] == k;
      assert i >= |cd0| && placed[i - |cd0|] == k;
    }
  }

  /**
   * The end of row dz, reached normally or by a pause or stop seen at dx:
   * every cell of the row the sweep reached is swept.
   */
  lemma RowEnd(sch: Schematic, cfg: BuildConfig, bucket: seq<nat>, pid: nat, origin: Vec3, selRel: Vec3,
               world: map<Vec3, string>, reach: Vec3 -> bool, halted: (int, int) -> bool,
               cd0: seq<int>, st: seq<int>, cd: seq<int>, dz: int, dx: int)
    requires sch.Valid() && WorkerConfigOk(cfg) && pid < |sch.palette|
    requires -4 <= dz <= 4 && -4 <= dx <= 5 && (dx <= 4 ==> halted(dz, dx))
    requires SweptBefore(sch, cfg, bucket, pid, origin, selRel, world, reach, halted, cd0, st, cd, dz, dx)
    ensures SweptBefore(sch, cfg, bucket, pid, origin, selRel, world, reach, halted, cd0, st, cd, dz + 1, -4)
  {
    forall x | dx <= x <= 4
      ensures !Reached(halted, dz, x)
    {
      assert halted(dz, dx);
    }
  }

  datatype Status = Finished | Stopped | Paused | Running

  /**
   * The state of one `build` call of the building printer: the cache cursor,
   * the current layer's buckets and palette order, the current palette's
   * state array, the find-next cursor and the cooldown queue.
   */
  class Scheduler {
    const sch: Schematic
    const cfg: BuildConfig
    /** `build_cache` */
    var cache: Cache
    /** `layerPaletteBlocksByIndex` */
    var buckets: seq<seq<nat>>
    /** `layerPaletteCountByIndex` */
    var counts: seq<nat>
    /** `sch_palette_order` */
    var order: seq<nat>
    /** `currentPaletteBlocksState` */
    var state: seq<int>
    /** `selectBlockIndex` */
    var selectIndex: int
    /** `currentPaletteIndexLowerBound` */
    var lowerBound: nat
    /** `blockInCD`: positions in the current bucket, oldest first */
    var blockInCD: seq<int>
    /** `wheatherGetLayerPalette` */
    var haveLayer: bool
    /** `wheatherGetPalette` */
    var havePalette: bool

    ghost predicate LayerLoaded()
      reads this
      requires sch.Valid() && WorkerConfigOk(cfg) && |buckets| == |counts| == |sch.palette|
    {
      && cache.currentLayer < sch.sy
      && (forall p | 0 <= p < |sch.palette| :: buckets[p] == Bucket(sch, cfg, cache.currentLayer, p) && counts[p] == |buckets[p]|)
      && order == PaletteOrder(sch.palette, counts)
      && (forall k | 0 <= k < |order| :: order[k] < |sch.palette| && counts[order[k]] > 0)
    }

    ghost predicate Valid()
      reads this
    {
      && sch.Valid() && WorkerConfigOk(cfg)
      && cache.totalLayer == sch.sy
      && cache.origin == Vec3(0, 0, 0) && cache.destination == FarCorner(sch)
      && |buckets| == |counts| == |sch.palette|
      && (haveLayer ==> LayerLoaded())
      && (havePalette ==>
            && haveLayer && cache.currentPalette < |order|
            && |state| == |buckets[order[cache.currentPalette]]|
            && 0 <= selectIndex < |state|
            && lowerBound <= |state|
            && forall k | 0 <= k < |state| :: state[k] == 0 || state[k] == 1)
    }

    /** The start of `build`, after the cache check, with nothing loaded yet. */
    constructor(sch: Schematic, cfg: BuildConfig, cache: Cache)
      requires sch.Valid() && WorkerConfigOk(cfg)
      requires cache.totalLayer == sch.sy && cache.origin == Vec3(0, 0, 0) && cache.destination == FarCorner(sch)
      ensures Valid()
      ensures this.sch == sch && this.cfg == cfg && this.cache == cache
      ensures !haveLayer && !havePalette && blockInCD == [] && selectIndex == 0 && lowerBound == 0
    {
      this.sch := sch;
      this.cfg := cfg;
      this.cache := cache;
      buckets := seq(|sch.palette|, _ => []);
      counts := seq(|sch.palette|, _ => 0);
      order := [];
      state := [];
      selectIndex := 0;
      lowerBound := 0;
      blockInCD := [];
      haveLayer := false;
      havePalette := false;
    }

    /** The palette entry being placed. */
    function CurrentBucket(): seq<nat>
      reads this
      requires Valid() && havePalette
    {
      buckets[order[cache.currentPalette]]
    }

    /**
     * Loading a layer: fills each palette's bucket and count, then computes the
     * palette order. An empty layer is skipped by advancing `currentLayer`.
     */
    method LoadLayer()
      requires Valid() && !haveLayer && cache.currentLayer < cache.totalLayer
      modifies this
      ensures Valid()
      ensures forall p | 0 <= p < |sch.palette| ::
        buckets[p] == Bucket(sch, cfg, old(cache.currentLayer), p) && counts[p] == |buckets[p]|
      ensures order == PaletteOrder(sch.palette, counts)
      ensures order == [] ==> cache == old(cache).(currentLayer := old(cache.currentLayer) + 1) && !haveLayer
      ensures order != [] ==> cache == old(cache) && haveLayer && !havePalette
      ensures state == old(state) && blockInCD == old(blockInCD)
      ensures selectIndex == old(selectIndex) && lowerBound == old(lowerBound)
    {
      var bs, cs := FillBuckets(sch, cfg, cache.currentLayer);
      buckets, counts := bs, cs;
      var used := UsedList(cs);
      order := Sort(used, PaletteLt(sch.palette));
      PaletteOrderSpec(sch.palette, counts);
      if |order| == 0 {
        cache := cache.(currentLayer := cache.currentLayer + 1);
        return;
      }
      haveLayer := true;
      havePalette := false;
    }

    /** Entering a palette: a fresh all-zero state array and both cursors at 0. */
    method StartPalette()
      requires Valid() && haveLayer && !havePalette && cache.currentPalette < |order|
      modifies this
      ensures Valid() && havePalette && haveLayer
      ensures state == Fill(|CurrentBucket()|, 0) && selectIndex == 0 && lowerBound == 0
      ensures cache == old(cache) && buckets == old(buckets) && counts == old(counts) && order == old(order)
      ensures blockInCD == old(blockInCD)
    {
      var pid := order[cache.currentPalette];
      state := Fill(counts[pid], 0);
      selectIndex := 0;
      lowerBound := 0;
      havePalette := true;
    }

    /**
     * The 9x9 sweep around the selected candidate (dz outer, dx inner, both
     * from -4 to 4) in the candidate's layer. `reach` stands for the eye-distance
     * test, `halted(dz, dx)` for a pause or stop seen at that cell. Every
     * candidate of a reached cell ends done, cooling down or unloaded, and
     * only those candidates change.
     */
    method Sweep(world: map<Vec3, string>, reach: Vec3 -> bool, halted: (int, int) -> bool) returns (placed: seq<nat>)
      requires Valid() && havePalette
      modifies this
      ensures Valid() && havePalette
      ensures SweepEffect(sch, CurrentBucket(), world, cache.placementOrigin,
                          sch.palette[order[cache.currentPalette]].name,
                          old(state), old(blockInCD), state, blockInCD, placed)
      ensures SweptBefore(sch, cfg, CurrentBucket(), order[cache.currentPalette], cache.placementOrigin,
                          sch.At(CurrentBucket()[selectIndex]), world, reach, halted, old(blockInCD), state, blockInCD, 5, -4)
      ensures WithinWindow(sch, cfg, CurrentBucket(), order[cache.currentPalette], cache.placementOrigin,
                           sch.At(CurrentBucket()[selectIndex]), reach, halted, old(state), state, placed)
      ensures cache == old(cache) && buckets == old(buckets) && counts == old(counts) && order == old(order)
      ensures selectIndex == old(selectIndex) && lowerBound == old(lowerBound) && haveLayer == old(haveLayer)
    {
      var pid := order[cache.currentPalette];
      var st, cd;
      st, cd, placed := SweepAround(sch, cfg, buckets[pid], pid, cache.placementOrigin, buckets[pid][selectIndex],
                                    world, reach, halted, state, blockInCD);
      state, blockInCD := st, cd;
    }

    /**
     * Find-next: the least position at or above the lower bound whose state is
     * 0 and which is not cooling down; none left moves to the next palette.
     */
    method FindNext()
      requires Valid() && havePalette
      modifies this
      ensures Valid()
      ensures state == old(state) && blockInCD == old(blockInCD)
      ensures buckets == old(buckets) && counts == old(counts) && order == old(order) && haveLayer == old(haveLayer)
      ensures lowerBound >= old(lowerBound)
      ensures (exists k | old(lowerBound) <= k < |state| :: state[k] == 0 && k !in blockInCD) ==>
        && havePalette && cache == old(cache)
        && selectIndex == lowerBound && state[selectIndex] == 0 && selectIndex !in blockInCD
        && forall k | old(lowerBound) <= k < selectIndex :: !(state[k] == 0 && k !in blockInCD)
      ensures (forall k | old(lowerBound) <= k < |state| :: !(state[k] == 0 && k !in blockInCD)) ==>
        && !havePalette && selectIndex == -1 && lowerBound == old(lowerBound)
        && cache == old(cache).(currentPalette := old(cache.currentPalette) + 1)
    {
      selectIndex := -1;
      var i := lowerBound;
      while i < |state|
        invariant old(lowerBound) == lowerBound <= i <= |state| && selectIndex == -1
        invariant forall k | lowerBound <= k < i :: !(state[k] == 0 && k !in blockInCD)
      {
        if state[i] == 0 && IndexOf(blockInCD, i) == -1 {
          selectIndex := i;
          lowerBound := i;
          return;
        }
        i := i + 1;
      }
      cache := cache.(currentPalette := cache.currentPalette + 1);
      havePalette := false;
    }

    /** A cooldown timer firing: the oldest queued position leaves the queue. */
    method ExpireCooldown()
      requires Valid()
      modifies this
      ensures Valid()
      ensures blockInCD == if old(blockInCD) == [] then [] else old(blockInCD)[1..]
      ensures state == old(state) && cache == old(cache) && buckets == old(buckets) && counts == old(counts)
      ensures order == old(order) && selectIndex == old(selectIndex) && lowerBound == old(lowerBound)
      ensures haveLayer == old(haveLayer) && havePalette == old(havePalette)
    {
      if blockInCD != [] {
        blockInCD := blockInCD[1..];
      }
    }

    /**
     * One pass of the main `while` loop: the loop test, stop, pause, loading a
     * layer, leaving an exhausted layer, entering a palette, the sweep and
     * find-next.
     */
    method Iterate(stop: bool, pause: bool, world: map<Vec3, string>, reach: Vec3 -> bool, halted: (int, int) -> bool)
      returns (status: Status, placed: seq<nat>)
      requires Valid()
      modifies this
      ensures Valid()
      ensures status == Finished <==> old(cache.currentLayer) >= old(cache.totalLayer)
      ensures status == Stopped <==> old(cache.currentLayer) < old(cache.totalLayer) && stop
      ensures status == Paused <==> old(cache.currentLayer) < old(cache.totalLayer) && !stop && pause
      ensures status != Running ==>
        && placed == [] && cache == old(cache) && state == old(state) && blockInCD == old(blockInCD)
        && selectIndex == old(selectIndex) && lowerBound == old(lowerBound) && order == old(order)
        && haveLayer == old(haveLayer) && havePalette == old(havePalette)
      ensures cache.currentLayer >= old(cache.currentLayer)
      ensures cache.currentLayer == old(cache.currentLayer) ==> cache.currentPalette >= old(cache.currentPalette)
      ensures cache.placedBlock == old(cache.placedBlock) && cache.totalLayer == old(cache.totalLayer)
    {
      placed := [];
      if cache.currentLayer >= cache.totalLayer {
        return Finished, [];
      }
      if stop {
        return Stopped, [];
      }
      if pause {
        return Paused, [];
      }
      if !haveLayer {
        LoadLayer();
        if !haveLayer {
          return Running, [];
        }
      }
      if cache.currentPalette >= |order| {
        cache := cache.(currentPalette := 0, currentLayer := cache.currentLayer + 1);
        haveLayer := false;
        return Running, [];
      }
      if !havePalette {
        StartPalette();
      }
      placed := Sweep(world, reach, halted);
      FindNext();
      status := Running;
    }
  }

  // ---------------------------------------------------------------------------
  // Final verification pass

  /**
   * The strip bounds at the start of the verification pass, as written: they
   * read `workRegion` unconditionally, so a configuration without one throws
   * even with a single worker. With a region, the bounds are defined when
   * `worker_count` is positive (they are consulted only above one worker).
   */
  function VerificationBoundsAsWritten(cfg: BuildConfig): Result<Option<(int, int)>, string> {
    match cfg.workRegion
    case None => Failure("TypeError: cannot read workRegion.maxZ")
    case Some(r) =>
      if cfg.workerCount > 0 then
        Success(Some((StripMin(r, cfg.workerCount, cfg.workerId), StripMax(r, cfg.workerCount, cfg.workerId))))
      else Success(None)
  }

  /** The bounds computed only where the strip test uses them, as the placement loop does. */
  function VerificationBounds(cfg: BuildConfig): (r: Result<Option<(int, int)>, string>)
    ensures r.Failure? <==> !WorkerConfigOk(cfg)
    ensures cfg.workerCount > 1 && r.Success? ==>
      r.value == Some((StripMin(cfg.workRegion.value, cfg.workerCount, cfg.workerId),
                       StripMax(cfg.workRegion.value, cfg.workerCount, cfg.workerId)))
  {
    if cfg.workerCount > 1 then
      match cfg.workRegion
      case None => Failure("TypeError: cannot read workRegion.maxZ")
      case Some(r) => Success(Some((StripMin(r, cfg.workerCount, cfg.workerId), StripMax(r, cfg.workerCount, cfg.workerId))))
    else Success(None)
  }

  /**
   * A single worker with no work region passes every earlier use of the region
   * (the placement loop filters by region only when one is set), yet the
   * verification pass throws as written; the guarded bounds do not.
   */
  lemma VerificationBoundsFinding()
    ensures var cfg := BuildConfig(SchematicConfig("house.nbt", 0, 64, 0), None, 1, 0);
      && WorkerConfigOk(cfg)
      && VerificationBoundsAsWritten(cfg).Failure?
      && VerificationBounds(cfg).Success?
  {
  }

  /** Wherever the code as written does not throw, the guarded bounds agree with it on every strip test. */
  lemma VerificationBoundsAgree(cfg: BuildConfig)
    requires VerificationBoundsAsWritten(cfg).Success?
    ensures VerificationBounds(cfg).Success?
    ensures cfg.workerCount > 1 ==> VerificationBounds(cfg) == VerificationBoundsAsWritten(cfg)
  {
  }

  /** A worker block whose world block is unloaded or fails `checkBlock`. */
  predicate MissingBlock(sch: Schematic, cfg: BuildConfig, world: map<Vec3, string>, origin: Vec3, i: nat) {
    WorkerBlock(sch, cfg, i) && !Matches(sch, world, origin, sch.palette[sch.pids[i]].name, i)
  }

  /**
   * `missingIndices`: the ascending list of non-air voxels inside the region
   * and this worker's strip whose world block is null or does not match.
   */
  method CollectMissing(sch: Schematic, cfg: BuildConfig, world: map<Vec3, string>, origin: Vec3)
    returns (missing: seq<nat>)
    requires sch.Valid() && WorkerConfigOk(cfg)
    ensures missing == Indices(0, sch.Volume(), (i: nat) => MissingBlock(sch, cfg, world, origin, i))
    ensures forall i: nat :: i in missing <==>
      && i < sch.Volume() && sch.pids[i] != 0
      && InRegion(sch.At(i), cfg.workRegion) && InOwnStrip(cfg, sch.At(i))
      && BasePrinter.CheckBlock(BasePrinter.BlockAt(world, origin.Plus(sch.At(i))), sch.palette[sch.pids[i]].name) != 1
  {
    var bounds := VerificationBounds(cfg);
    missing := [];
    var i := 0;
    while i < sch.Volume()
      invariant 0 <= i <= sch.Volume()
      invariant missing == Indices(0, i, (j: nat) => MissingBlock(sch, cfg, world, origin, j))
    {
      IndicesStep(0, i + 1, (j: nat) => MissingBlock(sch, cfg, world, origin, j));
      var pId := sch.Pid(i);
      var rel := sch.At(i);
      // 1. the region test, 2. the strip test
      var inRegion := true;
      if cfg.workRegion.Some? {
        var r := cfg.workRegion.value;
        inRegion := !(rel.x < r.minX || rel.x > r.maxX || rel.z < r.minZ || rel.z > r.maxZ);
      }
      var inStrip := true;
      if cfg.workerCount > 1 {
        var (myMinZ, myMaxZ) := bounds.value.value;
        inStrip := !(rel.z < myMinZ || rel.z > myMaxZ);
      }
      if pId != 0 && inRegion && inStrip {
        var block := BasePrinter.BlockAt(world, origin.Plus(rel));
        if block.None? || BasePrinter.CheckBlock(block, sch.palette[pId].name) != 1 {
          assert MissingBlock(sch, cfg, world, origin, i);
          missing := missing + [i];
        } else {
          assert !MissingBlock(sch, cfg, world, origin, i);
        }
      } else {
        assert !MissingBlock(sch, cfg, world, origin, i);
      }
      i := i + 1;
    }
    MissingListSpec(sch, cfg, world, origin, missing);
  }

  /** The list of missing voxels holds exactly those that fail the final check. */
  lemma MissingListSpec(sch: Schematic, cfg: BuildConfig, world: map<Vec3, string>, origin: Vec3, missing: seq<nat>)
    requires sch.Valid() && WorkerConfigOk(cfg)
    requires missing == Indices(0, sch.Volume(), (i: nat) => MissingBlock(sch, cfg, world, origin, i))
    ensures forall i: nat :: i in missing <==>
      && i < sch.Volume() && sch.pids[i] != 0
      && InRegion(sch.At(i), cfg.workRegion) && InOwnStrip(cfg, sch.At(i))
      && BasePrinter.CheckBlock(BasePrinter.BlockAt(world, origin.Plus(sch.At(i))), sch.palette[sch.pids[i]].name) != 1
  {
    var keep := (j: nat) => MissingBlock(sch, cfg, world, origin, j);
    IndicesSpec(0, sch.Volume(), keep);
    forall i: nat
      ensures i in missing <==>
        && i < sch.Volume() && sch.pids[i] != 0
        && InRegion(sch.At(i), cfg.workRegion) && InOwnStrip(cfg, sch.At(i))
        && BasePrinter.CheckBlock(BasePrinter.BlockAt(world, origin.Plus(sch.At(i))), sch.palette[sch.pids[i]].name) != 1
    {
      assert i in missing <==> i < sch.Volume() && keep(i);
    }
  }

  /** `missingIndices.sort((a, b) => pid(a) - pid(b))` on an ascending list: by id, then index. */
  predicate PidBefore(sch: Schematic, a: nat, b: nat) {
    if a < |sch.pids| && b < |sch.pids| then
      sch.pids[a] < sch.pids[b] || (sch.pids[a] == sch.pids[b] && a < b)
    else a < b
  }

  function PidLt(sch: Schematic): (nat, nat) -> bool {
    (a: nat, b: nat) => PidBefore(sch, a, b)
  }

  lemma PidLtStrictTotal(sch: Schematic, xs: set<nat>)
    requires forall x | x in xs :: x < |sch.pids|
    ensures StrictTotalOn(PidLt(sch), xs)
  {
  }

  /**
   * The repair order is a permutation of the missing list, grouped by palette
   * id in ascending id order, each group in ascending index order.
   */
  lemma RepairOrderSpec(sch: Schematic, missing: seq<nat>)
    requires Increasing(missing) && forall x | x in missing :: x < |sch.pids|
    ensures multiset(Sort<nat>(missing, PidLt(sch))) == multiset(missing)
    ensures forall k | 0 <= k < |Sort<nat>(missing, PidLt(sch))| ::
      Sort<nat>(missing, PidLt(sch))[k] in missing
    ensures forall i, j | 0 <= i < j < |Sort<nat>(missing, PidLt(sch))| ::
      var a, b := Sort<nat>(missing, PidLt(sch))[i], Sort<nat>(missing, PidLt(sch))[j];
      a < |sch.pids| && b < |sch.pids| && (sch.pids[a] < sch.pids[b] || (sch.pids[a] == sch.pids[b] && a < b))
  {
    PidLtStrictTotal(sch, set y | y in missing);
    var sorted := Sort<nat>(missing, PidLt(sch));
    SortCorrect(missing, PidLt(sch));
    SameMembers(sorted, missing);
    forall i, j | 0 <= i < j < |sorted|
      ensures sorted[i] < |sch.pids| && sorted[j] < |sch.pids|
      ensures sch.pids[sorted[i]] < sch.pids[sorted[j]] || (sch.pids[sorted[i]] == sch.pids[sorted[j]] && sorted[i] < sorted[j])
    {
      assert sorted[i] in missing && sorted[j] in missing;
      assert PidLt(sch)(sorted[i], sorted[j]);
    }
  }

  /** One repair attempt: the voxel, where it is placed, its block, and whether a restock came first. */
  datatype Attempt = Attempt(index: nat, pos: Vec3, block: string, restocked: bool)

  function AttemptAt(sch: Schematic, origin: Vec3, i: nat, restocked: bool): Attempt
    requires sch.Valid() && i < sch.Volume()
  {
    Attempt(i, origin.Plus(sch.At(i)), sch.palette[sch.pids[i]].name, restocked)
  }

  /**
   * The repair loop: one placement attempt per missing voxel in order, until a
   * stop is seen before attempt `stopAt`. `stocked(k)` says whether, at attempt
   * k, the block is held or found in the inventory; otherwise a restock of 64
   * is requested first.
   */
  method Repair(sch: Schematic, sorted: seq<nat>, origin: Vec3, stopAt: nat, stocked: nat -> bool)
    returns (attempts: seq<Attempt>)
    requires sch.Valid() && forall k | 0 <= k < |sorted| :: sorted[k] < sch.Volume()
    ensures |attempts| == if stopAt < |sorted| then stopAt else |sorted|
    ensures forall k | 0 <= k < |attempts| :: attempts[k] == AttemptAt(sch, origin, sorted[k], !stocked(k))
  {
    attempts := [];
    var k := 0;
    while k < |sorted|
      invariant 0 <= k <= |sorted| && k <= stopAt
      invariant |attempts| == k
      invariant forall j | 0 <= j < k :: attempts[j] == AttemptAt(sch, origin, sorted[j], !stocked(j))
    {
      if k >= stopAt {
        break;
      }
      var bIdx := sorted[k];
      var rel := sch.At(bIdx);
      var absPos := origin.Plus(rel);
      var palette := sch.palette[sch.Pid(bIdx)];
      attempts := attempts + [Attempt(bIdx, absPos, palette.name, !stocked(k))];
      k := k + 1;
    }
  }
}
