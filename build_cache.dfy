/**
 * The per-bot build cache (`build_cache.json`) that records a printer's
 * progress, and the configuration hash that decides whether it is kept.
 *
 * The configuration hash is a SHA-256 digest of the JSON text of the hashed
 * part of the configuration. The model takes the digest to be collision-free
 * and stores the hashed value itself, so two hashes are equal exactly when
 * the hashed values are. The printers hash different shapes (the building
 * printer hashes `{schematic, workRegion}`, the mapart printer `schematic`
 * alone), so their hashes never coincide; the initial `""` is no digest.
 */
module BuildCache {
  import opened Wrappers
  import opened Schematic

  /** `workRegion`: an inclusive x/z rectangle in schematic-relative coordinates. */
  datatype WorkRegion = WorkRegion(minX: int, minZ: int, maxX: int, maxZ: int)

  datatype CacheHash =
    | Unset
    | BuildingHash(schematic: SchematicConfig, region: Option<WorkRegion>)
    | MapartHash(mapSchematic: SchematicConfig)

  datatype DebugCounters = DebugCounters(
    disconnectCount: nat,
    findNextTotalCounter: int,
    restockCount: nat,
    restockTakeTime: int,
    placeCount: nat,
    temp: int)

  const ZeroDebug := DebugCounters(0, 0, 0, 0, 0, 0)

  /**
   * The cache record. Fields a printer never set read as 0 here; only `hash`
   * is present in a fresh cache.
   */
  datatype Cache = Cache(
    hash: CacheHash,
    placedBlock: nat,
    totalBlocks: nat,
    regionTotalBlocks: nat,
    totalLayer: nat,
    currentLayer: nat,
    currentPalette: nat,
    startTime: int,
    endTime: int,
    useTime: int,
    origin: Vec3,
    destination: Vec3,
    placementOrigin: Vec3,
    placementDestination: Vec3,
    debug: DebugCounters)

  /** `{ hash: "" }`, the cache a bot's state starts with. */
  const InitialCache := Cache(Unset, 0, 0, 0, 0, 0, 0, 0, 0, 0,
    Vec3(0, 0, 0), Vec3(0, 0, 0), Vec3(0, 0, 0), Vec3(0, 0, 0), ZeroDebug)

  /** `placementPoint_x/y/z` as a vector. */
  function PlacementPoint(sc: SchematicConfig): Vec3 {
    Vec3(sc.placementX, sc.placementY, sc.placementZ)
  }

  /** The far corner of the schematic: size minus (1, 1, 1). */
  function FarCorner(sch: Schematic): Vec3 {
    Vec3(0, 0, 0).Plus(Vec3(sch.sx, sch.sy, sch.sz)).Offset(-1, -1, -1)
  }
}
