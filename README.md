# mapart-bot in Dafny

A model of the core of mapart-bot, a Minecraft bot (built on mineflayer) that
builds structures and map art from `.nbt` schematics. The bot walks to nearby
unplaced blocks with a short-range A* search. It builds layer by layer and
material by material, optionally splitting the work region's Z span into
strips among several workers. It restocks materials from shulker-box stations,
keeps a resumable progress cache, and ends with a verification and repair pass.
Around that engine sit:

- the printer manager and the litematic printer;
- the `mapart` chat commands (`build`, `set`, `open`, `name`, `copy`, `wrap`, `debug`);
- the bot instance, with its whitelist, whisper parsing and command routing;
- the console and configuration handling of the main program;
- the resource-pack handler;
- the worklist that the release script uses to decide which mineflayer protocol versions to keep.

Each source file of the core becomes one module:

| module | file | models |
|---|---|---|
| `Schematic` | schematic.dfy | the schematic record: volume, palette, index/position bijection |
| `BasePrinter` | base_printer.dfy | `lib/printers/BasePrinter.js`: box test, block equivalence classes, placement orientation |
| `BuildCache` | build_cache.dfy | the persisted progress cache shared by both printers |
| `BuildingPrinter` | building_printer.dfy | `lib/printers/BuildingPrinter.js`: worker strips, palette order, the layer/palette scheduler (a class), verification and repair |
| `MapartPrinter` | mapart_printer.dfy | `lib/printers/MapartPrinter.js`: material counts, palette order, restock planning, nearest-candidate scan, the build state (a class) |
| `Pathfinder` | pathfinder.dfy | `lib/pathfinder.js`: the binary min-heap (a class; its JavaScript array becomes a `seq` field), A* with a step budget, path reconstruction |
| `Station` | station.dfy | `lib/station.js`: restocking from and putting back into configured boxes, the overflow box |
| `ContainerOperation` | container_operation.dfy | `lib/containerOperation.js`: the count arithmetic of withdraw and deposit |
| `Inventory` | inventory.dfy | the slot and item records the container code reads |
| `EntityIndexer` | entity_indexer.dfy | `lib/entityIndexer.js`: the cell-keyed item-frame index (a class) |
| `LitematicPrinter` | litematic_printer.dfy | `lib/litematicPrinter.js`: the per-bot printer state and the pause, resume and stop controls |
| `PrinterManager` | printer_manager.dfy | `lib/printers/PrinterManager.js`: the printer registry and selection by type |
| `CommandManager` | command_manager.dfy | `src/commands/CommandManager.js`: command registry and dispatch (a class) |
| `BotInstance` | bot_instance.dfy | `src/BotInstance.js`: whitelist cleanup, whisper parsing, message routing |
| `Main` | main.dfy | `src/main.js`: configuration lookup and merge, the map of running instances, console focus and commands |
| `Json` | json.dfy | the JSON values configuration files hold |
| `BuildCommand` | build_command.dfy | `src/commands/mapart/build.js`: file names `name_X_Y.ext`, auto-next, build timing |
| `SetCommand` | set_command.dfy | `src/commands/mapart/set.js` |
| `WallLayout` | wall_layout.dfy | the map-wall geometry shared by `name`, `copy` and `open` |
| `OpenCommand` | open_command.dfy | `src/commands/mapart/open.js` |
| `NameCommand` | name_command.dfy | `src/commands/mapart/name.js` |
| `CopyCommand` | copy_command.dfy | `src/commands/mapart/copy.js` |
| `WrapCommand` | wrap_command.dfy | `src/commands/mapart/wrap.js` |
| `DebugCommand` | debug_command.dfy | `src/commands/mapart/debug.js` |
| `ResourcePack` | resource_pack_handler.dfy | `src/utils/ResourcePackHandler.js` (a class) |
| `VersionPruner` | version_pruner.dfy | `scripts/build.js`: the protocol-version dependency worklist |
| `Wrappers`, `Arith`, `Seqs`, `Text`, `Sorting` | wrappers.dfy, arith.dfy, seqs.dfy, text.dfy, sorting.dfy | Option/Result, integer division facts, sequence searches and counts, JavaScript string helpers (`trim`, `parseInt`, `split`), insertion sort |

Code that mutates objects is modelled as classes with `modifies` clauses:

- the scheduler states of both printers;
- the A* heap;
- the entity indexer;
- the command manager;
- the printer registry;
- the per-bot printer state;
- the main program's instance map;
- the resource-pack handler.

Loops become methods with invariants, proved against specification functions.
The mineflayer world is a parameter of these methods: a block map, an entity
list, or oracle functions for container opening and movement.

## Model

| member | source | states |
|---|---|---|
| BasePrinter.PosInBoxSpec | lib/printers/BasePrinter.js:13-19 | a position is in the box exactly when each coordinate lies between the two corners' values; the corners' order does not matter and both corners are inside |
| BasePrinter.ClassesDisjoint | lib/printers/BasePrinter.js:5-10 | no block name is listed in two equivalence classes |
| BasePrinter.FirstClassFrom | lib/printers/BasePrinter.js:26-32 | the class search stops at the first class listing the target name, and finds none exactly when no class lists it |
| BasePrinter.CheckBlock | lib/printers/BasePrinter.js:21-36 | an unloaded block gives 0; otherwise 1 exactly when the names are equal or both are listed in one class |
| BasePrinter.UnlistedMatchesOnlyItself | lib/printers/BasePrinter.js:33 | a target listed in no class matches only a block with its own name |
| BasePrinter.EquivalentIsEquivalence | lib/printers/BasePrinter.js:5-10 | the match relation is reflexive, symmetric and transitive (also lines 21-36) |
| BasePrinter.Includes | lib/printers/BasePrinter.js:55 | the substring test holds exactly when the substring occurs at some index (also line 59) |
| BasePrinter.PlacementOrientation | lib/printers/BasePrinter.js:38-64 | without properties the orientation is (0, 0, 0); `facing` up or down fixes direction and pitch; otherwise pitch is 0 and `axis` beats a bottom `half`/`type`; the fixtures' yaw table beats the anvil rotation, which beats the plain facing yaw |
| BuildingPrinter.StripOwner | lib/printers/BuildingPrinter.js:71-74 | every z of the region has an owner id in `[0, worker_count)` whose strip contains it |
| BuildingPrinter.StripsDisjoint | lib/printers/BuildingPrinter.js:71-74 | two different workers' strips never share a z (also lines 154-157) |
| BuildingPrinter.StripsWithinRegion | lib/printers/BuildingPrinter.js:71-74 | no strip reaches outside `[minZ, maxZ]` |
| BuildingPrinter.StripsPartition | lib/printers/BuildingPrinter.js:71-74 | a z lies in `[minZ, maxZ]` exactly when some worker of `[0, worker_count)` owns it, and that owner is unique (also lines 154-157, 245-248) |
| BuildingPrinter.HighStripEmpty | lib/printers/BuildingPrinter.js:73-74 | a worker whose strip would start past `maxZ` gets an empty strip |
| BuildingPrinter.RegionBlocks | lib/printers/BuildingPrinter.js:49-65 | `IgnoreAirArray` is exactly the ascending list of non-air voxels inside the work region, and `totalRegionBlocks` is its length |
| BuildingPrinter.CountWorkerBlocks | lib/printers/BuildingPrinter.js:69-79 | the count over `IgnoreAirArray` equals the number of region blocks inside this worker's strip |
| BuildingPrinter.HashIgnoresWorkers | lib/printers/BuildingPrinter.js:28-31 | the cache hash depends on the schematic and the work region and on nothing else, so worker changes keep it |
| BuildingPrinter.PrepareCache | lib/printers/BuildingPrinter.js:67-103 | a matching hash keeps the cache; a mismatch resets progress and counts, sets the box to run from the zero vector to the far corner `(sx-1, sy-1, sz-1)`, the placement box from the configured point to that point plus the far corner, and the layer count to the height; a mismatch with several workers and no region fails |
| BuildingPrinter.WorkerChangeKeepsProgress | lib/printers/BuildingPrinter.js:28-31 | a cache that matches keeps matching when only the worker assignment changes (also line 67) |
| BuildingPrinter.PaletteCompareByKey | lib/printers/BuildingPrinter.js:185-193 | the comparator orders by the key (wall face, has Properties, name): negative exactly when the key is smaller, zero exactly when it is equal |
| BuildingPrinter.PaletteBeforeTransitive | lib/printers/BuildingPrinter.js:185-193 | the comparator, with ties broken by palette index, is transitive |
| BuildingPrinter.PaletteBeforeConnected | lib/printers/BuildingPrinter.js:185-193 | any two different palette indices are ordered one way or the other |
| BuildingPrinter.PaletteLtStrictTotal | lib/printers/BuildingPrinter.js:185-193 | the tie-broken comparator is a strict total order |
| BuildingPrinter.PaletteBeforeIrreflexive | lib/printers/BuildingPrinter.js:185-193 | no palette comes before itself |
| BuildingPrinter.UsedPalettesSpec | lib/printers/BuildingPrinter.js:176-183 | the palettes pushed are exactly those with a nonzero count, each once |
| BuildingPrinter.PaletteOrderSpec | lib/printers/BuildingPrinter.js:176-194 | the layer's palette order lists each palette with a nonzero count exactly once, sorted by the comparator with ties kept in palette order |
| BuildingPrinter.BucketSpec | lib/printers/BuildingPrinter.js:148-174 | a layer's bucket for palette `p` holds exactly the voxels of that layer with id `p` that pass the strip and region filters, in ascending order |
| BuildingPrinter.FillBuckets | lib/printers/BuildingPrinter.js:138-174 | the layer scan fills each palette's bucket with `Bucket` and its count with the bucket's length |
| BuildingPrinter.UsedList | lib/printers/BuildingPrinter.js:177-183 | the loop over the counts yields the used palettes in ascending order |
| BuildingPrinter.VisitCell | lib/printers/BuildingPrinter.js:253-277 | visiting candidate `d`: if it is not cooling down and the world already holds its block, its state becomes 1 and nothing else changes; if it is not cooling down, does not match, is still 0 and its block is loaded, it is queued for cooldown and placement; in every other case nothing changes. Afterwards `d` is swept: a match not cooling down at the start is 1, and `d` is 1, cooling down, or unloaded; `SweepEffect` is kept |
| BuildingPrinter.SweepCell | lib/printers/BuildingPrinter.js:233-253 | the cell `(dx, dz)` visits exactly the candidate `SweepTarget` names (inside the box, within reach, of the current palette id, in the worker's strip, and in the bucket), which is then swept; no other state changes, only that candidate's state can rise to 1, and at most that candidate is placed; `SweepEffect` is kept |
| BuildingPrinter.SweepStep | lib/printers/BuildingPrinter.js:229-253 | one cell's visit extends the swept part of the window by that cell and keeps every change inside the cells reached so far |
| BuildingPrinter.RowEnd | lib/printers/BuildingPrinter.js:229-281 | when a row ends, normally or at a pause or stop, every cell of the row that was reached has been swept, so the sweep moves on to the next row |
| BuildingPrinter.SweepAround | lib/printers/BuildingPrinter.js:229-281 | the 9x9 sweep around the selected block swept every cell it reached before a pause or stop (row by row, each row up to its first halt), and every state change and placement lies in such a cell; `SweepEffect` is kept |
| BuildingPrinter.SweepOutcome | lib/printers/BuildingPrinter.js:253-277 | after the sweep, for a reached candidate not cooling down at the start: if the world holds its block it is 1; if it was 0, it is 1 exactly when the world holds its block; if it was 0, does not match and its block is loaded, it was placed |
| BuildingPrinter.Scheduler.constructor | lib/printers/BuildingPrinter.js:113-124 | the placement loop starts with nothing loaded, both cursors at 0 and an empty cooldown queue |
| BuildingPrinter.Scheduler.LoadLayer | lib/printers/BuildingPrinter.js:137-202 | loading a layer sets every bucket, count and the palette order; an empty layer advances `currentLayer` and leaves the rest unchanged |
| BuildingPrinter.Scheduler.StartPalette | lib/printers/BuildingPrinter.js:211-218 | entering a palette gives an all-zero state array of the bucket's length and both cursors at 0, nothing else changed |
| BuildingPrinter.Scheduler.Sweep | lib/printers/BuildingPrinter.js:220-281 | the sweep around the current candidate changes only the state array and the cooldown queue, as `SweepEffect` describes; every cell reached before a pause or stop is swept, and every change lies in a reached cell |
| BuildingPrinter.Scheduler.FindNext | lib/printers/BuildingPrinter.js:283-296 | find-next selects the least index at or after the lower bound with state 0 that is not cooling down; when none exists it moves to the next palette |
| BuildingPrinter.Scheduler.ExpireCooldown | lib/printers/BuildingPrinter.js:272-275 | a cooldown timer removes the oldest queued position and changes nothing else |
| BuildingPrinter.Scheduler.Iterate | lib/printers/BuildingPrinter.js:133-297 | one loop pass finishes exactly when all layers are done, stops on `stop`, pauses on `pause` without changing anything, and otherwise never moves the layer or (in the same layer) the palette cursor backwards. A stop only ends this loop: the source then still runs the verification pass (`BuildingPrinter.CollectMissing`, `BuildingPrinter.Repair`, which checks `stop` again only per repair) and returns `finish` (lines 298-370), so a stopped build is reported as finished |
| BuildingPrinter.VerificationBounds | lib/printers/BuildingPrinter.js:304-308 | corrected bounds: they fail exactly when several workers have no region, and with several workers they are the worker's strip (also line 321) |
| BuildingPrinter.VerificationBoundsFinding | lib/printers/BuildingPrinter.js:305-308 | a single worker without a region passes the placement loop, but the verification pass as written throws while the corrected bounds do not |
| BuildingPrinter.VerificationBoundsAgree | lib/printers/BuildingPrinter.js:305-308 | wherever the code as written does not throw, the corrected bounds agree with it (also line 321) |
| BuildingPrinter.CollectMissing | lib/printers/BuildingPrinter.js:301-330 | `missingIndices` is exactly the ascending list of non-air voxels in the region and the worker's strip whose world block is unloaded or does not match |
| BuildingPrinter.MissingListSpec | lib/printers/BuildingPrinter.js:301-330 | a voxel is listed as missing exactly when it is non-air, in the region and the worker's strip, and its world block is unloaded or does not match |
| BuildingPrinter.PidLtStrictTotal | lib/printers/BuildingPrinter.js:335 | the order "by palette id, then by index" is a strict total order |
| BuildingPrinter.RepairOrderSpec | lib/printers/BuildingPrinter.js:335 | the stable sort of the missing list by palette id is a permutation of it, grouped by ascending id, each group in ascending index order |
| BuildingPrinter.Repair | lib/printers/BuildingPrinter.js:337-361 | the repair loop makes one attempt per missing voxel in sorted order, restocking first when the block is neither held nor in the inventory, until a stop is seen |
| MapartPrinter.PrepareCache | lib/printers/MapartPrinter.js:49-69 | a cache for another configuration is reset (progress zeroed, start time now, end time -1, box from the schematic size, placement box from the configured point) and keeps the layer fields; a cache for this configuration only counts one more reconnection; the build finishes at once exactly when the end time is set |
| MapartPrinter.RestartResumes | lib/printers/MapartPrinter.js:49-67 | a second start with the same configuration keeps every progress field of the first and only adds a reconnection |
| MapartPrinter.FinishedStaysFinished | lib/printers/MapartPrinter.js:64-69 | a finished build of the same configuration returns `finish` again with its placed count unchanged |
| MapartPrinter.CountMaterials | lib/printers/MapartPrinter.js:79-87 | each non-air palette id is counted exactly as often as it occurs in the voxels, air is counted 0 times, the non-air list holds exactly the non-air voxel indices in ascending order, and the counts add up to the list's length |
| MapartPrinter.ScaffoldFirstSpec | lib/printers/MapartPrinter.js:89-104 | the intended palette order is a permutation of the palette indices in which air, cobblestone and glass entries come first and each group keeps palette order |
| MapartPrinter.SpliceStep | lib/printers/MapartPrinter.js:98-100 | while splicing from the highest scaffold index down, the index being removed still sits at its own position, and removing it leaves exactly the non-removed indices in order |
| MapartPrinter.SplicedAll | lib/printers/MapartPrinter.js:98-101 | once all scaffold indices are spliced out, the list is the other indices in palette order |
| MapartPrinter.ListPalette | lib/printers/MapartPrinter.js:89-96 | the first loop lists every palette index in order and collects exactly the scaffold indices, ascending |
| MapartPrinter.SpliceScaffold | lib/printers/MapartPrinter.js:97-101 | the splice loop leaves the non-scaffold indices in palette order and collects the scaffold indices highest first |
| MapartPrinter.PaletteOrder | lib/printers/MapartPrinter.js:89-104 | splicing and then `unshift`-ing the scaffold indices yields exactly the scaffold-first order of `ScaffoldFirstSpec` |
| MapartPrinter.ExtraRestockSpec | lib/printers/MapartPrinter.js:277-288 | every later restock entry asks for a positive quantity that fits the free slots, entries follow the palette order strictly, and together they occupy no more stacks than were free |
| MapartPrinter.ExtraRestockStacks | lib/printers/MapartPrinter.js:277-288 | the later entries occupy at most `max(0, esc)` stacks of 64 |
| MapartPrinter.ExtraRestockEntries | lib/printers/MapartPrinter.js:278-287 | each later entry asks for between 1 and `esc * 64` items at an order position after the current one, in strictly increasing order |
| MapartPrinter.CountUnplaced | lib/printers/MapartPrinter.js:269-273 | the quantity is the number of unplaced candidates, capped at 2304 |
| MapartPrinter.PlanLater | lib/printers/MapartPrinter.js:277-288 | the loop over the later palettes produces exactly the entries `ExtraRestock` describes: shortfall less inventory, capped by the free slots, stopping when no slot is free |
| MapartPrinter.PlanRestock | lib/printers/MapartPrinter.js:267-288 | the plan starts with the current block at its unplaced count capped at 2304, followed by the later palettes' entries with the current block's stacks reserved |
| MapartPrinter.PlanRestockBound | lib/printers/MapartPrinter.js:277-288 | the later entries of a plan fit the slots left after reserving the current block's stacks, each asks for a positive amount, and they follow the palette order strictly |
| MapartPrinter.SelectCandidates | lib/printers/MapartPrinter.js:157-162 | the candidates are exactly the non-air voxels carrying the palette id, ascending, each with state 0 |
| MapartPrinter.ScanNearest | lib/printers/MapartPrinter.js:169-198 | the scan returns -1 exactly when no candidate is open; otherwise the first open candidate closer than 16, or else the earliest open candidate at the least distance; every eligible candidate found built before the scan stopped is marked 1, and the flips are counted |
| MapartPrinter.FlipKeeps | lib/printers/MapartPrinter.js:233-236 | marking a built candidate done keeps the sweep's invariant with one more flip |
| MapartPrinter.PlaceKeeps | lib/printers/MapartPrinter.js:308-321 | placing at an unbuilt candidate keeps the sweep's invariant with that candidate queued for cooldown |
| MapartPrinter.RestockKeeps | lib/printers/MapartPrinter.js:265-294 | a restock plan built from the current states keeps the sweep's invariant: it starts with the current palette and asks for no more than before the sweep, capped at 2304 |
| MapartPrinter.VisitCandidate | lib/printers/MapartPrinter.js:232-321 | a candidate still 0 and not cooling down: if built, its state becomes 1 and the flip count rises by one, nothing else changing; if unbuilt and out of stock, exactly one restock plan is appended, asking for the current block in the number `Min(candidates still 0, restock limit)`; if unbuilt and the supply is not ready, nothing changes; if ready, it is queued for cooldown and placement. Afterwards it is swept and the sweep's invariant holds |
| MapartPrinter.VisitTarget | lib/printers/MapartPrinter.js:121-133 | for an update inside the placement box, `indexOf` on the update's index finds exactly the candidate standing at that position, or -1 when none does |
| MapartPrinter.VisitedIsTarget | lib/printers/MapartPrinter.js:124-126 | a candidate standing at the updated position is the one `indexOf` finds |
| MapartPrinter.TargetIsVisited | lib/printers/MapartPrinter.js:124-126 | the candidate `indexOf` finds stands at the updated position |
| MapartPrinter.SweepCell | lib/printers/MapartPrinter.js:218-237 | the cell visits exactly the candidate `SweepTarget` names (inside the schematic, within reach, with the selected palette id, in the job), which is then swept; only that candidate's state can rise to 1, at most it is placed and only when the supply was ready, and restock plans are only appended; the sweep's invariant holds afterwards |
| MapartPrinter.SweepStep | lib/printers/MapartPrinter.js:214-237 | one cell's visit extends the swept part of the window by that cell and keeps every change inside the cells reached so far |
| MapartPrinter.ColumnEnd | lib/printers/MapartPrinter.js:214-325 | when a column ends, normally or at a pause or stop, every reached cell of it has been swept, so the sweep moves on to the next column |
| MapartPrinter.SweepColumn | lib/printers/MapartPrinter.js:214-325 | one column of the window, from the top down to its first pause or stop: every reached cell of it is swept, changes stay in reached cells, each placement had a ready supply, and the sweep's invariant holds |
| MapartPrinter.SweepAround | lib/printers/MapartPrinter.js:214-325 | the 9x9x9 sweep swept every cell it reached before a pause or stop (column by column, each from the top down to its first halt); every state change and placement lies in such a cell, each placement had a ready supply, and the sweep's invariant holds |
| MapartPrinter.SweepOutcome | lib/printers/MapartPrinter.js:232-321 | after the sweep, for a reached candidate that was 0 and not cooling down at the start: it is 1 exactly when it is built; if unbuilt with a ready supply it was placed; if unbuilt and out of stock a restock was planned |
| MapartPrinter.MapartBuild.constructor | lib/printers/MapartPrinter.js:112-119 | the loop starts with no palette loaded, no candidates and an empty cooldown queue |
| MapartPrinter.MapartBuild.StartPalette | lib/printers/MapartPrinter.js:142-166 | entering a palette clears the cooldown queue; an excluded block name moves to the next palette with no candidates; any other loads exactly that palette's candidates, all at 0, with the selection reset |
| MapartPrinter.MapartBuild.FindNearest | lib/printers/MapartPrinter.js:168-207 | the nearest scan's result and flips as `ScanNearest` states, with `placedBlock` raised by the flips; with nothing open the palette advances and is unloaded, otherwise the nearest candidate is selected |
| MapartPrinter.MapartBuild.Sweep | lib/printers/MapartPrinter.js:208-325 | the sweep around the selected candidate leaves candidates and name unchanged, raises `placedBlock` by the flips and `placeCount` by the placements, and keeps the sweep's invariant; every cell reached before a pause or stop is swept, every change lies in a reached cell, and each placement had a ready supply |
| MapartPrinter.MapartBuild.UpdateVisited | lib/printers/MapartPrinter.js:121-133 | a block update changes at most one state, from 0 to 1, and exactly when the new block has the current name at that candidate's position inside the placement box; nothing else changes except `placedBlock` |
| MapartPrinter.MapartBuild.ExpireCooldown | lib/printers/MapartPrinter.js:317-320 | a cooldown timer drops the oldest queued candidate and nothing else |
| MapartPrinter.MapartBuild.Iterate | lib/printers/MapartPrinter.js:138-326 | one pass returns finished exactly when every palette is done, stopped when asked to stop, paused when asked to pause (changing nothing in those cases); the palette position and placed count never decrease, and the position moves by one only with no placement |
| MapartPrinter.MapartBuild.Finish | lib/printers/MapartPrinter.js:331-333 | the end of the loop records the end time and returns `finish`, changing nothing else |
| Pathfinder.RootIsMin | lib/pathfinder.js:14-61 | in a heap-ordered array the root's key is no larger than any slot's |
| Pathfinder.MinHeap.constructor | lib/pathfinder.js:15-18 | a new heap is empty, ordered, and keeps its comparison key |
| Pathfinder.MinHeap.Push | lib/pathfinder.js:19-22 | `push` adds exactly the one value, grows the heap by one and keeps the heap order |
| Pathfinder.MinHeap.Pop | lib/pathfinder.js:23-32 | `pop` gives `null` exactly on an empty heap; otherwise it removes and returns one occurrence of a minimum under the key and keeps the heap order |
| Pathfinder.MinHeap.Up | lib/pathfinder.js:33-43 | sifting up from the one misplaced slot restores the heap order without changing the elements |
| Pathfinder.MinHeap.Down | lib/pathfinder.js:44-59 | sifting down from the one misplaced slot restores the heap order without changing the elements |
| Pathfinder.LastToRoot | lib/pathfinder.js:25-29 | moving the last element to the root leaves the order broken only at the root and drops exactly the old root |
| Pathfinder.SwapUp | lib/pathfinder.js:35-38 | swapping a slot smaller than its parent with that parent moves the only gap in the order up to the parent |
| Pathfinder.SwapDown | lib/pathfinder.js:47-54 | swapping a slot with its smallest child, when that child is smaller, moves the only gap in the order down to that child |
| Pathfinder.Settled | lib/pathfinder.js:52-56 | when no child is smaller than the misplaced slot, the whole array is heap-ordered |
| Pathfinder.PopKeeps | lib/pathfinder.js:187-191 | popping the minimum moves its position from the open map to the closed set; the heap, open map, recorded nodes and pushed positions stay in agreement |
| Pathfinder.Relax | lib/pathfinder.js:203-231 | one neighbour is skipped when closed or not passable (it and the cell above must be air, cave air, light, water or vine) and pushed only when its position is not open yet; afterwards every passable neighbour has been pushed once |
| Pathfinder.ChainIsWalk | lib/pathfinder.js:237-242 | the parent chain of a discovered node is a flight from the start through passable cells, one unit move per step, as long as the node's step count (at most 12) and ending at the node |
| Pathfinder.Reconstruct | lib/pathfinder.js:235-242 | rebuilding by following parents and prepending each position yields exactly the parent chain |
| Pathfinder.ExhaustedIsComplete | lib/pathfinder.js:175-235 | when OPEN runs dry, no flight from the start reaches a cell whose distance to the target is below 1 |
| Pathfinder.PopNext | lib/pathfinder.js:186-194 | the popped node's position is pushed and not closed, it is closed and recorded, and the best node becomes the popped one exactly when its `h` is smaller |
| Pathfinder.ExpandNode | lib/pathfinder.js:202-231 | after the six moves, every passable neighbour of every closed position has been pushed, and the pushed list only grows |
| Pathfinder.SearchRound | lib/pathfinder.js:186-231 | a round closes the popped position; it ends the search exactly when that node's `h` is below 1 or its step reaches 12; otherwise the search state holds again |
| Pathfinder.Search | lib/pathfinder.js:150-232 | the pushed positions are distinct and passable, starting with the start; with OPEN dry the closed region holds the start, is closed under passable moves and stays at distance at least 1; at a goal the end node is reached or at step 12; at the deadline the best node's `h` is no larger than the start's or any closed position's |
| Pathfinder.AStarStep | lib/pathfinder.js:149-242 | the path found is a flight of at most 12 moves through passable cells; without a deadline it ends within distance 1 of the target or after 12 moves; at the deadline it ends at the closest position seen; with no path the reachable region lies at distance at least 1 |
| Pathfinder.AStarFly | lib/pathfinder.js:73-144 | the bot makes at most 100 searches and ends on a passable cell or where it started; it stops at the target, after 100 searches, or at the 8 s deadline (or at once when already within 0.5); the stuck counter stays at most 10 and the replacement-search radius grows from 4 to at most 8 |
| BotInstance.Id | src/BotInstance.js:14 | the id is the `id` property when truthy and the `username` otherwise; it is truthy exactly when one of the two is |
| BotInstance.FirstMatch | src/BotInstance.js:211-213 | the name pattern `\s*\(.+?\)\s*` matches at the position found |
| BotInstance.FirstMatchLeast | src/BotInstance.js:211-213 | the match found is the leftmost: the pattern matches at no earlier position |
| BotInstance.CloseFromFinds | src/BotInstance.js:211-213 | the lazy `.+?\)` stops at the first `)` when no line break comes before it |
| BotInstance.CleanPlain | src/BotInstance.js:211-213 | a name with no `(` is only trimmed |
| BotInstance.CleanTagged | src/BotInstance.js:211-213 | a name followed by a tag such as ` (VIP)` cleans to the trimmed name |
| BotInstance.RemoveTrailingGroup | src/BotInstance.js:211-213 | when the first match is followed only by whitespace, removing it keeps exactly the text before it |
| BotInstance.CleanWhitelist | src/BotInstance.js:207-209 | a falsy whitelist gives no names; an array of strings gives each entry cleaned, in order; it fails only for a truthy non-array or a non-string entry |
| BotInstance.CleanAll | src/BotInstance.js:208 | every entry cleaned in order, or a failure exactly when some entry is not a string |
| BotInstance.ParseDirect | src/BotInstance.js:174 | a match of `^\[(.+?)\s*->\s*我\]\s*(.+)$` starts with `[` and its sender group is the text right after it |
| BotInstance.DirectParts | src/BotInstance.js:174 | the sender group has no line break, and the rest of the pattern matches after it with the body as its group |
| BotInstance.SenderLeast | src/BotInstance.js:174 | the sender group is the shortest the lazy `(.+?)` allows: the rest of the pattern matches at no earlier end |
| BotInstance.TailAt | src/BotInstance.js:174 | the message group `(.+)` is a non-empty suffix of the line with no line break |
| BotInstance.SearchLeast | src/BotInstance.js:174 | the lazy group ends at the first end where the rest of the pattern matches |
| BotInstance.DirectRoundTrip | src/BotInstance.js:174 | the line `[sender -> 我] body` parses back to that sender and body (sender without `-`, line breaks or a trailing space; body non-empty without a leading space) |
| BotInstance.RouteLine | src/BotInstance.js:74-91 | a line starting with `.` is chat, sending the trimmed rest when it is not blank; a first word naming the mapart plugin (lowered) dispatches the words when the plugin is ready and is answered "not ready" otherwise; anything else is not handled |
| BotInstance.RouteMapart | src/BotInstance.js:82-88 | `mp build ...` style lines reach the plugin as their words |
| BotInstance.WebRoute | src/BotInstance.js:70-72 | blank or missing input is refused; otherwise the trimmed line is routed |
| BotInstance.WebHandled | src/BotInstance.js:72-91 | chat and a not-ready plugin answer true, refused lines false, and a dispatch the dispatcher's answer |
| BotInstance.DispatchMapart | src/BotInstance.js:145-162 | the words after the first are forwarded exactly when there are at least two and the lowered first is a registered prefix; a throw counts as handled, and a private-message sender is told `/m user &c執行錯誤: msg` |
| BotInstance.Whispered | src/BotInstance.js:174-179 | a message is accepted exactly when it matches the private-message pattern and its cleaned sender is in the cleaned whitelist; it yields that sender and the body's words |
| BotInstance.React | src/BotInstance.js:179-186 | the plugin is dispatched with the words and the sender exactly when the plugin is ready and the first word names it; the inventory is dropped exactly when the first word is `dropall` |
| BotInstance.WhisperOf | src/BotInstance.js:174-179 | `[name -> 我] body` from a whitelisted player is read as that player and the words of the body |
| BotInstance.DropAllFromWhitelisted | src/BotInstance.js:174-186 | a whitelisted player's `dropall` whisper drops the inventory and starts no mapart command |
| BotInstance.StrangerIgnored | src/BotInstance.js:178 | a sender missing from the whitelist causes no reaction at all |
| BuildCommand.MergeReplace | src/commands/mapart/build.js:24-26 | the merged replacement list is the global list followed by the bot's own, a missing list counting as empty |
| BuildCommand.IndexPairIsNoFlag | src/commands/mapart/build.js:35-46 | a value matching `^(\d+)_(\d+)$` is non-empty and does not start with `-`, so consuming it never hides a flag |
| BuildCommand.AutoValueShape | src/commands/mapart/build.js:40-47 | the remembered autonext value is empty or an index pair |
| BuildCommand.ParseFlags | src/commands/mapart/build.js:32-55 | auto-next is on exactly when `-a` or `-auto` occurs, notifications are off exactly when `-n` occurs, and the value is the index pair after the last `-a`/`-auto` that has one |
| BuildCommand.SplitNameAsWritten | src/commands/mapart/build.js:65-67 | the source's split: the base is a dot-free prefix of the name |
| BuildCommand.SplitName | src/commands/mapart/build.js:65-67 | split at the last dot: the name is the base, a dot and a dot-free extension, or has no dot at all |
| BuildCommand.SplitsAgreeOnOneDot | src/commands/mapart/build.js:65-67 | on names with at most one dot both splits agree |
| BuildCommand.SplitIndex | src/commands/mapart/build.js:64-74 | a `_X_Y` match splits the base into the stem and two non-empty digit runs |
| BuildCommand.SplitIndexComplete | src/commands/mapart/build.js:64-74 | every base ending in `_X_Y` is recognised with exactly that stem and those digits |
| BuildCommand.NextFileNameRoundTrip | src/commands/mapart/build.js:107-110 | the next tile's name `stem_X_Y.ext` parses back to the same stem, the new index and the same extension |
| BuildCommand.DottedDirectoryLosesIndex | src/commands/mapart/build.js:65-68 | a name like `./maps/a_1_2.nbt` loses its index under the source's split but keeps it under the split at the last dot |
| BuildCommand.IncrementReadsPair | src/commands/mapart/build.js:99-106 | the value `X_Y` after `-a` gives the step `(X, Y)` |
| BuildCommand.RedispatchArgs | src/commands/mapart/build.js:126 | the arguments of the re-dispatch hold no empty string |
| BuildCommand.RedispatchReparses | src/commands/mapart/build.js:126 | the re-dispatched command parses back to auto-next on, the same value and the same `-n` setting |
| BuildCommand.Notify | src/commands/mapart/build.js:76-82 | the finish notice goes out only when `-n` is absent and the trimmed webhook address is non-empty (a Discord webhook address) |
| BuildCommand.AutoNextStep | src/commands/mapart/build.js:97-133 | without `-a` nothing happens; a name with no index fails; otherwise the next name adds the step to the index, and it is queued with the re-dispatch arguments exactly when that file exists |
| BuildCommand.DurationAsPrinted | src/commands/mapart/build.js:60-61 | the parts as printed: minutes and seconds are the intended ones; the hours are too, except for a time of 1 to 3 ms either way, where `parseInt` reads the leading digit of the exponent form (also line 157) |
| BuildCommand.OneMillisecondReadsTwoHours | src/commands/mapart/build.js:61 | as written, 1, 2 and 3 ms print as 2, 5 and 8 hours, while the intended parts are all 0, so the printed parts do not add up to the whole seconds |
| BuildCommand.DurationSplits | src/commands/mapart/build.js:60-61 | for the intended parts (`BuildCommand.Duration`) of a non-negative time, the hours, minutes (below 60) and seconds (below 60) add up to the whole seconds (also line 157) |
| BuildCommand.DurationOdd | src/commands/mapart/build.js:60-61 | a negative time reads as the same parts with their signs flipped, as truncation toward zero gives |
| CommandManager.Manager.constructor | src/commands/CommandManager.js:6-9 | a new manager has no commands and no prefixes |
| CommandManager.Manager.RegisterPrefix | src/commands/CommandManager.js:15-21 | a single prefix is added lowered; the commands are untouched |
| CommandManager.Manager.RegisterPrefixes | src/commands/CommandManager.js:15-18 | an array adds every entry lowered; the commands are untouched |
| CommandManager.Manager.RegisterCommand | src/commands/CommandManager.js:30-34 | every lowered trigger word now names the command, replacing an earlier one; other words keep theirs and the prefixes are untouched |
| CommandManager.Manager.IsPrefix | src/commands/CommandManager.js:40-42 | a prefix is accepted exactly when it is present and its lowered form is registered; an absent prefix is refused |
| CommandManager.Manager.Dispatch | src/commands/CommandManager.js:50-70 | no arguments, or an unknown lowered first word, is unhandled; otherwise the command under that word runs once on the `task` object made of the context, the full arguments and the bot, and the error it throws is passed on unchanged, exactly when it throws |
| ContainerOperation.PlanWithdraw | lib/containerOperation.js:55-73 | -1 exactly when fewer than one slot is usable after the reserve, checked first; -2 exactly when the count clamped to the stock is 0; otherwise at most the stock and what the usable slots hold, the whole clamped count with the shortfall owed when it fits, and a full load with nothing owed when it does not |
| ContainerOperation.WithdrawResult | lib/containerOperation.js:64-96 | -1 and -2 pass through; a throwing transfer owes everything planned (the items taken plus the remainder already cut off); a full delivery owes only that remainder; a short delivery owes the remainder plus the items that did not arrive |
| ContainerOperation.FullBeforeEmpty | lib/containerOperation.js:62-73 | a full inventory reports -1 even when the container is empty too |
| ContainerOperation.WithdrawAccounts | lib/containerOperation.js:55-96 | when the slots are not the limit, what arrives plus what is reported owed is what was asked |
| ContainerOperation.PlanDeposit | lib/containerOperation.js:117-130 | -1 asks for all the bot holds; 0 asked returns 0; otherwise the count is clamped to what is held and to the free capacity, anything over the capacity is owed, and a non-positive result is "container full" |
| ContainerOperation.DepositResult | lib/containerOperation.js:120-138 | 0, -1, or what did not fit; a throwing transfer changes nothing |
| ContainerOperation.DepositAllFits | lib/containerOperation.js:119-138 | depositing everything into a container with room leaves nothing owed |
| ContainerOperation.DepositIntoFull | lib/containerOperation.js:122-130 | depositing into a container at capacity reports -1 whatever is asked |
| CopyCommand.ScanWall | src/commands/mapart/copy.js:45-66 | one cell per map of the `width * height` wall, cell `i` at column `i / height` and row `i % height`, in box `i / 27` and slot `i % 27`; it is marked as holding a map, with its id, exactly when its item frame holds a filled map; all amounts start at 0 |
| CopyCommand.CheckBoxes | src/commands/mapart/copy.js:69-89 | over `ceil(width * height / 27)` boxes the command stops exactly when some box does not open; otherwise each cell's amount is the count in its own box and slot when that slot's map id equals the cell's, and 0 otherwise |
| CopyCommand.SelectForCopy | src/commands/mapart/copy.js:91-98 | the maps to copy are exactly the cells, in increasing order, that hold a map and have fewer than `copy_amount` copies |
| CopyCommand.StockedMapSkipped | src/commands/mapart/copy.js:84-93 | a map with at least `copy_amount` copies in its own slot is not copied again |
| DebugCommand.TotalWithoutOccurrence | src/commands/mapart/debug.js:12-18 | a name that occurs in no slot totals 0 |
| DebugCommand.Summarize | src/commands/mapart/debug.js:11-18 | the summary over slots `inventoryStart..inventoryEnd`, both included, has an entry exactly for each name in an occupied slot, holding that name's total count |
| EntityIndexer.PosKey | lib/entityIndexer.js:23-25 | the key is the unit cell containing the position: each coordinate floored |
| EntityIndexer.KeyOfCell | lib/entityIndexer.js:23-25 | every position inside a unit cell gets that cell's key |
| EntityIndexer.SameCellSameKey | lib/entityIndexer.js:23-25 | two positions get the same key if and only if the first lies in the unit cell of the second |
| EntityIndexer.Spawned | lib/entityIndexer.js:27-32 | a spawn keeps the index well formed: every entry is an item frame or glow item frame stored under its own cell |
| EntityIndexer.Despawned | lib/entityIndexer.js:34-41 | a despawn keeps the index well formed |
| EntityIndexer.LastAt | lib/entityIndexer.js:56-61 | the last tracked frame of a list standing in a cell, absent exactly when no tracked frame of the list stands there |
| EntityIndexer.SpawnAllIsLast | lib/entityIndexer.js:56-61 | spawning a list into an empty index stores at each cell the last frame of the list standing there, and nothing else |
| EntityIndexer.SpawnThenDespawn | lib/entityIndexer.js:27-41 | a frame's spawn followed by its own despawn removes its cell from the index |
| EntityIndexer.StaleDespawnKeepsNewer | lib/entityIndexer.js:34-41 | when a second frame spawns into the same cell, the first frame's despawn leaves the second's entry in place |
| EntityIndexer.Indexer.constructor | lib/entityIndexer.js:7-17 | a new indexer is empty and listening |
| EntityIndexer.Indexer.OnEntitySpawn | lib/entityIndexer.js:27-32 | the index becomes the spawn's effect on the old index; the listeners stay as they were |
| EntityIndexer.Indexer.OnEntityDespawn | lib/entityIndexer.js:34-41 | the index becomes the despawn's effect on the old index; the listeners stay as they were |
| EntityIndexer.Indexer.GetEntityAt | lib/entityIndexer.js:48-51 | the frame stored under the position's cell, which is a frame standing in that same cell, or none |
| EntityIndexer.Indexer.Rescan | lib/entityIndexer.js:56-61 | the index is rebuilt from empty by spawning every current entity in order |
| EntityIndexer.Indexer.Destroy | lib/entityIndexer.js:63-67 | the listeners are detached and the index is empty |
| LitematicPrinter.PrinterState.constructor | lib/litematicPrinter.js:16-22 | a new state is not paused, not stopped, and holds the initial build cache with an empty hash |
| LitematicPrinter.SharedState.constructor | lib/litematicPrinter.js:48-53 | the view reads the one state it was made over |
| LitematicPrinter.SharedState.SetBuildCache | lib/litematicPrinter.js:52 | writing `build_cache` through the view changes only the underlying state's cache |
| LitematicPrinter.Bot.constructor | lib/litematicPrinter.js:14-15 | a new bot has no printer state and no published view |
| LitematicPrinter.InitBot | lib/litematicPrinter.js:14-24 | an existing state is kept as it is; a missing one is created fresh, not paused, not stopped, with the initial cache |
| LitematicPrinter.Pause | lib/litematicPrinter.js:71-74 | only `pause` changes, to the given value |
| LitematicPrinter.Resume | lib/litematicPrinter.js:76-79 | only `pause` changes, to false |
| LitematicPrinter.Stop | lib/litematicPrinter.js:81-84 | only `stop` changes, to true |
| LitematicPrinter.ProgressQuery | lib/litematicPrinter.js:66-69 | the result is the stored build cache, the initial one on a bot with no state |
| LitematicPrinter.Execute | lib/litematicPrinter.js:44-64 | the bot publishes a live view of its one state; an unknown model fails with `Unsupport printer model: <model>` and leaves the cache as it was; otherwise the printer runs from the stored cache, its own result or error is passed through, and the state holds the cache the printer wrote through the view; `pause` and `stop` are untouched |
| LitematicPrinter.BuildFile | lib/litematicPrinter.js:26-36 | a missing schematic file changes nothing and builds nothing; otherwise `stop` is reset and the build runs as in `build_project`, from the stored cache, leaving the cache the printer wrote |
| LitematicPrinter.BuildProject | lib/litematicPrinter.js:38-42 | `stop` is reset and `pause` kept; the printer runs from the stored cache (the initial one on a new bot), its outcome is the result, and the state afterwards holds the cache the printer wrote |
| PrinterManager.Manager.constructor | lib/printers/PrinterManager.js:6-8 | a new registry is empty |
| PrinterManager.Manager.RegisterPrinter | lib/printers/PrinterManager.js:14-16 | the printer is stored under its own name, replacing an earlier one |
| PrinterManager.Manager.GetPrinter | lib/printers/PrinterManager.js:22-24 | the printer registered under the name, present exactly when that name is registered |
| PrinterManager.Manager.ExecuteBuild | lib/printers/PrinterManager.js:29-35 | an unknown name fails with `Unsupport printer model: <name>`; otherwise the printer's `build` runs on the unchanged arguments and its result or error is passed through |
| Main.ConfigArg | src/main.js:28 | the first argument starting with `--config=`, none exactly when no argument starts with it |
| Main.Candidates | src/main.js:14-23 | a packaged executable looks beside itself first, otherwise the project root comes first; the current directory is always a candidate |
| Main.FirstExisting | src/main.js:24 | the first candidate that exists: every earlier one does not |
| Main.DefaultConfigPath | src/main.js:14-25 | the first existing candidate, or the first candidate when none exists |
| Main.GetConfigPath | src/main.js:27-32 | a `--config=` argument wins with its text between the first and the second `=`, then a non-empty `BOT_CONFIG_PATH`, then the default |
| Main.ConfigArgSelects | src/main.js:28-29 | `--config=p` selects `p` whatever the environment says, when `p` holds no `=` |
| Main.ConfigArgStopsAtEquals | src/main.js:29 | a second `=` cuts the path short: `--config=a=b` selects `a` |
| Main.Merge | src/main.js:61-64 | a bot's configuration has every global property, overridden by the bot's own |
| Main.BotConfigs | src/main.js:58-68 | with a `bots` array, one merged configuration per entry in order; otherwise the whole file as the only bot |
| Main.Key | src/main.js:79-80 | a configuration is filed under `id || username` exactly when that is truthy, the same id the bot instance takes |
| Main.InheritedKey | src/main.js:61-64 | a bot entry with neither `id` nor `username` of its own is filed under the file's global ones |
| Main.KeysSpec | src/main.js:111 | an id is among the keys exactly when some configuration is filed under it |
| Main.LastWith | src/main.js:78-83 | the last configuration filed under an id, present exactly when the id is a key |
| Main.KeysSnoc | src/main.js:78-83 | one more configuration adds its key, and becomes the last configuration under it |
| Main.Bots.Distinct | src/main.js:54 | no two ids share an instance |
| Main.Bots.constructor | src/main.js:54-55 | no instances, no console focus, nothing stopped |
| Main.Bots.Create | src/main.js:81-82 | the id now holds a new instance with the configuration; the focus and everything else are unchanged |
| Main.Bots.StartAll | src/main.js:70-88 | every configuration with a key gets a new instance, a later one under the same key replacing the earlier; other instances are untouched; an unset focus goes to the first key |
| Main.Bots.StartWith | src/main.js:77-87 | the start loop over a list of configurations, with the same effect as `startAllBots` on that list |
| Main.Bots.StartOne | src/main.js:79-83 | one step of the start loop keeps the started state for the longer prefix |
| Main.Bots.Reload | src/main.js:98-143 | an unreadable file changes nothing; otherwise instances whose key is gone are stopped and removed, surviving instances keep their identity and take their last configuration, new keys get new instances, and the focus is left as it was |
| Main.Bots.RemoveMissing | src/main.js:114-121 | every instance whose key is not kept is stopped and removed; the others are untouched |
| Main.Bots.RemoveOne | src/main.js:115-120 | one step of the removal loop keeps the removal invariant |
| Main.Bots.UpdateOrCreate | src/main.js:124-140 | each configuration with a key updates the instance under it or creates one; kept instances keep their identity |
| Main.Bots.UpdateOne | src/main.js:125-139 | one step of the update loop keeps the update invariant |
| Main.Bots.Reconfigure | src/main.js:128-131 | a running instance takes the new configuration and keeps its identity |
| Main.Bots.Switch | src/main.js:171-179 | the focus moves to the target exactly when an instance runs under that id; nothing else changes |
| Main.Bots.StopAll | src/main.js:90-96 | every instance is stopped and the map is emptied |
| Main.ParseConsole | src/main.js:152-189 | a blank line does nothing; `!list`, `!switch`/`!s <id>` and `!help` (first word lowered) are management commands, with the switch target the second word; any other line goes to the focused bot trimmed |
| Main.SwitchLine | src/main.js:157-172 | `!switch name` names `name` as its target |
| Main.ConsoleForward | src/main.js:191-226 | a line for a focus with no instance or no connected bot is refused; otherwise it is routed as the bot's web handler routes it, a mapart dispatch only when the plugin is ready |
| Main.ConsoleChat | src/main.js:199-208 | `.msg` for a connected focus is sent as chat, trimmed |
| NameCommand.ReadNamedAsWritten | src/commands/mapart/name.js:57 | the source's read of `display.value.Name` throws exactly when the map has no `display` compound, and otherwise says whether it holds a name |
| NameCommand.ReadNamed | src/commands/mapart/name.js:57 | a framed map is named exactly when it has a `display` compound holding a name, agreeing with the source wherever the source does not throw |
| NameCommand.FreshMapStopsScan | src/commands/mapart/name.js:53-58 | a never-renamed map makes the source's scan throw, while the corrected read treats it as not named |
| NameCommand.ScanWall | src/commands/mapart/name.js:42-60 | one cell per map of the `width * height` wall, cell `i` at column `i / height` and row `i % height` with its frame at the wall position of that cell; holding a map, its id and whether it is named come from what the frame holds |
| NameCommand.CellOfInjective | src/commands/mapart/name.js:43-44 | different scan indices give different grid cells |
| NameCommand.ScanPositionsDistinct | src/commands/mapart/name.js:42-48 | no two cells of the scan look for their frame at the same position |
| NameCommand.TrailingDigitsOf | src/commands/mapart/name.js:90 | the trailing digit run of a text ending in digits after a non-digit is exactly those digits |
| NameCommand.ParseLabelParts | src/commands/mapart/name.js:90 | a prefix not ending in a digit, digits, `-` and digits read back as the two digit runs |
| NameCommand.LabelRoundTrip | src/commands/mapart/name.js:90 | the anvil name `<name> - dx-dy` (or `dx-dy` with no name configured) gives back the grid position it was made from |
| NameCommand.LabelsDistinct | src/commands/mapart/name.js:90 | different cells get different anvil names |
| NameCommand.FindMap | src/commands/mapart/name.js:145-147 | the first inventory slot whose stack carries the map id, none exactly when no slot does |
| NameCommand.PutBackMap | src/commands/mapart/name.js:108-126 | the put-back stops at the first round whose frame shows the map id, or after 10 failed activations; rounds without a frame (a warp) do not count as failures |
| NameCommand.GivingUpNeedsTenFailures | src/commands/mapart/name.js:109-125 | giving up takes at least 10 rounds, however many warps came between |
| NameCommand.NameAll | src/commands/mapart/name.js:62-128 | a cell with no map or already named is skipped; a pending cell whose frame is gone on arrival is left alone; every other cell is renamed to its label and put back, with at most 10 failures |
| OpenCommand.GridCornerSpec | src/commands/mapart/open.js:36-37 | the corner computed from the bot's coordinate lies on a grid line `64 + 128k`, and the bot's block lies in the 128-block square that starts there |
| OpenCommand.BuildGrid | src/commands/mapart/open.js:42-65 | `width * height` cells, `dy` varying fastest so cell `k` is `dx * height + dy`; its frame is at the origin moved `dx` east and `dy` down, its map area is the `k`-th square east of the corner, and whether it has a frame and a filled map (with id, marked finished) comes from what its frame holds |
| OpenCommand.GridIsSouthWall | src/commands/mapart/open.js:52 | the frame positions are the same wall layout the `name` and `copy` commands use for a south-facing wall |
| OpenCommand.GridAreasDistinct | src/commands/mapart/open.js:51 | different cells have different map areas, each starting on a grid line |
| OpenCommand.GetEmptySlots | src/commands/mapart/open.js:135-143 | exactly the empty slots among 9..43, ascending |
| OpenCommand.FirstEmptyIsLeast | src/commands/mapart/open.js:126-133 | the first slot listed is empty, in 9..43, and no earlier slot there is empty |
| OpenCommand.MoveToEmptySlot | src/commands/mapart/open.js:126-133 | it throws exactly when slots 9..43 are all full; otherwise the stack from the given slot is moved into the first empty one |
| OpenCommand.MoveKeepsContents | src/commands/mapart/open.js:131-132 | moving a stack into an empty slot keeps the inventory's contents |
| OpenCommand.FindStock | src/commands/mapart/open.js:78-84 | the first slot of 9..43 holding quartz blocks, or -1 exactly when none does |
| OpenCommand.Round | src/commands/mapart/open.js:71-118 | an unloaded block behind the cell makes the bot fly closer; a solid one, and only that, moves on to the next cell; air is filled when slot 44 holds the backing block, else the found stock is swapped in, else a station restocks, else the round repeats |
| OpenCommand.PlaceBacking | src/commands/mapart/open.js:70-119 | each round looks at the current cell and does what one round decides, the rounds chaining cell to cell; unless the rounds run out, the loop ends past the last cell |
| OpenCommand.PassedCellsAreBacked | src/commands/mapart/open.js:70-119 | every cell the cursor has passed was seen backed by a solid block |
| OpenCommand.FinishedRunBacksEveryCell | src/commands/mapart/open.js:70-119 | a run that reaches the end has seen a backing block behind every cell |
| OpenCommand.RetryStays | src/commands/mapart/open.js:84-96 | from a `Retry` round on, while the cell looks the same, every later round is a `Retry` at the same cell |
| OpenCommand.RetryHangs | src/commands/mapart/open.js:84-96 | a `Retry` round happens only without a station, with air behind the cell and no backing block in slots 9..44; once the world is frozen, as it is while nothing is awaited, the cursor never moves past that cell and the run ends only when its rounds run out |
| OpenCommand.CallRestock | src/commands/mapart/open.js:90-91 | a restock call fails exactly when the station module does not provide the function called; `restock` plans the box operations for one stack of the backing block |
| OpenCommand.RestockRoundThrows | src/commands/mapart/open.js:90-91 | as written, the call of `station.newrestock` throws whatever the station holds |
| OpenCommand.RestockRound | lib/station.js:45-98 | through `restock`, the round withdraws from the backing block's boxes in order, stopping early only once nothing more is owed, and never uses the overflow box |
| ResourcePack.RequestOf | src/utils/ResourcePackHandler.js:74-80 | a history entry records the arrival time and the packet's url, hash, forced flag and prompt message as they are |
| ResourcePack.PackId | src/utils/ResourcePackHandler.js:114 | the pack id is `uuid` unless that is absent or empty, and then `UUID` |
| ResourcePack.AcceptWrites | src/utils/ResourcePackHandler.js:99-153 | accepting writes three statuses for the same pack id, in order: accepted (3), downloaded (4), successfully loaded (0) |
| ResourcePack.DeclineWrite | src/utils/ResourcePackHandler.js:158-167 | declining writes status 1 with no uuid |
| ResourcePack.FailedWrite | src/utils/ResourcePackHandler.js:172-181 | a failed download writes status 2 with no uuid |
| ResourcePack.LastN | src/utils/ResourcePackHandler.js:82-85 | the window is the last `k` elements, or all of them when there are fewer |
| ResourcePack.LastNSnoc | src/utils/ResourcePackHandler.js:74-85 | appending to the window and dropping the oldest on overflow gives the window of the longer history |
| ResourcePack.ResourcePackHandler.constructor | src/utils/ResourcePackHandler.js:7-17 | automatic acceptance and logging default to on, a given option replacing its default; the history is empty and the handler is not enabled |
| ResourcePack.ResourcePackHandler.Enable | src/utils/ResourcePackHandler.js:22-45 | the handler is enabled; one listener per packet name is added unless it already was enabled; nothing else changes |
| ResourcePack.ResourcePackHandler.Disable | src/utils/ResourcePackHandler.js:50-59 | the handler is disabled; only the `resource_pack_send` listeners are removed, the `add_resource_pack` ones stay |
| ResourcePack.ResourcePackHandler.DisableFully | src/utils/ResourcePackHandler.js:50-59 | the corrected `disable`: the listeners of both packet names are removed |
| ResourcePack.ResourcePackHandler.HandleRequest | src/utils/ResourcePackHandler.js:64-94 | the request joins the history as its newest entry, the history keeps at most the last ten, and an acceptance is queued exactly when automatic acceptance is on |
| ResourcePack.ResourcePackHandler.Receive | src/utils/ResourcePackHandler.js:31-40 | a packet is handled once per listener registered for its name, each time recorded and, with automatic acceptance, queued |
| ResourcePack.ResourcePackHandler.LastRequest | src/utils/ResourcePackHandler.js:193-195 | the newest history entry, none exactly when the history is empty |
| ResourcePack.ResourcePackHandler.ClearHistory | src/utils/ResourcePackHandler.js:200-203 | the history is emptied; nothing else changes |
| ResourcePack.ResourcePackHandler.SetAutoAccept | src/utils/ResourcePackHandler.js:220-223 | only automatic acceptance changes |
| ResourcePack.ResourcePackHandler.SetLogPackets | src/utils/ResourcePackHandler.js:228-231 | only logging changes |
| ResourcePack.ResourcePackHandler.Status | src/utils/ResourcePackHandler.js:208-215 | the status reports enabled, automatic acceptance, the history size and the newest entry |
| ResourcePack.EnableTwice | src/utils/ResourcePackHandler.js:22-26 | enabling twice registers the listeners once |
| ResourcePack.DisabledStillAccepts | src/utils/ResourcePackHandler.js:31-34 | after enable and disable, a 1.20.3 request is still recorded and accepted |
| ResourcePack.ReenableDoubles | src/utils/ResourcePackHandler.js:22-59 | after enable, disable and enable, a 1.20.3 request is recorded and accepted twice |
| ResourcePack.DisabledIgnores | src/utils/ResourcePackHandler.js:50-59 | with the corrected `disable`, a disabled handler ignores requests under either name |
| ResourcePack.ReenableOnce | src/utils/ResourcePackHandler.js:22-59 | with the corrected `disable`, disabling and enabling again handles each request once |
| SetCommand.Coordinate | src/commands/mapart/set.js:31-33 | an absent argument keeps the old coordinate; a digit string gives its value |
| SetCommand.XCheckIff | src/commands/mapart/set.js:36 | the X check admits exactly the coordinates 64 past a multiple of 128, negative ones included |
| SetCommand.Set | src/commands/mapart/set.js:18-60 | a missing path or file is refused and nothing is saved; a given X that fails the grid check (NaN included) is refused before saving; otherwise the file name and the given coordinates are saved, and a failed write is reported |
| SetCommand.SetKeepsAlignment | src/commands/mapart/set.js:31-36 | without a new X, an X already on the grid stays on it |
| Station.MaterialIndicesSpec | lib/station.js:31-37 | the boxes listed for a material are exactly those configured for it, ascending; empty exactly when none is |
| Station.GetIndexOf | lib/station.js:21-26 | the first box configured for the material, or -1 exactly when none is |
| Station.GetIndicesOf | lib/station.js:31-37 | every box configured for the material, in configuration order |
| Station.FirstOfIndices | lib/station.js:21-37 | `getIndexOF` is the first entry of `getIndicesOF`, or -1 when that list is empty |
| Station.CheckSupport | lib/station.js:14-16 | a material is supported exactly when some box is configured for it |
| Station.BoxList | lib/station.js:103-130 | the boxes operated on are a prefix of the list; depositing visits every box; withdrawing stops early only once nothing is owed, and does nothing when nothing is owed at the start |
| Station.EmptyBoxKeepsRemain | lib/station.js:113-118 | an empty box (-2), or a box that could not be opened or whose action threw, leaves what is owed unchanged |
| Station.AllEmptyOwesAll | lib/station.js:103-130 | when every box is empty, withdrawing visits them all and still owes everything |
| Station.BoxListStep | lib/station.js:105-128 | one loop step moves one box into the visited prefix and keeps what the rest of the list will owe |
| Station.BoxListStop | lib/station.js:105-106 | the walk ends at the end of the list, or once a withdrawal owes nothing |
| Station.ProcessBoxList | lib/station.js:103-130 | the loop owes, and visits, exactly what the walk over the list specifies |
| Station.UnsupportedWithdrawIsNoop | lib/station.js:79-84 | withdrawing a material no box holds does no box operation |
| Station.UnsupportedDepositOverflows | lib/station.js:86-93 | putting back a material no box holds goes straight to the overflow box, when there is one, since what is owed stays -1 |
| Station.WithdrawStopsWhenSatisfied | lib/station.js:94-97 | withdrawing visits a prefix of the material's boxes and stops early only once nothing is owed; it never uses the overflow box |
| Station.RestockSingleItem | lib/station.js:74-98 | the box operations of one item are those its plan specifies: -1 deposits into its boxes and then the overflow box unless exactly nothing is left; other counts withdraw |
| Station.ProcessOverfull | lib/station.js:135-146 | the overflow box is worked exactly when one is configured |
| Station.Restock | lib/station.js:45-69 | each requested item in turn, each with the box operations of its own plan |
| Station.OperateBox | lib/station.js:151-192 | at most 3 walks, stopping at the first arrival; at most 5 open attempts, stopping at the first success; the action runs only when the box opened, the box is then closed whether or not the action threw, and the visit succeeds exactly when the action ran without throwing |
| VersionPruner.InitialWork | scripts/build.js:34-38 | the worklist starts with the target version followed by the ten essential versions |
| VersionPruner.PcDeps | scripts/build.js:54-62 | a block enqueues exactly its `pc` dependencies, in order; `bedrock` ones are ignored |
| VersionPruner.ProgressSkip | scripts/build.js:41-42 | dropping a version already kept, or one whose block is missing, keeps the loop invariant |
| VersionPruner.ProgressAdd | scripts/build.js:50-62 | keeping a found version and enqueueing its `pc` dependencies keeps the loop invariant |
| VersionPruner.ProgressDone | scripts/build.js:40-68 | with nothing pending, the kept set covers the start and lies inside every covering set |
| VersionPruner.Extract | scripts/build.js:33-68 | the worklist loop keeps each version once, only found versions, and exactly the found versions reachable from the start through `pc` dependencies of found versions |
| VersionPruner.ExtractRequiredVersions | scripts/build.js:32-69 | the kept versions include the target and every essential version when found, are closed under found `pc` dependencies, and are the least such set |
| WallLayout.ParseFacing | src/commands/mapart/name.js:37-48 | a facing has a direction entry exactly when it is `north`, `south`, `west` or `east` |
| WallLayout.Direction | src/commands/mapart/name.js:169-176 | every direction goes one row down per row, and one step along exactly one horizontal axis per column |
| WallLayout.CellOfBijection | src/commands/mapart/name.js:42-44 | cell numbering is a bijection between `[0, width * height)` and the columns and rows of the wall |
| WallLayout.CellPosInjective | src/commands/mapart/name.js:48 | different cells hang at different positions, whatever the facing |
| WallLayout.CrossUp | src/commands/mapart/copy.js:43 | crossing a direction with up turns `(x, y, z)` into `(-z, 0, x)` |
| WallLayout.StandOffsetPerpendicular | src/commands/mapart/copy.js:43 | the copy command's standing offset is a horizontal unit step perpendicular to the columns |
| WallLayout.BoxesCover | src/commands/mapart/copy.js:49-55 | `ceil(width * height / 27)` boxes hold every cell, and no two cells share a box and slot |
| WallLayout.FirstFrameAt | src/commands/mapart/name.js:136-142 | the first item frame or glow item frame, in entity order, standing exactly at the position; none exactly when no frame stands there |
| WallLayout.GetItemFrame | src/commands/mapart/name.js:132-143 | with an entity index, the frame indexed in the position's cell; otherwise the first frame standing exactly at the position |
| WrapCommand.ItemOf | src/commands/mapart/wrap.js:37-44 | an empty slot records no name and -1; an occupied slot records its item's name; any map id other than -1 is a filled map's own id |
| WrapCommand.ReadInput | src/commands/mapart/wrap.js:19-46 | all 27 input slots are recorded; the number of sets is the fewest items in any occupied slot, capped at 64 |
| WrapCommand.FindOutput | src/commands/mapart/wrap.js:78-100 | the first output slot of 27..62 that matches the item (a filled map by its map id, anything else by its name), or -1 exactly when none matches |
| WrapCommand.PlaceSet | src/commands/mapart/wrap.js:75-102 | the box slots are handled in order, each against the window as the earlier picks left it: an empty input slot places nothing; any other slot takes its item from the first matching output slot of 27..62, or from none when no slot matches; the slot taken from is empty afterwards, so no two items are taken from one slot unless the later one is a filled map whose map id was not read (an empty slot then matches it) |
| WrapCommand.RunSets | src/commands/mapart/wrap.js:50-109 | the set loop runs at most the number of sets, each round opening both boxes, and ends early exactly at the first round where a box will not open |

## Left out

- All network and game I/O is represented by parameters rather than modelled: connecting and logging in, chat, world streaming, window clicks, movement packets, the web dashboard and its socket pushes, file reads and writes. Where a loop depends on such I/O, what the world answers is a parameter (a block map, an entity list, or an oracle function of the round).
- Clocks and timers: `Date.now()`, `setTimeout`, `setImmediate` and `wait` are not modelled. Timestamps and expiries are parameters, and deadlines are oracles that say when time is up. In particular the cooldown expiries (`BuildingPrinter.Scheduler.ExpireCooldown`, `MapartPrinter.MapartBuild.ExpireCooldown`) run only between passes: in the source a `setTimeout` expiry can fire at any `await` inside a sweep (`BuildingPrinter.Scheduler.Sweep`, `MapartPrinter.MapartBuild.Sweep`), so a candidate can become eligible again in the middle of a sweep.
- Floating point: positions are integer cells. The A* heuristic (a Euclidean distance in the source) is a real-valued parameter, and the printers' distance tests are oracles. The pathfinder's 0.5 block-centre offsets are not modelled, and the `0.01` "stuck" movement threshold becomes "the position did not change".
- `Pathfinder.Search`: the 1.5 s deadline is an oracle `expired(i)` over iterations. The `wait()` every 100 iterations is not modelled.
- `Pathfinder.Search`: as in the source (`lib/pathfinder.js:218-229`), a node whose position is already open is never pushed again or updated. A cheaper route found later to such a position is lost, so the result is not claimed to be a shortest path.
- `Pathfinder.AStarFly`: the 8 s overall deadline is an oracle over the number of searches. The movement itself (`astarCD` and the moves at lines 244-250) is an outcome parameter.
- `BuildingPrinter.Scheduler` and `MapartPrinter.MapartBuild`: a cache whose hash matches is resumed from disk unchanged, and the model assumes it is consistent with the schematic: `origin` is the zero vector, `destination` is the far corner `(sx-1, sy-1, sz-1)`; for the building printer `totalLayer` also equals the height, and for the map-art printer `placement_destination` is `placement_origin + destination`. A fresh cache satisfies these (`BuildingPrinter.PrepareCache`, `MapartPrinter.PrepareCache`); the source does not check a resumed one.
- `BasePrinter` and both printers: `hashConfig` (SHA-256 of the configuration's JSON) is treated as collision-free. The cache stores the hashed value itself.
- `MapartPrinter`: the `restock_takeTime` and `findNextTotalCounter` timing counters are not modelled. The held-item and inventory logic (lines 239-306) is abstracted as a supply outcome. `changeMaterial` (lines 75-77) and the `astarfly` movement are not modelled.
- `MapartPrinter.MapartBuild.UpdateVisited` and `MapartPrinter.MapartBuild.Sweep`: the `blockUpdate` listener (`lib/printers/MapartPrinter.js:121-135`) runs in the model only between passes. In the source it can also fire at any `await` inside a sweep (the clicks, the restock and the sleeps at lines 249-304), so a block placed earlier in the same sweep or pass can turn to state 1 mid-sweep. Within a sweep the source's `placedBlock` can therefore be higher than the model's, and the unplaced count that `MapartPrinter.PlanRestock` plans from (lines 270-273) can be lower, by the number of such updates (within the 2304 cap). The model's schedule, where no update arrives during the sweep, is one the source can run.
- `ContainerOperation`: `openContainerWithTimeout` is I/O and is not modelled. Withdrawing with count `-1` ("everything") and negative counts are not modelled.
- `Station.OperateBox`: the movement I/O around the retry loops is not modelled: the single warp sent before any walk when the standing cell is more than 100 blocks away (`lib/station.js:153-157`), the sleeps, and the button press when the box reads as `air` (`lib/station.js:170-173`); only the bounds of 3 walks and 5 openings, the open check and the closing are. The action's result, including its `continue` field (`lib/station.js:116-121`), is ignored by the source as well (`lib/station.js:183-191`), so the model keeps only whether the action threw.
- `Text.ParseInt`: it skips leading whitespace, reads an optional `+` or `-` sign, then a leading run of decimal digits. `parseInt`'s `0x` hexadecimal prefix is not modelled, and a fraction or exponent simply ends the digit run, so `BuildCommand` durations are whole milliseconds.
- `Text.Trim` and `Text.Words`: whitespace is an explicit list (the ASCII whitespace characters, U+00A0 and U+FEFF). Strings are sequences of characters, each standing for one UTF-16 code unit as in JavaScript; Unicode whitespace outside that list is not modelled.
- `Text.Lower`: `toLowerCase` is modelled on ASCII letters only. `localeCompare` is modelled as lexicographic order on characters.
- `NameCommand.PutBackMap`: the put-back loop for one map runs for at most `fuel` rounds, because the source loop stops only through the world's answers. The same holds for `NameCommand.NameAll`. Their contracts describe every round that does run.
- `OpenCommand.PlaceBacking`: it also runs for at most `fuel` rounds, and `look(r, i)` lets the world change between rounds. In a `Retry` round (no station, no backing block in slots 9..44) the source `continue`s without awaiting anything (`src/commands/mapart/open.js:84-96`), so the event loop never runs again and the bot hangs; the model does not capture that the world is then frozen. `OpenCommand.RetryHangs` states what follows once the world is frozen: every later round retries the same cell and the run ends only when the fuel runs out.
- `NameCommand`: a `filled_map` whose item carries no NBT, and the `pickMapItem` timeout, are not modelled.
- `NameCommand.ScanWall`: it reads names with the corrected `NameCommand.ReadNamed`. Where the source throws on a framed map with no `display` compound (see Findings), the model queues the map for naming instead; `NameCommand.ReadNamedAsWritten` models the throw.
- `NameCommand.NameAll`: it runs on the wall `NameCommand.ScanWall` produces, so it inherits the corrected read above; the source never reaches the naming loop on such a wall.
- `BuildingPrinter.CollectMissing`: it uses the corrected `BuildingPrinter.VerificationBounds`. With a single worker and no `workRegion` the source's verification pass throws (see Findings); the model applies no strip limit there, as the placement loop does.
- `CopyCommand.ScanWall`: a framed `filled_map` with no NBT makes the source throw at `src/commands/mapart/copy.js:63`; the model records the cell as holding a map with no map id.
- `OpenCommand.BuildGrid`: a framed `filled_map` whose item has no NBT makes the source throw at `src/commands/mapart/open.js:60`, which aborts the `open` command before any backing block is placed; the model records the cell as finished with no map id and goes on.
- `WallLayout.ParseFacing`: an unknown `facing` has no direction. The commands' behaviour with it (a TypeError in the source) is modelled as a refused command. An undefined `copy_amount` is not modelled.
- `WrapCommand.PlaceSet`: a pick empties the inventory slot it takes from, and that is the only change to slots 27..62 the model makes; what the click into the box slot does (merging with or swapping out a stack already there, which leaves a stack on the cursor) and the input-side click sequences are not modelled.
- `CopyCommand`: the body of the copy loop is elided in the source at `src/commands/mapart/copy.js:95-97`. The model stops at choosing the maps to copy.
- `Main`: only configuration entries that are objects are modelled. A top-level configuration that is not an object, and `path.resolve` normalisation, are not modelled. Instance identity is modelled by a serial number. The console's `list` and `help` output and the hint messages are not modelled.
- `LitematicPrinter.BuildProject` (and `LitematicPrinter.Execute`, `LitematicPrinter.BuildFile`): a printer's run is one step, a function from the printer, its arguments and the starting cache to its result and the cache it leaves. A `pause` or `stop` set while the build is awaited, which the printers poll (`lib/printers/MapartPrinter.js:138-139`, `lib/printers/BuildingPrinter.js:133-134`), is not modelled, so after the run `stop` is still the reset value and `pause` is unchanged; the printers' own loops, which do read these flags, are modelled in `BuildingPrinter` and `MapartPrinter`.
- `BuildCommand.DurationSplits` (and `BuildCommand.Duration`): these are the intended parts; the printed ones differ for 1 to 3 ms (see Findings). A cache that never recorded `startTime` and `endTime` (the initial `{hash: ""}` one, returned after a build that found no file) prints `NaN` in the source; the model's initial cache holds 0 there. Times beyond the exact range of a JavaScript number are not modelled.
- `BuildCommand.Notify`: says when the finish notice is attempted; a Discord URL that the webhook client rejects at construction (the error is caught at `src/commands/mapart/build.js:79`) sends nothing, and the model does not capture that.
- `EntityIndexer.Indexer.Rescan`: spawns the entities in the order of its argument; the source walks the bot's entity table, whose integer ids are visited in ascending order (`lib/entityIndexer.js:58`), and the model does not constrain its argument to that order, which decides which of two frames in one cell is kept.
- `BuildingPrinter.Scheduler.constructor`: requires a valid worker configuration. A resumed cache (the hash ignores the worker settings) with `worker_count` above 1 and no `workRegion` makes the source throw a `TypeError` at `lib/printers/BuildingPrinter.js:154`; that throw is not modelled.
- `BotInstance`: the connection lifecycle (`start`, `onDeath`, `onEnd`, reconnection) and the body of `dropAll` (window clicks) are not modelled. Only which senders may trigger it is.
- `VersionPruner`: the rewrite of `data.js`, its backup and restore, and the `pkg` packaging step are not modelled. The regular-expression search for a version's block is abstracted as a map from versions to their dependencies. The JavaScript `Set`'s insertion order is modelled as a duplicate-free sequence.
- `ResourcePack`: listeners are modelled as counts per event name. `removeAllListeners` also removes listeners that other code registered on the same event; the model has no such listeners. Logging, `...options` with explicitly undefined values, and the fact that `getHistory` returns the live array are not modelled. `ResourcePack.AcceptWrites` always yields its three writes; in the source a `write` that throws stops the later ones (a throw at the first goes to the outer catch and no timer is set; a throw at the second means the third is never scheduled, `src/utils/ResourcePackHandler.js:114-152`).
- `BuildCommand.AutoNextStep`: it uses the corrected file-name split (the last dot; see Findings). `NoIndex` is the case where the source throws at `src/commands/mapart/build.js:98`.
- `test.js` is not part of this model.

## Findings

| source | as written | input that shows it | evidently intended | confidence | as-written member | corrected member |
|---|---|---|---|---|---|---|
| lib/printers/BuildingPrinter.js:305-308 | the verification pass reads `cfg.workRegion.maxZ` unconditionally | a single worker (`worker_count` 1) with no `workRegion`: the placement loop accepts it, then the verification pass throws | compute strip bounds only when `worker_count > 1`, as the placement loop does | not executed | BuildingPrinter.VerificationBoundsFinding | BuildingPrinter.VerificationBoundsAgree |
| src/commands/mapart/build.js:65-67 | the file name is cut at its first dot (`split(".")[0]`) | `./maps/a_1_2.nbt`: the base is empty, so there is no `_X_Y` index and `-a` fails | split the name from its extension at the last dot | not executed | BuildCommand.DottedDirectoryLosesIndex | BuildCommand.NextFileNameRoundTrip |
| src/commands/mapart/name.js:57 | `display.value.Name` is read without checking that `display` exists | a framed map that was never renamed, which has no `display` compound: the scan throws | treat a missing `display` as "not named" and queue the map | not executed | NameCommand.FreshMapStopsScan | NameCommand.ReadNamed |
| src/utils/ResourcePackHandler.js:50-59 | `disable` removes only the `resource_pack_send` listeners, but `enable` (lines 31-34) also added `add_resource_pack` | `enable`, `disable`, then an `add_resource_pack` request: it is still accepted; after `enable` again, it is handled twice | `disable` removes both listeners | not executed | ResourcePack.ReenableDoubles | ResourcePack.ReenableOnce |
| src/commands/mapart/build.js:61 | the hours are printed as `parseInt(t / 3600)`, and `parseInt` reads the string form of its number | a build of 1 ms: `t / 3600` is `2.7777777777777776e-7`, and `parseInt` reads 2, so the report says 2 h 0 m 0 s (5 h and 8 h for 2 and 3 ms; also line 157) | truncate the number itself (`Math.trunc`) | not executed | BuildCommand.OneMillisecondReadsTwoHours | BuildCommand.DurationSplits |
| src/commands/mapart/open.js:90-91 | the backing restock calls `station.newrestock`, which `lib/station.js` does not define (it provides `restock`) | station mode with no `quartz_block` in slots 9-43 and none in slot 44: `station.newrestock is not a function` is thrown | call `station.restock` | not executed | OpenCommand.RestockRoundThrows | OpenCommand.RestockRound |
