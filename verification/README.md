# Hierarchical grid pathfinding and roguelike AI helpers, in Dafny

This project models the hierarchical grid pathfinder of the `w7` exercise and proves properties about it. The pathfinder:

- splits the dungeon into 10×10 sectors;
- finds portals on the sector borders;
- caches one flow field (a BFS distance map) per sector and portal;
- joins the portals of each sector with symmetric, costed connections;
- answers path queries. A query runs a local A* when both ends share a sector. Otherwise it injects two scratch portals, runs A* over the portal graph, walks down each hop's flow field, and finally undoes its temporary changes.

Alongside the pathfinder, the project models small pieces of decision logic from the roguelike exercises:

- `w1`: the movement helpers, the state-machine transition combinators and the activity countdown;
- `w1`: the player's action counter and move/attack/heal resolution;
- `w3`: the behaviour-tree combinators and utility selectors;
- `w3`: the bounded action log, the patrol waypoint ring, monster self-healing and gatherer pickups.

Modules follow the program's structure.

| module | contents |
|---|---|
| `PathTypes` | Positions, `Dist` and the records of `pathfinder.h`. `Dist` is a distance with an `Inf` value that stands for `FLT_MAX`. |
| `Dungeon` | The tile grid. |
| `FlowField` | `gen_sector_to_portal_dmap`. |
| `Descent` | Walking down a flow field. |
| `LocalSearch` | The grid A*. |
| `BorderScan` | The portal scan of `check_border`. |
| `PortalBuild` | `prebuild_map`. |
| `PortalSearch` | The portal-graph A*. |
| `Query` | `construct_path_hierarchical`. |
| `AiLibrary` | From `w1/aiLibrary.cpp`. |
| `RoguelikeTurns` | From `w1/roguelike.cpp`. |
| `BehLibrary` | From `w3/behLibrary.cpp`. |
| `RoguelikeWorld` | From `w3/roguelike.cpp`. |

The ECS world is passed explicitly:

- the grid, the portal table and the entity components are parameters;
- an entity set is a sequence visited in query order;
- a behaviour-tree child is the result (or sequence of results) it would return.

## Model

| member | source | states |
|---|---|---|
| PathTypes.AdjacentSymmetric | w7/pathfinder.cpp:169-172 | The four probe offsets relate tiles symmetrically: q is a probed neighbour of p iff p is one of q. |
| PathTypes.AdjacentIsUnitStep | w7/pathfinder.cpp:169-172 | A probed neighbour is exactly a tile at Manhattan distance 1. |
| PathTypes.Min | w7/pathfinder.cpp:57-64 | `std::min` of two distances is one of them and lies at or below both, `FLT_MAX` included. |
| PathTypes.Add | w7/pathfinder.cpp:382 | Adding a connection cost to a g-score is finite iff both are, and then it is their sum. This is FLT_MAX absorption. |
| PathTypes.CoordToIdxBound | w7/pathfinder.h:40-44 | For x < w and y < h the row-major index is below w·h, so it addresses a w×h buffer. |
| PathTypes.CoordToIdxInverse | w7/pathfinder.h:40-44 | `idx % w` and `idx / w` recover x and y when x < w. The sector loops decode indices this way. |
| PathTypes.CoordToIdxInjective | w7/pathfinder.h:40-44 | Distinct tiles with x < w get distinct indices. |
| PathTypes.PointPortal | w7/pathfinder.cpp:442-443 | A scratch portal set to an endpoint covers exactly that tile and has no connections. |
| PathTypes.PortalTile | w7/pathfinder.cpp:324-327 | The portal position truncated to a tile is the span midpoint rounded down, and lies inside an ordered span. |
| Dungeon.SectorsInsideGrid | w7/pathfinder.cpp:186-187 | The `width / SPLIT_TILES` × `height / SPLIT_TILES` whole sectors fit inside the grid. |
| FlowField.CellAtInside | w7/pathfinder.cpp:34-50 | Every local index below W·H names a window tile whose local index is that index back. |
| FlowField.LocalIdxInside | w7/pathfinder.cpp:34-50 | The local index `(y-base.y)*W + (x-base.x)` of a window tile is below W·H and decodes back to the tile. |
| FlowField.LocalIdxInjective | w7/pathfinder.cpp:34-50 | Distinct window tiles never share a slot of the field. |
| FlowField.ClampWindow | w7/pathfinder.cpp:13-22 | The window holds exactly the requested tiles that lie in the grid. It is empty exactly when no tile qualifies. |
| FlowField.GetMapAt | w7/pathfinder.cpp:34-42 | An in-window floor tile reads its own slot; any other tile reads the supplied default. |
| FlowField.MinNeiFacts | w7/pathfinder.cpp:57-64 | The neighbour minimum is at or below the tile's value and each open neighbour's value, and equals one of them. |
| FlowField.RelaxStepKeepsInv | w7/pathfinder.cpp:71-78 | Lowering an improvable cell to min-neighbour + 1 keeps every invariant: seeds 0, finite values supported by a neighbour one lower, walls and seeds untouched. It strictly lowers the field. |
| FlowField.NewValueSupported | w7/pathfinder.cpp:73-77 | The new value is positive and strictly below the old one. The cell is not a seed, and the neighbour the minimum came from supports the value. |
| FlowField.OtherCellKeepsInv | w7/pathfinder.cpp:77 | Lowering one cell never breaks the invariant of any other cell. |
| FlowField.NeighbourUnchanged | w7/pathfinder.cpp:43-50 | `setMapAt` on one tile leaves every neighbour's slot as it was. |
| FlowField.SupportSurvives | w7/pathfinder.cpp:77 | A value supported by a neighbour stays supported when some cell is lowered. |
| FlowField.RelaxPass | w7/pathfinder.cpp:67-80 | One raster pass keeps the invariant and never raises a value. It reports a change iff the field changed, and a pass without change leaves the field stable. |
| FlowField.MeasureDecreases | w7/pathfinder.cpp:65-81 | A pointwise-lower, different field has fewer `FLT_MAX` cells, or as many with a smaller finite sum, so the `while (!done)` loop terminates. |
| FlowField.StableBoundsNeighbour | w7/pathfinder.cpp:75 | At the fixpoint a tile's value is at most an open neighbour's value + 1. |
| FlowField.WalkBoundsValue | w7/pathfinder.cpp:65-81 | At the fixpoint, a 4-connected walk of k steps from a seed bounds the end tile's value by k. |
| FlowField.SupportGivesWalk | w7/pathfinder.cpp:65-81 | Under the invariant, a finite value k is witnessed by a walk from a seed of at most k steps. |
| FlowField.StableIsDistanceField | w7/pathfinder.cpp:65-81 | A stable field is the exact field. Every open tile holds its shortest in-window walk length to the portal's span, or `FLT_MAX` when no seed is reachable. Walls hold `FLT_MAX`. |
| FlowField.GenSectorToPortalDmap | w7/pathfinder.cpp:11-84 | An empty clamped window gives an empty result. Otherwise the result is the exact distance field of the portal's span over the clamped window. |
| FlowField.FieldZeroIffSeed | w7/pathfinder.cpp:52-54 | A cell reads 0 iff it is an in-window floor tile of the portal's span. |
| FlowField.FieldHasDescent | w7/pathfinder.cpp:65-81 | Every tile at finite positive distance k has an open neighbour at exactly k − 1. |
| Descent.BestStepIsMin | w7/pathfinder.cpp:558-576 | A probe round picks a neighbour with a finite value that no neighbour beats. It picks nothing iff all four neighbours read `FLT_MAX`. |
| Descent.FiniteIsOpen | w7/pathfinder.cpp:26-50 | On an exact field a finite value marks an in-window floor tile. Reading it through the window agrees with `getMapAt`. |
| Descent.NeighbourBound | w7/pathfinder.cpp:65-81 | Adjacent open tiles of an exact field differ by at most one. |
| Descent.DescentStep | w7/pathfinder.cpp:556-582 | From a tile at distance v > 0 the probe round steps to a neighbour at exactly v − 1. |
| Descent.Descend | w7/pathfinder.cpp:556-582 | The walk either is stuck (no neighbour below `FLT_MAX`, the case the source repeats forever) or is a 4-connected walk of open tiles from next to the start, ending on the portal. Its length is the first step's value + 1. |
| LocalSearch.ReconstructDungeonPath | w7/pathfinder.cpp:98-108 | Following predecessor links gives a valid path from `from` to the tile, at most its g-score + 1 tiles long. |
| LocalSearch.BestOpen | w7/pathfinder.cpp:131-141 | The scan returns the first open entry whose f-score is minimal. |
| LocalSearch.CheckNeighbour | w7/pathfinder.cpp:149-168 | An admissible neighbour ends up scored at most g(cur) + 1 and queued. An inadmissible one changes nothing. The search invariant holds afterwards. |
| LocalSearch.RelaxKeepsSearchInv | w7/pathfinder.cpp:159-163 | Lowering g(p) to g(cur) + 1 with cur as predecessor keeps every g-score backed by a valid predecessor path. |
| LocalSearch.RemoveAt | w7/pathfinder.cpp:145 | Erasing entry b shifts the later entries down by one and keeps the earlier ones. |
| LocalSearch.Expand | w7/pathfinder.cpp:169-172 | Probing the four neighbours keeps the search invariant and never forgets a scored tile. |
| LocalSearch.CloseCell | w7/pathfinder.cpp:146-148 | Closing a not-yet-closed grid tile strictly shrinks the set of unclosed tiles, which bounds the main loop. |
| LocalSearch.SearchRound | w7/pathfinder.cpp:131-172 | A round keeps the invariant. It either finds the goal or closes a new tile or shortens the open list, and it finds `from` at once when from == to. |
| LocalSearch.FindDungeonPathAStar | w7/pathfinder.cpp:110-176 | The result is empty when `from` is outside the grid and `[from]` when from == to. Any non-empty result starts at `from`, ends at `to`, moves one 4-step at a time, and keeps every later tile in the box, in the grid and off walls. Whatever the heuristic, a result is found whenever such a path exists, so an empty result from a grid tile means no path exists. |
| LocalSearch.ClosedUnderPaths | w7/pathfinder.cpp:142-172 | Once the open list is empty, every tile of a valid path that starts at a closed tile is closed, because each closed tile queued all its admissible neighbours. |
| LocalSearch.ExhaustedMeansUnreachable | w7/pathfinder.cpp:128-175 | A search that empties its open list without closing `to` proves that no valid path leads from `from` to `to`. |
| LocalSearch.FoundPathStaysInGrid | w7/pathfinder.cpp:151-156 | Every tile of a found path after `from` lies in both the box and the grid, even when the box sticks out of the grid. |
| LocalSearch.PaddedBoxEscapesGrid | w7/pathfinder.cpp:151-156 | With the box padded to x = −1, the as-written guard admits (−1, 0), whose wrapped index lies past the tile buffer. It also admits (−1, 1), whose index aliases tile (width − 1, 0). |
| BorderScan.BorderPairInGrid | w7/pathfinder.cpp:195-199 | Both tiles of every edge position of a scannable sector lie in the grid. |
| BorderScan.RunEndsAt | w7/pathfinder.cpp:199-211 | A block of crossable positions bounded by blocked ones or the edge ends is a maximal run, and the only maximal run ending there. |
| BorderScan.ScanStep | w7/pathfinder.cpp:199-211 | One position of the scan keeps the invariant: the runs written so far are exactly the maximal runs already closed, and `spanFrom`/`spanTo` track the open run. |
| BorderScan.ScanClose | w7/pathfinder.cpp:205-211 | A blocked position after an open run writes exactly that run and resets `spanFrom`. |
| BorderScan.ScanRuns | w7/pathfinder.cpp:191-217 | The runs written are exactly the maximal runs of crossable positions, in edge order and separated by gaps. |
| BorderScan.CheckBorder | w7/pathfinder.cpp:189-218 | The portals written are the portals of the maximal runs of crossable positions, one per run, in edge order. Every maximal run has its portal written. No portal has connections yet. |
| BorderScan.AllRunsDistinct | w7/pathfinder.cpp:199-211 | Runs listed in edge order are strictly ordered: an earlier run ends before a later one starts. |
| BorderScan.EdgePortalsDistinct | w7/pathfinder.cpp:199-217 | No edge portal is written twice, since distinct runs start at distinct tiles. |
| BorderScan.RunPortalIsFloor | w7/pathfinder.cpp:208-209 | A run's portal starts across the edge and ends on this side, so startX ≤ endX and startY ≤ endY. It covers only floor tiles. |
| PortalBuild.SectorOfIdx | w7/pathfinder.cpp:266-267 | `tidx % width` and `tidx / width` give back the sector coordinates of a row-major sector id. |
| PortalBuild.PaddedWindowNonEmpty | w7/pathfinder.cpp:236-240 | The padded window a sector's fields are generated over is never empty. |
| PortalBuild.RowTiles | w7/pathfinder.cpp:283-284 | The row loop visits exactly the tiles x0..x1 of row y. |
| PortalBuild.RectTiles | w7/pathfinder.cpp:280-284 | The nested loops visit exactly the tiles of the inclusive rectangle. |
| PortalBuild.ClipTiles | w7/pathfinder.cpp:280-290 | The tiles a portal contributes are exactly its span's tiles inside the sector box. |
| PortalBuild.PairRow | w7/pathfinder.cpp:286-301 | `minDist` never rises. Without `noPath`, every tile of the other span is equal to p or linked to p inside the box. `noPath` is raised only for a tile b different from p when p is outside the grid or has no path to b inside the box. A lowered `minDist` is the size of a path found for some pair. The ghost `sizes` holds the size of every path returned before the stop, one per tile of the other span when there is no stop. Each size is a real path's size for its pair, or 0 for an off-grid tile paired with itself. `minDist'` is the minimum of `minDist` and those sizes. |
| PortalBuild.PortalPairCost | w7/pathfinder.cpp:278-307 | A cost is produced only when every tile pair of the clipped spans is linked inside the box. No cost means a pair of distinct clipped tiles with no path between them. When the box lies in the grid, a cost is produced exactly when the spans are linked. The cost is `0xffffffff` when a clipped span is empty, and otherwise the size of a path found for some pair. With a cost, the ghost `sizes` gives one size per clipped pair, each the size of that pair's returned path. The cost is no greater than any of them and is one of them, unless it is `0xffffffff`. |
| PortalBuild.PairRows | w7/pathfinder.cpp:278-301 | The loops over the first span's tiles stop at the first pair without a path. Without a stop, every clipped pair is linked and `sizes` has one row per tile of the first span. Each entry is witnessed by its pair, and `minDist` is their minimum, or `0xffffffff` when there are none. |
| PortalBuild.RowsMinStep | w7/pathfinder.cpp:297 | Adding one tile's row of sizes keeps `minDist` the minimum over all rows. |
| PortalBuild.PairsLinkSpans | w7/pathfinder.cpp:280-304 | Linking every pair of clipped tiles links the two spans. |
| PortalBuild.UnlinkedPairSplitsSpans | w7/pathfinder.cpp:296-305 | In a box inside the grid, a pair of distinct clipped tiles without a path means the two spans are not linked. |
| PortalBuild.SectorBoxInGrid | w7/pathfinder.cpp:266-269 | The box `[limMin, limMax)` of every sector lies inside the grid. |
| PortalBuild.FieldsGrowPortals | w7/pathfinder.cpp:227-228 | Appending a portal keeps every (sector, slot) field matching its portal. |
| PortalBuild.FieldsAddSlot | w7/pathfinder.cpp:233-240 | Adding a slot together with its portal's exact field keeps the sector lists and field lists matched. |
| PortalBuild.RegisteredGrows | w7/pathfinder.cpp:233-234 | A portal listed by two sectors stays listed when lists only grow. |
| PortalBuild.EdgeRegisteredGrows | w7/pathfinder.cpp:233-234 | A portal registered at its edge's two sectors stays registered when lists only grow. |
| PortalBuild.RunPortalRegistered | w7/pathfinder.cpp:224-234 | A run portal of an edge, listed by the edge's own sector and the sector across it, is registered at that edge. |
| PortalBuild.PushPortals | w7/pathfinder.cpp:224-242 | New portals are appended in order. Each is listed by sector (x, y) and by the sector across edge b (above for the top edge, left for the left edge), with one exact flow field per sector. Existing lists only grow. |
| PortalBuild.PushEach | w7/pathfinder.cpp:224-242 | The loop appends the new portals in order. Sectors (x, y) and (nx, ny) list every new id. Existing lists only grow, and fields still match. |
| PortalBuild.NeighbourSectorFirst | w7/pathfinder.cpp:230-231 | The sector above or to the left has a smaller row-major id, so its lists already exist when the scan reaches (x, y). |
| PortalBuild.PushOne | w7/pathfinder.cpp:226-240 | One portal is appended, both sectors list its id, earlier entries are kept, and fields still match. |
| PortalBuild.Link | w7/pathfinder.cpp:308-309 | Pushing a→b and b→a adds exactly these two connections, with the same sector and cost, and keeps all spans and earlier connections. |
| PortalBuild.LinkKeepsConns | w7/pathfinder.cpp:308-309 | A linked pair keeps every connection well formed: a real target, listed by the sector, finite cost, the reverse edge present. The new pair's cost must be `0xffffffff` or the size of a path between clipped tiles of the two spans. |
| PortalBuild.ConnectSector | w7/pathfinder.cpp:270-311 | Every pair of the sector's portals whose spans are linked inside the sector ends up connected both ways in that sector. Every connection stays well formed (symmetric, same sector and cost, spans linked), no span changes and earlier connections are kept. |
| PortalBuild.ConnectRow | w7/pathfinder.cpp:273-310 | Row i of the pair loops connects ids[i] to every later listed portal whose spans are linked with it, on top of the pairs of earlier rows. |
| PortalBuild.ConnectPair | w7/pathfinder.cpp:276-309 | One pair check returns a cost exactly when the two spans are linked inside the sector, and then pushes both connections with that cost. The cost is the minimum of the ghost `sizes`: one witnessed path size per clipped tile pair, or `0xffffffff` when there are no pairs. Without a cost nothing changes. Spans and earlier connections are kept. |
| PortalBuild.ConnectStep | w7/pathfinder.cpp:273-310 | One pass of the `j` loop checks pair (i, j) and adds it to the pairs done, keeping spans, earlier connections and well-formed connections. |
| PortalBuild.PairsDoneGrows | w7/pathfinder.cpp:308-309 | Connections already made survive later pushes, since lists only grow and spans stay. |
| PortalBuild.PrebuildMap | w7/pathfinder.cpp:179-322 | The table is well formed: lists sized by the sector count, every slot a real portal with its exact field, and every connection symmetric. Every connection's cost is `0xffffffff` or the size of a path found between clipped tiles of the two spans inside the sector. Every real portal is the portal of a maximal run of some edge, is listed by the two sectors that edge separates, and covers floor, and every maximal run of every scanned edge has a portal. Every pair of a sector's portals whose spans are linked inside it is connected both ways. The two scratch portals come last and are empty. |
| PortalBuild.ScannedSpansKept | w7/pathfinder.cpp:263-317 | The connection pass and the scratch portals keep spans, so each scanned portal's registration at its edge's two sectors, its floor span and its run span carry over. |
| PortalBuild.ScanPhase | w7/pathfinder.cpp:243-262 | The scan builds one list per sector and covers every maximal run of every scanned edge with a portal. Each portal is the portal of a maximal run of some edge, is listed by the two sectors that edge separates, covers floor, has an exact field per slot, and has no connections yet. |
| PortalBuild.ScanSector | w7/pathfinder.cpp:245-261 | One sector opens its lists and appends exactly its top edge's portals (when it has a sector above) and then its left edge's (when it has one to the left). Coverage extends to this sector and the scan invariants are kept. |
| PortalBuild.ScanEdge | w7/pathfinder.cpp:249-260 | One edge appends exactly the portals of its maximal runs, in edge order, keeping the scan invariants. |
| PortalBuild.ScanCoversStep | w7/pathfinder.cpp:244-261 | Appending a sector's edge lists extends coverage from the sectors before it to that sector too. |
| PortalBuild.ScanCoversAll | w7/pathfinder.cpp:243-262 | Once every sector is scanned, every scannable edge of the grid is covered. |
| PortalBuild.EdgePortalsCover | w7/pathfinder.cpp:199-217 | Every maximal run of an edge has its portal in that edge's list. |
| PortalBuild.ConnectPhase | w7/pathfinder.cpp:263-312 | The connection loop keeps spans, fields and registrations, and leaves every connection well formed. Afterwards, in every sector, every pair of listed portals whose spans are linked inside it is connected both ways. |
| PortalBuild.FloorSpans | w7/pathfinder.cpp:189-218 | Every portal the border scan writes covers only floor. |
| PortalBuild.AddBorder | w7/pathfinder.cpp:251-260 | The edge's portals are appended in order after the existing ones, and the scan invariants are kept. Each new run portal is registered at its edge: listed by the sector and by its neighbour across the edge. |
| PortalBuild.FieldsKeepSpans | w7/pathfinder.cpp:308-309 | Adding connections leaves every field matching its portal, since fields depend only on spans. |
| PortalBuild.ConnsGrowPortals | w7/pathfinder.cpp:316-317 | Appending the two scratch portals keeps the real connections well formed. |
| PortalSearch.ConnPathSnoc | w7/pathfinder.cpp:329-340 | Extending a connection path by one finite connection reaches its target, and adds its cost. |
| PortalSearch.ReconstructPortalPath | w7/pathfinder.cpp:329-340 | The connection slots on the predecessor chain form a path of finite connections from `from` to the portal, costing at most its g-score. |
| PortalSearch.BestOpen | w7/pathfinder.cpp:361-371 | The scan returns the first open portal with minimal f, `FLT_MAX` ordered last. |
| PortalSearch.RelaxConnections | w7/pathfinder.cpp:396-397 | Checking every connection of the current portal keeps the invariant, and queues every target. |
| PortalSearch.CheckConnection | w7/pathfinder.cpp:380-394 | One connection check keeps the invariant, keeps the open list as a prefix, and queues the target. |
| PortalSearch.RelaxKeepsInv | w7/pathfinder.cpp:383-390 | Lowering g(t) through a finite connection, and recording the predecessor and slot, keeps every predecessor link valid and acyclic. |
| PortalSearch.RemoveAt | w7/pathfinder.cpp:375 | Erasing an open entry shortens the list by one and introduces nothing new. |
| PortalSearch.FindPortalPathAStar | w7/pathfinder.cpp:342-401 | The result is empty for an out-of-range id and when from == to. Any non-empty result names connection slots, hop by hop over finite connections, from `from_id` to `to_id`. Whatever the heuristic, a result is found whenever such a chain exists. |
| PortalSearch.ChainMeetsOpen | w7/pathfinder.cpp:359-399 | While the goal is unclosed, a chain of finite connections to it from a scored portal passes through a queued scored portal. |
| PortalSearch.ReachableKeepsOpen | w7/pathfinder.cpp:359-401 | While the goal is reachable and unclosed, the open list holds a portal with a g-score, so the search cannot give up early. |
| Query.SectorIdFacts | w7/pathfinder.cpp:407-446 | A tile's sector id is below the sector count. It decodes to the tile's sector, whose box and padded window are the ones the query computes. |
| Query.SectorIdInRange | w7/pathfinder.cpp:445-446 | The sector ids of the endpoints index the tables. |
| Query.SameSectorIffSameId | w7/pathfinder.cpp:423 | Two tiles have the same sector origin iff they have the same sector id. |
| Query.DescentWindowIsSectorWindow | w7/pathfinder.cpp:516-531 | The descent's shrunk-at-the-edges window is exactly the clamped window the sector's fields were built over, so local indices agree. |
| Query.AddPortalAsConn | w7/pathfinder.cpp:450-463 | The connection targets `dst_id` in the given sector. Its cost is 0 iff the portal tiles coincide; otherwise it is a path size in the padded box, or `FLT_MAX` when none is found. |
| Query.FromConns | w7/pathfinder.cpp:465-466 | The start scratch portal gets one connection per portal of its sector, in list order, each costed as above. |
| Query.AddTempConns | w7/pathfinder.cpp:467-468 | Each portal of the goal's sector keeps its tiles and old connections, and gains one connection to the goal portal per listing. |
| Query.GrewOne | w7/pathfinder.cpp:467-468 | Handling the next listing keeps that growth description. |
| Query.RemoveTempConns | w7/pathfinder.cpp:591-592 | Each listed portal loses exactly as many trailing connections as it is listed. |
| Query.PopOne | w7/pathfinder.cpp:592 | Popping the next listed portal keeps that count exact. |
| Query.RemoveUndoesAdd | w7/pathfinder.cpp:467-468 | Popping as many connections as were pushed restores every portal exactly. |
| Query.FieldsMatchSlots | w7/pathfinder.cpp:511 | Every slot's field is its portal's exact field, in the form the hop lookup reads. |
| Query.QueryStateTargets | w7/pathfinder.cpp:475 | In the injected table every connection targets an existing portal, so the portal search never indexes past the end. |
| Query.FieldsKeepListedSpans | w7/pathfinder.cpp:439-443 | Overwriting the scratch portals, which no sector lists, keeps all fields matching. |
| Query.ConnsKeepReal | w7/pathfinder.cpp:439-443 | Changing only scratch portals keeps the real connections well formed. |
| Query.InjectedConns | w7/pathfinder.cpp:465-471 | After injection every connection is owned by a sector listing its target. Only the goal's sector owns connections to the goal portal. |
| Query.InjectedFields | w7/pathfinder.cpp:471-473 | With the goal's slot and exact field appended, every slot still holds its portal's field. |
| Query.InjectStart | w7/pathfinder.cpp:439-466 | Both scratch portals are set to their endpoints. The start is connected to its sector's portals, and the real portals are unchanged. |
| Query.GoalState | w7/pathfinder.cpp:467-473 | The fully injected table is in query state. |
| Query.InjectGoal | w7/pathfinder.cpp:467-473 | The goal's sector portals gain their connections to the goal, and the goal gets a slot and exact field, leaving the table in query state. |
| Query.GoalField | w7/pathfinder.cpp:472-473 | The goal's field is the exact field over its sector's padded window. |
| Query.FirstIndexOf | w7/pathfinder.cpp:498-506 | The slot scan returns the first slot listing the portal. |
| Query.FloorWalkAppend | w7/pathfinder.cpp:581 | Appending a walk that starts next to the current end gives a longer floor walk from `from`. |
| Query.Hop | w7/pathfinder.cpp:485-586 | A hop follows the chosen connection to an existing portal and keeps the rest of the route valid. Unless stuck, it extends the floor walk to a tile of the target portal. |
| Query.WalkPortals | w7/pathfinder.cpp:479-587 | The trace starts at the start scratch portal and has one entry per hop walked. The path is a floor walk from `from`. Unless stuck, every hop is walked and a non-empty route ends on the goal portal. |
| Query.CleanupRestores | w7/pathfinder.cpp:589-592 | Popping the goal's slot, field and connections restores the table and its well-formedness. |
| Query.SearchAndWalk | w7/pathfinder.cpp:475-587 | The trace starts at the start scratch portal. It has no hop exactly when no chain of finite connections joins the scratch portals, and then the path is empty. Otherwise, unless stuck, the path is a floor walk ending on the goal portal. |
| Query.CrossSector | w7/pathfinder.cpp:435-594 | The path is a floor walk from `from`, empty when no hop is found. Unless stuck, a route with hops ends at `to`, and the sector lists, fields and real portals are restored and the table stays well formed. |
| Query.QueryFromStart | w7/pathfinder.cpp:467-592 | From the injected start onward the query ends with the table back at the scratch state. |
| Query.Cleanup | w7/pathfinder.cpp:589-592 | After cleanup, lists and fields are the originals and the table is well formed. |
| Query.ConstructPathHierarchical | w7/pathfinder.cpp:403-597 | A same-sector query accepts any tiles and runs a sector-bounded A*. It leaves the table alone. It gives an empty path for a start outside the grid and `[from]` when `from == to`. Every path it returns stays inside the sector, and it finds one whenever one exists from a start in the grid. A cross-sector query returns a floor walk from `from` that, unless stuck, ends at `to` when it has hops. Every non-stuck query leaves the table's lists, fields and real portals as they were. |
| AiLibrary.MoveTowards | w1/aiLibrary.cpp:10-20 | The result is `EA_NOP` iff the two positions coincide, and a move code otherwise. |
| AiLibrary.MoveTowardsDirection | w1/aiLibrary.cpp:17-19 | The move is horizontal iff the horizontal gap is strictly larger, and it points along the sign of the chosen gap (UP iff dy < 0). |
| AiLibrary.InverseMove | w1/aiLibrary.cpp:22-29 | Moves map to different moves, and every other code is returned unchanged. |
| AiLibrary.InverseMoveInvolution | w1/aiLibrary.cpp:22-29 | Inverting twice gives back any code. |
| AiLibrary.MoveTowardsReversed | w1/aiLibrary.cpp:10-29 | Moving from `to` toward `from` is the inverse of moving from `from` toward `to`. |
| AiLibrary.EvalStateless | w1/aiLibrary.cpp:369-420 | A transition without one-shots evaluates to its boolean reading, keeps its state, and asks only its own queries. |
| AiLibrary.NegateNegate | w1/aiLibrary.cpp:376 | Negate is logical not, and a double negation answers like the inner transition while asking the same queries. |
| AiLibrary.AndShortCircuits | w1/aiLibrary.cpp:391-394 | And is lhs && rhs. A false left side leaves the right side unevaluated: its queries are not asked and its one-shots keep their flags. |
| AiLibrary.FiredStaysSilent | w1/aiLibrary.cpp:408-409 | A one-shot that has fired answers false forever. |
| AiLibrary.OneShotAtMostOnce | w1/aiLibrary.cpp:403-413 | A one-shot answers true on at most one turn, and never when built as signalled. |
| AiLibrary.Act | w1/aiLibrary.cpp:216-230 | `onDone` runs iff the counter is at 0 and this is not the first reload since entering. The skip stays armed only while the counter has not reached 0. The counter is reloaded with `turns` at 0 and then drops by one. |
| AiLibrary.Exit | w1/aiLibrary.cpp:215 | Exit re-arms the skip and leaves the counter alone. |
| AiLibrary.AfterStep | w1/aiLibrary.cpp:216-230 | The state after k + 1 acts is one act after the state after k. |
| AiLibrary.AfterFresh | w1/aiLibrary.cpp:216-230 | After k ≥ 1 acts from a fresh entry the counter stands at turns − 1 − (k − 1) mod turns and the skip is used up. |
| AiLibrary.AfterFreshDiv | w1/aiLibrary.cpp:216-230 | The same, with k − 1 written as q·turns + r: the counter stands at turns − 1 − r. |
| AiLibrary.ActivityPeriod | w1/aiLibrary.cpp:216-230 | From a fresh entry, `onDone` runs on act k (counting from 0) iff k is a positive multiple of `turns`, that is on acts turns+1, 2·turns+1, … counting from one. |
| AiLibrary.ActivityNeverFires | w1/aiLibrary.cpp:216-230 | A period below 1 drives the counter negative, and `onDone` never runs. |
| AiLibrary.ExitRearms | w1/aiLibrary.cpp:215-230 | After an exit with the counter at c ≥ 0, nothing fires on acts 0..c, and from act c on the activity runs exactly like a fresh entry. After an exit with a negative counter it never fires. |
| AiLibrary.AfterAdd | w1/aiLibrary.cpp:216-230 | a acts followed by b acts are a + b acts. |
| AiLibrary.ExitCountsDown | w1/aiLibrary.cpp:215-230 | After an exit the remaining counter runs down silently with the skip armed, so the reload it reaches is skipped. |
| AiLibrary.ExitMidCount | w1/aiLibrary.cpp:215-230 | An exit at counter 2 with period 5 skips the reload two acts later and first fires on act 7. |
| RoguelikeTurns.MovePos | w1/roguelike.cpp:407-418 | LEFT/RIGHT/UP/DOWN move one tile along x−/x+/y−/y+, and any other code stays put. The step has Manhattan length 1 exactly for moves. |
| RoguelikeTurns.MovePosInverse | w1/roguelike.cpp:407-418 | Moving by the inverse action returns to the start, for every code. |
| RoguelikeTurns.MoveTowardsCloser | w1/roguelike.cpp:407-418 | Stepping toward a different tile brings it exactly one Manhattan step closer. |
| RoguelikeTurns.UpdCount | w1/roguelike.cpp:401-402 | C's `%` is kept, so a counter below −1 can stay negative. From any counter ≥ −1, which includes every counter the turn loop produces, the new counter is in [0, numActions). The step reports a wrap iff the new counter is 0. |
| RoguelikeTurns.UpdPlayerActions | w1/roguelike.cpp:396-405 | Every player's counter advances, and the call returns true iff some counter wrapped to 0. |
| RoguelikeTurns.CountAfterStep | w1/roguelike.cpp:401 | The counter after k + 1 calls is one step after the counter after k. |
| RoguelikeTurns.CounterPeriod | w1/roguelike.cpp:396-405 | From 0, after k calls the counter is k mod n, and call k reports a wrap iff k + 1 is a multiple of n. |
| RoguelikeTurns.WrapStep | w1/roguelike.cpp:401 | A step from k mod n lands on (k + 1) mod n. |
| RoguelikeTurns.PlayerPlansEverySecondCall | w1/roguelike.cpp:396-405 | With two actions the player's counter wraps on every second call. |
| RoguelikeTurns.Bump | w1/roguelike.cpp:448-457 | An enemy bumped by actor i loses i's damage. A bumped ally gains the pouch amount only when the pouch is ready, which then sets cooldown to maxCooldown+1. Nothing else changes. |
| RoguelikeTurns.BumpKeepsRoles | w1/roguelike.cpp:447-451 | A bump changes neither who claims the target cell nor who is an ally. |
| RoguelikeTurns.Collide | w1/roguelike.cpp:447-459 | The move is blocked iff some other actor claims the target cell. Only hitpoints and i's pouch change. |
| RoguelikeTurns.CollideHurtsEnemies | w1/roguelike.cpp:447-452 | Untouched actors keep their hitpoints, and each bumped enemy loses exactly i's damage. |
| RoguelikeTurns.CollideKeepsUntouched | w1/roguelike.cpp:447-459 | Actors that are not bumped keep their hitpoints. |
| RoguelikeTurns.CollideHurtsBumped | w1/roguelike.cpp:451-452 | Every bumped enemy loses exactly i's damage. |
| RoguelikeTurns.HurtStep | w1/roguelike.cpp:451-452 | The enemy bumped at position j and those after it are each hurt once. |
| RoguelikeTurns.CollideNotReady | w1/roguelike.cpp:453 | A pouch on cooldown heals nobody and stays as it is. |
| RoguelikeTurns.CollideReady | w1/roguelike.cpp:453-457 | A ready pouch heals only the first bumped ally, by its amount, and starts its cooldown iff such an ally exists. |
| RoguelikeTurns.ReadySkips | w1/roguelike.cpp:448 | An actor not on the target cell is skipped by the healing. |
| RoguelikeTurns.ReadyPassesEnemy | w1/roguelike.cpp:451-452 | A bumped enemy does not consume the heal. |
| RoguelikeTurns.ReadyMeetsAlly | w1/roguelike.cpp:453-457 | The first bumped ally is healed, and the pouch is then not ready for later allies. |
| RoguelikeTurns.ReadyHealsHere | w1/roguelike.cpp:453-457 | The heal at the first ally, together with untouched later allies, is the first-ally healing. |
| RoguelikeTurns.ResolveMove | w1/roguelike.cpp:445-463 | A blocked move clears the action and keeps MovePos. An unblocked move claims the next cell. The moving actor keeps its position. Other actors keep their action, position, claimed cell and pouch. Their hitpoints may change: bumped enemies take damage and a bumped ally can be healed (see Collide). |
| RoguelikeTurns.ResolveKeepsDistinct | w1/roguelike.cpp:445-463 | Resolution only claims a cell nobody else claims, so claims stay distinct. |
| RoguelikeTurns.ResolveFrom | w1/roguelike.cpp:443-464 | The resolution loop keeps every actor's position. |
| RoguelikeTurns.ResolveFromKeepsDistinct | w1/roguelike.cpp:443-464 | The whole resolution loop keeps claims distinct. |
| RoguelikeTurns.Commit | w1/roguelike.cpp:466-469 | Every actor moves to its claimed cell and its action becomes NOP. |
| RoguelikeTurns.TickPouch | w1/roguelike.cpp:471-474 | The cooldown drops by one when positive and is otherwise kept. Amount and max are kept. |
| RoguelikeTurns.Cool | w1/roguelike.cpp:471-474 | Every pouch ticks once, and actors without a pouch are unchanged. |
| RoguelikeTurns.ProcessActions | w1/roguelike.cpp:433-475 | After the turn every action is NOP and every position equals its MovePos. |
| RoguelikeTurns.TurnKeepsActorsApart | w1/roguelike.cpp:443-469 | A turn that starts with actors on distinct cells ends with them on distinct cells. |
| RoguelikeTurns.CooldownCountdown | w1/roguelike.cpp:471-474 | After k turns a cooldown c ≥ 0 is max(c − k, 0), so it never goes below 0. |
| BehLibrary.SequenceOf | w3/behLibrary.cpp:125-134 | The result is the first non-SUCCESS child result, and no later child runs. It is SUCCESS iff all children (or none) succeed. |
| BehLibrary.SelectorOf | w3/behLibrary.cpp:139-148 | The result is the first non-FAIL child result. It is FAIL iff every child (or none) fails. |
| BehLibrary.Invert | w3/behLibrary.cpp:158-162 | SUCCESS and FAIL swap, and RUNNING stays. |
| BehLibrary.InvertInvolution | w3/behLibrary.cpp:158-162 | Not∘Not is the identity. |
| BehLibrary.InvertAll | w3/behLibrary.cpp:158-162 | Each child result is inverted. |
| BehLibrary.InvertSequence | w3/behLibrary.cpp:125-162 | Not(Sequence) equals a Selector over inverted children, and both update the same children. |
| BehLibrary.XorOf | w3/behLibrary.cpp:176-182 | Both children are always updated, and the result is never RUNNING. |
| BehLibrary.XorProperties | w3/behLibrary.cpp:176-182 | Xor is SUCCESS iff one child succeeds and the other fails. It is symmetric and unchanged by inverting both children. |
| BehLibrary.Repeat | w3/behLibrary.cpp:193-202 | Repeat is a Sequence over the n successive results. n = 0 gives SUCCESS, and n = 1 gives the child's result. |
| BehLibrary.SequenceStopsAt | w3/behLibrary.cpp:127-133 | The sequence returns the first non-SUCCESS result after exactly that many updates. |
| BehLibrary.Range | w3/behLibrary.cpp:212-215 | The scored pairs carry child indices 0..n−1. |
| BehLibrary.InsertByScore | w3/behLibrary.cpp:217 | Inserting keeps the list ordered by non-increasing score, and adds exactly that child. |
| BehLibrary.HeadDominates | w3/behLibrary.cpp:217 | The head of a score-ordered list still leads after inserting a lower-scored child. |
| BehLibrary.SortByScore | w3/behLibrary.cpp:217 | The sort is a permutation of the children, ordered by non-increasing score. |
| BehLibrary.SelectByUtility | w3/behLibrary.cpp:218-228 | Children are tried in score order until one does not fail: `tried` is a prefix of an ordering of all children by descending score. The chosen child is the last tried and scores highest among non-failing children. When every child fails, all are tried and none is entered. |
| BehLibrary.TakeChosen | w3/behLibrary.cpp:218-226 | Stopping at the first non-failing child in score order is such a pick. |
| BehLibrary.ListsEveryChild | w3/behLibrary.cpp:217 | The sorted list contains every child. |
| BehLibrary.ChosenIsBest | w3/behLibrary.cpp:218-228 | When every earlier child fails, no non-failing child outscores the one reached. Reaching the end means every child fails. |
| BehLibrary.UtilitySelector | w3/behLibrary.cpp:209-229 | Children are updated in score order until one does not fail, and `tried` lists them. The result is FAIL iff every child fails, and then every child was tried and nothing is entered. Otherwise the entered child is the last tried, gave the result, and scores highest among non-failing children. `tried` is a prefix of a score ordering of all children, so every child scoring above the entered one was tried. |
| BehLibrary.HigherScoredTried | w3/behLibrary.cpp:217-227 | When children are tried along a score ordering, every child scoring above the last one tried was tried. |
| BehLibrary.SkipIsNoPick | w3/behLibrary.cpp:217-227 | Trying only the lowest-scored child of (5, 4, 3) is not a pick, even though it is the only non-failing child. |
| BehLibrary.FlatIndex | w3/behLibrary.cpp:259-265 | A flat pair index decodes into its action row and target column. |
| BehLibrary.Flatten | w3/behLibrary.cpp:259-265 | The flattened table holds rows·width pairs. |
| BehLibrary.FlattenAt | w3/behLibrary.cpp:259-265 | Pair (i, j) sits at index i·width + j, the order the nested loops push in. |
| BehLibrary.PureUtilitySelector | w3/behLibrary.cpp:255-285 | Every (action, target) pair is scored and pairs are updated in score order, listed in `tried`, a prefix of a score ordering of all pairs; the blackboard holds the target of the last pair tried. The result is FAIL iff every pair fails. Otherwise the entered action and the blackboard's target belong to a non-failing pair of highest score. Without pairs the blackboard is untouched. |
| BehLibrary.PureOutcome | w3/behLibrary.cpp:270-285 | The selection over flattened pairs, read back as (action, target), has the properties above. |
| BehLibrary.PureTried | w3/behLibrary.cpp:270-285 | After a non-empty `tried`, the table has targets and the blackboard holds the target of the last pair tried. When every pair of a non-empty table fails, all rows·width pairs were tried. |
| BehLibrary.BestPair | w3/behLibrary.cpp:272-283 | The best non-failing flat index decodes into the best non-failing pair. |
| BehLibrary.NoPair | w3/behLibrary.cpp:285 | When every flat index fails, every pair fails. |
| BehLibrary.PatchUp | w3/behLibrary.cpp:472-482 | The result is SUCCESS iff hp ≥ threshold, and the action is then untouched. Otherwise it is RUNNING and the action becomes a self-heal. It is never FAIL. |
| RoguelikeWorld.NatToDecimal | w3/roguelike.cpp:317 | A count prints as a non-empty string of digits. |
| RoguelikeWorld.IntToDecimal | w3/roguelike.cpp:317 | `std::to_string` of an int is non-empty and contains no colon. |
| RoguelikeWorld.DecimalRoundTrip | w3/roguelike.cpp:317 | Reading the printed digits back gives the number. |
| RoguelikeWorld.IntRoundTrip | w3/roguelike.cpp:317 | Every printed int is a numeral that reads back as itself, negatives included. |
| RoguelikeWorld.FirstColon | w3/roguelike.cpp:317 | The split point is the first colon of the line. |
| RoguelikeWorld.EntryRoundTrip | w3/roguelike.cpp:317 | Every "count: msg" line reads back as exactly that count and message, whatever colons the message holds. |
| RoguelikeWorld.ColonAfterDigits | w3/roguelike.cpp:317 | The first colon of a line is the one after the number. |
| RoguelikeWorld.PushLine | w3/roguelike.cpp:316-320 | The line goes at the end, and the front is erased once the log exceeds capacity, so length ≤ capacity is kept. Below capacity the line is simply appended. |
| RoguelikeWorld.PushToLog | w3/roguelike.cpp:312-322 | The log stays within capacity, and its newest line reads back as the current turn and the message. |
| RoguelikeWorld.Newest | w3/roguelike.cpp:319-320 | The window holds min(capacity, total) lines. |
| RoguelikeWorld.NewestDropsFront | w3/roguelike.cpp:319-320 | Dropping the oldest line of an over-full history does not change the window. |
| RoguelikeWorld.LogKeepsNewest | w3/roguelike.cpp:312-322 | After any sequence of pushes the log holds exactly the newest `capacity` lines ever written, in order. |
| RoguelikeWorld.PushThenWindow | w3/roguelike.cpp:316-320 | Trimming at push time and trimming at the end give the same window. |
| RoguelikeWorld.CreateWaypointLoop | w3/roguelike.cpp:156-169 | One waypoint per point, the first returned. Point k links to k+1, and the last links back to the first iff there is more than one point. |
| RoguelikeWorld.Follow | w3/roguelike.cpp:156-169 | Following ring links always stays on a waypoint. |
| RoguelikeWorld.FollowStep | w3/roguelike.cpp:163-167 | One more switch follows the link of the current waypoint. |
| RoguelikeWorld.PatrolCycles | w3/roguelike.cpp:156-169 | A patrol from the first waypoint is at waypoint s mod n after s switches, so it visits all points and cycles. |
| RoguelikeWorld.RingStep | w3/roguelike.cpp:163-167 | The link out of waypoint s mod n leads to (s+1) mod n. |
| RoguelikeWorld.HealSelfStep | w3/roguelike.cpp:333-339 | A self-heal resets the action to NOP, adds exactly 10 hp and logs "Monster healed itself" under the turn. Any other action changes nothing. |
| RoguelikeWorld.RoundsNeeded | w3/behLibrary.cpp:476-479 | The number of 10-hp rounds is the least that reaches the threshold. |
| RoguelikeWorld.PatchUpRecovers | w3/behLibrary.cpp:472-482 | Under PatchUp and self-heal, hp rises by 10 per round until it first reaches the threshold. PatchUp reports SUCCESS exactly from then on. |
| RoguelikeWorld.Gather | w3/roguelike.cpp:406-421 | The counter rises by exactly the number of live pickups on the gatherer's cell. Those pickups die; all others stay. |
| RoguelikeWorld.GatherOnce | w3/roguelike.cpp:406-421 | A second pass on the same cell counts nothing, so no pickup is counted twice. |
| RoguelikeWorld.NoneLeft | w3/roguelike.cpp:408 | A cell without live pickups adds nothing. |

## Left out

- ECS plumbing (`ecs.query`, `defer`, `each`, `entity.insert`/`set`, the `DungeonPortals` component) is replaced by explicit parameters and results. Deferred-command ordering inside one `defer` block is taken to be the sequential order of the loops.
- Floating point. Hitpoints, damage, heal amounts and utility scores are integers, and path costs are natural numbers with `Inf` for `FLT_MAX`. `FLT_EPSILON` is modelled as a test for zero, and the descent's `FLT_MAX - 1` as `FLT_MAX`, which is the same float.
- The Euclidean `heuristic` (`sqrtf`) is an abstract parameter `h` of both A* searches. Soundness and completeness are proved for every `h`. Optimality depends on an admissible heuristic and is not claimed.
- `to_ivec2`, `floorf` and fractional query positions are out: query endpoints are whole tiles, and `get_portal_pos` is modelled only as truncated to a tile (`PortalTile`).
- Tiles are `Wall | Floor`. `dungeonUtils.h` is not part of this model.
- `size_t` and `int` widths are not modelled, except for the wrapped index in `PaddedBoxEscapesGrid`. Counters, coordinates and the `0xffffffff` initial `minDist` are unbounded integers.
- LocalSearch.FindDungeonPathAStar: the result is not proved to be a shortest path, since that needs an admissible heuristic and `h` is arbitrary. The same holds for PortalSearch.FindPortalPathAStar, and for the costs derived from them (`minDist` in PortalBuild.PortalPairCost is the smallest size among the paths the search returned, not the shortest path between the spans).
- `std::sort` is unstable. `SortByScore` proves a permutation ordered by score, so equal scores may be tried in another order than the library's.
- PortalBuild.PrebuildMap: a stored connection's cost is promised to be `0xffffffff` or the size of a path found between clipped tiles, not the minimum over all pairs. The minimum is stated per check by PortalBuild.ConnectPair, and the sizes the searches returned are not kept in the table.
- Query.ConstructPathHierarchical: when the endpoints lie in different sectors, it requires both to lie in whole sectors of the grid, because the source indexes the tables with the endpoints' sector ids unchecked. When a descent round finds no neighbour below `FLT_MAX`, the source repeats that round forever. The model reports this as `stuck` and stops, and claims nothing about the table in that case.
- Query.Hop: `stuck` is not proved unreachable. That would need the tile a hop starts from to reach the target portal inside that field's window. The model records such links only between clipped span tiles of connected portals (PortalBuild.ConnectPhase). It does not relate them to the tile where the previous descent ended, or to the scratch portals' tiles. The contract therefore speaks only of the non-stuck case.
- Query.WalkPortals: a stuck hop ends the walk early, and `stuck` is not proved unreachable, for the reason given for Query.Hop.
- Query.SearchAndWalk: the walk's end on the goal portal is promised only when not stuck, and `stuck` is not proved unreachable.
- Query.CrossSector: the path ends at `to` only when not stuck, and `stuck` is not proved unreachable.
- Query.QueryFromStart: the table is restored only when not stuck, and `stuck` is not proved unreachable.
- Query.ConstructPathHierarchical: completion and restoration of the table are promised only when not stuck, and `stuck` is not proved unreachable.
- Descent.Descend: stepping onto a tile with value 0 ends the walk, as in the source. When the first round is not stuck, later rounds always find a neighbour one lower on an exact field, so the source's stale `bestOffset` (not reset between rounds) never shows.
- Source quirks kept as written:
  - `prevConnections` is computed with `std::distance` from the start of the connection array. It is modelled as the slot index that distance yields.
  - The start scratch portal's connections persist until the next query overwrites the portal.
  - Temporary connections with `FLT_MAX` cost are pushed and their targets queued, though they never lower a g-score.
- The hop lookup's `assert(portalInSectorId != size_t(-1))` is proved to hold on the model's states. The descent's window asserts are not modelled: a tile outside the window reads `FLT_MAX`.
- The printf tracing and the flow-field dump in `construct_path_hierarchical` and the utility selectors are out: they produce output only.
- AiLibrary.Act: `turns` is an `int`. The float passed to `create_activity_state` is truncated before it reaches the state, and that conversion is not modelled.
- State machines, `Blackboard` internals, nested state machines, distance-based and hitpoint-based transitions, and the other states are out, because their collaborators are not shown. A world query is an abstract `Leaf` whose answers are given per turn.
- The cooldown utility modifier (`make_cd_pure_utility`) is out: its scores are floats fed to the selectors, which the model takes as given integers.
- `process_turn`, `is_player_acted`, NPC planning and the turn counter increment are out. They are ECS orchestration around the modelled steps.
- Removal of dead entities and the player's pickups in `w1/roguelike.cpp` are out. They act on float hitpoints and damage after the modelled resolution.
- RoguelikeWorld.Gather models one gatherer's pass over one pickup kind. With several gatherers on one cell, deferred destruction could let each count the same pickup, and that is not modelled.
- RoguelikeWorld.PatchRound: it models the self-heal of `w3/roguelike.cpp` for a monster whose tree only runs `PatchUp`. Other behaviours and damage taken between rounds are out.
- The `ActionLog` capacity default is not among the sources, so the capacity is a parameter.
- Rendering, input, window setup, randomness (spawners, wander), the shoot-'em-up steering code and the `w4` exercise are out.

## Findings

| source | as written | input that shows it | evidently intended | confidence | as-written member | corrected member |
|---|---|---|---|---|---|---|
| w7/pathfinder.cpp:151-156 | `checkNeighbour` tests only the box `[lim_min, lim_max)` before reading `dd.tiles[coord_to_idx(p.x, p.y, width)]`. `addPortalAsConn` (line 460) pads the sector box by one tile without clamping it to the grid. | A sector on the grid's left edge, box from x = −1: the tile (−1, 0) is admitted and its `size_t` index wraps past the buffer; (−1, 1) aliases tile (width − 1, 0) on the opposite edge. The same guard is reached from the same-sector query (line 426). Its box `[k·10, k·10 + 10)` passes the grid's right or bottom edge when the width or height is not a multiple of 10, e.g. width 15 and a start at x = 12 admit x = 15 and wrap into the next row. | A neighbour is admitted only when it is inside both the box and the grid. | not executed | LocalSearch.PaddedBoxEscapesGrid | LocalSearch.FindDungeonPathAStar |
