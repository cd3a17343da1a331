# Tactics-Game rules engine in Dafny

A model of the rules engine of a turn-based grid tactics game. It covers:
- the geometry helpers;
- the tile map, with its tile catalog, grid indexing, neighbours, screen conversion and named highlights;
- the A* path search `find_path` and the cost-bounded flood fill `reachable_tiles`, with the `better_tile` tie-break;
- the unit rule hierarchy, with stats, move costs, passability, stopping, attack range, damage, defense, movement and turn-end fuel bookkeeping;
- the kill-probability table of `destroy_prob`;
- the turn and combat bookkeeping of the game screen: modes, movable and attackable cells, turn end, attacks and the win check.

Modules, one file each:

| file | module | what |
|---|---|---|
| wrappers.dfy | Wrappers | `Option` (Python's `None`/`False` results) |
| helper.dfy | Helper | `clamp`, Manhattan, squared and point-to-segment distances on real points |
| pqueue.dfy | PriorityQueue | the priority queue the searches use, a class specified only by how the searches call it |
| tiles.dfy | Tiles | the tile catalog and the `TileMap` class (cells, indexing, neighbours, screen coordinates, highlight table) |
| tile_search.dfy | TileSearch | `better_tile`, walks and their costs, `reachable_tiles` |
| find_path.dfy | PathFinding | `find_path` |
| units.dfy | Units | unit kinds and their stats, and every rule over unit records and the active roster |
| roster.dfy | UnitStore | the `Roster` class: the unit records, the active group in layer order, and the unit operations that change state |
| analyze.dfy | Analyze | `destroy_prob` |
| gui.dfy | Play | turn arithmetic, crit odds, and the `Gui` class with its mode, selection, turn and winner |

Modelling choices:
- **Kinds.** Python's class hierarchy is flattened into a `Kind` datatype with one value per concrete, registered unit class (twelve of them), a derived `Domain` (ground, water, air, teleport), and functions that dispatch the way the overrides do.
- **The roster.** The class-level sprite group `BaseUnit.active_units` becomes the `Roster` class. It stores every unit record under a handle (its index) and keeps the active handles in iteration order. pygame's layered group iterates aircraft (layer 5) after everything else, so activation inserts a handle at the end of its layer. Rule queries read the active units as a sequence.
- **Positions.** Cells are `int` pairs. A unit's position is a `real` pair, because it moves in steps of 3/20. Reals are exact and probabilities are exact `real`s.
- **The search data.** Search state (queue, visited set, cost and parent maps) is local to the search methods, and lambda parameters are Dafny function values.
- **`destroy_prob`.** It is modelled as the code computes it. Entry k tests one strike with each crit modifier against the health left after k hits of the base damage; it is not a recursion over earlier outcomes.

## Model

| member | source | states |
|---|---|---|
| Helper.Clamp | a4_game/helper.py:3-18 | the result lies in [a, b] when a <= b; x comes back unchanged inside; a below the interval, b above it |
| Helper.ClampExamples | a4_game/helper.py:10-15 | the three doctests: clamp(10,0,5)=5, clamp(-7,-5,5)=-5, clamp(3,-10,10)=3 |
| Helper.ManhattanDist | a4_game/helper.py:20-33 | never negative, and 0 exactly between equal points |
| Helper.ManhattanMetric | a4_game/helper.py:20-33 | Manhattan distance is non-negative, symmetric, zero exactly for equal points, and obeys the triangle inequality |
| Helper.ManhattanOnTiles | a4_game/helper.py:20-33 | on cells the distance is the integer |dx| + |dy| |
| Helper.SquaredMetric | a4_game/helper.py:35-47 | the squared distance is non-negative, symmetric and zero from a point to itself |
| Helper.DistanceExamples | a4_game/helper.py:24-44 | the doctests of both distances: 10, 12, 16, 10 and 50, 104, 136 |
| Helper.SquaredSegmentDist | a4_game/helper.py:49-87 | the squared distance from a point to a segment is never negative |
| Helper.DegenerateSegment | a4_game/helper.py:73-75 | for a segment a..a the result is the squared distance to a |
| Helper.MinimumBeforeStart | a4_game/helper.py:79-81 | when the projection falls before a, a is at least as close as any point of the segment |
| Helper.MinimumBeyondEnd | a4_game/helper.py:79-82 | when the projection falls beyond b, b is at least as close as any point of the segment |
| Helper.SegmentDistWithin | a4_game/helper.py:83-87 | when the projection lies in [0, 1] the result is the distance to the projected point |
| Helper.SegmentDistIsMinimum | a4_game/helper.py:49-87 | the result is no larger than the squared distance to any point of the segment |
| Helper.SegmentDistAttained | a4_game/helper.py:49-87 | the result is the squared distance to some point of the segment, so it is the minimum |
| Helper.PointOnSegment | a4_game/helper.py:60-62 | a point of the segment has distance 0 from it |
| Helper.SegmentExamples | a4_game/helper.py:56-71 | the four doctests, including the before-start and beyond-end cases |
| Tiles.CatalogShape | tiles.py:15-23 | the catalog holds ids 0 to 6, each entry names its own sprite, and each terrain has one entry |
| Tiles.TileMap.constructor | tiles.py:33-54 | a map has the given tile and grid sizes, cell ids and offset, and an empty highlight table; the grid and ids stand in for the loaded image |
| Tiles.TileMap.TileExists | tiles.py:79-96 | a cell exists only on a map with at least one row and one column |
| Tiles.TileMap.TilePosition | tiles.py:67-77 | the cell's x lies in [0, width) and y * width + x gives back the index; an index of the cell list lands on a row of the map |
| Tiles.TileMap.TileIndex | tiles.py:98-113 | -1 exactly for a cell off the map, else an index into the cell list |
| Tiles.TileMap.IndexPositionRoundTrip | tiles.py:67-113 | `_tile_position(_tile_index(c)) == c` for every cell of the map |
| Tiles.TileMap.PositionIndexRoundTrip | tiles.py:67-113 | every list index names a cell of the map, and indexing that cell gives it back |
| Tiles.TileMap.TileData | tiles.py:255-271 | a catalog entry exactly for cells on the map (None, Python's False, off it); the entry is the catalog's for the id stored at a list index whose position is the cell |
| Tiles.TileMap.TileDataOfIndex | tiles.py:255-271 | the cell at each list index reads the catalog entry of the id stored there |
| Tiles.TileMap.Neighbours | tiles.py:273-298 | the neighbours are the candidates up, right, left and down that lie on the map |
| Tiles.TileMap.NeighboursAdjacent | tiles.py:287-298 | n is a neighbour of c exactly when it is on the map and one grid step from c |
| Tiles.TileMap.NeighboursInOrder | tiles.py:289-298 | the neighbours come in the order up, right, left, down |
| Tiles.TileMap.ExistingKeepsOrder | tiles.py:298 | filtering out cells off the map keeps the others in order |
| Tiles.TileMap.ExistingAll | tiles.py:298 | filtering cells that all lie on the map keeps the list whole |
| Tiles.TileMap.TileCoords | tiles.py:224-238 | the screen point lies in the tile-sized box whose corner is left + x * width, top + y * height of the cell returned |
| Tiles.TileMap.ScreenCoords | tiles.py:240-253 | on a valid map `tile_coords` takes the screen point back to the cell |
| Tiles.TileMap.ScreenTileRoundTrip | tiles.py:224-253 | `tile_coords(screen_coords(t)) == t` |
| Tiles.TileMap.TileScreenBox | tiles.py:224-253 | a screen point lies in the tile-sized box at the corner of the cell it falls into |
| Tiles.TileMap.SetHighlight | tiles.py:300-306 | the entry is stored under its name; every other entry is kept |
| Tiles.TileMap.RemoveHighlight | tiles.py:308-314 | the named entry is removed; an absent name changes nothing |
| Tiles.TileMap.ClearHighlights | tiles.py:316-320 | the table is empty |
| Tiles.CoordinateExamples | tiles.py:72-106 | the doctests of `_tile_position`, `_tile_exists` and `_tile_index` on the 5 by 5 map, and those of `tile_coords`/`screen_coords` |
| Tiles.TileDataExamples | tiles.py:259-264 | `tile_data((0,0))` is plains and `tile_data((1,1))` is forest on the test map |
| Tiles.CornerNeighbourExample | tiles.py:280-281 | `neighbours((0,0)) == [(1,0), (0,1)]` |
| Tiles.FarCornerNeighbourExample | tiles.py:282-283 | `neighbours((4,4)) == [(4,3), (3,4)]` |
| Tiles.InnerNeighbourExample | tiles.py:284-285 | `neighbours((1,1))` is all four candidates in order |
| PriorityQueue.PQueue.constructor | tiles.py:458 | a new queue is empty and has no tie-breaker |
| PriorityQueue.PQueue.Update | tiles.py:572 | returns true exactly when it inserts the item or lowers its priority, and then stores the new priority; otherwise nothing changes |
| PriorityQueue.PQueue.PopSmallest | tiles.py:473 | removes and returns an item of least priority with that priority; no equal-priority item the tie-breaker prefers is left behind |
| PriorityQueue.MinimalExists | tiles.py:470-473 | a non-empty queue under a strict tie order always has an item that may leave first |
| PriorityQueue.BeforeTransitive | tiles.py:471-473 | the leaving order (priority, then tie-breaker) is transitive |
| TileSearch.BetterTile | tiles.py:365-412 | a tile strictly closer to the segment from start to end is better, and a better tile is never farther from it |
| TileSearch.BetterTileIsLexicographic | tiles.py:393-412 | `better_tile` is exactly the strict lexicographic order on (segment distance, y, x) |
| TileSearch.BetterTileStrictTotal | tiles.py:365-412 | never true of a tile against itself; for distinct tiles exactly one direction holds; transitive |
| TileSearch.TieBreakerStrict | tiles.py:471 | the tie-breaker installed on the queue is a strict order on any set of cells |
| TileSearch.BetterTileOnLine | tiles.py:375-377 | doctest: `better_tile((1,1), (1,2), (0,0), (3,3))` is True, since (1,1) lies on the line |
| TileSearch.BetterTileCloser | tiles.py:379-381 | doctest: `better_tile((1,1), (1,4), (0,3), (3,3))` is False, since (1,4) lies closer to the line |
| TileSearch.BetterTileLowerY | tiles.py:383-386 | doctest: `better_tile((0,1), (1,0), (0,0), (3,3))` is False: at equal distance the lower y wins |
| TileSearch.BetterTileLowerX | tiles.py:388-391 | doctest: `better_tile((3,1), (5,1), (4,0), (4,4))` is True: at equal distance and y the lower x wins |
| TileSearch.WalkCostAppend | tiles.py:520-522 | extending a walk adds the cost of leaving its last cell |
| TileSearch.ReachableWithinMonotone | tiles.py:520-522 | a larger budget reaches at least every cell a smaller one reaches |
| TileSearch.WalkReaches | tiles.py:554-573 | once the queue is empty, every walk from start within budget ends at a settled cell, settled no dearer than the walk |
| TileSearch.ReachFinal | tiles.py:554-575 | on an empty queue the bookkeeping yields the promised set (see ReachableTiles) |
| TileSearch.Expand | tiles.py:562-573 | the neighbour loop offers each passable unsettled neighbour the cost through the current cell and keeps the search invariants |
| TileSearch.ReachableTiles | tiles.py:514-575 | start is included; every other member is a passable map cell ending a walk from start within budget; with non-negative costs every such cell is included |
| TileSearch.ReachableTilesMonotone | tiles.py:514-575 | a result for a larger budget includes a result for a smaller one (soundness of the smaller, completeness of the larger, which ReachableTiles gives for non-negative costs) |
| PathFinding.Reverse | tiles.py:510 | the reversal lists the cells back to front |
| PathFinding.BuildPath | tiles.py:504-512 | following parents from end back to start and reversing gives a walk from start to end that costs exactly the g recorded for end; just [start] when they are equal |
| PathFinding.ManhattanConsistent | tiles.py:419-426 | with costs of at least 1 the default heuristic `manhattan_dist` never drops by more than the cost of a step, so it is consistent (and costs are non-negative) |
| PathFinding.CheapestIsShortest | tiles.py:417-426 | with the default unit cost a cheapest walk has the fewest cells of any walk from start to end |
| PathFinding.Frontier | tiles.py:470-498 | under a consistent heuristic a walk from start to an unvisited cell z leaves some queued cell whose priority is at most the walk's cost plus z's estimate |
| PathFinding.OptimalPop | tiles.py:470-474 | under a consistent heuristic the queued cell of least priority, once popped, has a g no larger than the cost of any walk from start to it |
| PathFinding.RelaxAdd | tiles.py:483-489 | queuing the new neighbour n with g = g(cur) + cost(cur), h = heuristic(n, end), priority g + h and parent cur keeps the search bookkeeping for one more neighbour |
| PathFinding.RelaxLower | tiles.py:490-498 | giving the queued neighbour n the lower g = g(cur) + cost(cur), its own h, priority g + h and parent cur keeps the bookkeeping for one more neighbour |
| PathFinding.Discover | tiles.py:483-489 | the queue's update for a new neighbour, with its cost and parent as RelaxAdd sets them, keeps the bookkeeping for one more neighbour |
| PathFinding.Improve | tiles.py:490-498 | the queue's update for a neighbour reached more cheaply, with its cost and parent as RelaxLower sets them, keeps the bookkeeping for one more neighbour |
| PathFinding.Relax | tiles.py:477-498 | each of the four branches (visited or impassable, new, cheaper, not cheaper) keeps the search bookkeeping: parent links back to start, parent chains whose costs add up, priorities g + h, visited cells at their cheapest, and the queue bounding the visited region |
| PathFinding.Explore | tiles.py:476-498 | the neighbour loop queues each passable unvisited neighbour with the current cell as its parent and keeps the search invariants |
| PathFinding.SearchStep | tiles.py:470-498 | one round of the loop keeps the invariants and visits one more cell |
| PathFinding.WalkStaysVisited | tiles.py:470-502 | when the queue runs dry, every walk from start ends at a visited cell |
| PathFinding.NoWalk | tiles.py:500-502 | when the search ends without visiting end, no walk leads from start to end |
| PathFinding.FindPath | tiles.py:414-512 | [] exactly when end cannot be reached; otherwise a walk from start to end through grid neighbours, each cell after start on the map and passable; [start] when start == end; under a consistent heuristic (the Manhattan one with costs of at least 1, see ManhattanConsistent) no walk from start to end costs less; with unit costs no walk is shorter |
| Units.RegistryRoundTrip | unit/water_warper.py:73 | the registry maps each kind's key back to the kind; the key is the type string except for the super jeep and the water warper |
| Units.RegistryKeys | unit/tank.py:72 | every registry key is the registry name of the kind it maps to |
| Units.TypeName | unit/base_unit.py:52 | every kind has a non-empty type name |
| Units.TypeNamesDistinct | unit/superjeep.py:27 | different kinds carry different type names; the super jeep's is not the jeep's |
| Units.Speed | unit/base_unit.py:48 | every speed is positive |
| Units.MaxAtkRange | unit/artillery.py:37-42 | every attack range is at least 1, and artillery's reaches beyond its minimum range of 3 |
| Units.Damage | unit/base_unit.py:50 | every base damage is positive |
| Units.BonusDamage | unit/anti_air.py:39 | never negative; positive exactly for the anti-air, anti-armour, fighter, bomber, warper and water warper |
| Units.BaseDefense | unit/base_unit.py:51 | every base defense lies between 0 and 4 |
| Units.MaxFuel | unit/air_unit.py:32-38 | an aircraft carries more than one turn of fuel |
| Units.MinMoveDistance | unit/warper.py:40 | the minimum move of an aircraft or teleporter is positive and within its speed |
| Units.MoveCosts | unit/anti_air.py:43-46 | every table entry is at least 1, and no table prices water or wall |
| Units.SuperJeepIsFastJeep | unit/superjeep.py:22-28 | the super jeep has speed 100 and otherwise the jeep's range, damage, defense, costs and domain |
| Units.MoveCost | unit/base_unit.py:305-318 | the table entry of the tile's terrain, 1 for a terrain not in the table; never below 1 |
| Units.ConstantRate | unit/base_unit.py:314-315 | kinds without a table (tank, ships, aircraft, warpers) pay 1 everywhere |
| Units.UntabledTerrain | unit/jeep.py:42-46 | water and wall are in no table, so they cost 1 for every kind |
| Units.NewUnit | unit/base_unit.py:22-68 | a new unit is inactive, at rest, unmoved, at full health 15; an aircraft starts with full fuel |
| Units.UnitTile | unit/base_unit.py:120-125 | the cell read lies within 1 of the unit's position on each axis |
| Units.UnitTileAtRest | unit/base_unit.py:120-125 | a unit standing on a cell reads that cell as its tile |
| Units.UnitAt | unit/base_unit.py:70-80 | None exactly when no active unit stands on pos; otherwise the first one in roster order that does |
| Units.GetUnitAtPos | unit/base_unit.py:70-80 | the source's scan returns UnitAt |
| Units.IsDocked | unit/air_unit.py:90-103 | a carrier of the aircraft's team standing on p docks it; docking needs a carrier of its team |
| Units.FindCarrier | unit/air_unit.py:90-103 | true exactly when an active carrier of the aircraft's team lies within Manhattan distance 1 of p |
| Units.IsPassable | a4_game/unit/ground_unit.py:20-37 | a passable tile exists and has a terrain the kind may cross, and no enemy of the kind's blocking domain stands on it |
| Units.PassabilityTable | a4_game/unit/ground_unit.py:20-37 | a tile is passable exactly when it exists, its terrain is one the kind may cross, and the first unit on it is no enemy of the kind's blocking domain |
| Units.PassableFlagIgnored | tiles.py:21 | the catalog's `passable` flag never matters: a mountain is no less passable than its flag says |
| Units.OnlyEnemiesOfTheDomainBlock | a4_game/unit/ground_unit.py:29-31 | a friendly unit, or an enemy of another domain, never blocks |
| Units.IsStoppable | unit/base_unit.py:333-345 | a stoppable cell has no active unit on it and is passable; a teleporter stops only at least its minimum move away |
| Units.StoppableRule | unit/base_unit.py:333-345 | stopping is allowed exactly when no active unit stands on pos, pos is passable, and the domain's distance rule holds (teleporters: far enough; aircraft: far enough or docked) |
| Units.NotOnItself | unit/base_unit.py:333-345 | an active unit never stops on its own tile |
| Units.WarperJumpsFar | unit/warper.py:40 | a warper only stops 8 or more tiles from where it stands |
| Units.CatalogCover | unit/base_unit.py:421-429 | no tile of the catalog lowers a unit's defense, and none changes an aircraft's |
| Units.CanHit | unit/base_unit.py:412-419 | every kind can hit a ship; an aircraft can be hit exactly by jeeps, super jeeps, anti-air, battleships, carriers, fighters and warpers |
| Units.GetDamage | unit/base_unit.py:393-410 | no damage against a target the attacker cannot hit |
| Units.DamageFormula | unit/base_unit.py:393-410 | every damage rule is max(0, strength against that target - target defense), and 0 when the attacker cannot hit (or a bomber meets a warper) |
| Units.PlainFormula | unit/base_unit.py:404-410 | the kinds without a damage override use their base damage |
| Units.SpecialistFormula | a4_game/unit/bomber.py:50-87 | the anti-air, fighter and bomber strengths depend on the target's domain |
| Units.ArmourNames | a4_game/unit/anti_armour.py:70 | only the tank and the battleship carry the armour type names that trigger the anti-armour bonus |
| Units.CoverHelps | unit/base_unit.py:421-429 | a higher defense bonus on the target's tile never increases the damage |
| Units.AircraftIgnoreCover | unit/air_unit.py:126-135 | the tile never changes the damage an aircraft takes |
| Units.InRange | unit/base_unit.py:454-467 | a cell in range lies within the attack range plus any positive range bonus of the tile; for artillery at least 3 away |
| Units.InRangeSymmetric | unit/base_unit.py:454-467 | from the same tile, q is in range of p exactly when p is in range of q |
| Units.PositionsInRange | unit/base_unit.py:347-368 | the nested scan returns the box of cells in range around the attacker |
| Units.ScanAround | unit/base_unit.py:361-366 | the scan of the box around a point, its bounds truncated as `int` does, keeps exactly the box's cells that pass the test |
| Units.ScanBox | unit/base_unit.py:361-366 | the row-by-row scan of a rectangle keeps exactly the cells that pass the test |
| Units.ScannedMembers | unit/base_unit.py:361-366 | a cell is scanned exactly when it is in the rectangle and passes the test |
| Units.RangeBoxExact | unit/base_unit.py:347-368 | a cell is in `positions_in_range` exactly when `is_tile_in_range` accepts it |
| Units.ArtilleryBlindSpot | unit/artillery.py:79-95 | artillery lists no cell closer than 3, its own tile included |
| Units.IsAttackable | unit/base_unit.py:370-391 | an attackable cell is in range and holds an enemy that the attack damages |
| Units.AttackableMeansDamage | unit/base_unit.py:370-391 | an attackable cell holds an enemy that the attack damages |
| Units.NarrowAttackers | a4_game/unit/bomber.py:89-100 | bombers only attack ground and water units, and water warpers only ships |
| Units.FaceAngle | unit/base_unit.py:178-228 | a nonzero vector is faced at one of the four cardinal angles |
| Units.FacesClosestCardinal | unit/base_unit.py:210-228 | a nonzero vector is faced along the dominant axis, which is the cardinal heading closest to it |
| Units.ZeroVectorKeepsAngle | unit/base_unit.py:212-214 | the zero vector leaves the angle alone |
| Units.FaceAngleExamples | unit/base_unit.py:184-208 | the six doctests: 0, 180, 270, 90, 0, 180 |
| Units.SetPathHeadsOn | unit/base_unit.py:267-281 | given a path from the unit's cell that then steps off it, the unit stays put, starts moving and heads for the path's second cell |
| Units.Advance | unit/base_unit.py:230-265 | a unit at rest is unchanged; otherwise only position, path, angle and moving change, and the path never grows |
| Units.AdvanceShape | unit/base_unit.py:230-265 | one update steps toward the next waypoint and changes nothing but position, path and angle |
| Units.StepTowardBounds | unit/base_unit.py:250-264 | a step moves at most 3/20 per axis, never overshoots, lands once within reach, and otherwise strictly shortens the distance |
| Units.AdvanceSteps | unit/base_unit.py:230-265 | the same bounds for a unit's update, with the waypoint kept at the head of the path |
| Units.AdvanceAtEnd | unit/base_unit.py:236-244 | with no waypoint left the unit stays put, and once the path is empty it stops moving |
| Units.Teleported | unit/teleport_unit.py:41-70 | a teleporter keeps only its last waypoint, drops it when standing on it, and otherwise jumps onto it |
| Units.TeleportArrives | unit/teleport_unit.py:41-70 | given a path, a teleporter is on its end within two updates and stops on the third |
| Units.CanTurnEnd | unit/air_unit.py:144-154 | a unit that is not an aircraft, or that has moved, may always end its turn |
| Units.CheckTurnEnd | unit/air_unit.py:144-154 | an aircraft that has not moved may end the turn only when docked where it stands; every other unit may |
| UnitStore.LayerEnd | unit/air_unit.py:105-111 | the place where a new member of a layer goes: after every member of its own or a lower layer |
| UnitStore.Hurted | unit/base_unit.py:292-303 | hurting keeps the roster invariant |
| UnitStore.HurtedRule | unit/base_unit.py:292-303 | health drops by exactly d, nothing else about the unit changes but its flag, and it stays active exactly when it was and its health is still positive |
| UnitStore.Rested | unit/base_unit.py:446-452 | the turn state is cleared and nothing else changes |
| UnitStore.EnlistedLayered | unit/air_unit.py:105-111 | inserting at the end of its layer keeps the active group in layer order |
| UnitStore.Activated | unit/base_unit.py:162-168 | the store keeps its size, and the unit ends flagged active and in the group |
| UnitStore.ReactivatedOrder | unit/air_unit.py:105-111 | activating an aircraft that is already active moves it to the back of the group, since `change_layer` runs anyway; the others keep their order |
| UnitStore.Deactivated | unit/base_unit.py:170-176 | the store keeps its size, and the unit ends unflagged and out of the group |
| UnitStore.ActivatedKeeps | unit/base_unit.py:162-168 | activation keeps the invariant: distinct handles, in layer order, exactly the flagged units |
| UnitStore.DeactivatedKeeps | unit/base_unit.py:170-176 | deactivation keeps the invariant |
| UnitStore.ActivationIdempotent | unit/base_unit.py:162-176 | activating twice is activating once, and likewise for deactivating, including an aircraft's second trip to the back of its layer |
| UnitStore.ActivatedMembers | unit/base_unit.py:162-168 | after activation the unit is flagged and in the group; no other unit changes |
| UnitStore.ActivatedOrder | unit/air_unit.py:105-111 | an inactive aircraft joins at the back; any other inactive unit joins right behind the last non-aircraft |
| UnitStore.DeactivatedMembers | unit/base_unit.py:170-176 | after deactivation the unit is unflagged and out of the group; no other unit changes |
| UnitStore.AirTurnEnd | unit/air_unit.py:156-176 | the aircraft's turn-end bookkeeping keeps the roster invariant |
| UnitStore.AirTurnEndRule | unit/air_unit.py:161-176 | docked: refuelled to the maximum and alive; undocked: one unit of fuel burnt, alive exactly when fuel remains, and a lost aircraft has taken its maximum health in damage and, from full health or less, has left the group |
| UnitStore.TurnEndedState | unit/base_unit.py:446-452 | the whole `turn_ended` keeps the roster invariant |
| UnitStore.TurnEndedRule | unit/base_unit.py:446-452 | the turn state is clear, team and kind are kept, no other unit changes; a unit that is not an aircraft is rested, alive, and nothing else changes |
| UnitStore.HandleAt | unit/base_unit.py:70-80 | the handle found is an active one |
| UnitStore.HandleAtAgrees | unit/base_unit.py:70-80 | the handle found is that of the unit `get_unit_at_pos` returns, and there is none exactly when it returns None |
| UnitStore.HandleAtSamePositions | unit/base_unit.py:70-80 | the lookup reads only positions |
| UnitStore.Roster.constructor | unit/base_unit.py:18 | the group starts empty |
| UnitStore.Roster.Create | unit/base_unit.py:22-68 | the new unit's record is appended under a fresh handle, and activated when asked |
| UnitStore.Roster.Activate | unit/base_unit.py:162-168 | the roster becomes the activated state |
| UnitStore.Roster.Deactivate | unit/base_unit.py:170-176 | the roster becomes the deactivated state |
| UnitStore.Roster.Hurt | unit/base_unit.py:292-303 | the roster becomes the hurt state |
| UnitStore.Roster.FaceVector | unit/base_unit.py:178-228 | only the unit's angle changes, to the face angle of the vector |
| UnitStore.Roster.SetPath | unit/base_unit.py:267-281 | only the unit's record changes: an empty path is ignored, otherwise the path's start is dropped and the unit moves |
| UnitStore.Roster.SetFuel | unit/air_unit.py:137-142 | only the unit's fuel changes |
| UnitStore.Roster.UnitAtPos | unit/base_unit.py:70-80 | the scan returns the handle HandleAt names |
| UnitStore.Roster.MarkMoved | a4_game/gui.py:546 | only the unit's moved flag changes, to true |
| UnitStore.Roster.MarkAttacked | a4_game/gui.py:488 | only the unit's attacked flag changes, to true |
| UnitStore.Roster.Update | unit/base_unit.py:230-265 | a teleporter's record becomes Teleported, every other unit's Advance; nothing else changes |
| UnitStore.Roster.AirTurnEnded | unit/air_unit.py:156-176 | the roster and result are AirTurnEnd's |
| UnitStore.Roster.TurnEnded | unit/base_unit.py:446-452 | the roster and result are TurnEndedState's |
| UnitStore.WalkStep | unit/base_unit.py:230-265 | the source's statements compute Advance |
| UnitStore.TeleportStep | unit/teleport_unit.py:41-70 | the source's pops and jump compute Teleported |
| Analyze.KillWeight | analyze.py:9-12 | with non-negative weights the summed chance is non-negative, and it is 0 when no modifier reaches the health |
| Analyze.KillWeightSteps | analyze.py:3-12 | the kill chance as a step function of hp - d: 1, 0.8, 0.3, 0.1 and then 0 |
| Analyze.KillWeightIsProbability | analyze.py:3-12 | every chance lies in [0, 1], and is 1 when even the -1 modifier kills |
| Analyze.KillWeightAntitone | analyze.py:9-12 | less health never lowers the chance |
| Analyze.KillChance | analyze.py:9-12 | the inner loop sums the weights of the killing modifiers |
| Analyze.DestroyProb | analyze.py:1-19 | turns + 1 entries (none for negative turns); entry k is the chance against the health left after k hits |
| Analyze.TurnChance | analyze.py:8-15 | each turn's chance is a probability |
| Analyze.ChanceGrows | analyze.py:14 | with non-negative damage the chances never fall from one turn to the next |
| Analyze.EventuallyCertain | analyze.py:8-15 | with positive damage the chance on turn k is 1 once k + 1 hits would leave the defender below 0 even with the -1 modifier |
| Analyze.CertainFrom | analyze.py:8-15 | with positive damage every turn from hp / d on has chance 1, so the table ends in certainty |
| Analyze.NoDamageNoProgress | analyze.py:10-14 | without damage every entry is equal, and 0 above 2 health |
| Analyze.ChancesAreProbabilities | analyze.py:8-15 | every entry of the table is a probability |
| Play.CurTeam | a4_game/gui.py:280-285 | the current team is a team number |
| Play.CurDay | a4_game/gui.py:287-292 | days count from 1 |
| Play.TurnNumbering | a4_game/gui.py:280-292 | (day - 1) * teams + team is the turn |
| Play.NextTurn | a4_game/gui.py:280-292 | the next turn goes to the next team, and a new day starts exactly after the last team |
| Play.StrikeDamage | a4_game/gui.py:500-504 | the strike is the damage plus the modifier, floored at 0 |
| Play.CritFrequencies | a4_game/gui.py:502 | each modifier's share of the ten choices is its weight in the table of analyze.py |
| Play.KillOddsMatch | a4_game/gui.py:500-507 | for a living target the analyser's chance is the share of the ten choices whose strike kills |
| Play.KillsSteps | a4_game/gui.py:502-504 | the kills counted by modifier, each lethal exactly when the modifier makes up the health the damage leaves |
| Play.CostFor | a4_game/gui.py:119-120 | the cost on a map cell is the unit's move cost for that cell's tile, and every cost is at least 1 |
| Play.CostsNonNegative | a4_game/gui.py:119-120 | the cost lambda is never negative, so the flood fill is complete |
| Play.Movable | a4_game/gui.py:115-137 | a movable cell is free of active units and passable for the unit |
| Play.MovableCellsPassable | a4_game/gui.py:115-137 | a movable cell other than the unit's own is on the map and passable for it |
| Play.StoppableAmong | a4_game/gui.py:132-137 | the loop keeps exactly the reachable cells the unit can stop on |
| Play.AttackableAmong | a4_game/gui.py:168-175 | the loop keeps exactly the cells in range that `is_attackable` accepts |
| Play.RangeBonusesNonNegative | tiles.py:15-23 | no catalog tile lowers the attack range |
| Play.TargetsExact | a4_game/gui.py:164-175 | the box scanned holds every attackable cell, so the attackable set is exactly what `is_attackable` accepts |
| Play.FirstBlocker | a4_game/gui.py:193-201 | a blocker found is a unit of the team that cannot end its turn; none is found exactly when there is none |
| Play.FirstBlockerIsFirst | a4_game/gui.py:193-201 | the blocker found is the first in roster order: no unit before it blocks |
| Play.FindBlocker | a4_game/gui.py:193-201 | the loop finds the first blocker in roster order |
| Play.EndTurns | a4_game/gui.py:210-215 | ending the turns keeps the roster invariant and the store's size |
| Play.EndTurnsRule | a4_game/gui.py:210-215 | every unit of the team ends its turn with its turn state clear and its team kept, non-aircraft are rested, every other unit is unchanged |
| Play.EndTurnsOf | a4_game/gui.py:210-215 | the loop over the snapshot computes EndTurns |
| Play.AllOnTeam | a4_game/gui.py:530-532 | true exactly when every active unit is on the team |
| Play.Striking | a4_game/gui.py:487-493 | the attacker's bookkeeping keeps the roster invariant |
| Play.StrikingKeepsPositions | a4_game/gui.py:487-497 | marking and turning the attacker moves nobody and changes no health, so the target is found as before |
| Play.Strike | a4_game/gui.py:487-507 | the attacker is marked and faces pos; the first unit on pos takes the strike, and stays active exactly when its health exceeds the strike |
| Play.Dispatch | a4_game/gui.py:545-568 | the unit is marked as moved and, when the target can be reached, sent along a cheapest walk to it for its kind's move costs; nobody else changes |
| Play.Gui.constructor | a4_game/gui.py:250-269 | turn 0, no winner, nothing selected, select mode, nothing movable or attackable |
| Play.Gui.CanMove | a4_game/gui.py:81-89 | the move button is enabled exactly when a unit is selected that has not moved this turn |
| Play.Gui.CanAttack | a4_game/gui.py:91-99 | the attack button is enabled exactly when a unit is selected that has not attacked this turn |
| Play.Gui.ChangeMode | a4_game/gui.py:294-313 | the same mode changes nothing; leaving a choosing mode drops its cells and its highlight and keeps everything else |
| Play.Gui.Deselect | a4_game/gui.py:294-313 | back in select mode, with no cells and no move or attack highlight |
| Play.Gui.MovePressed | a4_game/gui.py:101-144 | pressed while choosing a move: back to select; no unit or already moved: nothing changes; otherwise the movable cells are exactly those reachable within its speed that it can stop on, and they are highlighted |
| Play.Gui.ShowMoves | a4_game/gui.py:115-144 | the movable cells and their highlight, as above |
| Play.Gui.AttackPressed | a4_game/gui.py:146-185 | pressed while choosing an attack: back to select; no unit or already attacked: nothing changes; otherwise the attackable cells are exactly those of the scanned box with an enemy it damages, and the whole box is highlighted |
| Play.Gui.ShowTargets | a4_game/gui.py:160-185 | the attackable cells and the highlight, as above |
| Play.Gui.EndTurnPressed | a4_game/gui.py:187-218 | either way the mode is back to select with no cells or highlights shown; with a unit of the team that cannot end its turn, the first one in roster order is selected and the turn and every unit stay as they were; otherwise every unit of the team ends its turn, nothing is selected and the turn advances by one |
| Play.Gui.PassTurn | a4_game/gui.py:203-218 | the turn ends for the team's units, nothing is selected, and the turn advances |
| Play.Gui.SelUnitAttack | a4_game/gui.py:480-536 | the attacker is marked and faces the target; the unit first found on the target cell takes max(0, damage + modifier) and dies exactly when that leaves it no health; when it dies and only the attacker's team remains active, that team wins and the mode is game over, otherwise the mode is back to select and the winner is unchanged |
| Play.Gui.CheckWin | a4_game/gui.py:518-536 | the team wins exactly when the target is gone and every active unit is on the team |
| Play.Gui.SelUnitMove | a4_game/gui.py:538-568 | moving mode; the unit is marked as moved and, when the target can be reached, sent along a cheapest walk to it for its kind's move costs; nobody else changes |

## Left out

- Rendering is not modelled: tile and unit images, the highlight colour wave, the grid, the info bar, buttons, the reticle, fonts, animations and effects. These are drawing only.
- Sounds and death or hit effects in `end_turn_pressed` and `sel_unit_attack` are not modelled. They are output only.
- Loading a map image (`load_from_file`) and parsing a level file (`load_level`) are not modelled. The map constructor takes the tile ids, and the roster's Create takes unit records.
- `on_click`, `get_unit_at_screen_pos`, `update_unit_rect` and the main loop are the mouse dispatch onto the operations modelled here. They are not modelled.
- The game screen's `update` is not modelled. It advances every unit (Roster.Update models one unit's step) and goes back to select mode once the selected unit stops.
- The single-instance guard of the screen's constructor is not modelled.
- `random.choice` is not modelled. The crit modifier is a parameter of SelUnitAttack, required to be one of the ten choices.
- Floating point is not modelled. Reals are exact, so the float drift of 3/20 steps, 1.5 costs and probability sums is not captured.
- The internals of the priority queue module are not part of this model. Only the behaviour the searches rely on is specified.
- TileSearch.BetterTile, TileSearch.BetterTileIsLexicographic: compare exact segment distances; the source first rounds them to 3 decimals, which can only merge near-ties.
- PathFinding.Discover, PathFinding.Improve: their contracts state the bookkeeping after the update, not the updated cost, parent and priority maps themselves. Those maps are the ones in the ensures of the lemmas they call (RelaxAdd, RelaxLower); stating them again on the methods made the proofs too costly.
- Play.Gui.SelUnitAttack: requires a unit on the target cell, and Play.Gui.AttackPressed requires the selected unit to stand on the map. The source fails at run time otherwise.
- Play.Gui.constructor: requires at least one team. With zero teams the source's `cur_team` divides by zero.
- Play.CostFor: gives cost 1 off the map, where the source would fail. The searches never ask for the cost of a cell off the map.
- Units.UnitTile: reads a unit's cell by truncating its coordinates, as `_tile_index` does. The operations that use it run when the unit is at rest on whole coordinates (Units.UnitTileAtRest).
- Angles are kept as numbers; `set_angle`'s image rotation is not modelled.
- Twelve unit kinds are modelled, one per registered class. The domain base classes are not registered and have no attack range, so they are not kinds.
- Analyze.DestroyProb: takes the defender by value. The source only changes a local copy of its health, so the defender is never changed.
