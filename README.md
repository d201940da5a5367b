# Gold-trail pathfinding, modelled in Dafny

A knight stands on a grid of tiles (grass, sand or impassable) and has to
collect coins. The system links each tile to its four side neighbours. It
finds single-pair least-cost paths with Dijkstra's algorithm over a table of
travel costs between positions. It then plans the closed tour that starts
at the knight, collects every reachable coin and comes back, at least total
cost. The tour planner is the Held–Karp subset dynamic program over bit masks.

The model has one Dafny module per part of the engine:

- `Tiles` (Tile.java): the tile class and its identity value `Cell`
  (column, row, type).
- `GameMap` (Map.java): the tile grid, filling it, and building the
  four-neighbour adjacency lists. It also has the knight/coin lookups and a
  value snapshot of the adjacency as the search graph.
- `Routes`: the travel-cost table, how a record is loaded into it, and the
  cost lookup. It defines permitted moves, walks, routes and path cost, with
  their join lemmas.
- `PathFinder` (PathFinder.java): `algorithm` (the search loop, then the
  backward walk over predecessor links) and `findTotalCost`.
- `Bits`: `1 << k` and the mask tests and updates, as arithmetic on `nat`.
- `ShortestRoute` (ShortestRoute.java): `findShortestTour`, in the same
  stages as the code. These are the reachability filter, the pairwise cost
  matrix and path cache, the `dp`/`parent` table fill, choosing the last
  objective, reading the visiting order back, and stitching the cached paths.

Costs are reals. `Double.POSITIVE_INFINITY` in the cost matrix and the table
is the `Inf` case of `Ext`. The string keys of the cost table and the path
cache are tuples.

Where the description of the system and the code differ, the model follows
the code:

- When the start equals the objective, `algorithm` stops at the first poll,
  records no predecessor and returns an empty path, not a one-tile path. So a
  coin on the knight's own tile counts as unreachable and is left out of the
  tour.
- Tile types are 0 (grass), 1 (sand) and 2 (impassable), as the code tests
  them. The field comment in Tile.java says 1/2/3.
- Duplicate coins are not rejected. Two objectives on the same tile get an
  infinite matrix entry between them, because the search returns an empty
  path for equal tiles. So the optimality guarantee of `FindShortestTour` is
  stated for distinct tiles.

## Model

| member | source | states |
|---|---|---|
| Tiles.Tile.constructor | code/Tile.java:18-34 | column, row and type are stored unchanged; the adjacency list starts empty and the tile unmarked |
| Tiles.IsEqualIsIdentity | code/Tile.java:65-67 | `isEqual` holds exactly when the identity values (column, row, type) agree; it is reflexive, symmetric and transitive |
| Tiles.Tile.AddAdjacentTile | code/Tile.java:73-75 | the list becomes the old list with exactly the given tile appended; only the list may change |
| Tiles.Tile.SetMarked | code/Tile.java:89-99 | afterwards `isMarked()` returns the argument; only the flag may change (position and type are constants, the list is outside the frame) |
| Routes.LoadTable | code/PathFinder.java:25-34 | the table read from the records has as keys exactly both directions of every record's pair of positions |
| Routes.LoadTableLookup | code/PathFinder.java:25-42 | `costCalculator` on the loaded table gives the cost of the last record joining the two positions, in either direction, and -1 when no record joins them |
| Routes.AddRecord | code/PathFinder.java:31-33 | a record's cost is stored under both directions of the pair and every other entry is kept |
| Routes.LoadedTableIsSymmetric | code/PathFinder.java:25-34 | every table built by inserting records is symmetric, so a lookup gives the same answer in both directions |
| Routes.PathCostSnoc | code/PathFinder.java:113-120 | extending a path by one tile adds the cost lookup of that last step |
| Routes.PathCostJoin | code/PathFinder.java:113-120 | path cost is additive over two paths joined at a shared junction tile kept once |
| Routes.WalkJoin | code/PathFinder.java:68-79 | two walks of permitted moves joined at a shared tile form a walk of permitted moves |
| Routes.WalkCostNonNegative | code/PathFinder.java:76-79 | permitted moves cost at least 0, so every walk of them costs at least 0 |
| Routes.RouteJoin | code/ShortestRoute.java:118-125 | a route a→b joined with a route b→c (b ≠ c, junction kept once) is a route a→c, costs the two together and passes every tile of the first and c |
| GameMap.NeighbourPositionsSpec | code/Map.java:134-145 | the cells linked to (i, j) are exactly the in-grid cells sharing a side with it; there are at most four and no two are equal |
| GameMap.NeighbourPositionsSymmetric | code/Map.java:134-145 | q is linked from p exactly when p is linked from q, and no cell is linked to itself |
| GameMap.Map.constructor | code/Map.java:29-35 | a col × row grid whose cells are all empty, with no coins and no knight |
| GameMap.Map.FillTiles | code/Map.java:59-61 | the given cell holds the tile afterwards and every other cell is unchanged |
| GameMap.Map.SetKnight | code/Map.java:83-85 | the knight is the one given |
| GameMap.Map.AddCoin | code/Map.java:91-93 | the coin is appended to the coin list |
| GameMap.Map.NeighbourTiles | code/Map.java:134-145 | the tiles appended for cell (i, j) are those at the linked cells, in the order left, right, up, down |
| GameMap.Map.AddNeighbours | code/Map.java:133-145 | one pass of the inner loop appends exactly cell (i, j)'s neighbour tiles to its list; only that list may change, so the mark is kept |
| GameMap.Map.AdjacentFinder | code/Map.java:129-148 | every tile's list gains exactly its neighbour tiles, in order; from empty lists every list is exactly its neighbours; only the lists may change, so every mark is kept |
| GameMap.Map.IsKnightOnCoin | code/Map.java:201-204 | true exactly when the knight's column and row equal those of coin k |
| GameMap.Map.KnightIsOn | code/Map.java:211-213 | on a filled grid, the grid's own tile object at the knight's column and row |
| GameMap.Map.CoinIsOn | code/Map.java:220-222 | on a filled grid, the grid's own tile object at the coin's column and row |
| GameMap.Map.Snapshot | code/PathFinder.java:68 | the search graph maps every tile's identity to the identities of its listed neighbours, and holds nothing else |
| GameMap.SnapshotSymmetric | code/Map.java:134-145 | after linking, a tile lists another exactly when that one lists it back, and no tile lists itself |
| GameMap.LinkedList | code/Map.java:134-145 | after linking, b is listed by a exactly when b's cell is one of a's linked cells |
| GameMap.SnapshotDegree | code/Map.java:134-145 | after linking, a tile has at most four neighbours |
| PathFinder.FindTotalCost | code/PathFinder.java:113-120 | the loop's total is the path cost: 0 for fewer than two tiles, otherwise the sum of lookups over consecutive pairs |
| PathFinder.Reverse | code/PathFinder.java:104 | `Collections.reverse`: same length, element i is element \|s\|-1-i of the input |
| PathFinder.MinimumExists | code/PathFinder.java:62 | a non-empty queue has an entry of least label, which `poll` may return |
| PathFinder.RouteBound | code/PathFinder.java:61-89 | a route from the start that ends outside the settled tiles costs at least the least queued label |
| PathFinder.PolledIsOptimal | code/PathFinder.java:61-62 | the label of the polled tile is a lower bound on every route to it |
| PathFinder.RoutesStaySettled | code/PathFinder.java:61-90 | once the queue is empty, every route from the start ends at a settled tile |
| PathFinder.Unreachable | code/PathFinder.java:91-94 | a search that empties the queue without labelling the objective shows that no route reaches it |
| PathFinder.PredRoute | code/PathFinder.java:96-105 | following predecessor links from a labelled tile leads back to the start along a route whose cost is the tile's label |
| PathFinder.RelaxNeighbours | code/PathFinder.java:68-89 | the neighbour loop keeps the search invariant; a label only ever drops strictly and its predecessor is set in the same step |
| PathFinder.Backtrack | code/PathFinder.java:96-105 | the rebuilt path is a route from start to objective and costs the objective's label |
| PathFinder.Search | code/PathFinder.java:51-90 | the objective gets a predecessor exactly when it differs from the start and some route reaches it, and its label is then a lower bound on every route |
| PathFinder.Algorithm | code/PathFinder.java:51-106 | the result is empty exactly when start equals objective or no route exists; otherwise it is a route from start to objective of least total cost |
| Bits.SetBit | code/ShortestRoute.java:75 | `state \| (1 << k)` on a clear bit k adds `1 << k`, sets bit k and changes no other bit |
| Bits.ClearBit | code/ShortestRoute.java:109 | `state ^ (1 << k)` on a set bit k subtracts `1 << k`, clears bit k and changes no other bit |
| Bits.FullMask | code/ShortestRoute.java:61 | `(1 << n) - 1` has exactly the bits 0 .. n-1 |
| Bits.SetBitBound | code/ShortestRoute.java:75 | setting a clear bit below n keeps a mask below `1 << n` |
| Bits.NoHighBits | code/ShortestRoute.java:69-75 | a mask below `1 << n` has no bit at n or above |
| ShortestRoute.Reachable | code/ShortestRoute.java:30-36 | the objectives kept, in order, are exactly those that differ from the start and can be reached from it |
| ShortestRoute.FilterReachable | code/ShortestRoute.java:30-36 | the filter loop keeps exactly the reachable objectives, in order |
| ShortestRoute.SearchPair | code/ShortestRoute.java:51-57 | the pair's path is empty exactly when the tiles are equal or unconnected; its cost is then infinite, otherwise `findTotalCost` of a least-cost route |
| ShortestRoute.FillRow | code/ShortestRoute.java:49-58 | one row of the pairwise searches fills that row's matrix cells and cache keys, and leaves later rows untouched |
| ShortestRoute.FillMatrices | code/ShortestRoute.java:45-59 | the diagonal is 0 with no cached path; each other cell is infinite exactly when the search found no path, and otherwise holds the cost of the least-cost route cached under (i, j); nothing else is cached |
| ShortestRoute.TableStart | code/ShortestRoute.java:62-66 | after initialisation, only `dp[0][1]` is finite, it is 0, and the table invariant holds before the first state |
| ShortestRoute.UpdateShape | code/ShortestRoute.java:69-80 | every finite `dp[i][s]` has bits 0 and i of s set, and entry (0, s) is finite only for s = 1 |
| ShortestRoute.RelaxUpdate | code/ShortestRoute.java:77-79 | writing a strictly lower cost and its parent keeps the table invariant, and only lowers the entry it writes |
| ShortestRoute.RelaxState | code/ShortestRoute.java:69-81 | one odd mask, every tile in it as the last tile: keeps the table invariant, only lowers `dp`, changes a parent only where its entry strictly drops, and writes no entry other than (next, state with next added) |
| ShortestRoute.RelaxLast | code/ShortestRoute.java:70-81 | every step out of one last tile: keeps the table invariant, only lowers `dp` with parent `last` where it strictly drops, and writes no entry other than (next, state with next added) |
| ShortestRoute.RelaxPair | code/ShortestRoute.java:72-80 | one (last, next) step keeps the invariant; `dp` only drops, `parent` changes exactly where `dp` strictly drops, to `last`, and no entry other than (next, state with next added) changes |
| ShortestRoute.FillTable | code/ShortestRoute.java:61-83 | the finished table: `dp[0][1] = 0`, the finite-entry shape, every finite entry linked by its parent to a finite entry plus the step cost, and every step relaxed |
| ShortestRoute.MaskBits | code/ShortestRoute.java:75 | the mask of a walk has exactly the walk's tiles |
| ShortestRoute.TableIsLeast | code/ShortestRoute.java:61-83 | every walk from tile 0 through distinct tiles costs at least the table entry for its last tile and its mask: the table holds least costs |
| ShortestRoute.FullTourMask | code/ShortestRoute.java:61 | tile 0 followed by a visiting order of the objectives has the full mask and no repeated tile |
| ShortestRoute.TourIsLeast | code/ShortestRoute.java:86-95 | every closed tour order costs at least the table's tour cost for its last objective |
| ShortestRoute.ChooseLast | code/ShortestRoute.java:86-95 | -1 with infinite cost exactly when no objective has a finite tour cost; otherwise the chosen index has the least tour cost, and every lower index costs strictly more (the first on a tie) |
| ShortestRoute.BackStep | code/ShortestRoute.java:106-110 | one step back along a parent link stays inside the mask, clears the current tile's bit and keeps the cost balance of the read-back |
| ShortestRoute.OrderFacts | code/ShortestRoute.java:112-114 | the order read back, reversed and closed at tile 0, lists each objective once and costs the entry it was read from |
| ShortestRoute.BuildOrder | code/ShortestRoute.java:102-114 | `nodeOrder` starts and ends with 0, lists every index 1 .. n-1 exactly once in between, ends its objectives at `lastIndex`, and costs exactly the tour cost of `lastIndex` |
| ShortestRoute.WalkCostCons | code/ShortestRoute.java:106-110 | prepending a tile adds the cost of the step out of it |
| ShortestRoute.Stitch | code/ShortestRoute.java:116-127 | the stitching loop's result is the join of the cached legs, each after the first without its first tile, skipping missing legs |
| ShortestRoute.StitchedRoute | code/ShortestRoute.java:116-127 | along an order with finite steps between different tiles, the stitched legs form one route from the first tile to the last, cost what the order costs, and pass every tile of the order |
| ShortestRoute.ClosedSteps | code/ShortestRoute.java:112-114 | consecutive indices of a closed visiting order differ |
| ShortestRoute.LegsBound | code/ShortestRoute.java:48-59 | for distinct tiles, the cost matrix bounds every leg of a tour from below, so the order's matrix cost is finite and at most the tour's cost |
| ShortestRoute.TourBound | code/ShortestRoute.java:86-99 | for distinct tiles, every closed tour gives its last objective a finite tour cost that is at most the tour's cost |
| ShortestRoute.TourFound | code/ShortestRoute.java:116-127 | the stitched tour of the read-back order is a route from the knight's tile back to it, passes every tile and costs what the order costs |
| ShortestRoute.FindShortestTour | code/ShortestRoute.java:25-128 | empty when no objective is reachable. A non-empty result is a route from the start back to it through every reachable objective. With distinct tiles it is non-empty whenever a closed tour exists, and costs no more than any closed tour through the reachable objectives |

## Left out

- File parsing of the cost table (the `PathFinder` constructor's Scanner loop) is not modelled. Only the insertion of one record, `AddRecord`, and the table built from a list of records, `LoadTable`, are.
- Drawing, canvas sizes, mark colours, and the `Main`, `Bonus`, `AlgorithmRunner`, `Reader` and `Writer` classes are not part of this model.
- The Java `PriorityQueue` is modelled as a set of queued tiles, polled at any entry of least label. The heap's tie-breaking, and its stale entries whose label changed after insertion, are not modelled. A tile is kept once in the queue.
- Costs are reals, not IEEE doubles: rounding and NaN are not modelled. Infinity is the `Inf` case of `Ext`, with the arithmetic and `<` the code relies on.
- Tiles in the search graph are identity values (column, row, type), and Java's object identity in `HashMap` keys is not modelled. The two agree on a grid where each cell holds one tile.
- `segment.remove(0)` changes the cached path in place. The model drops the first tile from a copy instead. Each (from, to) key is read once per tour, so the cache's later contents do not matter.
- FindShortestTour: requires fewer than 30 reachable objectives, so that `n` (the knight's tile plus the reachable objectives) stays at most 30 and `1 << n` a positive Java int. The model does not describe the overflow above that bound.
- FindShortestTour: the optimality guarantee is stated only when the start and the reachable objectives are pairwise different tiles. With a repeated objective the code gives the pair an infinite matrix entry, and the model does not characterise that result.
- FindShortestTour: optimality is over closed tours given leg by leg through the objectives in some order. It is not stated against an arbitrary route that meets the objectives in between.
- The getters `getColumn`, `getRow`, `getType`, `getAdjacentTiles`, `isMarked`, `getTiles`, `getKnight` and `getCoins` are plain field reads (`const` fields, `AdjacentTiles`, `IsMarked`). They have no contract of their own.
- Several members require what the Java would otherwise fail on with an exception, and do not model that exception: in-range cell indices for `FillTiles`, `KnightIsOn` and `CoinIsOn`, and a placed knight and an in-range coin number for `IsKnightOnCoin`. `AdjacentFinder` requires a filled grid whose every cell holds a tile with that cell's coordinates. Map.java does not check this, and a missing tile there would fail with a null dereference.
