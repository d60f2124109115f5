# Labyrinth solver and genetic fitness functions, in Dafny

This project models the class `L` of `projekt.py`, a labyrinth solver. The class:

- reads a labyrinth drawn with walls and spaces, three characters per two cells;
- finds its entrance and exit on the border;
- precomputes the squared distance of every cell from the exit and the list of blank cells;
- solves the labyrinth with breadth-first search and with A*;
- serves a genetic algorithm with four fitness functions, the overlays that draw the best individual, the generation statistics the fitness wrappers keep, and two crossover operators.

Cells are `seq<seq<int>>` tables indexed `[y][x]`, holding the source's codes: 0 empty, 1 wall, 2 entrance, 3 exit, 4 path, 5 visited.

Modules:

- **`Labyrinth`** holds the class `L`. Its constructor fixes the loaded table, the entrance and exit, the distance table and the blank-cell map. Its methods update the fields the source updates:
  - the scratch tables and counters of the two searches;
  - the generation statistics;
  - the gene overlay.
- **The algorithms** are methods over values, each proved against a specification function or a predicate:
  - `Loading`: `__load`;
  - `Entrances`: `__mark_entrances`;
  - `Precompute`: the two precompute loops;
  - `Search` and `Trace`: `bfs` and the path reconstruction shared with A*;
  - `AStar` and `HeapQueue`: `A_star` and the `heapq` calls;
  - `Occupancy`: `fit_binary_fields` and `predraw_binary_fields`;
  - `Steps` and `Walkers`: the step fitness functions;
  - `Overlays`: the step `predraw_*`.
- **The value parts** are:
  - `Fitness`: the fitness formulas;
  - `Tracker`: the generation statistics and `reset_history`;
  - `Crossover`: `cross_binary` and `cross_steps`;
  - `Render`: `show`'s character map.

The step fitness functions and overlays use the bounds test the authors evidently intended; see "## Findings".

## Model

| member | source | states |
|---|---|---|
| Loading.ReadLength | projekt.py:144-146 | Of the first `n` characters of a line, the loop keeps `n - (n+1)/3`: every character except the second of each group of three. |
| Loading.ReadAt | projekt.py:144-157 | Decoded cell `k` of a line comes from character `k + (k+1)/2` of the line. |
| Loading.ReadGrows | projekt.py:144-157 | Reading more characters of a line only appends cells: earlier cells never change. |
| Loading.DecodeRow | projekt.py:141-157 | One row: each kept character of the line without its last character becomes a wall (non-space) or an empty cell (space), in order, and the rest of the row stays 0. The row's path count is the number of kept spaces, and walls plus paths is the number of kept characters. |
| Loading.DecodeRows | projekt.py:135-159 | The whole table has `h` rows of `w` cells. Cell `(x, y)` is the decoding of character `x + (x+1)/2` of line `y`, or 0 past the line's end. `__path_count` and `__wall_count` count the kept spaces and the kept non-spaces over all rows. |
| Labyrinth.Decoded | projekt.py:135-159 | The table as loaded holds only 0 and 1, cell by cell as the loader decodes it. |
| Render.LoadReadsGlyph | projekt.py:146-156 | A printed wall glyph loads back as a wall and a printed blank as an empty cell. |
| Entrances.ScanOrderSide | projekt.py:178-184 | The side scan visits `(0, y)` and then `(w-1, y)`, row by row. |
| Entrances.ScanOrderAllOnBorder | projekt.py:170-191 | Every cell of the border scan (top row, then both sides row by row, then bottom row) is on the border of the table. |
| Entrances.ScanFindsFirst | projekt.py:171-191 | The scan sets the entrance if and only if it meets an empty cell, and sets it to the first empty cell in scan order. |
| Entrances.ScanFindsLast | projekt.py:171-191 | The scan sets the exit if and only if it meets at least two empty visits, and sets it to the last one (a corner may be visited twice). |
| Entrances.Look | projekt.py:172-176 | One visit: an empty cell becomes the entrance if there is none yet, and otherwise replaces the exit. |
| Entrances.ScanRow | projekt.py:171-176 | The top-row loop (and, at the bottom offset, the bottom-row loop) advances the scan by the `w` cells of its row. |
| Entrances.ScanSideRow | projekt.py:179-184 | One row of the side loop advances the scan by the two cells `(0, y)` and `(w-1, y)`. |
| Entrances.ScanSides | projekt.py:178-184 | The side loop advances the scan by `2h` cells. |
| Entrances.ScanBorder | projekt.py:170-191 | The three loops give the entrance and exit of the whole scan. |
| Entrances.Mark | projekt.py:193-194 | The exit holds 3; the entrance holds 2 unless it is the exit; every other cell is unchanged. |
| Entrances.MarkEntrances | projekt.py:167-194 | The entrance is the first empty border cell in scan order and the exit the last, both empty before marking. They are marked 2 and 3 and nothing else changes. |
| Precompute.HeuristicTable | projekt.py:86-89 | Every cell holds `(ex-x)^2 + (ey-y)^2`. |
| Precompute.HeuristicTableZeroOnlyAtExit | projekt.py:86-89 | The distance table is never negative and is 0 exactly at the exit. |
| Grid.HValueZeroOnlyAtExit | projekt.py:89 | The squared distance is never negative and is 0 exactly at the exit. |
| Precompute.BlankCells | projekt.py:94-98 | The list holds every empty cell of the marked table, and only those, in strictly increasing row-major order (so each cell once). |
| Labyrinth.BlankMapOk | projekt.py:94-98 | The blank-cell list of the marked table contains neither the entrance nor the exit, and repeats no cell. |
| Labyrinth.Build | projekt.py:67-76 | The fixed part of `__init__`: the loaded table and its counters, the first and last empty border cells, the marked table, the distance table and the blank-cell list. |
| Search.Opened | projekt.py:224-230 | The moves an expansion takes are exactly the neighbours inside the table that are undiscovered and still 0, in move order. |
| Search.Expand | projekt.py:219-230 | The queue gains exactly the taken moves, in the order +x, -x, +y, -y. Each of them gets depth `child_depth`, and no other depth changes. |
| Search.AddedCells | projekt.py:224-230 | The cells a turn adds are undiscovered free neighbours of the dequeued cell, each once, and every such neighbour is added. |
| Search.TurnKeeps | projekt.py:215-230 | One turn keeps the loop invariant. The queue holds free undiscovered cells once each, at most two consecutive depths in order. Dequeued cells are marked 5. Every free neighbour of a dequeued cell is discovered at most one level deeper. Every discovered cell has a dequeued parent one level shallower. |
| Search.Turn | projekt.py:215-230 | A turn dequeues one new cell, so the loop ends. |
| Search.Explore | projekt.py:204-230 | When the queue runs dry, `__bfs_num_visited` counts the dequeued cells, which are marked 5 while every other cell is unchanged. The dequeued cells contain the entrance and are closed under free steps, and each has a dequeued parent one level shallower. |
| Search.ClosedIsReachable | projekt.py:214-230 | The dequeued cells are exactly the free cells reachable from the entrance. |
| Search.NoShorter | projekt.py:232 | The exit's depth is a lower bound: no free walk from entrance to exit has fewer than `depth + 1` cells. |
| Search.BfsChained | projekt.py:235-249 | After the search, the reconstruction loop always has a neighbour marked 5 with a smaller depth to step to until it reaches the entrance. |
| Search.TrailDepth | projekt.py:244-249 | Each reconstruction step goes exactly one level shallower. |
| Search.BfsTrail | projekt.py:232-249 | The reconstructed path has exactly `bfs_path_length + 1` cells and, reversed, is a free walk from entrance to exit. |
| Search.BreadthFirst | projekt.py:204-249 | `bfs`: `bfs_path_length` is the length of a shortest free walk, the visited count is the number of free cells reachable from the entrance, and the scratch table ends with that walk marked 4, the other reachable cells 5 and every other cell unchanged. |
| Trace.Descend | projekt.py:244-249 | The step taken is the first neighbour in move order that is in the table, marked 5 and of smaller depth. |
| Trace.TraceBack | projekt.py:233-249 | The reconstruction loop marks exactly the cells of a chain of first descents from the exit to the entrance with 4, and leaves every other cell unchanged. |
| Trace.TrailBound | projekt.py:244-249 | Along the chain depths strictly decrease, so the chain is no longer than the exit's depth plus one. |
| Trace.TrailIsWalk | projekt.py:244-249 | Consecutive cells of the chain are neighbours. |
| Paths.WalkBack | projekt.py:214-230 | Following parents from a discovered cell gives a free walk from the entrance of exactly depth + 1 cells. |
| Paths.DepthBoundsPath | projekt.py:214-230 | The last cell of a free walk from the entrance is discovered, with a depth at most the walk's length minus one. |
| HeapQueue.NotAfterTotal | projekt.py:265-267 | The tuple order on `(F, H, (x, y))` is total and antisymmetric. |
| HeapQueue.MinIndex | projekt.py:267 | `heappop` takes an entry that is not after any other in tuple order. |
| HeapQueue.PopLeast | projekt.py:267 | The popped entry is the least of the heap, and the remaining heap is the old one minus it. |
| HeapQueue.PopByContents | projekt.py:265-287 | What `heappop` returns depends only on the heap's contents, not on its layout. |
| AStar.Admitted | projekt.py:279-283 | The moves A* pushes are exactly the neighbours in the table that are still 0 on the scratch table and not closed, in move order. |
| AStar.Expand | projekt.py:274-288 | Each pushed move gets the entry `(H + nG, H, m)` at the heap's end and depth `nG` (overwriting an earlier one), in move order. No other depth changes. |
| AStar.StepState | projekt.py:267-288 | One expansion keeps the A* invariant. Every heap entry is a free cell with a dequeued or start parent. Depths are rooted at the entrance. Closed cells are marked 5. Every free neighbour of a closed cell is queued or closed. |
| AStar.AdvanceOk | projekt.py:267-288 | A turn keeps the invariant, and either closes a new cell or drops a stale heap entry, so the loop ends. |
| AStar.Exhausted | projekt.py:266-299 | If the heap runs dry, every cell reachable from the entrance was popped, so with a reachable exit the loop ends at the `break`. |
| AStar.Finish | projekt.py:266-272 | When the exit is popped, the closed cells and the exit are marked 5, contain the entrance, and each has a closed parent one level shallower. |
| AStar.FinishChained | projekt.py:300-316 | The reconstruction loop can always step until it reaches the entrance. |
| AStar.DoneReachable | projekt.py:266-299 | Every cell A* closes is reachable from the entrance. |
| AStar.AStarTrail | projekt.py:300-316 | The reconstructed path is closed cells only, has at most `a_star_path_length + 1` cells and, reversed, is a free walk from entrance to exit. |
| AStar.PopTurn | projekt.py:266-288 | One turn pops the least heap entry `p` and counts one pop. `p` joins the closed cells, and the loop stops exactly when `p` is the exit, which had not been closed before. On a stop, the closed cells and the exit are marked 5 and chained to the entrance. Otherwise the turn keeps the invariant and makes progress. |
| AStar.Explore | projekt.py:255-299 | The search loop stops at the first pop of the exit. The closed cells and the exit are marked 5, and each has a closed parent one level shallower. A log of the popped cells, in order, has `a_star_num_visited` entries. Its cells are exactly the closed cells, so repeats are stale pops, and the exit is its last entry and appears nowhere else. |
| AStar.Search | projekt.py:255-316 | `A_star`: entrance and exit are among the closed cells, all reachable. `a_star_num_visited` is the length of the pop log `AStar.Explore` describes: at least the number of closed cells, with the exit popped last and once. A free walk of exactly `a_star_path_length + 1` cells exists. The marked path is a walk no longer than that. The table ends with the path marked 4, the other closed cells 5, and every other cell unchanged. |
| Occupancy.Occupy | projekt.py:367-374 | The occupancy table holds 1 at the entrance and the exit, `gene[i]` at `binary_map[i]` and 0 elsewhere, and `one_count` is the sum of the gene. |
| Occupancy.OccupiedOpen | projekt.py:367-374 | The cells holding 1 are exactly the entrance, the exit and the map cells whose gene value is 1. |
| Occupancy.Accepted | projekt.py:389-393 | The moves the spread enqueues are exactly the neighbours in the table that hold 1, in move order. |
| Occupancy.Enqueue | projekt.py:384-393 | The queue gains exactly the accepted moves. |
| Occupancy.SpreadStep | projekt.py:380-393 | One turn keeps the invariant: every queued cell is in the entrance's open component; cleared cells are the dequeued ones; the running minimum is the least distance over them; and every open neighbour of a dequeued cell is queued or dequeued. |
| Occupancy.Spread | projekt.py:376-393 | The loop ends, and `min_distance` is the least distance over the open 4-connected component of the entrance. |
| Occupancy.SpreadDone | projekt.py:380-393 | When the queue is empty, the dequeued cells are the whole open component of the entrance. |
| Occupancy.MinDistance | projekt.py:379-382 | The minimum is at most the entrance's distance, never negative, and 0 exactly when the exit is in the component. |
| Occupancy.FitBinaryFields | projekt.py:366-394 | `fit_binary_fields`: the least distance over the region the gene opens around the entrance, 0 exactly when that region reaches the exit, and `max(0, one_count - bfs_path_length)`. |
| Occupancy.SumBounds | projekt.py:374 | For a 0/1 gene, `one_count` lies between 0 and the gene's length. |
| Occupancy.DrawOccupancy | projekt.py:421-426 | The overlay holds `4 * gene[i]` at `binary_map[i]` and the labyrinth everywhere else. |
| Occupancy.DrawnIsOpened | projekt.py:421-426 | For a 0/1 gene, the overlay's 4 cells are exactly the opened cells other than the entrance and the exit. |
| Steps.Move | projekt.py:443-452 | Every gene pair moves to a neighbouring cell. |
| Steps.MoveCovers | projekt.py:345-349 | Every neighbour is reached by some binary pair. |
| Steps.MoveDistinct | projekt.py:345-349 | Different binary pairs reach different neighbours. |
| Steps.BlockedAsWritten | projekt.py:453 | The collision test as written compares the column with the height, and lets a row below the table through to the indexing (`None`). |
| Steps.BlockedAsWrittenFailsBelow | projekt.py:453 | On the 3 by 3 `Corridor` labyrinth, a step down from the entrance reaches row 3. The written test lets it through to `__data[3]`; the intended test blocks it. |
| Steps.BlockedAsWrittenWide | projekt.py:453 | In a 3-wide, 1-high table, the written test blocks the free middle cell. |
| Steps.BlockedAgrees | projekt.py:453 | In a table no wider than tall, the two tests agree on every row inside the table. |
| Steps.UnblockedIsEmpty | projekt.py:593 | A move the intended test lets through lands on an empty cell of the table. |
| Walkers.EndsTrail | projekt.py:439-458 | The `fit_collision_ends` walk takes at most one step per gene pair, only onto empty cells of the table. |
| Walkers.EndsWalk | projekt.py:439-458 | The entrance followed by the walk's cells is a walk through free cells. |
| Walkers.EndsStopShort | projekt.py:453-459 | Because the exit holds 3, the walk never reaches it, and the distance returned is at least 1. |
| Walkers.FitEnds | projekt.py:439-459 | `fit_collision_ends` returns the distance of the cell the walk stops on and the number of steps taken. |
| Walkers.Stuns | projekt.py:521-545 | The `fit_collision_stuns` walk: steps plus collisions never exceed the gene pairs. |
| Walkers.StunsCells | projekt.py:536-545 | The walk steps only onto empty cells and the exit. |
| Walkers.StunsCount | projekt.py:521-546 | Unless the exit is entered, steps plus collisions equal the gene pairs; the exit, if entered, is the last step only. |
| Walkers.StunsWalk | projekt.py:521-546 | The entrance followed by the walk's cells is a walk through free cells and the exit. |
| Walkers.StunsDistance | projekt.py:521-546 | The distance returned is 0 exactly when the exit was entered; otherwise every gene pair was spent on a step or a collision. |
| Walkers.FitStuns | projekt.py:521-546 | `fit_collision_stuns` returns the distance of the final cell, the number of steps and the number of collisions. |
| Walkers.Repeats | projekt.py:621-644 | Repetitions never outnumber the steps. |
| Walkers.SmartVisit | projekt.py:621 | After `visited[p] = 1`, the table marks exactly the cells stood on so far. |
| Walkers.FitSmart | projekt.py:613-645 | `fit_collision_smart` returns the same distance, length and collisions as `fit_collision_stuns` on the same gene. It also returns the steps onto a cell stood on before (other than the exit), and 1 exactly when the exit was entered. |
| Fitness.BinaryDistanceFirst | projekt.py:400-402 | An individual whose region comes nearer the exit scores higher whenever it has fewer than 1000 extra cells. |
| Fitness.BinaryPerfect | projekt.py:400-402 | The binary value is never positive, and is 0 exactly with distance 0 and no extra cells. |
| Fitness.EndsNeverExit | projekt.py:465-467 | The ends value is at most -1 and the walk never ends on the exit. |
| Fitness.StunsPerfect | projekt.py:552-554 | The stuns value is never positive, and is 0 exactly when the exit was entered without a collision. |
| Fitness.SmartExitWins | projekt.py:24-30 | With weights 5, -2, -5, -50 and 10000 and genes of up to 1435 pairs, an individual that enters the exit scores above every one that does not. Genes of `2 * blanks` pairs stay within the bound for up to 717 blank cells. |
| Tracker.Reset | projekt.py:126-129 | `reset_history` zeroes the counter and empties the history. |
| Tracker.Observe | projekt.py:404-413 | A wrapper call always leaves a current best. |
| Tracker.FirstMax | projekt.py:407 | The first call of greatest value: no call is greater, and every earlier call is strictly smaller. |
| Tracker.Partial | projekt.py:404-413 | Within a generation, after `n` calls the counter is `n`, the current best is the first call of greatest value and the history is unchanged. |
| Tracker.Generation | projekt.py:404-413 | A generation of `gen_pop` calls appends its first best to the history and resets the counter. |
| Tracker.ObserveConcat | projekt.py:404-413 | Wrapper calls compose: calls on `a` then on `b` are calls on `a + b`. |
| Tracker.Bests | projekt.py:404-413 | The best of each generation, in order. |
| Tracker.History | projekt.py:126-129 | From `reset_history`, whole generations leave exactly their bests in the history, in order, and the counter at 0. |
| Overlays.FirstRepeat | projekt.py:501 | The longest prefix of a walk without a repeated cell. |
| Overlays.FirstRepeatUnique | projekt.py:501 | That prefix is the only one without a repeat whose next cell repeats. |
| Overlays.DrawEnds | projekt.py:486-506 | `predraw_collision_ends` paints 4 on the `fit_collision_ends` walk up to its first repeated cell, where it stops because it tests its own overlay, and the overlay is the labyrinth everywhere else. |
| Overlays.DrawEndsWhole | projekt.py:486-506 | A walk with no repeated cell is drawn whole. |
| Overlays.DrawStuns | projekt.py:573-595 | `predraw_collision_stuns` paints 4 on exactly the cells of the `fit_collision_stuns` walk, the exit included when it is entered. |
| Labyrinth.L.PredrawCollisionSmart | projekt.py:679-701 | `predraw_collision_smart` draws the same overlay as `predraw_collision_stuns`. |
| Crossover.Head | projekt.py:713 | Python's `s[:i]`: the first `min(i, len s)` elements. |
| Crossover.Tail | projekt.py:713 | Python's `s[i:]`: the elements from `i` on, empty past the end. |
| Crossover.StepCut | projekt.py:721-723 | The cut is lowered to an even number at most one below the draw. |
| Crossover.CrossContents | projekt.py:711-726 | For parents of one length, each child has that length and takes genes before the cut from one parent and the rest from the other. |
| Crossover.CrossConserves | projekt.py:711-726 | The children together hold exactly the parents' genes. |
| Crossover.CrossUndo | projekt.py:711-726 | Crossing the children at the same cut gives back the parents. |
| Crossover.CrossBinaryMixes | projekt.py:711-715 | With a cut in `[1, len)`, each child starts with its own parent's first gene and ends with the other's last gene. |
| Crossover.CrossStepsKeepsPairs | projekt.py:720-726 | With an even cut in `[2, len)`, every gene pair of a child is a whole pair of one parent. The first pair comes from its own parent. |
| Render.Digits | projekt.py:339 | `'{:d}'.format` of a natural number: decimal digits only, whose value is the number, with no leading zero; a single digit below 10. |
| Render.ReplaceAll | projekt.py:339 | The chain of `replace` calls maps each character on its own, keeping the length. |
| Render.StateOf | projekt.py:11-18 | The legend read backwards: a glyph stands for a cell state or for none. |
| Render.GlyphRoundTrip | projekt.py:11-18 | Every cell state has its own glyph: reading the glyph back gives the state. |
| Render.LineGlyphs | projekt.py:338-339 | A row of cell states prints as one glyph per cell, and the states can be read back from the line. |
| Render.TableGlyphs | projekt.py:338-340 | Every row of a table of cell states prints as the glyphs of its cells. |
| Labyrinth.L.constructor | projekt.py:37-80 | `__init__` on the file's lines loads, marks the entrances and precomputes as `Build` states. Both scratch tables start as the loaded table, the counters at 0, the statistics reset and no overlay. |
| Labyrinth.L.MapStates | projekt.py:193-194 | The marked labyrinth holds only 0 to 3. |
| Labyrinth.L.SetGenPop | projekt.py:109-111 | The `gen_pop` setter changes only the population size. |
| Labyrinth.L.Bfs | projekt.py:204-249 | `bfs` on the fresh scratch table stores the shortest path length, the number of reachable free cells and the marked table that `Search.BreadthFirst` promises. |
| Labyrinth.L.AStarSearch | projekt.py:255-316 | `A_star` on the fresh scratch table stores what `AStar.Search` promises. That includes the pop log behind the visit count: its length is `a_star_num_visited`, its cells are the closed cells, and the exit is popped last and once. |
| Labyrinth.L.Record | projekt.py:404-415 | The statistics block of every wrapper updates the tracker as `Tracker.Observe`. |
| Labyrinth.L.FitBinaryFieldsWrapper | projekt.py:399-416 | Returns `-1000 * distance - extra` for the region the gene opens and records `(value, distance)`. |
| Labyrinth.L.FitCollisionEndsWrapper | projekt.py:464-481 | Returns minus the distance where the ends walk stops and records it. |
| Labyrinth.L.FitCollisionStunsWrapper | projekt.py:551-568 | Returns minus distance minus collisions of the stuns walk and records it. |
| Labyrinth.L.FitCollisionSmartWrapper | projekt.py:650-673 | Returns `5 len - 2 coll - 5 rep - 50 dist + 10000 found` of the smart walk and records it. |
| Labyrinth.L.PredrawBinaryFields | projekt.py:421-426 | The overlay holds `4 * gene[i]` at `binary_map[i]` and the labyrinth elsewhere. |
| Labyrinth.L.PredrawCollisionEnds | projekt.py:486-506 | The overlay is the ends walk up to its first repeat, painted 4. |
| Labyrinth.L.PredrawCollisionStuns | projekt.py:573-595 | The overlay is the stuns walk, painted 4. |
| Labyrinth.L.ResetHistory | projekt.py:126-129 | `reset_history` leaves the statistics as `Tracker.Reset`. |
| Labyrinth.L.Show | projekt.py:323-340 | `show` prints one line per row of the chosen table, and nothing for tables of 100000 cells or more. For the labyrinth map, every character is the glyph of its cell. |

## Left out

- File access (`open`, `readlines`) and all printing: `show`'s header lines, the load echo, the counters' summary and the progress dots. The constructor takes the file's lines; `show` returns its lines.
- The driver script after the class, its timing, and the `pyeasyga` engine (selection, mutation, the population loop). The wrappers are modelled as single calls, and `Tracker.ObserveAll` models a sequence of them.
- The random draws of `random.randrange` in the crossovers: the cut is a parameter constrained to the draw's range.
- Floating point: the smart weights are whole numbers, so the integer arithmetic of `Fitness.SmartValue` is exact.
- The display thresholds `__load_print_max` and `__show_progress` only gate printing. `__show_print_max` is kept in `Labyrinth.L.Show`.
- The wrappers' unused `data` parameter, and the `best` tuple of `predraw_*`: they take the gene `best[1]` directly.
- The layout of `heapq`: the heap is a sequence from which the least entry in tuple order is popped, and `HeapQueue.PopByContents` shows that only its contents matter. `deque` is a sequence, and `copy.deepcopy` a value copy.
- The "already queued" branch of `A_star` (projekt.py:289-299): `open_closed` only ever holds -1 or 1, so the branch never runs (and would fail on `h[i][3]`).
- Labyrinth.L.Bfs: a second call on an already marked scratch table is not modelled; the method requires the table as loaded, and an unreachable exit, on which the source loops for ever, is excluded by precondition.
- Labyrinth.L.AStarSearch: the same restriction to the first call and a reachable exit. As for `AStar.Search`, no upper bound on the visit count is stated. The path A* reports is not claimed to be shortest, because the squared-distance heuristic can overestimate.
- AStar.Search: the contract states that a walk of `a_star_path_length + 1` cells exists and that the marked path is no longer than it, not that the two are equal. The pop log behind `a_star_num_visited` is tied to the heap turn by turn (`AStar.PopTurn`), but it is not given as a function of the grid. So no upper bound on `a_star_num_visited` is stated, and neither is the number of stale pops.
- A missing entrance or exit (projekt.py:193 indexes `None`), a file with fewer than `height` lines (`lines[y]` at projekt.py:143-144 raises IndexError), odd step genes, genes longer than the blank-cell list and lines longer than the row are excluded by preconditions.
- The crossovers `Crossover.CrossBinary` and `Crossover.CrossSteps` are modelled for parents of any lengths, with Python's slicing (`Crossover.Head`, `Crossover.Tail`). Their properties (`CrossContents`, `CrossConserves`, `CrossUndo`, `CrossBinaryMixes`, `CrossStepsKeepsPairs`) are proved only for parents of equal length, which is what the genetic algorithm passes.
- The read-only properties `blanks` and `gen_best_history` are plain field reads of `pathCount` and `stats.history`.
- Labyrinth.L.Show: `show('gene')` before any `predraw_*` fails in the source on a missing attribute; the model requires an overlay. Only the map table's lines are described glyph by glyph, because the scratch tables' contents are described by the searches' contracts.
- Walkers.FitEnds, Walkers.FitStuns, Walkers.FitSmart and Overlays.DrawEnds use the intended bounds test `Steps.Blocked` rather than the written one; see "## Findings".

## Findings

| source | as written | input that shows it | evidently intended | confidence | as-written member | corrected member |
|---|---|---|---|---|---|---|
| projekt.py:453 (also 501, 541, 638) | The fourth bound test is `new_p[0] >= self.__height`: it compares the column with the height and never checks the row against the height. | On the 3 by 3 labyrinth of rows `###`, `###`, ` # `, gene pair `11` from the entrance (0, 2) reaches (0, 3). No test fires, and `__data[3]` is out of range. On the 3 by 1 labyrinth ` _ ` holding 2, 0, 3, the free cell (1, 0) counts as a collision. | `new_p[1] >= self.__height`, as `predraw_collision_stuns` writes its test at projekt.py:593. | not executed | Steps.BlockedAsWritten (Steps.BlockedAsWrittenFailsBelow, Steps.BlockedAsWrittenWide) | Steps.Blocked (Steps.UnblockedIsEmpty, Steps.BlockedAgrees) |
