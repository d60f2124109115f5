/** The labyrinth class `L` (projekt.py:20-726): it loads a labyrinth, marks its
    entrance and exit, precomputes the distance table and the blank-cell list, runs
    BFS and A* over its own scratch tables, and serves the genetic algorithm with four
    fitness wrappers, their overlays and the generation statistics. What the
    constructor fixes is held in `const` fields; every method names the fields it
    changes. */
module Labyrinth {
  import opened Grid
  import opened Wrappers
  import opened Paths
  import opened Scratch
  import Loading
  import Entrances
  import Precompute
  import Search
  import AStar
  import Occupancy
  import Steps
  import Walkers
  import Overlays
  import Fitness
  import Tracker
  import Render

  /** The labyrinth as `__load` reads it from `lines`, before the entrances are marked. */
  ghost function Decoded(lines: seq<string>, w: nat, h: nat): (g: seq<seq<int>>)
    requires |lines| >= h
    ensures Fresh(g, w, h)
    ensures forall q :: InGrid(w, h, q) ==> At(g, q) == Loading.DecodedCell(lines[q.y], q.x)
  {
    seq(h, y requires 0 <= y < h => seq(w, x requires 0 <= x < w => Loading.DecodedCell(lines[y], x)))
  }

  /** Two tables of one shape that agree on every cell are equal. */
  lemma SameGrid(a: seq<seq<int>>, b: seq<seq<int>>, w: nat, h: nat)
    requires IsGrid(a, w, h) && IsGrid(b, w, h)
    requires forall q :: InGrid(w, h, q) ==> At(a, q) == At(b, q)
    ensures a == b
  {
    forall y | 0 <= y < h
      ensures a[y] == b[y]
    {
      forall x | 0 <= x < w
        ensures a[y][x] == b[y][x]
      {
        assert At(a, Pos(x, y)) == At(b, Pos(x, y));
      }
    }
  }

  /** The blank-cell list of the marked labyrinth is a valid gene map: blank cells are
      neither the entrance (2) nor the exit (3), and row-major order repeats none. */
  lemma BlankMapOk(data: seq<seq<int>>, w: nat, h: nat, start: Pos, exit: Pos, cells: seq<Pos>)
    requires IsGrid(data, w, h) && InGrid(w, h, start) && InGrid(w, h, exit)
    requires At(data, exit) == EXIT && (start != exit ==> At(data, start) == START)
    requires forall i :: 0 <= i < |cells| ==> InGrid(w, h, cells[i]) && At(data, cells[i]) == EMPTY
    requires forall i, j :: 0 <= i < j < |cells| ==> Precompute.Before(cells[i], cells[j])
    ensures Occupancy.MapOk(w, h, start, exit, cells)
  {
  }

  /** Everything `__init__` computes before the searches: `__load` (the table `g` and
      the two counters), `__mark_entrances` (the first and last empty border cells in
      scan order, marked 2 and 3 in `data`), `__precompute_H_values` (`hv`) and
      `__precompute_binary_map` (`cells`). */
  ghost predicate Built(lines: seq<string>, w: nat, h: nat, g: seq<seq<int>>, data: seq<seq<int>>,
                        walls: nat, paths: nat, start: Pos, exit: Pos, hv: seq<seq<int>>, cells: seq<Pos>)
  {
    && LoadedFrom(lines, w, h, g, walls, paths)
    && BoardOf(w, h, g, data, start, exit, hv, cells)
    && EntrancesOf(g, w, h, start, exit)
    && BlanksOf(data, w, h, cells)
  }

  /** `__load`: the table and the two counters. */
  ghost predicate LoadedFrom(lines: seq<string>, w: nat, h: nat, g: seq<seq<int>>, walls: nat, paths: nat)
  {
    && |lines| >= h && g == Decoded(lines, w, h)
    && paths == Loading.SpacesIn(lines, h) && walls + paths == Loading.CellsIn(lines, h)
  }

  /** `__mark_entrances`: the first and the last empty cell of the border scan. */
  ghost predicate EntrancesOf(g: seq<seq<int>>, w: nat, h: nat, start: Pos, exit: Pos)
  {
    && w >= 1 && h >= 1 && IsGrid(g, w, h)
    && (exists i :: Entrances.FirstEmptyAt(Entrances.BorderVisits(g, w, h), 2 * w + 2 * h, i)
                    && Entrances.ScanOrder(w, h)[i] == start)
    && (exists i :: Entrances.LastEmptyAt(Entrances.BorderVisits(g, w, h), 2 * w + 2 * h, i)
                    && Entrances.ScanOrder(w, h)[i] == exit)
  }

  /** `__precompute_binary_map`: the empty cells of `data`, each once, in row-major order. */
  ghost predicate BlanksOf(data: seq<seq<int>>, w: nat, h: nat, cells: seq<Pos>)
  {
    && IsGrid(data, w, h)
    && (forall i :: 0 <= i < |cells| ==> InGrid(w, h, cells[i]) && At(data, cells[i]) == EMPTY)
    && (forall q :: InGrid(w, h, q) && At(data, q) == EMPTY ==> q in cells)
    && (forall i, j :: 0 <= i < j < |cells| ==> Precompute.Before(cells[i], cells[j]))
  }

  /** The invariant the fixed fields keep. */
  ghost predicate BoardOf(w: nat, h: nat, g: seq<seq<int>>, data: seq<seq<int>>, start: Pos, exit: Pos,
                          hv: seq<seq<int>>, cells: seq<Pos>)
  {
    && w >= 1 && h >= 1
    && Fresh(g, w, h) && InGrid(w, h, start) && InGrid(w, h, exit)
    && At(g, start) == EMPTY && At(g, exit) == EMPTY
    && IsGrid(data, w, h) && At(data, exit) == EXIT && (start != exit ==> At(data, start) == START)
    && (forall q :: InGrid(w, h, q) && q != start && q != exit ==> At(data, q) == At(g, q))
    && IsGrid(hv, w, h) && (forall q :: InGrid(w, h, q) ==> At(hv, q) == HValue(exit, q))
    && Occupancy.MapOk(w, h, start, exit, cells)
  }

  /** The fixed part of `__init__`. */
  method Build(lines: seq<string>, w: nat, h: nat)
    returns (g: seq<seq<int>>, data: seq<seq<int>>, walls: nat, paths: nat, start: Pos, exit: Pos,
             hv: seq<seq<int>>, cells: seq<Pos>)
    requires w >= 1 && h >= 1 && |lines| >= h
    requires forall y :: 0 <= y < h ==> |Loading.Cells(lines[y])| <= w
    requires Entrances.TwoEmpty(Entrances.BorderVisits(Decoded(lines, w, h), w, h), 2 * w + 2 * h)
    ensures Built(lines, w, h, g, data, walls, paths, start, exit, hv, cells)
  {
    g, walls, paths := Loading.DecodeRows(lines, w, h);
    SameGrid(g, Decoded(lines, w, h), w, h);
    data, start, exit := Entrances.MarkEntrances(g, w, h);
    hv := Precompute.HeuristicTable(w, h, exit);
    cells := Precompute.BlankCells(data, w, h);
    BlankMapOk(data, w, h, start, exit, cells);
  }

  /** `__show_print_max`: tables with this many cells or more are not printed. */
  const ShowPrintMax := 100000

  /** The tables `show` can print. */
  datatype Mode = MapMode | BfsMode | AStarMode | GeneMode

  class L {
    const width: nat
    const height: nat
    /** The labyrinth as read, holding 0 and 1 only. */
    ghost const loaded: seq<seq<int>>
    /** `__data`: the labyrinth with 2 at the entrance and 3 at the exit. */
    const data: seq<seq<int>>
    const wallCount: nat
    const pathCount: nat
    const start: Pos
    const exit: Pos
    /** `__H_array`: squared distance of every cell from the exit. */
    const hArray: seq<seq<int>>
    /** `__binary_map`: the cell each gene position of the occupancy encoding stands for. */
    const binaryMap: seq<Pos>

    /** `__bfs` and `__a_star`: scratch copies the searches mark with 5 and 4. */
    var bfsGrid: seq<seq<int>>
    var aStarGrid: seq<seq<int>>
    var bfsPathLength: int
    var bfsNumVisited: nat
    var aStarPathLength: int
    var aStarNumVisited: nat
    /** The path each search marked, from the exit back to the entrance. */
    ghost var bfsTrail: seq<Pos>
    ghost var aStarTrail: seq<Pos>
    /** The cells A* took off its queue. */
    ghost var aStarDone: set<Pos>
    /** The cells A* popped off its heap, in order, stale entries included. */
    ghost var aStarPops: seq<Pos>
    /** `__gen_pop`: calls per generation. */
    var genPop: int
    /** `__gen_counter`, `__gen_current_best` and `__gen_best`. */
    var stats: Tracker.Tracker
    /** `__gene_map`: the overlay of the last `predraw_*`; absent before the first. */
    var geneMap: Option<seq<seq<int>>>

    /** What the constructor establishes about the fixed fields. */
    ghost predicate Board()
    {
      BoardOf(width, height, loaded, data, start, exit, hArray, binaryMap)
    }

    ghost predicate Valid()
      reads this
    {
      && Board()
      && IsGrid(bfsGrid, width, height) && IsGrid(aStarGrid, width, height)
      && Tracker.Valid(stats)
      && (geneMap.Some? ==> IsGrid(geneMap.value, width, height))
    }

    /** `__init__` with the file's lines in place of its name: `__load`,
        `__mark_entrances`, `__precompute_H_values` and `__precompute_binary_map`. */
    constructor (lines: seq<string>, w: nat, h: nat)
      requires w >= 1 && h >= 1 && |lines| >= h
      requires forall y :: 0 <= y < h ==> |Loading.Cells(lines[y])| <= w
      requires Entrances.TwoEmpty(Entrances.BorderVisits(Decoded(lines, w, h), w, h), 2 * w + 2 * h)
      ensures Valid() && width == w && height == h
      ensures Built(lines, w, h, loaded, data, wallCount, pathCount, start, exit, hArray, binaryMap)
      ensures bfsGrid == loaded && aStarGrid == loaded
      ensures bfsPathLength == 0 && bfsNumVisited == 0 && aStarPathLength == 0 && aStarNumVisited == 0
      ensures genPop == 0 && stats == Tracker.Reset() && geneMap == None
    {
      var g, marked, walls, paths, s, e, hv, cells := Build(lines, w, h);
      width, height, loaded, data := w, h, g, marked;
      wallCount, pathCount, start, exit := walls, paths, s, e;
      hArray, binaryMap := hv, cells;
      bfsGrid, aStarGrid := g, g;
      bfsPathLength, bfsNumVisited, aStarPathLength, aStarNumVisited := 0, 0, 0, 0;
      bfsTrail, aStarTrail, aStarDone, aStarPops := [], [], {}, [];
      genPop, stats, geneMap := 0, Tracker.Reset(), None;
    }

    /** The `gen_pop` setter. */
    method SetGenPop(pop: int)
      requires Valid()
      modifies this`genPop
      ensures Valid() && genPop == pop
    {
      genPop := pop;
    }

    /** `bfs`, on the scratch table as loaded (a second run would search a table it has
        already marked). The source loops for ever when the exit cannot be reached. */
    method Bfs()
      requires Valid() && bfsGrid == loaded && Reachable(Free(loaded, width, height), start, exit)
      modifies this`bfsGrid, this`bfsPathLength, this`bfsNumVisited, this`bfsTrail
      ensures Valid()
      ensures bfsNumVisited == |ReachableFrom(loaded, width, height, start)|
      ensures |bfsTrail| == bfsPathLength + 1 && PathFromTo(Free(loaded, width, height), Reverse(bfsTrail), start, exit)
      ensures forall path :: PathFromTo(Free(loaded, width, height), path, start, exit) ==> |path| >= bfsPathLength + 1
      ensures forall q :: InGrid(width, height, q) ==>
        At(bfsGrid, q) == if q in bfsTrail then PATH
                          else if q in ReachableFrom(loaded, width, height, start) then SEEN
                          else At(loaded, q)
    {
      var out, len, visited;
      ghost var trail;
      out, len, visited, trail := Search.BreadthFirst(bfsGrid, width, height, start, exit);
      bfsGrid, bfsPathLength, bfsNumVisited, bfsTrail := out, len, visited, trail;
    }

    /** `A_star`, on the scratch table as loaded. The path it reports is a walk of
        `aStarPathLength + 1` cells, not necessarily a shortest one. */
    method AStarSearch()
      requires Valid() && aStarGrid == loaded && Reachable(Free(loaded, width, height), start, exit)
      modifies this`aStarGrid, this`aStarPathLength, this`aStarNumVisited, this`aStarTrail, this`aStarDone,
        this`aStarPops
      ensures Valid()
      ensures start in aStarDone && exit in aStarDone && aStarDone <= ReachableFrom(loaded, width, height, start)
      ensures |aStarDone| <= aStarNumVisited == |aStarPops| && forall q :: q in aStarDone <==> q in aStarPops
      ensures aStarPops[|aStarPops| - 1] == exit && exit !in aStarPops[..|aStarPops| - 1]
      ensures |aStarTrail| <= aStarPathLength + 1
      ensures PathFromTo(Free(loaded, width, height), Reverse(aStarTrail), start, exit)
      ensures exists path :: PathFromTo(Free(loaded, width, height), path, start, exit) && |path| == aStarPathLength + 1
      ensures forall q :: InGrid(width, height, q) ==>
        At(aStarGrid, q) == if q in aStarTrail then PATH else if q in aStarDone then SEEN else At(loaded, q)
    {
      var out, len, visited;
      ghost var trail, done, pops;
      out, len, visited, trail, done, pops := AStar.Search(aStarGrid, width, height, hArray, start, exit);
      aStarGrid, aStarPathLength, aStarNumVisited, aStarTrail, aStarDone, aStarPops :=
        out, len, visited, trail, done, pops;
    }

    /** The statistics block shared by the four wrappers. */
    method Record(value: int, distance: int)
      requires Valid()
      modifies this`stats
      ensures Valid()
      ensures stats == Tracker.Observe(old(stats), genPop, Tracker.Best(value, distance))
    {
      var counter, best, history := stats.counter, stats.best, stats.history;
      if counter == 0 {
        best := Some(Tracker.Best(value, distance));
      } else if best.value.value < value {
        best := Some(Tracker.Best(value, distance));
      }
      counter := counter + 1;
      if counter == genPop {
        counter := 0;
        history := history + [best.value];
      }
      stats := Tracker.Tracker(counter, best, history);
    }

    /** `fit_binary_fields_wrapper`: the least distance from the exit over the region
        the gene opens around the entrance, and the cells opened beyond the BFS path
        length, combined and recorded. */
    method FitBinaryFieldsWrapper(gene: seq<int>) returns (value: int, ghost distance: int, ghost extra: int)
      requires Valid() && |gene| <= |binaryMap|
      modifies this`stats
      ensures Valid()
      ensures Occupancy.Least(hArray, width, height, distance,
                              Occupancy.Region(Occupancy.Opened(start, exit, binaryMap, gene), start))
      ensures distance == 0 <==> exit in Occupancy.Region(Occupancy.Opened(start, exit, binaryMap, gene), start)
      ensures extra >= 0 && extra >= Occupancy.Sum(gene) - bfsPathLength
      ensures extra == 0 || extra == Occupancy.Sum(gene) - bfsPathLength
      ensures value == Fitness.BinaryValue(distance, extra)
      ensures stats == Tracker.Observe(old(stats), genPop, Tracker.Best(value, distance))
    {
      var d, x := Occupancy.FitBinaryFields(width, height, start, exit, binaryMap, hArray, gene, bfsPathLength);
      distance, extra := d, x;
      value := Fitness.BinaryValue(d, x);
      Record(value, d);
    }

    /** `fit_collision_ends_wrapper`. */
    method FitCollisionEndsWrapper(gene: seq<int>) returns (value: int)
      requires Valid() && |gene| % 2 == 0
      modifies this`stats
      ensures Valid()
      ensures InGrid(width, height, Steps.Last(start, Walkers.EndsTrail(data, width, height, exit, start, gene)))
      ensures var d := At(hArray, Steps.Last(start, Walkers.EndsTrail(data, width, height, exit, start, gene)));
        value == Fitness.EndsValue(d) && stats == Tracker.Observe(old(stats), genPop, Tracker.Best(value, d))
    {
      var d, len := Walkers.FitEnds(data, hArray, width, height, start, exit, gene);
      value := Fitness.EndsValue(d);
      Record(value, d);
    }

    /** `fit_collision_stuns_wrapper`. */
    method FitCollisionStunsWrapper(gene: seq<int>) returns (value: int)
      requires Valid() && |gene| % 2 == 0
      modifies this`stats
      ensures Valid()
      ensures InGrid(width, height, Steps.Last(start, Walkers.Stuns(data, width, height, exit, start, gene).trail))
      ensures var r := Walkers.Stuns(data, width, height, exit, start, gene);
        var d := At(hArray, Steps.Last(start, r.trail));
        value == Fitness.StunsValue(d, r.coll) && stats == Tracker.Observe(old(stats), genPop, Tracker.Best(value, d))
    {
      var d, len, coll := Walkers.FitStuns(data, hArray, width, height, start, exit, gene);
      value := Fitness.StunsValue(d, coll);
      Record(value, d);
    }

    /** `fit_collision_smart_wrapper`, in exact integer arithmetic. */
    method FitCollisionSmartWrapper(gene: seq<int>) returns (value: int)
      requires Valid() && |gene| % 2 == 0
      modifies this`stats
      ensures Valid()
      ensures InGrid(width, height, Steps.Last(start, Walkers.Stuns(data, width, height, exit, start, gene).trail))
      ensures var r := Walkers.Stuns(data, width, height, exit, start, gene);
        var d := At(hArray, Steps.Last(start, r.trail));
        && value == Fitness.SmartValue(|r.trail|, r.coll, Walkers.Repeats(start, exit, r.trail), d,
                                       if exit in r.trail then 1 else 0)
        && stats == Tracker.Observe(old(stats), genPop, Tracker.Best(value, d))
    {
      var d, len, coll, rep, found := Walkers.FitSmart(data, hArray, width, height, start, exit, gene);
      value := Fitness.SmartValue(len, coll, rep, d, found);
      Record(value, d);
    }

    /** `predraw_binary_fields`, given the best individual's gene. */
    method PredrawBinaryFields(gene: seq<int>)
      requires Valid() && |gene| <= |binaryMap|
      modifies this`geneMap
      ensures Valid() && geneMap.Some?
      ensures Occupancy.Painted(data, geneMap.value, width, height, binaryMap, gene, |gene|)
    {
      var gm := Occupancy.DrawOccupancy(data, width, height, start, exit, binaryMap, gene);
      geneMap := Some(gm);
    }

    /** `predraw_collision_ends`, given the best individual's gene. */
    method PredrawCollisionEnds(gene: seq<int>)
      requires Valid() && |gene| % 2 == 0
      modifies this`geneMap
      ensures Valid() && geneMap.Some?
      ensures var trail := Walkers.EndsTrail(data, width, height, exit, start, gene);
        Overlays.Shows(data, geneMap.value, width, height, trail[..Overlays.FirstRepeat(trail)])
    {
      var gm := Overlays.DrawEnds(data, width, height, start, exit, gene);
      geneMap := Some(gm);
    }

    /** `predraw_collision_stuns`, given the best individual's gene. */
    method PredrawCollisionStuns(gene: seq<int>)
      requires Valid() && |gene| % 2 == 0
      modifies this`geneMap
      ensures Valid() && geneMap.Some?
      ensures Overlays.Shows(data, geneMap.value, width, height, Walkers.Stuns(data, width, height, exit, start, gene).trail)
    {
      var gm := Overlays.DrawStuns(data, width, height, start, exit, gene);
      geneMap := Some(gm);
    }

    /** `predraw_collision_smart`: the same drawing as `predraw_collision_stuns`. */
    method PredrawCollisionSmart(gene: seq<int>)
      requires Valid() && |gene| % 2 == 0
      modifies this`geneMap
      ensures Valid() && geneMap.Some?
      ensures Overlays.Shows(data, geneMap.value, width, height, Walkers.Stuns(data, width, height, exit, start, gene).trail)
    {
      var gm := Overlays.DrawStuns(data, width, height, start, exit, gene);
      geneMap := Some(gm);
    }

    /** `reset_history`. */
    method ResetHistory()
      requires Valid()
      modifies this`stats
      ensures Valid() && stats == Tracker.Reset()
    {
      stats := Tracker.Tracker(0, None, []);
    }

    /** The lines `show(mode)` prints: none for a table of `ShowPrintMax` cells or more.
        The gene overlay exists only after a `predraw_*`. */
    function Show(mode: Mode): (lines: seq<string>)
      reads this
      requires Valid() && (mode == GeneMode ==> geneMap.Some?)
      ensures width * height < ShowPrintMax ==> |lines| == height
      ensures width * height >= ShowPrintMax ==> lines == []
      ensures width * height < ShowPrintMax && mode == MapMode ==>
        forall y, x :: 0 <= y < height && 0 <= x < width ==>
          EMPTY <= data[y][x] <= EXIT && |lines[y]| == width && lines[y][x] == Render.Glyph(data[y][x])
    {
      var table := match mode
        case MapMode => data
        case BfsMode => bfsGrid
        case AStarMode => aStarGrid
        case GeneMode => geneMap.value;
      if width * height >= ShowPrintMax then []
      else if mode == MapMode then
        MapStates();
        Render.TableGlyphs(data, width, height);
        seq(height, y requires 0 <= y < height => Render.Line(table[y]))
      else seq(height, y requires 0 <= y < height => Render.Line(table[y]))
    }

    /** The map holds walls, empty cells, the entrance and the exit only. */
    lemma MapStates()
      requires Valid()
      ensures forall y, x :: 0 <= y < height && 0 <= x < width ==> EMPTY <= data[y][x] <= EXIT
    {
      forall y, x | 0 <= y < height && 0 <= x < width
        ensures EMPTY <= data[y][x] <= EXIT
      {
        assert At(data, Pos(x, y)) == data[y][x];
      }
    }
  }
}
