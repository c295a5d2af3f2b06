/**
 * One generation step as the program computes it: copy the live cells, remove the ones
 * that die, count how many live cells border each dead cell, then add the dead cells
 * whose count is exactly three.
 */
module Stepper {
  import opened Lattice
  import opened Rule

  /** The count a defaulting integer dictionary holds for p: 0 for a key it has not seen. */
  function Freq(m: map<Cell, int>, p: Cell): int
  {
    if p in m then m[p] else 0
  }

  /** Adding one live cell c raises by one the live count of each cell around c, and of no other cell. */
  lemma LiveCountAdd(done: set<Cell>, c: Cell, p: Cell)
    requires c !in done
    ensures LiveCount(done + {c}, p) == LiveCount(done, p) + (if Adjacent(c, p) then 1 else 0)
  {
    if Adjacent(c, p) {
      assert LiveNeighbours(done + {c}, p) == LiveNeighbours(done, p) + {c};
    } else {
      assert LiveNeighbours(done + {c}, p) == LiveNeighbours(done, p);
    }
  }

  /**
   * Visiting the live cell c, which adds one to the count of each dead cell around it,
   * turns the counts for the visited cells `done` into the counts for `done + {c}`.
   */
  lemma CountsAfterVisit(cells: set<Cell>, done: set<Cell>, c: Cell, dead: set<Cell>,
                         before: map<Cell, int>, after: map<Cell, int>)
    requires c !in done
    requires forall q :: q in dead <==> q !in cells && Adjacent(q, c)
    requires forall p :: p !in cells ==> Freq(before, p) == LiveCount(done, p)
    requires forall p :: Freq(after, p) == Freq(before, p) + (if p in dead then 1 else 0)
    ensures forall p :: p !in cells ==> Freq(after, p) == LiveCount(done + {c}, p)
  {
    forall p | p !in cells
      ensures Freq(after, p) == LiveCount(done + {c}, p)
    {
      LiveCountAdd(done, c, p);
    }
  }

  /** Adds one to the count of every cell of `cells`, leaving every other count as it was. */
  method TallyNeighbours(freq: map<Cell, int>, cells: set<Cell>) returns (r: map<Cell, int>)
    ensures r.Keys == freq.Keys + cells
    ensures forall p :: Freq(r, p) == Freq(freq, p) + (if p in cells then 1 else 0)
  {
    r := freq;
    var unvisited := cells;
    while unvisited != {}
      invariant unvisited <= cells
      invariant r.Keys == freq.Keys + (cells - unvisited)
      invariant forall p :: Freq(r, p) == Freq(freq, p) + (if p in cells - unvisited then 1 else 0)
      decreases unvisited
    {
      var pos :| pos in unvisited;
      r := r[pos := Freq(r, pos) + 1];
      unvisited := unvisited - {pos};
    }
  }

  /** Adds to `cells` every key whose count is exactly three. */
  method AddBirths(cells: set<Cell>, freq: map<Cell, int>) returns (r: set<Cell>)
    ensures forall p :: p in r <==> p in cells || (p in freq && freq[p] == 3)
  {
    r := cells;
    var candidates := freq.Keys;
    while candidates != {}
      invariant candidates <= freq.Keys
      invariant forall p :: p in r <==> p in cells || (p in freq && p !in candidates && freq[p] == 3)
      decreases candidates
    {
      var pos :| pos in candidates;
      if freq[pos] == 3 {
        r := r + {pos};
      }
      candidates := candidates - {pos};
    }
  }

  /** The live cells that the step removes. */
  ghost function Dying(cells: set<Cell>): set<Cell>
  {
    set c | c in cells && !Survives(cells, c)
  }

  /** Visiting the live cell c removes it exactly when it dies. */
  lemma SurvivorsAfterVisit(cells: set<Cell>, done: set<Cell>, c: Cell, alive: set<Cell>,
                            before: set<Cell>, after: set<Cell>)
    requires c in cells
    requires alive == LiveNeighbours(cells, c)
    requires before == cells - (Dying(cells) * done)
    requires after == if |alive| != 2 && |alive| != 3 then before - {c} else before
    ensures after == cells - (Dying(cells) * (done + {c}))
  {
    assert c in Dying(cells) <==> |alive| != 2 && |alive| != 3;
  }

  /**
   * The body of the scan for one live cell c: remove c if it dies, and add one to the
   * count of every dead cell around c. If the counts were those of the cells `done`
   * visited so far, they become those of `done + {c}`.
   */
  method VisitCell(grid: Grid, c: Cell, ghost done: set<Cell>, newCells: set<Cell>, deathFreq: map<Cell, int>)
    returns (newCells': set<Cell>, deathFreq': map<Cell, int>)
    requires c in grid.cells && c !in done
    requires newCells == grid.cells - (Dying(grid.cells) * done)
    requires deathFreq.Keys !! grid.cells
    requires forall p :: p !in grid.cells ==> Freq(deathFreq, p) == LiveCount(done, p)
    ensures newCells' == grid.cells - (Dying(grid.cells) * (done + {c}))
    ensures deathFreq'.Keys !! grid.cells
    ensures forall p :: p !in grid.cells ==> Freq(deathFreq', p) == LiveCount(done + {c}, p)
  {
    var neighbours := GetNeighbours(grid, c.0, c.1);
    newCells' := newCells;
    if |neighbours.alive| != 2 && |neighbours.alive| != 3 {
      newCells' := newCells' - {c};
    }
    SurvivorsAfterVisit(grid.cells, done, c, neighbours.alive, newCells, newCells');
    deathFreq' := TallyNeighbours(deathFreq, neighbours.dead);
    CountsAfterVisit(grid.cells, done, c, neighbours.dead, deathFreq, deathFreq');
  }

  /**
   * The scan over the live cells of `grid`: the cells that survive, and for every dead
   * cell the number of live cells around it. Every count is taken against `grid.cells`,
   * the generation before the step; the live cells are visited in an arbitrary order.
   */
  method ScanLiveCells(grid: Grid) returns (newCells: set<Cell>, deathFreq: map<Cell, int>)
    ensures newCells == grid.cells - Dying(grid.cells)
    ensures deathFreq.Keys !! grid.cells
    ensures forall p :: p !in grid.cells ==> Freq(deathFreq, p) == LiveCount(grid.cells, p)
  {
    newCells := grid.cells;
    deathFreq := map[];
    var pending := grid.cells;
    ghost var done: set<Cell> := {};
    while pending != {}
      invariant done + pending == grid.cells && done !! pending
      invariant newCells == grid.cells - (Dying(grid.cells) * done)
      invariant deathFreq.Keys !! grid.cells
      invariant forall p :: p !in grid.cells ==> Freq(deathFreq, p) == LiveCount(done, p)
      decreases pending
    {
      var c :| c in pending;
      newCells, deathFreq := VisitCell(grid, c, done, newCells, deathFreq);
      pending := pending - {c};
      done := done + {c};
    }
  }

  /** The next generation of `grid`, keeping its extent, output and blocker cells. */
  method IterateGrid(grid: Grid) returns (next: Grid)
    ensures next.dim == grid.dim && next.output == grid.output
    ensures next.falseA == grid.falseA && next.falseB == grid.falseB
    ensures next.cells == Next(grid.cells)
  {
    var newCells, deathFreq := ScanLiveCells(grid);
    newCells := AddBirths(newCells, deathFreq);
    forall p
      ensures p in newCells <==> p in Next(grid.cells)
    {
      NextMembers(grid.cells, p);
      if p in grid.cells {
        assert p in newCells <==> Survives(grid.cells, p);
        assert p !in deathFreq;
      } else {
        assert Freq(deathFreq, p) == LiveCount(grid.cells, p);
      }
    }
    next := Grid(grid.dim, grid.output, grid.falseA, grid.falseB, newCells);
  }
}
