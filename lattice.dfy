/** Cells, grids and the neighbourhood of a cell on the unbounded integer lattice. */
module Lattice {

  /** A lattice coordinate (x, y). Neither component is bounded. */
  type Cell = (int, int)

  /** The nominal extent of a gate, in cells. It only scales the drawing; stepping never clips to it. */
  datatype Dim = Dim(width: int, height: int)

  /** A gate: its extent, its output cell, the two blocker cells and the current live cells. */
  datatype Grid = Grid(dim: Dim, output: Cell, falseA: Cell, falseB: Cell, cells: set<Cell>)

  /** The eight neighbours of one cell, split into those that are alive and those that are dead. */
  datatype Neighbours = Neighbours(alive: set<Cell>, dead: set<Cell>)

  /** The offsets of the eight neighbours, in the order the program lists them. */
  const Offsets: seq<(int, int)> := [(-1, -1), (0, -1), (1, -1), (-1, 0), (1, 0), (-1, 1), (0, 1), (1, 1)]

  /** p and q are distinct and touch by a side or a corner (Moore neighbourhood). */
  predicate Adjacent(p: Cell, q: Cell)
  {
    p != q && -1 <= p.0 - q.0 <= 1 && -1 <= p.1 - q.1 <= 1
  }

  /** The live cells of `cells` adjacent to p. */
  function LiveNeighbours(cells: set<Cell>, p: Cell): set<Cell>
  {
    set q | q in cells && Adjacent(q, p)
  }

  /** How many live cells of `cells` border p. */
  function LiveCount(cells: set<Cell>, p: Cell): nat
  {
    |LiveNeighbours(cells, p)|
  }

  /**
   * The eight cells around (x, y), written out. It only serves the proofs, as the
   * intermediate between the offset comprehension and `Adjacent`.
   */
  function Around(x: int, y: int): set<Cell>
  {
    {(x - 1, y - 1), (x, y - 1), (x + 1, y - 1), (x - 1, y),
     (x + 1, y), (x - 1, y + 1), (x, y + 1), (x + 1, y + 1)}
  }

  /** The comprehension over the offsets that the program builds; `PossibleNeighbours` returns it. */
  function Shifted(x: int, y: int): set<Cell>
  {
    set o | o in Offsets :: (x + o.0, y + o.1)
  }

  /** Each offset lands on one of the eight cells around (x, y). */
  lemma ShiftedInAround(x: int, y: int, q: Cell)
    requires q in Shifted(x, y)
    ensures q in Around(x, y)
  {
    var o :| o in Offsets && q == (x + o.0, y + o.1);
    assert o == Offsets[0] || o == Offsets[1] || o == Offsets[2] || o == Offsets[3] ||
           o == Offsets[4] || o == Offsets[5] || o == Offsets[6] || o == Offsets[7];
  }

  /** Each of the eight cells around (x, y) is reached by an offset. */
  lemma AroundInShifted(x: int, y: int, q: Cell)
    requires q in Around(x, y)
    ensures q in Shifted(x, y)
  {
    var o := (q.0 - x, q.1 - y);
    assert o in Offsets;
    assert q == (x + o.0, y + o.1);
  }

  /** Shifting (x, y) by each of the eight offsets gives the eight cells around it. */
  lemma OffsetsGiveAround(x: int, y: int)
    ensures Shifted(x, y) == Around(x, y)
  {
    forall q | q in Shifted(x, y)
      ensures q in Around(x, y)
    {
      ShiftedInAround(x, y, q);
    }
    forall q | q in Around(x, y)
      ensures q in Shifted(x, y)
    {
      AroundInShifted(x, y, q);
    }
  }

  /** The eight cells around (x, y) are distinct and are exactly the cells adjacent to it. */
  lemma AroundIsAdjacent(x: int, y: int)
    ensures forall q :: q in Around(x, y) <==> Adjacent(q, (x, y))
    ensures |Around(x, y)| == 8
  {
  }

  /** The cells at the eight offsets around (x, y): exactly the cells adjacent to it. */
  function PossibleNeighbours(x: int, y: int): (s: set<Cell>)
    ensures forall q :: q in s <==> Adjacent(q, (x, y))
    ensures |s| == 8
  {
    OffsetsGiveAround(x, y);
    AroundIsAdjacent(x, y);
    Shifted(x, y)
  }

  /**
   * Splits the neighbours of (x, y) into those alive in `grid.cells` and those that
   * are dead: together exactly the eight adjacent cells, never (x, y) itself.
   */
  function GetNeighbours(grid: Grid, x: int, y: int): (n: Neighbours)
    ensures forall q :: q in n.alive <==> q in grid.cells && Adjacent(q, (x, y))
    ensures forall q :: q in n.dead <==> q !in grid.cells && Adjacent(q, (x, y))
    ensures n.alive == LiveNeighbours(grid.cells, (x, y))
    ensures |n.alive| + |n.dead| == 8
  {
    var possible := PossibleNeighbours(x, y);
    var alive := set pos | pos in possible && pos in grid.cells;
    Neighbours(alive, possible - alive)
  }
}
