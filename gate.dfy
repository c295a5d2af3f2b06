/**
 * The AND gate as data, and the configuration of its two inputs: a false input completes
 * the eater that swallows that input's glider stream, by adding its one missing cell.
 */
module Gate {
  import opened Lattice

  /** The Gosper glider gun of input A, which also carries the main signal stream. */
  function InputAGun(): set<Cell>
  {
    {
      (22, 8), (12, 7), (36, 7), (17, 9), (11, 8), (1, 9), (25, 4), (2, 8), (16, 7),
      (25, 10), (21, 6), (23, 9), (14, 6), (36, 6), (22, 7), (14, 12), (17, 8), (11, 10),
      (25, 9), (35, 7), (1, 8), (18, 9), (22, 6), (21, 8), (23, 5), (12, 11), (17, 10),
      (11, 9), (35, 6), (25, 5), (2, 9), (13, 6), (13, 12), (15, 9), (16, 11), (21, 7)
    }
  }

  /** The Gosper glider gun of input B, whose stream cancels the blocker stream. */
  function InputBGun(): set<Cell>
  {
    {
      (72, 7), (62, 6), (86, 6), (67, 8), (61, 7), (51, 8), (75, 3), (52, 4), (66, 6),
      (75, 9), (71, 5), (73, 8), (64, 5), (86, 5), (72, 6), (64, 11), (67, 7), (61, 9),
      (75, 8), (85, 6), (51, 7), (68, 8), (72, 5), (71, 7), (73, 4), (62, 10), (67, 9),
      (61, 8), (85, 5), (75, 4), (52, 8), (63, 5), (63, 11), (65, 8), (66, 10), (71, 6)
    }
  }

  /** The Gosper glider gun of the blocker stream, which stops signal A unless input B cancels it. */
  function BlockerGun(): set<Cell>
  {
    {
      (108, 7), (118, 6), (94, 6), (113, 8), (119, 7), (129, 8), (105, 3), (128, 4), (114, 6),
      (105, 9), (109, 5), (107, 8), (116, 5), (94, 5), (108, 6), (116, 11), (113, 7), (119, 9),
      (105, 8), (95, 6), (129, 7), (112, 8), (108, 5), (109, 7), (107, 4), (118, 10), (113, 9),
      (119, 8), (95, 5), (105, 4), (128, 8), (117, 5), (117, 11), (115, 8), (114, 10), (109, 6)
    }
  }

  /** The two eaters, each one cell short of complete: (24, 15) for input A, (74, 14) for input B. */
  function Eaters(): set<Cell>
  {
    {
      (24, 14), (25, 14), (25, 16), (26, 16), (27, 16), (27, 17),
      (74, 13), (75, 13), (75, 15), (76, 15), (77, 15), (77, 16)
    }
  }

  /** The AND gate: 150 by 150 cells, output cell (150, 138), blockers (24, 15) and (74, 14). */
  function AndGate(): Grid
  {
    Grid(Dim(150, 150), (150, 138), (24, 15), (74, 14), InputAGun() + InputBGun() + BlockerGun() + Eaters())
  }

  /** The grid with input A's eater completed, so that input A reads false. */
  function SetInputAFalse(grid: Grid): (r: Grid)
    ensures r.dim == grid.dim && r.output == grid.output
    ensures r.falseA == grid.falseA && r.falseB == grid.falseB
    ensures grid.falseA in r.cells && r.cells - {grid.falseA} == grid.cells - {grid.falseA}
  {
    Grid(grid.dim, grid.output, grid.falseA, grid.falseB, grid.cells + {grid.falseA})
  }

  /** The grid with input B's eater completed, so that input B reads false. */
  function SetInputBFalse(grid: Grid): (r: Grid)
    ensures r.dim == grid.dim && r.output == grid.output
    ensures r.falseA == grid.falseA && r.falseB == grid.falseB
    ensures grid.falseB in r.cells && r.cells - {grid.falseB} == grid.cells - {grid.falseB}
  {
    Grid(grid.dim, grid.output, grid.falseA, grid.falseB, grid.cells + {grid.falseB})
  }

  /** An answer to an input prompt reads false only when it is exactly "False" or "false". */
  predicate IsFalseAnswer(answer: string)
  {
    answer == "False" || answer == "false"
  }

  /**
   * The starting grid for the two answers: each input is configured on its own, and a
   * blocker cell is added exactly for the inputs whose answer reads false.
   */
  function Configure(grid: Grid, answerA: string, answerB: string): (r: Grid)
    ensures r.dim == grid.dim && r.output == grid.output
    ensures r.falseA == grid.falseA && r.falseB == grid.falseB
    ensures forall p :: p in r.cells <==>
      p in grid.cells || (p == grid.falseA && IsFalseAnswer(answerA)) || (p == grid.falseB && IsFalseAnswer(answerB))
  {
    var withA := if IsFalseAnswer(answerA) then SetInputAFalse(grid) else grid;
    if IsFalseAnswer(answerB) then SetInputBFalse(withA) else withA
  }

  /** The two inputs are independent: completing both eaters adds both blockers, in either order. */
  lemma SetInputsCommute(grid: Grid)
    ensures SetInputAFalse(SetInputBFalse(grid)) == SetInputBFalse(SetInputAFalse(grid))
    ensures SetInputAFalse(SetInputBFalse(grid)).cells == grid.cells + {grid.falseA, grid.falseB}
  {
  }

  /** The three special cells of the AND gate: its two blocker cells and its output cell. */
  predicate SpecialCell(p: Cell)
  {
    p == (24, 15) || p == (74, 14) || p == (150, 138)
  }

  /** No special cell belongs to the gun of input A. */
  lemma SpecialCellNotInInputAGun(p: Cell)
    requires SpecialCell(p)
    ensures p !in InputAGun()
  {
  }

  /** No special cell belongs to the gun of input B. */
  lemma SpecialCellNotInInputBGun(p: Cell)
    requires SpecialCell(p)
    ensures p !in InputBGun()
  {
  }

  /** No special cell belongs to the blocker gun. */
  lemma SpecialCellNotInBlockerGun(p: Cell)
    requires SpecialCell(p)
    ensures p !in BlockerGun()
  {
  }

  /** No special cell belongs to the eaters. */
  lemma SpecialCellNotInEaters(p: Cell)
    requires SpecialCell(p)
    ensures p !in Eaters()
  {
  }

  /** The blocker cells and the output cell of the AND gate are dead at the start. */
  lemma AndGateSpecialCellsMissing()
    ensures AndGate().falseA !in AndGate().cells
    ensures AndGate().falseB !in AndGate().cells
    ensures AndGate().output !in AndGate().cells
  {
    forall p | SpecialCell(p)
      ensures p !in AndGate().cells
    {
      SpecialCellNotInInputAGun(p);
      SpecialCellNotInInputBGun(p);
      SpecialCellNotInBlockerGun(p);
      SpecialCellNotInEaters(p);
    }
  }

  /** So for the AND gate a false answer really changes the starting cells, and any other answer does not. */
  lemma AndGateAnswers()
    ensures Configure(AndGate(), "False", "true").cells == AndGate().cells + {AndGate().falseA} != AndGate().cells
    ensures Configure(AndGate(), "True", "false").cells == AndGate().cells + {AndGate().falseB} != AndGate().cells
    ensures Configure(AndGate(), "FALSE", "no").cells == AndGate().cells
  {
    AndGateSpecialCellsMissing();
  }
}
