# Game of Life AND gate, modelled in Dafny

The program simulates Conway's Game of Life (rule B3/S23) on an unbounded integer
lattice. On top of it sits an AND gate built from three Gosper glider guns and two eaters.
The user answers two prompts. An answer of exactly `False` or `false` adds the one missing
cell of that input's eater, which turns the input off. The program then steps the gate up
to 600 times and reports whether the output cell `(150, 138)` became alive.

The model has five modules:

- `Lattice` (`lattice.dfy`): the `Dim`, `Grid` and `Neighbours` records, the eight
  neighbour offsets, and `get_neighbours`. The dead/alive split is stated against an
  independent adjacency predicate (`Adjacent`), not against the offsets.
- `Rule` (`rule.dfy`): the reference semantics. `Next(cells)` is the set of cells the rule
  keeps alive, taken over the finite area of live cells and their neighbours, and
  `Iterate(cells, k)` is k generations. Lemmas say which cells survive, which are born,
  that every new cell borders an old one, that the empty set and any 2 by 2 block are
  fixed points, and that the blinker oscillates with period two. `Next` takes no extent,
  and `Stepper.IterateGrid` is proved to return `Next` of its cells, so a step never clips
  to the grid's extent. `BlockIsStill` and `BlinkerOscillates` hold at any coordinates,
  including coordinates outside it.
- `Stepper` (`stepper.dfy`): `iterate_grid` as an imperative method. It copies the live
  cells, removes those that die, counts into a defaulting dictionary how many live cells
  border each dead cell, and adds the cells whose count is exactly three. It is proved
  equal to `Next`. Python iterates over a set in no fixed order; every such loop is
  modelled by an arbitrary choice, so the proof covers every order. All counts are taken
  against the generation before the step.
- `Gate` (`gate.dfy`): the AND gate's cells as data, `set_input_a_false`,
  `set_input_b_false`, and the reading of the two answers.
- `Driver` (`driver.dfy`): the decision loop of `main` without its input and output.

Python tuples and sets are values here. `deepcopy` of the cells is therefore plain value
copying, and the argument grid of every operation is unchanged.

When the output cell first becomes alive on step 600, the program prints both "The output
is True!" and "The output is False!". The model keeps this behaviour: `falseReported` is
true exactly when the budget of 600 steps is used up, whatever the verdict.

## Model

| member | source | states |
|---|---|---|
| Lattice.Offsets | GameOfLife_ANDGate.py:48-49 | the eight neighbour offsets, in the order the program lists them |
| Lattice.OffsetsGiveAround | GameOfLife_ANDGate.py:48-50 | shifting (x, y) by the eight listed offsets gives exactly the eight cells around (x, y) |
| Lattice.AroundIsAdjacent | GameOfLife_ANDGate.py:48-50 | the eight cells around (x, y) are distinct, and are exactly the cells at Moore distance one from (x, y), which excludes (x, y) itself |
| Lattice.PossibleNeighbours | GameOfLife_ANDGate.py:48-50 | the offset coordinates are exactly the cells adjacent to (x, y), and there are eight of them |
| Lattice.GetNeighbours | GameOfLife_ANDGate.py:47-53 | `alive` holds exactly the adjacent cells in the grid and `dead` exactly the adjacent cells not in it. So the two are disjoint, their union is the eight neighbours, (x, y) is in neither, and `alive` is the live-neighbour set the rule counts |
| Rule.SelectMembers | GameOfLife_ANDGate.py:60-69 | selecting from a finite domain, in any order of visit, keeps exactly the cells of the domain that the rule keeps alive |
| Rule.NextMembers | GameOfLife_ANDGate.py:56-71 | a cell is in the next generation iff the B3/S23 rule says it lives; restricting the step to live cells and their neighbours loses no cell |
| Rule.SurvivalRule | GameOfLife_ANDGate.py:60-63 | a cell alive before the step is alive after it iff two or three of its neighbours were alive |
| Rule.BirthRule | GameOfLife_ANDGate.py:58-69 | a cell dead before the step is alive after it iff exactly three of its neighbours were alive |
| Rule.NextIsLocal | GameOfLife_ANDGate.py:60-71 | every cell of the next generation was alive or bordered a live cell |
| Rule.EmptyIsFixed | GameOfLife_ANDGate.py:60-71 | the empty set steps to the empty set |
| Rule.BlockOutsideCount | GameOfLife_ANDGate.py:60-69 | a cell outside a 2 by 2 block borders at most two of its cells, so it is never born |
| Rule.BlockInsideCount | GameOfLife_ANDGate.py:60-63 | each cell of a 2 by 2 block has exactly three live neighbours, so it survives |
| Rule.BlockIsStill | GameOfLife_ANDGate.py:56-71 | a 2 by 2 block at any coordinates, including coordinates outside the grid's extent, is a fixed point of the step |
| Rule.HorizontalLives | GameOfLife_ANDGate.py:60-69 | after a horizontal line of three cells, the rule keeps alive exactly the vertical line of three through its centre |
| Rule.VerticalLives | GameOfLife_ANDGate.py:60-69 | after a vertical line of three cells, the rule keeps alive exactly the horizontal line of three through its centre |
| Rule.BlinkerOscillates | GameOfLife_ANDGate.py:56-71 | the blinker at any coordinates turns from horizontal to vertical and back, so it returns after two steps and not after one |
| Rule.IterateLast | GameOfLife_ANDGate.py:97-108 | k + 1 generations are one step after k generations |
| Stepper.Freq | GameOfLife_ANDGate.py:58-66 | the read of a defaulting integer dictionary: the stored count, or 0 for a key not yet seen |
| Stepper.LiveCountAdd | GameOfLife_ANDGate.py:65-66 | adding one live cell raises by one the live count of exactly the cells around it |
| Stepper.TallyNeighbours | GameOfLife_ANDGate.py:65-66 | the increment loop adds one to the defaulting count of every given cell, leaves every other count alone, and inserts exactly the given keys |
| Stepper.CountsAfterVisit | GameOfLife_ANDGate.py:60-66 | tallying the dead neighbours of one more live cell turns the counts for the visited cells into the counts for the visited cells plus that one |
| Stepper.SurvivorsAfterVisit | GameOfLife_ANDGate.py:60-63 | removing the visited cell when its live count is not 2 or 3 removes exactly the dying cells visited so far |
| Stepper.VisitCell | GameOfLife_ANDGate.py:60-66 | one pass of the scan loop keeps the two loop invariants: the working set lacks exactly the dying cells visited, and each dead cell's count is its number of visited live neighbours |
| Stepper.ScanLiveCells | GameOfLife_ANDGate.py:57-66 | after the scan, the working set holds exactly the surviving cells, no live cell is a key of the counts, and each dead cell's count is its number of live neighbours in the pre-step set |
| Stepper.AddBirths | GameOfLife_ANDGate.py:68-69 | a cell is in the result iff it was in the working set or its count is exactly three |
| Stepper.IterateGrid | GameOfLife_ANDGate.py:56-71 | the returned cells are exactly `Next` of the input cells, and the extent, output and blocker cells are carried over |
| Gate.InputAGun | GameOfLife_ANDGate.py:15-19 | the 36 cells of the glider gun of input A, as listed |
| Gate.InputBGun | GameOfLife_ANDGate.py:20-24 | the 36 cells of the glider gun of input B, as listed |
| Gate.BlockerGun | GameOfLife_ANDGate.py:25-29 | the 36 cells of the glider gun of the blocker stream, as listed |
| Gate.Eaters | GameOfLife_ANDGate.py:30-32 | the 12 cells of the two incomplete eaters, as listed |
| Gate.AndGate | GameOfLife_ANDGate.py:12-32 | the AND gate: extent 150 by 150, output cell (150, 138), blockers (24, 15) and (74, 14), and the union of the four groups of cells |
| Gate.SetInputAFalse | GameOfLife_ANDGate.py:35-38 | the result's cells are the input cells plus the blocker of input A, and every other field is carried over |
| Gate.SetInputBFalse | GameOfLife_ANDGate.py:41-44 | the result's cells are the input cells plus the blocker of input B, and every other field is carried over |
| Gate.SetInputsCommute | GameOfLife_ANDGate.py:86-89 | the two inputs are independent: both false, in either order, gives the cells plus both blockers |
| Gate.IsFalseAnswer | GameOfLife_ANDGate.py:86-88 | an answer reads false only when it is exactly `False` or `false` |
| Gate.Configure | GameOfLife_ANDGate.py:86-89 | a cell is in the configured gate iff it was in the gate, or it is a blocker whose answer is exactly `False` or `false` |
| Gate.AndGateSpecialCellsMissing | GameOfLife_ANDGate.py:13-32 | neither blocker cell nor the output cell is alive in the AND gate's starting cells |
| Gate.AndGateAnswers | GameOfLife_ANDGate.py:84-89 | for the AND gate, a false answer really adds a cell, and answers such as `FALSE` or `no` leave the gate unchanged |
| Driver.MaxGenerations | GameOfLife_ANDGate.py:97-109 | the budget of 600 generations |
| Driver.Advance | GameOfLife_ANDGate.py:103 | one call of the stepper turns generation k of a run into generation k + 1 |
| Driver.Simulate | GameOfLife_ANDGate.py:95-110 | the loop stops after at most 600 steps. The verdict holds iff the output cell is alive after some step 1 .. 600; the starting generation is never checked. On a true verdict the loop stopped at the first such step. The false message is reported iff all 600 steps ran |
| Driver.Play | GameOfLife_ANDGate.py:82-110 | the verdict for two answers is whether the output is alive after some step 1 .. 600 of the configured gate. The false message is reported iff the verdict is false or the output first appears on step 600 |

## Left out

- `draw_grid` and every pygame call (init, window, fill, flip, event polling, quit) are left out. They are rendering and window I/O, and `draw_grid` computes floating-point cell sizes.
- The `input()` prompts are left out. The two answers are string parameters of `Driver.Play`.
- The `print` messages are left out. They are the out-parameters `verdict` and `falseReported`.
- The speed-up answer and the `time.sleep` pauses only pace the animation, so they are left out.
- The exit on a window close event (`sys.exit`) is event I/O and is left out. The model runs the loop to its end.
- `deepcopy` is left out as a library call. The model uses value semantics, so it is plain copying.
- `main` always runs the AND gate. `Driver.Play` takes the gate as a parameter, and the program's call is `Play(AndGate(), a, b)`.
- Concrete outcomes of the AND gate over 600 generations of about 150 cells are not proved. This much concrete evaluation is out of the verifier's reach. The model proves what the loop decides for whatever the generations are.
- The glider's translation by one cell diagonally every four generations is not proved. It would need the per-cell count case analysis of the blinker for each of the glider's four phases. Only the block and the blinker are proved as concrete patterns.
- 32-bit or float effects do not arise. Python integers are unbounded, and so are the model's.
