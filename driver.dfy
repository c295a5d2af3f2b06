/**
 * The decision loop of the program: step the configured gate up to 600 times and report
 * whether the output cell became alive. Drawing, pacing and window events are not modelled.
 */
module Driver {
  import opened Lattice
  import opened Rule
  import opened Stepper
  import opened Gate

  /** The generation budget of the AND gate. */
  const MaxGenerations: nat := 600

  /** `output` is alive k steps after `cells`, and at none of the steps 1 .. k - 1. */
  ghost predicate FirstReached(cells: set<Cell>, output: Cell, k: nat)
  {
    1 <= k && output in Iterate(cells, k) &&
    forall j :: 1 <= j < k ==> output !in Iterate(cells, j)
  }

  /** If the output is missing at steps 1 .. k - 1 and at step k (when k >= 1), it is missing at steps 1 .. k. */
  lemma NotYetReached(cells: set<Cell>, output: Cell, k: nat)
    requires forall j :: 1 <= j < k ==> output !in Iterate(cells, j)
    requires !(1 <= k && output in Iterate(cells, k))
    ensures forall j :: 1 <= j < k + 1 ==> output !in Iterate(cells, j)
  {
  }

  /** One generation of the run that started from `start`: generation k becomes generation k + 1. */
  method Advance(ghost start: Grid, ghost k: nat, current: Grid) returns (next: Grid)
    requires current == start.(cells := Iterate(start.cells, k))
    ensures next == start.(cells := Iterate(start.cells, k + 1))
  {
    next := IterateGrid(current);
    IterateLast(start.cells, k);
  }

  /**
   * Steps `grid` until a step makes the output cell alive or the budget is spent. The
   * starting generation itself is never checked. `falseReported` says whether the budget
   * ran out, which is when the program announces a false output; when the output first
   * appears on the last step both announcements are made.
   */
  method Simulate(grid: Grid) returns (final: Grid, counter: nat, verdict: bool, falseReported: bool)
    ensures counter <= MaxGenerations
    ensures final == grid.(cells := Iterate(grid.cells, counter))
    ensures verdict <==> exists k :: 1 <= k <= MaxGenerations && grid.output in Iterate(grid.cells, k)
    ensures verdict ==> FirstReached(grid.cells, grid.output, counter)
    ensures !verdict ==> counter == MaxGenerations
    ensures falseReported <==> counter == MaxGenerations
  {
    final := grid;
    counter := 0;
    verdict := false;
    falseReported := false;
    while counter < MaxGenerations && !verdict
      invariant counter <= MaxGenerations
      invariant final == grid.(cells := Iterate(grid.cells, counter))
      invariant forall j :: 1 <= j < counter ==> grid.output !in Iterate(grid.cells, j)
      invariant verdict <==> 1 <= counter && grid.output in Iterate(grid.cells, counter)
      invariant falseReported <==> counter == MaxGenerations
    {
      NotYetReached(grid.cells, grid.output, counter);
      final := Advance(grid, counter, final);
      if final.output in final.cells {
        verdict := true;
      }
      counter := counter + 1;
      if counter == MaxGenerations {
        falseReported := true;
      }
    }
    if verdict {
      assert 1 <= counter <= MaxGenerations && grid.output in Iterate(grid.cells, counter);
    }
  }

  /**
   * The whole program without its input and output: configure `gate` from the two
   * answers, then run it. The program passes the AND gate, `AndGate()`. The verdict is
   * whether the output cell is alive after some step 1 .. 600 of the configured gate.
   */
  method Play(gate: Grid, answerA: string, answerB: string) returns (verdict: bool, falseReported: bool)
    ensures verdict <==>
      exists k :: 1 <= k <= MaxGenerations && gate.output in Iterate(Configure(gate, answerA, answerB).cells, k)
    ensures falseReported <==>
      !verdict || FirstReached(Configure(gate, answerA, answerB).cells, gate.output, MaxGenerations)
  {
    var grid := Configure(gate, answerA, answerB);
    var final, counter;
    final, counter, verdict, falseReported := Simulate(grid);
  }
}
