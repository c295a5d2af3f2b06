/**
 * The B3/S23 rule of Conway's Game of Life on the unbounded lattice, stated cell by cell,
 * and the generation it produces from a finite set of live cells.
 */
module Rule {
  import opened Lattice

  /** A live cell survives when two or three of its neighbours are alive. */
  predicate Survives(cells: set<Cell>, p: Cell)
  {
    LiveCount(cells, p) == 2 || LiveCount(cells, p) == 3
  }

  /** A dead cell is born when exactly three of its neighbours are alive. */
  predicate Born(cells: set<Cell>, p: Cell)
  {
    LiveCount(cells, p) == 3
  }

  /** Whether p is alive in the generation after `cells`. */
  predicate Lives(cells: set<Cell>, p: Cell)
  {
    if p in cells then Survives(cells, p) else Born(cells, p)
  }

  /** A cell together with the eight cells around it. */
  function Window(c: Cell): set<Cell>
  {
    Around(c.0, c.1) + {c}
  }

  /** Every live cell together with the eight cells around it: the union of the windows of `cells`. */
  ghost function Reach(cells: set<Cell>): set<Cell>
    decreases cells
  {
    if cells == {} then {} else var c :| c in cells; Window(c) + Reach(cells - {c})
  }

  /** The window of every live cell lies in `Reach(cells)`. */
  lemma {:induction false} WindowInReach(cells: set<Cell>, c: Cell, p: Cell)
    requires c in cells && p in Window(c)
    ensures p in Reach(cells)
    decreases cells
  {
    var d :| d in cells && Reach(cells) == Window(d) + Reach(cells - {d});
    if c != d {
      WindowInReach(cells - {d}, c, p);
    }
  }

  /** Every cell of `Reach(cells)` lies in the window of some live cell. */
  lemma {:induction false} ReachInWindows(cells: set<Cell>, p: Cell)
    requires p in Reach(cells)
    ensures exists c :: c in cells && p in Window(c)
    decreases cells
  {
    var d :| d in cells && Reach(cells) == Window(d) + Reach(cells - {d});
    if p !in Window(d) {
      ReachInWindows(cells - {d}, p);
    }
  }

  /** The cells of `domain` that the rule keeps alive in the generation after `cells`. */
  ghost function Select(cells: set<Cell>, domain: set<Cell>): set<Cell>
    decreases domain
  {
    if domain == {} then {} else
      var p :| p in domain;
      (if Lives(cells, p) then {p} else {}) + Select(cells, domain - {p})
  }

  /** Select keeps exactly the cells of `domain` that live. */
  lemma {:induction false} SelectMembers(cells: set<Cell>, domain: set<Cell>, p: Cell)
    ensures p in Select(cells, domain) <==> p in domain && Lives(cells, p)
    decreases domain
  {
    if domain != {} {
      var q :| q in domain && Select(cells, domain) ==
        (if Lives(cells, q) then {q} else {}) + Select(cells, domain - {q});
      SelectMembers(cells, domain - {q}, p);
    }
  }

  /** The next generation: the cells of the finite area `Reach(cells)` that the rule keeps alive. */
  ghost function Next(cells: set<Cell>): set<Cell>
  {
    Select(cells, Reach(cells))
  }

  /** The generation k steps after `cells`. */
  ghost function Iterate(cells: set<Cell>, k: nat): set<Cell>
    decreases k
  {
    if k == 0 then cells else Iterate(Next(cells), k - 1)
  }

  /** The generation k + 1 steps after `cells` is the step after generation k. */
  lemma {:induction false} IterateLast(cells: set<Cell>, k: nat)
    ensures Iterate(cells, k + 1) == Next(Iterate(cells, k))
    decreases k
  {
    if k > 0 {
      IterateLast(Next(cells), k - 1);
    }
  }

  /** A live cell, and a cell with a live neighbour, lie in `Reach(cells)`. */
  lemma InReach(cells: set<Cell>, p: Cell)
    requires p in cells || LiveCount(cells, p) > 0
    ensures p in Reach(cells)
  {
    if p in cells {
      WindowInReach(cells, p, p);
    } else {
      var q :| q in LiveNeighbours(cells, p);
      AroundIsAdjacent(q.0, q.1);
      WindowInReach(cells, q, p);
    }
  }

  /**
   * Next is the rule applied to every cell of the lattice: restricting it to the finite
   * area `Reach(cells)` loses no cell.
   */
  lemma NextMembers(cells: set<Cell>, p: Cell)
    ensures p in Next(cells) <==> Lives(cells, p)
  {
    SelectMembers(cells, Reach(cells), p);
    if Lives(cells, p) {
      InReach(cells, p);
    }
  }

  /** A cell alive before the step is alive after it iff two or three of its neighbours were alive. */
  lemma SurvivalRule(cells: set<Cell>, p: Cell)
    requires p in cells
    ensures p in Next(cells) <==> LiveCount(cells, p) == 2 || LiveCount(cells, p) == 3
  {
    NextMembers(cells, p);
  }

  /** A cell dead before the step is alive after it iff exactly three of its neighbours were alive. */
  lemma BirthRule(cells: set<Cell>, p: Cell)
    requires p !in cells
    ensures p in Next(cells) <==> LiveCount(cells, p) == 3
  {
    NextMembers(cells, p);
  }

  /** Every cell of the next generation is a live cell or borders one. */
  lemma NextIsLocal(cells: set<Cell>, p: Cell)
    requires p in Next(cells)
    ensures p in cells || exists q :: q in cells && Adjacent(q, p)
  {
    SelectMembers(cells, Reach(cells), p);
    ReachInWindows(cells, p);
    var c :| c in cells && p in Window(c);
    AroundIsAdjacent(c.0, c.1);
    if p != c {
      assert Adjacent(c, p);
    }
  }

  /** The empty lattice stays empty. */
  lemma EmptyIsFixed()
    ensures Next({}) == {}
  {
  }

  /** The 2 by 2 block whose lower-left cell is (x, y). */
  function Block(x: int, y: int): set<Cell>
  {
    {(x, y), (x + 1, y), (x, y + 1), (x + 1, y + 1)}
  }

  /** A set inside a two-element set has at most two elements. */
  lemma AtMostPair(s: set<Cell>, a: Cell, b: Cell)
    requires s <= {a, b}
    ensures |s| <= 2
  {
    if a in s && b in s {
      assert s == {a, b};
    } else if a in s {
      assert s == {a};
    } else if b in s {
      assert s == {b};
    } else {
      assert s == {};
    }
  }

  /** A cell outside a block borders at most two of its cells. */
  lemma BlockOutsideCount(x: int, y: int, p: Cell)
    requires p !in Block(x, y)
    ensures LiveCount(Block(x, y), p) <= 2
  {
    var n := LiveNeighbours(Block(x, y), p);
    if p.0 < x {
      assert n <= {(x, y), (x, y + 1)};
      AtMostPair(n, (x, y), (x, y + 1));
    } else if p.0 > x + 1 {
      assert n <= {(x + 1, y), (x + 1, y + 1)};
      AtMostPair(n, (x + 1, y), (x + 1, y + 1));
    } else if p.1 < y {
      assert n <= {(x, y), (x + 1, y)};
      AtMostPair(n, (x, y), (x + 1, y));
    } else {
      assert n <= {(x, y + 1), (x + 1, y + 1)};
      AtMostPair(n, (x, y + 1), (x + 1, y + 1));
    }
  }

  /** Each cell of a block borders the other three. */
  lemma BlockInsideCount(x: int, y: int, p: Cell)
    requires p in Block(x, y)
    ensures LiveCount(Block(x, y), p) == 3
  {
    assert LiveNeighbours(Block(x, y), p) == Block(x, y) - {p};
  }

  /** The 2 by 2 block is a still life wherever it lies: the step never clips to an extent. */
  lemma BlockIsStill(x: int, y: int)
    ensures Next(Block(x, y)) == Block(x, y)
  {
    forall p
      ensures p in Next(Block(x, y)) <==> p in Block(x, y)
    {
      NextMembers(Block(x, y), p);
      if p in Block(x, y) {
        BlockInsideCount(x, y, p);
      } else {
        BlockOutsideCount(x, y, p);
      }
    }
  }

  /** The horizontal blinker phase: three cells in a row centred on (x, y). */
  function Horizontal(x: int, y: int): set<Cell>
  {
    {(x - 1, y), (x, y), (x + 1, y)}
  }

  /** The vertical blinker phase: three cells in a column centred on (x, y). */
  function Vertical(x: int, y: int): set<Cell>
  {
    {(x, y - 1), (x, y), (x, y + 1)}
  }

  /** The rule keeps alive after the horizontal phase exactly the cells of the vertical phase. */
  lemma HorizontalLives(x: int, y: int, p: Cell)
    ensures Lives(Horizontal(x, y), p) <==> p in Vertical(x, y)
  {
    var h := Horizontal(x, y);
    var n := LiveNeighbours(h, p);
    if p == (x, y) {
      assert n == {(x - 1, y), (x + 1, y)};
    } else if p == (x - 1, y) || p == (x + 1, y) {
      assert n == {(x, y)};
    } else if p == (x, y - 1) || p == (x, y + 1) {
      assert n == h;
    } else if p.0 < x {
      assert n <= {(x - 1, y), (x, y)};
      AtMostPair(n, (x - 1, y), (x, y));
    } else if p.0 > x {
      assert n <= {(x, y), (x + 1, y)};
      AtMostPair(n, (x, y), (x + 1, y));
    } else {
      assert n == {};
    }
  }

  /** The rule keeps alive after the vertical phase exactly the cells of the horizontal phase. */
  lemma VerticalLives(x: int, y: int, p: Cell)
    ensures Lives(Vertical(x, y), p) <==> p in Horizontal(x, y)
  {
    var v := Vertical(x, y);
    var n := LiveNeighbours(v, p);
    if p == (x, y) {
      assert n == {(x, y - 1), (x, y + 1)};
    } else if p == (x, y - 1) || p == (x, y + 1) {
      assert n == {(x, y)};
    } else if p == (x - 1, y) || p == (x + 1, y) {
      assert n == v;
    } else if p.1 < y {
      assert n <= {(x, y - 1), (x, y)};
      AtMostPair(n, (x, y - 1), (x, y));
    } else if p.1 > y {
      assert n <= {(x, y), (x, y + 1)};
      AtMostPair(n, (x, y), (x, y + 1));
    } else {
      assert n == {};
    }
  }

  /** The blinker oscillates with period two wherever it lies: each phase steps to the other. */
  lemma BlinkerOscillates(x: int, y: int)
    ensures Next(Horizontal(x, y)) == Vertical(x, y)
    ensures Next(Vertical(x, y)) == Horizontal(x, y)
    ensures Iterate(Horizontal(x, y), 2) == Horizontal(x, y) != Vertical(x, y)
  {
    forall p
      ensures p in Next(Horizontal(x, y)) <==> p in Vertical(x, y)
    {
      NextMembers(Horizontal(x, y), p);
      HorizontalLives(x, y, p);
    }
    forall p
      ensures p in Next(Vertical(x, y)) <==> p in Horizontal(x, y)
    {
      NextMembers(Vertical(x, y), p);
      VerticalLives(x, y, p);
    }
    assert (x - 1, y) !in Vertical(x, y);
  }
}
