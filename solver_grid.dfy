/** The grid-level solver of Domain/PiCross/SolverGrid.cs: a grid of mutable
    squares, all Unknown at first, refined one column or row at a time by the
    line-refinement routine, swept column by column and row by row, and
    repeated until a whole pass changes nothing.

    The functions on grid values below say what each operation computes; the
    class `SolverGrid` performs it in place on its cells and is proved to agree
    with them. */
module SolverGrids {
  import opened Wrappers
  import opened Grids
  import opened Domain

  /** h keeps every known square of g: the only change refinement may make. */
  ghost predicate GridRefines(g: Grid<Square>, h: Grid<Square>)
  {
    && g.Valid() && h.Valid() && g.size == h.size
    && forall p :: IsValidPosition(g.size, p) && g.At(p) != Unknown ==> h.At(p) == g.At(p)
  }

  /** The number of Unknown squares: `squares.Items.Count(var => var.Value == UNKNOWN)`. */
  function CountUnknownCells(g: Grid<Square>): nat
  {
    CountUnknowns(Items(g))
  }

  /** No refinement adds an Unknown square, and one that keeps the number of
      Unknown squares changes nothing: the solver's termination measure. */
  lemma GridRefinementCountsDown(g: Grid<Square>, h: Grid<Square>)
    requires GridRefines(g, h)
    ensures CountUnknownCells(h) <= CountUnknownCells(g)
    ensures CountUnknownCells(h) == CountUnknownCells(g) <==> h == g
  {
    ItemsRefine(g, h);
    RefinementCountsDown(Items(g), Items(h));
    if Items(h) == Items(g) {
      SameItemsSameGrid(g, h);
    }
  }

  /** A refined grid's items refine the original's, position by position. */
  lemma ItemsRefine(g: Grid<Square>, h: Grid<Square>)
    requires GridRefines(g, h)
    ensures RefinesLine(Items(g), Items(h))
  {
    ItemsFollowAllPositions(g);
    ItemsFollowAllPositions(h);
    var ps := AllPositions(g.size);
    forall i | 0 <= i < |ps| && Items(g)[i] != Unknown
      ensures Items(h)[i] == Items(g)[i]
    {
      assert IsValidPosition(g.size, ps[i]);
    }
  }

  /** Two valid grids of one size with the same items are the same grid. */
  lemma SameItemsSameGrid<T>(g: Grid<T>, h: Grid<T>)
    requires g.Valid() && h.Valid() && g.size == h.size && Items(g) == Items(h)
    ensures g == h
  {
    ItemsFollowAllPositions(g);
    ItemsFollowAllPositions(h);
    AllPositionsEnumerates(g.size);
    var ps := AllPositions(g.size);
    forall p | IsValidPosition(g.size, p)
      ensures g.At(p) == h.At(p)
    {
      var i :| 0 <= i < |ps| && ps[i] == p;
      assert ItemsAt(g, ps)[i] == ItemsAt(h, ps)[i];
    }
    GridExtensionality(g, h);
  }

  /** A grid counts no Unknown square exactly when none of its squares is Unknown. */
  lemma SolvedMeansNoUnknown(g: Grid<Square>)
    requires g.Valid()
    ensures CountUnknownCells(g) == 0 <==> forall p :: IsValidPosition(g.size, p) ==> g.At(p) != Unknown
  {
    NoUnknownsCounted(Items(g));
    if Unknown in Items(g) {
      UnknownItemIsUnknownSquare(g);
    } else {
      ItemsCoverEverySquare(g);
    }
  }

  /** An Unknown item is an Unknown square of the grid. */
  lemma UnknownItemIsUnknownSquare(g: Grid<Square>)
    requires g.Valid() && Unknown in Items(g)
    ensures exists p :: IsValidPosition(g.size, p) && g.At(p) == Unknown
  {
    ItemsFollowAllPositions(g);
    var ps := AllPositions(g.size);
    var i :| 0 <= i < |ps| && Items(g)[i] == Unknown;
    assert IsValidPosition(g.size, ps[i]);
  }

  /** Every square of the grid is one of its items. */
  lemma ItemsCoverEverySquare<T>(g: Grid<T>)
    requires g.Valid()
    ensures forall p :: IsValidPosition(g.size, p) ==> g.At(p) in Items(g)
  {
    ItemsFollowAllPositions(g);
    AllPositionsEnumerates(g.size);
    var ps := AllPositions(g.size);
    forall p | IsValidPosition(g.size, p)
      ensures g.At(p) in Items(g)
    {
      var i :| 0 <= i < |ps| && ps[i] == p;
      assert Items(g)[i] == g.At(p);
    }
  }

  /** What RefineColumn(x) makes of the grid: column x replaced by its refinement.
      It keeps every known square and leaves every other column alone. */
  function ColumnRefined(g: Grid<Square>, x: int, constraints: Constraints, refine: Refiner): (r: Grid<Square>)
    requires g.Valid() && 0 <= x < g.size.width
    ensures GridRefines(g, r)
    ensures forall p :: IsValidPosition(g.size, p) && p.x != x ==> r.At(p) == g.At(p)
  {
    var refined := refine(g.Column(x), constraints);
    assert RefinesLine(g.Column(x), refined);
    WithColumn(g, x, refined)
  }

  /** What RefineRow(y) makes of the grid: row y replaced by its refinement.
      It keeps every known square and leaves every other row alone. */
  function RowRefined(g: Grid<Square>, y: int, constraints: Constraints, refine: Refiner): (r: Grid<Square>)
    requires g.Valid() && 0 <= y < g.size.height
    ensures GridRefines(g, r)
    ensures forall p :: IsValidPosition(g.size, p) && p.y != y ==> r.At(p) == g.At(p)
  {
    var refined := refine(g.Row(y), constraints);
    assert RefinesLine(g.Row(y), refined);
    WithRow(g, y, refined)
  }

  /** Columns 0 .. n-1 refined one after the other, in increasing order. */
  function SweepColumns(g: Grid<Square>, columnConstraints: seq<Constraints>, refine: Refiner, n: nat): (r: Grid<Square>)
    requires g.Valid() && |columnConstraints| == g.size.width && n <= g.size.width
    ensures GridRefines(g, r)
    decreases n
  {
    if n == 0 then g
    else
      var before := SweepColumns(g, columnConstraints, refine, n - 1);
      ColumnRefined(before, n - 1, columnConstraints[n - 1], refine)
  }

  /** Rows 0 .. n-1 refined one after the other, in increasing order. */
  function SweepRows(g: Grid<Square>, rowConstraints: seq<Constraints>, refine: Refiner, n: nat): (r: Grid<Square>)
    requires g.Valid() && |rowConstraints| == g.size.height && n <= g.size.height
    ensures GridRefines(g, r)
    decreases n
  {
    if n == 0 then g
    else
      var before := SweepRows(g, rowConstraints, refine, n - 1);
      RowRefined(before, n - 1, rowConstraints[n - 1], refine)
  }

  /** One pass of the solver: every column, then every row. */
  function SinglePass(g: Grid<Square>, columnConstraints: seq<Constraints>, rowConstraints: seq<Constraints>,
                      refine: Refiner): (r: Grid<Square>)
    requires g.Valid() && |columnConstraints| == g.size.width && |rowConstraints| == g.size.height
    ensures GridRefines(g, r)
  {
    var afterColumns := SweepColumns(g, columnConstraints, refine, g.size.width);
    SweepRows(afterColumns, rowConstraints, refine, g.size.height)
  }

  /** The grid passes are repeated on until one changes nothing: the result of
      Refine. It keeps every known square and a further pass leaves it as it is. */
  function Solve(g: Grid<Square>, columnConstraints: seq<Constraints>, rowConstraints: seq<Constraints>,
                 refine: Refiner): (r: Grid<Square>)
    requires g.Valid() && |columnConstraints| == g.size.width && |rowConstraints| == g.size.height
    ensures GridRefines(g, r)
    ensures SinglePass(r, columnConstraints, rowConstraints, refine) == r
    decreases CountUnknownCells(g)
  {
    var next := SinglePass(g, columnConstraints, rowConstraints, refine);
    if next == g then g
    else
      GridRefinementCountsDown(g, next);
      Solve(next, columnConstraints, rowConstraints, refine)
  }

  /** A pass that changes something strictly lowers the number of Unknown squares,
      so at most width*height passes change anything. */
  lemma PassProgress(g: Grid<Square>, columnConstraints: seq<Constraints>, rowConstraints: seq<Constraints>,
                     refine: Refiner)
    requires g.Valid() && |columnConstraints| == g.size.width && |rowConstraints| == g.size.height
    ensures var next := SinglePass(g, columnConstraints, rowConstraints, refine);
            next != g <==> CountUnknownCells(next) < CountUnknownCells(g)
  {
    GridRefinementCountsDown(g, SinglePass(g, columnConstraints, rowConstraints, refine));
  }

  /** Over two refinements in a row, the grid has changed exactly when either step changed it. */
  lemma ChangesAccumulate(start: Grid<Square>, middle: Grid<Square>, end: Grid<Square>)
    requires GridRefines(start, middle) && GridRefines(middle, end)
    ensures end != start <==> middle != start || end != middle
  {
    GridRefinementCountsDown(start, middle);
    GridRefinementCountsDown(middle, end);
  }

  /** A column sweep has changed the grid exactly when some column so far changed it. */
  lemma SweepColumnsChanges(g: Grid<Square>, columnConstraints: seq<Constraints>, refine: Refiner, n: nat)
    requires g.Valid() && |columnConstraints| == g.size.width && n < g.size.width
    ensures var before := SweepColumns(g, columnConstraints, refine, n);
            var after := SweepColumns(g, columnConstraints, refine, n + 1);
            after != g <==> before != g || after != before
  {
    ChangesAccumulate(g, SweepColumns(g, columnConstraints, refine, n), SweepColumns(g, columnConstraints, refine, n + 1));
  }

  /** A row sweep has changed the grid exactly when some row so far changed it. */
  lemma SweepRowsChanges(g: Grid<Square>, rowConstraints: seq<Constraints>, refine: Refiner, n: nat)
    requires g.Valid() && |rowConstraints| == g.size.height && n < g.size.height
    ensures var before := SweepRows(g, rowConstraints, refine, n);
            var after := SweepRows(g, rowConstraints, refine, n + 1);
            after != g <==> before != g || after != before
  {
    ChangesAccumulate(g, SweepRows(g, rowConstraints, refine, n), SweepRows(g, rowConstraints, refine, n + 1));
  }

  /** Construction's argument checks, in the order the constructor makes them. */
  function ConstructionError(columnConstraints: Option<seq<Constraints>>, rowConstraints: Option<seq<Constraints>>)
    : (e: Option<Error>)
    ensures e.None? <==> && columnConstraints.Some? && |columnConstraints.value| > 0
                         && rowConstraints.Some? && |rowConstraints.value| > 0
    ensures columnConstraints.None? ==> e == Some(ArgumentNull("columnConstraints"))
    ensures columnConstraints.Some? && |columnConstraints.value| == 0 ==>
              e == Some(InvalidArgument("There must be at least one column"))
    ensures columnConstraints.Some? && |columnConstraints.value| > 0 && rowConstraints.None? ==>
              e == Some(ArgumentNull("rowConstraints"))
    ensures columnConstraints.Some? && |columnConstraints.value| > 0
            && rowConstraints.Some? && |rowConstraints.value| == 0 ==>
              e == Some(InvalidArgument("There must be at least one row"))
  {
    if columnConstraints.None? then Some(ArgumentNull("columnConstraints"))
    else if |columnConstraints.value| == 0 then Some(InvalidArgument("There must be at least one column"))
    else if rowConstraints.None? then Some(ArgumentNull("rowConstraints"))
    else if |rowConstraints.value| == 0 then Some(InvalidArgument("There must be at least one row"))
    else None
  }

  class SolverGrid {
    const squares: CellGrid<Square>
    const columnConstraints: seq<Constraints>
    const rowConstraints: seq<Constraints>
    const refine: Refiner

    /** One column per column constraint, one row per row constraint, at least one of each. */
    ghost predicate Valid()
    {
      && |columnConstraints| > 0 && |rowConstraints| > 0
      && squares.GridSize() == Size(|columnConstraints|, |rowConstraints|)
    }

    function Width(): nat
    {
      squares.GridSize().width
    }

    function Height(): nat
    {
      squares.GridSize().height
    }

    /** The read-only projection of the cells: their current values. */
    function Squares(): (g: Grid<Square>)
      reads squares.items
      ensures g.Valid() && g.size == squares.GridSize()
      ensures forall x, y :: 0 <= x < Width() && 0 <= y < Height() ==>
                g.At(Vector2D(x, y)) == squares.items[x, y]
    {
      squares.Values()
    }

    /** The current squares of column x. */
    function ColumnSlice(x: int): (line: Line)
      requires 0 <= x < Width()
      reads squares.items
    {
      Squares().Column(x)
    }

    /** The current squares of row y. */
    function RowSlice(y: int): (line: Line)
      requires 0 <= y < Height()
      reads squares.items
    {
      Squares().Row(y)
    }

    /** The number of Unknown squares. */
    function CountUnknowns(): (n: nat)
      reads squares.items
      ensures n == 0 <==> forall p :: IsValidPosition(Squares().size, p) ==> Squares().At(p) != Unknown
    {
      SolvedMeansNoUnknown(Squares());
      CountUnknownCells(Squares())
    }

    /** `CountUnknowns() == 0`: holds exactly when no square is Unknown. */
    predicate IsSolved()
      reads squares.items
      ensures IsSolved() <==> forall p :: IsValidPosition(Squares().size, p) ==> Squares().At(p) != Unknown
    {
      SolvedMeansNoUnknown(Squares());
      CountUnknowns() == 0
    }

    /** The constructor once its arguments have been checked: width = number of
        column constraints, height = number of row constraints, every square Unknown. */
    constructor (columnConstraints: seq<Constraints>, rowConstraints: seq<Constraints>, refine: Refiner)
      requires |columnConstraints| > 0 && |rowConstraints| > 0
      ensures Valid() && fresh(squares) && fresh(squares.items)
      ensures this.columnConstraints == columnConstraints && this.rowConstraints == rowConstraints
      ensures this.refine == refine
      ensures forall p :: IsValidPosition(Squares().size, p) ==> Squares().At(p) == Unknown
    {
      this.columnConstraints := columnConstraints;
      this.rowConstraints := rowConstraints;
      this.refine := refine;
      squares := new CellGrid.Create(Size(|columnConstraints|, |rowConstraints|), _ => Unknown);
    }

    /** `new SolverGrid(columnConstraints, rowConstraints)`: null or empty constraint
        sequences are rejected, in that order; otherwise an all-Unknown grid. */
    static method New(columnConstraints: Option<seq<Constraints>>, rowConstraints: Option<seq<Constraints>>,
                      refine: Refiner) returns (r: Result<SolverGrid, Error>)
      ensures r.Failure? <==> ConstructionError(columnConstraints, rowConstraints).Some?
      ensures r.Failure? ==> r.error == ConstructionError(columnConstraints, rowConstraints).value
      ensures r.Success? ==>
                && fresh(r.value) && fresh(r.value.squares) && fresh(r.value.squares.items) && r.value.Valid()
                && r.value.columnConstraints == columnConstraints.value
                && r.value.rowConstraints == rowConstraints.value
                && r.value.refine == refine
                && r.value.Width() == |columnConstraints.value| && r.value.Height() == |rowConstraints.value|
                && forall p :: IsValidPosition(r.value.Squares().size, p) ==> r.value.Squares().At(p) == Unknown
    {
      var error := ConstructionError(columnConstraints, rowConstraints);
      if error.Some? {
        return Failure(error.value);
      }
      var grid := new SolverGrid(columnConstraints.value, rowConstraints.value, refine);
      return Success(grid);
    }

    /** Refines column x against its constraints and writes it back; only
        squares of column x can change, and only Unknown ones. Reports whether
        anything changed. */
    method RefineColumn(x: int) returns (changed: bool)
      requires Valid() && 0 <= x < Width()
      modifies squares.items
      ensures Squares() == ColumnRefined(old(Squares()), x, columnConstraints[x], refine)
      ensures changed <==> Squares() != old(Squares())
      ensures changed <==> CountUnknowns() < old(CountUnknowns())
    {
      var refined := refine(ColumnSlice(x), columnConstraints[x]);
      changed := squares.OverwriteColumn(x, refined);
      WithColumnUnchanged(old(Squares()), x, refined);
      GridRefinementCountsDown(old(Squares()), Squares());
    }

    /** Refines row y against its constraints and writes it back; only squares
        of row y can change, and only Unknown ones. Reports whether anything changed. */
    method RefineRow(y: int) returns (changed: bool)
      requires Valid() && 0 <= y < Height()
      modifies squares.items
      ensures Squares() == RowRefined(old(Squares()), y, rowConstraints[y], refine)
      ensures changed <==> Squares() != old(Squares())
      ensures changed <==> CountUnknowns() < old(CountUnknowns())
    {
      var refined := refine(RowSlice(y), rowConstraints[y]);
      changed := squares.OverwriteRow(y, refined);
      WithRowUnchanged(old(Squares()), y, refined);
      GridRefinementCountsDown(old(Squares()), Squares());
    }

    /** Refines every column, 0 .. Width-1 in order (none is skipped once a change
        is seen); reports whether any of them changed something. */
    method RefineColumns() returns (changeDetected: bool)
      requires Valid()
      modifies squares.items
      ensures Squares() == SweepColumns(old(Squares()), columnConstraints, refine, Width())
      ensures changeDetected <==> Squares() != old(Squares())
    {
      ghost var start := Squares();
      changeDetected := false;
      for i := 0 to |columnConstraints|
        invariant Squares() == SweepColumns(start, columnConstraints, refine, i)
        invariant changeDetected <==> SweepColumns(start, columnConstraints, refine, i) != start
      {
        changeDetected := SweepColumn(start, i, changeDetected);
      }
    }

    /** One round of RefineColumns' loop: column i refined, the flag raised when it changed. */
    method SweepColumn(ghost start: Grid<Square>, i: nat, changeDetected: bool) returns (detected: bool)
      requires Valid() && start.Valid() && start.size == squares.GridSize() && i < Width()
      requires Squares() == SweepColumns(start, columnConstraints, refine, i)
      requires changeDetected <==> Squares() != start
      modifies squares.items
      ensures Squares() == SweepColumns(start, columnConstraints, refine, i + 1)
      ensures detected <==> Squares() != start
    {
      var changed := RefineColumn(i);
      SweepColumnsChanges(start, columnConstraints, refine, i);
      detected := changed || changeDetected;
    }

    /** Refines every row, 0 .. Height-1 in order; reports whether any of them
        changed something. */
    method RefineRows() returns (changeDetected: bool)
      requires Valid()
      modifies squares.items
      ensures Squares() == SweepRows(old(Squares()), rowConstraints, refine, Height())
      ensures changeDetected <==> Squares() != old(Squares())
    {
      ghost var start := Squares();
      changeDetected := false;
      for i := 0 to |rowConstraints|
        invariant Squares() == SweepRows(start, rowConstraints, refine, i)
        invariant changeDetected <==> SweepRows(start, rowConstraints, refine, i) != start
      {
        changeDetected := SweepRow(start, i, changeDetected);
      }
    }

    /** One round of RefineRows' loop: row i refined, the flag raised when it changed. */
    method SweepRow(ghost start: Grid<Square>, i: nat, changeDetected: bool) returns (detected: bool)
      requires Valid() && start.Valid() && start.size == squares.GridSize() && i < Height()
      requires Squares() == SweepRows(start, rowConstraints, refine, i)
      requires changeDetected <==> Squares() != start
      modifies squares.items
      ensures Squares() == SweepRows(start, rowConstraints, refine, i + 1)
      ensures detected <==> Squares() != start
    {
      var changed := RefineRow(i);
      SweepRowsChanges(start, rowConstraints, refine, i);
      detected := changed || changeDetected;
    }

    /** All columns, then all rows; reports whether either sweep changed something. */
    method SinglePassRefine() returns (changed: bool)
      requires Valid()
      modifies squares.items
      ensures Squares() == SinglePass(old(Squares()), columnConstraints, rowConstraints, refine)
      ensures changed <==> Squares() != old(Squares())
    {
      ghost var start := Squares();
      var columnChanged := RefineColumns();
      ghost var afterColumns := Squares();
      var rowChanged := RefineRows();
      ChangesAccumulate(start, afterColumns, Squares());
      changed := columnChanged || rowChanged;
    }

    /** Repeats SinglePassRefine until a pass changes nothing. Every pass that
        changes something removes an Unknown square, so the loop ends. */
    method Refine()
      requires Valid()
      modifies squares.items
      ensures Squares() == Solve(old(Squares()), columnConstraints, rowConstraints, refine)
      ensures GridRefines(old(Squares()), Squares())
      ensures SinglePass(Squares(), columnConstraints, rowConstraints, refine) == Squares()
    {
      ghost var previous := Squares();
      var more := SinglePassRefine();
      while more
        invariant previous.Valid() && previous.size == squares.GridSize()
        invariant Squares() == SinglePass(previous, columnConstraints, rowConstraints, refine)
        invariant Solve(previous, columnConstraints, rowConstraints, refine)
               == Solve(old(Squares()), columnConstraints, rowConstraints, refine)
        invariant more <==> Squares() != previous
        decreases CountUnknowns() + (if more then 1 else 0)
      {
        previous := Squares();
        more := SinglePassRefine();
        GridRefinementCountsDown(previous, Squares());
      }
    }
  }
}
