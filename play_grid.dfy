/** The playing grid of Domain/PiCross/PlayGrid.cs: the player's squares in
    fresh mutable cells, and for every column and every row its constraints
    paired with a live view of that line, so that the view always shows the
    squares as they are now.

    `Constraints.IsSatisfied` and `Constraints.UnsatisfiedValueRange` are not
    part of this model; the queries receive them as function values. */
module PlayGrids {
  import opened Wrappers
  import opened Grids
  import opened Domain

  /** Which line of the grid a view shows. */
  datatype LineSelector = ColumnLine(x: nat) | RowLine(y: nat)

  /** The selected line exists in a grid of this size. */
  predicate Selects(size: Size, line: LineSelector)
  {
    match line
    case ColumnLine(x) => x < size.width
    case RowLine(y) => y < size.height
  }

  /** The current squares of the selected line: the slice
      `new Slice(Squares.Column(i).Map(var => var.Value))`, read now. */
  function CurrentLine(cells: CellGrid<Square>, line: LineSelector): (s: Line)
    requires Selects(cells.GridSize(), line)
    reads cells.items
    ensures line.ColumnLine? ==>
              |s| == cells.GridSize().height && forall y :: 0 <= y < |s| ==> s[y] == cells.items[line.x, y]
    ensures line.RowLine? ==>
              |s| == cells.GridSize().width && forall x :: 0 <= x < |s| ==> s[x] == cells.items[x, line.y]
  {
    match line
    case ColumnLine(x) => cells.Values().Column(x)
    case RowLine(y) => cells.Values().Row(y)
  }

  /** One run length of a line's constraints, with the live line it is checked against. */
  datatype PlayGridConstraintValue = PlayGridConstraintValue(cells: CellGrid<Square>, line: LineSelector,
                                                             constraints: Constraints, index: int)
  {
    /** `constraints.Values[index]`. */
    function Value(): int
      requires 0 <= index < |constraints.values|
    {
      constraints.values[index]
    }

    /** The entry is satisfied exactly when its index is not among those the
        unsatisfied-value-range routine reports for the line as it is now. */
    predicate IsSatisfied(unsatisfiedValueRange: (Constraints, Line) -> set<int>)
      requires Selects(cells.GridSize(), line)
      reads cells.items
    {
      index !in unsatisfiedValueRange(constraints, CurrentLine(cells, line))
    }
  }

  /** A line's constraints together with the live view of that line. */
  datatype PlayGridConstraints = PlayGridConstraints(cells: CellGrid<Square>, line: LineSelector,
                                                     constraints: Constraints)
  {
    /** `Values`: one entry per run length, in order, each over the same line;
        entry i has index i and so the value `constraints.Values[i]`. */
    function Values(): (r: seq<PlayGridConstraintValue>)
      ensures |r| == |constraints.values|
      ensures forall i :: 0 <= i < |r| ==>
                && r[i].cells == cells && r[i].line == line && r[i].constraints == constraints
                && r[i].index == i && r[i].Value() == constraints.values[i]
    {
      seq(|constraints.values|, i => PlayGridConstraintValue(cells, line, constraints, i))
    }

    /** Whether the line, as it is now, satisfies the constraints. */
    predicate IsSatisfied(isSatisfied: (Constraints, Line) -> bool)
      requires Selects(cells.GridSize(), line)
      reads cells.items
    {
      isSatisfied(constraints, CurrentLine(cells, line))
    }
  }

  /** The constructor's argument checks, in the order it makes them. */
  function ArgumentError(columnConstraints: Option<seq<Constraints>>, rowConstraints: Option<seq<Constraints>>,
                         squares: Option<Grid<Square>>): (e: Option<Error>)
    ensures e.None? <==> && columnConstraints.Some? && rowConstraints.Some? && squares.Some?
                         && |columnConstraints.value| == squares.value.size.width
                         && |rowConstraints.value| == squares.value.size.height
    ensures columnConstraints.None? ==> e == Some(ArgumentNull("columnConstraints"))
    ensures columnConstraints.Some? && rowConstraints.None? ==> e == Some(ArgumentNull("rowConstraints "))
    ensures columnConstraints.Some? && rowConstraints.Some? && squares.None? ==> e == Some(ArgumentNull("squares"))
    ensures columnConstraints.Some? && rowConstraints.Some? && squares.Some?
            && |columnConstraints.value| != squares.value.size.width ==>
              e == Some(InvalidArgument("Number of column constraints should be equal to grid width"))
    ensures columnConstraints.Some? && rowConstraints.Some? && squares.Some?
            && |columnConstraints.value| == squares.value.size.width
            && |rowConstraints.value| != squares.value.size.height ==>
              e == Some(InvalidArgument("Number of row constraints should be equal to grid height"))
  {
    if columnConstraints.None? then Some(ArgumentNull("columnConstraints"))
    else if rowConstraints.None? then Some(ArgumentNull("rowConstraints "))
    else if squares.None? then Some(ArgumentNull("squares"))
    else if |columnConstraints.value| != squares.value.size.width then
      Some(InvalidArgument("Number of column constraints should be equal to grid width"))
    else if |rowConstraints.value| != squares.value.size.height then
      Some(InvalidArgument("Number of row constraints should be equal to grid height"))
    else None
  }

  class PlayGrid {
    const squares: CellGrid<Square>
    const columnConstraints: seq<PlayGridConstraints>
    const rowConstraints: seq<PlayGridConstraints>

    /** One constraints entry per column and per row, in index order, each over
        its own line of this grid's cells. */
    ghost predicate Valid()
    {
      && |columnConstraints| == squares.GridSize().width
      && |rowConstraints| == squares.GridSize().height
      && (forall i :: 0 <= i < |columnConstraints| ==>
            columnConstraints[i].cells == squares && columnConstraints[i].line == ColumnLine(i))
      && (forall i :: 0 <= i < |rowConstraints| ==>
            rowConstraints[i].cells == squares && rowConstraints[i].line == RowLine(i))
    }

    /** The current values of the cells. */
    function Squares(): (g: Grid<Square>)
      reads squares.items
      ensures g.Valid() && g.size == squares.GridSize()
      ensures forall x, y :: 0 <= x < squares.items.Length0 && 0 <= y < squares.items.Length1 ==>
                g.At(Vector2D(x, y)) == squares.items[x, y]
    {
      squares.Values()
    }

    /** The constructor once its arguments have been checked: the squares copied
        into fresh cells, each column and row paired with its constraints. */
    constructor (columnConstraints: seq<Constraints>, rowConstraints: seq<Constraints>, squares: Grid<Square>)
      requires squares.Valid()
      requires |columnConstraints| == squares.size.width && |rowConstraints| == squares.size.height
      ensures Valid() && fresh(this.squares) && fresh(this.squares.items)
      ensures Squares() == squares
      ensures forall i :: 0 <= i < |columnConstraints| ==> this.columnConstraints[i].constraints == columnConstraints[i]
      ensures forall i :: 0 <= i < |rowConstraints| ==> this.rowConstraints[i].constraints == rowConstraints[i]
    {
      var cells := new CellGrid.Create(squares.size, p requires squares.Valid() && IsValidPosition(squares.size, p) =>
                                                       squares.At(p));
      GridExtensionality(cells.Values(), squares);
      this.squares := cells;
      this.columnConstraints := seq(|columnConstraints|, i requires 0 <= i < |columnConstraints| =>
                                      PlayGridConstraints(cells, ColumnLine(i), columnConstraints[i]));
      this.rowConstraints := seq(|rowConstraints|, i requires 0 <= i < |rowConstraints| =>
                                   PlayGridConstraints(cells, RowLine(i), rowConstraints[i]));
    }

    /** `new PlayGrid(columnConstraints, rowConstraints, squares)`: the checks of
        ArgumentError, then the grid. */
    static method New(columnConstraints: Option<seq<Constraints>>, rowConstraints: Option<seq<Constraints>>,
                      squares: Option<Grid<Square>>) returns (r: Result<PlayGrid, Error>)
      requires squares.Some? ==> squares.value.Valid()
      ensures r.Failure? <==> ArgumentError(columnConstraints, rowConstraints, squares).Some?
      ensures r.Failure? ==> r.error == ArgumentError(columnConstraints, rowConstraints, squares).value
      ensures r.Success? ==>
                && fresh(r.value) && fresh(r.value.squares) && fresh(r.value.squares.items) && r.value.Valid()
                && r.value.Squares() == squares.value
                && (forall i :: 0 <= i < |columnConstraints.value| ==>
                      r.value.columnConstraints[i].constraints == columnConstraints.value[i])
                && (forall i :: 0 <= i < |rowConstraints.value| ==>
                      r.value.rowConstraints[i].constraints == rowConstraints.value[i])
    {
      var error := ArgumentError(columnConstraints, rowConstraints, squares);
      if error.Some? {
        return Failure(error.value);
      }
      var grid := new PlayGrid(columnConstraints.value, rowConstraints.value, squares.value);
      return Success(grid);
    }

    /** `new PlayGrid(columnConstraints, rowConstraints)`: the lengths are read
        before anything is checked, so a missing argument is a null dereference;
        otherwise an all-Unknown grid of (#columns x #rows) squares. */
    static method NewBlank(columnConstraints: Option<seq<Constraints>>, rowConstraints: Option<seq<Constraints>>)
      returns (r: Result<PlayGrid, Error>)
      ensures r.Failure? <==> columnConstraints.None? || rowConstraints.None?
      ensures r.Failure? ==> r.error == NullReference
      ensures r.Success? ==>
                && fresh(r.value) && fresh(r.value.squares) && fresh(r.value.squares.items) && r.value.Valid()
                && r.value.Squares().size == Size(|columnConstraints.value|, |rowConstraints.value|)
                && (forall p :: IsValidPosition(r.value.Squares().size, p) ==> r.value.Squares().At(p) == Unknown)
                && (forall i :: 0 <= i < |columnConstraints.value| ==>
                      r.value.columnConstraints[i].constraints == columnConstraints.value[i])
                && (forall i :: 0 <= i < |rowConstraints.value| ==>
                      r.value.rowConstraints[i].constraints == rowConstraints.value[i])
    {
      if columnConstraints.None? || rowConstraints.None? {
        return Failure(NullReference);
      }
      var blank := VirtualGrid(Size(|columnConstraints.value|, |rowConstraints.value|), _ => Unknown).Contents();
      r := New(columnConstraints, rowConstraints, Some(blank));
    }
  }
}
