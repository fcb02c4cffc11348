/** The puzzle vocabulary the grids are built from: squares, run-length
    constraints, puzzles and lines (slices).  `Slice.Refine`,
    `Slice.DeriveConstraints`, `Constraints.IsSatisfied` and
    `Constraints.UnsatisfiedValueRange` are not part of this model; the grid
    code receives them as function values.  Of `Slice.Refine` the model only
    assumes what the grid solver relies on: the refined line has the same
    length and differs from the input only where the input was Unknown. */
module Domain {
  import opened Grids

  datatype Square = Unknown | Filled | Empty

  /** The run lengths of one row or column, in order. */
  datatype Constraints = Constraints(values: seq<int>)

  /** A puzzle, given by its solution grid (true = filled). */
  datatype Puzzle = Puzzle(grid: Grid<bool>)

  /** One row or column of squares (a Slice). */
  type Line = seq<Square>

  /** `after` keeps every known square of `before` and has the same length. */
  predicate RefinesLine(before: Line, after: Line)
  {
    |after| == |before| && forall i :: 0 <= i < |before| && before[i] != Unknown ==> after[i] == before[i]
  }

  /** What the grid solver assumes of `Slice.Refine`. */
  ghost predicate IsRefiner(refine: (Line, Constraints) -> Line)
  {
    forall line, constraints :: RefinesLine(line, refine(line, constraints))
  }

  /** The refinement that deduces nothing. */
  function KeepLine(line: Line, constraints: Constraints): Line
  {
    line
  }

  /** A line-refinement routine with the contract of `Slice.Refine`. */
  type Refiner = refine: (Line, Constraints) -> Line | IsRefiner(refine) witness KeepLine

  /** Derivation of a line's constraints (`Slice.DeriveConstraints`). */
  type Deriver = Line -> Constraints

  /** The number of Unknown squares in a line. */
  function CountUnknowns(line: Line): nat
  {
    if line == [] then 0 else (if line[0] == Unknown then 1 else 0) + CountUnknowns(line[1..])
  }

  /** A line has no Unknown square exactly when it counts none. */
  lemma {:induction false} NoUnknownsCounted(line: Line)
    ensures CountUnknowns(line) == 0 <==> Unknown !in line
  {
    if line != [] {
      NoUnknownsCounted(line[1..]);
      assert line == [line[0]] + line[1..];
    }
  }

  /** Refining a line never adds an Unknown, and keeps the count exactly when it changes nothing. */
  lemma {:induction false} RefinementCountsDown(before: Line, after: Line)
    requires RefinesLine(before, after)
    ensures CountUnknowns(after) <= CountUnknowns(before)
    ensures CountUnknowns(after) == CountUnknowns(before) <==> after == before
  {
    if before != [] {
      RefinementCountsDown(before[1..], after[1..]);
      if after[1..] == before[1..] && after[0] == before[0] {
        assert after == [after[0]] + after[1..];
        assert before == [before[0]] + before[1..];
      }
    }
  }
}
