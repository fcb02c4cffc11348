/** The 2-D container of DataStructures/Grid.cs.

    A `Grid<T>` value is an immutable grid (an `IGrid<T>` of plain values, as
    returned by `Map`, `Copy` or `CreateCharacterGrid`), stored row by row so
    that the item at position (x, y) is `rows[y][x]`.  A `CellGrid<T>` is a grid
    of mutable cells (an `IGrid<IVar<T>>`): one `array2` owns the storage and
    the cell at (x, y) is `items[x, y]`, exactly as the C# `T[,]` is indexed. */
module Grids {
  import opened Wrappers

  datatype Vector2D = Vector2D(x: int, y: int)

  datatype Size = Size(width: nat, height: nat)

  /** GridBase.IsValidPosition */
  predicate IsValidPosition(size: Size, p: Vector2D)
  {
    0 <= p.x < size.width && 0 <= p.y < size.height
  }

  /** Strict row-major order: first by row, then by column. */
  predicate RowMajorBefore(p: Vector2D, q: Vector2D)
  {
    p.y < q.y || (p.y == q.y && p.x < q.x)
  }

  datatype Grid<T> = Grid(size: Size, rows: seq<seq<T>>) {

    /** Representation invariant: `height` rows of `width` items each. */
    predicate Valid()
    {
      |rows| == size.height && forall y :: 0 <= y < |rows| ==> |rows[y]| == size.width
    }

    /** The indexer `grid[position]`. */
    function At(p: Vector2D): T
      requires Valid() && IsValidPosition(size, p)
    {
      rows[p.y][p.x]
    }

    /** GridBase.Row: a sequence of length Width whose x-th item is the item at (x, y). */
    function Row(y: int): (r: seq<T>)
      requires Valid() && 0 <= y < size.height
      ensures |r| == size.width
      ensures forall x :: 0 <= x < size.width ==> r[x] == At(Vector2D(x, y))
    {
      rows[y]
    }

    /** GridBase.Column: a sequence of length Height whose y-th item is the item at (x, y). */
    function Column(x: int): (c: seq<T>)
      requires Valid() && 0 <= x < size.width
      ensures |c| == size.height
      ensures forall y :: 0 <= y < size.height ==> c[y] == At(Vector2D(x, y))
    {
      seq(size.height, y requires 0 <= y < size.height && Valid() => rows[y][x])
    }
  }

  /** Row and column views agree on the item where they cross. */
  lemma RowColumnAgree<T>(g: Grid<T>, x: int, y: int)
    requires g.Valid() && IsValidPosition(g.size, Vector2D(x, y))
    ensures g.Row(y)[x] == g.Column(x)[y] == g.At(Vector2D(x, y))
  {
  }

  /** Two valid grids of one size that agree at every position are the same grid. */
  lemma GridExtensionality<T>(a: Grid<T>, b: Grid<T>)
    requires a.Valid() && b.Valid() && a.size == b.size
    requires forall p :: IsValidPosition(a.size, p) ==> a.At(p) == b.At(p)
    ensures a == b
  {
    forall y | 0 <= y < a.size.height
      ensures a.rows[y] == b.rows[y]
    {
      forall x | 0 <= x < a.size.width
        ensures a.rows[y][x] == b.rows[y][x]
      {
        assert a.At(Vector2D(x, y)) == b.At(Vector2D(x, y));
      }
    }
  }

  /** The positions of row y, left to right. */
  function RowPositions(width: nat, y: int): (ps: seq<Vector2D>)
    ensures |ps| == width
    ensures forall x :: 0 <= x < width ==> ps[x] == Vector2D(x, y)
  {
    seq(width, x => Vector2D(x, y))
  }

  /** GridBase.AllPositions: y in the outer loop, x in the inner one. */
  function AllPositions(size: Size): (ps: seq<Vector2D>)
    ensures forall p :: p in ps ==> IsValidPosition(size, p)
    ensures forall i :: 0 <= i < |ps| ==> IsValidPosition(size, ps[i])
    decreases size.height
  {
    if size.height == 0 then []
    else AllPositions(Size(size.width, size.height - 1)) + RowPositions(size.width, size.height - 1)
  }

  /** AllPositions lists every valid position, and only those, in strictly
      increasing row-major order (so none of them twice). */
  lemma {:induction false} AllPositionsEnumerates(size: Size)
    ensures |AllPositions(size)| == size.width * size.height
    ensures forall p :: p in AllPositions(size) <==> IsValidPosition(size, p)
    ensures forall i, j :: 0 <= i < j < |AllPositions(size)| ==>
              RowMajorBefore(AllPositions(size)[i], AllPositions(size)[j])
    decreases size.height
  {
    if size.height > 0 {
      var smaller := Size(size.width, size.height - 1);
      AllPositionsEnumerates(smaller);
      var a, r := AllPositions(smaller), RowPositions(size.width, size.height - 1);
      assert AllPositions(size) == a + r;
      assert |a + r| == size.width * (size.height - 1) + size.width == size.width * size.height;
      forall p
        ensures p in a + r <==> IsValidPosition(size, p)
      {
        if IsValidPosition(size, p) && p.y == size.height - 1 {
          assert r[p.x] == p;
        }
      }
      forall i, j | 0 <= i < j < |a + r|
        ensures RowMajorBefore((a + r)[i], (a + r)[j])
      {
        if i < |a| {
          assert a[i] in a;
        }
      }
    }
  }

  /** The row-major concatenation of rows. */
  function Flatten<T>(rows: seq<seq<T>>): seq<T>
  {
    if rows == [] then [] else Flatten(rows[..|rows| - 1]) + rows[|rows| - 1]
  }

  /** GridBase.Items: every item, in the order of AllPositions. */
  function Items<T>(g: Grid<T>): seq<T>
  {
    Flatten(g.rows)
  }

  /** The items at the given positions, in order. */
  function ItemsAt<T>(g: Grid<T>, ps: seq<Vector2D>): (r: seq<T>)
    requires g.Valid() && forall p :: p in ps ==> IsValidPosition(g.size, p)
    ensures |r| == |ps|
    ensures forall i :: 0 <= i < |ps| ==> r[i] == g.At(ps[i])
  {
    if ps == [] then [] else [g.At(ps[0])] + ItemsAt(g, ps[1..])
  }

  /** Items enumerates the grid cell by cell, following AllPositions. */
  lemma {:induction false} ItemsFollowAllPositions<T>(g: Grid<T>)
    requires g.Valid()
    ensures Items(g) == ItemsAt(g, AllPositions(g.size))
    decreases g.size.height
  {
    if g.size.height > 0 {
      var h := g.size.height - 1;
      var top := Grid(Size(g.size.width, h), g.rows[..h]);
      var a, r := AllPositions(top.size), RowPositions(g.size.width, h);
      ItemsFollowAllPositions(top);
      assert Items(g) == Items(top) + g.rows[h];
      ItemsAtLowerRows(g, h, a);
      ItemsAtRow(g, h);
      ItemsAtConcatenation(g, a, r);
    }
  }

  /** The items at two lists of positions, one after the other. */
  lemma ItemsAtConcatenation<T>(g: Grid<T>, a: seq<Vector2D>, b: seq<Vector2D>)
    requires g.Valid()
    requires forall p :: p in a ==> IsValidPosition(g.size, p)
    requires forall p :: p in b ==> IsValidPosition(g.size, p)
    ensures ItemsAt(g, a + b) == ItemsAt(g, a) + ItemsAt(g, b)
  {
    var l, r := ItemsAt(g, a + b), ItemsAt(g, a) + ItemsAt(g, b);
    assert forall i :: 0 <= i < |l| ==> l[i] == r[i] by {
      forall i | 0 <= i < |l|
        ensures l[i] == r[i]
      {
        if i < |a| {
          assert (a + b)[i] == a[i];
        } else {
          assert (a + b)[i] == b[i - |a|];
        }
      }
    }
  }

  /** The items of row y are the items at its positions. */
  lemma ItemsAtRow<T>(g: Grid<T>, y: int)
    requires g.Valid() && 0 <= y < g.size.height
    ensures ItemsAt(g, RowPositions(g.size.width, y)) == g.rows[y]
  {
    var l := ItemsAt(g, RowPositions(g.size.width, y));
    assert forall x :: 0 <= x < |l| ==> l[x] == g.rows[y][x];
  }

  /** Positions above row h read the same in the grid and in its first h rows. */
  lemma ItemsAtLowerRows<T>(g: Grid<T>, h: nat, a: seq<Vector2D>)
    requires g.Valid() && h <= g.size.height
    requires forall p :: p in a ==> IsValidPosition(Size(g.size.width, h), p)
    ensures forall p :: p in a ==> IsValidPosition(g.size, p)
    ensures ItemsAt(Grid(Size(g.size.width, h), g.rows[..h]), a) == ItemsAt(g, a)
  {
    var top := Grid(Size(g.size.width, h), g.rows[..h]);
    var l, r := ItemsAt(top, a), ItemsAt(g, a);
    assert forall i :: 0 <= i < |a| ==> l[i] == r[i] by {
      forall i | 0 <= i < |a|
        ensures l[i] == r[i]
      {
        assert a[i] in a;
      }
    }
  }

  /** A grid whose item at p is f(p): the value of `Grid.Create(size, initializer)`
      and of `Grid.CreateVirtual(size, function)`. */
  function FromFunction<T>(size: Size, f: Vector2D --> T): (g: Grid<T>)
    requires forall p :: IsValidPosition(size, p) ==> f.requires(p)
    ensures g.Valid() && g.size == size
    ensures forall p :: IsValidPosition(size, p) ==> g.At(p) == f(p)
  {
    Grid(size, seq(size.height, y requires 0 <= y < size.height =>
                 seq(size.width, x requires IsValidPosition(size, Vector2D(x, y)) => f(Vector2D(x, y)))))
  }

  /** IGridExtensions.Map with an item function. */
  function Map<T, R>(g: Grid<T>, f: T -> R): (r: Grid<R>)
    requires g.Valid()
    ensures r.Valid() && r.size == g.size
    ensures forall p :: IsValidPosition(g.size, p) ==> r.At(p) == f(g.At(p))
  {
    FromFunction(g.size, p requires g.Valid() && IsValidPosition(g.size, p) => f(g.At(p)))
  }

  /** IGridExtensions.Map with a position-and-item function. */
  function MapWithPosition<T, R>(g: Grid<T>, f: (Vector2D, T) -> R): (r: Grid<R>)
    requires g.Valid()
    ensures r.Valid() && r.size == g.size
    ensures forall p :: IsValidPosition(g.size, p) ==> r.At(p) == f(p, g.At(p))
  {
    FromFunction(g.size, p requires g.Valid() && IsValidPosition(g.size, p) => f(p, g.At(p)))
  }

  /** Mapping two functions one after the other is mapping their composition. */
  lemma MapCompose<T, U, R>(g: Grid<T>, f: T -> U, h: U -> R)
    requires g.Valid()
    ensures Map(Map(g, f), h) == Map(g, x => h(f(x)))
  {
    GridExtensionality(Map(Map(g, f), h), Map(g, x => h(f(x))));
  }

  /** `AllPositions.All(p => a[p] equals b[p])` over the listed positions. */
  function AllEqualAt<T(==)>(a: Grid<T>, b: Grid<T>, ps: seq<Vector2D>): (r: bool)
    requires a.Valid() && b.Valid() && a.size == b.size
    requires forall p :: p in ps ==> IsValidPosition(a.size, p)
    ensures r <==> forall i :: 0 <= i < |ps| ==> a.At(ps[i]) == b.At(ps[i])
  {
    ps == [] || (a.At(ps[0]) == b.At(ps[0]) && AllEqualAt(a, b, ps[1..]))
  }

  /** Grid.EqualItems: false for grids of different sizes, otherwise item-wise equality. */
  function EqualItems<T(==)>(a: Grid<T>, b: Grid<T>): bool
    requires a.Valid() && b.Valid()
  {
    AllPositionsEnumerates(a.size);
    a.size == b.size && AllEqualAt(a, b, AllPositions(a.size))
  }

  /** EqualItems holds exactly when the two grids are the same grid. */
  lemma EqualItemsIsEquality<T>(a: Grid<T>, b: Grid<T>)
    requires a.Valid() && b.Valid()
    ensures EqualItems(a, b) <==> a == b
  {
    AllPositionsEnumerates(a.size);
    if EqualItems(a, b) {
      forall p | IsValidPosition(a.size, p)
        ensures a.At(p) == b.At(p)
      {
        var i :| 0 <= i < |AllPositions(a.size)| && AllPositions(a.size)[i] == p;
      }
      GridExtensionality(a, b);
    }
  }

  /** IGridExtensions.Copy: a grid built cell by cell from the original, EqualItems to it. */
  function Copy<T(==)>(g: Grid<T>): (r: Grid<T>)
    requires g.Valid()
    ensures r.Valid() && r.size == g.size && EqualItems(r, g)
  {
    var r := FromFunction(g.size, p requires g.Valid() && IsValidPosition(g.size, p) => g.At(p));
    GridExtensionality(r, g);
    EqualItemsIsEquality(r, g);
    r
  }

  /** A grid of the given size whose items are computed on access (Grid.CreateVirtual). */
  datatype VirtualGrid<T> = VirtualGrid(size: Size, valueAt: Vector2D -> T) {

    /** VirtualGrid's indexer: fails outside the grid, otherwise evaluates the function. */
    function Get(p: Vector2D): (r: Result<T, Error>)
      ensures r.Success? <==> IsValidPosition(size, p)
      ensures r.Success? ==> r.value == valueAt(p)
      ensures r.Failure? ==> r.error == ArgumentOutOfRange("position")
    {
      if !IsValidPosition(size, p) then Failure(ArgumentOutOfRange("position")) else Success(valueAt(p))
    }

    /** The items the virtual grid shows, as a grid value. */
    function Contents(): (g: Grid<T>)
      ensures g.Valid() && g.size == size
      ensures forall p :: IsValidPosition(size, p) ==> Get(p) == Success(g.At(p))
    {
      FromFunction(size, valueAt)
    }
  }

  /** Grid.CreateCharacterGrid: height = number of strings, width = length of the
      first string, item (x, y) = strings[y][x]. No strings at all fail on
      `strings[0]`; strings of different lengths are rejected. */
  function CreateCharacterGrid(strings: seq<string>): (r: Result<Grid<char>, Error>)
    ensures r.Failure? <==> strings == [] || exists s :: s in strings && |s| != |strings[0]|
    ensures strings == [] ==> r == Failure(IndexOutOfRange)
    ensures r.Success? ==>
              && r.value.Valid()
              && r.value.size == Size(|strings[0]|, |strings|)
              && forall p :: IsValidPosition(r.value.size, p) ==> r.value.At(p) == strings[p.y][p.x]
  {
    if strings == [] then Failure(IndexOutOfRange)
    else
      var width := |strings[0]|;
      if !(forall s :: s in strings ==> |s| == width) then
        Failure(InvalidArgument("All strings must have equal length"))
      else
        Success(Grid(Size(width, |strings|), strings))
  }

  /** Grid.FromRows: width = length of the first row, height = number of rows,
      item (x, y) = rows[y][x]. Fails when there is no row or when a row is
      shorter than the first; the tail of a longer row is ignored. */
  function FromRows<T>(rows: seq<seq<T>>): (r: Result<Grid<T>, Error>)
    ensures r.Failure? <==> rows == [] || exists y :: 0 <= y < |rows| && |rows[y]| < |rows[0]|
    ensures r.Success? ==>
              && r.value.Valid()
              && r.value.size == Size(|rows[0]|, |rows|)
              && forall p :: IsValidPosition(r.value.size, p) ==> r.value.At(p) == rows[p.y][p.x]
  {
    if rows == [] then Failure(IndexOutOfRange)
    else
      var width := |rows[0]|;
      if !(forall y :: 0 <= y < |rows| ==> |rows[y]| >= width) then
        Failure(IndexOutOfRange)
      else
        Success(Grid(Size(width, |rows|), seq(|rows|, y requires 0 <= y < |rows| => rows[y][..width])))
  }

  /** The grid g with column x replaced by col. */
  function WithColumn<T>(g: Grid<T>, x: int, col: seq<T>): (r: Grid<T>)
    requires g.Valid() && 0 <= x < g.size.width && |col| == g.size.height
    ensures r.Valid() && r.size == g.size
    ensures forall p :: IsValidPosition(g.size, p) ==> r.At(p) == if p.x == x then col[p.y] else g.At(p)
  {
    Grid(g.size, seq(g.size.height, y requires 0 <= y < g.size.height => g.rows[y][x := col[y]]))
  }

  /** The grid g with row y replaced by row. */
  function WithRow<T>(g: Grid<T>, y: int, row: seq<T>): (r: Grid<T>)
    requires g.Valid() && 0 <= y < g.size.height && |row| == g.size.width
    ensures r.Valid() && r.size == g.size
    ensures forall p :: IsValidPosition(g.size, p) ==> r.At(p) == if p.y == y then row[p.x] else g.At(p)
  {
    Grid(g.size, g.rows[y := row])
  }

  /** Writing back a column leaves the grid as it was exactly when the column already held those items. */
  lemma WithColumnUnchanged<T>(g: Grid<T>, x: int, col: seq<T>)
    requires g.Valid() && 0 <= x < g.size.width && |col| == g.size.height
    ensures WithColumn(g, x, col) == g <==> g.Column(x) == col
  {
    if g.Column(x) == col {
      GridExtensionality(WithColumn(g, x, col), g);
    } else {
      var y :| 0 <= y < |col| && g.Column(x)[y] != col[y];
      assert WithColumn(g, x, col).At(Vector2D(x, y)) != g.At(Vector2D(x, y));
    }
  }

  /** Writing back a row leaves the grid as it was exactly when the row already held those items. */
  lemma WithRowUnchanged<T>(g: Grid<T>, y: int, row: seq<T>)
    requires g.Valid() && 0 <= y < g.size.height && |row| == g.size.width
    ensures WithRow(g, y, row) == g <==> g.Row(y) == row
  {
    if WithRow(g, y, row) == g {
      assert g.rows[y] == WithRow(g, y, row).rows[y];
    }
  }

  /** A grid of mutable cells (`IGrid<IVar<T>>`) backed by one two-dimensional array. */
  class CellGrid<T(0,==)> {
    const items: array2<T>

    /** Size of the grid. */
    function GridSize(): Size
    {
      Size(items.Length0, items.Length1)
    }

    /** The current cell values: `grid.Map(var => var.Value)`. */
    function Values(): (g: Grid<T>)
      reads items
      ensures g.Valid() && g.size == GridSize()
      ensures forall x, y :: 0 <= x < items.Length0 && 0 <= y < items.Length1 ==>
                g.At(Vector2D(x, y)) == items[x, y]
    {
      Grid(GridSize(), seq(items.Length1, y requires 0 <= y < items.Length1 reads items =>
                         seq(items.Length0, x requires 0 <= x < items.Length0 reads items => items[x, y])))
    }

    /** The Grid<T> constructor: allocates the array and fills it column by column. */
    constructor Create(size: Size, initializer: Vector2D --> T)
      requires forall p :: IsValidPosition(size, p) ==> initializer.requires(p)
      ensures fresh(items)
      ensures GridSize() == size
      ensures Values() == FromFunction(size, initializer)
    {
      var a := new T[size.width, size.height];
      for x := 0 to size.width
        invariant forall i, j :: 0 <= i < x && 0 <= j < size.height ==> a[i, j] == initializer(Vector2D(i, j))
      {
        for y := 0 to size.height
          invariant forall i, j :: 0 <= i < x && 0 <= j < size.height ==> a[i, j] == initializer(Vector2D(i, j))
          invariant forall j :: 0 <= j < y ==> a[x, j] == initializer(Vector2D(x, j))
        {
          a[x, y] := initializer(Vector2D(x, y));
        }
      }
      items := a;
      new;
      GridExtensionality(Values(), FromFunction(size, initializer));
    }

    /** IGridExtensions.Overwrite: rejects a null source and a source of another
        size; otherwise assigns every cell, in AllPositions order, the source's item. */
    method Overwrite(given: Option<Grid<T>>) returns (r: Outcome<Error>)
      requires given.Some? ==> given.value.Valid()
      modifies items
      ensures r.Fail? <==> given.None? || given.value.size != GridSize()
      ensures r.Fail? ==> unchanged(items)
      ensures given.None? ==> r == Fail(ArgumentNull("source"))
      ensures given.Some? && given.value.size != GridSize() ==>
                r == Fail(InvalidArgument("Grids should have same size"))
      ensures r.Pass? ==> Values() == given.value
    {
      if given.None? {
        return Fail(ArgumentNull("source"));
      }
      var source := given.value;
      if GridSize() != source.size {
        return Fail(InvalidArgument("Grids should have same size"));
      }
      var positions := AllPositions(GridSize());
      AllPositionsEnumerates(GridSize());
      for i := 0 to |positions|
        invariant forall k :: 0 <= k < i ==> items[positions[k].x, positions[k].y] == source.At(positions[k])
      {
        assert positions[i] in positions;
        items[positions[i].x, positions[i].y] := source.At(positions[i]);
      }
      forall p | IsValidPosition(source.size, p)
        ensures Values().At(p) == source.At(p)
      {
        var k :| 0 <= k < |positions| && positions[k] == p;
      }
      GridExtensionality(Values(), source);
      r := Pass;
    }

    /** `Column(x).Overwrite(line)` on the live column view: every cell of column x
        takes the line's value; reports whether any cell changed. */
    method OverwriteColumn(x: int, line: seq<T>) returns (changed: bool)
      requires 0 <= x < items.Length0 && |line| == items.Length1
      modifies items
      ensures Values() == WithColumn(old(Values()), x, line)
      ensures changed <==> old(Values()).Column(x) != line
    {
      ghost var before := Values();
      changed := false;
      for y := 0 to |line|
        invariant forall i, j :: 0 <= i < items.Length0 && 0 <= j < items.Length1 ==>
                    items[i, j] == if i == x && j < y then line[j] else old(items[i, j])
        invariant changed <==> exists j :: 0 <= j < y && old(items[x, j]) != line[j]
      {
        if items[x, y] != line[y] {
          changed := true;
        }
        items[x, y] := line[y];
      }
      GridExtensionality(Values(), WithColumn(before, x, line));
      if changed {
        ghost var j :| 0 <= j < |line| && old(items[x, j]) != line[j];
        assert before.Column(x)[j] != line[j];
      } else {
        assert before.Column(x) == line;
      }
    }

    /** `Row(y).Overwrite(line)` on the live row view: every cell of row y takes
        the line's value; reports whether any cell changed. */
    method OverwriteRow(y: int, line: seq<T>) returns (changed: bool)
      requires 0 <= y < items.Length1 && |line| == items.Length0
      modifies items
      ensures Values() == WithRow(old(Values()), y, line)
      ensures changed <==> old(Values()).Row(y) != line
    {
      ghost var before := Values();
      changed := false;
      for x := 0 to |line|
        invariant forall i, j :: 0 <= i < items.Length0 && 0 <= j < items.Length1 ==>
                    items[i, j] == if j == y && i < x then line[i] else old(items[i, j])
        invariant changed <==> exists i :: 0 <= i < x && old(items[i, y]) != line[i]
      {
        if items[x, y] != line[x] {
          changed := true;
        }
        items[x, y] := line[x];
      }
      GridExtensionality(Values(), WithRow(before, y, line));
      if changed {
        ghost var i :| 0 <= i < |line| && old(items[i, y]) != line[i];
        assert before.Row(y)[i] != line[i];
      } else {
        assert before.Row(y) == line;
      }
    }
  }
}
