/**
 * `place_axes_on_grid` (figrid/__init__.py:7-78).
 */
module Figrid {
  import opened Wrappers
  import opened Spans
  import opened Shapes
  import opened Figures

  /** `dim`: rows and columns of the inner grid. */
  datatype Dims = Dims(rows: nat, cols: nat)

  /** The arguments of `place_axes_on_grid` after `fig`. */
  datatype Placement = Placement(
    dim: Dims, xspan: Span, yspan: Span,
    wspace: Option<real>, hspace: Option<real>,
    sharex: bool, sharey: bool, frameon: bool)

  /** The keyword defaults of `place_axes_on_grid`. */
  const DefaultPlacement := Placement(Dims(1, 1), Span(0.0, 1.0), Span(0.0, 1.0), None, None, false, false, true)

  /**
   * An entry of the handle array: the figure it is first filled with, or
   * the subplot that replaced it.
   */
  datatype Slot = FigurePlaceholder | Made(ax: Axes)

  /**
   * The exceptions a placement can end in: `IndexError` when the outer
   * slice selects no cell, `AttributeError` when `get_xtick` is looked up.
   */
  datatype PlaceError = IndexError | AttributeError

  /**
   * What the `elif` branch of the x tick rule does for a row above the last
   * under sharex: as written it evaluates `ax.get_xtick`, which subplots do
   * not have; the evidently intended statement hides the x tick labels, as
   * the y tick rule does for columns after the first.
   */
  datatype XTickRule = AsWritten | HideUpperLabels

  /** The x tick rule raises for cells of row `row`: sharex, as written, on a row above the last. */
  predicate XTickRaises(rule: XTickRule, p: Placement, row: nat) {
    rule == AsWritten && p.sharex && row < p.dim.rows - 1
  }

  /**
   * The placement raises at the x tick rule: it does so on the first row,
   * which happens as written under sharex with two or more rows.
   */
  predicate GridRaises(rule: XTickRule, p: Placement) {
    XTickRaises(rule, p, 0)
  }

  /**
   * Subplot `a` is cell `(i, j)` of the placement `p`, shares its axes with
   * `xTarget` and `yTarget`, and has the tick settings the loop gives that
   * cell: bottom x ticks on the last row and hidden x tick labels on the
   * rows above it when sharing x, left y ticks on column 0 and hidden y tick
   * labels elsewhere when sharing y.
   */
  ghost predicate Placed(a: Axes, i: nat, j: nat, p: Placement, xTarget: Option<Axes>, yTarget: Option<Axes>)
    reads a
  {
    && a.spec == SubplotSpec(OuterRegion(p.xspan, p.yspan), p.dim.rows, p.dim.cols, i * p.dim.cols + j, p.wspace, p.hspace)
    && a.shareX == xTarget && a.shareY == yTarget && a.frameon == p.frameon
    && a.xTicks == (if p.sharex && i == p.dim.rows - 1 then Bottom else DefaultPosition)
    && a.xTickLabelsVisible == !(p.sharex && i < p.dim.rows - 1)
    && a.yTicks == (if p.sharey && j == 0 then Left else DefaultPosition)
    && a.yTickLabelsVisible == !(p.sharey && j > 0)
  }

  /**
   * The flat counter picks the right cell: the subplot placed at `(i, j)`
   * sits on the spec that the library reads back as row `i`, column `j`.
   */
  lemma PlacedOnOwnCell(a: Axes, i: nat, j: nat, p: Placement, xTarget: Option<Axes>, yTarget: Option<Axes>)
    requires Placed(a, i, j, p, xTarget, yTarget) && j < p.dim.cols
    ensures a.spec.Row() == i && a.spec.Col() == j
  {
    RowMajorDecode(i, j, p.dim.cols);
  }

  /** Nothing has been drawn on `a` and its axis is shown. */
  ghost predicate Blank(a: Axes)
    reads a
  {
    a.lines == [] && a.texts == [] && a.axisOn
  }

  /** The objects of a grid of subplots. */
  ghost function Objects(g: seq<seq<Axes>>): set<Axes> {
    set i, j | 0 <= i < |g| && 0 <= j < |g[i]| :: g[i][j]
  }

  /**
   * Every cell `(i, j)` of `g` is placed as `place_axes_on_grid` places it:
   * sharing x with `(0, j)` exactly when sharex holds and `i > 0`, sharing y
   * with `(i, 0)` exactly when sharey holds and `j > 0`, and blank.
   */
  ghost predicate PlacedCells(g: seq<seq<Axes>>, p: Placement)
    reads Objects(g)
  {
    forall i, j :: 0 <= i < |g| && 0 <= j < |g[i]| ==> CellPlaced(g, i, j, p)
  }

  /** Cell `(i, j)` of the grid `g` is placed and blank. */
  ghost predicate CellPlaced(g: seq<seq<Axes>>, i: nat, j: nat, p: Placement)
    requires i < |g| && j < |g[i]|
    reads g[i][j]
  {
    && Placed(g[i][j], i, j, p,
              if p.sharex && i > 0 && j < |g[0]| then Some(g[0][j]) else None,
              if p.sharey && j > 0 then Some(g[i][0]) else None)
    && Blank(g[i][j])
  }

  /** A finished row whose cells are placed extends a placed grid. */
  lemma PlacedCellsSnoc(g: seq<seq<Axes>>, row: seq<Axes>, p: Placement)
    requires IsMatrix(g, |g|, |row|) && PlacedCells(g, p)
    requires forall j :: 0 <= j < |row| ==>
      && Placed(row[j], |g|, j, p,
                if p.sharex && |g| > 0 then Some(g[0][j]) else None,
                if p.sharey && j > 0 then Some(row[0]) else None)
      && Blank(row[j])
    ensures PlacedCells(g + [row], p)
  {
    var g' := g + [row];
    forall i, j | 0 <= i < |g'| && 0 <= j < |g'[i]|
      ensures CellPlaced(g', i, j, p)
    {
      if i < |g| {
        assert CellPlaced(g, i, j, p);
        assert g'[i][j] == g[i][j] && g'[i][0] == g[i][0];
        assert j < |g'[0]| ==> g'[0][j] == g[0][j];
      } else {
        assert g'[i][j] == row[j] && g'[i][0] == row[0];
        if i > 0 {
          assert g'[0][j] == g[0][j];
        }
      }
    }
  }

  /**
   * The sharing invariant for x: in a placed grid that shares x, exactly
   * the last row shows x tick labels, and exactly it has its ticks at the
   * bottom.
   */
  lemma XTickLabelsOnBottomRowOnly(g: seq<seq<Axes>>, p: Placement)
    requires IsMatrix(g, p.dim.rows, p.dim.cols) && PlacedCells(g, p) && p.sharex
    ensures forall i, j :: 0 <= i < p.dim.rows && 0 <= j < p.dim.cols ==>
      && (g[i][j].xTickLabelsVisible <==> i == p.dim.rows - 1)
      && (g[i][j].xTicks == Bottom <==> i == p.dim.rows - 1)
  {
    forall i, j | 0 <= i < p.dim.rows && 0 <= j < p.dim.cols
      ensures g[i][j].xTickLabelsVisible <==> i == p.dim.rows - 1
      ensures g[i][j].xTicks == Bottom <==> i == p.dim.rows - 1
    {
      assert CellPlaced(g, i, j, p);
    }
  }

  /** Some cell of the grid `g` was created on spec index `k`. */
  ghost predicate IndexUsed(g: seq<seq<Axes>>, p: Placement, k: int)
    requires IsMatrix(g, p.dim.rows, p.dim.cols)
    reads Objects(g)
  {
    exists i, j :: 0 <= i < p.dim.rows && 0 <= j < p.dim.cols && g[i][j].spec.index == k
  }

  /**
   * The flat counter hands out every index exactly once: in a placed grid,
   * the spec indices of the cells are below rows*cols, no two cells share
   * one, and every index below rows*cols belongs to some cell.
   */
  lemma IndicesUsedOnce(g: seq<seq<Axes>>, p: Placement)
    requires IsMatrix(g, p.dim.rows, p.dim.cols) && PlacedCells(g, p)
    ensures forall i, j :: 0 <= i < p.dim.rows && 0 <= j < p.dim.cols ==>
      g[i][j].spec.index < p.dim.rows * p.dim.cols
    ensures forall i, j, i', j' ::
      (&& 0 <= i < p.dim.rows && 0 <= j < p.dim.cols && 0 <= i' < p.dim.rows && 0 <= j' < p.dim.cols
       && g[i][j].spec.index == g[i'][j'].spec.index)
      ==> i == i' && j == j'
    ensures forall k :: 0 <= k < p.dim.rows * p.dim.cols ==> IndexUsed(g, p, k)
  {
    IndicesInRange(g, p);
    IndicesDistinct(g, p);
    IndicesCovered(g, p);
  }

  /** Every spec index of a placed grid is below rows*cols. */
  lemma IndicesInRange(g: seq<seq<Axes>>, p: Placement)
    requires IsMatrix(g, p.dim.rows, p.dim.cols) && PlacedCells(g, p)
    ensures forall i, j :: 0 <= i < p.dim.rows && 0 <= j < p.dim.cols ==>
      g[i][j].spec.index < p.dim.rows * p.dim.cols
  {
    forall i, j | 0 <= i < p.dim.rows && 0 <= j < p.dim.cols
      ensures g[i][j].spec.index < p.dim.rows * p.dim.cols
    {
      PlacedIndex(g, p, i, j);
      RowMajorInRange(i, j, p.dim.rows, p.dim.cols);
    }
  }

  /** No two cells of a placed grid share a spec index. */
  lemma IndicesDistinct(g: seq<seq<Axes>>, p: Placement)
    requires IsMatrix(g, p.dim.rows, p.dim.cols) && PlacedCells(g, p)
    ensures forall i, j, i', j' ::
      (&& 0 <= i < p.dim.rows && 0 <= j < p.dim.cols && 0 <= i' < p.dim.rows && 0 <= j' < p.dim.cols
       && g[i][j].spec.index == g[i'][j'].spec.index)
      ==> i == i' && j == j'
  {
    forall i, j, i', j' |
      0 <= i < p.dim.rows && 0 <= j < p.dim.cols && 0 <= i' < p.dim.rows && 0 <= j' < p.dim.cols &&
      g[i][j].spec.index == g[i'][j'].spec.index
      ensures i == i' && j == j'
    {
      PlacedIndex(g, p, i, j);
      PlacedIndex(g, p, i', j');
      RowMajorInjective(i, j, i', j', p.dim.cols);
    }
  }

  /** Every index below rows*cols is the spec index of some cell of a placed grid. */
  lemma IndicesCovered(g: seq<seq<Axes>>, p: Placement)
    requires IsMatrix(g, p.dim.rows, p.dim.cols) && PlacedCells(g, p)
    ensures forall k :: 0 <= k < p.dim.rows * p.dim.cols ==> IndexUsed(g, p, k)
  {
    forall k | 0 <= k < p.dim.rows * p.dim.cols
      ensures IndexUsed(g, p, k)
    {
      RowMajorCovers(k, p.dim.rows, p.dim.cols);
      PlacedIndex(g, p, k / p.dim.cols, k % p.dim.cols);
    }
  }

  /** Cell `(i, j)` of a placed grid was created on spec index `i*cols + j`. */
  lemma PlacedIndex(g: seq<seq<Axes>>, p: Placement, i: nat, j: nat)
    requires IsMatrix(g, p.dim.rows, p.dim.cols) && PlacedCells(g, p)
    requires i < p.dim.rows && j < p.dim.cols
    ensures g[i][j].spec.index == i * p.dim.cols + j
  {
    assert CellPlaced(g, i, j, p);
  }

  /** `np.array(inner_ax).tolist()` once every entry has been replaced. */
  function Nested(grid: array2<Slot>): (g: seq<seq<Axes>>)
    reads grid
    requires forall i, j :: 0 <= i < grid.Length0 && 0 <= j < grid.Length1 ==> grid[i, j].Made?
    ensures IsMatrix(g, grid.Length0, grid.Length1)
    ensures forall i, j :: 0 <= i < grid.Length0 && 0 <= j < grid.Length1 ==> g[i][j] == grid[i, j].ax
  {
    seq(grid.Length0, i requires 0 <= i < grid.Length0 && (forall j :: 0 <= j < grid.Length1 ==> grid[i, j].Made?) reads grid =>
      seq(grid.Length1, j requires 0 <= j < grid.Length1 && grid[i, j].Made? reads grid => grid[i, j].ax))
  }


  /**
   * One pass of the loop body of `place_axes_on_grid` for cell `(row, col)`:
   * pick the sharing partners, create the subplot on spec `idx` and store
   * it in the array, apply the tick rules and add it to the figure. When
   * the x tick rule raises, the subplot is created and stored but never
   * added to the figure.
   */
  method PlaceCell(fig: Figure, grid: array2<Slot>, p: Placement, rule: XTickRule, outer: Region, row: nat, col: nat, idx: nat)
    returns (a: Axes, err: Option<PlaceError>)
    requires grid.Length0 == p.dim.rows && grid.Length1 == p.dim.cols
    requires row < p.dim.rows && col < p.dim.cols && idx == row * p.dim.cols + col
    requires outer == OuterRegion(p.xspan, p.yspan)
    requires row > 0 && p.sharex ==> grid[0, col].Made?
    requires col > 0 && p.sharey ==> grid[row, 0].Made?
    modifies fig, grid
    ensures fresh(a)
    ensures forall i, j :: 0 <= i < grid.Length0 && 0 <= j < grid.Length1 ==>
      grid[i, j] == if i == row && j == col then Made(a) else old(grid[i, j])
    ensures err.Some? <==> XTickRaises(rule, p, row)
    ensures err.Some? ==> err == Some(AttributeError) && fig.axes == old(fig.axes)
    ensures err.None? ==>
      && Placed(a, row, col, p,
                if p.sharex && row > 0 then Some(old(grid[0, col]).ax) else None,
                if p.sharey && col > 0 then Some(old(grid[row, 0]).ax) else None)
      && Blank(a)
      && fig.axes == old(fig.axes) + [a]
  {
    var rows, cols := p.dim.rows, p.dim.cols;
    // Row 0 and column 0 come first in row-major order, so both targets
    // are already subplots: `.ax` proves the figure placeholder is never read.
    var shareXWith: Option<Axes>;
    if row > 0 && p.sharex {
      shareXWith := Some(grid[0, col].ax);
    } else {
      shareXWith := None;
    }
    var shareYWith: Option<Axes>;
    if col > 0 && p.sharey {
      shareYWith := Some(grid[row, 0].ax);
    } else {
      shareYWith := None;
    }

    a := new Axes(SubplotSpec(outer, rows, cols, idx, p.wspace, p.hspace), shareXWith, shareYWith, p.frameon);
    grid[row, col] := Made(a);

    if row == rows - 1 && p.sharex {
      a.xTicks := Bottom;
    } else if row < rows && p.sharex {
      match rule
      case AsWritten =>
        // `ax.get_xtick` names no attribute of a subplot.
        return a, Some(AttributeError);
      case HideUpperLabels =>
        a.xTickLabelsVisible := false;
    }

    if col == 0 && p.sharey {
      a.yTicks := Left;
    } else if col > 0 && p.sharey {
      a.yTickLabelsVisible := false;
    }

    fig.axes := fig.axes + [a];  // fig.add_subplot
    err := None;
  }

  /**
   * The inner `for col` loop of `place_axes_on_grid` for one row: cells
   * `(row, 0) .. (row, cols-1)` are created in order with flat indices
   * `idx .. idx+cols-1` and added to the figure, and only that row of the
   * handle array changes. When the x tick rule raises, it does so on the
   * row's first cell, before anything is added to the figure.
   */
  method PlaceRow(fig: Figure, grid: array2<Slot>, p: Placement, rule: XTickRule, outer: Region, row: nat, idx: nat, ghost done: seq<seq<Axes>>)
    returns (idx': nat, ghost current: seq<Axes>, err: Option<PlaceError>)
    requires p.dim.cols >= 1
    requires grid.Length0 == p.dim.rows && grid.Length1 == p.dim.cols
    requires row < p.dim.rows && idx == row * p.dim.cols
    requires outer == OuterRegion(p.xspan, p.yspan)
    requires IsMatrix(done, row, p.dim.cols)
    requires forall i, j :: 0 <= i < p.dim.rows && 0 <= j < p.dim.cols ==> (grid[i, j].Made? <==> i < row)
    requires forall i, j :: 0 <= i < row && 0 <= j < p.dim.cols ==> grid[i, j].ax == done[i][j]
    modifies fig, grid
    ensures err.Some? <==> XTickRaises(rule, p, row)
    ensures err.Some? ==> err == Some(AttributeError) && fig.axes == old(fig.axes)
    ensures err.None? ==>
      && idx' == (row + 1) * p.dim.cols
      && |current| == p.dim.cols
      && fig.axes == old(fig.axes) + current
      && (forall i, j :: 0 <= i < p.dim.rows && 0 <= j < p.dim.cols ==>
            grid[i, j] == if i == row then Made(current[j]) else old(grid[i, j]))
      && (forall j :: 0 <= j < p.dim.cols ==> fresh(current[j]))
      && (forall j, j' :: 0 <= j < j' < p.dim.cols ==> current[j] != current[j'])
      && (forall j :: 0 <= j < p.dim.cols ==>
            && Placed(current[j], row, j, p,
                      if p.sharex && row > 0 then Some(done[0][j]) else None,
                      if p.sharey && j > 0 then Some(current[0]) else None)
            && Blank(current[j]))
  {
    var cols := p.dim.cols;
    current := [];
    idx' := idx;
    for col := 0 to cols
      invariant col > 0 ==> !XTickRaises(rule, p, row)
      invariant idx' == row * cols + col
      invariant |current| == col
      invariant fig.axes == old(fig.axes) + current
      invariant forall i, j :: 0 <= i < p.dim.rows && 0 <= j < cols ==>
        grid[i, j] == if i == row && j < col then Made(current[j]) else old(grid[i, j])
      invariant forall j :: 0 <= j < col ==> fresh(current[j])
      invariant forall j, j' :: 0 <= j < j' < col ==> current[j] != current[j']
      invariant forall j :: 0 <= j < col ==>
        && Placed(current[j], row, j, p,
                  if p.sharex && row > 0 then Some(done[0][j]) else None,
                  if p.sharey && j > 0 then Some(current[0]) else None)
        && Blank(current[j])
    {
      var a, e := PlaceCell(fig, grid, p, rule, outer, row, col, idx');
      if e.Some? {
        err := e;
        return;
      }
      current := current + [a];
      idx' := idx' + 1;
    }
    err := None;
  }

  /**
   * The outer `for row` loop of `place_axes_on_grid` over a handle array
   * holding only the figure placeholder: rows are filled in order, and the
   * x tick rule as written raises on the first cell, before anything is
   * added to the figure, exactly when it meets sharex with two or more rows.
   * Otherwise every entry of the array is replaced, the figure gains the
   * finished rows in row-major order, and every cell is placed by the rules.
   */
  method PlaceRows(fig: Figure, grid: array2<Slot>, p: Placement, rule: XTickRule, outer: Region)
    returns (ghost done: seq<seq<Axes>>, err: Option<PlaceError>)
    requires p.dim.rows >= 1 && p.dim.cols >= 1
    requires grid.Length0 == p.dim.rows && grid.Length1 == p.dim.cols
    requires outer == OuterRegion(p.xspan, p.yspan)
    requires forall i, j :: 0 <= i < p.dim.rows && 0 <= j < p.dim.cols ==> grid[i, j] == FigurePlaceholder
    modifies fig, grid
    ensures err.Some? <==> GridRaises(rule, p)
    ensures err.Some? ==> err == Some(AttributeError) && fig.axes == old(fig.axes)
    ensures err.None? ==>
      && IsMatrix(done, p.dim.rows, p.dim.cols)
      && fig.axes == old(fig.axes) + Flatten(done)
      && (forall k, m :: |old(fig.axes)| <= k < m < |fig.axes| ==> fig.axes[k] != fig.axes[m])
      && (forall i, j :: 0 <= i < p.dim.rows && 0 <= j < p.dim.cols ==> grid[i, j] == Made(done[i][j]))
      && (forall i, j :: 0 <= i < p.dim.rows && 0 <= j < p.dim.cols ==> fresh(done[i][j]))
      && PlacedCells(done, p)
  {
    var rows, cols := p.dim.rows, p.dim.cols;
    done := [];
    var idx := 0;
    for row := 0 to rows
      invariant row > 0 ==> !GridRaises(rule, p)
      invariant idx == row * cols
      invariant IsMatrix(done, row, cols)
      invariant fig.axes == old(fig.axes) + Flatten(done)
      invariant forall k :: |old(fig.axes)| <= k < |fig.axes| ==> fresh(fig.axes[k])
      invariant forall k, m :: |old(fig.axes)| <= k < m < |fig.axes| ==> fig.axes[k] != fig.axes[m]
      invariant forall i, j :: 0 <= i < rows && 0 <= j < cols ==> (grid[i, j].Made? <==> i < row)
      invariant forall i, j :: 0 <= i < row && 0 <= j < cols ==> grid[i, j].ax == done[i][j]
      invariant forall i, j :: 0 <= i < row && 0 <= j < cols ==> fresh(done[i][j])
      invariant PlacedCells(done, p)
    {
      ghost var current;
      var e;
      idx, current, e := PlaceRow(fig, grid, p, rule, outer, row, idx, done);
      if e.Some? {
        return done, e;
      }
      FlattenSnoc(done, current);
      PlacedCellsSnoc(done, current, p);
      done := done + [current];
    }
    err := None;
  }

  /**
   * `place_axes_on_grid` with the given x tick rule. It raises `IndexError`
   * before creating anything when the outer slice selects no cell, and
   * raises `AttributeError` on cell `(0, 0)`, before anything is added to
   * the figure, exactly when the rule as written meets sharex with two or
   * more rows. Otherwise the figure gains exactly rows*cols new, distinct
   * subplots, one per cell, added in row-major order, and the call returns
   * them squeezed. Cell `(i, j)` gets flat index `i*cols + j`, shares x with
   * cell `(0, j)` exactly when sharex holds and `i > 0`, and shares y with
   * cell `(i, 0)` exactly when sharey holds and `j > 0`.
   */
  method PlaceGrid(fig: Figure, p: Placement, rule: XTickRule) returns (result: Result<Shape<Axes>, PlaceError>)
    requires p.dim.rows >= 1 && p.dim.cols >= 1
    modifies fig
    ensures result.Failure? <==>
      EmptyRegion(OuterRegion(p.xspan, p.yspan)) || GridRaises(rule, p)
    ensures result.Failure? ==>
      && fig.axes == old(fig.axes)
      && result.error == if EmptyRegion(OuterRegion(p.xspan, p.yspan)) then IndexError else AttributeError
    ensures result.Success? ==>
      && |fig.axes| == |old(fig.axes)| + p.dim.rows * p.dim.cols
      && fig.axes[..|old(fig.axes)|] == old(fig.axes)
      && (forall k, m :: |old(fig.axes)| <= k < m < |fig.axes| ==> fig.axes[k] != fig.axes[m])
      && var G := Rows(fig.axes[|old(fig.axes)|..], p.dim.rows, p.dim.cols);
      && result.value == Squeeze(G)
      && (forall i, j :: 0 <= i < p.dim.rows && 0 <= j < p.dim.cols ==> fresh(G[i][j]))
      && PlacedCells(G, p)
  {
    var rows, cols := p.dim.rows, p.dim.cols;
    var outer := OuterRegion(p.xspan, p.yspan);
    if EmptyRegion(outer) {
      // `outer_grid[...]` refuses a slice that allocates no cell.
      return Failure(IndexError);
    }
    var grid := new Slot[rows, cols]((i, j) => FigurePlaceholder);
    ghost var done;
    var err;
    done, err := PlaceRows(fig, grid, p, rule, outer);
    if err.Some? {
      return Failure(err.value);
    }

    var nested := Nested(grid);
    assert nested == done by {
      forall i | 0 <= i < rows ensures nested[i] == done[i] {
        assert |nested[i]| == |done[i]| == cols;
      }
    }
    RowsFlatten(done, rows, cols);
    result := Success(Squeeze(nested));
  }

  /**
   * `place_axes_on_grid` as written: with sharex and two or more rows it
   * raises `AttributeError` at `ax.get_xtick`, on cell `(0, 0)`, before any
   * subplot is added to the figure; so the only grids it completes under
   * sharex have a single row.
   */
  method PlaceAxesOnGrid(fig: Figure, p: Placement) returns (result: Result<Shape<Axes>, PlaceError>)
    requires p.dim.rows >= 1 && p.dim.cols >= 1
    modifies fig
    ensures result.Failure? <==> EmptyRegion(OuterRegion(p.xspan, p.yspan)) || GridRaises(AsWritten, p)
    ensures result.Failure? ==>
      && fig.axes == old(fig.axes)
      && result.error == if EmptyRegion(OuterRegion(p.xspan, p.yspan)) then IndexError else AttributeError
    ensures result.Success? ==>
      && |fig.axes| == |old(fig.axes)| + p.dim.rows * p.dim.cols
      && fig.axes[..|old(fig.axes)|] == old(fig.axes)
      && (forall k, m :: |old(fig.axes)| <= k < m < |fig.axes| ==> fig.axes[k] != fig.axes[m])
      && var G := Rows(fig.axes[|old(fig.axes)|..], p.dim.rows, p.dim.cols);
      && result.value == Squeeze(G)
      && (forall i, j :: 0 <= i < p.dim.rows && 0 <= j < p.dim.cols ==> fresh(G[i][j]))
      && PlacedCells(G, p)
    ensures result.Success? ==>
      && (result.value.Single? <==> p.dim.rows == 1 && p.dim.cols == 1)
      && (result.value.Flat? <==> (p.dim.rows == 1) != (p.dim.cols == 1))
      && (result.value.Flat? ==> |result.value.items| == p.dim.rows * p.dim.cols)
      && (result.value.Grid? ==> IsMatrix(result.value.cells, p.dim.rows, p.dim.cols))
  {
    result := PlaceGrid(fig, p, AsWritten);
  }

  /**
   * `place_axes_on_grid` with the x tick rule it evidently intends: it
   * fails only on an empty outer slice, and under sharex exactly the last
   * row of the grid shows x tick labels.
   */
  method PlaceAxesOnGridIntended(fig: Figure, p: Placement) returns (result: Result<Shape<Axes>, PlaceError>)
    requires p.dim.rows >= 1 && p.dim.cols >= 1
    modifies fig
    ensures result.Failure? <==> EmptyRegion(OuterRegion(p.xspan, p.yspan))
    ensures result.Failure? ==> fig.axes == old(fig.axes) && result.error == IndexError
    ensures result.Success? ==>
      && |fig.axes| == |old(fig.axes)| + p.dim.rows * p.dim.cols
      && fig.axes[..|old(fig.axes)|] == old(fig.axes)
      && (forall k, m :: |old(fig.axes)| <= k < m < |fig.axes| ==> fig.axes[k] != fig.axes[m])
      && var G := Rows(fig.axes[|old(fig.axes)|..], p.dim.rows, p.dim.cols);
      && result.value == Squeeze(G)
      && (forall i, j :: 0 <= i < p.dim.rows && 0 <= j < p.dim.cols ==> fresh(G[i][j]))
      && PlacedCells(G, p)
      && (p.sharex ==> forall i, j :: 0 <= i < p.dim.rows && 0 <= j < p.dim.cols ==>
            (G[i][j].xTickLabelsVisible <==> i == p.dim.rows - 1))
    ensures result.Success? ==>
      && (result.value.Single? <==> p.dim.rows == 1 && p.dim.cols == 1)
      && (result.value.Flat? <==> (p.dim.rows == 1) != (p.dim.cols == 1))
      && (result.value.Flat? ==> |result.value.items| == p.dim.rows * p.dim.cols)
      && (result.value.Grid? ==> IsMatrix(result.value.cells, p.dim.rows, p.dim.cols))
  {
    result := PlaceGrid(fig, p, HideUpperLabels);
    if result.Success? && p.sharex {
      XTickLabelsOnBottomRowOnly(Rows(fig.axes[|old(fig.axes)|..], p.dim.rows, p.dim.cols), p);
    }
  }
}
