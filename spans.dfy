/**
 * Fractional spans of the figure and the cells of the fixed 100×100 outer
 * grid they select (figrid/__init__.py:30-34).
 */
module Spans {

  /** The outer grid is `GridSpec(100, 100)`. */
  const OuterCells: int := 100

  /** A `[start, stop]` pair of fractions of the canvas along one axis. */
  datatype Span = Span(start: real, stop: real)

  /**
   * The rows × columns of outer cells that the slice
   * `outer_grid[rowStart:rowStop, colStart:colStop]` selects, once Python
   * has normalised its bounds: each lies in `0 .. 100`, and the range is
   * half-open, so it is empty when a stop is not above its start.
   */
  datatype Region = Region(rowStart: int, rowStop: int, colStart: int, colStop: int)

  /** A span inside the canvas, with its start strictly before its stop. */
  predicate ValidSpan(s: Span) {
    0.0 <= s.start < s.stop <= 1.0
  }

  /** The slice selects no row or no column. */
  predicate EmptyRegion(r: Region) {
    r.rowStop <= r.rowStart || r.colStop <= r.colStart
  }

  /** Python's `int()` on a number: truncation toward zero. */
  function Trunc(x: real): (n: int)
    ensures 0.0 <= x ==> n as real <= x < n as real + 1.0
    ensures x < 0.0 ==> n as real - 1.0 < x <= n as real
  {
    if x >= 0.0 then x.Floor else -((-x).Floor)
  }

  /** `int(100 * f)`: the outer-grid index of the fraction `f`, before slicing. */
  function CellIndex(f: real): int {
    Trunc(OuterCells as real * f)
  }

  /** The fraction `f` lies in outer cell `n`, that is in `[n/100, (n+1)/100)`. */
  predicate InCell(f: real, n: int) {
    n as real <= OuterCells as real * f < n as real + 1.0
  }

  /**
   * How a Python slice over a sequence of 100 cells reads one bound `k`
   * (`slice.indices(100)` with step 1): a bound in `0 .. 100` is kept, a
   * larger one is cut down to 100, and a negative one counts back from the
   * end, stopping at 0.
   */
  function SliceBound(k: int): (b: int)
    ensures 0 <= b <= OuterCells
    ensures 0 <= k <= OuterCells ==> b == k
    ensures OuterCells < k ==> b == OuterCells
    ensures -OuterCells <= k < 0 ==> b == k + OuterCells
    ensures k < -OuterCells ==> b == 0
  {
    if k < 0 then (if k + OuterCells < 0 then 0 else k + OuterCells)
    else if k > OuterCells then OuterCells
    else k
  }

  /**
   * The slice `outer_grid[int(100*y0):int(100*y1), int(100*x0):int(100*x1)]`:
   * rows come from the y span and columns from the x span. A bound whose
   * fraction lies in `[0, 1]` is the cell that fraction falls in; a bound
   * whose fraction is 1 or more is cut down to the grid's edge.
   */
  function OuterRegion(xspan: Span, yspan: Span): (r: Region)
    ensures 0 <= r.rowStart <= OuterCells && 0 <= r.rowStop <= OuterCells
    ensures 0 <= r.colStart <= OuterCells && 0 <= r.colStop <= OuterCells
    ensures 0.0 <= yspan.start <= 1.0 ==> InCell(yspan.start, r.rowStart)
    ensures 0.0 <= yspan.stop <= 1.0 ==> InCell(yspan.stop, r.rowStop)
    ensures 0.0 <= xspan.start <= 1.0 ==> InCell(xspan.start, r.colStart)
    ensures 0.0 <= xspan.stop <= 1.0 ==> InCell(xspan.stop, r.colStop)
    ensures 1.0 <= yspan.stop ==> r.rowStop == OuterCells
    ensures 1.0 <= xspan.stop ==> r.colStop == OuterCells
  {
    Region(SliceBound(CellIndex(yspan.start)), SliceBound(CellIndex(yspan.stop)),
           SliceBound(CellIndex(xspan.start)), SliceBound(CellIndex(xspan.stop)))
  }

  /**
   * For spans inside the canvas the slice changes nothing: the bounds are
   * the cells `int(100*f)`, in order.
   */
  lemma OuterRegionInGrid(xspan: Span, yspan: Span)
    requires ValidSpan(xspan) && ValidSpan(yspan)
    ensures var r := OuterRegion(xspan, yspan);
      && r == Region(CellIndex(yspan.start), CellIndex(yspan.stop), CellIndex(xspan.start), CellIndex(xspan.stop))
      && r.rowStart <= r.rowStop && r.colStart <= r.colStop
  {
  }

  /**
   * The raw bounds `int(100*start)` and `int(100*stop)` of a span lie about
   * 100 × its width apart: never one more or one less than that, so they
   * differ by at least one once the span is 0.01 wide. They count the
   * selected cells only while the stop is inside the canvas
   * (`SpanSelectedCells`).
   */
  lemma SpanCellCount(s: Span)
    requires 0.0 <= s.start <= s.stop
    ensures var n := CellIndex(s.stop) - CellIndex(s.start);
      && OuterCells as real * (s.stop - s.start) - 1.0 < n as real < OuterCells as real * (s.stop - s.start) + 1.0
      && (s.stop - s.start >= 0.01 ==> n >= 1)
  {
  }

  /**
   * The columns the x span `s` actually selects, once the slice has cut its
   * bounds to the grid: as many as its raw bounds differ while the stop is
   * inside the canvas, so at least one for a span 0.01 wide there; the
   * cells from its start up to the grid's edge once the stop reaches past
   * it; and none once the start is at the edge or beyond.
   */
  lemma SpanSelectedCells(s: Span)
    requires 0.0 <= s.start <= s.stop
    ensures var r := OuterRegion(s, Span(0.0, 1.0));
      && (s.stop <= 1.0 ==> r.colStop - r.colStart == CellIndex(s.stop) - CellIndex(s.start))
      && (s.stop <= 1.0 && s.stop - s.start >= 0.01 ==> !EmptyRegion(r))
      && (s.start < 1.0 <= s.stop ==> r.colStop - r.colStart == OuterCells - CellIndex(s.start) >= 1)
      && (1.0 <= s.start ==> EmptyRegion(r))
  {
    var r := OuterRegion(s, Span(0.0, 1.0));
    SpanCellCount(s);
    if s.start < 1.0 {
      assert CellIndex(s.start) < OuterCells;
    } else {
      assert CellIndex(s.start) >= OuterCells;
    }
  }

  /** A span past the canvas edge selects nothing, however wide: `[1.0, 1.5]` slices `100:100`. */
  lemma SpanPastEdgeIsEmpty()
    ensures var r := OuterRegion(Span(1.0, 1.5), Span(0.0, 1.0));
      r.colStart == r.colStop == OuterCells && EmptyRegion(r)
  {
  }

  /**
   * An inverted span is not always empty: a negative stop counts back from
   * the end, so `[0.5, -0.3]` slices `50:70` and selects 20 columns.
   */
  lemma InvertedSpanCanWrap()
    ensures var r := OuterRegion(Span(0.5, -0.3), Span(0.0, 1.0));
      r.colStart == 50 && r.colStop == 70 && !EmptyRegion(r)
  {
  }

  /** A span narrower than one cell can select no cell at all. */
  lemma NarrowSpanCanBeEmpty()
    ensures var r := OuterRegion(Span(0.0, 1.0), Span(0.001, 0.009));
      r.rowStart == r.rowStop == 0 && EmptyRegion(r)
  {
  }

  /** A span narrower than one cell that crosses a cell boundary still selects a cell: `[0.005, 0.012]` slices `0:1`. */
  lemma NarrowSpanCanSelectCell()
    ensures var r := OuterRegion(Span(0.0, 1.0), Span(0.005, 0.012));
      r.rowStart == 0 && r.rowStop == 1 && !EmptyRegion(r)
  {
  }

  /** A negative start counts back from the grid's end: `[-0.05, 0.5]` slices `95:50`, which is empty. */
  lemma NegativeStartCountsFromEnd()
    ensures var r := OuterRegion(Span(-0.05, 0.5), Span(0.0, 1.0));
      r.colStart == 95 && r.colStop == 50 && EmptyRegion(r)
  {
  }
}
