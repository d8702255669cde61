# figrid in Dafny

A model of the core of `figrid`, a thin layer over matplotlib's grid
layout, together with proofs about it. The model has three parts.

- `place_axes_on_grid` converts fractional `xspan`/`yspan` to a cell range on
  a fixed 100×100 outer grid. It fills a `dim[0]`×`dim[1]` handle array in
  row-major order with a flat counter `idx`. It wires x/y axis sharing,
  applies the tick rules, registers every subplot with the figure, and
  returns the array squeezed.
- `add_label` places a 1×1 grid on a span 0.01 wide, writes one text element
  and turns the axis off. `add_labels` repeats that for a list.
- `scalebar` draws a horizontal and/or a vertical ruler, each with a text
  element, onto a subplot.

matplotlib is abstracted. A `Figure` is a class that keeps the list of
subplots added to it. An `Axes` is a class that records:

- its cell (`SubplotSpec`: the outer region, the inner grid size, the flat
  index and the spacing);
- its sharing partners;
- `frameon`;
- its tick settings;
- the lines and texts drawn on it;
- whether its axis is on.

Modules, one per component:

- `Spans` (`spans.dfy`): spans, `int(100*x)` and the outer cell region.
- `Shapes` (`shapes.dfy`): row-major layout, and the squeeze as
  `Shape = Single | Flat | Grid`.
- `Figures` (`figures.dfy`): the figure and subplot objects.
- `Figrid` (`figrid.dfy`): the placement loop.
- `Labels` (`labels.dfy`): `add_label` and `add_labels`.
- `Scalebars` (`scalebar.dfy`): `scalebar`.

The handle array is an `array2<Slot>`. It starts filled with
`FigurePlaceholder`, which stands for the figure object the source fills
`inner_ax` with. Each cell is replaced by `Made(ax)`. Reading a sharing
partner goes through the destructor `.ax`. Dafny therefore proves that the
placeholder is never passed as a share target: row 0 and column 0 are always
filled before they are read.

Where the documented intent and the code differ, the model follows the code:

- The `elif` at figrid/__init__.py:66-67 evaluates `ax.get_xtick`, which is
  not an attribute of a subplot, so it raises `AttributeError`. With
  `sharex` and two or more rows, the call therefore fails on cell `(0, 0)`,
  after the subplot is made and before anything is added to the figure.
  `Figrid.PlaceAxesOnGrid` models that. `Figrid.PlaceAxesOnGridIntended`
  hides the x tick labels of the rows above the last instead (see
  "## Findings"). Both are `Figrid.PlaceGrid` with a different `XTickRule`.
- The code checks neither `dim` nor the spans. Each bound `int(100*f)` goes
  through Python's slice normalisation over 100 cells: a negative bound
  counts back from the end, and a bound above 100 is cut down to 100.
  When the resulting slice selects no cell, the outer grid raises
  `IndexError` and nothing is created. This covers an inverted span inside
  the canvas, a span narrower than a cell that lies inside a single cell
  (`Spans.NarrowSpanCanBeEmpty`; one that crosses a cell boundary selects a
  cell, `Spans.NarrowSpanCanSelectCell`), one
  starting at the edge or beyond (`Spans.SpanPastEdgeIsEmpty`), a label at
  the edge (`Labels.LabelAtEdgeIsEmpty`) and some negative starts
  (`Spans.NegativeStartCountsFromEnd`). An inverted span whose stop is
  negative can instead wrap round and select cells
  (`Spans.InvertedSpanCanWrap`).
- `dim` entries below 1 are a precondition, because the inner-grid
  constructor (not part of this model) rejects them.
- Spans are exact reals, and `int()` is modelled as truncation toward zero,
  as Python does it.
- `add_label` places its subplot without `sharex`, so the x tick rule never
  raises for a label. Its only failure is the empty slice.

## Model

| member | source | states |
|---|---|---|
| Spans.Trunc | figrid/__init__.py:34 | `int()` truncates toward zero: for a non-negative value the result is the largest integer not above it, for a negative value the smallest integer not below it |
| Spans.SliceBound | figrid/__init__.py:34 | a slice bound over the 100 outer cells ends up in 0..100: kept when already there, cut to 100 above it, counted back from the end when in -100..-1, and 0 below that |
| Spans.OuterRegion | figrid/__init__.py:30-34 | rows come from the y span and columns from the x span; every bound lies in 0..100; a bound whose fraction lies in `[0, 1]` is the outer cell that fraction falls in (`n <= 100*f < n+1`); a stop fraction of 1 or more gives the grid's edge, 100 |
| Spans.OuterRegionInGrid | figrid/__init__.py:30-34 | for spans with `0 <= start < stop <= 1` the slice normalisation changes nothing: the bounds are the cells `int(100*f)`, and each range is ordered |
| Spans.SpanCellCount | figrid/__init__.py:34 | the raw bounds `int(100*start)` and `int(100*stop)` of a non-negative span differ by less than one from `100 × width`, and by at least one once it is 0.01 wide |
| Spans.SpanSelectedCells | figrid/__init__.py:34 | the columns a non-negative x span selects after the slice cuts its bounds: the raw difference while the stop is at most 1, hence at least one for a span 0.01 wide; the cells from its start to the edge when only the stop reaches past the edge; none when the start is at the edge or beyond |
| Spans.SpanPastEdgeIsEmpty | figrid/__init__.py:34 | the x span `[1.0, 1.5]` slices `100:100` and selects nothing, however wide it is |
| Spans.InvertedSpanCanWrap | figrid/__init__.py:34 | the inverted x span `[0.5, -0.3]` slices `50:70`, because its negative stop counts back from the end, and so selects 20 columns |
| Spans.NarrowSpanCanBeEmpty | figrid/__init__.py:34 | a span narrower than one cell can select no row at all, since the code does not reject it |
| Spans.NarrowSpanCanSelectCell | figrid/__init__.py:34 | the y span `[0.005, 0.012]`, narrower than a cell but crossing a cell boundary, slices rows `0:1` and selects one row |
| Spans.NegativeStartCountsFromEnd | figrid/__init__.py:34 | the x span `[-0.05, 0.5]` slices columns `95:50`, which selects nothing |
| Shapes.RowMajorInjective | figrid/__init__.py:43-45 | two different cells never get the same flat index |
| Shapes.RowMajorDecode | figrid/__init__.py:58 | the flat index decodes by division and remainder back to its row and column |
| Shapes.Rows | figrid/__init__.py:77 | cutting a list of `rows*cols` handles into rows gives a `rows`×`cols` matrix |
| Shapes.RowsAt | figrid/__init__.py:77 | cell `(i, j)` of the rows cut from a list is the list's entry `i*cols + j` |
| Shapes.FlattenSnoc | figrid/__init__.py:74 | registering one more finished row appends exactly that row's handles |
| Shapes.FlattenRows | figrid/__init__.py:74-77 | flattening the rows gives back the list: registration order is row-major order |
| Shapes.FlattenLength | figrid/__init__.py:74 | a `rows`×`cols` matrix holds `rows*cols` handles once flattened |
| Shapes.RowsFlatten | figrid/__init__.py:74-77 | cutting a flattened matrix into rows gives the matrix back |
| Shapes.Squeeze | figrid/__init__.py:77 | 1×1 gives the single handle; `r`×1 or 1×`c` gives a flat list of the column or the row; `r`×`c` with both above 1 gives the rows themselves; each case holds exactly when its dimensions do |
| Shapes.SqueezeRoundTrip | figrid/__init__.py:77 | squeezing loses nothing: the grid can be rebuilt from the squeezed value and the row count |
| Figures.Axes.constructor | figrid/__init__.py:56-62 | a new subplot carries its cell, sharing partners and frame flag, with default ticks, nothing drawn and its axis on |
| Figrid.PlacedOnOwnCell | figrid/__init__.py:56-58 | the spec `inner_grid[idx]` given to the subplot at `(row, col)` is read back as row `row`, column `col` |
| Figrid.PlacedCellsSnoc | figrid/__init__.py:44-75 | appending a finished row of correctly placed cells keeps every cell of the grid correctly placed |
| Figrid.XTickLabelsOnBottomRowOnly | figrid/__init__.py:64-67 | in a placed grid that shares x, a cell shows x tick labels exactly when it is on the last row, and has bottom x ticks exactly then |
| Figrid.IndicesUsedOnce | figrid/__init__.py:43-58 | the flat counter hands out every index exactly once: each cell's spec index is below `rows*cols`, no two cells share one, and every index below `rows*cols` is some cell's |
| Figrid.PlacedIndex | figrid/__init__.py:43-58 | cell `(i, j)` of a placed grid sits on spec index `i*cols + j` |
| Figrid.Nested | figrid/__init__.py:77 | once every placeholder is replaced, the handle array read out as nested lists has `rows` rows of `cols` subplots, each the one in its cell |
| Figrid.PlaceCell | figrid/__init__.py:46-75 | cell `(row, col)`: shares x with `(0, col)` exactly when `sharex` and `row > 0`, and y with `(row, 0)` exactly when `sharey` and `col > 0`, otherwise with nothing; uses spec `idx` and replaces only its own entry of the array; raises `AttributeError` without touching the figure exactly when the rule as written meets `sharex` on a row above the last; otherwise gets bottom x ticks on the last row and hidden x tick labels above it under `sharex`, left y ticks in column 0 and hidden y tick labels elsewhere under `sharey`, and is appended to the figure |
| Figrid.PlaceRow | figrid/__init__.py:45-75 | one row of the loop: raises on its first cell, with the figure unchanged, exactly when the x tick rule raises for that row; otherwise its `cols` cells are created in order with flat indices `row*cols ..`, each placed by the rules above, all new and distinct; `idx` ends at `(row+1)*cols` and only that row of the array changes |
| Figrid.PlaceRows | figrid/__init__.py:41-75 | the whole loop: raises `AttributeError` with the figure unchanged exactly when the rule as written meets `sharex` with two or more rows; otherwise every placeholder is replaced, the figure gains the finished rows in row-major order, all new and distinct, and every cell is placed by the rules |
| Figrid.PlaceGrid | figrid/__init__.py:30-78 | fails exactly when the outer slice is empty (`IndexError`) or the rule as written meets `sharex` with two or more rows (`AttributeError`), leaving the figure unchanged; otherwise the figure gains exactly `rows*cols` new, distinct subplots after its old ones; cut into rows they form the placed grid, and the result is that grid squeezed |
| Figrid.PlaceAxesOnGrid | figrid/__init__.py:7-78 | as written: fails exactly on an empty outer slice (`IndexError`) or on `sharex` with two or more rows (`AttributeError`), with the figure unchanged; otherwise the figure gains exactly `rows*cols` new, distinct subplots placed by the index, sharing and tick rules, and the result is a single handle exactly for 1×1, a flat list of `rows*cols` for one unit dimension, and `rows` lists of `cols` otherwise |
| Figrid.PlaceAxesOnGridIntended | figrid/__init__.py:64-67 | with the upper rows' x tick labels hidden instead of the failing lookup: fails only on an empty outer slice; otherwise everything `PlaceAxesOnGrid` promises holds for every `dim`, and under `sharex` exactly the last row shows x tick labels |
| Labels.OneCellPastStart | figrid/__init__.py:92-93 | in exact arithmetic, moving a fraction of `[0, 1)` 0.01 further moves its outer cell exactly one on, and that cell is inside the grid |
| Labels.LabelCoversOneCell | figrid/__init__.py:90-94 | a label at `0 <= xpos, ypos < 1` covers exactly one outer row and one outer column: the cells its position falls in |
| Labels.LabelAtEdgeIsEmpty | figrid/__init__.py:90-94 | a label at `xpos >= 1` or `ypos >= 1` slices past the grid and selects no cell |
| Labels.AddLabel | figrid/__init__.py:81-96 | raises `IndexError` with the figure unchanged exactly when the label's slice is empty; otherwise the figure gains exactly one new subplot: the single cell of a 1×1 grid on the 0.01-wide spans, sharing nothing, with no line, exactly one text element (the label text at `(0, 0)` with the passed keywords) and its axis turned off |
| Labels.FirstFailing | figrid/__init__.py:110-111 | the number of labels placed before the first whose slice is empty: every label before it succeeds and the label at it, if any, fails |
| Labels.LabelsDrawnSnoc | figrid/__init__.py:110-111 | one more distinct subplot drawing the next label extends the drawn labels |
| Labels.AddNextLabel | figrid/__init__.py:110-111 | one pass of the loop: label `k` either raises, with the figure unchanged and `k` the first failing label, or adds one new subplot that draws it |
| Labels.AddLabels | figrid/__init__.py:99-111 | raises `IndexError` exactly when some label's slice is empty; the figure gains exactly one new subplot per label before the first such label, in order, pairwise distinct, and subplot `k` draws label `k` |
| Scalebars.BarLines | figrid/__init__.py:122-128 | one line per given length: the horizontal bar starts at the anchor, stays level and is `x_length` long; the vertical bar starts at the anchor, stays plumb and is `y_length` long; both use the bar colour and width |
| Scalebars.BarTexts | figrid/__init__.py:129-155 | one text per given length: `x_text` centred and top-aligned, `y_text` right-aligned and vertically centred, in the text colour and size |
| Scalebars.TextsBesideBars | figrid/__init__.py:129-150 | the horizontal text lies `y_buffer` below its bar at the bar's midpoint, and the vertical text `x_buffer` left of its bar at the bar's midpoint |
| Scalebars.Scalebar | figrid/__init__.py:114-155 | the subplot's lines and texts gain exactly those bars and texts, after what was already drawn, and nothing else of it changes |
| Scalebars.ScalebarCounts | figrid/__init__.py:122-155 | a horizontal-only bar adds one line and one text; both bars add two of each; neither adds nothing |

## Findings

| source | as written | input that shows it | evidently intended | confidence | as-written member | corrected member |
|---|---|---|---|---|---|---|
| figrid/__init__.py:66-67 | `plt.setp(inner_ax[row][col].get_xtick)` looks up `get_xtick`, which a subplot does not have, so it raises `AttributeError` | `dim=[2, 1], sharex=True`: cell `(0, 0)` is on a row above the last | hide the x tick labels of every row above the last, as line 72 does for the y tick labels of columns after the first | not executed | Figrid.PlaceAxesOnGrid | Figrid.PlaceAxesOnGridIntended |

## Left out

- matplotlib layout geometry. Bounding boxes, default margins and the effect
  of `wspace`/`hspace` are computed inside `GridSpec` and
  `GridSpecFromSubplotSpec`, which are not part of this model. `wspace` and
  `hspace` are carried unchanged into each subplot's `SubplotSpec`.
- IEEE floating point. Spans and scalebar coordinates are exact reals, so
  `int(100*x)` never rounds differently from the exact value. With IEEE
  doubles it can. `0.06 + 0.01` is `0.06999999999999999`, so
  `int(100*0.06)` and `int(100*(0.06 + 0.01))` are both 6. Likewise
  `100*0.29` is just below 29, so `int(100*0.29)` is 28. Scalebar's
  `x_pos + x_length/2`, `y_pos - y_buffer`, `x_pos - x_buffer` and
  `y_pos + y_length/2` are exact in the model too.
- Labels.LabelCoversOneCell: with doubles, some ordinary label positions
  inside the canvas give an empty slice, for example `xpos = 0.06` slices
  columns `6:6`. The claim that such a label selects exactly one cell holds
  for exact values only.
- Labels.AddLabel: for such a position the source raises `IndexError`,
  where the exact model places the label on one cell.
- Labels.AddLabels: likewise, the source stops at such a label, where the
  exact model places it and goes on.
- matplotlib's `GridSpec` and `GridSpecFromSubplotSpec` are not part of this
  model. The `IndexError` on a slice that selects no cell is the behaviour
  of current matplotlib's `GridSpec`, modelled as a failure before anything
  is created. How the inner grid rejects `dim` entries below 1 is not
  modelled either, and `dim >= 1` is a precondition.
- Rendering. `axis('off')` is recorded as a flag. The `**kwargs` of
  `add_label` are recorded as name/value pairs handed to `text()` unread.
  `text()` rejecting an unknown keyword is not modelled.
- Labels.AddLabels: a label dictionary missing `label_text`, `xpos` or `ypos`
  raises `TypeError` in the source. The `Label` datatype makes those three
  entries mandatory, so that error path is not modelled.
- Scalebars.Scalebar: lines and texts are kept as two separate logs, so the
  order in which `plot` and `text` calls interleave on the axis is not
  recorded. The returned matplotlib artists are not modelled.
- The figure's other state (size, rendering, the gridspec it was created
  with). The figure is modelled only by its list of subplots.
- `examples/example_figures.py`, `setup.py`, `tests/test_figrid.py` and the
  `__version__` constant are not part of this model.
