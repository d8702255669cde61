/**
 * The plotting library's objects as figrid uses them: a figure that keeps
 * the list of subplots added to it, and subplot axes that remember where
 * they sit, whom they share an axis with, their tick settings and what has
 * been drawn on them.
 */
module Figures {
  import opened Wrappers
  import opened Spans

  /**
   * Cell `index` (counted row-major) of a rows × cols grid laid over the
   * outer cells `outer`, with the grid's spacing passed through unchanged.
   */
  datatype SubplotSpec = SubplotSpec(
    outer: Region, rows: nat, cols: nat, index: nat,
    wspace: Option<real>, hspace: Option<real>)
  {
    /** The grid row of the cell, as the library reads it off the flat index. */
    function Row(): nat
      requires cols > 0
    {
      index / cols
    }

    /** The grid column of the cell. */
    function Col(): nat
      requires cols > 0
    {
      index % cols
    }
  }

  /** `set_ticks_position`: left at the library default, or moved to one side. */
  datatype TickPosition = DefaultPosition | Bottom | Left

  datatype HorizontalAlignment = Center | Right
  datatype VerticalAlignment = Top | Middle

  /** One keyword argument handed on to `text()` unread, with its value written out. */
  datatype KwArg = KwArg(name: string, value: string)

  /**
   * Styling given to a text element: the options figrid sets itself, or
   * `**kwargs` that figrid passes through to `text()` without reading them.
   */
  datatype TextStyle =
    | Styled(color: string, fontSize: real, ha: HorizontalAlignment, va: VerticalAlignment)
    | Passthrough(kwargs: seq<KwArg>)

  /** A straight segment from `(x0, y0)` to `(x1, y1)` drawn by `plot`. */
  datatype Line = Line(x0: real, y0: real, x1: real, y1: real, color: string, width: real)

  /** A text element placed by `text`; the content may be `None`. */
  datatype Text = Text(x: real, y: real, content: Option<string>, style: TextStyle)

  /** A subplot. */
  class Axes {
    const spec: SubplotSpec
    const shareX: Option<Axes>
    const shareY: Option<Axes>
    const frameon: bool
    var xTicks: TickPosition
    var yTicks: TickPosition
    var xTickLabelsVisible: bool
    var yTickLabelsVisible: bool
    var lines: seq<Line>
    var texts: seq<Text>
    var axisOn: bool

    /** `plt.Subplot(fig, spec, sharex=..., sharey=..., frameon=...)`: a new, empty subplot. */
    constructor (spec: SubplotSpec, shareX: Option<Axes>, shareY: Option<Axes>, frameon: bool)
      ensures this.spec == spec && this.shareX == shareX && this.shareY == shareY
      ensures this.frameon == frameon
      ensures Pristine()
    {
      this.spec := spec;
      this.shareX := shareX;
      this.shareY := shareY;
      this.frameon := frameon;
      xTicks := DefaultPosition;
      yTicks := DefaultPosition;
      xTickLabelsVisible := true;
      yTickLabelsVisible := true;
      lines := [];
      texts := [];
      axisOn := true;
    }

    /** Library defaults for the ticks, nothing drawn, axis shown. */
    ghost predicate Pristine()
      reads this
    {
      && xTicks == DefaultPosition && yTicks == DefaultPosition
      && xTickLabelsVisible && yTickLabelsVisible
      && lines == [] && texts == [] && axisOn
    }
  }

  /** A figure: the subplots added to it, in the order they were added. */
  class Figure {
    var axes: seq<Axes>
  }
}
