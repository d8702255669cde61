/**
 * `scalebar` (figrid/__init__.py:114-155): a horizontal and/or a vertical
 * ruler drawn from an anchor point onto an existing subplot, each with a
 * text element naming its length.
 */
module Scalebars {
  import opened Wrappers
  import opened Figures

  /** The arguments of `scalebar` after `axis`. */
  datatype ScalebarArgs = ScalebarArgs(
    xPos: real, yPos: real,
    xLength: Option<real>, yLength: Option<real>,
    xText: Option<string>, yText: Option<string>,
    xBuffer: real, yBuffer: real,
    scalebarColor: string, textColor: string,
    fontSize: real, linewidth: real)

  /** `scalebar(axis, x_pos, y_pos, x_length, y_length)` with every other keyword at its default. */
  function DefaultScalebar(xPos: real, yPos: real, xLength: Option<real>, yLength: Option<real>): ScalebarArgs {
    ScalebarArgs(xPos, yPos, xLength, yLength, None, None, 0.25, 0.25, "black", "black", 10.0, 3.0)
  }

  /** How many of the two lengths are given: the number of bars drawn. */
  function BarCount(b: ScalebarArgs): nat {
    (if b.xLength.Some? then 1 else 0) + (if b.yLength.Some? then 1 else 0)
  }

  /** The horizontal bar for `x_length` and its text. */
  function XBar(b: ScalebarArgs, len: real): Line {
    Line(b.xPos, b.yPos, b.xPos + len, b.yPos, b.scalebarColor, b.linewidth)
  }

  function XBarText(b: ScalebarArgs, len: real): Text {
    Text(b.xPos + len / 2.0, b.yPos - b.yBuffer, b.xText, Styled(b.textColor, b.fontSize, Center, Top))
  }

  /** The vertical bar for `y_length` and its text. */
  function YBar(b: ScalebarArgs, len: real): Line {
    Line(b.xPos, b.yPos, b.xPos, b.yPos + len, b.scalebarColor, b.linewidth)
  }

  function YBarText(b: ScalebarArgs, len: real): Text {
    Text(b.xPos - b.xBuffer, b.yPos + len / 2.0, b.yText, Styled(b.textColor, b.fontSize, Right, Middle))
  }

  /**
   * The lines `scalebar` plots, in order: the horizontal bar, which runs
   * from the anchor to the right by `x_length`, then the vertical bar, which
   * runs from the anchor up by `y_length`; both in the bar colour and width.
   */
  function BarLines(b: ScalebarArgs): (r: seq<Line>)
    ensures |r| == BarCount(b)
    ensures b.xLength.Some? ==>
      && r[0].x0 == b.xPos && r[0].y0 == b.yPos
      && r[0].y1 == r[0].y0 && r[0].x1 - r[0].x0 == b.xLength.value
    ensures b.yLength.Some? ==>
      && r[|r| - 1].x0 == b.xPos && r[|r| - 1].y0 == b.yPos
      && r[|r| - 1].x1 == r[|r| - 1].x0 && r[|r| - 1].y1 - r[|r| - 1].y0 == b.yLength.value
    ensures forall k :: 0 <= k < |r| ==> r[k].color == b.scalebarColor && r[k].width == b.linewidth
  {
    (match b.xLength
     case Some(len) => [XBar(b, len)]
     case None => [])
    +
    (match b.yLength
     case Some(len) => [YBar(b, len)]
     case None => [])
  }

  /**
   * The texts `scalebar` writes, in order: `x_text` centred below the
   * horizontal bar, top-aligned; then `y_text` right-aligned to the left of
   * the vertical bar, vertically centred; both in the text colour and size.
   */
  function BarTexts(b: ScalebarArgs): (r: seq<Text>)
    ensures |r| == BarCount(b)
    ensures b.xLength.Some? ==> r[0].content == b.xText && r[0].style == Styled(b.textColor, b.fontSize, Center, Top)
    ensures b.yLength.Some? ==> r[|r| - 1].content == b.yText && r[|r| - 1].style == Styled(b.textColor, b.fontSize, Right, Middle)
  {
    (match b.xLength
     case Some(len) => [XBarText(b, len)]
     case None => [])
    +
    (match b.yLength
     case Some(len) => [YBarText(b, len)]
     case None => [])
  }

  /**
   * Each text sits beside its own bar: the horizontal bar's text lies
   * `y_buffer` below the bar at its midpoint, the vertical bar's text lies
   * `x_buffer` to the left of the bar at its midpoint.
   */
  lemma TextsBesideBars(b: ScalebarArgs)
    ensures var lines, texts := BarLines(b), BarTexts(b);
      && |lines| == |texts|
      && (b.xLength.Some? ==>
            texts[0].x == (lines[0].x0 + lines[0].x1) / 2.0 && texts[0].y == lines[0].y0 - b.yBuffer)
      && (b.yLength.Some? ==>
            var k := |lines| - 1;
            texts[k].x == lines[k].x0 - b.xBuffer && texts[k].y == (lines[k].y0 + lines[k].y1) / 2.0)
  {
  }

  /**
   * `scalebar(axis, ...)`: the subplot gains exactly the bars and texts
   * above, after what was already drawn on it; nothing else of it changes,
   * and with neither length given nothing is drawn.
   */
  method Scalebar(axis: Axes, b: ScalebarArgs)
    modifies axis`lines, axis`texts
    ensures axis.lines == old(axis.lines) + BarLines(b)
    ensures axis.texts == old(axis.texts) + BarTexts(b)
  {
    if b.xLength.Some? {
      var len := b.xLength.value;
      axis.lines := axis.lines + [XBar(b, len)];
      axis.texts := axis.texts + [XBarText(b, len)];
    }
    if b.yLength.Some? {
      var len := b.yLength.value;
      axis.lines := axis.lines + [YBar(b, len)];
      axis.texts := axis.texts + [YBarText(b, len)];
    }
  }

  /** A horizontal-only scale bar adds one line and one text; both bars add two of each. */
  lemma ScalebarCounts(xPos: real, yPos: real, xLength: real, yLength: real)
    ensures |BarLines(DefaultScalebar(xPos, yPos, Some(xLength), None))| == 1
    ensures |BarTexts(DefaultScalebar(xPos, yPos, Some(xLength), None))| == 1
    ensures |BarLines(DefaultScalebar(xPos, yPos, Some(xLength), Some(yLength)))| == 2
    ensures |BarTexts(DefaultScalebar(xPos, yPos, Some(xLength), Some(yLength)))| == 2
    ensures BarLines(DefaultScalebar(xPos, yPos, None, None)) == []
    ensures BarTexts(DefaultScalebar(xPos, yPos, None, None)) == []
  {
  }
}
