/**
 * `add_label` and `add_labels` (figrid/__init__.py:81-111): a label is a
 * 1×1 grid placed on a span 0.01 wide along each axis, holding one text
 * element at its origin, with its axis turned off.
 */
module Labels {
  import opened Wrappers
  import opened Spans
  import opened Shapes
  import opened Figures
  import opened Figrid

  /** The width of the span a label is placed on, along each axis. */
  const LabelWidth: real := 0.01

  /** One entry of the `labels` list: `label_text`, `xpos`, `ypos` and the keywords handed on to `text()`. */
  datatype Label = Label(text: string, xpos: real, ypos: real, kwargs: seq<KwArg>)

  /** The call `add_label` makes: `place_axes_on_grid(fig, xspan=[xpos, xpos+0.01], yspan=[ypos, ypos+0.01])`. */
  function LabelPlacement(xpos: real, ypos: real): Placement {
    DefaultPlacement.(xspan := Span(xpos, xpos + LabelWidth), yspan := Span(ypos, ypos + LabelWidth))
  }

  /** The outer slice of the label at `(xpos, ypos)`. */
  function LabelRegion(xpos: real, ypos: real): Region {
    var p := LabelPlacement(xpos, ypos);
    OuterRegion(p.xspan, p.yspan)
  }

  /** Placing label `l` raises: its slice selects no cell. */
  predicate LabelFails(l: Label) {
    EmptyRegion(LabelRegion(l.xpos, l.ypos))
  }

  /**
   * A label placed inside the canvas, at `0 <= xpos, ypos < 1`, covers
   * exactly one outer cell along each axis: the cell its position falls in.
   */
  lemma LabelCoversOneCell(xpos: real, ypos: real)
    requires 0.0 <= xpos < 1.0 && 0.0 <= ypos < 1.0
    ensures var r := LabelRegion(xpos, ypos);
      && r.rowStop == r.rowStart + 1 && InCell(ypos, r.rowStart)
      && r.colStop == r.colStart + 1 && InCell(xpos, r.colStart)
      && !EmptyRegion(r)
  {
    OneCellPastStart(xpos);
    OneCellPastStart(ypos);
  }

  /** A label at the right or bottom edge, or beyond, slices past the grid and selects nothing. */
  lemma LabelAtEdgeIsEmpty(xpos: real, ypos: real)
    requires 1.0 <= xpos || 1.0 <= ypos
    ensures EmptyRegion(LabelRegion(xpos, ypos))
  {
    var r := LabelRegion(xpos, ypos);
    if 1.0 <= xpos {
      assert CellIndex(xpos) >= OuterCells;
      assert r.colStart == OuterCells;
    } else {
      assert CellIndex(ypos) >= OuterCells;
      assert r.rowStart == OuterCells;
    }
  }

  /** Moving a fraction of `[0, 1)` 0.01 further moves it exactly one cell on, still inside the grid. */
  lemma OneCellPastStart(f: real)
    requires 0.0 <= f < 1.0
    ensures CellIndex(f) < OuterCells
    ensures CellIndex(f + LabelWidth) == CellIndex(f) + 1
  {
    var n := CellIndex(f);
    assert OuterCells as real * (f + LabelWidth) == OuterCells as real * f + 1.0;
    assert n as real + 1.0 <= OuterCells as real * (f + LabelWidth) < n as real + 2.0;
  }

  /** The text element a label writes: the label text at the axes' origin, styled only by the passed keywords. */
  function LabelText(text: string, kwargs: seq<KwArg>): Text {
    Text(0.0, 0.0, Some(text), Passthrough(kwargs))
  }

  /**
   * Subplot `a` is the label `l`: the single cell of its 1×1 placement,
   * sharing nothing, with no line, exactly its one text element and its
   * axis turned off.
   */
  ghost predicate LabelDrawn(a: Axes, l: Label)
    reads a
  {
    && Placed(a, 0, 0, LabelPlacement(l.xpos, l.ypos), None, None)
    && a.lines == [] && a.texts == [LabelText(l.text, l.kwargs)] && !a.axisOn
  }

  /**
   * `add_label(fig, label_text, xpos, ypos, **kwargs)`: when the label's
   * slice selects no cell, the placement raises `IndexError` and the figure
   * is unchanged; otherwise the figure gains exactly one new subplot, which
   * draws the label.
   */
  method AddLabel(fig: Figure, l: Label) returns (err: Option<PlaceError>)
    modifies fig
    ensures err.Some? <==> LabelFails(l)
    ensures err.Some? ==> err == Some(IndexError) && fig.axes == old(fig.axes)
    ensures err.None? ==>
      && |fig.axes| == |old(fig.axes)| + 1
      && fig.axes == old(fig.axes) + [fig.axes[|old(fig.axes)|]]
      && fresh(fig.axes[|old(fig.axes)|])
      && LabelDrawn(fig.axes[|old(fig.axes)|], l)
  {
    var p := LabelPlacement(l.xpos, l.ypos);
    var placed := PlaceAxesOnGrid(fig, p);
    if placed.Failure? {
      return Some(placed.error);
    }
    ghost var G := Rows(fig.axes[|old(fig.axes)|..], 1, 1);
    assert CellPlaced(G, 0, 0, p);
    RowsAt(fig.axes[|old(fig.axes)|..], 1, 1, 0, 0);
    // A 1×1 grid squeezes to the handle itself.
    var a := placed.value.only;
    assert fig.axes == old(fig.axes) + [a];
    a.texts := a.texts + [LabelText(l.text, l.kwargs)];
    a.axisOn := false;
    err := None;
  }

  /** How many labels of `labels` are placed before the first one whose slice is empty. */
  function FirstFailing(labels: seq<Label>): (n: nat)
    ensures n <= |labels|
    ensures forall k :: 0 <= k < n ==> !LabelFails(labels[k])
    ensures n < |labels| ==> LabelFails(labels[n])
  {
    if labels == [] || LabelFails(labels[0]) then 0 else 1 + FirstFailing(labels[1..])
  }

  /** The subplots `made` are distinct, and subplot `k` of them draws label `k`. */
  ghost predicate LabelsDrawn(made: seq<Axes>, labels: seq<Label>)
    reads made
  {
    && |made| <= |labels|
    && (forall m :: 0 <= m < |made| ==> LabelDrawn(made[m], labels[m]))
    && (forall m, m' :: 0 <= m < m' < |made| ==> made[m] != made[m'])
  }

  /** One more distinct subplot drawing the next label extends the drawn labels. */
  lemma LabelsDrawnSnoc(made: seq<Axes>, a: Axes, labels: seq<Label>)
    requires LabelsDrawn(made, labels) && |made| < |labels|
    requires LabelDrawn(a, labels[|made|]) && a !in made
    ensures LabelsDrawn(made + [a], labels)
  {
    var made' := made + [a];
    forall m | 0 <= m < |made'| ensures LabelDrawn(made'[m], labels[m]) {
      if m < |made| {
        assert made'[m] == made[m];
      }
    }
  }

  /**
   * One pass of the loop of `add_labels`: label `k` is added after the
   * subplots `made` of the labels before it, or it raises and the figure is
   * unchanged.
   */
  method AddNextLabel(fig: Figure, labels: seq<Label>, k: nat, ghost made: seq<Axes>)
    returns (err: Option<PlaceError>, ghost made': seq<Axes>)
    requires k < |labels| && k <= FirstFailing(labels)
    requires |made| == k && LabelsDrawn(made, labels)
    modifies fig
    ensures err.Some? ==> err == Some(IndexError) && FirstFailing(labels) == k && fig.axes == old(fig.axes) && made' == made
    ensures err.None? ==>
      && k + 1 <= FirstFailing(labels)
      && |fig.axes| == |old(fig.axes)| + 1
      && fig.axes == old(fig.axes) + [fig.axes[|old(fig.axes)|]]
      && fresh(fig.axes[|old(fig.axes)|])
      && made' == made + [fig.axes[|old(fig.axes)|]]
    ensures LabelsDrawn(made', labels)
  {
    err := AddLabel(fig, labels[k]);
    made' := made;
    if err.None? {
      var a := fig.axes[|old(fig.axes)|];
      LabelsDrawnSnoc(made, a, labels);
      made' := made + [a];
    }
  }

  /**
   * `add_labels(fig, labels)`: one `add_label` per entry, in order, until
   * one raises. The figure gains exactly one new, distinct subplot per label
   * before the first whose slice is empty, subplot `k` of them draws label
   * `k`, and the call raises `IndexError` exactly when such a label exists.
   */
  method AddLabels(fig: Figure, labels: seq<Label>) returns (err: Option<PlaceError>)
    modifies fig
    ensures err.Some? <==> FirstFailing(labels) < |labels|
    ensures err.Some? ==> err == Some(IndexError)
    ensures |fig.axes| == |old(fig.axes)| + FirstFailing(labels)
    ensures fig.axes[..|old(fig.axes)|] == old(fig.axes)
    ensures forall k :: |old(fig.axes)| <= k < |fig.axes| ==> fresh(fig.axes[k])
    ensures LabelsDrawn(fig.axes[|old(fig.axes)|..], labels)
  {
    ghost var made: seq<Axes> := [];  // the subplots added so far, one per label
    err := None;
    var k := 0;
    while k < |labels| && err.None?
      invariant k <= FirstFailing(labels)
      invariant err.Some? ==> err == Some(IndexError) && k == FirstFailing(labels) < |labels|
      invariant |made| == k
      invariant fig.axes == old(fig.axes) + made
      invariant forall m :: 0 <= m < k ==> fresh(made[m])
      invariant LabelsDrawn(made, labels)
      decreases |labels| - k, if err.None? then 1 else 0
    {
      ghost var before := made;
      err, made := AddNextLabel(fig, labels, k, made);
      if err.None? {
        forall m | 0 <= m <= k ensures fresh(made[m]) {
          if m < k {
            assert made[m] == before[m];
          }
        }
        k := k + 1;
      }
    }
    assert fig.axes[|old(fig.axes)|..] == made;
  }
}
