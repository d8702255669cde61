/**
 * Row-major layout of a rows × cols grid and the squeeze that
 * `np.array(inner_ax).squeeze().tolist()` applies to it (figrid/__init__.py:77).
 */
module Shapes {

  /** What the squeezed list is: one handle, a flat list, or a list of rows. */
  datatype Shape<T> = Single(only: T) | Flat(items: seq<T>) | Grid(cells: seq<seq<T>>)

  /** `g` has `rows` rows, each of `cols` entries. */
  predicate IsMatrix<T>(g: seq<seq<T>>, rows: nat, cols: nat) {
    |g| == rows && forall i :: 0 <= i < rows ==> |g[i]| == cols
  }

  /** The flat index of cell `(i, j)` lies in `0 .. rows*cols-1`. */
  lemma RowMajorInRange(i: nat, j: nat, rows: nat, cols: nat)
    requires i < rows && j < cols
    ensures i * cols + j < rows * cols
  {
    assert (rows - (i + 1)) * cols >= 0;
    assert rows * cols == (i + 1) * cols + (rows - (i + 1)) * cols;
  }

  /** Two cells with the same flat index are the same cell. */
  lemma RowMajorInjective(i: int, j: int, i': int, j': int, cols: nat)
    requires 0 <= j < cols && 0 <= j' < cols
    requires i * cols + j == i' * cols + j'
    ensures i == i' && j == j'
  {
    var d := i - i';
    assert d * cols == j' - j by {
      assert i * cols == i' * cols + d * cols;
    }
  }

  /** The flat index of `(i, j)` decodes back to `(i, j)` by division and remainder. */
  lemma RowMajorDecode(i: nat, j: nat, cols: nat)
    requires j < cols
    ensures (i * cols + j) / cols == i && (i * cols + j) % cols == j
  {
    var k := i * cols + j;
    assert 0 <= k % cols < cols && k == (k / cols) * cols + k % cols;
    RowMajorInjective(i, j, k / cols, k % cols, cols);
  }

  /** Every flat index below rows*cols is the index of some cell. */
  lemma RowMajorCovers(k: nat, rows: nat, cols: nat)
    requires k < rows * cols
    ensures cols > 0
    ensures k / cols < rows && (k / cols) * cols + k % cols == k
  {
  }

  /** Cuts `s` into `rows` consecutive rows of `cols` entries. */
  function Rows<T>(s: seq<T>, rows: nat, cols: nat): (g: seq<seq<T>>)
    requires |s| == rows * cols
    ensures IsMatrix(g, rows, cols)
    decreases rows
  {
    if rows == 0 then []
    else
      assert rows * cols == (rows - 1) * cols + cols;
      [s[..cols]] + Rows(s[cols..], rows - 1, cols)
  }

  /** Row-major concatenation of the rows of `g`. */
  function Flatten<T>(g: seq<seq<T>>): seq<T> {
    if g == [] then [] else g[0] + Flatten(g[1..])
  }

  /** Flattening after appending a row appends that row's entries. */
  lemma {:induction false} FlattenSnoc<T>(g: seq<seq<T>>, row: seq<T>)
    ensures Flatten(g + [row]) == Flatten(g) + row
  {
    if g != [] {
      assert (g + [row])[1..] == g[1..] + [row];
      FlattenSnoc(g[1..], row);
    }
  }

  /** Cell `(i, j)` of `Rows(s, rows, cols)` is entry `i*cols + j` of `s`. */
  lemma {:induction false} RowsAt<T>(s: seq<T>, rows: nat, cols: nat, i: nat, j: nat)
    requires |s| == rows * cols && i < rows && j < cols
    ensures i * cols + j < |s| && Rows(s, rows, cols)[i][j] == s[i * cols + j]
  {
    MulSucc(rows - 1, cols);
    if i > 0 {
      var rest := s[cols..];
      RowsAt(rest, rows - 1, cols, i - 1, j);
      MulSucc(i - 1, cols);
      assert rest[(i - 1) * cols + j] == s[i * cols + j];
    }
  }

  /** One more row of `c` entries adds `c` to the count. */
  lemma MulSucc(a: nat, c: nat)
    ensures (a + 1) * c == a * c + c
  {
  }

  /** Flattening the rows gives back the sequence: registration order is row-major order. */
  lemma {:induction false} FlattenRows<T>(s: seq<T>, rows: nat, cols: nat)
    requires |s| == rows * cols
    ensures Flatten(Rows(s, rows, cols)) == s
  {
    if rows > 0 {
      assert rows * cols == (rows - 1) * cols + cols;
      var g := Rows(s, rows, cols);
      assert g[1..] == Rows(s[cols..], rows - 1, cols);
      FlattenRows(s[cols..], rows - 1, cols);
      assert s[..cols] + s[cols..] == s;
    }
  }

  /** A matrix has rows*cols entries once flattened. */
  lemma {:induction false} FlattenLength<T>(g: seq<seq<T>>, rows: nat, cols: nat)
    requires IsMatrix(g, rows, cols)
    ensures |Flatten(g)| == rows * cols
  {
    if rows > 0 {
      FlattenLength(g[1..], rows - 1, cols);
      assert rows * cols == (rows - 1) * cols + cols;
    }
  }

  /** Cutting a flattened matrix into rows gives the matrix back. */
  lemma {:induction false} RowsFlatten<T>(g: seq<seq<T>>, rows: nat, cols: nat)
    requires IsMatrix(g, rows, cols)
    ensures |Flatten(g)| == rows * cols && Rows(Flatten(g), rows, cols) == g
  {
    FlattenLength(g, rows, cols);
    if rows > 0 {
      FlattenLength(g[1..], rows - 1, cols);
      RowsFlatten(g[1..], rows - 1, cols);
      var s := Flatten(g);
      assert s[..cols] == g[0];
      assert s[cols..] == Flatten(g[1..]);
      assert g == [g[0]] + g[1..];
    }
  }

  /**
   * numpy's squeeze followed by `tolist()`: every dimension of length one is
   * dropped, so 1×1 gives the single handle, r×1 and 1×c a flat list and
   * anything larger a list of rows.
   */
  function Squeeze<T>(g: seq<seq<T>>): (r: Shape<T>)
    requires |g| > 0 && |g[0]| > 0 && IsMatrix(g, |g|, |g[0]|)
    ensures r.Single? <==> |g| == 1 && |g[0]| == 1
    ensures r.Flat? <==> (|g| == 1) != (|g[0]| == 1)
    ensures r.Grid? <==> |g| > 1 && |g[0]| > 1
    ensures r.Single? ==> r.only == g[0][0]
    ensures r.Flat? && |g| == 1 ==> r.items == g[0]
    ensures r.Flat? && |g| > 1 ==> |r.items| == |g| && forall i :: 0 <= i < |g| ==> r.items[i] == g[i][0]
    ensures r.Grid? ==> r.cells == g
  {
    if |g| == 1 && |g[0]| == 1 then Single(g[0][0])
    else if |g[0]| == 1 then Flat(seq(|g|, i requires 0 <= i < |g| => g[i][0]))
    else if |g| == 1 then Flat(g[0])
    else Grid(g)
  }

  /** Restores the rows × cols grid that a squeezed value came from. */
  function Unsqueeze<T>(r: Shape<T>, rows: nat): seq<seq<T>> {
    match r
    case Single(x) => [[x]]
    case Flat(v) => if rows == 1 then [v] else seq(|v|, i requires 0 <= i < |v| => [v[i]])
    case Grid(g) => g
  }

  /** Squeezing loses nothing: the grid can be rebuilt from the squeezed value and its row count. */
  lemma SqueezeRoundTrip<T>(g: seq<seq<T>>)
    requires |g| > 0 && |g[0]| > 0 && IsMatrix(g, |g|, |g[0]|)
    ensures Unsqueeze(Squeeze(g), |g|) == g
  {
    var r := Squeeze(g);
    if r.Single? {
      assert g[0] == [g[0][0]];
      assert g == [g[0]];
    } else if r.Flat? && |g| > 1 {
      var u := Unsqueeze(r, |g|);
      assert |u| == |g|;
      forall i | 0 <= i < |g| ensures u[i] == g[i] {
        assert |g[i]| == 1;
      }
    } else if r.Flat? {
      assert g == [g[0]];
    }
  }
}
