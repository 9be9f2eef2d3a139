/** The part of pandas that the normaliser relies on, on values: data frames
    whose cells may be missing, concatenation of integer-labelled tables,
    `dropna(how="all")`, assignment of column labels, boolean-mask row
    selection, assignment of a constant column and selection of columns by
    label. A step that pandas reports by raising an exception returns a
    `Failure`. */
module Frames {
  import opened Sequences

  datatype Option<T> = None | Some(value: T)

  /** A cell: `None` is pandas' missing value (NaN). */
  type Cell = Option<string>
  type Row = seq<Cell>

  /** A table with the integer column labels 0 .. width-1, as the table
      detector returns it and as `pd.concat(..., ignore_index=True)` builds
      it from such tables. */
  datatype GridData = GridData(width: nat, rows: seq<Row>)
  type Grid = g: GridData | forall i :: 0 <= i < |g.rows| ==> |g.rows[i]| == g.width
    witness GridData(0, [])

  /** A data frame with string column labels; every row has one cell per label. */
  datatype FrameData = FrameData(columns: seq<string>, rows: seq<Row>)
  type Frame = f: FrameData | forall i :: 0 <= i < |f.rows| ==> |f.rows[i]| == |f.columns|
    witness FrameData([], [])

  /** The exceptions the steps below can raise. */
  datatype Error =
    | LengthMismatch(expected: nat, given: nat)  // relabelling with the wrong number of labels
    | KeyError(labels: seq<string>)              // selecting labels the frame does not have

  datatype Result<T> = Success(value: T) | Failure(error: Error) {
    predicate IsFailure() { Failure? }
    function PropagateFailure<U>(): Result<U> requires Failure? { Failure(error) }
    function Extract(): T requires Success? { value }
  }

  function FrameRows(f: Frame): seq<Row> { f.rows }

  /** `pd.DataFrame()`: no columns and no rows. */
  function EmptyFrame(): Frame { FrameData([], []) }

  /** `df.empty`: true when either axis has length zero. */
  predicate IsEmpty(f: Frame) { |f.columns| == 0 || |f.rows| == 0 }

  // ---------------------------------------------------------------------
  // Concatenation of detected tables

  /** Width of the concatenation: the union of the label ranges 0 .. w-1. */
  function MaxWidth(gs: seq<Grid>): (w: nat)
    ensures forall i :: 0 <= i < |gs| ==> gs[i].width <= w
    ensures |gs| > 0 ==> exists i :: 0 <= i < |gs| && gs[i].width == w
    ensures |gs| == 0 ==> w == 0
  {
    if |gs| == 0 then 0
    else
      var rest := MaxWidth(gs[1..]);
      if gs[0].width >= rest then gs[0].width else rest
  }

  /** A row widened to `w` cells; the labels it lacks are missing. */
  function Pad(row: Row, w: nat): (r: Row)
    ensures |row| <= w ==> |r| == w && r[..|row|] == row
    ensures forall j :: |row| <= j < |r| ==> r[j] == None
  {
    if |row| < w then row + seq(w - |row|, _ => None) else row
  }

  function PadRows(rows: seq<Row>, w: nat): (r: seq<Row>)
    ensures |r| == |rows|
    ensures forall i :: 0 <= i < |r| ==> r[i] == Pad(rows[i], w)
  {
    seq(|rows|, i requires 0 <= i < |rows| => Pad(rows[i], w))
  }

  /** The rows of the tables one table after another, each widened to `w`. */
  function StackRows(gs: seq<Grid>, w: nat): (rows: seq<Row>)
  {
    if |gs| == 0 then []
    else PadRows(gs[0].rows, w) + StackRows(gs[1..], w)
  }

  /** Stacking tables no wider than `w` gives rows of exactly `w` cells. */
  lemma {:induction false} StackRowsWidth(gs: seq<Grid>, w: nat)
    requires forall i :: 0 <= i < |gs| ==> gs[i].width <= w
    ensures forall i :: 0 <= i < |StackRows(gs, w)| ==> |StackRows(gs, w)[i]| == w
  {
    if |gs| > 0 {
      StackRowsWidth(gs[1..], w);
      var head := PadRows(gs[0].rows, w);
      assert forall i :: 0 <= i < |head| ==> |head[i]| == w;
    }
  }

  /** `pd.concat(tables, ignore_index=True)` for integer-labelled tables. */
  function Concat(gs: seq<Grid>): (g: Grid)
    ensures g.width == MaxWidth(gs)
    ensures g.rows == StackRows(gs, MaxWidth(gs))
  {
    var w := MaxWidth(gs);
    StackRowsWidth(gs, w);
    GridData(w, StackRows(gs, w))
  }

  /** Stacking the tables of `a + b` stacks those of `a`, then those of `b`. */
  lemma {:induction false} StackRowsAppend(a: seq<Grid>, b: seq<Grid>, w: nat)
    ensures StackRows(a + b, w) == StackRows(a, w) + StackRows(b, w)
  {
    if |a| > 0 {
      assert (a + b)[1..] == a[1..] + b;
      StackRowsAppend(a[1..], b, w);
    } else {
      assert a + b == b;
    }
  }

  function GridRows(g: Grid): seq<Row> { g.rows }

  /** Concatenation keeps every row: its row count is the sum of the tables' row counts. */
  lemma {:induction false} StackRowsCount(gs: seq<Grid>, w: nat)
    ensures |StackRows(gs, w)| == TotalLength(Map(gs, GridRows))
  {
    if |gs| > 0 {
      StackRowsCount(gs[1..], w);
      MapTail(gs, GridRows);
    }
  }

  /** The concatenation of one table is that table, padded to the common width. */
  lemma StackRowsSingle(g: Grid, w: nat)
    ensures StackRows([g], w) == PadRows(g.rows, w)
  {
    assert [g][1..] == [];
  }

  // ---------------------------------------------------------------------
  // Row and column operations

  /** A row with at least one cell that is not missing. */
  predicate HasValue(row: Row)
  {
    exists j :: 0 <= j < |row| && row[j].Some?
  }

  /** `df.dropna(how="all")`: drop the rows whose cells are all missing. */
  function DropAllMissing(g: Grid): (r: Grid)
    ensures r.width == g.width
    ensures r.rows == Filter(g.rows, HasValue)
  {
    var rows := Filter(g.rows, HasValue);
    assert forall i :: 0 <= i < |rows| ==> rows[i] in g.rows;
    GridData(g.width, rows)
  }

  /** `df.columns = labels`: pandas raises unless there is one label per column. */
  function SetColumns(g: Grid, labels: seq<string>): (r: Result<Frame>)
    ensures r.Success? <==> |labels| == g.width
    ensures r.Success? ==> r.value.columns == labels && r.value.rows == g.rows
    ensures r.Failure? ==> r.error == LengthMismatch(g.width, |labels|)
  {
    if |labels| != g.width then Failure(LengthMismatch(g.width, |labels|))
    else
      var f: Frame := FrameData(labels, g.rows);
      Success(f)
  }

  /** Position of the first column labelled `key`, or `|labels|` if there is none. */
  function IndexOf(labels: seq<string>, key: string): (k: nat)
    ensures k <= |labels|
    ensures k < |labels| ==> labels[k] == key
    ensures forall j :: 0 <= j < k ==> labels[j] != key
    ensures k == |labels| <==> key !in labels
  {
    if |labels| == 0 then 0
    else if labels[0] == key then 0
    else 1 + IndexOf(labels[1..], key)
  }

  /** The row passes `row[k] != value`; a missing cell never equals a string. */
  predicate DiffersAt(row: Row, k: nat, value: string)
  {
    k >= |row| || row[k] != Some(value)
  }

  /** `df[df[key] != value]`: keep the rows whose `key` cell differs from
      `value`. Selecting a key the frame lacks raises `KeyError`. */
  function DropWhereEquals(f: Frame, key: string, value: string): (r: Result<Frame>)
    ensures r.Success? <==> key in f.columns
    ensures r.Failure? ==> r.error == KeyError([key])
    ensures r.Success? ==> r.value.columns == f.columns
    ensures r.Success? ==> r.value.rows == Filter(f.rows, row => DiffersAt(row, IndexOf(f.columns, key), value))
  {
    var k := IndexOf(f.columns, key);
    if k == |f.columns| then Failure(KeyError([key]))
    else
      var rows := Filter(f.rows, row => DiffersAt(row, k, value));
      assert forall i :: 0 <= i < |rows| ==> rows[i] in f.rows;
      var kept: Frame := FrameData(f.columns, rows);
      Success(kept)
  }

  /** `df[key] = value`: every row gets `value` in column `key`, which is
      overwritten when it exists and appended as the last column otherwise. */
  function AssignConstant(f: Frame, key: string, value: string): (r: Frame)
    ensures |r.rows| == |f.rows|
    ensures key !in f.columns ==> r.columns == f.columns + [key]
    ensures key !in f.columns ==> forall i :: 0 <= i < |r.rows| ==> r.rows[i] == f.rows[i] + [Some(value)]
    ensures key in f.columns ==> r.columns == f.columns
    ensures key in f.columns ==> forall i, j :: 0 <= i < |r.rows| && 0 <= j < |f.columns| && j != IndexOf(f.columns, key) ==>
              r.rows[i][j] == f.rows[i][j]
    ensures forall i :: 0 <= i < |r.rows| ==> r.rows[i][IndexOf(r.columns, key)] == Some(value)
  {
    var k := IndexOf(f.columns, key);
    if k < |f.columns| then
      FrameData(f.columns, seq(|f.rows|, i requires 0 <= i < |f.rows| => f.rows[i][k := Some(value)]))
    else
      assert IndexOf(f.columns + [key], key) == |f.columns| by {
        IndexOfAppend(f.columns, key);
      }
      FrameData(f.columns + [key], seq(|f.rows|, i requires 0 <= i < |f.rows| => f.rows[i] + [Some(value)]))
  }

  lemma IndexOfAppend(labels: seq<string>, key: string)
    requires key !in labels
    ensures IndexOf(labels + [key], key) == |labels|
  {
    var k := IndexOf(labels + [key], key);
    assert (labels + [key])[|labels|] == key;
  }

  /** `df[labels]`: the columns named by `labels`, in that order. Pandas
      raises `KeyError` naming every label the frame lacks. */
  function Select(f: Frame, labels: seq<string>): (r: Result<Frame>)
    ensures r.Success? <==> forall j :: 0 <= j < |labels| ==> labels[j] in f.columns
    ensures r.Success? ==> r.value.columns == labels && |r.value.rows| == |f.rows|
    ensures r.Success? ==> forall i, j :: 0 <= i < |f.rows| && 0 <= j < |labels| ==>
                             r.value.rows[i][j] == f.rows[i][IndexOf(f.columns, labels[j])]
  {
    var missing := Filter(labels, l => l !in f.columns);
    if missing != [] then
      assert missing[0] in labels;
      Failure(KeyError(missing))
    else
      var selected: Frame := FrameData(labels, seq(|f.rows|, i requires 0 <= i < |f.rows| =>
        seq(|labels|, j requires 0 <= j < |labels| => f.rows[i][IndexOf(f.columns, labels[j])])));
      Success(selected)
  }
}
