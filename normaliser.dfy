/** The table extractor and normaliser: the tables detected in one PDF are
    stacked, cleaned of blank and repeated-header rows, given the fixed
    nine-column schema and tagged with the file they came from. The table
    detector itself is not modelled: its outcome for the file is an input. */
module Normaliser {
  import opened Sequences
  import opened Frames
  import opened Paths

  /** The labels given to the combined table, in order. */
  const Schema: seq<string> := ["City", "Full Amount", "Max Amount (w/utilities)",
                                "Max Amount (only rent)", "No (manual)", "Fixed Amount",
                                "Not Yet", "Total", "Percentage"]

  /** The provenance column. */
  const SourceFile: string := "Source_File"

  /** A row whose City cell holds this value is dropped as a repeated header. */
  const HeaderValue: string := "Full Amount"

  /** The columns of every non-empty normalised table. */
  const OutputColumns: seq<string> := [SourceFile] + Schema

  /** What the table detector reports for one file: the tables it found, in
      detection order, or the exception it raised. */
  datatype Detection = Detected(tables: seq<Grid>) | ReadFailed(reason: string)

  /** The chain of table steps applied to at least one detected table; the
      first step that raises ends the chain with its error. */
  function Normalise(pdfFile: string, tables: seq<Grid>): Result<Frame>
  {
    var combined := Concat(tables);
    var filled := DropAllMissing(combined);
    var labelled :- SetColumns(filled, Schema);
    var deduped :- DropWhereEquals(labelled, "City", HeaderValue);
    var tagged := AssignConstant(deduped, SourceFile, Basename(pdfFile));
    var order := [SourceFile] + Filter(tagged.columns, NotSourceFile);
    Select(tagged, order)
  }

  predicate NotSourceFile(column: string)
  {
    column != SourceFile
  }

  /** The normaliser: no tables, or any exception, gives the empty frame. */
  function PdfToDataFrame(pdfFile: string, detection: Detection): (df: Frame)
    ensures detection.ReadFailed? ==> df == EmptyFrame()
    ensures detection == Detected([]) ==> df == EmptyFrame()
  {
    match detection
    case ReadFailed(_) => EmptyFrame()
    case Detected(tables) =>
      if |tables| == 0 then EmptyFrame()
      else
        match Normalise(pdfFile, tables)
        case Success(df) => df
        case Failure(_) => EmptyFrame()
  }

  // ---------------------------------------------------------------------
  // The same result, stated directly on the detected tables

  /** The City cell (the first one) is not the header marker. */
  predicate NotHeader(row: Row)
  {
    DiffersAt(row, 0, HeaderValue)
  }

  predicate Clean(row: Row)
  {
    HasValue(row) && NotHeader(row)
  }

  /** The stacked rows that are neither blank nor a repeated header. */
  function CleanRows(tables: seq<Grid>): (rows: seq<Row>)
    ensures forall i :: 0 <= i < |rows| ==> |rows[i]| == MaxWidth(tables)
  {
    var stacked := StackRows(tables, MaxWidth(tables));
    StackRowsWidth(tables, MaxWidth(tables));
    var rows := Filter(stacked, Clean);
    assert forall i :: 0 <= i < |rows| ==> rows[i] in stacked;
    rows
  }

  /** Each row prefixed with the source file name. */
  function Tag(name: string, rows: seq<Row>): (tagged: seq<Row>)
    ensures |tagged| == |rows|
    ensures forall i :: 0 <= i < |rows| ==> tagged[i] == [Some(name)] + rows[i]
  {
    seq(|rows|, i requires 0 <= i < |rows| => [Some(name)] + rows[i])
  }

  /** The normalised table of a file whose detected tables are nine columns wide. */
  function Expected(pdfFile: string, detection: Detection): (df: Frame)
  {
    if detection.Detected? && |detection.tables| > 0 && MaxWidth(detection.tables) == |Schema| then
      var rows := Tag(Basename(pdfFile), CleanRows(detection.tables));
      FrameData(OutputColumns, rows)
    else EmptyFrame()
  }

  predicate Distinct(labels: seq<string>)
  {
    forall i, j :: 0 <= i < j < |labels| ==> labels[i] != labels[j]
  }

  lemma IndexOfDistinct(labels: seq<string>, j: nat)
    requires Distinct(labels) && j < |labels|
    ensures IndexOf(labels, labels[j]) == j
  {
  }

  // The lemmas below are stated for any list of distinct labels that lacks
  // the provenance column, so that the solver does not unfold the constants.

  /** Appending the provenance column and moving it to the front puts it
      before the other labels, in their order. */
  lemma ReorderedColumns(labels: seq<string>)
    requires SourceFile !in labels
    ensures [SourceFile] + Filter(labels + [SourceFile], NotSourceFile) == [SourceFile] + labels
  {
    FilterConcat(labels, [SourceFile], NotSourceFile);
    FilterKeepsAll(labels, NotSourceFile);
    assert Filter([SourceFile], NotSourceFile) == [];
  }

  lemma SchemaLabels()
    ensures SourceFile !in Schema
    ensures Distinct(Schema + [SourceFile])
  {
  }

  /** Selecting the provenance column and then the others from the tagged frame
      moves the provenance cell, the last one, to the front of every row. */
  lemma {:induction false} SelectProvenanceFirst(tagged: Frame, labels: seq<string>)
    requires Distinct(labels + [SourceFile])
    requires tagged.columns == labels + [SourceFile]
    ensures Select(tagged, [SourceFile] + labels).Success?
    ensures forall i :: 0 <= i < |tagged.rows| ==>
              Select(tagged, [SourceFile] + labels).value.rows[i] == [tagged.rows[i][|labels|]] + tagged.rows[i][..|labels|]
  {
    var order := [SourceFile] + labels;
    assert forall j :: 0 <= j < |order| ==> order[j] in tagged.columns;
    var selected := Select(tagged, order);
    IndexOfDistinct(tagged.columns, |labels|);
    forall j | 1 <= j < |order|
      ensures IndexOf(tagged.columns, order[j]) == j - 1
    {
      assert order[j] == tagged.columns[j - 1];
      IndexOfDistinct(tagged.columns, j - 1);
    }
    forall i | 0 <= i < |tagged.rows|
      ensures selected.value.rows[i] == [tagged.rows[i][|labels|]] + tagged.rows[i][..|labels|]
    {
      var row := tagged.rows[i];
      assert forall j :: 0 <= j < |order| ==>
               selected.value.rows[i][j] == row[IndexOf(tagged.columns, order[j])];
    }
  }

  /** Tagging a relabelled frame and reordering its columns gives the
      provenance column first, each row being the source file name followed
      by its own cells. */
  lemma {:induction false} TagAndReorder(deduped: Frame, name: string)
    requires Distinct(deduped.columns + [SourceFile])
    ensures
      var tagged := AssignConstant(deduped, SourceFile, name);
      var order := [SourceFile] + Filter(tagged.columns, NotSourceFile);
      Select(tagged, order).Success? &&
      Select(tagged, order).value == FrameData([SourceFile] + deduped.columns, Tag(name, deduped.rows))
  {
    var labels := deduped.columns;
    assert SourceFile !in labels by {
      assert (labels + [SourceFile])[|labels|] == SourceFile;
      assert forall j :: 0 <= j < |labels| ==> labels[j] == (labels + [SourceFile])[j];
    }
    var tagged := AssignConstant(deduped, SourceFile, name);
    ReorderedColumns(labels);
    SelectProvenanceFirst(tagged, labels);
    forall i | 0 <= i < |deduped.rows|
      ensures [tagged.rows[i][|labels|]] + tagged.rows[i][..|labels|] == [Some(name)] + deduped.rows[i]
    {
      assert tagged.rows[i] == deduped.rows[i] + [Some(name)];
      assert tagged.rows[i][..|labels|] == deduped.rows[i];
    }
  }

  /** On nine-column tables, dropping blank rows, relabelling and dropping
      header rows succeed and leave the clean rows under the schema. */
  lemma {:induction false} CleaningSteps(tables: seq<Grid>)
    requires MaxWidth(tables) == |Schema|
    ensures
      var labelled := SetColumns(DropAllMissing(Concat(tables)), Schema);
      && labelled.Success?
      && DropWhereEquals(labelled.value, "City", HeaderValue).Success?
      && DropWhereEquals(labelled.value, "City", HeaderValue).value == FrameData(Schema, CleanRows(tables))
  {
    var labelled := SetColumns(DropAllMissing(Concat(tables)), Schema).value;
    assert IndexOf(Schema, "City") == 0;
    FilterAgree(labelled.rows, row => DiffersAt(row, IndexOf(labelled.columns, "City"), HeaderValue), NotHeader);
    FilterFilter(StackRows(tables, MaxWidth(tables)), HasValue, NotHeader, Clean);
  }

  /** On nine-column tables the chain of table steps succeeds with the clean
      rows tagged with the file's base name under the output columns. */
  lemma {:induction false} NormaliseNineColumns(pdfFile: string, tables: seq<Grid>)
    requires MaxWidth(tables) == |Schema|
    ensures Normalise(pdfFile, tables).Success?
    ensures Normalise(pdfFile, tables).value == FrameData(OutputColumns, Tag(Basename(pdfFile), CleanRows(tables)))
  {
    CleaningSteps(tables);
    var labelled := SetColumns(DropAllMissing(Concat(tables)), Schema).value;
    var deduped := DropWhereEquals(labelled, "City", HeaderValue).value;
    SchemaLabels();
    TagAndReorder(deduped, Basename(pdfFile));
  }

  /** On tables of another width the relabelling raises. */
  lemma {:induction false} NormaliseOtherWidth(pdfFile: string, tables: seq<Grid>)
    requires MaxWidth(tables) != |Schema|
    ensures Normalise(pdfFile, tables) == Failure(LengthMismatch(MaxWidth(tables), |Schema|))
  {
  }

  /** The normaliser computes `Expected`: the chain of table steps fails exactly
      when the stacked tables are not nine columns wide, and otherwise yields the
      clean rows tagged with the file's base name under the output columns. */
  lemma {:induction false} PdfToDataFrameIsExpected(pdfFile: string, detection: Detection)
    ensures PdfToDataFrame(pdfFile, detection) == Expected(pdfFile, detection)
  {
    if detection.Detected? && |detection.tables| > 0 {
      if MaxWidth(detection.tables) == |Schema| {
        NormaliseNineColumns(pdfFile, detection.tables);
      } else {
        NormaliseOtherWidth(pdfFile, detection.tables);
      }
    }
  }

  // ---------------------------------------------------------------------
  // Properties of the normalised table

  /** The clean rows are the stacked rows with the blank and header rows
      deleted: they keep their cells and their order, each of them passes
      both filters, and no row that passes both is lost. */
  lemma CleanRowsFilterOnly(tables: seq<Grid>)
    ensures
      var stacked, clean := StackRows(tables, MaxWidth(tables)), CleanRows(tables);
      && IsSubsequence(clean, stacked)
      && (forall i :: 0 <= i < |clean| ==> Clean(clean[i]))
      && multiset(clean) <= multiset(stacked)
      && (forall i :: 0 <= i < |stacked| && Clean(stacked[i]) ==> multiset(clean)[stacked[i]] == multiset(stacked)[stacked[i]])
  {
    FilterIsSubsequence(StackRows(tables, MaxWidth(tables)), Clean);
    FilterMultiset(StackRows(tables, MaxWidth(tables)), Clean);
  }

  /** A normalised table is empty or has the output columns, and each of its
      rows holds the file's base name followed by nine cells that are not all
      missing and whose City cell is not the header marker. */
  lemma {:induction false} NormalisedRows(pdfFile: string, detection: Detection)
    ensures
      var df := PdfToDataFrame(pdfFile, detection);
      (df == EmptyFrame() || df.columns == OutputColumns) &&
      forall i :: 0 <= i < |df.rows| ==>
        && |df.rows[i]| == |OutputColumns|
        && df.rows[i][0] == Some(Basename(pdfFile))
        && HasValue(df.rows[i][1..])
        && df.rows[i][1] != Some(HeaderValue)
  {
    PdfToDataFrameIsExpected(pdfFile, detection);
    var df := PdfToDataFrame(pdfFile, detection);
    if df != EmptyFrame() {
      var clean := CleanRows(detection.tables);
      forall i | 0 <= i < |df.rows|
        ensures HasValue(df.rows[i][1..]) && df.rows[i][1] != Some(HeaderValue)
      {
        assert df.rows[i][1..] == clean[i];
        assert Clean(clean[i]);
      }
    }
  }

  /** The data cells of the normalised rows are exactly the clean rows of the
      stacked tables when these are nine columns wide; otherwise there are no rows. */
  lemma {:induction false} NormalisedRowsAreCleanRows(pdfFile: string, tables: seq<Grid>)
    ensures
      var df := PdfToDataFrame(pdfFile, Detected(tables));
      if |tables| > 0 && MaxWidth(tables) == |Schema| then
        |df.rows| == |CleanRows(tables)| &&
        forall i :: 0 <= i < |df.rows| ==> df.rows[i][1..] == CleanRows(tables)[i]
      else df == EmptyFrame()
  {
    PdfToDataFrameIsExpected(pdfFile, Detected(tables));
  }

  /** A table of the wrong width makes the relabelling raise; the exception is
      caught and the file yields the empty frame. */
  lemma {:induction false} WrongWidthGivesEmptyFrame(pdfFile: string, tables: seq<Grid>)
    requires MaxWidth(tables) != |Schema|
    ensures PdfToDataFrame(pdfFile, Detected(tables)) == EmptyFrame()
  {
    PdfToDataFrameIsExpected(pdfFile, Detected(tables));
  }

  /** An empty normalised table has no rows, and a file yields rows exactly
      when its detected tables are nine columns wide and one of their rows is clean. */
  lemma {:induction false} EmptyMeansNoRows(pdfFile: string, detection: Detection)
    ensures IsEmpty(PdfToDataFrame(pdfFile, detection)) <==> |PdfToDataFrame(pdfFile, detection).rows| == 0
    ensures !IsEmpty(PdfToDataFrame(pdfFile, detection)) <==>
              detection.Detected? && |detection.tables| > 0 && MaxWidth(detection.tables) == |Schema|
              && |CleanRows(detection.tables)| > 0
  {
    PdfToDataFrameIsExpected(pdfFile, detection);
  }

  /** With one nine-column table, the result is that table's clean rows, in
      order, tagged with the file's base name. */
  lemma {:induction false} OneTable(pdfFile: string, table: Grid)
    requires table.width == |Schema|
    ensures PdfToDataFrame(pdfFile, Detected([table])).rows == Tag(Basename(pdfFile), Filter(table.rows, Clean))
  {
    OneTableCleanRows(table);
    PdfToDataFrameIsExpected(pdfFile, Detected([table]));
  }

  lemma OneTableCleanRows(table: Grid)
    ensures MaxWidth([table]) == table.width
    ensures CleanRows([table]) == Filter(table.rows, Clean)
  {
    assert [table][1..] == [];
    StackRowsSingle(table, table.width);
    assert PadRows(table.rows, table.width) == table.rows;
  }

  /** The header filter looks for "Full Amount" in the City column: a row that
      repeats the labels verbatim has "City" there and is kept, while a row
      with "Full Amount" in that column is dropped. */
  lemma {:induction false} HeaderFilterLooksAtCity(pdfFile: string, repeated: Row, dataRow: Row)
    requires |repeated| == |Schema| && repeated[0] == Some(Schema[0])
    requires |dataRow| == |Schema| && dataRow[0] == Some(HeaderValue)
    ensures PdfToDataFrame(pdfFile, Detected([GridData(|Schema|, [repeated, dataRow])])).rows
              == [[Some(Basename(pdfFile))] + repeated]
  {
    var table: Grid := GridData(|Schema|, [repeated, dataRow]);
    assert Clean(repeated) by {
      assert repeated[0].Some?;
    }
    assert !Clean(dataRow);
    assert Filter(table.rows, Clean) == [repeated] by {
      assert table.rows == [repeated] + [dataRow];
      FilterConcat([repeated], [dataRow], Clean);
    }
    OneTable(pdfFile, table);
  }
}
