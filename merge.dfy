/** The aggregator: every file is normalised in order, the non-empty tables
    are kept, and either their concatenation is written once to the output
    file or the run reports that no valid data was found. Writing the
    spreadsheet and printing are modelled by the `Outcome` value. */
module Merge {
  import opened Sequences
  import opened Frames
  import opened Paths
  import opened Normaliser

  /** What a run leaves behind: the table written to the output file, or the
      "no valid data" report with nothing written. */
  datatype Outcome = Written(outputFile: string, table: Frame) | NoValidData

  /** The normalised table of each path, in path order; `read` stands for the
      table detector run on a downloaded file. */
  function Results(pdfPaths: seq<string>, read: string -> Detection): (dfs: seq<Frame>)
    ensures |dfs| == |pdfPaths|
  {
    Map(pdfPaths, Normalised(read))
  }

  /** `pdf_to_dataframe` as a function of the path alone, for a fixed detector. */
  function Normalised(read: string -> Detection): string -> Frame
  {
    pdf => PdfToDataFrame(pdf, read(pdf))
  }

  lemma ResultsAt(pdfPaths: seq<string>, read: string -> Detection, i: nat)
    requires i < |pdfPaths|
    ensures Results(pdfPaths, read)[i] == PdfToDataFrame(pdfPaths[i], read(pdfPaths[i]))
  {
  }

  lemma ResultsAppend(a: seq<string>, b: seq<string>, read: string -> Detection)
    ensures Results(a + b, read) == Results(a, read) + Results(b, read)
  {
    MapAppend(a, b, Normalised(read));
  }

  predicate NonEmpty(df: Frame)
  {
    !IsEmpty(df)
  }

  /** The rows of the frames, one frame after another. */
  function AllRows(dfs: seq<Frame>): seq<Row>
  {
    if |dfs| == 0 then [] else dfs[0].rows + AllRows(dfs[1..])
  }

  lemma {:induction false} AllRowsCount(dfs: seq<Frame>)
    ensures |AllRows(dfs)| == TotalLength(Map(dfs, FrameRows))
  {
    if |dfs| > 0 {
      AllRowsCount(dfs[1..]);
      MapTail(dfs, FrameRows);
    }
  }

  lemma {:induction false} AllRowsAppend(a: seq<Frame>, b: seq<Frame>)
    ensures AllRows(a + b) == AllRows(a) + AllRows(b)
  {
    if |a| == 0 {
      assert a + b == b;
    } else {
      assert (a + b)[1..] == a[1..] + b;
      AllRowsAppend(a[1..], b);
    }
  }

  /** Each row of `AllRows(dfs)` is a row of one of the frames. */
  lemma {:induction false} AllRowsMember(dfs: seq<Frame>, r: nat)
    requires r < |AllRows(dfs)|
    ensures exists k :: 0 <= k < |dfs| && AllRows(dfs)[r] in dfs[k].rows
  {
    if r < |dfs[0].rows| {
      assert AllRows(dfs)[r] == dfs[0].rows[r];
    } else {
      AllRowsMember(dfs[1..], r - |dfs[0].rows|);
      var k :| 0 <= k < |dfs[1..]| && AllRows(dfs[1..])[r - |dfs[0].rows|] in dfs[1..][k].rows;
      assert dfs[1..][k] == dfs[k + 1];
    }
  }

  /** `pd.concat(dfs, ignore_index=True)` of frames with the same columns: the
      rows of the first frame, then those of the second, and so on. */
  function ConcatFrames(dfs: seq<Frame>): (df: Frame)
    requires |dfs| > 0
    requires forall i :: 0 <= i < |dfs| ==> dfs[i].columns == dfs[0].columns
    ensures df.columns == dfs[0].columns
    ensures df.rows == AllRows(dfs)
  {
    var rows := AllRows(dfs);
    assert forall r :: 0 <= r < |rows| ==> |rows[r]| == |dfs[0].columns| by {
      forall r | 0 <= r < |rows|
        ensures |rows[r]| == |dfs[0].columns|
      {
        AllRowsMember(dfs, r);
      }
    }
    FrameData(dfs[0].columns, rows)
  }

  /** Every non-empty normalised table has the output columns. */
  lemma NonEmptyResultsShareColumns(pdfPaths: seq<string>, read: string -> Detection)
    ensures forall i :: 0 <= i < |Filter(Results(pdfPaths, read), NonEmpty)| ==>
              Filter(Results(pdfPaths, read), NonEmpty)[i].columns == OutputColumns
  {
    var dfs := Results(pdfPaths, read);
    forall i | 0 <= i < |dfs|
      ensures NonEmpty(dfs[i]) ==> dfs[i].columns == OutputColumns
    {
      ResultsAt(pdfPaths, read, i);
      NormalisedRows(pdfPaths[i], read(pdfPaths[i]));
    }
  }

  /** The outcome of a run over `pdfPaths`. */
  function MergeOutcome(pdfPaths: seq<string>, read: string -> Detection, outputFile: string): Outcome
  {
    var kept := Filter(Results(pdfPaths, read), NonEmpty);
    if |kept| > 0 then
      NonEmptyResultsShareColumns(pdfPaths, read);
      Written(outputFile, ConcatFrames(kept))
    else NoValidData
  }

  /** The run: normalise each file, keep the non-empty tables, then write
      their concatenation once or report that there was no valid data. */
  method MergePdfsToExcel(pdfPaths: seq<string>, read: string -> Detection, outputFile: string)
    returns (outcome: Outcome)
    ensures outcome == MergeOutcome(pdfPaths, read, outputFile)
    ensures outcome.Written? ==> outcome.outputFile == outputFile && outcome.table.columns == OutputColumns
  {
    var allDfs: seq<Frame> := [];
    for i := 0 to |pdfPaths|
      invariant allDfs == Filter(Results(pdfPaths[..i], read), NonEmpty)
    {
      var df := PdfToDataFrame(pdfPaths[i], read(pdfPaths[i]));
      KeptSnoc(pdfPaths, i, read);
      if !IsEmpty(df) {
        allDfs := allDfs + [df];
      }
    }
    assert pdfPaths[..|pdfPaths|] == pdfPaths;
    NonEmptyResultsShareColumns(pdfPaths, read);
    if |allDfs| > 0 {
      var finalDf := ConcatFrames(allDfs);
      outcome := Written(outputFile, finalDf);
    } else {
      outcome := NoValidData;
    }
  }

  /** Normalising one more path adds its table to the kept ones when it is not empty. */
  lemma KeptSnoc(pdfPaths: seq<string>, i: nat, read: string -> Detection)
    requires i < |pdfPaths|
    ensures
      var df := Normalised(read)(pdfPaths[i]);
      Filter(Results(pdfPaths[..i + 1], read), NonEmpty)
        == Filter(Results(pdfPaths[..i], read), NonEmpty) + (if NonEmpty(df) then [df] else [])
  {
    MapFilterSnoc(pdfPaths, i, Normalised(read), NonEmpty);
  }

  // ---------------------------------------------------------------------
  // Properties of the merge

  lemma {:induction false} FilterEmptyIsEmpty(dfs: seq<Frame>)
    ensures |Filter(dfs, NonEmpty)| == 0 <==> forall i :: 0 <= i < |dfs| ==> IsEmpty(dfs[i])
  {
    if |dfs| > 0 {
      FilterEmptyIsEmpty(dfs[1..]);
      assert forall i :: 1 <= i < |dfs| ==> dfs[i] == dfs[1..][i - 1];
    }
  }

  /** Nothing is written exactly when every file yields an empty table, in
      particular when there are no files. */
  lemma NoDataIffAllEmpty(pdfPaths: seq<string>, read: string -> Detection, outputFile: string)
    ensures MergeOutcome(pdfPaths, read, outputFile).NoValidData? <==>
              forall i :: 0 <= i < |pdfPaths| ==> IsEmpty(PdfToDataFrame(pdfPaths[i], read(pdfPaths[i])))
    ensures |pdfPaths| == 0 ==> MergeOutcome(pdfPaths, read, outputFile) == NoValidData
  {
    FilterEmptyIsEmpty(Results(pdfPaths, read));
    forall i | 0 <= i < |pdfPaths| {
      ResultsAt(pdfPaths, read, i);
    }
  }

  /** Leaving out the empty tables loses no row, since an empty normalised
      table has no rows. */
  lemma {:induction false} DroppingEmptyKeepsRows(dfs: seq<Frame>)
    requires forall i :: 0 <= i < |dfs| ==> IsEmpty(dfs[i]) ==> |dfs[i].rows| == 0
    ensures AllRows(Filter(dfs, NonEmpty)) == AllRows(dfs)
  {
    if |dfs| > 0 {
      DroppingEmptyKeepsRows(dfs[1..]);
      var head: seq<Frame> := if NonEmpty(dfs[0]) then [dfs[0]] else [];
      AllRowsAppend(head, Filter(dfs[1..], NonEmpty));
      if NonEmpty(dfs[0]) {
        assert head[1..] == [];
      }
    }
  }

  /** An empty per-file table contributes no rows. */
  lemma EmptyResultsHaveNoRows(pdfPaths: seq<string>, read: string -> Detection)
    ensures forall i :: 0 <= i < |pdfPaths| ==>
              IsEmpty(Results(pdfPaths, read)[i]) ==> |Results(pdfPaths, read)[i].rows| == 0
  {
    forall i | 0 <= i < |pdfPaths|
      ensures IsEmpty(Results(pdfPaths, read)[i]) ==> |Results(pdfPaths, read)[i].rows| == 0
    {
      ResultsAt(pdfPaths, read, i);
      EmptyMeansNoRows(pdfPaths[i], read(pdfPaths[i]));
    }
  }

  /** The written table holds, in path order, every row of every file's
      normalised table, so its row count is the sum of theirs. */
  lemma MergedRows(pdfPaths: seq<string>, read: string -> Detection, outputFile: string)
    ensures
      var outcome := MergeOutcome(pdfPaths, read, outputFile);
      outcome.Written? ==>
        && outcome.outputFile == outputFile
        && outcome.table.columns == OutputColumns
        && outcome.table.rows == AllRows(Results(pdfPaths, read))
        && |outcome.table.rows| == TotalLength(Map(Results(pdfPaths, read), FrameRows))
  {
    var dfs := Results(pdfPaths, read);
    var kept := Filter(dfs, NonEmpty);
    EmptyResultsHaveNoRows(pdfPaths, read);
    DroppingEmptyKeepsRows(dfs);
    AllRowsCount(dfs);
    NonEmptyResultsShareColumns(pdfPaths, read);
    if |kept| > 0 {
      assert MergeOutcome(pdfPaths, read, outputFile).table == ConcatFrames(kept);
    }
  }

  /** Running the paths `a` and then the paths `b` merges the rows of `a`
      before the rows of `b`. */
  lemma MergedRowsAppend(a: seq<string>, b: seq<string>, read: string -> Detection)
    ensures AllRows(Results(a + b, read)) == AllRows(Results(a, read)) + AllRows(Results(b, read))
  {
    ResultsAppend(a, b, read);
    AllRowsAppend(Results(a, read), Results(b, read));
  }

  /** Every merged row names, in its Source_File cell, the base name of one of
      the input paths, and its nine data cells are not all missing and do not
      hold the header marker in the City column. */
  lemma MergedRowsProvenance(pdfPaths: seq<string>, read: string -> Detection, outputFile: string)
    ensures
      var outcome := MergeOutcome(pdfPaths, read, outputFile);
      outcome.Written? ==>
        forall r :: 0 <= r < |outcome.table.rows| ==>
          && |outcome.table.rows[r]| == |OutputColumns|
          && (exists k :: 0 <= k < |pdfPaths| && outcome.table.rows[r][0] == Some(Basename(pdfPaths[k])))
          && HasValue(outcome.table.rows[r][1..])
          && outcome.table.rows[r][1] != Some(HeaderValue)
  {
    var outcome := MergeOutcome(pdfPaths, read, outputFile);
    if outcome.Written? {
      MergedRows(pdfPaths, read, outputFile);
      var dfs := Results(pdfPaths, read);
      forall r | 0 <= r < |outcome.table.rows|
        ensures exists k :: 0 <= k < |pdfPaths| && outcome.table.rows[r][0] == Some(Basename(pdfPaths[k]))
        ensures HasValue(outcome.table.rows[r][1..]) && outcome.table.rows[r][1] != Some(HeaderValue)
      {
        AllRowsMember(dfs, r);
        var k :| 0 <= k < |dfs| && outcome.table.rows[r] in dfs[k].rows;
        ResultsAt(pdfPaths, read, k);
        NormalisedRows(pdfPaths[k], read(pdfPaths[k]));
      }
    }
  }
}
