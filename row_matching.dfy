/** Matching one file's parsed rows against a keyword (csv_scanner.py:126-140,
    repeated verbatim at 148-161 for the fallback encodings).

    A row is the list of cells the CSV reader produced for one line of the file;
    which rows come out depends on the dialect and on the decoding, both of
    which are inputs here. */
module RowMatching {
  import opened PyText

  type Row = seq<string>

  /** One hit: the file, the 1-based number of the row among all parsed rows
      (a header row is row 1), the row exactly as parsed, and the 0-based
      indices of the cells that contain the keyword. */
  datatype MatchRecord = MatchRecord(
    filePath: string,
    rowNumber: nat,
    rowData: Row,
    matchingColumns: seq<nat>)

  /** A cell matches when the keyword is a substring of its text, lower-cased
      first unless the search is case-sensitive. The keyword itself arrives
      already folded by the caller. */
  predicate CellMatches(cell: string, keyword: string, caseSensitive: bool)
  {
    Contains(if caseSensitive then cell else Lower(cell), keyword)
  }

  /** The column list built for one row: cell indices in the order the inner
      loop visits them, keeping those that match. */
  function MatchingColumns(row: Row, keyword: string, caseSensitive: bool): seq<nat>
  {
    if row == [] then []
    else
      var last := |row| - 1;
      MatchingColumns(row[..last], keyword, caseSensitive)
        + (if CellMatches(row[last], keyword, caseSensitive) then [last] else [])
  }

  predicate StrictlyIncreasing(xs: seq<nat>)
  {
    forall i, j :: 0 <= i < j < |xs| ==> xs[i] < xs[j]
  }

  /** The column list of a row is exactly the ascending list of the indices of
      its matching cells. */
  lemma {:induction false} MatchingColumnsExact(row: Row, keyword: string, caseSensitive: bool)
    ensures StrictlyIncreasing(MatchingColumns(row, keyword, caseSensitive))
    ensures forall c: nat :: c in MatchingColumns(row, keyword, caseSensitive) <==>
      c < |row| && CellMatches(row[c], keyword, caseSensitive)
  {
    if row != [] {
      var last := |row| - 1;
      var front := row[..last];
      MatchingColumnsExact(front, keyword, caseSensitive);
      forall c: nat | c < last
        ensures front[c] == row[c]
      {
      }
      var columns := MatchingColumns(row, keyword, caseSensitive);
      var frontColumns := MatchingColumns(front, keyword, caseSensitive);
      forall i, j | 0 <= i < j < |columns|
        ensures columns[i] < columns[j]
      {
        if j >= |frontColumns| {
          assert frontColumns[i] in frontColumns;
        }
      }
    }
  }

  /** The records one row contributes: none when no cell matched, otherwise one. */
  function RowRecord(filePath: string, rowNumber: nat, row: Row, keyword: string, caseSensitive: bool): seq<MatchRecord>
  {
    var columns := MatchingColumns(row, keyword, caseSensitive);
    if columns == [] then [] else [MatchRecord(filePath, rowNumber, row, columns)]
  }

  /** The records produced by matching `rows` in order, numbering them from 1. */
  function RowMatches(filePath: string, rows: seq<Row>, keyword: string, caseSensitive: bool): seq<MatchRecord>
  {
    if rows == [] then []
    else
      var last := |rows| - 1;
      RowMatches(filePath, rows[..last], keyword, caseSensitive)
        + RowRecord(filePath, last + 1, rows[last], keyword, caseSensitive)
  }

  /** What every record about `filePath` satisfies, whatever rows it came from:
      a positive row number and exactly the matching columns of its row, never none. */
  ghost predicate Genuine(filePath: string, keyword: string, caseSensitive: bool, r: MatchRecord)
  {
    && r.filePath == filePath
    && r.rowNumber >= 1
    && r.matchingColumns == MatchingColumns(r.rowData, keyword, caseSensitive)
    && r.matchingColumns != []
  }

  /** Record `r` reports row `r.rowNumber` of `rows`, unchanged. */
  ghost predicate ReportsRowOf(rows: seq<Row>, r: MatchRecord)
  {
    1 <= r.rowNumber <= |rows| && r.rowData == rows[r.rowNumber - 1]
  }

  /** Every record reports a row of the file, unmodified, with exactly its
      (non-empty) list of matching columns. */
  lemma {:induction false} RowMatchesSound(filePath: string, rows: seq<Row>, keyword: string, caseSensitive: bool)
    ensures forall r :: r in RowMatches(filePath, rows, keyword, caseSensitive) ==>
      Genuine(filePath, keyword, caseSensitive, r) && ReportsRowOf(rows, r)
  {
    if rows != [] {
      var last := |rows| - 1;
      var front := rows[..last];
      RowMatchesSound(filePath, front, keyword, caseSensitive);
      forall r | r in RowMatches(filePath, front, keyword, caseSensitive)
        ensures ReportsRowOf(rows, r)
      {
        assert rows[r.rowNumber - 1] == front[r.rowNumber - 1];
      }
    }
  }

  /** Row numbers strictly increase along `recs`. */
  predicate RowNumbersIncrease(recs: seq<MatchRecord>)
  {
    forall k, l :: 0 <= k < l < |recs| ==> recs[k].rowNumber < recs[l].rowNumber
  }

  /** Row numbers strictly increase along the records: each row is reported at
      most once, in file order. */
  lemma {:induction false} RowMatchesOrdered(filePath: string, rows: seq<Row>, keyword: string, caseSensitive: bool)
    ensures RowNumbersIncrease(RowMatches(filePath, rows, keyword, caseSensitive))
  {
    if rows != [] {
      var last := |rows| - 1;
      var front := rows[..last];
      RowMatchesOrdered(filePath, front, keyword, caseSensitive);
      RowMatchesSound(filePath, front, keyword, caseSensitive);
      var frontRecs := RowMatches(filePath, front, keyword, caseSensitive);
      var extra := RowRecord(filePath, last + 1, rows[last], keyword, caseSensitive);
      var recs := frontRecs + extra;
      assert RowMatches(filePath, rows, keyword, caseSensitive) == recs;
      forall k, l | 0 <= k < l < |recs|
        ensures recs[k].rowNumber < recs[l].rowNumber
      {
        assert recs[k] == frontRecs[k];
        if l >= |frontRecs| {
          assert recs[l] == extra[0];
          assert frontRecs[k] in frontRecs;
          assert ReportsRowOf(front, frontRecs[k]);
        } else {
          assert recs[l] == frontRecs[l];
        }
      }
    }
  }

  /** Some record of `recs` is about row `rowNumber`. */
  predicate HasRow(recs: seq<MatchRecord>, rowNumber: nat)
  {
    exists k :: 0 <= k < |recs| && recs[k].rowNumber == rowNumber
  }

  /** Every row with a matching cell is reported. */
  lemma {:induction false} RowMatchesComplete(filePath: string, rows: seq<Row>, keyword: string, caseSensitive: bool)
    ensures forall i :: 0 <= i < |rows| && MatchingColumns(rows[i], keyword, caseSensitive) != [] ==>
      HasRow(RowMatches(filePath, rows, keyword, caseSensitive), i + 1)
  {
    if rows != [] {
      var last := |rows| - 1;
      var front := rows[..last];
      RowMatchesComplete(filePath, front, keyword, caseSensitive);
      var frontRecs := RowMatches(filePath, front, keyword, caseSensitive);
      var extra := RowRecord(filePath, last + 1, rows[last], keyword, caseSensitive);
      var recs := frontRecs + extra;
      assert RowMatches(filePath, rows, keyword, caseSensitive) == recs;
      forall i | 0 <= i < |rows| && MatchingColumns(rows[i], keyword, caseSensitive) != []
        ensures HasRow(recs, i + 1)
      {
        if i < last {
          assert front[i] == rows[i];
          assert HasRow(frontRecs, i + 1);
          var k :| 0 <= k < |frontRecs| && frontRecs[k].rowNumber == i + 1;
          assert recs[k] == frontRecs[k];
        } else {
          assert recs[|frontRecs|].rowNumber == i + 1;
        }
      }
    }
  }

  /** Matching a prefix of the rows yields a prefix of the records. */
  lemma {:induction false} RowMatchesPrefix(filePath: string, rows: seq<Row>, m: nat, keyword: string, caseSensitive: bool)
    requires m <= |rows|
    ensures RowMatches(filePath, rows[..m], keyword, caseSensitive) <= RowMatches(filePath, rows, keyword, caseSensitive)
    decreases |rows| - m
  {
    if m < |rows| {
      var last := |rows| - 1;
      RowMatchesPrefix(filePath, rows[..last], m, keyword, caseSensitive);
      assert rows[..last][..m] == rows[..m];
    } else {
      assert rows[..m] == rows;
    }
  }

  /** The inner loop over one row's cells (csv_scanner.py:127-132). */
  method CollectColumns(row: Row, keyword: string, caseSensitive: bool) returns (columns: seq<nat>)
    ensures columns == MatchingColumns(row, keyword, caseSensitive)
  {
    columns := [];
    var colIndex := 0;
    while colIndex < |row|
      invariant 0 <= colIndex <= |row|
      invariant columns == MatchingColumns(row[..colIndex], keyword, caseSensitive)
    {
      var cellContent := if caseSensitive then row[colIndex] else Lower(row[colIndex]);
      if Contains(cellContent, keyword) {
        columns := columns + [colIndex];
      }
      assert row[..colIndex + 1][..colIndex] == row[..colIndex];
      colIndex := colIndex + 1;
    }
    assert row[..colIndex] == row;
  }

  /** The outer loop over a reader's rows (csv_scanner.py:126-140), appending
      to the `matches` already collected. */
  method ScanRows(filePath: string, rows: seq<Row>, keyword: string, caseSensitive: bool, matches: seq<MatchRecord>)
    returns (result: seq<MatchRecord>)
    ensures result == matches + RowMatches(filePath, rows, keyword, caseSensitive)
  {
    result := matches;
    var i := 0;
    while i < |rows|
      invariant 0 <= i <= |rows|
      invariant result == matches + RowMatches(filePath, rows[..i], keyword, caseSensitive)
    {
      var rowNumber := i + 1;
      var matchingColumns := CollectColumns(rows[i], keyword, caseSensitive);
      if matchingColumns != [] {
        result := result + [MatchRecord(filePath, rowNumber, rows[i], matchingColumns)];
      }
      assert rows[..i + 1][..i] == rows[..i];
      i := i + 1;
    }
    assert rows[..i] == rows;
  }
}
