/** The spreadsheet filter of the flight-status job: the rows of "Sheet1"
    become a map from flight number (column 0) to airline code (column 1),
    keeping only rows whose date column (column 2) is tomorrow's "MM-DD-YY"
    string. Opening the workbook and reading its rows are not modelled: the
    rows come in as a sequence. */
module Rows {

  /** One spreadsheet row: its cells as strings; trailing empty cells may be absent. */
  type Row = seq<string>

  /** A row takes part in the map: it has at least three cells and its date cell is tomorrow's. */
  predicate Qualifies(row: Row, tomorrowDateStr: string) {
    |row| >= 3 && tomorrowDateStr == row[2]
  }

  /** The map the filter loop builds from `rows`, row by row in sheet order. */
  function Selected(rows: seq<Row>, tomorrowDateStr: string): (flightData: map<string, string>)
    ensures |flightData| <= |rows|
    decreases |rows|
  {
    if rows == [] then map[]
    else
      var last := rows[|rows| - 1];
      var flightData := Selected(rows[..|rows| - 1], tomorrowDateStr);
      if Qualifies(last, tomorrowDateStr) then flightData[last[0] := last[1]] else flightData
  }

  /** The filter loop: walks the rows in order and records every qualifying
      row, a later row overwriting an earlier one with the same flight number. */
  method SelectTomorrowFlights(rows: seq<Row>, tomorrowDateStr: string)
    returns (flightData: map<string, string>)
    ensures flightData == Selected(rows, tomorrowDateStr)
  {
    flightData := map[];
    for i := 0 to |rows|
      invariant flightData == Selected(rows[..i], tomorrowDateStr)
    {
      assert rows[..i + 1][..i] == rows[..i];
      var row := rows[i];
      if |row| >= 3 {
        if tomorrowDateStr == row[2] {
          var flightNumber := row[0];
          var airlineCode := row[1];
          flightData := flightData[flightNumber := airlineCode];
        }
      }
    }
    assert rows[..|rows|] == rows;
  }

  /** A flight number is a key of the map exactly when some qualifying row carries it. */
  lemma {:induction false} SelectedKeys(rows: seq<Row>, tomorrowDateStr: string, flightNumber: string)
    ensures flightNumber in Selected(rows, tomorrowDateStr)
            <==> exists i :: 0 <= i < |rows| && Qualifies(rows[i], tomorrowDateStr) && rows[i][0] == flightNumber
    decreases |rows|
  {
    if rows != [] {
      var prefix := rows[..|rows| - 1];
      SelectedKeys(prefix, tomorrowDateStr, flightNumber);
      if flightNumber in Selected(prefix, tomorrowDateStr) {
        var i :| 0 <= i < |prefix| && Qualifies(prefix[i], tomorrowDateStr) && prefix[i][0] == flightNumber;
        assert rows[i] == prefix[i];
      }
      if exists i :: 0 <= i < |rows| && Qualifies(rows[i], tomorrowDateStr) && rows[i][0] == flightNumber {
        var i :| 0 <= i < |rows| && Qualifies(rows[i], tomorrowDateStr) && rows[i][0] == flightNumber;
        if i < |rows| - 1 {
          assert prefix[i] == rows[i];
        }
      }
    }
  }

  /** The airline code recorded for a flight number is the one in the last
      qualifying row that carries it. */
  lemma {:induction false} SelectedLastWins(rows: seq<Row>, tomorrowDateStr: string, i: nat)
    requires i < |rows| && Qualifies(rows[i], tomorrowDateStr)
    requires forall j :: i < j < |rows| && Qualifies(rows[j], tomorrowDateStr) ==> rows[j][0] != rows[i][0]
    ensures rows[i][0] in Selected(rows, tomorrowDateStr)
    ensures Selected(rows, tomorrowDateStr)[rows[i][0]] == rows[i][1]
    decreases |rows|
  {
    if i < |rows| - 1 {
      var prefix := rows[..|rows| - 1];
      assert prefix[i] == rows[i];
      forall j | i < j < |prefix| && Qualifies(prefix[j], tomorrowDateStr)
        ensures prefix[j][0] != prefix[i][0]
      {
        assert prefix[j] == rows[j];
      }
      SelectedLastWins(prefix, tomorrowDateStr, i);
    }
  }

  /** Every recorded airline code comes from the last qualifying row with that flight number. */
  lemma {:induction false} SelectedValue(rows: seq<Row>, tomorrowDateStr: string, flightNumber: string)
    requires flightNumber in Selected(rows, tomorrowDateStr)
    ensures exists i :: 0 <= i < |rows| && Qualifies(rows[i], tomorrowDateStr) && rows[i][0] == flightNumber
              && Selected(rows, tomorrowDateStr)[flightNumber] == rows[i][1]
              && forall j :: i < j < |rows| && Qualifies(rows[j], tomorrowDateStr) ==> rows[j][0] != flightNumber
    decreases |rows|
  {
    var n := |rows| - 1;
    var prefix := rows[..n];
    if Qualifies(rows[n], tomorrowDateStr) && rows[n][0] == flightNumber {
      assert Selected(rows, tomorrowDateStr)[flightNumber] == rows[n][1];
    } else {
      SelectedValue(prefix, tomorrowDateStr, flightNumber);
      var i :| 0 <= i < |prefix| && Qualifies(prefix[i], tomorrowDateStr) && prefix[i][0] == flightNumber
               && Selected(prefix, tomorrowDateStr)[flightNumber] == prefix[i][1]
               && forall j :: i < j < |prefix| && Qualifies(prefix[j], tomorrowDateStr) ==> prefix[j][0] != flightNumber;
      assert rows[i] == prefix[i];
      forall j | i < j < |rows| && Qualifies(rows[j], tomorrowDateStr)
        ensures rows[j][0] != flightNumber
      {
        if j < n {
          assert rows[j] == prefix[j];
        }
      }
    }
  }

  /** A row that does not qualify (too short, or dated another day) changes
      nothing, wherever it stands in the sheet. */
  lemma {:induction false} NonQualifyingRowIgnored(before: seq<Row>, row: Row, after: seq<Row>, tomorrowDateStr: string)
    requires !Qualifies(row, tomorrowDateStr)
    ensures Selected(before + [row] + after, tomorrowDateStr) == Selected(before + after, tomorrowDateStr)
    decreases |after|
  {
    var rows := before + [row] + after;
    if after == [] {
      assert rows[..|rows| - 1] == before;
      assert before + after == before;
    } else {
      var last := after[|after| - 1];
      var shorter := after[..|after| - 1];
      NonQualifyingRowIgnored(before, row, shorter, tomorrowDateStr);
      assert rows[..|rows| - 1] == before + [row] + shorter;
      assert (before + after)[..|before + after| - 1] == before + shorter;
    }
  }

  /** A row with fewer than three cells never adds or changes an entry, whatever tomorrow is. */
  lemma ShortRowIgnored(before: seq<Row>, row: Row, after: seq<Row>, tomorrowDateStr: string)
    requires |row| < 3
    ensures Selected(before + [row] + after, tomorrowDateStr) == Selected(before + after, tomorrowDateStr)
  {
    NonQualifyingRowIgnored(before, row, after, tomorrowDateStr);
  }
}
