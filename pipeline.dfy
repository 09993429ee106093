/** The data path of the job's main function, from spreadsheet rows to the
    lines of the e-mail body: filter the rows for tomorrow, request every
    selected flight's status, render the collected flights. Opening the
    workbook, the clock, the network and sending the e-mail are not
    modelled; main reads the clock twice (once for the sheet's date string,
    once for the request date), so the two dates are separate inputs. */
module Pipeline {
  import opened Dates
  import opened Rows
  import opened Fetch
  import opened Report
  import GoStrings

  method FlightStatusUpdate(rows: seq<Row>, filterDay: Date, requestDay: Date,
                            order: seq<string>, outcomes: seq<FetchOutcome>)
    returns (body: seq<string>, requests: seq<string>)
    requires IsIterationOrder(order, Selected(rows, FormatMonthDayYear(filterDay)))
    requires |outcomes| == |order|
    ensures body == Render(Collected(order, outcomes))
    ensures |requests| == |order|
    ensures forall i :: 0 <= i < |order| ==>
              requests[i] == RequestFor(order[i], Selected(rows, FormatMonthDayYear(filterDay))[order[i]],
                                        FormatYearMonthDay(requestDay))
  {
    var tomorrowDateStr := FormatMonthDayYear(filterDay);
    var flightData := SelectTomorrowFlights(rows, tomorrowDateStr);
    var formattedDate := FormatYearMonthDay(requestDay);
    var flights;
    flights, requests := CollectStatuses(flightData, order, formattedDate, outcomes);
    body := Render(flights);
  }

  /** A flight is collected (and so rendered into the report) exactly when
      some row of the sheet qualifies for it and its request was decoded
      with that status. */
  lemma ReportedIff(rows: seq<Row>, tomorrowDateStr: string, order: seq<string>,
                    outcomes: seq<FetchOutcome>, flight: Flight)
    requires IsIterationOrder(order, Selected(rows, tomorrowDateStr)) && |outcomes| == |order|
    ensures flight in Collected(order, outcomes)
            <==> (exists i :: 0 <= i < |rows| && Qualifies(rows[i], tomorrowDateStr) && rows[i][0] == flight.flightNumber)
                 && (exists j :: 0 <= j < |order| && order[j] == flight.flightNumber
                                 && outcomes[j] == Decoded(flight.status.status))
  {
    CollectedMembership(order, outcomes, flight);
    SelectedKeys(rows, tomorrowDateStr, flight.flightNumber);
  }

  /** A row dated for another day than tomorrow (in month, day or two-digit
      year) never contributes to the flights looked up. */
  lemma OtherDayRowIgnored(before: seq<Row>, row: Row, after: seq<Row>, tomorrow: Date, day: Date)
    requires |row| >= 3 && row[2] == FormatMonthDayYear(day)
    requires day.month != tomorrow.month || day.day != tomorrow.day || day.year % 100 != tomorrow.year % 100
    ensures Selected(before + [row] + after, FormatMonthDayYear(tomorrow))
            == Selected(before + after, FormatMonthDayYear(tomorrow))
  {
    MonthDayYearSameString(day, tomorrow);
    NonQualifyingRowIgnored(before, row, after, FormatMonthDayYear(tomorrow));
  }

  lemma ScenarioSelection()
    ensures Selected([["AA100", "AA", "06-15-24"]], FormatMonthDayYear(Date(2024, 6, 15))) == map["AA100" := "AA"]
  {
    MonthDayYearExample();
    var rows: seq<Row> := [["AA100", "AA", "06-15-24"]];
    assert rows[..0] == [];
  }

  lemma ScenarioRequest()
    ensures RequestFor("AA100", "AA", FormatYearMonthDay(Date(2024, 6, 15)))
            == RequestUrl("AA", "100", "2024/06/15")
  {
    YearMonthDayExample();
    GoStrings.DeleteAllExample();
  }

  /** The line for AA100 with status "On Time". */
  lemma ScenarioLine()
    ensures Line(Flight("AA100", FlightStatus("On Time"))) == "Flight AA100 Status: On Time"
  {
  }

  lemma ScenarioReport()
    ensures Render(Collected(["AA100"], [Decoded("On Time")]))
            == ["Flight Status Update:", "Flight AA100 Status: On Time"]
  {
    var order: seq<string> := ["AA100"];
    var outcomes: seq<FetchOutcome> := [Decoded("On Time")];
    assert order[..0] == [] && outcomes[..0] == [];
    var flight := Flight("AA100", FlightStatus("On Time"));
    assert Collected(order, outcomes) == [flight];
    ScenarioLine();
    assert [flight][1..] == [];
    assert FlightLines([flight]) == [Line(flight)];
  }

  /** The worked example: one row for flight AA100 of airline AA dated
      06-15-24, tomorrow being 15 June 2024, and a decoded status "On Time":
      the map has the one entry, ["AA100"] is the order Go's range visits it in,
      the request URL is built from AA, the bare number 100 and 2024/06/15,
      and the report carries the line "Flight AA100 Status: On Time". */
  lemma Scenario()
    ensures Selected([["AA100", "AA", "06-15-24"]], FormatMonthDayYear(Date(2024, 6, 15))) == map["AA100" := "AA"]
    ensures IsIterationOrder(["AA100"], map["AA100" := "AA"])
    ensures RequestFor("AA100", "AA", FormatYearMonthDay(Date(2024, 6, 15)))
            == RequestUrl("AA", "100", "2024/06/15")
    ensures Render(Collected(["AA100"], [Decoded("On Time")]))
            == ["Flight Status Update:", "Flight AA100 Status: On Time"]
  {
    ScenarioSelection();
    ScenarioRequest();
    ScenarioReport();
  }
}
