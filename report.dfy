/** The e-mail body the job renders from the collected flights: a header
    line, then one "Flight <number> Status: <status>" line per flight in list
    order. The body is modelled as its sequence of non-blank lines; the
    template's blank lines and indentation are not. */
module Report {
  import opened Text
  import opened Fetch

  const Header := "Flight Status Update:"

  /** The line the template's range body writes for one flight: "Flight ",
      the number, " Status: ", the status. */
  function Line(flight: Flight): (line: string)
    ensures |line| == 16 + |flight.flightNumber| + |flight.status.status|
    ensures line[..7] == "Flight "
  {
    "Flight " + flight.flightNumber + " Status: " + flight.status.status
  }

  /** One line per flight, in list order. */
  function FlightLines(flights: seq<Flight>): (lines: seq<string>)
    ensures |lines| == |flights|
    ensures forall i :: 0 <= i < |flights| ==> lines[i] == Line(flights[i])
  {
    if flights == [] then [] else [Line(flights[0])] + FlightLines(flights[1..])
  }

  /** The rendered report: the header, then the flight lines. */
  function Render(flights: seq<Flight>): (lines: seq<string>)
    ensures |lines| == |flights| + 1 && lines[0] == Header
    ensures forall i :: 0 <= i < |flights| ==> lines[i + 1] == Line(flights[i])
  {
    [Header] + FlightLines(flights)
  }

  /** Reads one flight line back: "Flight ", a number up to the next space, " Status: ", the status. */
  function ParseLine(line: string): Option<Flight> {
    if |line| < 7 || line[..7] != "Flight " then None
    else
      match SplitAtFirst(line[7..], ' ')
      case None => None
      case Some((flightNumber, rest)) =>
        if |rest| < 8 || rest[..8] != "Status: " then None
        else Some(Flight(flightNumber, FlightStatus(rest[8..])))
  }

  function ParseLines(lines: seq<string>): Option<seq<Flight>> {
    if lines == [] then Some([])
    else
      match (ParseLine(lines[0]), ParseLines(lines[1..]))
      case (Some(flight), Some(flights)) => Some([flight] + flights)
      case _ => None
  }

  function ParseReport(lines: seq<string>): Option<seq<Flight>> {
    if lines == [] || lines[0] != Header then None else ParseLines(lines[1..])
  }

  /** A flight line has the shape "Flight <number> Status: <status>" and gives
      back its flight, provided the flight number has no space in it. */
  lemma LineRoundTrip(flight: Flight)
    requires ' ' !in flight.flightNumber
    ensures ParseLine(Line(flight)) == Some(flight)
  {
    var line := Line(flight);
    var rest := "Status: " + flight.status.status;
    assert line[..7] == "Flight ";
    assert line[7..] == flight.flightNumber + [' '] + rest;
    SplitAtFirstJoin(flight.flightNumber, ' ', rest);
    assert rest[..8] == "Status: ";
    assert rest[8..] == flight.status.status;
  }

  /** The report is the header followed by exactly one line per flight, in
      list order, each of the flight-line shape: reading it back gives the list. */
  lemma {:induction false} ReportRoundTrip(flights: seq<Flight>)
    requires forall i :: 0 <= i < |flights| ==> ' ' !in flights[i].flightNumber
    ensures ParseReport(Render(flights)) == Some(flights)
  {
    assert Render(flights)[1..] == FlightLines(flights);
    FlightLinesRoundTrip(flights);
  }

  lemma {:induction false} FlightLinesRoundTrip(flights: seq<Flight>)
    requires forall i :: 0 <= i < |flights| ==> ' ' !in flights[i].flightNumber
    ensures ParseLines(FlightLines(flights)) == Some(flights)
  {
    if flights != [] {
      var lines := FlightLines(flights);
      LineRoundTrip(flights[0]);
      assert lines[1..] == FlightLines(flights[1..]);
      FlightLinesRoundTrip(flights[1..]);
      assert [flights[0]] + flights[1..] == flights;
    }
  }
}
