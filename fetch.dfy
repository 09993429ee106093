/** The status-collection loop of the flight-status job: for each flight in
    the map, strip the airline code from the flight number, build the
    flight-tracker URL, issue one request, and append the flight with its
    decoded status, or skip the flight when the request, the body read or
    the JSON decoding fails. The network is not modelled: what each request
    came to is an input, one outcome per request in the order they are made. */
module Fetch {
  import opened Text
  import GoStrings

  const FlightTrackerEndpoint := "https://www.flightstats.com/v2/api-next/flight-tracker/"

  datatype FlightStatus = FlightStatus(status: string)

  /** A flight of the report: the flight number as the sheet spells it, and its status. */
  datatype Flight = Flight(flightNumber: string, status: FlightStatus)

  /** What one status request came to: a failed GET, a failed body read,
      a body that is not the expected JSON, or the decoded `data.status.status`. */
  datatype FetchOutcome = RequestError | BodyReadError | JsonError | Decoded(status: string)

  /** The request URL: endpoint, airline code, bare flight number and date,
      joined with "/" and nothing escaped. */
  function RequestUrl(airlineCode: string, bareFlightNumber: string, formattedDate: string): (url: string)
    ensures |url| == |FlightTrackerEndpoint| + |airlineCode| + |bareFlightNumber| + |formattedDate| + 2
    ensures url[..|FlightTrackerEndpoint|] == FlightTrackerEndpoint
    ensures url[|url| - |formattedDate|..] == formattedDate
  {
    FlightTrackerEndpoint + airlineCode + "/" + bareFlightNumber + "/" + formattedDate
  }

  datatype UrlParts = UrlParts(airlineCode: string, flightNumber: string, date: string)

  /** Reads a flight-tracker URL back into its parts: the first two path
      segments after the endpoint, and the rest as the date. */
  function ParseRequestUrl(url: string): Option<UrlParts> {
    if |url| < |FlightTrackerEndpoint| || url[..|FlightTrackerEndpoint|] != FlightTrackerEndpoint then None
    else
      match SplitAtFirst(url[|FlightTrackerEndpoint|..], '/')
      case None => None
      case Some((airlineCode, rest)) =>
        match SplitAtFirst(rest, '/')
        case None => None
        case Some((flightNumber, date)) => Some(UrlParts(airlineCode, flightNumber, date))
  }

  /** When neither the airline code nor the bare flight number contains "/",
      the URL determines all three of its parts. */
  lemma RequestUrlRoundTrip(airlineCode: string, bareFlightNumber: string, formattedDate: string)
    requires '/' !in airlineCode && '/' !in bareFlightNumber
    ensures ParseRequestUrl(RequestUrl(airlineCode, bareFlightNumber, formattedDate))
            == Some(UrlParts(airlineCode, bareFlightNumber, formattedDate))
  {
    var url := RequestUrl(airlineCode, bareFlightNumber, formattedDate);
    var rest := bareFlightNumber + "/" + formattedDate;
    assert url[|FlightTrackerEndpoint|..] == airlineCode + ['/'] + rest;
    SplitAtFirstJoin(airlineCode, '/', rest);
    SplitAtFirstJoin(bareFlightNumber, '/', formattedDate);
  }

  /** The URL requested for one map entry (main.go strips the code, then joins). */
  function RequestFor(flightNumber: string, airlineCode: string, formattedDate: string): (url: string)
    ensures |url| <= |FlightTrackerEndpoint| + |airlineCode| + |flightNumber| + |formattedDate| + 2
  {
    RequestUrl(airlineCode, GoStrings.DeleteAll(flightNumber, airlineCode), formattedDate)
  }

  /** When the code and the flight number have no "/", the URL requested for
      a map entry gives back the code, the stripped number and the date. */
  lemma RequestForRoundTrip(flightNumber: string, airlineCode: string, formattedDate: string)
    requires '/' !in airlineCode && '/' !in flightNumber
    ensures ParseRequestUrl(RequestFor(flightNumber, airlineCode, formattedDate))
            == Some(UrlParts(airlineCode, GoStrings.DeleteAll(flightNumber, airlineCode), formattedDate))
  {
    RequestUrlRoundTrip(airlineCode, GoStrings.DeleteAll(flightNumber, airlineCode), formattedDate);
  }

  /** The URLs the loop requests when it visits the flights in `order`, one per flight, in order. */
  function RequestsFor(order: seq<string>, flightData: map<string, string>, formattedDate: string): (urls: seq<string>)
    requires forall k :: 0 <= k < |order| ==> order[k] in flightData
    ensures |urls| == |order|
    ensures forall k :: 0 <= k < |order| ==> urls[k] == RequestFor(order[k], flightData[order[k]], formattedDate)
    decreases |order|
  {
    if order == [] then []
    else
      var n := |order| - 1;
      RequestsFor(order[..n], flightData, formattedDate) + [RequestFor(order[n], flightData[order[n]], formattedDate)]
  }

  /** One more visited flight adds its URL, built from its stripped number, to the requests. */
  lemma RequestsStep(order: seq<string>, flightData: map<string, string>, formattedDate: string, i: nat)
    requires forall k :: 0 <= k < |order| ==> order[k] in flightData
    requires i < |order|
    ensures RequestsFor(order[..i + 1], flightData, formattedDate)
            == RequestsFor(order[..i], flightData, formattedDate)
               + [RequestUrl(flightData[order[i]], GoStrings.DeleteAll(order[i], flightData[order[i]]), formattedDate)]
  {
    assert order[..i + 1][..i] == order[..i];
  }

  /** The entry one request contributes to the list: the flight with its status, or nothing. */
  function Entry(flightNumber: string, outcome: FetchOutcome): (entry: seq<Flight>)
    ensures |entry| == if outcome.Decoded? then 1 else 0
    ensures forall flight :: flight in entry ==> flight.flightNumber == flightNumber && outcome == Decoded(flight.status.status)
  {
    if outcome.Decoded? then [Flight(flightNumber, FlightStatus(outcome.status))] else []
  }

  /** The list the loop accumulates when it visits the flights in `order`
      and the i-th request comes to `outcomes[i]`. */
  function Collected(order: seq<string>, outcomes: seq<FetchOutcome>): (flights: seq<Flight>)
    requires |order| == |outcomes|
    ensures |flights| <= |order|
    decreases |order|
  {
    if order == [] then []
    else
      var n := |order| - 1;
      Collected(order[..n], outcomes[..n]) + Entry(order[n], outcomes[n])
  }

  predicate Distinct(keys: seq<string>) {
    forall i, j :: 0 <= i < j < |keys| ==> keys[i] != keys[j]
  }

  /** `order` is an order in which Go's `range` may visit the map: every key exactly once. */
  predicate IsIterationOrder(order: seq<string>, flightData: map<string, string>) {
    && Distinct(order)
    && (forall i :: 0 <= i < |order| ==> order[i] in flightData)
    && (forall k :: k in flightData ==> k in order)
  }

  /** One more request extends the list by its flight when it was decoded, and leaves it as it was otherwise. */
  lemma CollectedStep(order: seq<string>, outcomes: seq<FetchOutcome>, i: nat)
    requires |order| == |outcomes| && i < |order|
    ensures !outcomes[i].Decoded? ==> Collected(order[..i + 1], outcomes[..i + 1]) == Collected(order[..i], outcomes[..i])
    ensures outcomes[i].Decoded? ==>
              Collected(order[..i + 1], outcomes[..i + 1])
              == Collected(order[..i], outcomes[..i]) + [Flight(order[i], FlightStatus(outcomes[i].status))]
  {
    assert order[..i + 1][..i] == order[..i];
    assert outcomes[..i + 1][..i] == outcomes[..i];
    var before := Collected(order[..i], outcomes[..i]);
    assert Collected(order[..i + 1], outcomes[..i + 1]) == before + Entry(order[i], outcomes[i]);
    if !outcomes[i].Decoded? {
      assert before + [] == before;
    }
  }

  /** The collection loop. It returns the flights it collected and the URLs
      it requested, one per map entry, in visiting order. */
  method CollectStatuses(flightData: map<string, string>, order: seq<string>, formattedDate: string,
                         outcomes: seq<FetchOutcome>)
    returns (flights: seq<Flight>, requests: seq<string>)
    requires forall k :: 0 <= k < |order| ==> order[k] in flightData
    requires |outcomes| == |order|
    ensures flights == Collected(order, outcomes)
    ensures requests == RequestsFor(order, flightData, formattedDate)
  {
    flights, requests := [], [];
    for i := 0 to |order|
      invariant flights == Collected(order[..i], outcomes[..i])
      invariant requests == RequestsFor(order[..i], flightData, formattedDate)
    {
      CollectedStep(order, outcomes, i);
      RequestsStep(order, flightData, formattedDate, i);
      var flightNumber := order[i];
      var airlineCode := flightData[flightNumber];
      var flightNumberWithoutCode := GoStrings.DeleteAll(flightNumber, airlineCode);
      var url := RequestUrl(airlineCode, flightNumberWithoutCode, formattedDate);
      requests := requests + [url];
      var outcome := outcomes[i];
      if outcome.RequestError? {
        continue;
      }
      if outcome.BodyReadError? {
        continue;
      }
      if outcome.JsonError? {
        continue;
      }
      flights := flights + [Flight(flightNumber, FlightStatus(outcome.status))];
    }
    assert order[..|order|] == order;
    assert outcomes[..|outcomes|] == outcomes;
  }

  /** Visiting one batch of flights and then another collects the two lists one after the other. */
  lemma {:induction false} CollectedAppend(order1: seq<string>, outcomes1: seq<FetchOutcome>,
                                           order2: seq<string>, outcomes2: seq<FetchOutcome>)
    requires |order1| == |outcomes1| && |order2| == |outcomes2|
    ensures Collected(order1 + order2, outcomes1 + outcomes2)
            == Collected(order1, outcomes1) + Collected(order2, outcomes2)
    decreases |order2|
  {
    if order2 == [] {
      assert order1 + order2 == order1;
      assert outcomes1 + outcomes2 == outcomes1;
    } else {
      var n := |order2| - 1;
      var order, outcomes := order1 + order2, outcomes1 + outcomes2;
      var m := |order| - 1;
      assert order[..m] == order1 + order2[..n];
      assert outcomes[..m] == outcomes1 + outcomes2[..n];
      assert order[m] == order2[n] && outcomes[m] == outcomes2[n];
      assert Collected(order, outcomes) == Collected(order[..m], outcomes[..m]) + Entry(order2[n], outcomes2[n]);
      assert Collected(order2, outcomes2) == Collected(order2[..n], outcomes2[..n]) + Entry(order2[n], outcomes2[n]);
      CollectedAppend(order1, outcomes1, order2[..n], outcomes2[..n]);
      var first, middle, last := Collected(order1, outcomes1), Collected(order2[..n], outcomes2[..n]), Entry(order2[n], outcomes2[n]);
      assert (first + middle) + last == first + (middle + last);
    }
  }

  /** Failure isolation: whatever the i-th request comes to, the flights
      collected before and after it are the same; only its own entry changes. */
  lemma FailureIsolation(order: seq<string>, outcomes: seq<FetchOutcome>, i: nat, outcome: FetchOutcome)
    requires |order| == |outcomes| && i < |order|
    ensures Collected(order, outcomes[i := outcome])
            == Collected(order[..i], outcomes[..i]) + Entry(order[i], outcome)
               + Collected(order[i + 1..], outcomes[i + 1..])
  {
    var changed := outcomes[i := outcome];
    assert order == order[..i] + [order[i]] + order[i + 1..];
    assert changed == outcomes[..i] + [outcome] + outcomes[i + 1..];
    CollectedAppend(order[..i], outcomes[..i], [order[i]], [outcome]);
    assert Collected([order[i]], [outcome]) == Entry(order[i], outcome) by {
      assert [order[i]][..0] == [];
      assert [outcome][..0] == [];
    }
    CollectedAppend(order[..i] + [order[i]], outcomes[..i] + [outcome], order[i + 1..], outcomes[i + 1..]);
  }

  /** A flight is in the list exactly when some request for that flight
      number was decoded with that status; the number is the unstripped one. */
  lemma {:induction false} CollectedMembership(order: seq<string>, outcomes: seq<FetchOutcome>, flight: Flight)
    requires |order| == |outcomes|
    ensures flight in Collected(order, outcomes)
            <==> exists i :: 0 <= i < |order| && order[i] == flight.flightNumber
                               && outcomes[i] == Decoded(flight.status.status)
    decreases |order|
  {
    if order != [] {
      var n := |order| - 1;
      var earlier, entry := Collected(order[..n], outcomes[..n]), Entry(order[n], outcomes[n]);
      assert Collected(order, outcomes) == earlier + entry;
      CollectedMembership(order[..n], outcomes[..n], flight);
      if flight in earlier {
        var i :| 0 <= i < n && order[..n][i] == flight.flightNumber && outcomes[..n][i] == Decoded(flight.status.status);
        assert order[i] == flight.flightNumber && outcomes[i] == Decoded(flight.status.status);
      }
      if flight in entry {
        assert order[n] == flight.flightNumber && outcomes[n] == Decoded(flight.status.status);
      }
      if exists i :: 0 <= i < |order| && order[i] == flight.flightNumber && outcomes[i] == Decoded(flight.status.status) {
        var i :| 0 <= i < |order| && order[i] == flight.flightNumber && outcomes[i] == Decoded(flight.status.status);
        if i < n {
          assert order[..n][i] == order[i] && outcomes[..n][i] == outcomes[i];
          assert flight in earlier;
        } else {
          assert entry == [flight];
        }
      }
    }
  }

  /** The flight numbers of a list, in order. */
  function Numbers(flights: seq<Flight>): (numbers: seq<string>)
    ensures |numbers| == |flights|
    ensures forall i :: 0 <= i < |flights| ==> numbers[i] == flights[i].flightNumber
  {
    if flights == [] then [] else [flights[0].flightNumber] + Numbers(flights[1..])
  }

  lemma {:induction false} NumbersAppend(a: seq<Flight>, b: seq<Flight>)
    ensures Numbers(a + b) == Numbers(a) + Numbers(b)
  {
  }

  /** A flight number that the loop does not visit is not in the list. */
  lemma NotVisitedNotCollected(order: seq<string>, outcomes: seq<FetchOutcome>, flightNumber: string)
    requires |order| == |outcomes| && flightNumber !in order
    ensures multiset(Numbers(Collected(order, outcomes)))[flightNumber] == 0
  {
    var flights := Collected(order, outcomes);
    if flightNumber in Numbers(flights) {
      var j :| 0 <= j < |flights| && Numbers(flights)[j] == flightNumber;
      CollectedMembership(order, outcomes, flights[j]);
    }
  }

  /** With every flight visited once, each visited flight number is in the
      list once when its request was decoded and not at all when it failed. */
  lemma OncePerDecodedFlight(order: seq<string>, outcomes: seq<FetchOutcome>, i: nat)
    requires |order| == |outcomes| && Distinct(order) && i < |order|
    ensures multiset(Numbers(Collected(order, outcomes)))[order[i]] == if outcomes[i].Decoded? then 1 else 0
  {
    var k := order[i];
    FailureIsolation(order, outcomes, i, outcomes[i]);
    assert outcomes[i := outcomes[i]] == outcomes;
    var before := Collected(order[..i], outcomes[..i]);
    var after := Collected(order[i + 1..], outcomes[i + 1..]);
    NumbersAppend(before, Entry(k, outcomes[i]));
    NumbersAppend(before + Entry(k, outcomes[i]), after);
    assert k !in order[..i];
    assert k !in order[i + 1..];
    NotVisitedNotCollected(order[..i], outcomes[..i], k);
    NotVisitedNotCollected(order[i + 1..], outcomes[i + 1..], k);
  }

  /** With every flight visited once, no flight number is in the list twice. */
  lemma AtMostOncePerFlightNumber(order: seq<string>, outcomes: seq<FetchOutcome>, flightNumber: string)
    requires |order| == |outcomes| && Distinct(order)
    ensures multiset(Numbers(Collected(order, outcomes)))[flightNumber] <= 1
  {
    if flightNumber in order {
      var i :| 0 <= i < |order| && order[i] == flightNumber;
      OncePerDecodedFlight(order, outcomes, i);
    } else {
      NotVisitedNotCollected(order, outcomes, flightNumber);
    }
  }

  /** The number of requests that were decoded. */
  function DecodedCount(outcomes: seq<FetchOutcome>): nat {
    if outcomes == [] then 0
    else DecodedCount(outcomes[..|outcomes| - 1]) + (if outcomes[|outcomes| - 1].Decoded? then 1 else 0)
  }

  /** The list is exactly as long as the number of successful requests. */
  lemma {:induction false} CollectedLength(order: seq<string>, outcomes: seq<FetchOutcome>)
    requires |order| == |outcomes|
    ensures |Collected(order, outcomes)| == DecodedCount(outcomes)
    decreases |order|
  {
    if order != [] {
      CollectedLength(order[..|order| - 1], outcomes[..|outcomes| - 1]);
    }
  }
}
