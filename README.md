# Flight status digest: a verified model of its data path

The flight-status job is a Go batch program (`main.go`). It reads a spreadsheet of flights and keeps the rows dated tomorrow. It asks a flight-tracker web endpoint for each kept flight's status. It renders a short plain-text report and e-mails it. This project models the part of that program that transforms data, and proves properties of it:

- **Row filter** (`rows.dfy`, module `Rows`). Rows of cells become a map from flight number (cell 0) to airline code (cell 1). A row counts only if it has at least three cells and its date cell (cell 2) equals tomorrow's `MM-DD-YY` string. A later qualifying row overwrites an earlier one with the same flight number. The loop is the method `SelectTomorrowFlights`. It is proved against the function `Selected`, and lemmas about `Selected` give the key set, the last-write-wins value and the rows that are ignored.
- **Code strip** (`go_strings.dfy`, module `GoStrings`). `strings.Replace(flightNumber, airlineCode, "", -1)` is `DeleteAll`. It follows Go's algorithm: an empty code returns the input unchanged, and otherwise each leftmost occurrence found by `strings.Index` is dropped. It is proved equal to an independent left-to-right scan (`Scrubbed`). That gives its length in terms of the count of non-overlapping occurrences.
- **Dates** (`dates.dfy`, module `Dates`). Go's layouts `01-02-06` and `2006/01/02` are built from (year, month, day) with zero padding. Both strings can be parsed back into their components.
- **Request URL and status collection** (`fetch.dfy`, module `Fetch`). The URL is the fixed endpoint, the airline code, `/`, the stripped number, `/`, and the date. The loop over the map is the method `CollectStatuses`, including its three `continue`s. It is proved against the function `Collected`. Lemmas about `Collected` state failure isolation, membership, and that a flight appears once or not at all.
- **Report** (`report.dfy`, module `Report`). A header line is followed by one `Flight <number> Status: <status>` line per collected flight, in list order. Reading the lines back gives the list, provided no flight number contains a space.
- **Whole run** (`pipeline.dfy`, module `Pipeline`). `main`'s data path runs from the rows to the report lines. It includes the worked example in which row `AA100, AA, 06-15-24` with status "On Time" yields the line `Flight AA100 Status: On Time`.

Inputs that stand for the outside world:
- The spreadsheet rows are an input sequence.
- The two clock readings are two `Date` inputs. `main` reads the clock once for the sheet's date string (line 72) and again for the request date (line 91). The model does not assume the two readings fall on the same day.
- Go visits the map in an unspecified order. The model takes that order as an input `order`, required to list every key exactly once. No property depends on which order it is.
- Each request comes to a `FetchOutcome`: `RequestError`, `BodyReadError`, `JsonError`, or `Decoded(status)`. There is one outcome per request, in request order.

## Model

| member | source | states |
|---|---|---|
| `Rows.Selected` | main.go:81-90 | The map the row loop builds has at most one entry per row. |
| `Rows.SelectTomorrowFlights` | main.go:75-90 | The row loop builds exactly the map `Selected(rows, tomorrowDateStr)`: qualifying rows are applied in sheet order. |
| `Rows.SelectedKeys` | main.go:81-90 | A flight number is a key of the map iff some row with at least three cells, whose third cell equals tomorrow's string, has it in cell 0. |
| `Rows.SelectedLastWins` | main.go:83-87 | If row i qualifies and no later qualifying row has the same flight number, the map gives that number row i's airline code. |
| `Rows.SelectedValue` | main.go:83-87 | Every map entry comes from a qualifying row with that flight number and that airline code, and no later qualifying row has the same number. |
| `Rows.NonQualifyingRowIgnored` | main.go:82-83 | A row that is too short or has another date leaves the map as it would be without that row, wherever the row stands. |
| `Rows.ShortRowIgnored` | main.go:82 | A row with fewer than three cells never adds or changes an entry, whatever tomorrow's string is. |
| `GoStrings.Index` | main.go:97 | strings.Index returns the first position where the code occurs, or -1 exactly when it occurs nowhere. |
| `GoStrings.DeleteAll` | main.go:97 | Deleting the airline code never makes the flight number longer, and every character of the result comes from the flight number. |
| `GoStrings.DeleteAllIsScrubbed` | main.go:97 | Go's Index-driven deletion equals a left-to-right scan that skips each occurrence of the code and keeps every other character. |
| `GoStrings.DeleteAllLength` | main.go:97 | With a non-empty code, the result has `len(flightNumber) - k*len(code)` characters, where k counts non-overlapping occurrences from the left. |
| `GoStrings.DeleteAllUnchanged` | main.go:97 | The result equals the flight number iff the code is empty or does not occur. Otherwise the result is at least one code length shorter. |
| `GoStrings.CountZeroIff` | main.go:97 | The count of non-overlapping occurrences is zero iff the code occurs at no position. |
| `GoStrings.DeleteAllExample` | main.go:97 | "AA100" with code "AA" becomes "100". |
| `Text.PadDigits` | main.go:73 | time.Format's zero-padded field: only digits, at least `width` characters, and exactly `width` when the number is below 10^width. |
| `Dates.FormatMonthDayYear` | main.go:73 | The `01-02-06` string is at least 8 characters. When month and day are below 100 it is exactly 8: two digits, `-`, two digits, `-`, two digits. |
| `Dates.FormatYearMonthDay` | main.go:93 | The `2006/01/02` string is at least 10 characters. When the year is below 10000 and month and day are below 100 it is exactly 10: four digits, `/`, two digits, `/`, two digits. |
| `Dates.MonthDayYearRoundTrip` | main.go:72-73 | The `01-02-06` string of a date parses back to its month, its day and its year modulo 100. |
| `Dates.YearMonthDayRoundTrip` | main.go:91-93 | The `2006/01/02` string of a date parses back to the whole date. |
| `Dates.MonthDayYearSameString` | main.go:73 | Two dates give the same `01-02-06` string iff they agree on month, day and year modulo 100. |
| `Dates.MonthDayYearExample` | main.go:73 | 15 June 2024 formats as "06-15-24". |
| `Dates.YearMonthDayExample` | main.go:93 | 15 June 2024 formats as "2024/06/15". |
| `Fetch.RequestUrl` | main.go:99 | The URL starts with the fixed flight-tracker endpoint and ends with the date. Its length is the sum of its parts plus two separators. |
| `Fetch.RequestUrlRoundTrip` | main.go:99 | If neither the airline code nor the stripped number contains "/", the URL parses back to exactly the code, the stripped number and the date. |
| `Fetch.RequestFor` | main.go:97-99 | The URL for one map entry is no longer than the endpoint, code, flight number, date and two separators together. Its partner `Fetch.RequestForRoundTrip` reads it back. |
| `Fetch.RequestForRoundTrip` | main.go:97-99 | If neither the code nor the flight number contains "/", the URL for a map entry parses back to the code, the flight number with the code deleted, and the date. |
| `Fetch.RequestsFor` | main.go:96-99 | Visiting the keys in `order` requests one URL per key, and the k-th URL is the one built for the k-th key and its airline code. |
| `Fetch.Entry` | main.go:102-130 | One request adds at most one flight. It adds one exactly when the outcome was decoded, and that flight has the unstripped flight number and the decoded status. |
| `Fetch.Collected` | main.go:95-131 | The collected list is never longer than the number of flights visited. |
| `Fetch.CollectedStep` | main.go:102-130 | One more request leaves the list as it was when it failed, and appends its flight with the decoded status when it was decoded. |
| `Fetch.CollectStatuses` | main.go:95-131 | For any visiting order whose keys are in the map, the loop requests exactly `RequestsFor(order, ...)`: one URL per visited key, in visiting order, built from that key's stripped number. It collects exactly `Collected(order, outcomes)`: it appends a flight for a decoded outcome and skips the flight on any of the three errors. |
| `Fetch.CollectedAppend` | main.go:95-131 | Collecting over two consecutive batches of flights is the concatenation of the two batches' lists. |
| `Fetch.FailureIsolation` | main.go:102-121 | Whichever of the four outcomes the i-th request finishes with, the flights collected before and after it are unchanged. Only flight i's own entry (one flight or none) differs. |
| `Fetch.CollectedMembership` | main.go:125-130 | A flight is in the list iff some request for that unstripped flight number was decoded with that status. |
| `Fetch.NotVisitedNotCollected` | main.go:96 | A flight number the loop never visits is not in the list. |
| `Fetch.OncePerDecodedFlight` | main.go:95-131 | If each key is visited once, a visited flight number is in the list exactly once when its request was decoded, and not at all otherwise. |
| `Fetch.AtMostOncePerFlightNumber` | main.go:95-131 | If each key is visited once, no flight number is in the list twice. |
| `Fetch.CollectedLength` | main.go:102-130 | The list is as long as the number of requests that were decoded. |
| `Report.FlightLines` | main.go:21-23 | The template's range writes one line per flight, in list order, and line i is `Flight <number> Status: <status>` for flight i. |
| `Report.Line` | main.go:22 | A flight's line starts with "Flight " and is 16 characters longer than the flight number and status together. Its partner `Report.LineRoundTrip` reads it back. |
| `Report.Render` | main.go:18-24 | The report is the header "Flight Status Update:" followed by one flight line per flight, so it has N+1 lines for N flights. |
| `Report.LineRoundTrip` | main.go:22 | If the flight number has no space, its line has the shape `Flight <number> Status: <status>` and reads back to the same flight. |
| `Report.ReportRoundTrip` | main.go:18-24 | If no flight number has a space, the rendered report reads back to exactly the list of flights, in order. |
| `Pipeline.FlightStatusUpdate` | main.go:72-140 | Main's data path: the report is `Render(Collected(order, outcomes))`. The i-th request goes to the URL of the i-th visited key, using that key's airline code in the filtered map and the `2006/01/02` request date. |
| `Pipeline.ReportedIff` | main.go:81-131 | A flight is collected (the list the report is rendered from) iff some sheet row qualifies for its number and that number's request was decoded with that status. |
| `Pipeline.OtherDayRowIgnored` | main.go:72-83 | A row dated for a different month, day or two-digit year than tomorrow leaves the filtered map unchanged. |
| `Pipeline.Scenario` | main.go:81-131 | Row `AA100, AA, 06-15-24` with tomorrow 15 June 2024 gives the map {AA100: AA}, which Go's range visits as the order [AA100]. The request URL is built from AA, 100 and 2024/06/15. A decoded "On Time" yields the report header and `Flight AA100 Status: On Time`. |

## Left out

- Opening `flight_ids.xlsx` and reading "Sheet1" (main.go:66-80) are file I/O through a spreadsheet library. The model starts from the rows, and the two fatal errors there (which print and return) are not modelled.
- `time.Now().Add(24 * time.Hour)` (main.go:72, 91-92, 146) is the clock and calendar arithmetic. The dates are inputs, and a `Date` is not checked to be a real calendar date. Years are non-negative, so Go's formatting of negative years is not modelled.
- `http.Get`, `io.ReadAll` and `json.Unmarshal` (main.go:102-121) are the network and library decoding. Each request's outcome is an input. A JSON body that decodes but lacks `data.status.status` gives Go's empty string, which is `Decoded("")` here. The remaining response fields are never used and are not modelled.
- Requests that never complete are outside the model (main.go:102, 109). The default `http.Client` has no timeout and `io.ReadAll` can block, so a hung request stops all later flights and the e-mail. Failure isolation is proved only for runs in which every request finishes with one of the four outcomes.
- Go's map iteration order (main.go:96) is unspecified. It is an input that visits every key once.
- The text/template engine (main.go:137-143) is a library. The report is modelled as its non-blank lines. The template's blank lines and leading newline, and the unreachable template-error branch, are not modelled. A flight number or status containing a newline would add lines to the real e-mail body, but here each flight's line stays one element.
- `sendEmail` (main.go:146-178) is left out entirely: SMTP, TLS with certificate checks disabled, the password read from `EMAIL_PASS`, and the unused `DD-MM-YY` date argument.
- All `fmt.Println` logging is left out (main.go:68, 78, 100, 104, 111, 119, 123, 132, 142, 145).
- Go strings are byte strings, but here they are character sequences. For valid UTF-8 text, matching the airline code gives the same result on bytes and on characters.
- `GoStrings.DeleteAll` models only the one call the job makes: `strings.Replace` with an empty replacement and no limit. Inserting a non-empty replacement is not modelled.
