# Parking spots and sessions: a Dafny model

This project models the logic at the centre of the APAS parking system, in
four parts.

- **Consumer app provider** (`ParkingContext`). It keeps three things:
  - the locations, each with its `availableSpots` count;
  - the spot lists, keyed by location id;
  - the booking history, newest first.

  Its operations are `getParkingSpots`, `updateParkingSpot`,
  `addParkingSession`, `activeSession` and the countdown query
  `getRemainingTime`. The query marks an expired session Completed.
- **Booking page** (`BookParking`). It covers:
  - the duration menu and the end-time arithmetic;
  - the price, computed from a label such as `"$2.50/hr"` (characters
    stripped, `parseFloat`, `toFixed(2)`);
  - spot selection and the booking click that creates an Active session.
- **Operator dashboard**:
  - the live-occupancy store and its socket callbacks, with the fixed
    5-second retry (`ParkingStore`);
  - the map: which spots it shows, zone grouping, the cell colours and the
    connection badge (`ParkingMap`);
  - the spot-card component (`SpotCards`);
  - the spots page: filters, badges and the time column (`SpotsPage`).
- **Mock detection server** (`MockFeed`). It models:
  - `generate_mock_parking_data` and the toggle between rounds of
    `send_mock_updates`;
  - the ping/pong handler;
  - how a round's snapshot repaints the live dashboard map. Only cells
    numbered "0" to "9" are repainted: the dashboard's generated spot numbers
    are zero-padded ("01", "02", …), and no key of the form `spot_01` is ever
    in a snapshot.

Every React state update and every socket callback is a pure function from
the state before to the state after. Time is a parameter, as an integer
number of epoch milliseconds. Prices are exact decimals; amounts are
integer cents. `Wrappers`, `Seqs` and `Decimal` are small shared helpers:
`Option`, first-match search and filtering, and decimal printing and
parsing of naturals.

Some behaviours of the code are easy to misread:

- `updateParkingSpot` is not idempotent. The location count it writes is
  computed from the spot list as it was BEFORE the call, moved by one in the
  direction of the flag, and clamped at zero. It is not a re-scan of the new
  list. Taking an already taken spot again still lowers the count. An
  unknown spot id still moves the count. See `RetakeBreaksCount`,
  `UpdateNotIdempotent` and `UnknownSpotStillMovesCount`.
- The seeded `availableSpots` values (12, 5, 20, 8) disagree with the seeded
  spot lists, which have 5, 4, 7 and 2 free spots.
  - Booking Downtown spot 3 therefore reports 4, not 12 − 1.
  - The amount stored is `"CAD $2.50"`.
- A feed message replaces the whole live map with whatever it parsed to.
  Values are not filtered, and old keys are not kept.
- The spots page says "Expired" at the end instant itself. The card
  component does so only after the end instant.
- `addParkingSession` finds the location to update by zone, not by id. If
  two locations share a zone, booking at the later one marks the spot
  number in the earlier one's list (`SharedZoneMarksOtherLocation`). The
  seeded locations all have different zones.
- The map's fallback colour looks a spot number up among the spots of ALL
  locations. A spot at another location that comes first with the same
  number decides the cell (`EarlierSpotDecidesCell`).
- The dashboard's generated spot numbers are zero-padded ("01"), while the
  mock server's keys are `spot_0` to `spot_9`. The live map therefore never
  finds a generated spot in a snapshot (`PaddedNumbersMissFeed`).

## Model

| member | source | states |
|---|---|---|
| ParkingContext.GetParkingSpots | parkingapp/src/context/ParkingContext.tsx:236-238 | a known location yields its stored list; an unknown one yields the empty list |
| ParkingContext.SetSpot | parkingapp/src/context/ParkingContext.tsx:243-252 | same length; only the first spot with the id changes; that spot keeps its id and accessibility and takes the new flag, with status "taken" exactly when the flag is set; an absent id leaves every spot as it was |
| ParkingContext.AvailableAfter | parkingapp/src/context/ParkingContext.tsx:264-268 | taking a spot writes the pre-call free count minus one, clamped at zero; releasing one writes the pre-call free count plus one |
| ParkingContext.UpdateParkingSpot | parkingapp/src/context/ParkingContext.tsx:241-274 | history untouched; the location's list becomes the pre-call list with the spot set, and an unknown location gains an entry; other lists are untouched; locations with another id are unchanged; locations with this id change only their count, to the clamped pre-call count |
| ParkingContext.CountFreeAfterSetSpot | parkingapp/src/context/ParkingContext.tsx:243-265 | setting an existing spot moves the free count by exactly that spot's change of flag |
| ParkingContext.FlipMakesCountConsistent | parkingapp/src/context/ParkingContext.tsx:241-274 | after a call that really flips an existing spot, the location's count equals the free spots of its new list |
| ParkingContext.RetakeBreaksCount | parkingapp/src/context/ParkingContext.tsx:241-274 | taking an already taken spot leaves the list's free count as it was but reports one fewer |
| ParkingContext.UpdateNotIdempotent | parkingapp/src/context/ParkingContext.tsx:241-274 | the same take applied twice lowers the reported count twice |
| ParkingContext.SetSpotKeepsIds | parkingapp/src/context/ParkingContext.tsx:244-252 | setting a spot keeps the position of the first spot with that id |
| ParkingContext.UnknownSpotStillMovesCount | parkingapp/src/context/ParkingContext.tsx:243-268 | an absent spot id leaves the list as it was, creates an empty list for an unknown location, and still moves the count by one (clamped at zero when taking) |
| ParkingContext.LocationForZone | parkingapp/src/context/ParkingContext.tsx:228 | none exactly when no location has the zone; otherwise the first location of the list with that zone |
| ParkingContext.ActiveSession | parkingapp/src/context/ParkingContext.tsx:212 | none exactly when no entry is Active; otherwise the first Active entry of the history |
| ParkingContext.AddParkingSession | parkingapp/src/context/ParkingContext.tsx:215-233 | the session is prepended with its own id, or the generated id when its id is empty; with a zero spot or no location for its zone nothing else changes; otherwise the result is the spot update of the zone's first location, marking the spot taken |
| ParkingContext.AddedActiveSessionIsActive | parkingapp/src/context/ParkingContext.tsx:212-223 | a newly added Active session becomes the active session, whatever the history held |
| ParkingContext.Decompose | parkingapp/src/context/ParkingContext.tsx:292-294 | the split of a positive span has minutes and seconds below 60, and its total in ms is within the last second of the span |
| ParkingContext.DecomposeUnique | parkingapp/src/context/ParkingContext.tsx:292-294 | any hours/minutes/seconds triple with minutes and seconds below 60, within a second below the span, is the split |
| ParkingContext.CompleteSessions | parkingapp/src/context/ParkingContext.tsx:288 | every entry with the id becomes Completed and nothing else about any entry changes |
| ParkingContext.GetRemainingTime | parkingapp/src/context/ParkingContext.tsx:276-297 | a countdown exactly when the session is found, Active, with a nonzero end still ahead; the countdown satisfies the split bounds; on expiry every entry with the id turns Completed; otherwise the state is unchanged; locations and spot lists are never touched |
| ParkingContext.ExpiryIsFinal | parkingapp/src/context/ParkingContext.tsx:278-289 | once a query has expired a session, every later query yields nothing and changes nothing |
| ParkingContext.LastSecondCountdown | parkingapp/src/context/ParkingContext.tsx:284-296 | one second before the end the countdown is 0h 0m 1s; at the end there is none and the session reads Completed |
| ParkingContext.CompletedStaysCompleted | parkingapp/src/context/ParkingContext.tsx:288 | no query turns a Completed entry into anything else |
| ParkingContext.InitialCountsDisagree | parkingapp/src/context/ParkingContext.tsx:68-157 | every seeded location's count differs from the free spots of its seeded list |
| ParkingContext.InitialFreeCounts | parkingapp/src/context/ParkingContext.tsx:120-157 | the seeded lists have 5, 4, 7 and 2 free spots |
| ParkingContext.InitiallyNoActiveSession | parkingapp/src/context/ParkingContext.tsx:160-212 | the seeded history has no active session |
| BookParking.DefaultDurationIsOffered | parkingapp/src/pages/BookParkingPage.tsx:28-37 | the initial 60 minutes is one of the menu choices, and every choice is positive |
| BookParking.UpdateEndTime | parkingapp/src/pages/BookParkingPage.tsx:43-45 | the end lies exactly the duration, in ms, after the start |
| BookParking.KeepRateChars | parkingapp/src/pages/BookParkingPage.tsx:54 | the stripped label holds only digits and dots, each digit and dot of the label exactly as often as in the label, and no other character |
| BookParking.KeepRateCharsIsFilter | parkingapp/src/pages/BookParkingPage.tsx:54 | stripping equals the order-keeping filter for digits and dots, so the kept characters are an ordered subsequence of the label |
| BookParking.KeepRateCharsAppend | parkingapp/src/pages/BookParkingPage.tsx:54 | stripping distributes over concatenation |
| BookParking.KeepRateCharsIdentity | parkingapp/src/pages/BookParkingPage.tsx:54 | a string of digits and dots is left unchanged |
| BookParking.ParseRate | parkingapp/src/pages/BookParkingPage.tsx:54 | NaN exactly when the string neither starts with a digit nor starts with a dot followed by a digit; otherwise a decimal whose scale is bounded by the length (its value: `ParseRateWithDot`, `ParseRateWhole`) |
| BookParking.ParseRateWithDot | parkingapp/src/pages/BookParkingPage.tsx:54 | digits a, a dot, digits b and a tail not starting with a digit parse to the number ab scaled by the length of b; the tail is ignored |
| BookParking.ParseRateWhole | parkingapp/src/pages/BookParkingPage.tsx:54 | digits followed by a tail starting with neither a digit nor a dot parse to that whole number |
| BookParking.RoundHalfUp | parkingapp/src/pages/BookParkingPage.tsx:56 | the result is the nearest whole number to the quotient, halves rounding up |
| BookParking.PriceCents | parkingapp/src/pages/BookParkingPage.tsx:53-57 | the cents are the price rate × minutes / 60 in dollars rounded to the nearest cent, halves up |
| BookParking.WholeHoursPrice | parkingapp/src/pages/BookParkingPage.tsx:54-56 | whole hours at a rate in cents cost exactly rate times hours |
| BookParking.FormatCents | parkingapp/src/pages/BookParkingPage.tsx:56 | the printed amount is well formed: whole-part digits with no superfluous leading zero, a dot, exactly two digits, nothing else |
| BookParking.FormatCentsRoundTrip | parkingapp/src/pages/BookParkingPage.tsx:54-56 | parsing a printed amount back gives the cents at scale 2 |
| BookParking.AmountTextUnique | parkingapp/src/pages/BookParkingPage.tsx:56 | a well-formed amount text that parses to c cents is exactly the printed amount for c, so printing is pinned by its round trip |
| BookParking.CalculatePrice | parkingapp/src/pages/BookParkingPage.tsx:53-57 | "$NaN" exactly when the stripped label does not parse; otherwise "$" followed by a well-formed amount text that parses back to the rounded price, which makes it the printed price itself |
| BookParking.HourlyLabelPrice | parkingapp/src/pages/BookParkingPage.tsx:53-57 | a label "$d.cc/hr" charged for whole hours prints rate times hours |
| BookParking.HandleSpotSelection | parkingapp/src/pages/BookParkingPage.tsx:59-64 | the selection moves to the spot exactly when its first entry exists and is free; otherwise it stays |
| BookParking.ResolveLocation | parkingapp/src/pages/BookParkingPage.tsx:17 | the first location with the route's id if any, else the first location; none only for an empty list |
| BookParking.HandleBooking | parkingapp/src/pages/BookParkingPage.tsx:66-105 | no session exactly when no nonzero spot is selected; otherwise an Active session with the selected spot, the location's zone, name and address, start and end timestamps a duration apart, the caller's formatted time and date labels, and amount "CAD " plus the price |
| BookParking.Book | parkingapp/src/pages/BookParkingPage.tsx:66-105 | without a selection, with spot 0, or with no locations, the state is unchanged |
| BookParking.TakenSpotRefused | parkingapp/src/pages/BookParkingPage.tsx:59-67 | clicking a taken spot selects nothing, and booking then leaves the state unchanged |
| BookParking.BookFreeSpot | parkingapp/src/pages/BookParkingPage.tsx:59-100 | at a location that is the first with its zone (the other case is `SharedZoneMarksOtherLocation`), booking a free spot adds one Active session with the given id and spot, the computed amount and the end a duration after the start; it becomes the active session; the spot is set taken in place; the list's free count drops by one and the location reports exactly that count |
| BookParking.SharedZoneMarksOtherLocation | parkingapp/src/context/ParkingContext.tsx:226-231 | when an earlier location shares the booked location's zone, booking leaves the booked list alone and takes the spot number in that earlier location's list |
| BookParking.SessionMarksZoneLocation | parkingapp/src/context/ParkingContext.tsx:226-231 | adding a session with a spot changes only the spot list of the first location with the session's zone |
| BookParking.DowntownHourPrice | parkingapp/src/pages/BookParkingPage.tsx:53-57 | "$2.50/hr" for 60 minutes costs "$2.50" |
| BookParking.DowntownBooking | parkingapp/src/pages/BookParkingPage.tsx:59-100 | from the seeded state, booking Downtown spot 3 for an hour yields session "42", Active, "CAD $2.50", ending an hour later; spot 3 is taken and Downtown reports 4 |
| BookParking.DowntownCountdown | parkingapp/src/context/ParkingContext.tsx:276-297 | after that booking, one second remains at t0 + 3599 s; at t0 + 3600 s there is no countdown and the session reads Completed |
| ParkingStore.InitialStore | parkingwebsite/src/store/parkingStore.ts:14-16 | the store starts with an empty map, disconnected |
| ParkingStore.UpdateSpotStatus | parkingwebsite/src/store/parkingStore.ts:17 | the map becomes exactly the given one; the connection status is kept |
| ParkingStore.SetWebsocketStatus | parkingwebsite/src/store/parkingStore.ts:18 | only the connection status changes |
| ParkingStore.OnEvent | parkingwebsite/src/store/parkingStore.ts:29-54 | an open sets connected, an error sets error, and a close sets disconnected and schedules one 5000 ms retry; a parsed message replaces the map; an unparseable one changes nothing |
| ParkingStore.InitWebSocket | parkingwebsite/src/store/parkingStore.ts:22-63 | a socket comes back exactly when the constructor does not throw; a throw sets error and schedules one 5000 ms retry; the map is never touched |
| ParkingStore.RunMatchesReference | parkingwebsite/src/store/parkingStore.ts:29-54 | after any event run, the map is the last parsed payload and the status is the one the last connection event set; exactly one 5000 ms retry is scheduled per close |
| ParkingStore.MessagesKeepStatus | parkingwebsite/src/store/parkingStore.ts:34-43 | a run of messages never changes the connection status or schedules anything |
| ParkingStore.CloseThenReconnect | parkingwebsite/src/store/parkingStore.ts:29-54 | open, close, open ends connected with exactly one retry scheduled and the map kept |
| ParkingStore.FullReplaceDropsOldKeys | parkingwebsite/src/store/parkingStore.ts:17 | a payload for spots 1 and 2 wipes an earlier entry for spot 3 |
| ParkingMap.LocationSpots | parkingwebsite/src/components/ParkingMap.tsx:27 | exactly the spots with the location id, in their order, each as often as in the input |
| ParkingMap.LiveIffUniversityWithSpots | parkingwebsite/src/components/ParkingMap.tsx:27-28 | the feed is consulted exactly when the map shows loc4 and loc4 has a spot |
| ParkingMap.ZoneKey | parkingwebsite/src/components/ParkingMap.tsx:33 | the key is the zone's prefix up to, and without, its first '-' |
| ParkingMap.AddToGroups | parkingwebsite/src/components/ParkingMap.tsx:32-38 | keys stay distinct; the spot is appended to its key's group, or opens a new group at the end; other groups are unchanged |
| ParkingMap.GroupByZone | parkingwebsite/src/components/ParkingMap.tsx:31-38 | keys distinct; each group is non-empty and holds exactly the spots with its key, in order; every spot's key has a group |
| ParkingMap.StatusColor | parkingwebsite/src/components/ParkingMap.tsx:54-65 | green exactly for available, red exactly for occupied, yellow exactly for reserved, dark gray exactly for maintenance; never the unknown-spot gray |
| ParkingMap.StaticColor | parkingwebsite/src/components/ParkingMap.tsx:54-65 | light gray exactly when no spot in the whole list has the number; otherwise the status colour of the first spot in the whole list with that number |
| ParkingMap.GetStatusColor | parkingwebsite/src/components/ParkingMap.tsx:40-66 | on the live map, a feed value "occupied" paints red and "empty" paints green; any other case falls back to the static colour |
| ParkingMap.CellColors | parkingwebsite/src/components/ParkingMap.tsx:104-117 | one colour per shown spot, listed in location order rather than zone-group render order; each cell has `getStatusColor` of its number, live exactly on loc4; outside loc4 that is the static colour |
| ParkingMap.EarlierSpotDecidesCell | parkingwebsite/src/components/ParkingMap.tsx:54 | outside loc4 a cell takes the status colour of the first spot anywhere with its number, even one at another location |
| ParkingMap.ForeignSpotPaintsCell | parkingwebsite/src/components/ParkingMap.tsx:54 | an occupied "01" at loc1 listed before a free "01" at loc2 paints loc2's only cell red |
| ParkingMap.OtherLocationsIgnoreFeed | parkingwebsite/src/components/ParkingMap.tsx:40-66 | outside loc4 the feed has no influence on any cell |
| ParkingMap.ConnectionBadge | parkingwebsite/src/components/ParkingMap.tsx:72-99 | "Live" exactly when connected; "Connection Error" exactly on error; otherwise "Connecting..." |
| ParkingMap.BadgeAfterEvents | parkingwebsite/src/components/ParkingMap.tsx:72-99 | after any events the badge reads "Live" exactly when the last connection event was an open |
| SpotCards.BadgeFor | parkingwebsite/src/components/ParkingSpots.tsx:15-30 | red exactly for an expired occupied spot or status "expired"; blue for occupied and not expired; green for available |
| SpotCards.Label | parkingwebsite/src/components/ParkingSpots.tsx:44 | the raw status unless the spot is shown expired; the label reads "Expired" exactly when the spot is shown expired (for statuses other than "Expired") |
| SpotCards.LabelAndBadgeAgree | parkingwebsite/src/components/ParkingSpots.tsx:15-48 | a relabelled card is red; a card showing "Ends at" is red exactly when its end time has passed |
| SpotCards.ExpiryIsStrict | parkingwebsite/src/components/ParkingSpots.tsx:9-13 | at the end instant an occupied card is still blue; one millisecond later it is red |
| SpotsPage.FilteredSpots | parkingwebsite/src/pages/ParkingSpots.tsx:11-15 | an ordered subsequence holding exactly the spots that pass both filters, each as often as in the input |
| SpotsPage.AllAllKeepsEverything | parkingwebsite/src/pages/ParkingSpots.tsx:11-15 | with both selects on "all" every spot is listed |
| SpotsPage.BadgeFor | parkingwebsite/src/pages/ParkingSpots.tsx:17-30 | green exactly for available, red exactly for occupied, yellow exactly for reserved, gray exactly for maintenance |
| SpotsPage.TimeRemaining | parkingwebsite/src/pages/ParkingSpots.tsx:32-43 | "N/A" exactly without an end; "Expired" exactly when the end is at or before now; otherwise the distance to a future end |
| SpotsPage.TimeColumn | parkingwebsite/src/pages/ParkingSpots.tsx:129-136 | a dash exactly for non-occupied spots; otherwise the time remaining |
| SpotsPage.EndSessionWithTime | parkingwebsite/src/pages/ParkingSpots.tsx:129-150 | the "End Session" button appears exactly on the rows whose time column shows a time remaining: the occupied ones |
| SpotsPage.ExpiryBoundaryDisagrees | parkingwebsite/src/pages/ParkingSpots.tsx:38-40 | the table says "Expired" exactly when the card component does, or at the end instant itself |
| MockFeed.SpotKeyInjective | parkingdetection/testing.py:11 | different indices give different keys "spot_i" |
| MockFeed.Snapshot | parkingdetection/testing.py:11 | the comprehension over distinct keys has exactly those keys; key number i is "occupied" or "empty" by its parity |
| MockFeed.SnapshotUpToIsSnapshot | parkingdetection/testing.py:11 | the spot-by-spot construction equals the comprehension over "spot_0" to "spot_{n-1}" |
| MockFeed.GenerateMockParkingData | parkingdetection/testing.py:7-11 | exactly ten keys, "spot_0" to "spot_9"; each is "occupied" when its index has the toggle's parity and "empty" otherwise |
| MockFeed.SpotValueOccupied | parkingdetection/testing.py:11 | a spot reads "occupied" exactly when its index has the toggle's parity |
| MockFeed.ToggleParity | parkingdetection/testing.py:31-34 | the toggle of round r is r mod 2 |
| MockFeed.ConsecutiveRoundsFlip | parkingdetection/testing.py:31-34 | between consecutive rounds every spot's value flips between "occupied" and "empty" |
| MockFeed.GeneratedFlip | parkingdetection/testing.py:9-11 | complementary toggles give each spot complementary values |
| MockFeed.OccupiedCount | parkingdetection/testing.py:11 | the occupied keys are as many as the indices of the toggle's parity; all others are empty |
| MockFeed.CountParityHalf | parkingdetection/testing.py:7-11 | over an even number of indices each parity occurs for half of them |
| MockFeed.FiveAndFive | parkingdetection/testing.py:7-11 | every round reports five occupied and five empty spots |
| MockFeed.PingReply | parkingdetection/testing.py:21-23 | a reply exactly for "ping", and it is "pong" |
| MockFeed.SnapshotPaintsLiveMap | parkingwebsite/src/components/ParkingMap.tsx:40-50 | once the dashboard receives round r's snapshot, the live cell with the unpadded number i (0 to 9) is red when i and r have the same parity and green otherwise |
| MockFeed.PaddedNumbersMissFeed | parkingwebsite/src/data/mockData.ts:60 | no spot number of two or more characters, such as the dashboard's zero-padded "01", has a key in any snapshot |
| MockFeed.SnapshotLeavesPaddedCells | parkingwebsite/src/components/ParkingMap.tsx:40-50 | after any round's snapshot, a live cell with a number of two or more characters keeps its static colour |

## Left out

- Display-only fields: location distance, rating and image; the spot's zone
  detail beyond its key. No rule reads them.
- Locale formatting (`toLocaleTimeString`, `toLocaleDateString`) is an opaque
  `Labels` parameter. The `formatDistanceToNow` text is the `Distance`
  case, which carries the end instant.
- The clock (`new Date()`), `Math.random` session ids and the socket itself
  are parameters: `now`, `start`, `sessionId`, `generatedId`, the event
  sequence and `constructorThrows`.
- Console logging and the `print` calls of the mock server have no effect on
  state, so they are not modelled.
- `setTimeout` is an emitted `ScheduleInit(5000)` action. Running it is the
  caller's next `InitWebSocket`.
- React's `useEffect` timing, the socket cleanup on unmount and the render
  cadence are not modelled.
- The client set, `asyncio.gather` fan-out and the 5-second sleep of the mock
  server are not modelled. A round is an index; every client receives the
  same snapshot.
- JSON parsing is a parsed frame: a flat string map or unparseable. Non-object
  JSON values and non-string values are not modelled.
- `Object.entries` order of the zone groups: groups are kept in
  first-appearance order, which is that order for non-numeric keys.
- `parkingdetection/main.py` (the camera detector) is not part of this model.
- The `Upcoming` session status exists in the data model but no modelled
  operation produces it.
- Date parsing of the dashboard's `endTime` / `occupiedUntil` strings: both
  are integer instants. An unparseable date is not modelled.
- BookParking.CalculatePrice: `parseFloat` and `toFixed(2)` are computed
  exactly on decimals, with halves rounded up. IEEE-754 rounding errors
  (e.g. `1.005` printing as `1.00`) and amounts of 10^21 or more (printed
  in exponent form) are not modelled.
- BookParking.ParseRate: parses only the digits-and-dots strings that the
  stripping step produces. Signs, exponents and "Infinity" cannot occur after
  stripping.
- BookParking.ResolveLocation: `Number.parseInt` of the route parameter is
  taken as already done; the location id is an integer parameter.
- MockFeed.SnapshotPaintsLiveMap: promises colours only for the unpadded
  numbers "0" to "9" that the mock server sends. The dashboard's own spot
  numbers are zero-padded, so the model shows they are never repainted
  (`SnapshotLeavesPaddedCells`) rather than assuming matching numbers.
