# Map Route Explorer — a verified model of its core

Map Route Explorer plans routes between places on a map. It has two clients:

- a Java desktop application, with a Swing map panel and a JavaFX WebView panel, that asks an OSRM server for routes;
- a TypeScript/React web client that keeps its state in small stores and asks OSRM or Google Directions for routes, Overpass for points of interest, and a chat workflow for spoken-style commands.

This project models, in Dafny, the deterministic logic both clients are built around, and proves properties of it:

- **Domain values** (`location.dfy`, `transport.dfy`, `route.dfy`, `route_utils.dfy`). The desktop `Location` has coordinate-only equality and hash. `TransportMode` has its API-code lookup. `Route` carries its waypoint list and formatting. `RouteUtils` does validation, totals, h/m/s formatting, point thinning and the centroid.
- **Encoded polylines** (`polyline.dfy`). The Java decoder and the lenient TypeScript decoder of the Encoded Polyline Algorithm Format work on the 1e-5 integer lattice. An encoder is defined so that the round trip can be stated. The format's published example is decoded exactly.
- **Routing requests and replies** (`json.dfy`, `osrm_client.dfy`, `osrm_web.dfy`, `google_directions.dfy`):
  - the OSRM coordinate path and the ordered validation of a route reply, with its bounds;
  - the web client's OSRM reply assembly;
  - Google Directions leg and step aggregation, and the polyline-source priority.
- **Desktop map panels** (`map_panel.dfy`, `map_panel_webview.dfy`):
  - the zoom clamps, and the linear screen/geo projection with its inverse;
  - the selection list;
  - the `drawRoute` script, and the parsing of the click payload polled from the page.
- **Web client state** (`route_store.dfy`, `map_store.dfy`, `search_store.dfy`, `poi_store.dfy`, `map_events.dfy`, `chat.dfy`, `location_search.dfy`):
  - the route, map, search and POI stores as records with transition functions;
  - the three reducers that drive them: map clicks, chat replies, and the search panel's stop fields.
  - Together they follow one protocol. A stop at (0, 0) is blank. `waitingForInput` names the field the next pick fills. At most five stops are chosen.
- **Points of interest** (`poi_service.dfy`, `poi_query.dfy`). This covers the query boxes, the Overpass element parser, the viewport box, change detection, and the nearest-30 selection.
- **Serialisers** (`gpx_export.dfy`, `maps_link.dfy`). These are the GPX export text, the JSON export object, the file names, and the Google Maps directions link.

`wrappers.dfy`, `numeric.dfy` and `text.dfy` hold the shared vocabulary:

- `Option` and `Result`;
- Java's truncating casts, division and remainder;
- decimal numerals, `%.Nf`/`toFixed`, splitting and joining, and percent-encoding.

Coordinates and distances are `real` (exact, not IEEE doubles). Several things the source takes from outside become parameters of the model:

- The Haversine distance `Location.distanceTo` is a function argument `dist`.
- JavaScript's default number-to-text conversion and Java's `Double.parseDouble` are function arguments constrained to produce numeral characters.
- The clock (`Date.now()`, `new Date().toISOString()`) is a plain argument.
- The POI store's area queries, which `usePOIs` calls but `poi.store.ts` does not define, are fields of the query input.
- HTTP replies are inputs.

## Model

| member | source | states |
|---|---|---|
| Locations.DefaultLocation | src/main/java/pt/iscteiul/maprouteexplorer/model/Location.java:30-35 | the no-argument constructor places the location at latitude 0, longitude 0 with an empty name and address |
| Locations.At | src/main/java/pt/iscteiul/maprouteexplorer/model/Location.java:43-48 | the coordinate constructor keeps both coordinates and leaves name and address empty |
| Locations.SetLatitude | src/main/java/pt/iscteiul/maprouteexplorer/model/Location.java:79-81 | the setter changes the latitude and leaves longitude, name and address as they were |
| Locations.SetLongitude | src/main/java/pt/iscteiul/maprouteexplorer/model/Location.java:97-99 | the setter changes the longitude and leaves the other three fields as they were |
| Locations.SetName | src/main/java/pt/iscteiul/maprouteexplorer/model/Location.java:115-117 | the setter changes the name and leaves the coordinates and address as they were |
| Locations.SetAddress | src/main/java/pt/iscteiul/maprouteexplorer/model/Location.java:133-135 | the setter changes the address and leaves the coordinates and name as they were |
| Locations.Equals | src/main/java/pt/iscteiul/maprouteexplorer/model/Location.java:175-182 | equality holds exactly when the other object is a location with the same latitude and longitude; null and objects of other classes are never equal |
| Locations.EqualsReflexive | src/main/java/pt/iscteiul/maprouteexplorer/model/Location.java:175-182 | every location equals itself |
| Locations.EqualsSymmetric | src/main/java/pt/iscteiul/maprouteexplorer/model/Location.java:175-182 | equality does not depend on which side is asked |
| Locations.EqualsTransitive | src/main/java/pt/iscteiul/maprouteexplorer/model/Location.java:175-182 | equality is transitive, so it is an equivalence on locations |
| Locations.EqualsIgnoresLabels | src/main/java/pt/iscteiul/maprouteexplorer/model/Location.java:175-182 | changing the name or address of a location never changes whether it is equal to another |
| Locations.WrapInt32 | src/main/java/pt/iscteiul/maprouteexplorer/model/Location.java:191 | Java int addition yields a value in the 32-bit range that is congruent to the exact sum modulo 2^32, and equal to it when the sum already fits |
| Locations.HashCode | src/main/java/pt/iscteiul/maprouteexplorer/model/Location.java:190-192 | the hash code is a 32-bit value congruent modulo 2^32 to the sum of the two coordinate hashes |
| Locations.HashConsistentWithEquals | src/main/java/pt/iscteiul/maprouteexplorer/model/Location.java:175-192 | equal locations have equal hash codes, whatever Double.hashCode returns |
| TransportModes.AverageSpeed | src/main/java/pt/iscteiul/maprouteexplorer/model/TransportMode.java:20-34 | every mode has a strictly positive average speed (50, 5 and 15 km/h) |
| TransportModes.ApiCode | src/main/java/pt/iscteiul/maprouteexplorer/model/TransportMode.java:20-34 | driving goes to OSRM as "car", walking as "foot" and cycling as "bike", each code belonging to exactly one mode |
| TransportModes.DisplayName | src/main/java/pt/iscteiul/maprouteexplorer/model/TransportMode.java:20-34 | the Portuguese names "Automóvel", "A pé" and "Bicicleta" belong to driving, walking and cycling respectively, and to no other mode |
| TransportModes.ToString | src/main/java/pt/iscteiul/maprouteexplorer/model/TransportMode.java:106-109 | a mode prints as its non-empty Portuguese display name |
| TransportModes.FindByCode | src/main/java/pt/iscteiul/maprouteexplorer/model/TransportMode.java:93-97 | the linear search returns a listed mode carrying the requested code, and returns nothing exactly when no listed mode carries it |
| TransportModes.FromApiCode | src/main/java/pt/iscteiul/maprouteexplorer/model/TransportMode.java:92-99 | a lookup succeeds with a mode whose code is the argument, and fails, with the message "Código de API inválido: " followed by the code, exactly when the code is none of car, foot and bike |
| TransportModes.AllModesComplete | src/main/java/pt/iscteiul/maprouteexplorer/model/TransportMode.java:93 | the list the lookup walks contains every mode |
| TransportModes.ApiCodesDistinct | src/main/java/pt/iscteiul/maprouteexplorer/model/TransportMode.java:20-34 | no two modes share an OSRM profile code |
| TransportModes.FromApiCodeRoundTrip | src/main/java/pt/iscteiul/maprouteexplorer/model/TransportMode.java:63-65 | looking a mode up by its own code returns that mode |
| Routes.NewRoute | src/main/java/pt/iscteiul/maprouteexplorer/model/Route.java:36-42 | a new route has no waypoints or instructions, zero totals and the driving mode |
| Routes.RouteOf | src/main/java/pt/iscteiul/maprouteexplorer/model/Route.java:49-55 | a route built from a waypoint list holds exactly those waypoints, with no instructions, zero totals and the driving mode |
| Routes.IsEmptyIffNoWaypoints | src/main/java/pt/iscteiul/maprouteexplorer/model/Route.java:199-210 | a route is empty exactly when its waypoint count is zero |
| Routes.AddWaypoint | src/main/java/pt/iscteiul/maprouteexplorer/model/Route.java:80-82 | adding a waypoint grows the count by one, puts the new location last, keeps the earlier waypoints in order and changes nothing else |
| Routes.SetWaypoints | src/main/java/pt/iscteiul/maprouteexplorer/model/Route.java:71-73 | replacing the waypoints changes nothing else in the route |
| Routes.SetInstructions | src/main/java/pt/iscteiul/maprouteexplorer/model/Route.java:134-136 | replacing the instructions changes nothing else in the route |
| Routes.AddInstruction | src/main/java/pt/iscteiul/maprouteexplorer/model/Route.java:143-145 | adding an instruction appends it after the existing ones and changes nothing else |
| Routes.Clear | src/main/java/pt/iscteiul/maprouteexplorer/model/Route.java:215-220 | clearing leaves an empty route with no instructions and zero totals, and keeps the transport mode |
| Routes.ClearIdempotent | src/main/java/pt/iscteiul/maprouteexplorer/model/Route.java:215-220 | clearing twice is the same as clearing once |
| Routes.ClearIsFresh | src/main/java/pt/iscteiul/maprouteexplorer/model/Route.java:36-42 | a cleared route equals a new route in the same transport mode |
| Numeric.Trunc | src/main/java/pt/iscteiul/maprouteexplorer/model/Route.java:184-185 | Java's int cast of a double rounds toward zero: the result never has a larger magnitude than the value and is less than one away from it |
| Numeric.FMod | src/main/java/pt/iscteiul/maprouteexplorer/model/Route.java:185 | Java's remainder on doubles lies in [0, m) for a non-negative dividend and in (-m, 0] for a negative one |
| Numeric.TruncDiv | src/main/java/pt/iscteiul/maprouteexplorer/model/Route.java:184 | for a non-negative duration, the int cast of d / k is the integer quotient of its whole part by k |
| Numeric.TruncModDiv | src/main/java/pt/iscteiul/maprouteexplorer/model/Route.java:185 | for a non-negative duration, the int cast of (d % k) / j is the integer remainder of its whole part by k, divided by j |
| Routes.DurationParts | src/main/java/pt/iscteiul/maprouteexplorer/model/Route.java:184-185 | for a non-negative duration the hours and minutes are the whole hours and the whole minutes of the remaining hour; for a negative one both are at most zero and the minutes exceed -60 |
| Routes.DurationPartsBracket | src/main/java/pt/iscteiul/maprouteexplorer/model/Route.java:184-185 | the printed hours and minutes are at most the duration and fall short of it by less than one minute, with minutes below 60 |
| Routes.FormattedDuration | src/main/java/pt/iscteiul/maprouteexplorer/model/Route.java:183-192 | a duration of an hour or more prints as "H h M min" and a shorter one as "M min", where H and M are the whole hours and leftover whole minutes; seconds are never printed |
| Routes.FormattedDistance | src/main/java/pt/iscteiul/maprouteexplorer/model/Route.java:170-176 | below 1000 m the text ends in " m" and its number reads back to within half a metre; otherwise it ends in " km" and its two-decimal number reads back to within 0.005 km of the distance |
| Text.FixedWithUnit | src/main/java/pt/iscteiul/maprouteexplorer/model/Route.java:172-174 | a fixed-point number followed by a unit: cutting the unit off leaves a decimal that reads back to within half a unit in its last place |
| Text.NatToStringValue | src/main/java/pt/iscteiul/maprouteexplorer/model/Route.java:188-190 | the digits printed for a whole number by %d or template interpolation read back as that number |
| Text.FixedValue | src/main/java/pt/iscteiul/maprouteexplorer/model/Route.java:172-174 | a fixed-point rendering with N decimals (Java %.Nf, JavaScript toFixed) is a well-formed decimal whose value is within half a unit in the N-th place of the number printed |
| Text.JavaTrim | src/main/java/pt/iscteiul/maprouteexplorer/ui/MapPanelWebView.java:282 | String.trim returns a contiguous piece of its input whose first and last characters are above the space character, and returns an already-trimmed string unchanged |
| Text.JavaTrimIs | src/main/java/pt/iscteiul/maprouteexplorer/ui/MapPanelWebView.java:282 | String.trim removes exactly the leading and trailing characters up to the space: for any cut points with only such characters outside them and characters above the space at both ends of the kept piece, trim returns that piece |
| Text.IndexOf | src/main/java/pt/iscteiul/maprouteexplorer/ui/MapPanelWebView.java:285-291 | indexOf returns the first position at or after the start where the pattern occurs, or -1 exactly when it occurs nowhere from there |
| Text.IndexOfIs | src/main/java/pt/iscteiul/maprouteexplorer/ui/MapPanelWebView.java:285-291 | any position that matches, with no match between the start and it, is what indexOf returns |
| Text.SplitJoin | src/utils/google-maps.utils.ts:30 | splitting a joined list at its one-character separator gives the list back when no element contains the separator |
| Text.EncodeUriComponent | src/utils/google-maps.utils.ts:31 | encodeURIComponent output consists only of unreserved characters, percent signs and hexadecimal digits |
| Text.EncodeDecodeAscii | src/utils/google-maps.utils.ts:31 | percent-decoding undoes encodeURIComponent on ASCII text |
| Numeric.Round | src/utils/export.utils.ts:13 | Math.round returns the nearest integer, with halves rounded up |
| RouteUtils.IsValidLocation | src/main/java/pt/iscteiul/maprouteexplorer/util/RouteUtils.java:65-74 | a location is valid exactly when it is present, its latitude is in [-90, 90] and its longitude is in [-180, 180], bounds included |
| RouteUtils.IsValidRoute | src/main/java/pt/iscteiul/maprouteexplorer/util/RouteUtils.java:44-57 | a waypoint list is valid exactly when it is present, holds at least two points and every point is non-null and in range; a null point makes it invalid |
| RouteUtils.PathLengthNonNegative | src/main/java/pt/iscteiul/maprouteexplorer/util/RouteUtils.java:82-95 | a path's length is never negative |
| RouteUtils.PathLengthSnoc | src/main/java/pt/iscteiul/maprouteexplorer/util/RouteUtils.java:88-92 | extending a path by one point adds the last leg, in metres |
| RouteUtils.PathLengthSplit | src/main/java/pt/iscteiul/maprouteexplorer/util/RouteUtils.java:88-92 | a path's length is the length up to any of its points plus the length from that point |
| RouteUtils.CalculateTotalDistance | src/main/java/pt/iscteiul/maprouteexplorer/util/RouteUtils.java:82-95 | the total is 0 for a missing list or one of fewer than two points; otherwise a null point throws a NullPointerException, and a list without nulls gives the sum of the legs between consecutive points, each kilometre distance scaled to metres; it is never negative |
| RouteUtils.EstimateTravelTime | src/main/java/pt/iscteiul/maprouteexplorer/util/RouteUtils.java:104-113 | the estimate is 0 for a non-positive distance or a missing mode; otherwise it is positive and covers the distance at the mode's average speed (seconds times km/h equals metres times 3.6) |
| RouteUtils.EstimateMonotone | src/main/java/pt/iscteiul/maprouteexplorer/util/RouteUtils.java:104-113 | a longer distance never takes less time in the same mode |
| RouteUtils.FormatDistanceAgreesWithRoute | src/main/java/pt/iscteiul/maprouteexplorer/util/RouteUtils.java:151-158 | formatDistance prints exactly what Route.getFormattedDistance prints for a route of that length, so it inherits that method's read-back property |
| RouteUtils.FormatDistance | src/main/java/pt/iscteiul/maprouteexplorer/util/RouteUtils.java:151-158 | below 1000 m the text ends in " m" and reads back to within half a metre; otherwise it ends in " km" and its two decimals read back to within 0.005 km |
| RouteUtils.MetersToKilometers | src/main/java/pt/iscteiul/maprouteexplorer/util/RouteUtils.java:121-123 | multiplying by 0.001 is the same as dividing by 1000 |
| RouteUtils.ClockParts | src/main/java/pt/iscteiul/maprouteexplorer/util/RouteUtils.java:167-169 | for a non-negative duration the hours, minutes and seconds are the whole hours, the whole minutes of the remaining hour and the whole seconds of the remaining minute |
| RouteUtils.ClockPartsRecompose | src/main/java/pt/iscteiul/maprouteexplorer/util/RouteUtils.java:167-169 | the three parts are a mixed-radix decomposition of the whole seconds: minutes and seconds below 60, recombining to the whole number of seconds |
| RouteUtils.FormatDuration | src/main/java/pt/iscteiul/maprouteexplorer/util/RouteUtils.java:166-178 | from one hour the text is "H h M min"; from one minute it is "M min S s"; below a minute it is "S s", each number being the mixed-radix part of the whole seconds |
| RouteUtils.ThinFromRange | src/main/java/pt/iscteiul/maprouteexplorer/util/RouteUtils.java:200-206 | the interior points the scan keeps come in strictly increasing order and lie strictly between the first and the last point |
| RouteUtils.KeptIndicesShape | src/main/java/pt/iscteiul/maprouteexplorer/util/RouteUtils.java:195-211 | the kept points form a subsequence of the original that starts with its first point and ends with its last |
| RouteUtils.ThinFromKeepIff | src/main/java/pt/iscteiul/maprouteexplorer/util/RouteUtils.java:200-206 | an interior point is kept exactly when it is at least minDistance metres from the point kept before it |
| RouteUtils.OptimizeRoute | src/main/java/pt/iscteiul/maprouteexplorer/util/RouteUtils.java:187-221 | a missing or empty route gives a new route; otherwise the result holds the thinned waypoints and the original mode, with the thinned path's length as distance, its estimated travel time as duration, and no instructions |
| RouteUtils.CalculateCentroid | src/main/java/pt/iscteiul/maprouteexplorer/util/RouteUtils.java:254-271 | the centroid is (0, 0) for a missing or empty list; a null element throws a NullPointerException; otherwise it is the component-wise mean of the coordinates, with empty name and address |
| RouteUtils.SumLatitudesBounds | src/main/java/pt/iscteiul/maprouteexplorer/util/RouteUtils.java:262-265 | the sum of n latitudes lying in [lo, hi] lies in [n lo, n hi] |
| RouteUtils.SumLongitudesBounds | src/main/java/pt/iscteiul/maprouteexplorer/util/RouteUtils.java:262-265 | the sum of n longitudes lying in [lo, hi] lies in [n lo, n hi] |
| RouteUtils.CentroidInsideBox | src/main/java/pt/iscteiul/maprouteexplorer/util/RouteUtils.java:254-271 | the centroid of a non-empty list lies inside every box that contains all its points |
| Polyline.ChunkBits | src/main/java/pt/iscteiul/maprouteexplorer/service/OSRMService.java:417-418 | the data part of a chunk is a 5-bit value |
| Polyline.ReadGroup | src/main/java/pt/iscteiul/maprouteexplorer/service/OSRMService.java:416-420 | reading a group always consumes at least one character, and fails when the text ends before a chunk without the continuation flag |
| Polyline.ZigZagRoundTrip | src/main/java/pt/iscteiul/maprouteexplorer/service/OSRMService.java:421 | the sign decoding of a value undoes the zig-zag encoding of every integer delta |
| Polyline.UnZigZagRoundTrip | src/main/java/pt/iscteiul/maprouteexplorer/service/OSRMService.java:421 | the zig-zag encoding undoes the sign decoding of every group value, so the two are inverse bijections |
| Polyline.UnZigZag | src/main/java/pt/iscteiul/maprouteexplorer/service/OSRMService.java:421 | non-negative deltas are written as even codes and negative deltas as odd codes |
| Polyline.ReadPoint | src/main/java/pt/iscteiul/maprouteexplorer/service/OSRMService.java:415-433 | reading a point, a latitude group and then a longitude group, always consumes input |
| Polyline.EncodeValue | src/main/java/pt/iscteiul/maprouteexplorer/service/OSRMService.java:416-420 | an encoded value is non-empty and only its last chunk lacks the continuation flag |
| Polyline.ReadEncodedValue | src/main/java/pt/iscteiul/maprouteexplorer/service/OSRMService.java:416-420 | reading a group back from an encoded value returns the value and leaves whatever followed it untouched |
| Polyline.ReadEncodedPoint | src/main/java/pt/iscteiul/maprouteexplorer/service/OSRMService.java:415-433 | reading a point back from its encoding against the previous point returns the point and leaves the rest untouched |
| Polyline.DecodeEncodeFrom | src/main/java/pt/iscteiul/maprouteexplorer/service/OSRMService.java:410-439 | decoding the encoding of any point list, from any running position, gives the list back |
| Polyline.DecodeEncode | src/main/java/pt/iscteiul/maprouteexplorer/service/OSRMService.java:403-441 | the desktop decoder inverts the polyline encoder on every list of lattice points |
| Polyline.Decode | src/main/java/pt/iscteiul/maprouteexplorer/service/OSRMService.java:403-441 | an empty text decodes to no points; an accepted text yields at least one and at most one point per character, and the browser decoder reads the same points from it |
| Polyline.Encode | src/main/java/pt/iscteiul/maprouteexplorer/service/OSRMService.java:403-441 | the desktop decoder reads the encoding of any point list back as that list |
| Polyline.ReadCutValue | src/main/java/pt/iscteiul/maprouteexplorer/service/OSRMService.java:416-420 | a group whose final chunk is missing cannot be read: the desktop decoder runs past the end of the text |
| Polyline.DecodeTruncatedFails | src/main/java/pt/iscteiul/maprouteexplorer/service/OSRMService.java:410-433 | any well-formed polyline with its last character removed is rejected by the desktop decoder |
| Polyline.ReadGroupLenient | src/services/api/google-maps.service.ts:31-35 | in the browser a group past the end of the text reads NaN chunks that add nothing, and a non-empty text is always consumed |
| Polyline.LenientAgreesOnGroup | src/services/api/google-maps.service.ts:31-35 | where the desktop group reader succeeds, the browser reader returns the same value and rest |
| Polyline.LenientAgreesWithStrict | src/services/api/google-maps.service.ts:16-53 | where the desktop decoder succeeds, the browser decoder yields the same points, each as a longitude-first pair |
| Polyline.LenientOnTruncated | src/services/api/google-maps.service.ts:27-50 | the browser decoder never fails: on a cut-off polyline that the desktop decoder rejects it still yields at least one pair |
| Polyline.DecodeLenient | src/services/api/google-maps.service.ts:16-53 | the browser decoder yields nothing exactly for the empty text, at most one pair per character, and the desktop points, longitude first, wherever the desktop decoder succeeds |
| Polyline.Swapped | src/services/api/google-maps.service.ts:49 | the browser pairs hold, for each point in order, the longitude first and the latitude second |
| Polyline.ToLocation | src/main/java/pt/iscteiul/maprouteexplorer/service/OSRMService.java:435-438 | a decoded point becomes a location whose coordinates are the lattice values times 1e-5, with empty name and address |
| Polyline.ToLocations | src/main/java/pt/iscteiul/maprouteexplorer/service/OSRMService.java:435-438 | the decoded list has one location per point, in order |
| Polyline.ToDegrees | src/services/api/google-maps.service.ts:49 | the browser pair is the lattice longitude and latitude divided by 1e5 |
| Polyline.ExampleEncodes | src/test/java/pt/iscteiul/maprouteexplorer/service/OSRMServiceTest.java:117 | the polyline used by the decoder test is the encoding of the points (38.5, -120.2), (40.7, -120.95), (43.252, -126.453) |
| Polyline.ExampleDecodes | src/test/java/pt/iscteiul/maprouteexplorer/service/OSRMServiceTest.java:117-131 | the desktop decoder reads the test polyline as exactly those three points |
| JsonValues.AsText | src/main/java/pt/iscteiul/maprouteexplorer/service/OSRMService.java:300 | Jackson's asText gives a string node its own text and a container the empty text |
| JsonValues.AsTextOk | src/main/java/pt/iscteiul/maprouteexplorer/service/OSRMService.java:300-301 | the status check passes exactly when the code field is the string "Ok": no number, boolean, null or container reads as "Ok" |
| JsonValues.AsDouble | src/main/java/pt/iscteiul/maprouteexplorer/service/OSRMService.java:338-339 | Jackson's asDouble gives a number node its value and null or a container 0.0 |
| OsrmClient.ValidateCoordinates | src/main/java/pt/iscteiul/maprouteexplorer/service/OSRMService.java:57-74 | a missing location is rejected first, then an out-of-range latitude, then an out-of-range longitude, each with the offending value; exactly the valid locations pass, unchanged |
| OsrmClient.ValidateAll | src/main/java/pt/iscteiul/maprouteexplorer/service/OSRMService.java:187-189 | the list passes exactly when every point is valid, in which case the result lists the same points in order |
| OsrmClient.BuildCoordinatePath | src/main/java/pt/iscteiul/maprouteexplorer/service/OSRMService.java:191-201 | the multi-point loop writes each point followed by ';' except after the last, which is the ';'-join of the entries |
| OsrmClient.CoordinatePathPair | src/main/java/pt/iscteiul/maprouteexplorer/service/OSRMService.java:97-99 | the two-point path is the origin's entry, ';', then the destination's entry |
| OsrmClient.PointTextHasNoSeparator | src/main/java/pt/iscteiul/maprouteexplorer/service/OSRMService.java:194-197 | no "lon,lat" entry contains ';' |
| OsrmClient.CoordinatePathShape | src/main/java/pt/iscteiul/maprouteexplorer/service/OSRMService.java:191-201 | n points give n - 1 separators, and splitting the path at ';' gives back one entry per point, in order |
| OsrmClient.PointTextValue | src/main/java/pt/iscteiul/maprouteexplorer/service/OSRMService.java:194-197 | each entry is the longitude, a comma, then the latitude, each printed with six decimals and reading back to within half a millionth of a degree |
| OsrmClient.TwoPointRequest | src/main/java/pt/iscteiul/maprouteexplorer/service/OSRMService.java:86-102 | a missing end is rejected before any range check; the request is built exactly when both ends are valid, and then asks the mode's profile for the full overview with steps |
| OsrmClient.WaypointsRequest | src/main/java/pt/iscteiul/maprouteexplorer/service/OSRMService.java:179-204 | a missing list or one of fewer than two points is rejected; the request is built exactly when every point is valid, and then carries all points in order |
| OsrmClient.PresentValues | src/main/java/pt/iscteiul/maprouteexplorer/service/OSRMService.java:187-197 | once validated, the waypoint list is the list of its points |
| OsrmClient.TwoPointAgreesWithWaypoints | src/main/java/pt/iscteiul/maprouteexplorer/service/OSRMService.java:86-204 | both overloads give the same result, success or error, for the same two points |
| OsrmClient.DistanceRequest | src/main/java/pt/iscteiul/maprouteexplorer/service/OSRMService.java:232-248 | the distance-only request fails exactly when, and with the same error as, the two-point route request, and otherwise asks the same path without the overview |
| OsrmClient.FirstRoute | src/main/java/pt/iscteiul/maprouteexplorer/service/OSRMService.java:295-318 | the shared checks pass exactly when the code field reads "Ok" and routes is a non-empty array, returning its first element; a missing code is reported first |
| OsrmClient.CheckTotals | src/main/java/pt/iscteiul/maprouteexplorer/service/OSRMService.java:338-355 | the totals pass exactly when the distance is within [0, 40 000 km] and the duration within [0, 30 days], and are then returned unchanged |
| OsrmClient.ParseRouteResponseSpec | src/main/java/pt/iscteiul/maprouteexplorer/service/OSRMService.java:289-386 | a response is accepted exactly when every check holds, in whatever order they are made; the route then has the reported totals, the requested mode, the decoded points and no instructions |
| OsrmClient.ParseRouteResponse | src/main/java/pt/iscteiul/maprouteexplorer/service/OSRMService.java:289-386 | a failed shared check is reported as it is; an accepted route has totals within the limits, at least one waypoint, every waypoint in range, the requested mode and no instructions |
| OsrmClient.ParseDistanceAndDuration | src/main/java/pt/iscteiul/maprouteexplorer/service/OSRMService.java:459-528 | a failed shared check is reported as it is; accepted totals are the first route's distance and duration, both within the limits |
| OsrmClient.ParsedRouteBounds | src/main/java/pt/iscteiul/maprouteexplorer/service/OSRMService.java:341-382 | an accepted route's totals lie within the limits and each of its waypoints is a valid location |
| OsrmClient.DistanceParserAgrees | src/main/java/pt/iscteiul/maprouteexplorer/service/OSRMService.java:459-528 | whenever the route parser accepts a response, the distance parser accepts it too and reports the same totals |
| OsrmClient.TruncatedGeometryRejected | src/main/java/pt/iscteiul/maprouteexplorer/service/OSRMService.java:369-394 | a geometry whose last character is cut off is reported as a parse error of the response, not a crash outside it |
| OsrmClient.ExampleLocations | src/main/java/pt/iscteiul/maprouteexplorer/service/OSRMService.java:435-438 | the example polyline decodes to the locations (38.5, -120.2), (40.7, -120.95) and (43.252, -126.453), all in range |
| OsrmClient.ExampleResponse | src/test/java/pt/iscteiul/maprouteexplorer/service/OSRMServiceTest.java:38-58 | an "Ok" response carrying the example geometry, 1000 m and 300 s is accepted as a route through those three points with those totals |
| OsrmClient.AcceptedRoute | src/main/java/pt/iscteiul/maprouteexplorer/service/OSRMService.java:363-386 | a response that passes each check in turn yields the route built from the decoded points and the reported totals |
| MapPanel.NewPanel | src/main/java/pt/iscteiul/maprouteexplorer/ui/MapPanel.java:52-61 | a new panel is centred on Lisbon (38.7223, -9.1393) at zoom 13, with no selection, no route and no listener |
| MapPanel.ScreenToLocation | src/main/java/pt/iscteiul/maprouteexplorer/ui/MapPanel.java:111-120 | a pixel maps to the centre shifted by 0.001 degrees per pixel from the panel's integer half-size, latitude growing upwards, with empty name and address |
| MapPanel.LocationToScreen | src/main/java/pt/iscteiul/maprouteexplorer/ui/MapPanel.java:127-137 | each pixel coordinate is the exact projection truncated toward zero: less than one pixel from it and no further from zero |
| MapPanel.ScreenRoundTrip | src/main/java/pt/iscteiul/maprouteexplorer/ui/MapPanel.java:111-137 | every pixel survives the trip to a location and back to the screen unchanged |
| MapPanel.LocationRoundTrip | src/main/java/pt/iscteiul/maprouteexplorer/ui/MapPanel.java:111-137 | a location taken to its pixel and back moves by less than one pixel, 0.001 degrees, in each coordinate |
| MapPanel.Click | src/main/java/pt/iscteiul/maprouteexplorer/ui/MapPanel.java:90-102 | a click appends the clicked location to the selection, changes nothing else, and notifies the listener exactly once when there is one |
| MapPanel.SetZoomLevel | src/main/java/pt/iscteiul/maprouteexplorer/ui/MapPanel.java:198-201 | the zoom level is the requested value clamped into [1, 18] and nothing else changes |
| MapPanel.SetZoomLevelIdempotent | src/main/java/pt/iscteiul/maprouteexplorer/ui/MapPanel.java:198-201 | setting the zoom to the level it already has changes nothing |
| MapPanel.SetMapCenter | src/main/java/pt/iscteiul/maprouteexplorer/ui/MapPanel.java:179-182 | setting the centre replaces it and changes nothing else |
| MapPanel.SetRoute | src/main/java/pt/iscteiul/maprouteexplorer/ui/MapPanel.java:144-147 | setting the route replaces it and changes nothing else |
| MapPanel.ClearRoute | src/main/java/pt/iscteiul/maprouteexplorer/ui/MapPanel.java:152-155 | clearing the route leaves no route and changes nothing else |
| MapPanel.ClearSelectedPoints | src/main/java/pt/iscteiul/maprouteexplorer/ui/MapPanel.java:160-163 | clearing the selection empties it and changes nothing else |
| MapPanel.SetPointSelectionListener | src/main/java/pt/iscteiul/maprouteexplorer/ui/MapPanel.java:217-219 | registering or removing the listener changes nothing else |
| MapPanel.ClicksAccumulate | src/main/java/pt/iscteiul/maprouteexplorer/ui/MapPanel.java:90-102 | after clearing, a run of clicks leaves exactly the clicked locations selected, in click order |
| MapPanel.RouteSegments | src/main/java/pt/iscteiul/maprouteexplorer/ui/MapPanel.java:297-315 | no route, an empty route or a one-point route draws nothing; otherwise one segment joins the screen positions of each pair of consecutive waypoints, in order |
| MapPanelWebView.NewWebPanel | src/main/java/pt/iscteiul/maprouteexplorer/ui/MapPanelWebView.java:42-46 | a new web panel is centred on Lisbon at zoom 13 with no selection, no route and no listener |
| MapPanelWebView.SetMapCenter | src/main/java/pt/iscteiul/maprouteexplorer/ui/MapPanelWebView.java:345-350 | setting the centre stores it, changes nothing else, and asks the page to move there at the current zoom |
| MapPanelWebView.SetZoomLevel | src/main/java/pt/iscteiul/maprouteexplorer/ui/MapPanelWebView.java:356-363 | the zoom is the requested value clamped into [1, 19], nothing else changes, and the page is moved to the stored centre at the new zoom |
| MapPanelWebView.WaypointEntries | src/main/java/pt/iscteiul/maprouteexplorer/ui/MapPanelWebView.java:376-379 | the drawing script has one "{lat: …, lon: …}" entry per waypoint, in order |
| MapPanelWebView.BuildDrawRouteScript | src/main/java/pt/iscteiul/maprouteexplorer/ui/MapPanelWebView.java:375-384 | the loop writes every entry with ", " between consecutive entries and none after the last, inside "window.drawRoute([" and "]);" |
| MapPanelWebView.SetRoute | src/main/java/pt/iscteiul/maprouteexplorer/ui/MapPanelWebView.java:369-388 | the route is stored in any case and nothing else changes; a drawing script is sent only for a route of at least two waypoints |
| MapPanelWebView.DrawRouteEntryCount | src/main/java/pt/iscteiul/maprouteexplorer/ui/MapPanelWebView.java:375-384 | the script's entry list has exactly as many entries (opening braces) as the route has waypoints |
| MapPanelWebView.ClearRoute | src/main/java/pt/iscteiul/maprouteexplorer/ui/MapPanelWebView.java:390-393 | clearing the route leaves no route, changes nothing else, and sends the empty drawing script |
| MapPanelWebView.ClearSelectedPoints | src/main/java/pt/iscteiul/maprouteexplorer/ui/MapPanelWebView.java:395-398 | clearing the selection empties it, changes nothing else, and asks the page to remove its markers |
| MapPanelWebView.Run | src/main/java/pt/iscteiul/maprouteexplorer/ui/MapPanelWebView.java:330-341 | a script is handed to the page exactly once when the engine is ready and dropped otherwise |
| MapPanelWebView.F6 | src/main/java/pt/iscteiul/maprouteexplorer/ui/MapPanelWebView.java:347-348 | the six-decimal text of a coordinate is a decimal without a comma that reads back to within half a millionth |
| MapPanelWebView.CenterScript | src/main/java/pt/iscteiul/maprouteexplorer/ui/MapPanelWebView.java:345-363 | the centring script is a call of window.setMapCenter whose argument list splits at ',' into the six-decimal latitude, the six-decimal longitude and the zoom |
| MapPanelWebView.DrawRouteScript | src/main/java/pt/iscteiul/maprouteexplorer/ui/MapPanelWebView.java:375-385 | the drawing script is a call of window.drawRoute on an array literal whose body holds exactly one opening brace per waypoint |
| MapPanelWebView.ParseClick | src/main/java/pt/iscteiul/maprouteexplorer/ui/MapPanelWebView.java:281-301 | a polled value is read as a click only when it is present, not "null", not empty, and its trimmed text starts with '{', names a click and contains both keys |
| MapPanelWebView.ReadClick | src/main/java/pt/iscteiul/maprouteexplorer/ui/MapPanelWebView.java:285-296 | the numbers are read only when both the latitude and the longitude key occur in the text |
| MapPanelWebView.LatEnd | src/main/java/pt/iscteiul/maprouteexplorer/ui/MapPanelWebView.java:286-288 | the latitude text ends at the first ',' at or after its start, or else at the first '}' there; the result is -1 exactly when neither occurs and never lies below -1 or before the start |
| MapPanelWebView.ReadNumbers | src/main/java/pt/iscteiul/maprouteexplorer/ui/MapPanelWebView.java:293-296 | a click is reported only when both keys were found, so that each start lies past position 5 |
| MapPanelWebView.HandleClick | src/main/java/pt/iscteiul/maprouteexplorer/ui/MapPanelWebView.java:316-325 | a click appends a new location at the clicked coordinates and notifies the listener once when there is one |
| MapPanelWebView.Poll | src/main/java/pt/iscteiul/maprouteexplorer/ui/MapPanelWebView.java:266-311 | a poll that does not yield a readable click changes nothing; a readable one adds exactly one point after the existing selection |
| MapPanelWebView.ParseClickGuards | src/main/java/pt/iscteiul/maprouteexplorer/ui/MapPanelWebView.java:281-284 | a trimmed text that starts with '{' and names a click goes on to the number reading |
| MapPanelWebView.PayloadLatKey | src/main/java/pt/iscteiul/maprouteexplorer/ui/MapPanelWebView.java:285 | in the bridge's click text the latitude key is found at its fixed place after the type field |
| MapPanelWebView.PayloadComma | src/main/java/pt/iscteiul/maprouteexplorer/ui/MapPanelWebView.java:286 | in the bridge's click text the latitude ends at the comma that follows the latitude number |
| MapPanelWebView.PayloadLonKey | src/main/java/pt/iscteiul/maprouteexplorer/ui/MapPanelWebView.java:290 | in the bridge's click text the longitude key is found right after the latitude number |
| MapPanelWebView.PayloadClose | src/main/java/pt/iscteiul/maprouteexplorer/ui/MapPanelWebView.java:291 | in the bridge's click text the longitude ends at the closing brace |
| MapPanelWebView.PayloadRoundTrip | src/main/java/pt/iscteiul/maprouteexplorer/ui/MapPanelWebView.java:244-297 | the click text the page's bridge produces for two numerals is read back by the poller as exactly the two numbers it carries |
| WebTypes.ModeValueInjective | src/types/route.types.ts:17-22 | the four transport modes have pairwise distinct string values |
| WebTypes.PlaceAt | src/types/route.types.ts:1-6 | a place built from coordinates alone has no name and no address |
| WebTypes.NamedPlace | src/types/route.types.ts:1-6 | a place built with a name keeps it and has no address |
| WebTypes.FirstEmptyStop | src/components/map/MapContainer.tsx:52 | findIndex returns the first stop at (0, 0), with none before it, and returns -1 exactly when no stop is at (0, 0) |
| WebTypes.CountFilled | src/components/ChatWidget.tsx:74 | the number of chosen stops never exceeds the number of stops |
| WebTypes.CountFilledAppend | src/components/ChatWidget.tsx:74 | the count of chosen stops is additive over concatenation |
| WebTypes.CountFilledUpdate | src/components/ChatWidget.tsx:74 | replacing one stop changes the count only by what left that slot and what came in |
| WebTypes.Interior | src/utils/export.utils.ts:21 | slice(1, -1) drops exactly the first and the last element and keeps the rest in order; lists of two or fewer give nothing |
| WebRouteUtils.Speed | src/utils/route.utils.ts:10-14 | every mode except transit has a positive average speed; transit has none |
| WebRouteUtils.BufferMultiplier | src/utils/route.utils.ts:30 | the buffer always lengthens the estimate (15% driving, 10% otherwise) |
| WebRouteUtils.CalculateDuration | src/utils/route.utils.ts:22-33 | the estimate is a non-negative whole number of seconds; it is 0 for transit or a non-positive distance, and otherwise within half a second of the positive buffered travel time |
| WebRouteUtils.PositiveEstimate | src/utils/route.utils.ts:29-32 | for a positive distance the buffered travel time is positive |
| WebRouteUtils.RoundMonotone | src/utils/route.utils.ts:32 | Math.round never decreases as its argument grows |
| WebRouteUtils.CalculateDurationMonotone | src/utils/route.utils.ts:22-33 | a longer distance never gives a shorter estimate in the same mode |
| WebRouteUtils.ImplausibleIff | src/utils/route.utils.ts:52-57 | the API value deviates by more than 50% exactly when it lies outside [0.5c, 1.5c] |
| WebRouteUtils.AdjustDuration | src/utils/route.utils.ts:43-67 | with no estimate the adjusted duration is 0; otherwise it always lies in [0.7c, 2c] for the estimate c |
| WebRouteUtils.AdjustDurationCases | src/utils/route.utils.ts:48-66 | an API value outside [0.5c, 1.5c] is replaced by the estimate, one in [0.5c, 0.7c) is raised to 0.7c, and one in [0.7c, 1.5c] is kept; the upper clamp never fires |
| WebRouteUtils.AdjustDurationWithoutEstimate | src/utils/route.utils.ts:48-66 | without a speed or a positive distance the adjusted duration is 0 |
| WebRouteUtils.DurationParts | src/utils/route.utils.ts:75-76 | for a non-negative duration the hours and minutes are the whole hours and the whole minutes of the remaining hour; for a negative one JavaScript's truncated `%` gives negative hours and minutes in [-60, 0] |
| WebRouteUtils.FloorDiv | src/utils/route.utils.ts:75 | Math.floor of d / k is the integer quotient of the whole part of d |
| WebRouteUtils.DurationPartsAgree | src/utils/route.utils.ts:74-82 | for a non-negative duration the web client splits it into the same hours and minutes as the desktop Route.getFormattedDuration |
| WebRouteUtils.FormatDuration | src/utils/route.utils.ts:74-82 | for a non-negative duration the label names the whole hours, from one hour up, and the leftover whole minutes, which together fall short of the duration by less than a minute; a negative duration prints only its (non-positive) minutes, as in "-1min" for -30 s |
| WebRouteUtils.FormatDistance | src/utils/route.utils.ts:89-94 | below 1 km the label is the rounded metres followed by " m", within half a metre; from 1 km it is a two-decimal kilometre figure followed by " km" that reads back within 0.005 km |
| WebRouteUtils.FormatDistanceAgrees | src/utils/route.utils.ts:89-94 | for a non-negative distance the web and desktop clients print the same distance label |
| OsrmWeb.Profile | src/services/api/osrm.service.ts:41-50 | each routable mode is sent under its own string value, and transit, which OSRM lacks, under the driving profile |
| OsrmWeb.ProfileCases | src/services/api/osrm.service.ts:41-50 | every mode gets one of OSRM's three profiles, and the profile equals the mode's own value exactly when the mode is not transit |
| OsrmWeb.RequestPath | src/services/api/osrm.service.ts:57-59 | the request path starts with "/", the profile and "/" |
| OsrmWeb.PositionTextFields | src/services/api/osrm.service.ts:58 | a "lng,lat" entry contains no ';' and splits at ',' into the longitude text then the latitude text |
| OsrmWeb.RequestPathFields | src/services/api/osrm.service.ts:58-59 | after the profile the path splits at ';' into exactly the origin and the destination, each splitting at ',' into longitude then latitude |
| OsrmWeb.StepInstructions | src/services/api/osrm.service.ts:97-101 | a leg contributes at most one instruction per step, and none of them is empty |
| OsrmWeb.KeptAppend | src/services/api/osrm.service.ts:96-102 | filtering the steps that carry an instruction distributes over concatenation |
| OsrmWeb.TextsAppend | src/services/api/osrm.service.ts:96-102 | taking the instruction texts distributes over concatenation |
| OsrmWeb.AllStepsSnoc | src/services/api/osrm.service.ts:96-97 | the steps of one more leg come after those of the earlier legs |
| OsrmWeb.StepInstructionsAreKept | src/services/api/osrm.service.ts:97-101 | a leg's instructions are the texts of exactly its steps that carry a non-empty instruction, in order |
| OsrmWeb.InstructionsFlatten | src/services/api/osrm.service.ts:95-102 | the nested loops collect exactly the present instructions of all steps of all legs, in leg-then-step order |
| OsrmWeb.CollectInstructions | src/services/api/osrm.service.ts:95-102 | the loops produce that same list, and no collected instruction is empty |
| OsrmWeb.Instructions | src/services/api/osrm.service.ts:95-102 | the legs contribute at most one instruction per step over all their steps, and no collected instruction is empty |
| OsrmWeb.PlaceOf | src/services/api/osrm.service.ts:90-93 | a [lng, lat] position becomes a place with those coordinates in the right fields |
| OsrmWeb.PlacesOf | src/services/api/osrm.service.ts:90-93 | one place per position, in order |
| OsrmWeb.ParseRouteResponse | src/services/api/osrm.service.ts:79-118 | the response fails with "No route found" exactly when the code is not "Ok" or there is no route; otherwise the waypoints are the requested origin, the interior geometry points and the requested destination, and the route carries the first route's distance, its adjusted duration, the requested mode, its geometry and its collected instructions |
| OsrmWeb.ParsedDurationBounded | src/services/api/osrm.service.ts:105 | an accepted route's duration lies within [0.7c, 2c] of the mode's estimate c, or is 0 when there is no estimate |
| GoogleDirections.TravelMode | src/services/api/google-maps.service.ts:111-119 | the mode sent to the Directions service is the upper-case form of the travel mode the map link uses |
| GoogleDirections.TravelModeInjective | src/services/api/google-maps.service.ts:111-119 | every mode is sent as its own Google travel mode: no two modes share one |
| GoogleDirections.StripTags | src/services/api/google-maps.service.ts:195 | removing tags never lengthens the text |
| GoogleDirections.StripTagsAddsNoClose | src/services/api/google-maps.service.ts:195 | removing tags only deletes characters, so it introduces no '>' |
| GoogleDirections.StripTagsTagless | src/services/api/google-maps.service.ts:195 | after the replacement no '<' is followed anywhere later by a '>' |
| GoogleDirections.StripTagsKeepsTagless | src/services/api/google-maps.service.ts:195 | text without tags is left as it is |
| GoogleDirections.StripTagsIdempotent | src/services/api/google-maps.service.ts:195 | stripping twice removes nothing more than stripping once |
| GoogleDirections.StripTagsExample | src/services/api/google-maps.service.ts:195 | a bold word loses its markup and keeps its text |
| GoogleDirections.EndPlaces | src/services/api/google-maps.service.ts:189-193 | one waypoint per step, at the step's end location, in order |
| GoogleDirections.StrippedInstructions | src/services/api/google-maps.service.ts:194-196 | one instruction per step, its HTML with tags removed, in order |
| GoogleDirections.CollectSteps | src/services/api/google-maps.service.ts:189-197 | the inner loop appends exactly the steps' end points and stripped instructions to what was collected before |
| GoogleDirections.AppendedSteps | src/services/api/google-maps.service.ts:189-197 | end points and instructions of concatenated step lists are the concatenations |
| GoogleDirections.TallyStep | src/services/api/google-maps.service.ts:175-198 | one more leg adds its distance, its duration, its step end points and its instructions when it has both a distance and a duration, and changes nothing otherwise |
| GoogleDirections.LegsUnfold | src/services/api/google-maps.service.ts:175-198 | the totals and the steps of a list of legs are those of all but the last leg plus the last leg's share |
| GoogleDirections.CollectLegs | src/services/api/google-maps.service.ts:170-198 | the loop over legs and steps computes the totals, end points and instructions of the accepted legs |
| GoogleDirections.SkippedLegIgnored | src/services/api/google-maps.service.ts:176-178 | a leg missing its distance or duration contributes nothing: removing it changes neither total nor the steps collected |
| GoogleDirections.TrafficOnlyWhenDriving | src/services/api/google-maps.service.ts:182-186 | traffic time is used only when driving: for any other mode the total equals the total with traffic times removed |
| GoogleDirections.PlainLegs | src/services/api/google-maps.service.ts:182-186 | removing the traffic times keeps the legs otherwise unchanged, in order |
| GoogleDirections.PolylineSource | src/services/api/google-maps.service.ts:209-222 | a non-empty string overview is used as is, and so is a non-empty string field points of an overview object |
| GoogleDirections.PolylineFallback | src/services/api/google-maps.service.ts:224-238 | the first step's polyline is consulted only when the overview gives no text, is then used when present, and otherwise no polyline is found |
| GoogleDirections.DecodeNonEmpty | src/services/api/google-maps.service.ts:27-50 | the browser decoder yields at least one pair for any non-empty text |
| GoogleDirections.DegreesOf | src/services/api/google-maps.service.ts:246-261 | the geometry holds one [lng, lat] position per decoded pair, in degrees and in order |
| GoogleDirections.AssembleRoute | src/services/api/google-maps.service.ts:160-264 | a failed status or an empty result is rejected with the status; an accepted route runs from the origin through every step end point to the destination, carries non-zero totals, the requested mode, a non-empty decoded geometry and the stripped instructions |
| GoogleDirections.AssembleRouteRejections | src/services/api/google-maps.service.ts:202-252 | with status OK the route is rejected as invalid exactly when a total is zero, for lacking a polyline exactly when the totals are non-zero but no polyline is found, never for a polyline that decodes to nothing, and accepted otherwise |
| RouteStore.Initial | src/store/route.store.ts:5-11 | the store starts with no origin, destination, waypoints or route, the driving mode, and not loading |
| RouteStore.SetOrigin | src/store/route.store.ts:12-15 | setting the origin, possibly to null, stores it, drops the route and changes nothing else |
| RouteStore.SetDestination | src/store/route.store.ts:16-19 | setting the destination stores it, drops the route and changes nothing else |
| RouteStore.SetWaypoints | src/store/route.store.ts:20 | replacing the stops keeps the route and changes nothing else |
| RouteStore.AddWaypoint | src/store/route.store.ts:21 | adding a stop appends it after the existing ones, keeps the route and changes nothing else |
| RouteStore.WithoutIndex | src/store/route.store.ts:23 | filtering by index never lengthens the list |
| RouteStore.WithoutIndexSlices | src/store/route.store.ts:23 | the filter removes exactly the element at the index and keeps the others in order; an index outside the list removes nothing |
| RouteStore.RemoveWaypoint | src/store/route.store.ts:22-25 | removing a stop drops the route; a valid index removes exactly that stop and keeps the others in order, and any other index leaves the list as it was; nothing else changes |
| RouteStore.SetRoute | src/store/route.store.ts:26 | setting the route changes nothing else |
| RouteStore.SetTransportMode | src/store/route.store.ts:27-34 | the mode is stored, and the route is dropped exactly when there was a route and both origin and destination are set; nothing else changes |
| RouteStore.SetIsLoading | src/store/route.store.ts:35 | setting the loading flag changes nothing else |
| RouteStore.Reset | src/store/route.store.ts:36-43 | reset clears origin, destination, stops, route and loading, and keeps the transport mode |
| RouteStore.ResetIsInitial | src/store/route.store.ts:36-43 | a reset store is the initial store in the kept mode, and resetting again changes nothing |
| MapStore.Initial | src/store/map.store.ts:6-10 | the map starts at the default centre and zoom (Lisbon, 13, when the environment sets none), with no selected point and no pending input |
| MapStore.SetCenter | src/store/map.store.ts:11 | setting the centre changes nothing else |
| MapStore.SetZoom | src/store/map.store.ts:12 | the zoom is stored exactly as given, with no clamp, and nothing else changes |
| MapStore.SetSelectedPoint | src/store/map.store.ts:13 | setting the selected point changes nothing else |
| MapStore.SetWaitingForInput | src/store/map.store.ts:14 | setting the pending input slot changes nothing else |
| MapStore.ClearWaitingForInput | src/store/map.store.ts:15 | clearing leaves no pending input and changes nothing else |
| MapStore.ClearWaitingIsSetNone | src/store/map.store.ts:14-15 | clearing the pending input is setting it to null, and clearing twice is clearing once |
| MapStore.SettersCommute | src/store/map.store.ts:11-13 | setters of different fields commute |
| SearchStore.Initial | src/store/search.store.ts:5-8 | the search starts with an empty query, no results and not loading |
| SearchStore.SetQuery | src/store/search.store.ts:9 | setting the query changes nothing else |
| SearchStore.SetResults | src/store/search.store.ts:10 | setting the results changes nothing else |
| SearchStore.SetIsLoading | src/store/search.store.ts:11 | setting the loading flag changes nothing else |
| SearchStore.Clear | src/store/search.store.ts:12 | clearing empties the query and results and stops loading |
| SearchStore.ClearForgets | src/store/search.store.ts:12 | clearing forgets everything: from any two states it gives the same, initial state, and clearing again changes nothing |
| PoiStore.Initial | src/store/poi.store.ts:9-10 | points of interest start switched off |
| PoiStore.Toggle | src/store/poi.store.ts:11 | toggling flips the switch |
| PoiStore.SetEnabled | src/store/poi.store.ts:12 | setting the switch stores the given value |
| PoiStore.ToggleLaws | src/store/poi.store.ts:11-12 | toggling twice restores the switch, setting the same value twice is setting it once, and toggling is setting the opposite value |
| MapEvents.WrapDown | src/components/map/MapContainer.tsx:27 | the first loop subtracts whole turns until the longitude is at most 180, and a value above 180 does not overshoot below -180 |
| MapEvents.WrapUp | src/components/map/MapContainer.tsx:28 | the second loop adds whole turns until the longitude is at least -180, and a value below -180 does not overshoot above 180 |
| MapEvents.NormalizeLng | src/components/map/MapContainer.tsx:25-28 | the normalised longitude lies in [-180, 180], differs from the input by whole turns, and an in-range input is kept |
| MapEvents.NormalizeLngIdempotent | src/components/map/MapContainer.tsx:25-28 | normalising an already normalised longitude changes nothing |
| MapEvents.NormalizeLngLoop | src/components/map/MapContainer.tsx:26-28 | the two loops compute the normalised longitude |
| MapEvents.ClickPlace | src/components/map/MapContainer.tsx:23-33 | the clicked point has its latitude clamped to [-85, 85] and its longitude normalised, carries no name or address, and an in-range click is kept as it is |
| MapEvents.Picked | src/components/map/MapContainer.tsx:38-39 | after a pick the point is selected and the wait is cleared |
| MapEvents.Click | src/components/map/MapContainer.tsx:22-83 | every click selects the clicked point, clears the wait, and leaves the centre and zoom alone |
| MapEvents.ClickFillsEndpoint | src/components/map/MapContainer.tsx:36-48 | while an endpoint is awaited, the click sets that endpoint, drops the route and changes nothing else in the route store |
| MapEvents.ClickFillsStop | src/components/map/MapContainer.tsx:50-59 | while a stop is awaited and an empty (0, 0) stop exists, the click fills the first empty stop, keeps the others, and raises the filled count by one unless the clicked point is itself (0, 0) |
| MapEvents.ClickAppendsStop | src/components/map/MapContainer.tsx:60-66 | while a stop is awaited and no stop is empty, the click appends the point |
| MapEvents.ClickToggles | src/components/map/MapContainer.tsx:70-82 | with no wait, the click fills the missing origin, else the missing destination, else restarts with a new origin and no destination; afterwards there is always an origin and the stops are kept |
| MapEvents.ThreeClicks | src/components/map/MapContainer.tsx:70-82 | from no endpoints, two plain clicks set origin then destination and a third restarts with only an origin |
| MapEvents.ClickKeepsRouteIff | src/components/map/MapContainer.tsx:36-82 | an existing route survives a click exactly when a stop is being picked |
| MapEvents.MoveEnd | src/components/map/MapContainer.tsx:84-105 | while an update is in flight the event is ignored; otherwise a centre more than 0.0001 degrees away on either axis is stored and starts an update, and a nearer one changes nothing |
| MapEvents.MoveEndSettles | src/components/map/MapContainer.tsx:93-97 | once the store holds the view's centre, the same event changes nothing, so the store and the map do not echo each other |
| MapEvents.ApplyCenters | src/components/map/MapContainer.tsx:142-155 | after a sequence of centre updates only the centre has changed and it is the last one given |
| MapEvents.DragEndCallsAsWritten | src/components/map/MapContainer.tsx:128-157 | as written the handler stores nothing for an in-range centre; an out-of-range latitude ends with the clamped latitude stored beside the unclamped longitude; an out-of-range longitude alone stores the clamped longitude |
| MapEvents.DragEndCalls | src/components/map/MapContainer.tsx:128-157 | with the longitude fix kept, the handler stores nothing for an in-range centre and otherwise ends by storing both coordinates clamped |
| MapEvents.DragEnd | src/components/map/MapContainer.tsx:128-157 | after a corrected drag the store is unchanged when the centre is in range and otherwise holds the clamped centre, nothing else changing |
| MapEvents.DragEndAsWritten | src/components/map/MapContainer.tsx:128-157 | after a drag as written the store is unchanged in range, holds the clamped latitude with the original longitude when the latitude is out of range, and the clamped longitude when only it is out of range |
| MapEvents.DragEndClamps | src/components/map/MapContainer.tsx:128-157 | with the longitude fix kept, a drag ending in range stores nothing and one ending out of range stores the centre clamped to [-85, 85] by [-180, 180] |
| MapEvents.DragEndAsWrittenEscapes | src/components/map/MapContainer.tsx:153-156 | as written, a drag ending at (90, 200) stores (85, 200), whose longitude is out of range, where the corrected handler stores (85, 180) |
| MapEvents.BoundsMoveEnd | src/components/map/MapContainer.tsx:160-172 | an in-range centre is left alone; an out-of-range longitude always normalises at least a full turn away, so the store always moves onto the same latitude at the normalised longitude |
| Chat.PlaceOf | src/components/ChatWidget.tsx:327-331 | a reply point becomes a place with the same coordinates, its name, and no address |
| Chat.PlacesOf | src/components/ChatWidget.tsx:378-384 | the points become places one for one, in order |
| Chat.AddAll | src/components/ChatWidget.tsx:377-384 | adding the points one by one appends all of them after the existing stops, in order, and changes nothing else |
| Chat.ShortName | src/components/ChatWidget.tsx:317 | the part of a stop name before its first comma holds no comma, and a name without a comma is kept whole |
| Chat.SplitHead | src/components/ChatWidget.tsx:317 | the first piece of splitting at commas holds no comma, and is the whole text when there is no comma |
| Chat.ShortNames | src/components/ChatWidget.tsx:317 | every listed stop is shortened, one for one and in order |
| Chat.Dispatch | src/components/ChatWidget.tsx:291-412 | no branch of the action switch touches the zoom, the selected point, the transport mode or the route store's loading flag |
| Chat.Process | src/components/ChatWidget.tsx:291-416 | every reply posts exactly one bot message after the existing ones, clears the wait for a map pick, and leaves the input and loading flag alone |
| Chat.NoActionOnlyPosts | src/components/ChatWidget.tsx:405-412 | a reply without an action, or with an unknown one, only posts its message |
| Chat.SetRouteEffect | src/components/ChatWidget.tsx:295-323 | set_route with both ends sets them, drops the route, centres halfway between them and keeps the stops; without both ends it only posts the message |
| Chat.LocationActionEffect | src/components/ChatWidget.tsx:325-365 | set_origin, set_destination and add_waypoint with a location set or append it and centre on it; without a location they only post the message |
| Chat.AddWaypointsEffect | src/components/ChatWidget.tsx:367-395 | add_waypoints appends the first min(free slots, given) stops in order when slots remain and posts the limit text otherwise; the endpoints and route are kept |
| Chat.AddWaypointsKeepsLimit | src/components/ChatWidget.tsx:367-384 | if at most five chosen stops existed before an add_waypoints reply, at most five exist after it |
| Chat.ClearRouteEffect | src/components/ChatWidget.tsx:397-403 | clear_route empties the endpoints, the stops and the route, and posts the message or "Rota limpa." when the message is empty |
| Chat.JsTrim | src/components/ChatWidget.tsx:489 | trimming never lengthens the text, and a non-empty result starts and ends with a character that is not JavaScript white space |
| Chat.JsTrimIs | src/components/ChatWidget.tsx:489 | the trim is exactly the piece between the leading and the trailing white space: for any cut points with only white space outside them and non-space characters at both ends of the kept piece, trim returns that piece |
| Chat.JsTrimEmptyIff | src/components/ChatWidget.tsx:489 | the text trims to nothing exactly when every character is white space or a line terminator |
| Chat.Send | src/components/ChatWidget.tsx:488-500 | blank input or a request in flight changes nothing; otherwise the input is posted as the user's message, the field is cleared and loading starts |
| Chat.Complete | src/components/ChatWidget.tsx:518-528 | loading ends and exactly one bot message is posted, the apology when the request failed |
| Chat.SendOnce | src/components/ChatWidget.tsx:488-528 | a started send blocks a second one, and a completed exchange adds exactly the user message then one bot message |
| Chat.ClampToWindow | src/components/ChatWidget.tsx:242-243 | the clamped coordinate is never negative, stays within the limit when the limit is non-negative, keeps an in-range value, and is 0 when the button is larger than the window |
| Chat.DragPosition | src/components/ChatWidget.tsx:229-245 | the dragged button's corner stays inside the window whenever the button fits |
| Chat.DragPositionStable | src/components/ChatWidget.tsx:241-245 | clamping a clamped position changes nothing, and a position already inside the window is kept |
| LocationSearch.FieldSlot | src/components/search/LocationSearch.tsx:59-64 | a field asks for an origin pick exactly when it is the origin field and for a destination pick exactly when it is the destination field; every stop field asks for a stop |
| LocationSearch.JsLength | src/components/search/LocationSearch.tsx:30 | a text's length in UTF-16 units is between its character count and twice that |
| LocationSearch.Edit | src/components/search/LocationSearch.tsx:28-35 | typing opens the list and stores the text; a text longer than two units becomes the query and a shorter one clears the search |
| LocationSearch.EditEnablesGeocoding | src/components/search/LocationSearch.tsx:26-35 | after an edit the geocoder runs exactly when the typed text is longer than two units, and then on that text |
| LocationSearch.BlankStopFieldAvailable | src/components/search/LocationSearch.tsx:211-270 | while a stop is picked under an origin, the extra field is shown exactly when no blank stop exists, and otherwise a blank stop's own field is shown, so there is always a blank field to fill |
| LocationSearch.BlankStopsHidden | src/components/search/LocationSearch.tsx:211-216 | a blank stop is on screen exactly when there is an origin and a stop is being picked |
| LocationSearch.OnSelect | src/components/search/LocationSearch.tsx:181-283 | a field's pick callback never touches the search store |
| LocationSearch.OnClear | src/components/search/LocationSearch.tsx:181-283 | a field's clear callback never touches the search store |
| LocationSearch.StopCallbacks | src/components/search/LocationSearch.tsx:225-238 | picking for stop i replaces that stop alone and ends the wait; clearing it blanks that stop alone, waits for a stop pick and keeps its field on screen; neither touches the endpoints or the route |
| LocationSearch.ExtraSelectAppends | src/components/search/LocationSearch.tsx:260-263 | a pick in the extra field appends the stop and ends the wait |
| LocationSearch.Select | src/components/search/LocationSearch.tsx:43-52 | a pick empties and closes the field and clears the search; with panning the view centres on the pick at zoom 15, and without it the view keeps its centre and zoom |
| LocationSearch.SelectEndpoint | src/components/search/LocationSearch.tsx:43-52 | picking the origin or destination stores it and drops the route, keeping the stops and the wait |
| LocationSearch.AddToMap | src/components/search/LocationSearch.tsx:59-69 | asking to pick on the map waits for the field's kind, sets zoom 15 about the current centre, and leaves the selected point and search alone |
| LocationSearch.AddToMapClearsEndpoint | src/components/search/LocationSearch.tsx:59-69 | asking to pick an endpoint on the map forgets the current one and the route |
| LocationSearch.AddStop | src/components/search/LocationSearch.tsx:197-204 | the add-stop button appends a blank stop and waits for a stop pick, changing nothing else |
| LocationSearch.AddStopEffect | src/components/search/LocationSearch.tsx:197-216 | the button never takes the list past five, and the blank stop it adds is shown in its own field instead of the extra one |
| LocationSearch.RemoveStop | src/components/search/LocationSearch.tsx:241-242 | the remove button drops exactly stop i, keeps the others in order, drops the route and leaves the map store alone |
| PoiService.MinOf | src/services/api/poi.service.ts:55-58 | the smallest of a non-empty list is no greater than any element and is one of them |
| PoiService.MaxOf | src/services/api/poi.service.ts:55-58 | the largest of a non-empty list is no smaller than any element and is one of them |
| PoiService.Lats | src/services/api/poi.service.ts:53 | the latitudes are the second members of the [lng, lat] pairs, one for one |
| PoiService.Lngs | src/services/api/poi.service.ts:54 | the longitudes are the first members of the [lng, lat] pairs, one for one |
| PoiService.AlongRouteBox | src/services/api/poi.service.ts:47-58 | fewer than two coordinates give no box (the call returns no POIs); otherwise every coordinate lies inside the box at least 0.01 degrees from each edge |
| PoiService.AlongRouteBoxTight | src/services/api/poi.service.ts:53-58 | each edge of the route's box is exactly 0.01 degrees beyond some coordinate, so the box is the tightest padded one |
| PoiService.NearBox | src/services/api/poi.service.ts:131-143 | the box around a location is a square whose half-side is the radius over 111000 metres per degree |
| PoiService.Shrink | src/services/api/poi.service.ts:156-172 | the queried box is at most 0.1 degrees across on each axis and keeps its centre, and an axis already small enough is left unchanged |
| PoiService.ShrinkInside | src/services/api/poi.service.ts:161-172 | a shrunk box lies inside the original, and shrinking it again changes nothing |
| PoiService.Category | src/services/api/poi.service.ts:113 | the category is the first non-empty of amenity, shop and tourism, else "other", and never empty |
| PoiService.ParseElement | src/services/api/poi.service.ts:94-122 | an element becomes a POI exactly when it has a non-empty name and is a node or a way with non-zero coordinates; the POI's id is "poi-" and the element's id, with the element's name, type, coordinates and category |
| PoiService.Parse | src/services/api/poi.service.ts:91-126 | parsing never yields more POIs than elements |
| PoiService.ParseAppend | src/services/api/poi.service.ts:94-123 | the parse goes element by element: a reply's parse is the parses of its parts, in order |
| PoiService.ParseSingle | src/services/api/poi.service.ts:94-123 | a one-element reply parses to that element's POI when it is kept and to nothing otherwise |
| PoiService.InBounds | src/services/api/poi.service.ts:194-197 | at most 100 POIs are returned, and they are the first of the parse in its order |
| PoiQuery.HalfExtent | src/hooks/usePOIs.ts:47-53 | half the degrees a viewport span covers is never negative for a non-negative span |
| PoiQuery.CalculateBounds | src/hooks/usePOIs.ts:45-61 | the box extends the same half-extent on both sides of the centre on each axis, from the window size or 800 by 600 without a window |
| PoiQuery.ZoomInHalves | src/hooks/usePOIs.ts:48-53 | one zoom level in halves the box's half-extents |
| PoiQuery.BoundsCentred | src/hooks/usePOIs.ts:55-60 | the box is centred on the centre it was computed for |
| PoiQuery.HasBoundsChanged | src/hooks/usePOIs.ts:64-76 | with no previous box the view always counts as changed, and the very same box never does |
| PoiQuery.PanChanges | src/hooks/usePOIs.ts:70-75 | panning the same view by (dLat, dLng) counts as a change exactly when it moves more than 0.005 degrees on some axis, since both edges move |
| PoiQuery.Tag | src/hooks/usePOIs.ts:93-98 | each POI is paired with its distance key, one for one and in order |
| PoiQuery.Untag | src/hooks/usePOIs.ts:101 | dropping the keys gives back the POIs, one for one and in order |
| PoiQuery.Insert | src/hooks/usePOIs.ts:99 | inserting a pair into an ascending list keeps it ascending, adds exactly that pair, and lengthens the list by one |
| PoiQuery.Sort | src/hooks/usePOIs.ts:99 | the sort by distance gives an ascending permutation of its input |
| PoiQuery.SortKeepsTags | src/hooks/usePOIs.ts:93-99 | after the sort every key is still its own POI's distance |
| PoiQuery.UntagMonotone | src/hooks/usePOIs.ts:100-101 | dropping the keys of a sub-multiset of pairs gives a sub-multiset of POIs |
| PoiQuery.SortedTags | src/hooks/usePOIs.ts:93-99 | the sorted pairs are ascending, correctly keyed, and a permutation of the tagged POIs |
| PoiQuery.Nearest | src/hooks/usePOIs.ts:91-101 | the answer is nearest first, holds min(30, n) POIs, and takes each POI no more often than the input has it |
| PoiQuery.NearestAreNearest | src/hooks/usePOIs.ts:91-101 | every input POI is either among the answer or at least as far from the centre as each POI in it |
| PoiQuery.BranchOf | src/hooks/usePOIs.ts:80-140 | the branch taken is decided in order: switched off, area already loaded, rate limited within five seconds, box not moved enough, otherwise fetch; each branch holds exactly under its condition |
| PoiQuery.Query | src/hooks/usePOIs.ts:80-210 | switched off gives nothing; every answer is nearest first and at most 30 long; POIs are handed to the store, and the box remembered, exactly when a fetch ran and found something |
| PoiQuery.QuerySources | src/hooks/usePOIs.ts:80-210 | a fetch that found something answers its own nearest POIs; every other answer is drawn from the cache |
| PoiQuery.FetchSettles | src/hooks/usePOIs.ts:152-155 | right after a fetch that found something, the same view neither refetches nor changes the remembered box |
| GpxExport.StopsOf | src/utils/export.utils.ts:7 | the stops walked are the route's own when it has any, else just the origin and destination |
| GpxExport.WaypointPoints | src/utils/export.utils.ts:21-26 | each interior stop becomes one route point at its coordinates named "Waypoint k", numbered from 1 in order |
| GpxExport.TrackOf | src/utils/export.utils.ts:37-40 | each [lng, lat] position becomes one track point with the two swapped, in order |
| GpxExport.Kilometres | src/utils/export.utils.ts:13 | the distance text is a decimal that reads back as the kilometres within half a hundredth |
| GpxExport.Minutes | src/utils/export.utils.ts:13 | the minutes are the whole number nearest to the duration over 60, halves rounding up |
| GpxExport.RoutePointsShape | src/utils/export.utils.ts:7-31 | the route section is the origin, one numbered point per interior stop, then the destination: 2 + max(0, n - 2) points for n stops, and point k carries stop k's coordinates and the name "Waypoint k" |
| GpxExport.WaypointNameNumber | src/utils/export.utils.ts:24 | a point's name is "Waypoint " followed by digits that read back as its position among the interior stops |
| GpxExport.Render | src/utils/export.utils.ts:9-45 | the file opens with the XML declaration and a GPX 1.1 root and ends by closing the track segment, the track and the root |
| GpxExport.DescTextDistance | src/utils/export.utils.ts:13 | the kilometres text is found right after "Distance: " in the description |
| GpxExport.AppendInterior | src/utils/export.utils.ts:21-26 | the loop over the interior stops appends exactly one numbered point text per stop, in order, after the texts already written |
| GpxExport.BuildRouteSection | src/utils/export.utils.ts:17-31 | the route section is the texts of the origin's point, the interior stops' points and the destination's point, in that order |
| GpxExport.BuildTrackSection | src/utils/export.utils.ts:37-40 | the track section is one track point text per geometry position, in order |
| GpxExport.BuildGpx | src/utils/export.utils.ts:6-45 | the text built piece by piece equals the rendering of the document: header, route points, track points and closing tags |
| GpxExport.FileName | src/utils/export.utils.ts:51 | a file name ends in '.' and the extension and, for an extension without '-', splits at '-' into "route", the mode and the stamp with its extension |
| GpxExport.ExportJson | src/utils/export.utils.ts:62-74 | the export object carries the origin, destination and time stamp as given, and reading its route member back gives the route that was exported |
| MapsLink.GoogleMode | src/utils/google-maps.utils.ts:14-21 | each mode travels under its own string value, except cycling, which Google calls "bicycling" |
| MapsLink.GoogleModeFaithful | src/utils/google-maps.utils.ts:14-21 | distinct modes get distinct travel modes |
| MapsLink.LatLngTexts | src/utils/google-maps.utils.ts:30 | each stop becomes its own "lat,lng" text, one for one and in order |
| MapsLink.LatLngTextChars | src/utils/google-maps.utils.ts:24-30 | a "lat,lng" text is ASCII and holds no '&' and no '|' |
| MapsLink.UrlJoin | src/utils/google-maps.utils.ts:28-36 | the link is the base and the parameters joined with '&' |
| MapsLink.Url | src/utils/google-maps.utils.ts:23-36 | splitting the link at '&' gives back the base, then origin, destination and travel mode always, and the stops exactly when there are some |
| MapsLink.WaypointsRoundTrip | src/utils/google-maps.utils.ts:29-31 | the stops' parameter percent-decodes to their "lat,lng" texts joined with '|', and splitting at '|' then ',' gives each stop's two numbers back, in order |
| MapsLink.LatLngSplit | src/utils/google-maps.utils.ts:24-25 | a "lat,lng" text splits at ',' into its two numbers |

## Left out

- Network, I/O and UI shells are not modelled. This covers HTTP clients, JSON text parsing (replies are a small JSON tree datatype), Swing painting and the tile grid, JavaFX WebView set-up, `Platform.runLater` and the poll timer, React rendering, browser downloads (`Blob`, `URL.createObjectURL`) and `window.open`.
- Timers are not modelled: the usePOIs debounce, the 100 ms `isUpdatingRef` reset in MapContainer, and the ChatWidget DOM positioning and MutationObserver. `MapEvents.MoveEnd` takes the in-flight flag as an input.
- Floating point is not modelled. The Haversine `distanceTo`, JavaScript's number-to-string and `Double.parseDouble` are parameters. `%.Nf` and `toFixed` are modelled on exact reals with halves rounding away from zero, and the default-locale effects of `String.format` are ignored.
- The square root in the usePOIs sort is dropped. The model sorts by squared distance, which orders the same way because the square root is monotone.
- The usePOIs zoom is an integer; a fractional zoom from the map is not modelled.
- `Location.toString` and `Route.toString` are left out; they are debug text.
- `RouteUtils.kilometersToMiles`, `secondsToHours` and `areRoutesSimilar` are left out: they are not used by the modelled operations.
- `OSRMService.isServiceAvailable` and the duration-ratio warnings in `calculateRoute` are left out: the first is a network probe, and the warnings only print.
- `MapPanelWebView.SetMapCenter` models the centre as a present location; passing `null`, which the source stores and then dereferences, is not modelled.
- `PoiService.ParseElement` assumes Overpass sends `lat`/`lon` with every node, as the source's non-null assertions do; a node without coordinates, which would yield a POI with undefined coordinates, is not modelled.
- `PoiService` does not model the `out center` coordinates of ways; a way is kept exactly when its own `lat` and `lon` are truthy, as the parser checks.
- `PoiQuery.Query` does not model the POI store's cache itself: `isAreaLoaded` and `getPOIsInBounds` are not defined in `poi.store.ts`, so their answers are inputs.
- `PoiQuery.Sort` does not fix the order of POIs at equal distance; JavaScript's sort is stable, and the model only promises an ascending permutation.
- `Chat.Message` drops the message id and time stamp, which come from the clock, and replies that break the `N8NResponse` shape are not modelled.
- Polyline.ReadGroup does not model Java's 32-bit `int` overflow in the desktop decoder: values are unbounded integers, which agree with the source whenever every group fits in 32 bits.
- Polyline.ReadGroupLenient and Polyline.DecodeLenient do not model the 32-bit limit of the browser decoder either: JavaScript's `|`, `<<` and `>>` work on 32-bit integers, so a group longer than 32 bits wraps there while the model keeps every bit.
- MapPanel.ScreenRoundTrip holds on exact reals only. In doubles, the longitude computed from a pixel can come back one ulp below the pixel, and the `(int)` cast then truncates to the pixel before it: at the default centre and width 800, x = 3 comes back as 2.9999999999997726 and becomes 2, and 378 of the 800 columns lose a pixel this way. The model promises the exact round trip that the arithmetic intends.
- Numeric.Trunc models Java's `(int)` cast of a double as truncation toward zero on unbounded reals. The cast's saturation at -2^31 and 2^31 - 1 and its NaN-to-0 rule (section 5.1.3 of the Java Language Specification) are not modelled, so the duration parts and screen pixels it computes for values outside the `int` range differ from the program's.
- MapPanel.SetMapCenter models the centre as a present location. Passing `null`, which the source stores at MapPanel.java line 180 and the projections then dereference, is not modelled.
- The geolocation button, reverse geocoding in the chat widget and the `useGeocoding`/`useGeolocation` hooks are left out: they are network and browser calls.

## Findings

| source | as written | input that shows it | evidently intended | confidence | as-written member | corrected member |
|---|---|---|---|---|---|---|
| src/components/map/MapContainer.tsx:153-156 | after clamping the longitude, the latitude fix re-centres on the original, unclamped longitude | a drag ending at (90, 200) stores (85, 200) | the stored centre is clamped on both axes, (85, 180) | not executed | MapEvents.DragEndAsWrittenEscapes | MapEvents.DragEndClamps |
