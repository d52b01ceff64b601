# Map and WhazzUp widgets — a verified model

This project models the decision logic of two dashboard widgets of a
virtual-airline module.

**The map widget** does the following:
- turns its loosely typed `source` setting into one of eight map kinds;
- builds the key/value filters of its flight query;
- turns the flights (or the viewer's PIREPs) into de-duplicated city pairs and collects their airports;
- colours each pair against the viewer's accepted PIREPs;
- degrades popups to bare text on large maps;
- builds hub, airport and per-simulator markers with their fleet notes;
- writes the overlay/layer toggle strings.

**The WhazzUp widget** does the following:
- settles its network, refresh interval and profile field;
- decides whether the stored feed snapshot is fetched again;
- works out the set of relevant network ids;
- finds the member behind a network id;
- builds the roster of online pilots flying for the airline.

**What the model takes as input.** Every database query, setting and feed
read is an input. Query results are sequences in query order, settings are
booleans or values, and the decoded feed is a sequence of pilot records. The
model verifies the logic in between.

**Module layout:**

| module | role |
|---|---|
| `Common` | option type; unique-by-key keeping the first |
| `Php` | PHP value semantics used by the source: `is_numeric`, truthiness, `blank`, `substr`, `str_contains` |
| `MapData` | map records |
| `MapConfig` | mode, filters, popup flag, fleet selection |
| `MapCityPairs` | city-pair loop, colour, popups |
| `MapMarkers` | airport/hub markers, scenery layers, overlays |
| `MapWidget` | the map widget's `run` |
| `WhazzUpConfig` | defaults and staleness |
| `WhazzUpLookup` | relevant ids, user and PIREP lookup |
| `WhazzUpRoster` | the roster loop |
| `WhazzUpWidget` | the WhazzUp widget's `run` |

**How loops are modelled.** Loops of the source are methods with loop
invariants. Each is proved against a specification function, and the
properties are lemmas about those functions.

**Where the code was followed over the design.** The design describes the
city-pair key as independent of direction. The code keeps the direction of
the first record seen for an airport pair and drops a later reversed one.
The model follows the code (`MapCityPairs.FirstDirectionKept`).

## Model

| member | source | states |
|---|---|---|
| MapConfig.ModeOf | Widgets/Map.php:61-80 | the integer 0 (strictly) gives the generic map; a non-zero numeric value gives the airline map with that id; each of the five keywords gives its own map; anything else gives the airport map with that id. Every case is stated in both directions. |
| MapConfig.ModeExamples | Widgets/Map.php:61-80 | the string "0" and the float 0.0 select an airport map, "12" selects airline 12, and a missing source selects an airport map |
| MapConfig.LimitLocation | Widgets/Map.php:32-36 | the global setting forces location limiting on; otherwise it is on exactly when the config says boolean true |
| MapConfig.LimitCompany | Widgets/Map.php:38-42 | the global setting forces company limiting on; otherwise it is on exactly when the config says boolean true |
| MapConfig.ViewerAirportId | Widgets/Map.php:48-58 | the viewer's current airport, else the home airport, else "ZZZZ" |
| MapConfig.BuildFilters | Widgets/Map.php:92-186 | both filters always hold active=1. visible=1 is present iff the config is truthy and the map is neither the user nor the fleet map. Departure airport = viewer's airport only on the generic map with location limiting, and the airport's id on the airport map. The airline id is the airline map's own id, or the viewer's airline on the generic/airport map with company limiting. The or-filter never restricts the departure. |
| MapConfig.AirportMapSelection | Widgets/Map.php:176-186 | a flight the airport map's query selects departs from or arrives at that airport, is active, is visible when the visible filter applies, and belongs to the viewer's airline under company limiting |
| MapConfig.GenericMapSelection | Widgets/Map.php:103-148 | with location limiting, every flight of the generic map departs from the viewer's airport and is active |
| MapConfig.DetailedPopups | Widgets/Map.php:285-288 | a flight map with 1000 or more records gets false; otherwise a boolean config wins; otherwise false on the airline map and null elsewhere |
| MapConfig.FleetSubfleets | Widgets/Map.php:224-237 | a subfleet is shown iff it belongs to the configured airline (when that is numeric) and, under rank or type-rating restriction, is allowed to the viewer |
| MapConfig.FleetAircraft | Widgets/Map.php:239-243 | exactly the parked, active aircraft of the shown subfleets |
| MapConfig.FleetAirports | Widgets/Map.php:245-248 | exactly the airports where one of those aircraft is parked |
| MapCityPairs.BuildCityPairs | Widgets/Map.php:252-276 | pair names are pairwise distinct; no two pairs are reverses of each other; every pair comes from a record with both airports resolved; every such record has its pair or its reverse present; airports are unique by id and hold both endpoints of every resolved record |
| MapCityPairs.RawPairsFacts | Widgets/Map.php:263-272 | before de-duplication, two collected pairs are reverses of each other only when one is a pair from an airport to itself; each pair comes from a resolved record, and each resolved record is represented directly or reversed |
| MapCityPairs.AirportPackFacts | Widgets/Map.php:255-262 | an airport is collected iff it is an endpoint of a record with both airports resolved, including records whose pair was dropped |
| MapCityPairs.UnresolvedContributeNothing | Widgets/Map.php:256-259 | records with an unresolved airport change neither the pairs nor the airports |
| MapCityPairs.FirstDirectionKept | Widgets/Map.php:263-274 | with four-character ids, the first record of an airport pair keeps its direction and the reversed name never appears |
| MapCityPairs.FirstDirectionPrefix | Widgets/Map.php:263-272 | the loop invariant behind this: before the first record of a route, neither direction is present; after it, its own direction is present and the reverse is absent |
| MapCityPairs.OppositeFlightsGiveOnePair | Widgets/Map.php:263-266 | two opposite flights give one pair, in the direction of whichever came first |
| MapCityPairs.FirstKeptSecondDropped | Widgets/Map.php:263-266 | a flight followed by its reverse gives only the first flight's pair |
| MapCityPairs.PairColour | Widgets/Map.php:393-399 | without viewer pairs every pair is crimson; dark green iff the viewer pairs hold the pair's name; light green iff they hold only the name with its two halves swapped |
| MapCityPairs.BuildViewerPairs | Widgets/Map.php:83-90 | the loop yields ViewerPairsOf: names are built iff there is a viewer and the map colours by viewer; they are exactly the names of the accepted PIREPs, without repeats |
| MapCityPairs.ColourByViewerPireps | Widgets/Map.php:393-399 | dark green iff the viewer flew the pair as named; light green iff the viewer flew only the reverse |
| MapCityPairs.Links | Widgets/Map.php:372-380 | a link is listed iff a record flies from the first airport to the second |
| MapCityPairs.DetailedPopup | Widgets/Map.php:370-391 | the popup lists the records in the pair's direction, then those in the reverse direction |
| MapCityPairs.BuildMapCityPairs | Widgets/Map.php:366-407 | one view record per city pair, in order, each with the pair's colour and its bare or detailed popup |
| MapCityPairs.LargeMapsGetBarePopups | Widgets/Map.php:368-369 | with 1000 or more records the popup is exactly "DPT - ARR", whatever the config says |
| MapCityPairs.DetailedPopupContents | Widgets/Map.php:367-391 | whenever the popup setting is not false (null, or a configured true, since the test is `=== false`) the popup is detailed and links exactly the records between the pair's two airports, the pair's own direction first |
| MapMarkers.EscapeQuotes | Widgets/Map.php:495 | same length; every single quote becomes a backtick; every other character stays |
| MapMarkers.ParkedAt | Widgets/Map.php:496 | exactly the aircraft at the airport |
| MapMarkers.RegistrationsOf | Widgets/Map.php:498-500 | one registration/type entry per aircraft, in order |
| MapMarkers.FleetNoteOf | Widgets/Map.php:495-503 | no aircraft list iff no fleet note; a list of registrations has one to five entries; a bare count is zero or at least six |
| MapMarkers.FleetSection | Widgets/Map.php:496-503 | the fleet part of a popup for an aircraft list and an airport (characterised by FleetNoteCases) |
| MapMarkers.FleetNoteCases | Widgets/Map.php:496-503 | no aircraft list gives no fleet note; 1 to 5 aircraft at the airport give their registrations (exactly those aircraft); any other number, zero included, gives the count |
| MapMarkers.ProcessAirport | Widgets/Map.php:489-510 | no airport gives nothing; otherwise the marker with the id, the location, the escaped title and the fleet note |
| MapMarkers.ProcessHub | Widgets/Map.php:513-534 | the same for a hub, linking to the hub page |
| MapMarkers.MarkersOf | Widgets/Map.php:355-362 | a marker is present iff it is the marker of an airport with the requested hub flag |
| MapMarkers.CollectMarkers | Widgets/Map.php:355-362 | the loop yields exactly MarkersOf |
| MapMarkers.BuildAirportLayers | Widgets/Map.php:354-362 | hubs and other airports split the airports: their counts add up to the number of airports |
| MapMarkers.MarkersSplit | Widgets/Map.php:355-361 | every airport lands in exactly one of the two arrays |
| MapMarkers.SceneryPoints | Widgets/Map.php:199-215 | a point is present iff it comes from a scenery entry whose airport resolved with filled latitude and longitude |
| MapMarkers.BuildSceneryPoints | Widgets/Map.php:199-215 | the loop yields exactly SceneryPoints |
| MapMarkers.SimLayer | Widgets/Map.php:330-351 | no simulator and "other" share the other-sims layer; an unknown code has no layer |
| MapMarkers.SimMarkers | Widgets/Map.php:330-352 | the markers of a layer are exactly those of the points of its simulators, with no fleet note |
| MapMarkers.CollectSimLayer | Widgets/Map.php:334-336 | the per-simulator loop yields exactly SimMarkers |
| MapMarkers.SimLayersPartition | Widgets/Map.php:328-352 | every point with a known simulator lands in exactly one of the six layers |
| MapMarkers.Rank | Widgets/Map.php:415-458 | each layer has its position in the fixed toggle order |
| MapMarkers.Enabled | Widgets/Map.php:415-458 | a layer is listed iff it is in the order and its array is non-empty |
| MapMarkers.EnabledKeepsOrder | Widgets/Map.php:415-458 | listed layers keep the fixed order |
| MapMarkers.ToggleAppends | Widgets/Map.php:415-418 | a non-empty layer appends its overlay entry and its layer entry |
| MapMarkers.ToggleSkips | Widgets/Map.php:415-418 | an empty layer adds nothing |
| MapMarkers.AddLayer | Widgets/Map.php:415-458 | one toggle step extends the strings for the layers checked so far by the next layer: its entries are appended exactly when its array is non-empty |
| MapMarkers.BuildOverlays | Widgets/Map.php:410-458 | the strings are those of the non-empty layers in the order Hubs, Airports, Flights, FS9, FSX, P3D, XP, MSFS, Other |
| MapMarkers.EnabledLayers | Widgets/Map.php:415-458 | each layer is in the toggle iff its array is non-empty, and listed layers are in the fixed order |
| MapMarkers.OverlayTextOpens | Widgets/Map.php:412 | the overlay string always starts with the OpenAIP entry |
| MapMarkers.NothingEnabled | Widgets/Map.php:412-413 | with all arrays empty no layer is listed |
| MapMarkers.OverlaysOpenWithOpenAip | Widgets/Map.php:412-413 | the overlays start with the OpenAIP entry; with all arrays empty they are just that entry and the layers are empty |
| MapWidget.FlightlessAirports | Widgets/Map.php:188-249 | the aerodromes map draws the airports table without fleet notes; the fleet map draws exactly the airports where a shown aircraft is parked, with the parked active aircraft of the shown subfleets, as the airports and aircraft functions of the fleet map compute them |
| MapWidget.SceneryLayers | Widgets/Map.php:328-352 | the six simulator layers are those of the scenery points |
| MapWidget.FlightPairs | Widgets/Map.php:251-288 | a flight map has one view record per city pair, in the same order; each record is the pair's view record with the mode's popup setting and the viewer pairs of ViewerPairsOf, so its colour follows the viewer's accepted PIREPs; only bare popups at 1000 records or more |
| MapWidget.AirportMarkers | Widgets/Map.php:353-363 | hub and airport markers carry a fleet note exactly when an aircraft list is given |
| MapWidget.Run | Widgets/Map.php:26-478 | the mode follows the source; city pairs exist only on flight maps and simulator layers only on the scenery map; the hub and airport arrays are the hub-flag split of the mode's airports (the records' endpoints on flight maps, the airports table on the aerodromes map, the airports holding a shown aircraft on the fleet map, whose popups list that fleet); on the scenery map each of the six simulator arrays holds the markers of the resolved scenery points of its simulator; fleet notes appear only on the fleet map; on a flight map each city-pair record is the pair's view record with the mode's popup setting and the viewer's pairs; large flight maps get bare popups; the toggle strings (overlays wrapped in braces) list exactly the non-empty arrays in the fixed order |
| WhazzUpConfig.NetworkSelection | Widgets/WhazzUp.php:27 | VATSIM iff the config is exactly the string "VATSIM"; IVAO otherwise |
| WhazzUpConfig.NetworkSelectionCases | Widgets/WhazzUp.php:27 | naming a network selects it; null, "vatsim" or the integer 1 select IVAO |
| WhazzUpConfig.RefreshInterval | Widgets/WhazzUp.php:28 | the configured value iff it is numeric and above 15; 180 otherwise |
| WhazzUpConfig.RefreshIntervalBound | Widgets/WhazzUp.php:28 | the interval is always above 15 seconds; 15 gives 180, 16 stays 16, "abc" gives 180 |
| WhazzUpConfig.FieldName | Widgets/WhazzUp.php:30-36 | a non-empty config wins; else a non-empty theme setting for the network; else the config value if set (even if empty), otherwise "IVAO"; never null |
| WhazzUpConfig.VaCode | Widgets/WhazzUp.php:44 | "IVAOVA/" followed by the theme's IVAO ICAO when that is filled, else "DSPHBSC" |
| WhazzUpConfig.NeedsDownload | Widgets/WhazzUp.php:49-52 | a missing snapshot is fetched; a stored one is fetched again iff its age exceeds the interval |
| WhazzUpConfig.StalenessMonotone | Widgets/WhazzUp.php:49-52 | a missing snapshot is always fetched; once a snapshot is stale it stays stale; a snapshot within the interval, the boundary included, is used |
| WhazzUpConfig.OnlineMinutes | Widgets/WhazzUp.php:90 | on VATSIM the whole minutes since logon, rounded down; on IVAO the connection time in minutes, rounded up |
| WhazzUpConfig.OnlineMinutesRounding | Widgets/WhazzUp.php:90 | VATSIM rounds the time since logon down to whole minutes and IVAO rounds the connection time up (61 s: 1 on VATSIM, 2 on IVAO) |
| WhazzUpLookup.FieldIdOf | Widgets/WhazzUp.php:128 | the id of the first field with the name, or none iff no field has it |
| WhazzUpLookup.CustomIds | Widgets/WhazzUp.php:130 | exactly the non-null values of the field that belong to users who are not inactive |
| WhazzUpLookup.NativeIds | Widgets/WhazzUp.php:132-138 | exactly the ids active users linked for the network |
| WhazzUpLookup.NetworkUsers | Widgets/WhazzUp.php:125-143 | null iff there is neither a custom-field id nor a linked id; never an empty list |
| WhazzUpLookup.NetworkUsersMembers | Widgets/WhazzUp.php:125-143 | an id is relevant iff it is such a custom value or such a linked id; the list has no repeats and is null rather than empty |
| WhazzUpLookup.FirstNative | Widgets/WhazzUp.php:147-150 | the first user who linked the id for the network |
| WhazzUpLookup.FirstValueOwner | Widgets/WhazzUp.php:156 | the owner of the first stored value equal to the id |
| WhazzUpLookup.UserById | Widgets/WhazzUp.php:156 | the user with that id |
| WhazzUpLookup.FindUser | Widgets/WhazzUp.php:145-160 | a user found is in the users table and either linked the (filled) id for the network or owns a stored profile value equal to the id |
| WhazzUpLookup.FindUserPrefersLinkedAccount | Widgets/WhazzUp.php:145-160 | for a filled id, the first user with the id linked is found, whatever the profile values say |
| WhazzUpLookup.FindUserFallsBackToProfileField | Widgets/WhazzUp.php:151-159 | with a blank id or no linked user, the owner of the first matching value is found; with no matching value, nobody is |
| WhazzUpLookup.FindActivePirep | Widgets/WhazzUp.php:162-165 | the first in-progress PIREP of the user (a missing user matches PIREPs without one); none iff there is no such PIREP |
| WhazzUpLookup.AirlineIcaos | Widgets/WhazzUp.php:120-123 | exactly the ICAO codes of the active airlines |
| WhazzUpRoster.PlanText | Widgets/WhazzUp.php:64-73 | a filed plan's text is six characters longer than its aircraft, departure and arrival together |
| WhazzUpRoster.PlanTextCases | Widgets/WhazzUp.php:64-73 | "No ATC Flight Plan!" iff no plan was filed; otherwise exactly aircraft, " \| ", departure, " > ", arrival, with nothing else |
| WhazzUpRoster.RelevantPilots | Widgets/WhazzUp.php:55-56 | a pilot is kept iff the id list exists and holds the pilot's network id |
| WhazzUpRoster.RelevantPilotsInOrder | Widgets/WhazzUp.php:55-56 | the relevant pilots are the feed's pilots at the relevant positions, in feed order, each copy kept |
| Common.Positions | Widgets/WhazzUp.php:55-59 | the positions of the kept elements: strictly increasing, each kept, and every kept position listed |
| WhazzUpRoster.Kept | Widgets/WhazzUp.php:75-81 | a pilot is kept iff an active airline's ICAO equals the callsign's first three characters, or an in-progress PIREP belongs to the pilot's user (to no user when none was found) |
| WhazzUpRoster.EntryOf | Widgets/WhazzUp.php:83-95 | the entry carries the pilot's network id and callsign and the given check; its user is one of the users table; its PIREP is an in-progress one of the PIREP list; its plan text is "No ATC Flight Plan!" iff no plan was filed |
| WhazzUpRoster.RosterAsWritten | Widgets/WhazzUp.php:59-96 | the loop as written gives at most one entry per pilot; the check it leaves is set iff the network is IVAO and some pilot filed a flight plan |
| WhazzUpRoster.RosterAsWrittenInOrder | Widgets/WhazzUp.php:59-96 | as written, the k-th entry is that of the k-th kept pilot, with the check left by the pilots up to and including it |
| WhazzUpRoster.BuildRosterAsWritten | Widgets/WhazzUp.php:59-96 | the widget's loop, which carries the check from pilot to pilot, yields exactly the roster as written |
| WhazzUpRoster.VisitPilot | Widgets/WhazzUp.php:60-95 | one pass of the loop body: the check the pilot leaves, and the pilot's entry iff the pilot is kept |
| WhazzUpRoster.Roster | Widgets/WhazzUp.php:60-96 | at most one entry per processed pilot |
| WhazzUpRoster.RosterInOrder | Widgets/WhazzUp.php:60-96 | the k-th entry is that of the k-th kept pilot, with its own check, so entries follow feed order and every kept pilot has one |
| WhazzUpRoster.BuildRoster | Widgets/WhazzUp.php:59-96 | the corrected loop yields the roster of the relevant pilots, each with the VA-system check of its own flight plan |
| WhazzUpRoster.RosterAgreesBesidesVasys | Widgets/WhazzUp.php:83-95 | apart from the VA-system check, the loop as written and the corrected roster agree entry for entry |
| WhazzUpRoster.RosterDropRule | Widgets/WhazzUp.php:75-81 | a pilot has an entry iff the callsign's first three characters are an active airline's ICAO or the user has an in-progress PIREP |
| WhazzUpRoster.RosterVasysFromOwnPlan | Widgets/WhazzUp.php:66-70 | in the corrected roster the check is set iff the pilot is on IVAO with a flight plan, and says whether that plan's remarks hold the airline's code |
| WhazzUpRoster.VasysLeaksToNextPilot | Widgets/WhazzUp.php:66-94 | as written, a dropped IVAO pilot's check passes to the next pilot's entry, which has no flight plan |
| WhazzUpWidget.SnapshotInUse | Widgets/WhazzUp.php:47-52 | the stored snapshot while its age is within the interval; otherwise the fetch result |
| WhazzUpWidget.Run | Widgets/WhazzUp.php:25-111 | the view's network is the selected one; without a snapshot the roster is empty; otherwise it is the roster as written of the relevant pilots of the snapshot in use, the check carried from pilot to pilot |
| WhazzUpWidget.RunEntriesAreRelevantPilots | Widgets/WhazzUp.php:54-96 | every entry the widget shows belongs to a snapshot pilot whose network id is relevant and who is affiliated or has a live PIREP |
| WhazzUpWidget.DefaultsFollowIvao | Widgets/WhazzUp.php:23-36 | with the default configuration the widget follows IVAO, every 180 s, reading the theme's IVAO field or else a field named "IVAO" |
| Common.UniqueByFacts | Widgets/Map.php:274 | de-duplication by key leaves distinct keys, keeps only input elements, and loses no key |
| Common.UniqueByKeepsFirst | Widgets/Map.php:274 | the first element with each key is the one kept |

## Left out

- **Database and I/O as inputs.** ORM queries, `setting()`, `Theme::getSetting`, `Auth` and `check_module` become inputs. The HTTP download of the feed, `json_decode` and Carbon date arithmetic do too: the snapshot age, the seconds since logon and the decoded pilots are inputs. Ordering, `take()` limits and soft-deletes belong to those queries and are not modelled.
- **Undocumented array helpers.** `DB_InArray_MD` and `DB_ArrayUnique_MD` are not part of this model. They are modelled by their evident use: membership of the reversed name among the collected names, and unique-by-name keeping the first. This is an assumption.
- **Four-character ids.** Properties that split a pair name at offset 4 need four-character airport ids. They state that as a precondition; the loop itself works on any ids.
- **View details.** Icon definitions, `route()` URLs, the HTML of popups, `placeholder()` and the view rendering are left out. Popups are structured values: a title, a fleet note, or the links of a detailed popup.
  - The trailing `<br>` of the hub popup's parked count is left out.
  - The `error` entry of the WhazzUp view is never assigned in the source, so it has no path to model.
  - The `Log::error` line written for a record with an unresolved airport is left out; the record itself is skipped as modelled.
- **Map centre, coordinates and item counts.** The map centre, the lat/lon text and the view's `aircraft`/`flights`/`sceneries` counts are not modelled.
- **Viewer checks and download time.** The WhazzUp viewer-role check (`checks`) and the download time (`dltime`) are not modelled.
- **Loose comparisons.** PHP's loose comparisons in collection filters (`where('hub', 1)`, `whereIn` on network ids, value lookups) are modelled as equality on the stored string or boolean. Numeric strings follow PHP's decimal grammar without exponents or surrounding whitespace, and floats are reals.
- **The third-network branch.** The `else` branch of the linked-id lookup that gives no ids for another network cannot be reached: the selected network is always IVAO or VATSIM.
- **Active PIREP ordering.** FindActivePirep takes the first matching PIREP of its input. The input is taken to be ordered by `updated_at` descending, as the query orders it.
- **The combined feed record.** The feed's per-network field names (`cid`/`userId`, `server`/`serverId`, `flight_plan`/`flightPlan` and the plan's fields) are read into one record before the roster loop.

## Findings

| source | as written | input that shows it | evidently intended | confidence | as-written member | corrected member |
|---|---|---|---|---|---|---|
| Widgets/WhazzUp.php:70 | `$vasys` is set only on the IVAO flight-plan path and never reset, so each later pilot's `vasyscheck` (line 94) inherits the last value, even from a pilot who was dropped | IVAO; active airline "ABC"; code "DSPHBSC"; pilot XYZ1 (dropped) with remarks "DSPHBSC", then pilot ABC1 with no flight plan: ABC1's entry gets check true | each entry carries the check of its own flight plan, null when it has none | not executed | WhazzUpRoster.VasysLeaksToNextPilot | WhazzUpRoster.BuildRoster |
