# Campus bus tracker: store, CSV export, status card and stop ranking

A Dafny model of the logic in the campus bus tracker (bus-buddy). It covers four parts:

- **The local data store** (`src/state/mockStore.ts`). The browser's key-value storage holds four
  collections: stops, bus routes, check-ins and the current user. `MockStore.Store` keeps them as
  four `Option` fields. `None` stands for a missing key, or for text that does not parse, which
  `read` replaces by its fallback. The store has one method per store operation: seeding, login,
  logout, adding and renaming stops, moving a bus, and recording a check-in. Each method states the
  new contents of every field. The functions next to the class (`InRouteOrder`, `StopsAfterAdd`,
  `Renamed`, `MoveBus`, `LogAfter`, `SeedStops`, `SeedBuses`) are what those contracts refer to.
  The lemmas about those functions carry the store's promises: stops are read in sequence order,
  numbering runs 1..n, a rename changes only the matching stop, a move changes only the matching
  bus, and the check-in log is newest first.
- **The check-in CSV export** (`csvEscape` and the text `exportCheckInsCsv` builds). A small reader
  for the same dialect states what the writer promises: reading the export back gives the header
  and one record per check-in, with every field intact. The dialect follows section 2 of RFC 4180
  with two differences. Records are separated by `\n` rather than CRLF, and a lone `\r` does not cause
  quoting.
- **`formatTimeAgo`**, with the clock and the date parser as parameters.
- **The bus status card** (`src/components/BusStatusCard.tsx`): the "between stop X and stop Y"
  line, the stop selected by default and the guard on the Boarded button. Also modelled is the
  route-ordered stop list that `src/pages/Index.tsx` hands to the card.
- **The stop-ranking script** (`scripts/fetch_guwahati_bus_stops.py`). This covers the split
  between route-member ids and full elements, `element_center`, `classify`, `compute_importance`,
  the deduplicating loop and the sort of `build_geojson`, and the top-score subset. Latitudes and
  longitudes are opaque pass-through values. A kept node (one with tags or a `lat`) that is the
  first with its `(type, id)` key and lacks `lat` or `lon` makes the script raise `KeyError`. Here
  that is the `Failure` case of `BuildGeojson` and `RankStops`. Id-only nodes go to the route-member
  set, and nodes whose key was already seen are skipped, so neither reaches that lookup.

Files: `wrappers.dfy` (Option, Result), `records.dfy` (the four record types and id tables),
`sequences.dfy` (stable sort, filter, reverse, `new Map(pairs)`), `mock_store.dfy`,
`csv_export.dfy`, `time_ago.dfy`, `bus_status.dfy`, `bus_stops.dfy`.

Both sorts in the source are stable: `Array.prototype.sort` since ES2019, and Python's `list.sort`.
Both are modelled by one stable insertion sort, `Sequences.SortBy`. The model proves that its
result is ordered and a permutation of its input.

## Model

| member | source | states |
|---|---|---|
| `Sequences.SortSorted` | src/state/mockStore.ts:90 | the stable sort used for both sorts returns a list ordered by its comparator, for any total preorder |
| `Sequences.SortBy` | src/state/mockStore.ts:90 | the sort keeps length and multiset of elements (a permutation) |
| `Sequences.SortOfSorted` | src/state/mockStore.ts:90 | sorting a list that is already ordered leaves it unchanged |
| `Sequences.SortDistinct` | scripts/fetch_guwahati_bus_stops.py:116 | sorting never makes two elements share a key |
| `Sequences.IndexByLookup` | src/state/mockStore.ts:162-163 | the table `new Map(pairs)` builds has exactly the keys of the list, each mapped to an element carrying that key, and to the last such element |
| `Sequences.IndexByKeys` | src/state/mockStore.ts:162-163 | the keys of `new Map(pairs)` are exactly the keys of the list, each mapped to an element carrying it |
| `Sequences.IndexByLast` | src/state/mockStore.ts:162-163 | an element whose key no later element carries is what a lookup of that key finds |
| `Sequences.Filter` | scripts/fetch_guwahati_bus_stops.py:134-141 | filtering keeps exactly the elements that pass, never lengthens the list |
| `Sequences.FilterAppend` | scripts/fetch_guwahati_bus_stops.py:134-141 | filtering a list extended by one element extends the filtered list by that element exactly when it passes |
| `Sequences.FilterSorted` | scripts/fetch_guwahati_bus_stops.py:156 | a filtered list keeps the order of its source |
| `Sequences.Reverse` | src/state/mockStore.ts:66 | `reverse()` puts element i at position n-1-i |
| `Records.Ids` | src/state/mockStore.ts:65 | `stops.map((s) => s.id)` has one id per stop, in order |
| `MockStore.InRouteOrder` | src/state/mockStore.ts:89-91 | `getStops` returns the stored stops in non-decreasing `sequence` order, as a permutation of what is stored |
| `MockStore.StopsAfterAdd` | src/state/mockStore.ts:92-98 | the list `addStop` writes is one longer than the stored list, ends with the new stop numbered count+1, and its other entries are exactly the stored stops, as a multiset |
| `MockStore.SequenceLeTotalPreorder` | src/state/mockStore.ts:90 | the comparator `a.sequence - b.sequence` is a total preorder |
| `MockStore.ConsecutiveInRouteOrder` | src/state/mockStore.ts:89-91 | stops numbered 1..n in stored order are read back exactly as stored |
| `MockStore.AddStopAppends` | src/state/mockStore.ts:92-98 | `addStop` writes one more stop, numbered count+1 with the given name, keeps every earlier stop, and on a store numbered 1..n appends in place and keeps the numbering |
| `MockStore.AddStopExtends` | src/state/mockStore.ts:92-98 | the list `addStop` writes is the stored list read back in sequence order plus the new stop numbered count+1; on a store numbered 1..n the read-back is the stored list itself and the written list reads back unchanged |
| `MockStore.AddStopKeepsNumbering` | src/state/mockStore.ts:92-98 | on a store numbered 1..n, `addStop` appends the new stop numbered n+1 and the numbering stays 1..n+1 |
| `MockStore.AddStopsNumbered` | src/state/mockStore.ts:92-98 | n `addStop` calls on an empty store store exactly the stops (id i, name i, sequence i+1), in call order |
| `MockStore.AddStopsFromEmpty` | src/state/mockStore.ts:92-98 | after n `addStop` calls on an empty store, stop i carries the i-th id and name and sequence i+1, and `getStops` reads them in call order |
| `MockStore.Renamed` | src/state/mockStore.ts:100 | the rename map keeps length, ids and sequences and renames exactly the stops whose id matches |
| `MockStore.StopsAfterRename` | src/state/mockStore.ts:99-103 | the list `updateStop` writes has one entry per stored stop: the i-th stop in route order with its id and sequence kept and its name replaced exactly when its id matches |
| `MockStore.RenameUnknownId` | src/state/mockStore.ts:99-103 | with an id no stop has, `updateStop` writes back the sorted list unchanged |
| `MockStore.RenameReadsBack` | src/state/mockStore.ts:99-103 | what `updateStop` writes is in sequence order, so `getStops` returns it as written |
| `MockStore.RenameKeepsNumbering` | src/state/mockStore.ts:99-103 | `updateStop` keeps the numbering 1..n |
| `MockStore.MoveBus` | src/state/mockStore.ts:110-112 | only buses with the given id change, and only `lastDepartedStopId` and `lastDepartureTime`; `stopIds`, names and order stay; the stop is not checked against the route |
| `MockStore.MoveUnknownBus` | src/state/mockStore.ts:109-115 | an unknown bus id leaves the bus list unchanged |
| `MockStore.LogAfter` | src/state/mockStore.ts:121-134 | recording check-ins adds one entry per check-in in front of the earlier log, which follows unchanged |
| `MockStore.LogIsNewestFirst` | src/state/mockStore.ts:121-134 | recording check-ins one after another gives them in reverse order ahead of the earlier log: a later check-in is listed before an earlier one |
| `MockStore.SeedStopsInOrder` | src/state/mockStore.ts:53-61 | the seeded stops are numbered 1..4 and read back in that order |
| `MockStore.SeedRoutes` | src/state/mockStore.ts:62-69 | on fresh storage "Route A" runs s1..s4 and "Route B" runs s4..s1 |
| `MockStore.SeedBuses` | src/state/mockStore.ts:62-69 | the seed writes two buses, "Route A" over the stored stop ids in stored order and "Route B" over the same ids reversed, neither yet departed |
| `MockStore.Store.StoredStops` | src/state/mockStore.ts:36-43 | `read` gives the fallback `[]` when the key is absent and the stored list otherwise |
| `MockStore.Store.GetCurrentUser` | src/state/mockStore.ts:74-76 | the stored user, or nothing when the key is absent |
| `MockStore.Store.GetStops` | src/state/mockStore.ts:89-91 | sorted by sequence, a permutation of the stored list, empty when nothing is stored |
| `MockStore.Store.GetBuses` | src/state/mockStore.ts:106-108 | the stored buses as stored, in insertion order; empty when the key is absent |
| `MockStore.Store.GetCheckIns` | src/state/mockStore.ts:118-120 | the stored log as stored; empty when the key is absent |
| `MockStore.Store.Seed` | src/state/mockStore.ts:50-70 | an empty stop list becomes s1..s4 ("Main Gate", "Library", "Science Block", "Dorms") numbered 1..4; an empty bus list becomes "Route A" and "Route B" over the then-stored stops; non-empty collections, check-ins and user are left alone |
| `MockStore.Store.Login` | src/state/mockStore.ts:77-82 | the returned user is the given one, and `getCurrentUser` now returns it whatever was there before; the other collections are unchanged |
| `MockStore.Store.Logout` | src/state/mockStore.ts:83-86 | `getCurrentUser` now returns nothing; the other collections are unchanged |
| `MockStore.Store.AddStop` | src/state/mockStore.ts:92-98 | the stored stops become the sorted old list plus the new stop numbered count+1; with numbering 1..n kept, `getStops` is the old reading plus the new stop |
| `MockStore.Store.UpdateStop` | src/state/mockStore.ts:99-103 | `getStops` becomes the old reading with matching stops renamed, unchanged for an unknown id, numbering kept |
| `MockStore.Store.SetBusPosition` | src/state/mockStore.ts:109-115 | the bus list becomes `MoveBus` of the old one; no other key changes |
| `MockStore.Store.AddCheckIn` | src/state/mockStore.ts:121-134 | the log becomes `[entry] + old log`, which is `LogAfter` of the old log; every bus with the id now sits at the check-in's stop and time; with an unknown bus id the buses are unchanged but the check-in is still recorded |
| `CsvExport.DoubleQuotes` | src/state/mockStore.ts:182 | doubling quotes never shortens a value and leaves a value without quotes unchanged |
| `CsvExport.CsvEscape` | src/state/mockStore.ts:180-185 | the value is returned unchanged exactly when it holds none of `,` `"` `\n`; otherwise it is enclosed in quotes; in both cases reading the field back gives the value |
| `CsvExport.CsvEscapeExamples` | src/state/mockStore.ts:181 | the value `a\rb` is returned unquoted, and the value `,"` is written as `","""`: enclosed in quotes with the quote doubled |
| `CsvExport.UnquotedRoundTrip` | src/state/mockStore.ts:180-185 | a value with none of `,` `"` `\n`, followed by a separator or the end, reads back as itself |
| `CsvExport.QuotedFieldRoundTrip` | src/state/mockStore.ts:182-183 | a value with its quotes doubled and enclosed in quotes, followed by a separator or the end, reads back as the value |
| `CsvExport.EscapedFieldRoundTrip` | src/state/mockStore.ts:180-185 | an escaped field followed by a separator or the end reads back as the original value |
| `CsvExport.EscapeAll` | src/state/mockStore.ts:168 | each field of a row is escaped on its own |
| `CsvExport.Lines` | src/state/mockStore.ts:165-169 | one line per record, in order |
| `CsvExport.RecordRoundTrip` | src/state/mockStore.ts:168 | a row joined with `,` reads back as its fields |
| `CsvExport.DocumentRoundTrip` | src/state/mockStore.ts:170 | lines joined with `\n` read back as the records they came from |
| `CsvExport.HeaderIsPlain` | src/state/mockStore.ts:164 | no header name needs quoting |
| `CsvExport.HeaderNamesPlain` | src/state/mockStore.ts:164 | none of the five header names holds a comma, a quote or a line break |
| `CsvExport.PlainRecordLine` | src/state/mockStore.ts:168 | fields that need no quoting are written as they are, joined by `,` |
| `CsvExport.BusColumn` | src/state/mockStore.ts:166 | the bus column holds the raw id when no bus has it, and otherwise the name of the last bus with that id, or the id when that name is empty (JavaScript's `or` on strings) |
| `CsvExport.StopColumn` | src/state/mockStore.ts:167 | the stop column resolves the same way, against the stops |
| `CsvExport.NameOrId` | src/state/mockStore.ts:166-167 | JavaScript `||` on the looked-up name: a non-empty name wins, a missing or empty name gives the raw id |
| `CsvExport.AllRowFields` | src/state/mockStore.ts:165-169 | one five-column row per check-in, in order: id, student id, resolved bus, resolved stop, timestamp |
| `CsvExport.RowFields` | src/state/mockStore.ts:166-168 | a row has five columns: the check-in id, the student id, the bus name or raw bus id, the stop name or raw stop id, and the timestamp |
| `CsvExport.CsvText` | src/state/mockStore.ts:164-170 | reading the export back gives the header plus one record per check-in, each equal to its unescaped row |
| `CsvExport.TableRoundTrip` | src/state/mockStore.ts:164-170 | the header line followed by the lines of any non-empty records reads back as the header and those records |
| `TimeAgo.Decimal` | src/state/mockStore.ts:156 | the decimal text of a count is non-empty digits with no leading zero |
| `TimeAgo.DecimalRoundTrip` | src/state/mockStore.ts:156 | reading the digits back gives the count |
| `TimeAgo.FormatTimeAgo` | src/state/mockStore.ts:151-159 | "Never" is returned exactly when there is no departure text or it is empty; the other outputs are stated by `FormatTimeAgoBuckets` and `FormatTimeAgoNoTime` |
| `TimeAgo.FormatTimeAgoBuckets` | src/state/mockStore.ts:151-159 | under a minute (or in the future) gives "Just now"; from 1 to 59 whole minutes gives "<m>m ago" with m minutes <= elapsed < m+1 minutes; from an hour on gives "<h>h ago" with h hours <= elapsed < h+1 hours |
| `TimeAgo.FormatTimeAgoNoTime` | src/state/mockStore.ts:151-153 | no or empty text gives "Never"; text the parser rejects gives "NaNh ago" |
| `BusStatus.Lookup` | src/pages/Index.tsx:44 | mapping ids through the table and dropping misses never gives more stops than ids |
| `BusStatus.LookupMembers` | src/pages/Index.tsx:44 | only known ids contribute, every known id's stop is on the list, and with every id known there is exactly one stop per id, position by position |
| `BusStatus.LookupAppend` | src/pages/Index.tsx:44 | one id more at the end adds its stop at the end of the list, or nothing for an unknown id, so the list is in route order with one entry per known id occurrence |
| `BusStatus.RouteStops` | src/pages/Index.tsx:44 | the card's list is the lookup of the route ids; every stop on it is a stored stop on the route, and every route id naming a stored stop contributes one |
| `BusStatus.RouteStopsAppend` | src/pages/Index.tsx:44 | one route id more adds, at the end, the last stored stop with that id, or nothing when no stored stop has it: the list follows route order |
| `BusStatus.FindIndex` | src/components/BusStatusCard.tsx:18 | the first position holding the id, or -1 exactly when no stop has it |
| `BusStatus.StatusText` | src/components/BusStatusCard.tsx:16-22 | the line is "Awaiting first departure" exactly when no (or an empty) stop is recorded, and otherwise starts with "Between " |
| `BusStatus.StatusAwaiting` | src/components/BusStatusCard.tsx:17 | with no (or an empty) last-departed id the text is "Awaiting first departure" |
| `BusStatus.StatusBetween` | src/components/BusStatusCard.tsx:18-21 | last departed from the stop at position i: "Between name[i] and name[i+1]", or "Route End" after the last stop |
| `BusStatus.StatusUnknownStop` | src/components/BusStatusCard.tsx:18-21 | an id not on the list gives "Between Unknown and name[0]", or "Between Unknown and Route End" for an empty list |
| `BusStatus.DefaultStop` | src/components/BusStatusCard.tsx:14 | the selected stop starts as the last-departed id when there is one (even empty), else the first stop's id, else nothing |
| `BusStatus.Board` | src/components/BusStatusCard.tsx:45 | `onBoard` is called, with the selected stop, exactly when a non-empty stop is selected |
| `BusStatus.BoardWithDefault` | src/components/BusStatusCard.tsx:45 | with the default selection, Boarded reports the last-departed stop, or the first stop of a bus that has not departed, and nothing on an empty route |
| `BusStops.ElementCenter` | scripts/fetch_guwahati_bus_stops.py:38-46 | a node gives its own lat/lon and fails with KeyError when one is missing; another element gives its `center` lat/lon when both are there, else no position |
| `BusStops.Label` | scripts/fetch_guwahati_bus_stops.py:49-59 | the label is one of the five names |
| `BusStops.LabelInjective` | scripts/fetch_guwahati_bus_stops.py:49-59 | different categories have different labels |
| `BusStops.Classify` | scripts/fetch_guwahati_bus_stops.py:49-59 | "bus_station" is given exactly when the amenity test holds, whatever the other tags say; each other named category is given only when its own test holds |
| `BusStops.FirstMatchWins` | scripts/fetch_guwahati_bus_stops.py:49-59 | in a first-match rule list, the first matching rule decides whatever later rules say |
| `BusStops.FirstMatchNone` | scripts/fetch_guwahati_bus_stops.py:59 | with no matching rule the category is "other" |
| `BusStops.ClassifyByPriority` | scripts/fetch_guwahati_bus_stops.py:49-59 | `classify` is the first-match rule over bus_station, bus_stop, platform, stop_position |
| `BusStops.ClassifyPriority` | scripts/fetch_guwahati_bus_stops.py:49-59 | the first of the four tests that holds gives the category, so bus_station beats bus_stop beats platform beats stop_position |
| `BusStops.ClassifyOther` | scripts/fetch_guwahati_bus_stops.py:59 | the category is "other" exactly when none of the four tests holds |
| `BusStops.ComputeImportance` | scripts/fetch_guwahati_bus_stops.py:62-83 | the score lies in 0..9, is at most 4 for "other", and at least 2 for a node on a route |
| `BusStops.ImportanceParts` | scripts/fetch_guwahati_bus_stops.py:62-83 | the score is the exclusive kind bonus (5, 2, 1 or 0), plus 1 for a shelter, plus 1 for a name, plus 2 for route membership |
| `BusStops.RouteBoostNodesOnly` | scripts/fetch_guwahati_bus_stops.py:79-81 | a way or relation scores the same whatever the route set |
| `BusStops.ImportanceThresholds` | scripts/fetch_guwahati_bus_stops.py:62-83 | a bus station always scores 5 or more; an "other" element off the routes scores at most 2 |
| `BusStops.FeatureOf` | scripts/fetch_guwahati_bus_stops.py:100-112 | a feature carries its element's type and id, its name tag, `classify` and `compute_importance` of the element, and coordinates `[lon, lat]` |
| `BusStops.Gather` | scripts/fetch_guwahati_bus_stops.py:90-113 | the loop collects at most one feature per element |
| `BusStops.GatherFails` | scripts/fetch_guwahati_bus_stops.py:90-98 | the loop fails exactly when it reaches a node with a fresh key and no lat or lon |
| `BusStops.GatherContents` | scripts/fetch_guwahati_bus_stops.py:86-113 | the features have distinct `(type, id)` keys; a feature is present exactly when it is made from the first element with its key, and that element has a position |
| `BusStops.RankedContents` | scripts/fetch_guwahati_bus_stops.py:86-118 | sorting the gathered features gives at most one per element, ordered by the ranking, with distinct keys, and exactly the features of first-occurrence elements that have a position |
| `BusStops.StringLeTotal` | scripts/fetch_guwahati_bus_stops.py:116 | Python's string order is total |
| `BusStops.StringLeTransitive` | scripts/fetch_guwahati_bus_stops.py:116 | Python's string order is transitive |
| `BusStops.FeatureLeTotalPreorder` | scripts/fetch_guwahati_bus_stops.py:116 | the order "score descending, then name ascending, missing name as empty" is a total preorder |
| `BusStops.BuildGeojson` | scripts/fetch_guwahati_bus_stops.py:86-118 | fails exactly on a fresh node without lat/lon; otherwise at most one feature per element, sorted by score descending then name, no two with the same key, and exactly the features of first-occurrence elements that have a position |
| `BusStops.SplitRouteMembers` | scripts/fetch_guwahati_bus_stops.py:131-141 | the id set is `RouteIdsOf` the elements, exactly the ids of nodes with neither tags nor lat; every other element is kept, in order |
| `BusStops.RouteIdsOf` | scripts/fetch_guwahati_bus_stops.py:134-138 | the route-member set holds exactly the ids of nodes with neither tags nor lat |
| `BusStops.TopFeatures` | scripts/fetch_guwahati_bus_stops.py:156 | the top subset holds exactly the features scoring 4 or more |
| `BusStops.TopFeaturesSorted` | scripts/fetch_guwahati_bus_stops.py:156 | the top subset keeps the ranking order |
| `BusStops.RankStops` | scripts/fetch_guwahati_bus_stops.py:127-156 | fails exactly when a fresh kept element is a node without lat or lon; otherwise the ranked features are exactly those of first-occurrence kept elements with a position, scored against the route-member ids, sorted with distinct keys and no more than the elements, and the top subset is `TopFeatures` of them, in order |

## Left out

- Browser `localStorage` and JSON (de)serialisation are not modelled. A key that is missing, empty
  or unparsable is the `None` of a store field. Stored text that parses to a value of the wrong
  shape (for example `null` under the stops key, which makes `getStops` throw) is not modelled.
- Cross-tab notification (`dispatchStoragePing`, `onRealtimeUpdate`, the `cbt_ping` key) is left
  out. It only delivers events between tabs and changes no collection the store reads.
- `uid` draws from `Math.random`. Fresh ids are parameters (`id` of `AddStop` and `AddCheckIn`) and
  are not assumed unique.
- `Date.now` and `toISOString` are not modelled. Timestamps are opaque strings passed in. For
  `formatTimeAgo`, the current time and the parsed departure time are integer parameters, so
  floating-point milliseconds are not modelled.
- The Blob, object URL and anchor-click download of `exportCheckInsCsv` is left out. So is the
  file name it gives the download.
- In the script, the Overpass HTTP request, the file writes, the printing, the exit codes and the
  sorted id list written to the raw file (line 145) are left out. `float()` on coordinates is not
  modelled; coordinates are pass-through values. Tag values are strings. A `tags` key holding
  `null`, an `id` that `int()` rejects and other exceptions than the missing `lat`/`lon` are not
  modelled.
- The React pages and components are not modelled, apart from the `statusText`, the default stop,
  the Boarded guard and the route stop list at `src/pages/Index.tsx:44`. That leaves out
  `AdminDashboard.tsx`, `Login.tsx`, `TopNav.tsx`, hooks, toasts and routing.
- The features' `category` is kept as a `Category` value. `BusStops.Label` gives the string the
  script writes.
- MockStore.Store.AddCheckIn: the two writes are modelled as one method; a failure between the two
  writes, which the source does not guard against, is not modelled.
