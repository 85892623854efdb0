# Fare lookup of the NTA fare calculation map

`code/FareCalcMap.py` is a Streamlit page. It shows the rail fare from a chosen origin station to every
destination, or to one destination. The fare depends on the chosen payment means and ticket type.
Apart from drawing, the page does five things, and this project models each one:

1. It narrows `Fares.csv` to the chosen payment means and ticket type. Then it sorts the result by
   `Fare`, with ties broken by `FareZone`.
2. It builds the origin and destination choice lists from `OD_Pairs2.csv`.
3. It takes the OD rows of the chosen origin and inner-joins them to the rail stations on
   `Destination = stop_name`. It then inner-joins the result to the narrowed fare table on
   `Value = FareZone`.
4. It picks the joined rows to report. `"Any"` reports every row. Another destination reports only
   its own rows. A destination equal to the origin only gets a warning. The sidebar writes one
   zone/price line per matching row.
5. It looks up a marker colour for each reported zone, and a legend price for each coloured zone.

The tables are sequences of records (`Tables`). Fares are whole cents. Strings compare as Python
compares `str`, by code point (`StringOrder.Below`).

pandas semantics are written out:
- `unique()` keeps each value once, in order of first occurrence.
- A boolean-mask filter keeps the surviving rows in table order.
- An inner `merge` is a nested loop. Left rows come in order, and each is followed by its matching
  right rows in order. Duplicate keys multiply rows. A row without a match disappears.
- `iloc[0]` on an empty selection and a missing dictionary key are lookup failures. They stop the
  script and are modelled as `Lookup.KeyMissing`.

Two generic modules carry the pandas building blocks: `Rows` (a boolean-mask filter and a column
projection) and `Sorting` (a stable insertion sort by a total preorder). The other modules follow the
pipeline: `StringOrder`, `Tables`, `Choices` (lists of names), `FareTable`,
`Joins`, `Selection` (the destination branch and the sidebar), `Legend` (the two lookups), and
`FareMap`, which runs the steps in the script's order.

The script reads its inputs from Streamlit widgets, CSV files and shape files. In the model these
are parameters:
- the payment means, the ticket type, the origin and the destination;
- the three tables;
- the colour dictionary. `Legend.ZoneColours` holds the script's `colour_dict2`, and the script runs
  `FareMap.Run` with it as the `colours` argument; `Legend.ZoneColourKeys` states its thirteen zones.

The sort is modelled as a stable insertion sort. `FareTable.NarrowIsTheOnlySortedOrder` proves that
any ordering of the narrowed rows by (`Fare`, `FareZone`) is the same sequence. Once payment means and
ticket type are fixed, two rows with equal keys are the same record. So the sort algorithm pandas
uses cannot change the result.

A general fare resolver would do more than this page does. The model follows the code:
- The code does not check that the origin is a known station.
- It has no distinct "pricing gap" outcome: unpriced and unreachable OD rows both vanish in the inner
  joins (`Joins.ResolveFaresCount`).
- It has no bus fare bands, no period passes and no duplicate-fare detection.
- A destination equal to the origin is not resolved. The page warns, and then the marker loop fails
  with a `NameError` because `stations_to_display` was never assigned.
- `"Any"` yields one row per joined row, not one per destination. Duplicate stations or fare rows
  repeat it.

## Model

| member | source | states |
|---|---|---|
| `StringOrder.BelowTotal` | code/FareCalcMap.py:54 | any two names are ordered one way or the other by Python's string comparison |
| `StringOrder.BelowTransitive` | code/FareCalcMap.py:54 | Python's string comparison is transitive |
| `StringOrder.BelowAntisymmetric` | code/FareCalcMap.py:52 | two zone names each at or below the other are equal |
| `StringOrder.BelowIsTotalPreorder` | code/FareCalcMap.py:54 | Python's string comparison is total and transitive, so `sorted` has a well-defined result |
| `Rows.Filter` | code/FareCalcMap.py:43-45 | a boolean-mask selection keeps each passing row as often as it occurs, drops every other row, and keeps the table order (the result is a subsequence) |
| `Sorting.InsertionSort` | code/FareCalcMap.py:52 | sorting by a total preorder returns a permutation of the input that is ordered pairwise |
| `Tables.DropLast` | code/FareCalcMap.py:175 | `chosen_payment_type[:-1]` is the payment name without its last character, or stays empty |
| `Choices.Unique` | code/FareCalcMap.py:39 | `unique()` holds each value of the column exactly once, and nothing else |
| `Choices.UniqueKeepsFirstOccurrenceOrder` | code/FareCalcMap.py:39 | `unique()` lists values in the order of their first occurrence in the column |
| `Choices.SortNames` | code/FareCalcMap.py:54 | `sorted` returns an ascending permutation of its input |
| `Choices.SortedUnique` | code/FareCalcMap.py:54 | sorting the unique values gives a strictly ascending list with exactly the column's values |
| `Choices.OriginList` | code/FareCalcMap.py:54 | the origin list is strictly ascending (so duplicate-free) and holds exactly the `Origin` values of the OD table |
| `Choices.DestinationList` | code/FareCalcMap.py:161-162 | the destination list is `"Any"` followed by a strictly ascending list holding exactly the `Destination` values |
| `FareTable.WithPayment` | code/FareCalcMap.py:43-45 | the payment filter keeps every row of the chosen payment means as often as it occurs, and no other row, in table order |
| `FareTable.WithTicket` | code/FareCalcMap.py:49-51 | the ticket filter keeps every row of the chosen ticket type as often as it occurs, and no other row, in table order |
| `FareTable.FareLeIsTotalPreorder` | code/FareCalcMap.py:52 | ordering rows by `Fare`, then `FareZone`, is total and transitive |
| `FareTable.PaymentChoices` | code/FareCalcMap.py:39 | the payment list holds each payment means of the fare table once |
| `FareTable.TicketChoices` | code/FareCalcMap.py:47 | the ticket list holds once each ticket type that the chosen payment means offers |
| `FareTable.SortFares` | code/FareCalcMap.py:52 | the sort is a permutation ordered by `Fare`, with equal fares ordered by `FareZone` |
| `FareTable.Narrow` | code/FareCalcMap.py:43-52 | the narrowed table has only rows of the chosen payment means and ticket type, drops none of them, and is sorted |
| `FareTable.NarrowIsTheOnlySortedOrder` | code/FareCalcMap.py:52 | every sorted permutation of the filtered rows equals the narrowed table, so the order does not depend on the sort algorithm |
| `Joins.FromOrigin` | code/FareCalcMap.py:74-76 | the selection keeps every OD row of the chosen origin as often as it occurs, and no other row, in table order |
| `Joins.JoinStations` | code/FareCalcMap.py:77-79 | the station merge holds exactly the (OD row, station) pairs with `Destination = stop_name`; its definition gives the nested-loop order (left rows in order, each followed by its matching stations in order), which the contract does not restate |
| `Joins.JoinFares` | code/FareCalcMap.py:80-82 | the fare merge holds exactly the (located row, fare row) pairs with `Value = FareZone`, in the same nested-loop order by definition |
| `Joins.ResolveFares` | code/FareCalcMap.py:74-82 | `fares_from_chosen_station` holds exactly the (OD row, station, fare row) triples of the inputs that start at the origin and match on both keys, in nested-loop order by definition |
| `Joins.JoinStationsCount` | code/FareCalcMap.py:77-79 | the station merge yields each (OD row, station) pair with matching names (count of the OD row) x (count of the station) times, and no other pair |
| `Joins.JoinFaresCount` | code/FareCalcMap.py:80-82 | the fare merge yields each (located row, fare row) pair of equal zone (count of one) x (count of the other) times, and no other pair |
| `Joins.ResolveFaresCount` | code/FareCalcMap.py:74-82 | a triple (OD row, station, fare row) occurs in `fares_from_chosen_station` the product of its three counts times when it starts at the origin and both keys match, else never |
| `Selection.ToDestination` | code/FareCalcMap.py:191-193 | the destination filter keeps every joined row reaching the destination as often as it occurs, and no other row, in table order |
| `Selection.Display` | code/FareCalcMap.py:188-193 | `"Any"` shows every joined row; another destination than the origin shows exactly its rows, in table order; the origin itself leaves the marker set unassigned |
| `Selection.DisplayOneDestination` | code/FareCalcMap.py:188-193 | for a specific destination, the marked rows are exactly the matching (OD row, station, fare row) triples that reach it, each with its join multiplicity |
| `Selection.ZoneLines` | code/FareCalcMap.py:177-186 | the summary has no more lines than there are joined rows; it is empty exactly when no row matches origin and destination; each line gives the zone and fare of a matching row |
| `Selection.ReportedRows` | code/FareCalcMap.py:177-186 | the rows the loop reports are each row matching origin and destination, as often as it occurs, in table order |
| `Selection.ZoneLinesAreReportedRows` | code/FareCalcMap.py:177-186 | the summary is exactly one zone/price line per reported row, duplicates included, in row order |
| `Selection.Sidebar` | code/FareCalcMap.py:167-186 | the sidebar is only the warning when destination equals origin; nothing for `"Any"`; otherwise the heading, the selection line, and the loop's zone/price lines in row order |
| `Selection.SidebarListsDisplayedRows` | code/FareCalcMap.py:177-193 | for a specific destination, the sidebar's zone/price lines are the marked rows, one per row, in the same order |
| `Legend.ZoneColourKeys` | code/FareCalcMap.py:103-117 | `colour_dict2` has thirteen distinct zones, D1 to D95, in the order written |
| `Legend.ColourIn` | code/FareCalcMap.py:211 | the colour lookup fails exactly for a zone that is not a key of the dictionary, and otherwise returns that key's colour |
| `Legend.MarkerColours` | code/FareCalcMap.py:196-214 | every marked row gets its zone's colour, in order; otherwise the run stops at the first row whose zone has no colour |
| `Legend.LegendPrice` | code/FareCalcMap.py:243 | the legend price fails exactly for a zone with no fare row; otherwise it is the fare of the first row of that zone |
| `Legend.LegendPriceIsCheapest` | code/FareCalcMap.py:240-244 | in the sorted table, the first row of a zone has that zone's lowest fare |
| `Legend.LegendShowsCheapestFare` | code/FareCalcMap.py:240-244 | the legend price of a zone is the lowest fare listed for the chosen payment means, ticket type and zone; it fails exactly when none is listed |
| `Legend.LegendPrices` | code/FareCalcMap.py:240-247 | the legend has one (zone, price) cell per colour zone, in dictionary order, when every zone is priced; otherwise the run stops at the first unpriced zone |
| `FareMap.MarkAndPrice` | code/FareCalcMap.py:196-247 | with the rows to mark fixed: the first row whose zone has no colour stops the run; else the first colour zone without a fare stops it; else one marker per row, coloured by its zone, and one legend cell per colour zone with its first fare (`FareMap.MarksAndPrices`) |
| `FareMap.MarksAndPricesIsDeterministic` | code/FareCalcMap.py:196-247 | at most one outcome fits that description, so it fixes the script's ending |
| `FareMap.ScriptOutcomeFacts` | code/FareCalcMap.py:188-247 | any outcome the script can have stops at line 196 exactly when the destination is the origin and not `"Any"`; a colour failure names the zone of a joined row that the dictionary lacks; a legend failure names a colour zone with no fare row for the chosen payment means and ticket type; a drawn legend prices every colour zone |
| `FareMap.ShownRowsAreJoined` | code/FareCalcMap.py:188-193 | every row chosen for a marker is a joined row |
| `FareMap.Draw` | code/FareCalcMap.py:188-247 | the ending is the one `FareMap.DrawsAsScript` describes for the narrowed table: unassigned markers exactly when the destination is the origin and not `"Any"`, otherwise `MarkAndPrice` on the rows `Selection.Display` picks; plus the facts of `ScriptOutcomeFacts` |
| `FareMap.Run` | code/FareCalcMap.py:39-247 | one run yields the payment, ticket, origin and destination lists, the joined table of the narrowed fares, the sidebar in all three cases, and the ending `FareMap.DrawsAsScript` describes, including a stop at line 196 exactly for a same-station query |

## Left out

- Streamlit widgets, sidebar layout, columns and images (lines 31, 40-48, 55-57, 163-165, 316-339). The chosen values are parameters. The default `index=` of each select box is not modelled.
- Reading the CSV files and shape files (lines 34-37, 60-71). The tables are given sequences of records. Of the station table, only `stop_name` is kept.
- The folium map, the zone polygons, the marker geometry and tooltips (lines 122-159, 196-230). Only the colour lookup at line 211 is modelled. The origin-coordinate lookup at lines 224-227 (an `IndexError` when the origin is not a station) is not part of this model.
- The colour scale conversions and `rgb2hex` (lines 86-87, 119, 232-234). These are floating-point presentation. The legend is keyed by the same zones in the same order as `colour_dict2`. `unique_fares` and `fare_num` (lines 84-85) only feed the unused colour map.
- The HTML strings and the `:.2f` formatting (lines 237-314). Only the zone and price in each legend cell, and the zone and cost in each sidebar line, are modelled.
- Fares are integers (cents), not floats. NaN and rounding are not modelled.
- `Legend.MarkerColours`: takes the colour dictionary as a parameter. The script passes `Legend.ZoneColours`.
- Inner-merge row order follows the nested-loop reading of "left key order". Some pandas versions group the output of an inner merge by key instead. The multiset lemmas hold either way.
