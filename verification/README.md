# Drill-down navigation of the COVID map dashboard, in Dafny

The dashboard shows a map of India next to a list of regions with their
confirmed, recovered and deceased counts. Clicking a region on the map or in
the list drills down from state to district to city. A back button climbs up
again. This project models that navigation and list logic as pure functions
over immutable data, without the Angular and d3 wrapper.

- `Js` (js.dfy): the JavaScript semantics the code relies on. Missing
  properties are `Option`s. Truthiness is modelled exactly: an empty string
  and a zero are falsy. `obj[undefined]` reads the key `"undefined"`. Plain
  objects are association lists with distinct keys, kept in `Object.keys`
  order.
- `Geo` (geo.dfy): the three levels and boundary features. A feature is
  reduced to its `NAME_1`/`NAME_2`/`NAME_3` properties. Also the
  order-preserving filter by one name property.
- `Covid` (covid.dfy): the statistics document and the loader's roll-up of
  district counts into a `total` per state. A falsy field counts as 0.
  - `LoadCovidData` is the loop with three accumulators.
  - `Aggregate` is the same computation as a pure function.
  - Lemmas show that the totals add up over concatenation, ignore district
    order, bound every district's count, and are zero exactly when no
    district reports a truthy value.
- `Listing` (listing.dfy): the list panel's rows.
  - A stat becomes `Unknown` ("XX") when its lookup is missing **or zero**.
  - `getUniqueList` is modelled with the code's own `findIndex` test.
  - `updateList` has three branches and leaves the list untouched when none
    applies.
- `MapComponent` (map_component.dfy): the map component's selection logic.
  - Name resolution and level classification of a clicked feature.
  - The city redraw.
  - The first-match search of `highlightFromList`, with its failure paths.
  - The viewport is recorded only as `Identity` or `ZoomedTo(feature)`.
- `AppComponent` (app_component.dfy): the controller.
  - The pure transitions `OnLevelSelected`, `OnBack` and `OnListItemClick`
    return the new cursor and a command for the map component.
  - `App` wires these to the map component and to the three document loads.

Behaviour the model keeps exactly as the code has it:

- `onBack` always clears the selected name, including on the step from the
  city level to the district level. After back from the city level, the
  controller sits at the district level with an empty name. `updateList`
  then matches no branch, so the city list stays on show
  (`BackFromCityKeepsList`).
- A click resolves `NAME_1 || NAME_2 || NAME_3`, so the least specific name
  wins: state, then district, then city. When all three are falsy, the
  result is `NAME_3` as it stands.
- `showCities` is passed that resolved name. So for a feature that carries
  both `NAME_1` and `NAME_2`, the redraw keeps the features whose `NAME_2`
  equals the state name (`ClickWithStateNameFiltersByStateName`).
- `highlightFromList` compares only `NAME_1` and `NAME_2`. It ignores its
  level argument.
- The statistics load does not recompute the list. A state list built before
  the statistics arrive keeps showing "XX" until the next `updateList`.

Further behaviour that may surprise a reader:

- A count of zero displays as "XX", the same as a missing count.
- The state boundaries are fetched independently by the controller, by the
  map component, and again on every zoom reset. No fetch is shared.
- A click on the map's background resets the map to all states without
  telling the controller, so the list and level stay where they were
  (`BackgroundClick`).

## Model

| member | source | states |
|---|---|---|
| Js.OrZero | CovidTracker/covid-tracker/src/app/app.component.ts:61-63 | `field \|\| 0` is the count when it is present and non-zero, otherwise 0; it is 0 exactly when the field is falsy |
| Js.Key | CovidTracker/covid-tracker/src/app/app.component.ts:142 | indexing with a present name uses that name as the key, and indexing with a missing name reads the key "undefined" |
| Js.Get | CovidTracker/covid-tracker/src/app/app.component.ts:142-144 | `obj[key]` is missing exactly when no entry has that key, and otherwise is the value of an entry with that key |
| Js.GetEntry | CovidTracker/covid-tracker/src/app/app.component.ts:60 | in an object with distinct keys, looking up any entry's key yields that entry's value |
| Geo.Select | CovidTracker/covid-tracker/src/app/app.component.ts:155 | the filter keeps exactly the features whose chosen name property equals the name, and never grows the sequence |
| Geo.SelectAppend | CovidTracker/covid-tracker/src/app/app.component.ts:155 | filtering distributes over concatenation, so the kept features stay in input order |
| Geo.SelectSingle | CovidTracker/covid-tracker/src/app/app.component.ts:173 | a single feature is kept iff its property matches |
| Geo.SelectNoMatch | CovidTracker/covid-tracker/src/app/app.component.ts:173 | when no feature matches, the filter yields the empty sequence |
| Covid.Contribution | CovidTracker/covid-tracker/src/app/app.component.ts:61-63 | each district adds, per statistic, its count when truthy and 0 otherwise |
| Covid.Districts | CovidTracker/covid-tracker/src/app/app.component.ts:60 | `Object.values(districtData \|\| {})` is empty when `districtData` is missing, and otherwise its values in key order |
| Covid.Totals | CovidTracker/covid-tracker/src/app/app.component.ts:57-64 | a state with no `districtData`, or an empty one, gets totals 0/0/0 |
| Covid.Aggregate | CovidTracker/covid-tracker/src/app/app.component.ts:56-72 | every state keeps its key, position and `districtData`, and gets `total` set to the sum of its districts, replacing any earlier total |
| Covid.LoadCovidData | CovidTracker/covid-tracker/src/app/app.component.ts:56-72 | the loader's loop (state by state, three accumulators from 0, `+= field \|\| 0`) computes exactly `Aggregate` |
| Covid.SumSingle | CovidTracker/covid-tracker/src/app/app.component.ts:60-64 | one district contributes its truthy fields and 0 for the rest |
| Covid.SumToSame | CovidTracker/covid-tracker/src/app/app.component.ts:60-64 | a running total depends only on the districts visited so far |
| Covid.SumToAppend | CovidTracker/covid-tracker/src/app/app.component.ts:60-64 | continuing the accumulation past a first run adds the first run's total |
| Covid.SumAppend | CovidTracker/covid-tracker/src/app/app.component.ts:60-64 | the total of two runs of districts is the sum of their totals |
| Covid.SumPermutation | CovidTracker/covid-tracker/src/app/app.component.ts:60 | the totals do not depend on the order `Object.values` visits the districts in |
| Covid.SumToZeroIff | CovidTracker/covid-tracker/src/app/app.component.ts:60-64 | a running total is 0 iff none of the visited districts has a truthy value for it |
| Covid.SumZeroIff | CovidTracker/covid-tracker/src/app/app.component.ts:60-64 | a state's total is 0 iff none of its districts has a truthy value for that statistic |
| Covid.SumToBound | CovidTracker/covid-tracker/src/app/app.component.ts:60-64 | each visited district's contribution is at most the running total |
| Covid.SumBound | CovidTracker/covid-tracker/src/app/app.component.ts:60-64 | no district's contribution exceeds its state's total |
| Covid.AggregateGet | CovidTracker/covid-tracker/src/app/app.component.ts:67-71 | after loading, a state lookup is missing iff it was missing before, and otherwise finds the same record with its total attached |
| Listing.Display | CovidTracker/covid-tracker/src/app/app.component.ts:142-144 | `value \|\| 'XX'` shows "XX" iff the value is missing or zero, and otherwise shows the value itself |
| Listing.StateEntry | CovidTracker/covid-tracker/src/app/app.component.ts:142 | `covidData?.[state]` is missing before the document loads and when no key equals the state name, and otherwise is that key's record |
| Listing.StateTotal | CovidTracker/covid-tracker/src/app/app.component.ts:142-144 | a state total is missing iff the document, the state's record or its `total` is missing, and otherwise is the record's total for that statistic |
| Listing.DistrictValue | CovidTracker/covid-tracker/src/app/app.component.ts:160-162 | a district figure is missing when the document, the state, its `districtData` or the district's entry is missing, and otherwise is exactly that entry's field |
| Listing.StateRow | CovidTracker/covid-tracker/src/app/app.component.ts:138-146 | a state feature's entry is named by its NAME_1 and shows that state's totals, all "XX" before the statistics load |
| Listing.DistrictRow | CovidTracker/covid-tracker/src/app/app.component.ts:156-164 | a district feature's entry is named by its NAME_2 and shows that district's figures under the selected state, all "XX" before the statistics load |
| Listing.CityRow | CovidTracker/covid-tracker/src/app/app.component.ts:174-179 | a city feature's entry is named by its NAME_3 and shows "XX" for every statistic |
| Listing.FindIndex | CovidTracker/covid-tracker/src/app/app.component.ts:188 | `findIndex` returns -1 or a position whose row holds the name |
| Listing.FindIndexFirst | CovidTracker/covid-tracker/src/app/app.component.ts:188 | the position `findIndex` returns is the first one holding the name, and it returns -1 iff no row holds it |
| Listing.UniqueUpTo | CovidTracker/covid-tracker/src/app/app.component.ts:186-190 | filtering a prefix by `index === findIndex` gives distinct names, covers every name of the prefix, and keeps first occurrences in input order |
| Listing.GetUniqueList | CovidTracker/covid-tracker/src/app/app.component.ts:186-190 | no two rows share a name; every input name survives; each survivor is the first row with its name; survivors keep input order |
| Listing.UniqueOfDistinct | CovidTracker/covid-tracker/src/app/app.component.ts:186-190 | rows whose names are already distinct come back unchanged |
| Listing.UniqueIdempotent | CovidTracker/covid-tracker/src/app/app.component.ts:186-190 | de-duplicating twice equals de-duplicating once |
| Listing.StateList | CovidTracker/covid-tracker/src/app/app.component.ts:137-147 | the state branch yields rows with distinct names, at most one per state feature |
| Listing.DistrictList | CovidTracker/covid-tracker/src/app/app.component.ts:153-165 | the district branch yields rows with distinct names, at most one per feature |
| Listing.CityList | CovidTracker/covid-tracker/src/app/app.component.ts:171-180 | the city branch yields rows with distinct names, at most one per feature |
| Listing.StateListSpec | CovidTracker/covid-tracker/src/app/app.component.ts:135-147 | the state list names every state feature's NAME_1 and nothing else, once each, and shows each state's own totals |
| Listing.StateListOfDistinct | CovidTracker/covid-tracker/src/app/app.component.ts:137-147 | with one feature per state, the list has exactly one row per feature, in feature order |
| Listing.DistrictListCovers | CovidTracker/covid-tracker/src/app/app.component.ts:151-165 | every NAME_2 of a feature whose NAME_1 is the selected state appears in the district list |
| Listing.DistrictListOnlyChildren | CovidTracker/covid-tracker/src/app/app.component.ts:151-165 | every district row is the NAME_2 of a feature whose NAME_1 is the selected state |
| Listing.DistrictListStats | CovidTracker/covid-tracker/src/app/app.component.ts:160-162 | a district row shows that district's own figures from the selected state's `districtData`, "XX" where missing or zero |
| Listing.DistrictListEmpty | CovidTracker/covid-tracker/src/app/app.component.ts:153-155 | a state without district features yields an empty list |
| Listing.CityListSpec | CovidTracker/covid-tracker/src/app/app.component.ts:169-180 | the city list names exactly the NAME_3 values of features whose NAME_2 is the selected district, once each, all figures "XX" |
| Listing.CityListEmpty | CovidTracker/covid-tracker/src/app/app.component.ts:171-173 | a district without city features yields an empty list |
| Listing.StateStatUnknownIff | CovidTracker/covid-tracker/src/app/app.component.ts:142-144 | once statistics are loaded, a state figure is "XX" iff the state is absent or none of its districts reports a truthy value |
| Listing.UpdateList | CovidTracker/covid-tracker/src/app/app.component.ts:132-184 | the list is left untouched when its document is not loaded or, at district or city level, the selected name is falsy; otherwise it is the state, district or city list for the level and selected name, with distinct names |
| MapComponent.Init | CovidTracker/covid-tracker/src/app/Components/india-with-states/india-with-states.component.ts:24-27 | before its fetch completes the component has no document, draws nothing, selects nothing and shows the identity viewport |
| MapComponent.OnStateGeoLoaded | CovidTracker/covid-tracker/src/app/Components/india-with-states/india-with-states.component.ts:47-52 | the loaded document is kept and all its features are drawn; selection and viewport are untouched |
| MapComponent.ClickedName | CovidTracker/covid-tracker/src/app/Components/india-with-states/india-with-states.component.ts:75 | the resolved name is one of the three properties, and it is truthy iff some property is |
| MapComponent.ClickedNameIsOrChain | CovidTracker/covid-tracker/src/app/Components/india-with-states/india-with-states.component.ts:75 | the resolved name is the value of `NAME_1 \|\| NAME_2 \|\| NAME_3`: the first truthy one, else NAME_3 |
| MapComponent.LevelOf | CovidTracker/covid-tracker/src/app/Components/india-with-states/india-with-states.component.ts:135-137 | a feature is classified District iff its NAME_2 is truthy and State otherwise, never City |
| MapComponent.LevelOfClickedName | CovidTracker/covid-tracker/src/app/Components/india-with-states/india-with-states.component.ts:75-93 | the emitted level agrees with the emitted name: a District event always carries a truthy name (NAME_2 when NAME_1 is falsy), a State event carries NAME_1 or, when that is falsy, NAME_3 |
| MapComponent.ShowCities | CovidTracker/covid-tracker/src/app/Components/india-with-states/india-with-states.component.ts:131-133 | the redraw shows exactly the loaded features whose NAME_2 equals the given name, in document order (the `Select` filter); nothing else changes |
| MapComponent.HandleClick | CovidTracker/covid-tracker/src/app/Components/india-with-states/india-with-states.component.ts:73-94 | a click selects and zooms onto the feature, redraws cities only when NAME_2 is truthy, and emits the resolved name with the classified level |
| MapComponent.Matches | CovidTracker/covid-tracker/src/app/Components/india-with-states/india-with-states.component.ts:143 | the search looks only at NAME_1 and NAME_2: a feature matching by NAME_3 alone never matches, and a feature with a truthy NAME_1 or NAME_2 matches its own resolved name |
| MapComponent.FindMatch | CovidTracker/covid-tracker/src/app/Components/india-with-states/india-with-states.component.ts:142-144 | `find` returns the first feature whose NAME_1 or NAME_2 equals the name, and nothing iff none does |
| MapComponent.HighlightFromList | CovidTracker/covid-tracker/src/app/Components/india-with-states/india-with-states.component.ts:140-152 | zooms onto the first NAME_1/NAME_2 match; reports not-found iff no feature matches and not-loaded iff nothing is loaded, leaving the map unchanged in both cases |
| MapComponent.ResetZoom | CovidTracker/covid-tracker/src/app/Components/india-with-states/india-with-states.component.ts:118-122 | the viewport returns to identity, the selection is kept, and the refetched states are all drawn |
| MapComponent.ClickWithStateNameFiltersByStateName | CovidTracker/covid-tracker/src/app/Components/india-with-states/india-with-states.component.ts:75-91 | a feature with both NAME_1 and NAME_2 emits District with its NAME_1, and the city redraw filters NAME_2 by that state name |
| AppComponent.InitialNav | CovidTracker/covid-tracker/src/app/app.component.ts:17-19 | the controller starts at state level with an empty name and an empty list |
| AppComponent.Down | CovidTracker/covid-tracker/src/app/app.component.ts:103-107 | advancing moves one level deeper, and the city level stays city |
| AppComponent.Up | CovidTracker/covid-tracker/src/app/app.component.ts:82-88 | going back moves one level up, and the state level stays state |
| AppComponent.OnLevelSelected | CovidTracker/covid-tracker/src/app/app.component.ts:100-114 | the level advances, the selected name becomes the event's name, and the list is recomputed for the new cursor |
| AppComponent.OnBack | CovidTracker/covid-tracker/src/app/app.component.ts:79-96 | the level goes up, the name becomes empty, a zoom reset is requested iff the new level is State, and the list is what `updateList` gives for the new cursor: unchanged below State or while the state boundaries are not loaded |
| AppComponent.OnListItemClick | CovidTracker/covid-tracker/src/app/app.component.ts:117-129 | a list click is the selection transition with the current level, then a highlight request at the new level |
| AppComponent.EventLevelIgnored | CovidTracker/covid-tracker/src/app/app.component.ts:100-114 | two events that differ only in their level lead to the same state |
| AppComponent.BackAfterSelect | CovidTracker/covid-tracker/src/app/app.component.ts:79-114 | back after advance returns to State or District when starting there, ends at District from City, and leaves the name empty |
| AppComponent.BackFromCityKeepsList | CovidTracker/covid-tracker/src/app/app.component.ts:82-91 | back from City reaches District with the list unchanged and no zoom reset |
| AppComponent.InitialApp | CovidTracker/covid-tracker/src/app/app.component.ts:17-29 | the dashboard starts at state level with an empty name and list, nothing loaded, and no map component yet |
| AppComponent.Dispatch | CovidTracker/covid-tracker/src/app/app.component.ts:122-128 | commands reach the map component only when it exists: a reset resets its zoom, a highlight runs `highlightFromList` |
| AppComponent.Back | CovidTracker/covid-tracker/src/app/app.component.ts:79-96 | the back button's cursor change, with the map's zoom reset exactly when the new level is State and a map exists; otherwise the map, present or absent, is unchanged |
| AppComponent.BackgroundClick | CovidTracker/covid-tracker/src/app/Components/india-with-states/india-with-states.component.ts:36 | a background click resets the map's zoom and, when the refetch arrives, stores and redraws the states (a failed refetch keeps the document and drawing), keeping the selection; the controller's cursor and list are untouched |
| AppComponent.ListItemClick | CovidTracker/covid-tracker/src/app/app.component.ts:117-129 | a list click makes the `onListItemClick` cursor change, including the list recomputed for the new level and name, and highlights the name on the map when the map exists |
| AppComponent.MapClick | CovidTracker/covid-tracker/src/app/Components/india-with-states/india-with-states.component.ts:73-94 | a map click runs `handleClick` on the map (selection, zoom, city redraw) and then advances the cursor with the emitted event, recomputing the list, whatever level the feature reports |
| AppComponent.MapCreated | CovidTracker/covid-tracker/src/app/Components/india-with-states/india-with-states.component.ts:24-27 | a newly created map component has nothing loaded, draws nothing, selects nothing and has no zoom; the cursor and documents are untouched |
| AppComponent.MapGeoLoaded | CovidTracker/covid-tracker/src/app/Components/india-with-states/india-with-states.component.ts:47-52 | the map's own fetch stores the document and draws every state, keeping selection and zoom; with no map nothing happens; the cursor and documents are untouched |
| AppComponent.StateGeoLoaded | CovidTracker/covid-tracker/src/app/app.component.ts:36-41 | storing the state boundaries reruns `updateList` for the unchanged cursor, giving the state list at state level; the other documents and the map are untouched |
| AppComponent.DistrictGeoLoaded | CovidTracker/covid-tracker/src/app/app.component.ts:44-48 | storing the district boundaries changes nothing else: not the cursor, the list, the other documents or the map |
| AppComponent.CovidLoaded | CovidTracker/covid-tracker/src/app/app.component.ts:50-76 | after the statistics load the stored document is exactly `Aggregate` of the raw one, so every state's lookup finds its record with totals attached; the list, the other documents and the map are untouched |

## Left out

- Fetching the three documents with `d3.json`. A completed fetch is an
  event carrying the document (`StateGeoLoaded`, `DistrictGeoLoaded`,
  `CovidLoaded`, `MapGeoLoaded`). A failed fetch is an event that never
  happens. The zoom reset's refetch outcome is a parameter.
- Drawing: SVG creation, path colouring, the Mercator projection and
  `fitSize`.
- The zoom transform. Its scale `min(8, 0.9 / max(...))` and translation are
  floating-point viewport arithmetic, and the transition is animated. Only
  the feature zoomed onto is recorded.
- Angular plumbing. `@ViewChild` becomes an optional map component,
  `EventEmitter` becomes a direct call, and click-event propagation is not
  modelled. Console logging is left out, including the lookup-failure log,
  which the model reports as an outcome.
- The item-list component is purely presentational. Its `trackByFn` returns
  the entry name.
- Values outside the modelled types. Counts are non-negative integers, so
  negative, fractional and string counts are not modelled. A `null` name is
  treated like a missing one, although `obj[null]` would read the key "null".
  Keys inherited from the object prototype (such as "constructor") are not
  modelled.
- Malformed documents, where a feature lacks `properties` or a state record
  is not an object. The code throws on these.
- `MapComponent.HandleClick`: it requires the clicked feature to be drawn,
  because clicks reach only drawn polygons. Clicks before anything is drawn
  cannot happen.
- Object identity of features. The code compares features by reference
  (`d === feature` in `zoomToFeature`, and `selectedFeature = d`). The model
  compares features by their three names, so two features with identical
  names cannot be told apart in `selected` or `ZoomedTo`.
