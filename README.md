# Urban growth choropleths: a Dafny model

The repository has two D3 pages that colour maps by urban-population figures:

- **World map** (`js/main.js`). It joins a CSV of annual urban growth rates to country shapes and picks each country's fill. It shows a note for some years and has a play/pause button that walks through the years.
- **US map** (`js/us-map.js`). It joins a CSV of census urbanisation figures to state shapes. A fixed table resolves each state's numeric id to its name.

This project models the sequential core under the rendering:
- the two data joins;
- the colour and tooltip choices;
- the annotation lookup;
- the playback state machine;
- the US id resolver.

It proves what the pages promise about them.

Modules, one concept each:

- `Common` (`common.dfy`): `Option`, and `JsNumber`, which is either NaN or a finite number. It also holds digit characters and integer ranges.
- `KeyedTables` (`keyed_tables.dfy`): what both pages do when they walk the CSV rows and assign each one under a key. That is `Map.set` on the world map and `urbanData[state] = …` on the US map. A later row overwrites an earlier one. This module also holds the row filter.
- `WorldData` (`world_data.dfy`): the world-map join and `getColor`.
  - `BuildValues` models the `for` loop that fills `values`.
  - `BuildDataMap` models the `forEach` that fills `dataMap`.
  - Both are methods proved equal to the functions `YearValues` and `DataMapOf`.
- `WorldAnnotations` (`world_annotations.dfy`): the `annotations` object, `updateAnnotation`'s choice of text, and `Number.prototype.toString` for integers.
  - The object is modelled as two lookups. `NoteYear` maps a key to its year: a key is four decimal digits spelling one of the 21 `AnnotatedYears`. `NoteText` maps a year to its note.
  - Together they give `StoredNote`, which is `annotations[key]`. `NoteKeys` proves the object's keys are exactly the decimal texts of the annotated years.
- `WorldPlayback` (`world_playback.dfy`): the slider and the play/pause state machine.
  - The pure step functions are `AfterClick`, `AfterTick` and `AfterSlide`.
  - The class `PlaybackController` keeps `year`, the annotation text, `isPlaying` and the running timer's counter `currentYear` as fields. Its methods update those fields in place, and each method's new state is that function of its old state.
  - The step functions take the annotation choice as a parameter `noteOf`. The controller fixes it to `NoteFor`, which is `Annotation` of the year's decimal text.
- `UsMap` (`us_map.dfy`): the `urbanData` loop, `nameFromId` with its id table, and the fill and tooltip value.
  - The id table `idMap` is modelled as `NameOf`, indexed by the number its key spells.
  - `IdName(key)` accepts exactly two-digit keys and looks up their number. This matches `idMap[key]`, because every key of the object is two decimal digits.

Parameters stand for the library calls: `parseFloat`, unary `+` (`toNumber`), `parseInt`, `colorScale` and `color`. On the world map, a year column that the row lacks reads as `undefined` and parses to NaN.

Two behaviours of the code to note:

- A world value that parses to exactly 0 is stored as `null` by `parseFloat(…) || null` (js/main.js:59). So it gets the no-data colour `#eee` (js/main.js:134), not a colour of the scale.
- Pressing play at year `y` shows `y` again on the first tick, and only then `y + 1`, … 2023 (js/main.js:157-165). From 2020 the ticks show 2020, 2021, 2022, 2023 and then stop.

## Model

| member | source | states |
|---|---|---|
| KeyedTables.AssignedIsLastRow | js/main.js:56-64 | After assigning rows in order under their keys, a key has an entry exactly when some row carries it, and the entry is the value of the last such row. |
| KeyedTables.AssignedKeys | js/us-map.js:43-45 | The keys of the assigned table are exactly the keys the rows carry. |
| KeyedTables.AssignedAfterFilter | js/main.js:52-64 | Filtering rows to valid keys and then assigning them gives the unfiltered table restricted to the valid keys. |
| KeyedTables.DroppedRowIsInvisible | js/main.js:53 | Appending a row whose key is not valid leaves the filtered-and-assigned table unchanged. |
| WorldData.Stored | js/main.js:59 | `parseFloat(…) \|\| null` gives `null` exactly for NaN and 0. Any other number is kept unchanged. |
| WorldData.BuildValues | js/main.js:57-60 | The year loop produces one slot per year 1961..2023, each holding `Stored` of that year's cell. |
| WorldData.YearValuesSlots | js/main.js:57-60 | A row's `values` has exactly the keys 1961..2023: 63 slots. |
| WorldData.SlotValue | js/main.js:59 | A slot is `null` exactly when its cell parses to NaN or 0, and otherwise holds the parsed number. |
| WorldData.CellNumber | js/main.js:59 | Computes `parseFloat(d[y])`, where a missing column parses as `undefined`, giving NaN. `SlotValue` states its use. |
| WorldData.YearValues | js/main.js:57-60 | Computes the `values` object of a row. `YearValuesSlots` and `SlotValue` state its keys and slots. |
| WorldData.EntryOf | js/main.js:61-64 | Computes the `{name, values}` entry of a row. `DataMapEntries` and `DataMapSlots` state its use. |
| WorldData.KnownRows | js/main.js:52-53 | Computes the rows whose `Country Code` is a crosswalk value, in their original order. `AssignedAfterFilter` and `UnknownRowDropped` state its effect. |
| WorldData.DataMapOf | js/main.js:52-65 | Computes `dataMap` after the `forEach`. `DataMapEntries`, `DataMapKeysInCrosswalk`, `DataMapSlots`, `LaterRowReplaces` and `UnknownRowDropped` state its properties. |
| WorldData.BuildDataMap | js/main.js:52-65 | The filter-then-`forEach` loop builds exactly the table of `DataMapOf`. |
| WorldData.DataMapEntries | js/main.js:52-64 | A code is in `dataMap` exactly when it is a crosswalk value that some row carries. Its entry is built from the last such row. |
| WorldData.DataMapKeysInCrosswalk | js/main.js:52-61 | Every key of `dataMap` is one of the crosswalk's values. |
| WorldData.DataMapSlots | js/main.js:57-63 | Every `dataMap` entry has exactly the 63 year slots. |
| WorldData.LaterRowReplaces | js/main.js:61-64 | Appending a row with a known code makes its entry the one stored under that code. |
| WorldData.UnknownRowDropped | js/main.js:53 | Appending a row whose code is not a crosswalk value leaves `dataMap` unchanged. |
| WorldData.ResolveCode | js/main.js:130-132 | The code resolves exactly when `parseInt` succeeds, the crosswalk has the number, and the code there is non-empty. |
| WorldData.ValueFor | js/main.js:133-134 | A value is handed to the scale exactly when the code resolves, has an entry, and the year's slot is non-null. |
| WorldData.GetColor | js/main.js:129-136 | The fill is `#eee` when there is no value, and `colorScale(value)` otherwise. |
| WorldData.GetColorFromCsv | js/main.js:129-136 | On the table built from the CSV, the fill is `#eee` when the id does not resolve, or no row carries the code, or the year is outside 1961..2023, or the last such row's cell is NaN or 0. Otherwise it is `colorScale` of that cell's number. |
| WorldAnnotations.NoteYear | js/main.js:20-42 | Computes the year whose note `annotations` stores under a key, or none. Its properties are stated by `NoteKeys` and `NoteYearOfYear`. |
| WorldAnnotations.NoteText | js/main.js:21-41 | Computes the note text written for each annotated year. It is read only through `NoteYear`, and `StoredNote` and `AnnotationOfYear` state its use. |
| WorldAnnotations.AnnotatedYearsCount | js/main.js:20-42 | The object annotates 21 years. |
| WorldAnnotations.YearKeyOf | js/main.js:160 | The text of a four-digit number is a four-digit key that spells that number. |
| WorldAnnotations.YearKeyRoundTrip | js/main.js:160 | A four-digit key without a leading zero is the text of the number it spells. |
| WorldAnnotations.NoteYearOfYear | js/main.js:20-42 | For every four-digit year, its text is a key exactly when the year is annotated, and that key selects the year. |
| WorldAnnotations.NoteKeys | js/main.js:20-42 | Every key of `annotations` is the text of an annotated year, and no other string is a key. |
| WorldAnnotations.StoredNote | js/main.js:20-42 | `annotations[key]` is present exactly when the key is the text of an annotated year, and then it holds that year's note. |
| WorldAnnotations.Annotation | js/main.js:121-127 | The paragraph shows the stored note when the key is present, and empty text otherwise. |
| WorldAnnotations.NatString | js/main.js:160 | `toString` of a non-negative integer is non-empty, all digits, and has no leading zero. |
| WorldAnnotations.NumberString | js/main.js:160 | `toString` of an integer: the digits of a non-negative one, and "-" before the digits of a negative one. `FourDigits` gives the exact digits of a four-digit year. |
| WorldAnnotations.AnnotationOfYear | js/main.js:121-127 | For every four-digit year, the paragraph shows its note when the year is annotated, and empty text otherwise. |
| WorldAnnotations.AnnotationOf1975 | js/main.js:20-42 | The text of 1975 is a key and yields the 1975 note. |
| WorldAnnotations.SliderAnnotationOf1975 | js/main.js:139-143 | The slider's string "1975", passed straight to `updateAnnotation`, is a key and yields the 1975 note. |
| WorldAnnotations.SliderAnnotationOf1976 | js/main.js:139-143 | The slider's string "1976" is not a key, so the paragraph is cleared. |
| WorldAnnotations.AnnotationOf1976 | js/main.js:121-127 | The text of 1976 is not a key, so the paragraph is cleared. |
| WorldPlayback.NoteFor | js/main.js:160-164 | Computes the paragraph `updateAnnotation(year)` shows for a displayed year, using the year's `toString`. `NoteForYear` states its value. |
| WorldPlayback.NoteForYear | js/main.js:160-164 | For every four-digit year, the note shown is that year's annotation when it has one, and empty text otherwise. |
| WorldPlayback.Initial | js/main.js:17-150 | The state on load is year 1961 with its note, not playing and with no timer. `InitialIsGood` shows that it satisfies the invariant. |
| WorldPlayback.AfterClick | js/main.js:153-177 | Computes the button handler's new state: start a timer counting from the displayed year, or clear the running one. `PlayStartsAtYear`, `PauseKeepsYear` and `StepPreservesGood` state its properties. |
| WorldPlayback.AfterTick | js/main.js:158-170 | Computes the timer callback's new state: show the counter's year and increment the counter while it is at most 2023, otherwise stop. `TickShows`, `TicksAdvance` and `PlayRunsToEnd` state its properties. |
| WorldPlayback.AfterSlide | js/main.js:139-144 | Computes the slider handler's new state: show the chosen year and its note. `SlideKeepsCounter` states its properties. |
| WorldPlayback.Step | js/main.js:139-177 | Computes the effect of one click, tick or slider event. `StepPreservesGood` and `RunPreservesGood` state its properties. |
| WorldPlayback.InitialIsGood | js/main.js:17-150 | On load (year 1961 with its note, not playing, no timer) the playback invariant holds. |
| WorldPlayback.StepPreservesGood | js/main.js:139-177 | Every click, tick and in-range slider event keeps the invariant. The invariant says: a timer runs exactly while playing, the note is the displayed year's, the year is in 1961..2023, and the counter is in 1961..2024. |
| WorldPlayback.RunPreservesGood | js/main.js:139-177 | Any sequence of events keeps the invariant, so the displayed year never exceeds 2023. |
| WorldPlayback.PlayStartsAtYear | js/main.js:154-157 | Pressing play sets `isPlaying` and starts the counter at the displayed year. The year and its note stay unchanged. |
| WorldPlayback.PauseKeepsYear | js/main.js:172-176 | Pressing the button while playing clears the timer and `isPlaying`, and leaves the year and note unchanged. |
| WorldPlayback.SlideKeepsCounter | js/main.js:139-144 | A slider input sets the year and its note but not the counter or `isPlaying`. While the counter is at most 2023, the next tick is the same as if the slider had not moved. |
| WorldPlayback.TickShows | js/main.js:159-165 | A tick with the counter at most 2023 shows the counter's year and its note, and increments the counter. |
| WorldPlayback.TicksAdvance | js/main.js:158-166 | From counter `c`, `n` ticks that stay within 2023 show `c`, …, `c+n-1` and leave the counter at `c+n`. |
| WorldPlayback.PlayRunsToEnd | js/main.js:153-171 | Pressing play at year `y` ≤ 2023: the ticks show `y`, …, 2023. The next tick stops playback with 2023 and its note displayed. |
| WorldPlayback.PlayFrom2020 | js/main.js:153-171 | From 2020 the ticks show 2020, 2021, 2022, 2023 and then stop at 2023. |
| WorldPlayback.ResumeRepeatsYear | js/main.js:153-176 | Pausing and playing again restarts the counter at the displayed year, which the next tick shows again. |
| WorldPlayback.PlaybackController.constructor | js/main.js:17-147 | The fields start in the initial state, which satisfies the invariant, and the note choice is `NoteFor`. |
| WorldPlayback.PlaybackController.SlideTo | js/main.js:139-144 | The new fields are `AfterSlide` of the old, and an in-range value keeps the invariant. |
| WorldPlayback.PlaybackController.Click | js/main.js:153-177 | The new fields are `AfterClick` of the old, and the invariant is kept. |
| WorldPlayback.PlaybackController.Tick | js/main.js:158-170 | The new fields are `AfterTick` of the old, and the invariant is kept. |
| UsMap.Plus | js/us-map.js:46-50 | `+row[year]` is the converted cell, or NaN for a missing column. It is always a number, never `undefined`. |
| UsMap.StateValues | js/us-map.js:45-51 | Computes the object literal stored for a row. `StateValuesKeys` states its keys and slots. |
| UsMap.UrbanDataOf | js/us-map.js:43-52 | Computes `urbanData` after the `forEach`. `UrbanDataEntries` and `LaterRowOverwrites` state its properties. |
| UsMap.BuildUrbanData | js/us-map.js:43-52 | The `forEach` builds exactly `UrbanDataOf` of the rows. |
| UsMap.StateValuesKeys | js/us-map.js:45-51 | Each entry has exactly the keys 1970, 1980, 1990, 2000, 2010, each holding the row's cell under unary plus. |
| UsMap.UrbanDataEntries | js/us-map.js:43-52 | A state is in `urbanData` exactly when some row has that Area Name. Its entry is that of the last such row and has exactly the five census years. |
| UsMap.UrbanDataKeys | js/us-map.js:43-45 | `urbanData`'s keys are exactly the rows' Area Names. |
| UsMap.LaterRowOverwrites | js/us-map.js:43-45 | A later row with the same Area Name overwrites the entry, and other entries stay. |
| UsMap.PadStart | js/us-map.js:160 | `padStart` leaves strings of the target length or longer unchanged. Shorter strings get fill characters on the left up to the target length. |
| UsMap.NameOf | js/us-map.js:147-159 | Computes the `idMap` entry for the number a key spells. `NameOfDomain`, `TableNumbersCount` and `NameOfInverse` state its domain and injectivity. |
| UsMap.IdName | js/us-map.js:147-160 | Computes `idMap[key]`, which is present only for two-digit keys. `IdTableKeys` and `IdTableInjective` state its keys. |
| UsMap.NameFromId | js/us-map.js:146-161 | Computes `nameFromId(id)`: pad the id and look it up. `NameFromIdPads`, `NameFromIdOfKey` and the examples state its results. |
| UsMap.NameOfDomain | js/us-map.js:147-159 | The table has an entry for exactly the numbers 1..56 except 3, 7, 14, 43 and 52. |
| UsMap.TableNumbersCount | js/us-map.js:147-159 | There are 51 such numbers. |
| UsMap.IdTableKeys | js/us-map.js:147-159 | A key resolves exactly when it is one of the two-digit codes of the table numbers, and there are 51 such codes. |
| UsMap.NameOfInverse | js/us-map.js:147-159 | Each entry's name leads back to its number through the reversed table. |
| UsMap.IdTableInjective | js/us-map.js:147-159 | No two keys of the table name the same state. |
| UsMap.CodeRoundTrip | js/us-map.js:147-159 | A two-digit key is the rendering of the number it spells. |
| UsMap.NameFromIdPads | js/us-map.js:160 | Ids of two or more characters are looked up unchanged. A one-character id is looked up with a "0" in front, and the empty id resolves to nothing. |
| UsMap.NameFromIdOfKey | js/us-map.js:146-160 | For every key of the table, `nameFromId(key)` returns that key's entry. |
| UsMap.CaliforniaExample | js/us-map.js:146-160 | "6" and "06" both give California. |
| UsMap.MissingCodes | js/us-map.js:146-160 | "03", "07" and "14" give `undefined`. |
| UsMap.MoreMissingCodes | js/us-map.js:146-160 | "43", "52" and "72" give `undefined`. |
| UsMap.PropertyKey | js/us-map.js:128-129 | Computes the property key `urbanData[stateName]` reads: the name, or "undefined" when the id does not resolve. `LookupValue` states its use. |
| UsMap.LookupValue | js/us-map.js:128-129 | `urbanData[stateName]?.[year]` is present exactly when the name's property key has an entry with the year. An unresolved name reads the key "undefined". |
| UsMap.Fill | js/us-map.js:127-131 | The fill is `#ccc` exactly when the looked-up value is `undefined`, and `color(value)` otherwise. |
| UsMap.TooltipOf | js/us-map.js:132-136 | The tooltip shows the name as printed, the year, and "N/A" exactly when the value is `undefined`. Otherwise it shows that value. |
| UsMap.TooltipAgreesWithFill | js/us-map.js:127-136 | "N/A" in the tooltip goes with the `#ccc` fill. A shown value is the one the fill was coloured from. |
| UsMap.FillFromRows | js/us-map.js:127-131 | On the table built from the rows, the value is `undefined` exactly when no row carries the resolved name or the year is not a census year. Otherwise the fill is `color` of the last such row's converted cell, whatever text the cell holds. |

## Left out

- Loading: `Promise.all`, the JSON and CSV fetches, the CDN atlas and `topojson.feature` are I/O and library calls. The parsed rows, the crosswalk and the feature ids are inputs.
- Rendering is DOM and d3 internals: projections, `geoPath`, zoom and pan, path creation and removal, transitions, tooltip positioning, the legends, and button and label text.
- The world map's tooltip (js/main.js:84-103) is not modelled. Neither is the `toFixed(2)` formatting of its value.
- `colorScale`, `color`, `parseFloat`, unary `+` and `parseInt` are abstract parameters; only the `\|\| null` rule built on them is modelled. So are the interpolators and the scales' clamping.
- JavaScript numbers: `JsNumber` has NaN and finite values only. Infinities and the sign of zero are not modelled.
- JavaScript property keys: the crosswalk is a `map<int, string>`, which assumes its JSON keys are canonical decimal integers. Years are `int`s, which assumes the slider offers canonical decimal year strings. Prototype keys such as "constructor" are not modelled as present.
- Timing: the 1000 ms interval and the event loop are not modelled. Clicks, ticks and slider inputs are sequential calls. A tick happens only while a timer runs.
- WorldPlayback.StepPreservesGood, WorldPlayback.RunPreservesGood and WorldPlayback.PlaybackController.SlideTo: their invariant results assume slider values lie in 1961..2023. The slider's bounds live in the HTML page, which is not part of this model. Without that assumption a slider event can take the displayed year outside 1961..2023.
- Feature ids on the US map are taken to be strings, as the atlas supplies them. For a numeric or missing `d.id`, `id.padStart` at js/us-map.js:160 throws a TypeError that aborts the fill callback at js/us-map.js:127-131. That error path is not modelled.
- WorldAnnotations.NatString: it states the form of the text (digits, no leading zero) rather than its full decimal value; `FourDigits` gives the exact digits for four-digit years.
- The annotation texts are the ones in js/main.js:21-41. The model proves which keys select them, through `NoteKeys`, `NoteYearOfYear` and `AnnotationOfYear`. It proves nothing about their wording.
