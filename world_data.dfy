/** The world map's data join (js/main.js): the urban-growth CSV rows are
    filtered to the ISO alpha-3 codes the numeric-to-alpha-3 crosswalk knows,
    turned into `dataMap` (code -> name and one value slot per year), and a map
    feature's numeric id is resolved through `parseInt` and the crosswalk to a
    fill colour or the no-data sentinel. */
module WorldData {
  import opened Common
  import opened KeyedTables

  const FirstYear := 1961
  const LastYear := 2023
  /** The fill of a country with no resolvable value. */
  const NoDataColor := "#eee"

  /** The years `values` has a slot for. */
  const Years: set<int> := IntRange(FirstYear, LastYear + 1)

  /** One CSV row: its `Country Code` and `Country Name` columns and its year
      columns (a missing year column is simply absent from `cells`). */
  datatype CsvRow = CsvRow(countryCode: string, countryName: string, cells: map<int, string>)

  /** A `dataMap` entry: `{name, values}`; a slot holds a number or `null`. */
  datatype Entry = Entry(name: string, values: map<int, Option<real>>)

  /** `parseFloat(d[y])`; reading a missing column gives `undefined`, which
      parses to NaN. */
  function CellNumber(row: CsvRow, y: int, parseFloat: string -> JsNumber): JsNumber
  {
    if y in row.cells then parseFloat(row.cells[y]) else NaN
  }

  /** `parseFloat(...) || null`: both falsy numbers, NaN and 0, become `null`. */
  function Stored(n: JsNumber): (r: Option<real>)
    ensures r.None? <==> (n == NaN || n == Num(0.0))
    ensures r.Some? ==> n == Num(r.value) && r.value != 0.0
  {
    match n
    case NaN => None
    case Num(x) => if x == 0.0 then None else Some(x)
  }

  /** The `values` object of the row's entry, as the reference definition
      the building loop is checked against. */
  function YearValues(row: CsvRow, parseFloat: string -> JsNumber): map<int, Option<real>>
  {
    map y | FirstYear <= y <= LastYear :: Stored(CellNumber(row, y, parseFloat))
  }

  function EntryOf(row: CsvRow, parseFloat: string -> JsNumber): Entry
  {
    Entry(row.countryName, YearValues(row, parseFloat))
  }

  function CountryCode(row: CsvRow): string { row.countryCode }

  /** `new Set(Object.values(isoMap))`. The crosswalk's JSON keys are taken to
      be canonical decimal integers, so the object is a map from `int`. */
  function ValidAlpha3(isoMap: map<int, string>): set<string> { isoMap.Values }

  /** `csvData.filter(d => validAlpha3.has(d["Country Code"]))`. */
  function KnownRows(csvData: seq<CsvRow>, isoMap: map<int, string>): seq<CsvRow>
  {
    Filter(csvData, CountryCode, ValidAlpha3(isoMap))
  }

  /** The `dataMap` the page builds from the CSV rows and the crosswalk. */
  function DataMapOf(csvData: seq<CsvRow>, isoMap: map<int, string>, parseFloat: string -> JsNumber): map<string, Entry>
  {
    Assigned(KnownRows(csvData, isoMap), CountryCode, (r: CsvRow) => EntryOf(r, parseFloat))
  }

  /** The `for (let y = 1961; y <= 2023; y++)` loop filling `values`. */
  method BuildValues(d: CsvRow, parseFloat: string -> JsNumber) returns (values: map<int, Option<real>>)
    ensures values == YearValues(d, parseFloat)
  {
    values := map[];
    var y := FirstYear;
    while y <= LastYear
      invariant FirstYear <= y <= LastYear + 1
      invariant values == map k | FirstYear <= k < y :: Stored(CellNumber(d, k, parseFloat))
    {
      values := values[y := Stored(CellNumber(d, y, parseFloat))];
      y := y + 1;
    }
  }

  /** Lines 52-65: filter the rows, then `dataMap.set` one entry per kept row
      in order. */
  method BuildDataMap(csvData: seq<CsvRow>, isoMap: map<int, string>, parseFloat: string -> JsNumber)
    returns (dataMap: map<string, Entry>)
    ensures dataMap == DataMapOf(csvData, isoMap, parseFloat)
  {
    var rows := KnownRows(csvData, isoMap);
    dataMap := map[];
    var i := 0;
    while i < |rows|
      invariant 0 <= i <= |rows|
      invariant dataMap == Assigned(rows[..i], CountryCode, (r: CsvRow) => EntryOf(r, parseFloat))
    {
      var d := rows[i];
      var values := BuildValues(d, parseFloat);
      dataMap := dataMap[d.countryCode := Entry(d.countryName, values)];
      assert rows[..i + 1][..i] == rows[..i];
      i := i + 1;
    }
    assert rows[..|rows|] == rows;
  }

  /** `isoMap[parseInt(numericId)]` followed by the `!iso3` test: a NaN id, an
      id the crosswalk lacks, and an empty code all count as unresolved. */
  function ResolveCode(numericId: string, isoMap: map<int, string>, parseInt: string -> Option<int>): (r: Option<string>)
    ensures r.Some? <==> parseInt(numericId).Some? && parseInt(numericId).value in isoMap
                         && isoMap[parseInt(numericId).value] != ""
    ensures r.Some? ==> r.value == isoMap[parseInt(numericId).value] && r.value in ValidAlpha3(isoMap)
  {
    match parseInt(numericId)
    case None => None
    case Some(n) => if n in isoMap && isoMap[n] != "" then Some(isoMap[n]) else None
  }

  /** The value `getColor` hands to the colour scale, if any:
      `!entry || entry.values[selectedYear] == null` means none. */
  function ValueFor(numericId: string, selectedYear: int, isoMap: map<int, string>,
                    dataMap: map<string, Entry>, parseInt: string -> Option<int>): (r: Option<real>)
    ensures r.Some? <==>
      var c := ResolveCode(numericId, isoMap, parseInt);
      c.Some? && c.value in dataMap && selectedYear in dataMap[c.value].values
      && dataMap[c.value].values[selectedYear].Some?
    ensures r.Some? ==>
      r == dataMap[ResolveCode(numericId, isoMap, parseInt).value].values[selectedYear]
  {
    match ResolveCode(numericId, isoMap, parseInt)
    case None => None
    case Some(iso3) =>
      if iso3 in dataMap && selectedYear in dataMap[iso3].values then dataMap[iso3].values[selectedYear]
      else None
  }

  /** `getColor` (lines 129-136): the sentinel or `colorScale(value)`. */
  function GetColor(numericId: string, selectedYear: int, isoMap: map<int, string>,
                    dataMap: map<string, Entry>, parseInt: string -> Option<int>,
                    colorScale: real -> string): (r: string)
    ensures ValueFor(numericId, selectedYear, isoMap, dataMap, parseInt).None? ==> r == NoDataColor
    ensures ValueFor(numericId, selectedYear, isoMap, dataMap, parseInt).Some? ==>
              r == colorScale(ValueFor(numericId, selectedYear, isoMap, dataMap, parseInt).value)
  {
    match ValueFor(numericId, selectedYear, isoMap, dataMap, parseInt)
    case None => NoDataColor
    case Some(v) => colorScale(v)
  }

  // ---------------------------------------------------------------------------
  // Properties of the join

  /** Every row's `values` has a slot for each year 1961..2023 and no other:
      63 slots. */
  lemma YearValuesSlots(row: CsvRow, parseFloat: string -> JsNumber)
    ensures YearValues(row, parseFloat).Keys == Years
    ensures |YearValues(row, parseFloat)| == 63
  {
    IntRangeCount(FirstYear, LastYear + 1);
  }

  /** A slot is `null` exactly when its cell parses to NaN or 0, and otherwise
      holds the parsed number unchanged. */
  lemma SlotValue(row: CsvRow, y: int, parseFloat: string -> JsNumber)
    requires FirstYear <= y <= LastYear
    ensures YearValues(row, parseFloat)[y].None? <==>
              CellNumber(row, y, parseFloat) == NaN || CellNumber(row, y, parseFloat) == Num(0.0)
    ensures YearValues(row, parseFloat)[y].Some? ==>
              CellNumber(row, y, parseFloat) == Num(YearValues(row, parseFloat)[y].value)
  {
  }

  /** `dataMap` holds exactly the codes that are crosswalk values and that some
      CSV row carries; rows with any other code are dropped. The entry of a kept
      code comes from the LAST row with that code. */
  lemma {:induction false} DataMapEntries(csvData: seq<CsvRow>, isoMap: map<int, string>,
                                          parseFloat: string -> JsNumber, code: string)
    ensures code in DataMapOf(csvData, isoMap, parseFloat) <==>
              code in isoMap.Values && LastIndexWith(csvData, CountryCode, code).Some?
    ensures code in DataMapOf(csvData, isoMap, parseFloat) ==>
              DataMapOf(csvData, isoMap, parseFloat)[code]
                == EntryOf(csvData[LastIndexWith(csvData, CountryCode, code).value], parseFloat)
  {
    var val := (r: CsvRow) => EntryOf(r, parseFloat);
    AssignedAfterFilter(csvData, CountryCode, val, ValidAlpha3(isoMap));
    AssignedIsLastRow(csvData, CountryCode, val, code);
  }

  /** Every key of `dataMap` is one of the crosswalk's values. */
  lemma DataMapKeysInCrosswalk(csvData: seq<CsvRow>, isoMap: map<int, string>, parseFloat: string -> JsNumber)
    ensures DataMapOf(csvData, isoMap, parseFloat).Keys <= isoMap.Values
  {
    forall code | code in DataMapOf(csvData, isoMap, parseFloat)
      ensures code in isoMap.Values
    {
      DataMapEntries(csvData, isoMap, parseFloat, code);
    }
  }

  /** Every entry of `dataMap` has the 63 year slots 1961..2023 and no others. */
  lemma DataMapSlots(csvData: seq<CsvRow>, isoMap: map<int, string>, parseFloat: string -> JsNumber, code: string)
    requires code in DataMapOf(csvData, isoMap, parseFloat)
    ensures DataMapOf(csvData, isoMap, parseFloat)[code].values.Keys == Years
    ensures |DataMapOf(csvData, isoMap, parseFloat)[code].values| == 63
  {
    DataMapEntries(csvData, isoMap, parseFloat, code);
    YearValuesSlots(csvData[LastIndexWith(csvData, CountryCode, code).value], parseFloat);
  }

  /** Of two rows with the same code, the later one's entry is kept. */
  lemma LaterRowReplaces(csvData: seq<CsvRow>, isoMap: map<int, string>, parseFloat: string -> JsNumber, r: CsvRow)
    requires r.countryCode in isoMap.Values
    ensures DataMapOf(csvData + [r], isoMap, parseFloat)[r.countryCode] == EntryOf(r, parseFloat)
  {
    DataMapEntries(csvData + [r], isoMap, parseFloat, r.countryCode);
  }

  /** A row whose code is no crosswalk value changes nothing. */
  lemma UnknownRowDropped(csvData: seq<CsvRow>, isoMap: map<int, string>, parseFloat: string -> JsNumber, r: CsvRow)
    requires r.countryCode !in isoMap.Values
    ensures DataMapOf(csvData + [r], isoMap, parseFloat) == DataMapOf(csvData, isoMap, parseFloat)
  {
    DroppedRowIsInvisible(csvData, r, CountryCode, (r: CsvRow) => EntryOf(r, parseFloat), ValidAlpha3(isoMap));
  }

  /** End to end: the fill of a feature, computed from the raw CSV rows. The
      feature's colour comes from the last CSV row carrying its resolved code,
      the filter never hides a code the crosswalk resolves to, and the sentinel
      appears exactly when the id does not resolve, no row carries the code,
      the year is outside 1961..2023, or the cell parses to NaN or 0. */
  lemma GetColorFromCsv(numericId: string, selectedYear: int, csvData: seq<CsvRow>, isoMap: map<int, string>,
                        parseFloat: string -> JsNumber, parseInt: string -> Option<int>, colorScale: real -> string)
    ensures GetColor(numericId, selectedYear, isoMap, DataMapOf(csvData, isoMap, parseFloat), parseInt, colorScale)
         == match ResolveCode(numericId, isoMap, parseInt)
            case None => NoDataColor
            case Some(code) =>
              match LastIndexWith(csvData, CountryCode, code)
              case None => NoDataColor
              case Some(i) =>
                if FirstYear <= selectedYear <= LastYear
                   && Stored(CellNumber(csvData[i], selectedYear, parseFloat)).Some?
                then colorScale(Stored(CellNumber(csvData[i], selectedYear, parseFloat)).value)
                else NoDataColor
  {
    var c := ResolveCode(numericId, isoMap, parseInt);
    if c.Some? {
      DataMapEntries(csvData, isoMap, parseFloat, c.value);
    }
  }
}
