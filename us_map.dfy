/** The US map (js/us-map.js): the `urbanData` table built from the CSV rows,
    the resolver `nameFromId` with its fixed id table, and the value that
    decides a state's fill and tooltip. */
module UsMap {
  import opened Common
  import opened KeyedTables

  /** The fill of a state without a value. */
  const NoDataColor := "#ccc"

  /** The census years each `urbanData` entry holds. */
  const CensusYears: set<int> := {1970, 1980, 1990, 2000, 2010}

  // ---------------------------------------------------------------------
  // urbanData

  /** One CSV row: its `Area Name` column and its year columns (a missing
      column is absent from `cells`). */
  datatype UsRow = UsRow(areaName: string, cells: map<int, string>)

  /** The table key of a row. */
  function AreaName(row: UsRow): string
  {
    row.areaName
  }

  /** `+row["<year>"]`: unary plus on the cell text; a missing column reads as
      `undefined`, whose unary plus is NaN. Either way the result is a number,
      never `undefined`. */
  function Plus(row: UsRow, year: int, toNumber: string -> JsNumber): (r: JsNumber)
    ensures year in row.cells ==> r == toNumber(row.cells[year])
    ensures year !in row.cells ==> r == NaN
  {
    if year in row.cells then toNumber(row.cells[year]) else NaN
  }

  /** The object literal stored for a row: one number per census year. */
  function StateValues(row: UsRow, toNumber: string -> JsNumber): map<int, JsNumber>
  {
    map[1970 := Plus(row, 1970, toNumber),
        1980 := Plus(row, 1980, toNumber),
        1990 := Plus(row, 1990, toNumber),
        2000 := Plus(row, 2000, toNumber),
        2010 := Plus(row, 2010, toNumber)]
  }

  /** `urbanData` after the `forEach`: every row assigned in turn under its
      `Area Name`. */
  function UrbanDataOf(data: seq<UsRow>, toNumber: string -> JsNumber): map<string, map<int, JsNumber>>
  {
    Assigned(data, AreaName, (row: UsRow) => StateValues(row, toNumber))
  }

  /** The `forEach` over the CSV rows, assigning `urbanData[state]` in place. */
  method BuildUrbanData(data: seq<UsRow>, toNumber: string -> JsNumber)
    returns (urbanData: map<string, map<int, JsNumber>>)
    ensures urbanData == UrbanDataOf(data, toNumber)
  {
    urbanData := map[];
    var i := 0;
    while i < |data|
      invariant 0 <= i <= |data|
      invariant urbanData == Assigned(data[..i], AreaName, (row: UsRow) => StateValues(row, toNumber))
    {
      var row := data[i];
      var state := row.areaName;
      // the object literal of js/us-map.js:45-51
      urbanData := urbanData[state := StateValues(row, toNumber)];
      assert data[..i + 1][..i] == data[..i];
      i := i + 1;
    }
    assert data[..|data|] == data;
  }

  /** Each row's entry has exactly the census years as keys, and each slot is
      the row's cell under unary plus. */
  lemma StateValuesKeys(row: UsRow, toNumber: string -> JsNumber)
    ensures StateValues(row, toNumber).Keys == CensusYears
    ensures forall y :: y in CensusYears ==> StateValues(row, toNumber)[y] == Plus(row, y, toNumber)
  {
  }

  /** `urbanData` has an entry for exactly the area names of the rows; the
      entry is that of the LAST row with the name, and it holds exactly the
      five census years. */
  lemma UrbanDataEntries(data: seq<UsRow>, toNumber: string -> JsNumber, state: string)
    ensures state in UrbanDataOf(data, toNumber) <==> exists i :: 0 <= i < |data| && data[i].areaName == state
    ensures state in UrbanDataOf(data, toNumber) ==>
      && LastIndexWith(data, AreaName, state).Some?
      && UrbanDataOf(data, toNumber)[state]
         == StateValues(data[LastIndexWith(data, AreaName, state).value], toNumber)
      && UrbanDataOf(data, toNumber)[state].Keys == CensusYears
  {
    var val := (row: UsRow) => StateValues(row, toNumber);
    AssignedIsLastRow(data, AreaName, val, state);
    if state in UrbanDataOf(data, toNumber) {
      StateValuesKeys(data[LastIndexWith(data, AreaName, state).value], toNumber);
    }
  }

  /** `urbanData`'s keys are exactly the rows' area names. */
  lemma UrbanDataKeys(data: seq<UsRow>, toNumber: string -> JsNumber)
    ensures UrbanDataOf(data, toNumber).Keys == set i | 0 <= i < |data| :: data[i].areaName
  {
    AssignedKeys(data, AreaName, (row: UsRow) => StateValues(row, toNumber));
  }

  /** A later row with the same `Area Name` overwrites the earlier entry. */
  lemma LaterRowOverwrites(data: seq<UsRow>, row: UsRow, toNumber: string -> JsNumber)
    ensures UrbanDataOf(data + [row], toNumber)[row.areaName] == StateValues(row, toNumber)
    ensures forall s :: s in UrbanDataOf(data, toNumber) && s != row.areaName ==>
      s in UrbanDataOf(data + [row], toNumber) && UrbanDataOf(data + [row], toNumber)[s] == UrbanDataOf(data, toNumber)[s]
  {
    assert (data + [row])[..|data + [row]| - 1] == data;
  }

  // ---------------------------------------------------------------------
  // nameFromId

  /** `s.padStart(targetLength, fill)` for a one-character `fill`. */
  function PadStart(s: string, targetLength: nat, fill: char): (r: string)
    ensures |s| >= targetLength ==> r == s
    ensures |s| < targetLength ==> |r| == targetLength
    ensures |s| < targetLength ==> r[targetLength - |s|..] == s
    ensures |s| < targetLength ==> forall i :: 0 <= i < targetLength - |s| ==> r[i] == fill
  {
    if |s| >= targetLength then s else seq(targetLength - |s|, _ => fill) + s
  }

  /** The id table, indexed by the number its two-digit key spells: the state
      named under key "01" is `NameOf(1)`, and so on. */
  function NameOf(n: int): Option<string>
  {
    match n
    case 1 => Some("Alabama")
    case 2 => Some("Alaska")
    case 4 => Some("Arizona")
    case 5 => Some("Arkansas")
    case 6 => Some("California")
    case 8 => Some("Colorado")
    case 9 => Some("Connecticut")
    case 10 => Some("Delaware")
    case 11 => Some("District of Columbia")
    case 12 => Some("Florida")
    case 13 => Some("Georgia")
    case 15 => Some("Hawaii")
    case 16 => Some("Idaho")
    case 17 => Some("Illinois")
    case 18 => Some("Indiana")
    case 19 => Some("Iowa")
    case 20 => Some("Kansas")
    case 21 => Some("Kentucky")
    case 22 => Some("Louisiana")
    case 23 => Some("Maine")
    case 24 => Some("Maryland")
    case 25 => Some("Massachusetts")
    case 26 => Some("Michigan")
    case 27 => Some("Minnesota")
    case 28 => Some("Mississippi")
    case 29 => Some("Missouri")
    case 30 => Some("Montana")
    case 31 => Some("Nebraska")
    case 32 => Some("Nevada")
    case 33 => Some("New Hampshire")
    case 34 => Some("New Jersey")
    case 35 => Some("New Mexico")
    case 36 => Some("New York")
    case 37 => Some("North Carolina")
    case 38 => Some("North Dakota")
    case 39 => Some("Ohio")
    case 40 => Some("Oklahoma")
    case 41 => Some("Oregon")
    case 42 => Some("Pennsylvania")
    case 44 => Some("Rhode Island")
    case 45 => Some("South Carolina")
    case 46 => Some("South Dakota")
    case 47 => Some("Tennessee")
    case 48 => Some("Texas")
    case 49 => Some("Utah")
    case 50 => Some("Vermont")
    case 51 => Some("Virginia")
    case 53 => Some("Washington")
    case 54 => Some("West Virginia")
    case 55 => Some("Wisconsin")
    case 56 => Some("Wyoming")
    case _ => None
  }

  /** A key made of two decimal digits. */
  predicate IsCode(key: string)
  {
    |key| == 2 && '0' <= key[0] <= '9' && '0' <= key[1] <= '9'
  }

  /** The number a two-digit key spells. */
  function CodeNumber(key: string): (n: int)
    requires IsCode(key)
    ensures 0 <= n < 100
  {
    (key[0] as int - '0' as int) * 10 + (key[1] as int - '0' as int)
  }

  /** The two-digit key that spells `n`. */
  function TwoDigits(n: int): (key: string)
    requires 0 <= n < 100
    ensures IsCode(key) && CodeNumber(key) == n
  {
    [DigitChar(n / 10), DigitChar(n % 10)]
  }

  /** `idMap[key]`: every key of the object is two decimal digits. */
  function IdName(key: string): Option<string>
  {
    if IsCode(key) then NameOf(CodeNumber(key)) else None
  }

  /** `nameFromId(id)`: pad the id to two characters with "0" and look it up. */
  function NameFromId(id: string): Option<string>
  {
    IdName(PadStart(id, 2, '0'))
  }

  /** A two-digit key is the rendering of its own number. */
  lemma CodeRoundTrip(key: string)
    requires IsCode(key)
    ensures TwoDigits(CodeNumber(key)) == key
  {
    var n := CodeNumber(key);
    assert n / 10 == key[0] as int - '0' as int;
    assert n % 10 == key[1] as int - '0' as int;
  }

  /** The numbers that have an entry: 1 to 56 except 3, 7, 14, 43 and 52. */
  const TableNumbers: set<int> := IntRange(1, 57) - {3, 7, 14, 43, 52}

  /** The keys of `idMap`. */
  const IdCodes: set<string> := set n | n in TableNumbers :: TwoDigits(n)

  /** `NameOf` has an entry exactly for the table numbers. */
  lemma NameOfDomain(n: int)
    ensures NameOf(n).Some? <==> n in TableNumbers
  {
    if NameOf(n).Some? {
      NamedAreTableNumbers(n);
    } else if n in TableNumbers {
      TableNumbersAreNamed(n);
    }
  }

  /** Every entry's number is a table number. */
  lemma NamedAreTableNumbers(n: int)
    requires NameOf(n).Some?
    ensures n in TableNumbers
  {
  }

  /** Every table number has an entry. */
  lemma TableNumbersAreNamed(n: int)
    requires n in TableNumbers
    ensures NameOf(n).Some?
  {
  }

  /** There are 51 table numbers. */
  lemma TableNumbersCount()
    ensures |TableNumbers| == 51
  {
    var gaps: set<int> := {3, 7, 14, 43, 52};
    IntRangeCount(1, 57);
    assert |gaps| == 5;
    assert IntRange(1, 57) * gaps == gaps;
  }

  /** The numbers of `s` below `k`. */
  function Below(s: set<int>, k: int): set<int>
  {
    set n | n in s && n < k
  }

  /** The two-digit keys of the numbers of `s` below `k`. */
  function KeysBelow(s: set<int>, k: int): set<string>
    requires forall n :: n in s ==> 0 <= n < 100
  {
    set n | n in s && n < k :: TwoDigits(n)
  }

  /** Raising the bound past a number of `s` adds that number and its key,
      and the key is new. */
  lemma BelowStep(s: set<int>, k: int)
    requires forall n :: n in s ==> 0 <= n < 100
    requires k in s
    ensures Below(s, k + 1) == Below(s, k) + {k} && k !in Below(s, k)
    ensures KeysBelow(s, k + 1) == KeysBelow(s, k) + {TwoDigits(k)}
    ensures TwoDigits(k) !in KeysBelow(s, k)
    ensures |Below(s, k + 1)| == |Below(s, k)| + 1
    ensures |KeysBelow(s, k + 1)| == |KeysBelow(s, k)| + 1
  {
    forall j | j in s && j < k
      ensures TwoDigits(j) != TwoDigits(k)
    {
      assert CodeNumber(TwoDigits(j)) == j;
    }
  }

  /** Raising the bound past a number not in `s` changes nothing. */
  lemma BelowSkip(s: set<int>, k: int)
    requires forall n :: n in s ==> 0 <= n < 100
    requires k !in s
    ensures Below(s, k + 1) == Below(s, k)
    ensures KeysBelow(s, k + 1) == KeysBelow(s, k)
    ensures |Below(s, k + 1)| == |Below(s, k)| && |KeysBelow(s, k + 1)| == |KeysBelow(s, k)|
  {
  }

  /** Below any bound, the two-digit keys of the numbers of `s` are as many as
      the numbers themselves. */
  lemma {:induction false} TwoDigitsCount(s: set<int>, k: int)
    requires 0 <= k <= 100
    requires forall n :: n in s ==> 0 <= n < 100
    ensures |KeysBelow(s, k)| == |Below(s, k)|
    decreases k
  {
    if k == 0 {
      assert Below(s, k) == {};
      assert KeysBelow(s, k) == {};
    } else {
      TwoDigitsCount(s, k - 1);
      if k - 1 in s {
        BelowStep(s, k - 1);
      } else {
        BelowSkip(s, k - 1);
      }
    }
  }

  /** The keys of `idMap` are exactly the codes with an entry, and there are
      51 of them (50 states and the District of Columbia). */
  lemma IdTableKeys(key: string)
    ensures IdName(key).Some? <==> key in IdCodes
    ensures |IdCodes| == 51
  {
    if IsCode(key) {
      CodeRoundTrip(key);
      NameOfDomain(CodeNumber(key));
    }
    if key in IdCodes {
      var n :| n in TableNumbers && TwoDigits(n) == key;
      NameOfDomain(n);
    }
    TableNumbersCount();
    TwoDigitsCount(TableNumbers, 100);
    assert Below(TableNumbers, 100) == TableNumbers;
    assert KeysBelow(TableNumbers, 100) == IdCodes;
  }

  /** The table recovered from the names: the reverse of `NameOf`. */
  function NumberOfName(name: string): int
  {
    match name
    case "Alabama" => 1
    case "Alaska" => 2
    case "Arizona" => 4
    case "Arkansas" => 5
    case "California" => 6
    case "Colorado" => 8
    case "Connecticut" => 9
    case "Delaware" => 10
    case "District of Columbia" => 11
    case "Florida" => 12
    case "Georgia" => 13
    case "Hawaii" => 15
    case "Idaho" => 16
    case "Illinois" => 17
    case "Indiana" => 18
    case "Iowa" => 19
    case "Kansas" => 20
    case "Kentucky" => 21
    case "Louisiana" => 22
    case "Maine" => 23
    case "Maryland" => 24
    case "Massachusetts" => 25
    case "Michigan" => 26
    case "Minnesota" => 27
    case "Mississippi" => 28
    case "Missouri" => 29
    case "Montana" => 30
    case "Nebraska" => 31
    case "Nevada" => 32
    case "New Hampshire" => 33
    case "New Jersey" => 34
    case "New Mexico" => 35
    case "New York" => 36
    case "North Carolina" => 37
    case "North Dakota" => 38
    case "Ohio" => 39
    case "Oklahoma" => 40
    case "Oregon" => 41
    case "Pennsylvania" => 42
    case "Rhode Island" => 44
    case "South Carolina" => 45
    case "South Dakota" => 46
    case "Tennessee" => 47
    case "Texas" => 48
    case "Utah" => 49
    case "Vermont" => 50
    case "Virginia" => 51
    case "Washington" => 53
    case "West Virginia" => 54
    case "Wisconsin" => 55
    case "Wyoming" => 56
    case _ => 0
  }

  /** Every entry's name leads back to its number. */
  lemma NameOfInverse(n: int)
    requires NameOf(n).Some?
    ensures NumberOfName(NameOf(n).value) == n
  {
  }

  /** No two keys of `idMap` name the same state. */
  lemma IdTableInjective(k1: string, k2: string)
    requires IdName(k1).Some? && IdName(k1) == IdName(k2)
    ensures k1 == k2
  {
    NameOfInverse(CodeNumber(k1));
    NameOfInverse(CodeNumber(k2));
    CodeRoundTrip(k1);
    CodeRoundTrip(k2);
  }

  /** Ids of two or more characters are looked up unchanged; shorter ids are
      padded on the left with "0". */
  lemma NameFromIdPads(id: string)
    ensures |id| >= 2 ==> NameFromId(id) == IdName(id)
    ensures |id| == 1 ==> NameFromId(id) == IdName("0" + id)
    ensures |id| == 0 ==> NameFromId(id) == None
  {
    if |id| == 1 {
      assert PadStart(id, 2, '0') == "0" + id;
    }
    if |id| == 0 {
      assert PadStart(id, 2, '0') == "00";
    }
  }

  /** Every key of the table resolves to its own entry. */
  lemma NameFromIdOfKey(key: string)
    requires IdName(key).Some?
    ensures NameFromId(key) == IdName(key)
  {
  }

  /** "6" is padded to "06" and gives California. */
  lemma CaliforniaExample()
    ensures NameFromId("6") == Some("California")
    ensures NameFromId("06") == Some("California")
  {
    NameFromIdPads("6");
    assert "0" + "6" == "06";
  }

  /** The codes skipped inside the table resolve to `undefined`. */
  lemma MissingCodes()
    ensures NameFromId("03") == None && NameFromId("07") == None && NameFromId("14") == None
  {
  }

  /** So do the later gaps and codes past the table, such as Puerto Rico's. */
  lemma MoreMissingCodes()
    ensures NameFromId("43") == None && NameFromId("52") == None && NameFromId("72") == None
  {
  }

  // ---------------------------------------------------------------------
  // Fill and tooltip

  /** The property key a JavaScript object lookup uses for `stateName`:
      `urbanData[undefined]` reads the key "undefined". */
  function PropertyKey(stateName: Option<string>): string
  {
    match stateName
    case None => "undefined"
    case Some(name) => name
  }

  /** `urbanData[stateName]?.[year]`: `None` for `undefined`. */
  function LookupValue(urbanData: map<string, map<int, JsNumber>>, id: string, year: int): (r: Option<JsNumber>)
    ensures r.Some? <==> PropertyKey(NameFromId(id)) in urbanData && year in urbanData[PropertyKey(NameFromId(id))]
    ensures r.Some? ==> r.value == urbanData[PropertyKey(NameFromId(id))][year]
  {
    var key := PropertyKey(NameFromId(id));
    if key in urbanData && year in urbanData[key] then Some(urbanData[key][year]) else None
  }

  /** The fill of the state with feature id `id` in `year`. */
  function Fill(urbanData: map<string, map<int, JsNumber>>, id: string, year: int, color: JsNumber -> string): (r: string)
    ensures LookupValue(urbanData, id, year).None? ==> r == NoDataColor
    ensures LookupValue(urbanData, id, year).Some? ==> r == color(LookupValue(urbanData, id, year).value)
  {
    match LookupValue(urbanData, id, year)
    case Some(value) => color(value)
    case None => NoDataColor
  }

  /** What the tooltip shows after the year: the value, or "N/A". */
  datatype TooltipValue = NotAvailable | Shown(value: JsNumber)

  /** The tooltip: the state name as the template prints it, the year, and
      `value ?? "N/A"` (a number is never `null`, so only `undefined` gives
      "N/A"). */
  datatype Tooltip = Tooltip(heading: string, year: int, value: TooltipValue)

  /** The mouseover handler's tooltip content. */
  function TooltipOf(urbanData: map<string, map<int, JsNumber>>, id: string, year: int): (r: Tooltip)
    ensures r.heading == PropertyKey(NameFromId(id)) && r.year == year
    ensures r.value == NotAvailable <==> LookupValue(urbanData, id, year).None?
    ensures r.value.Shown? ==> r.value.value == LookupValue(urbanData, id, year).value
  {
    var value := match LookupValue(urbanData, id, year)
      case Some(v) => Shown(v)
      case None => NotAvailable;
    Tooltip(PropertyKey(NameFromId(id)), year, value)
  }

  /** The tooltip shows "N/A" exactly when the fill is the sentinel branch, and
      otherwise shows the very value the fill was coloured from. */
  lemma TooltipAgreesWithFill(urbanData: map<string, map<int, JsNumber>>, id: string, year: int, color: JsNumber -> string)
    ensures TooltipOf(urbanData, id, year).value == NotAvailable ==> Fill(urbanData, id, year, color) == NoDataColor
    ensures TooltipOf(urbanData, id, year).value.Shown? ==>
      Fill(urbanData, id, year, color) == color(TooltipOf(urbanData, id, year).value.value)
  {
  }

  /** End to end: on the table built from the rows, a state gets the sentinel
      exactly when no row carries its resolved name or the year is not a census
      year; otherwise it is coloured from the last such row's cell, whatever
      that cell holds (blank and non-numeric cells give numbers, not
      `undefined`). */
  lemma FillFromRows(data: seq<UsRow>, toNumber: string -> JsNumber, id: string, year: int, color: JsNumber -> string)
    ensures var key := PropertyKey(NameFromId(id));
      && (LookupValue(UrbanDataOf(data, toNumber), id, year).None? <==>
           (LastIndexWith(data, AreaName, key).None? || year !in CensusYears))
      && (LastIndexWith(data, AreaName, key).Some? && year in CensusYears ==>
           Fill(UrbanDataOf(data, toNumber), id, year, color)
             == color(Plus(data[LastIndexWith(data, AreaName, key).value], year, toNumber)))
  {
    var key := PropertyKey(NameFromId(id));
    UrbanDataEntries(data, toNumber, key);
    AssignedIsLastRow(data, AreaName, (row: UsRow) => StateValues(row, toNumber), key);
    if LastIndexWith(data, AreaName, key).Some? {
      StateValuesKeys(data[LastIndexWith(data, AreaName, key).value], toNumber);
    }
  }
}
