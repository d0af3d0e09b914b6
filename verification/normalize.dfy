/**
  The per-source transforms of the current pipeline (`OlxTransform`, `OtoDomTransform`).
  Each column rule is a per-row function from a scraper's vocabulary to the shared one. A
  rule that raises on one cell makes the whole column conversion, and so the transform, raise.
 */
module Normalize {

  import opened Options
  import opened Strings
  import opened Dates
  import opened Records
  import opened Sequences
  import OlxExtract
  import OtoDomExtract

  /**
    A row of the transformed frames: the union of both sources' columns, each cell the text
    written to the CSV file, `None` for an empty (NaN) cell.
   */
  datatype Listing = Listing(
    id: Option<string>, source: Option<string>, date: Option<string>, city: Option<string>,
    marketType: Option<string>, createDate: Option<string>, modifyDate: Option<string>,
    title: Option<string>, url: Option<string>, price: Option<string>, pricePerM: Option<string>,
    area: Option<string>, buildingYear: Option<string>, floor: Option<string>, roomsNum: Option<string>,
    furniture: Option<string>, carGarage: Option<string>, heating: Option<string>, lift: Option<string>,
    rent: Option<string>)

  const Unknown := "Unknown"

  // ---------------------------------------------------------------------------------------
  // dates (both sources)

  /**
    `pd.to_datetime(...).dt.strftime('%Y%m%d')` on one cell: null stays null, a readable day
    becomes eight digits, anything else raises.
   */
  function DateCell(v: Option<string>): (r: Result<Option<string>>)
    ensures v.None? ==> r == Ok(None)
    ensures v.Some? ==> (r.Ok? <==> ParseIso(v.value).Some?)
    ensures r.Ok? && r.value.Some? ==> |r.value.value| == 8 && AllDigits(r.value.value)
  {
    match v
    case None => Ok(None)
    case Some(s) =>
      match ParseIso(s)
      case None => Raised("ValueError")
      case Some(d) =>
        BasicIsDateKey(d);
        Ok(Some(FormatBasic(d)))
  }

  /** The `YYYY-MM-DD` text of a day becomes its `YYYYMMDD` text. */
  lemma DateCellOfIso(d: Date)
    requires Representable(d)
    ensures DateCell(Some(FormatIso(d))) == Ok(Some(FormatBasic(d)))
  {
    ParseFormatIso(d);
  }

  /** `.str.split('T').str[0]`, then `DateCell`: a timestamp is cut at its first `T`. */
  function TimestampCell(v: Option<string>): (r: Result<Option<string>>)
    ensures v.None? ==> r == Ok(None)
    ensures v.Some? ==> (r.Ok? <==> ParseIso(BeforeT(v.value)).Some?)
  {
    DateCell(if v.Some? then Some(BeforeT(v.value)) else None)
  }

  /** A timestamp `<day>T<time>`, or a bare day, becomes the `YYYYMMDD` text of the day. */
  lemma TimestampCellOf(d: Date, time: string)
    requires Representable(d)
    ensures TimestampCell(Some(FormatIso(d) + "T" + time)) == Ok(Some(FormatBasic(d)))
    ensures TimestampCell(Some(FormatIso(d))) == Ok(Some(FormatBasic(d)))
  {
    IsoHasNoT(d);
    BeforeTOfTimestamp(FormatIso(d), time);
    ContainsChar(FormatIso(d), 'T');
    SplitFree(FormatIso(d), "T");
    DateCellOfIso(d);
  }

  // ---------------------------------------------------------------------------------------
  // OLX column rules

  /** The keys of `word_to_num`: `one` stands for 1, ..., `ten` for 10. */
  const RoomWords: seq<string> := ["one", "two", "three", "four", "five", "six", "seven", "eight", "nine", "ten"]

  /** The position of the first `w` in `words`. */
  function IndexOf(words: seq<string>, w: string): (r: Option<nat>)
    ensures r.Some? <==> w in words
    ensures r.Some? ==> r.value < |words| && words[r.value] == w
    decreases |words|
  {
    if |words| == 0 then None
    else if words[0] == w then Some(0)
    else
      assert words == [words[0]] + words[1..];
      match IndexOf(words[1..], w)
      case None => None
      case Some(k) => Some(k + 1)
  }

  /**
    `rooms_num.map(word_to_num)`: the number a room word stands for; any other text, and
    null, gives null.
   */
  function OlxRooms(v: Option<string>): (r: Option<nat>)
    ensures r.Some? <==> v.Some? && v.value in RoomWords
    ensures r.Some? ==> 1 <= r.value <= 10 && RoomWords[r.value - 1] == v.value
  {
    if v.None? then None
    else match IndexOf(RoomWords, v.value)
      case None => None
      case Some(k) => Some(k + 1)
  }

  lemma RoomWordsDistinct()
    ensures forall i, j :: 0 <= i < j < |RoomWords| ==> RoomWords[i] != RoomWords[j]
  {
  }

  /** Every word maps to its own number, so the table is read back both ways. */
  lemma OlxRoomsOfWord(k: nat)
    requires 1 <= k <= 10
    ensures OlxRooms(Some(RoomWords[k - 1])) == Some(k)
  {
    RoomWordsDistinct();
  }

  /** `more` (more than ten rooms) is not in the table and becomes null. */
  lemma OlxRoomsMore()
    ensures OlxRooms(Some("more")) == None
  {
    MoreIsNoRoomWord();
  }

  lemma MoreIsNoRoomWord()
    ensures "more" !in RoomWords
  {
    forall i | 0 <= i < |RoomWords|
      ensures RoomWords[i] != "more"
    {
      assert RoomWords[i][0] != 'm';
    }
  }

  /**
    `map({yesCode: yes, noCode: no})` with the misses filled by `other`: each code gets its
    value, and every other cell, null included, gets `other`.
   */
  function MapCodes<T(==)>(v: Option<string>, yesCode: string, yes: T, noCode: string, no: T, other: T): (r: T)
    requires yesCode != noCode && yes != no && yes != other && no != other
    ensures r == yes <==> v == Some(yesCode)
    ensures r == no <==> v == Some(noCode)
    ensures r == other <==> v != Some(yesCode) && v != Some(noCode)
  {
    if v == Some(yesCode) then yes else if v == Some(noCode) then no else other
  }

  /**
    `str.replace(code, replacement)` then `fillna(missing)`: a null cell becomes `missing`,
    the code itself becomes `replacement`, and text without the code is kept.
   */
  function ReplaceCode(v: Option<string>, code: string, replacement: string, missing: string): (r: string)
    requires |code| > 0
    ensures v.None? ==> r == missing
    ensures v.Some? && !Contains(v.value, code) ==> r == v.value
    ensures v == Some(code) ==> r == replacement
  {
    if v.None? then missing
    else
      ReplaceWhole(code, replacement);
      ReplaceAll(v.value, code, replacement)
  }

  lemma ReplaceWhole(code: string, replacement: string)
    requires |code| > 0
    ensures ReplaceAll(code, code, replacement) == replacement
  {
    FindIsFirst(code, code, 0, 0);
    assert code[..0] == "" && code[|code|..] == "";
  }

  /** `furniture.map({'yes': 'furniture', 'no': 'no_furniture'}).fillna('Unknown')`. */
  function OlxFurniture(v: Option<string>): (r: string)
    ensures r == "furniture" <==> v == Some("yes")
    ensures r == "no_furniture" <==> v == Some("no")
    ensures r == Unknown <==> v != Some("yes") && v != Some("no")
  {
    MapCodes(v, "yes", "furniture", "no", "no_furniture", Unknown)
  }

  /** `astype(str)`: a null cell prints as `nan`. */
  function AsText(v: Option<string>): string {
    if v.Some? then v.value else "nan"
  }

  /**
    `floor.astype(str).str.split('_').str[1]`: the second `_`-separated piece of the code,
    null when the code has no `_` (a null cell, printed `nan`, has none).
   */
  function OlxFloor(v: Option<string>): (r: Option<string>)
    ensures r.Some? <==> v.Some? && Contains(v.value, "_")
    ensures r.Some? ==> !Contains(r.value, "_")
  {
    var s := AsText(v);
    var pieces := Split(s, "_");
    SplitPiecesFree(s, "_");
    ContainsChar("nan", '_');
    if |pieces| >= 2 then Some(pieces[1]) else None
  }

  /** `floor_3` gives `3`. */
  lemma OlxFloorOf(a: string, b: string)
    requires '_' !in a && '_' !in b
    ensures OlxFloor(Some(a + "_" + b)) == Some(b)
  {
    ContainsChar(b, '_');
    SplitFree(b, "_");
    SplitAfterFree(a, "_", b);
  }

  /** Of a longer code such as `floor_higher_10` only the second piece is kept. */
  lemma OlxFloorSecondPiece(a: string, b: string, rest: string)
    requires '_' !in a && '_' !in b
    ensures OlxFloor(Some(a + "_" + b + "_" + rest)) == Some(b)
  {
    var tail := b + "_" + rest;
    var s := a + "_" + tail;
    assert a + "_" + b + "_" + rest == s;
    SplitAfterFree(a, "_", tail);
    SplitAfterFree(b, "_", rest);
    assert Split(s, "_")[1] == b;
  }

  /** `market_type.str.upper()`. */
  function OlxMarket(v: Option<string>): (r: Option<string>)
    ensures r.Some? <==> v.Some?
    ensures r.Some? ==> |r.value| == |v.value| && forall i :: 0 <= i < |r.value| ==> !('a' <= r.value[i] <= 'z')
    ensures r.Some? ==> forall i :: 0 <= i < |v.value| ==>
              if 'a' <= v.value[i] <= 'z' then r.value[i] as int == v.value[i] as int - 32 else r.value[i] == v.value[i]
  {
    if v.None? then None
    else
      UpperIdempotent(v.value);
      Some(Upper(v.value))
  }

  /** `.replace('Wroclaw', 'Wrocław').replace('Krakow', 'Kraków')`: whole-cell renames. */
  function UnifyCity(v: Option<string>): (r: Option<string>)
    ensures v == Some("Wroclaw") ==> r == Some("Wrocław")
    ensures v == Some("Krakow") ==> r == Some("Kraków")
    ensures v != Some("Wroclaw") && v != Some("Krakow") ==> r == v
  {
    if v == Some("Wroclaw") then Some("Wrocław")
    else if v == Some("Krakow") then Some("Kraków")
    else v
  }

  /** The OLX scraper's city keys, once unified, are the OtoDom scraper's, city by city. */
  lemma UnifiedCitiesMatch()
    ensures |OlxExtract.Cities| == |OtoDomExtract.Cities|
    ensures forall i :: 0 <= i < |OlxExtract.Cities| ==>
              UnifyCity(Some(OlxExtract.Cities[i])) == Some(OtoDomExtract.Cities[i])
  {
  }

  /** The columns both transforms pass through untouched. */
  predicate Carried(l: Listing, r: Raw) {
    && l.id == Get(r, Id) && l.source == Get(r, Source) && l.title == Get(r, Title) && l.url == Get(r, Url)
    && l.price == Get(r, Price) && l.pricePerM == Get(r, PricePerM) && l.area == Get(r, Area)
  }

  /**
    One row of `OlxTransform`: the date rules, the OLX column rules, `city_name` renamed to
    `city`, and the columns OLX lacks filled with constants.
   */
  function OlxRow(r: Raw): (l: Result<Listing>)
    ensures l.Ok? <==> DateCell(Get(r, Column.Date)).Ok? && TimestampCell(Get(r, CreateDate)).Ok?
                       && TimestampCell(Get(r, ModifyDate)).Ok?
    ensures l.Ok? ==> l.value.date == DateCell(Get(r, Column.Date)).value
                      && l.value.createDate == TimestampCell(Get(r, CreateDate)).value
                      && l.value.modifyDate == TimestampCell(Get(r, ModifyDate)).value
    ensures l.Ok? ==> l.value.floor == OlxFloor(Get(r, Floor))
                      && l.value.furniture == Some(OlxFurniture(Get(r, Furniture)))
                      && l.value.marketType == OlxMarket(Get(r, MarketType))
    ensures l.Ok? ==> (l.value.roomsNum.Some? <==> OlxRooms(Get(r, RoomsNum)).Some?)
    ensures l.Ok? && l.value.roomsNum.Some? ==> l.value.roomsNum.value == NatToString(OlxRooms(Get(r, RoomsNum)).value)
    ensures l.Ok? ==> l.value.carGarage == Some(Unknown) && l.value.heating == Some(Unknown)
                      && l.value.lift == Some(Unknown)
    ensures l.Ok? ==> l.value.rent.None? && l.value.buildingYear == Some("-1")
    ensures l.Ok? ==> l.value.city == UnifyCity(Get(r, CityName))
    ensures l.Ok? ==> Carried(l.value, r)
  {
    var date := DateCell(Get(r, Column.Date));
    var created := TimestampCell(Get(r, CreateDate));
    var modified := TimestampCell(Get(r, ModifyDate));
    if date.Raised? || created.Raised? || modified.Raised? then Raised("ValueError")
    else
      var rooms := OlxRooms(Get(r, RoomsNum));
      Ok(Listing(
        id := Get(r, Id), source := Get(r, Source), date := date.value,
        city := UnifyCity(Get(r, CityName)), marketType := OlxMarket(Get(r, MarketType)),
        createDate := created.value, modifyDate := modified.value,
        title := Get(r, Title), url := Get(r, Url), price := Get(r, Price),
        pricePerM := Get(r, PricePerM), area := Get(r, Area), buildingYear := Some("-1"),
        floor := OlxFloor(Get(r, Floor)),
        roomsNum := if rooms.Some? then Some(NatToString(rooms.value)) else None,
        furniture := Some(OlxFurniture(Get(r, Furniture))),
        carGarage := Some(Unknown), heating := Some(Unknown), lift := Some(Unknown),
        rent := None))
  }

  /** `OlxTransform`: every row through `OlxRow`; a date that cannot be read raises for all. */
  function OlxTransform(rows: seq<Raw>): (r: Result<seq<Listing>>)
    ensures r.Ok? <==> forall i :: 0 <= i < |rows| ==> OlxRow(rows[i]).Ok?
    ensures r.Ok? ==> |r.value| == |rows| && forall i :: 0 <= i < |rows| ==> OlxRow(rows[i]) == Ok(r.value[i])
  {
    Traverse(rows, OlxRow)
  }

  // ---------------------------------------------------------------------------------------
  // OtoDom column rules

  /** `lift.map({'::y': 'lift', '::n': 'no_lift'})`, then `fillna('Unknown')`. */
  function OtoDomLift(v: Option<string>): (r: string)
    ensures r == "lift" <==> v == Some("::y")
    ensures r == "no_lift" <==> v == Some("::n")
    ensures r == Unknown <==> v != Some("::y") && v != Some("::n")
  {
    MapCodes(v, "::y", "lift", "::n", "no_lift", Unknown)
  }

  const GarageCode := "extras_types-85::garage"

  /** `car.str.replace('extras_types-85::garage', 'garage').fillna('no_garage')`. */
  function CarGarage(v: Option<string>): (r: string)
    ensures v.None? ==> r == "no_garage"
    ensures v.Some? && !Contains(v.value, GarageCode) ==> r == v.value
  {
    ReplaceCode(v, GarageCode, "garage", "no_garage")
  }

  /** The garage code itself becomes `garage`. */
  lemma CarGarageOfCode()
    ensures CarGarage(Some(GarageCode)) == "garage"
  {
  }

  const Zloty := " zł"

  /** `rent.str.replace(' zł', '').str.replace(' ', '')`: currency and spaces removed. */
  function OtoDomRent(v: Option<string>): (r: Option<string>)
    ensures r.Some? <==> v.Some?
    ensures r.Some? ==> ' ' !in r.value
    ensures r.Some? ==> r.value == Without(ReplaceAll(v.value, Zloty, ""), ' ')
  {
    if v.None? then None
    else
      var s := ReplaceAll(v.value, Zloty, "");
      RemoveCharLeavesNone(s, ' ');
      RemoveCharIsWithout(s, ' ');
      Some(ReplaceAll(s, " ", ""))
  }

  /** Text without the currency suffix (say `450 EUR`) only loses its spaces. */
  lemma OtoDomRentNoZloty(s: string)
    requires !Contains(s, Zloty)
    ensures OtoDomRent(Some(s)) == Some(Without(s, ' '))
  {
    assert ReplaceAll(s, Zloty, "") == s;
  }

  /**
    At the first ` zł`, the text before it loses its spaces and the rest is cleaned the same
    way; with `OtoDomRentNoZloty` this fixes the rent of every text.
   */
  lemma OtoDomRentAt(a: string, b: string)
    requires !Contains(a, Zloty)
    ensures OtoDomRent(Some(a + Zloty + b)) == Some(Without(a, ' ') + OtoDomRent(Some(b)).value)
  {
    var z := Zloty;
    assert z[|z| - 1] !in z[..|z| - 1];
    DeleteAfterMarker(a, z, b, ' ');
  }

  /** An amount followed by ` zł` comes out as the amount with its spaces dropped. */
  lemma OtoDomRentOf(amount: string)
    requires !Contains(amount, Zloty)
    ensures OtoDomRent(Some(amount + Zloty)) == Some(Without(amount, ' '))
  {
    var s := amount + Zloty;
    FindMarkerAfter(amount, Zloty, "");
    assert amount + Zloty + "" == s;
    assert s[..|amount|] == amount;
    assert s[|amount| + |Zloty|..] == "";
    assert ReplaceAll(s, Zloty, "") == amount;
    RemoveCharIsWithout(amount, ' ');
  }

  /** The floor codes the transform maps to `floor_0`. */
  const FloorZeroCodes: seq<string> := ["ground_floor", "no::cellar", "no::garret"]

  /**
    `floor.map({... : 'floor_0'}).str.split('_').str[-1]`: `0` for the three ground-level
    codes; every other code, unmatched by `map`, becomes null.
   */
  function OtoDomFloor(v: Option<string>): (r: Option<string>)
    ensures r.Some? <==> v.Some? && v.value in FloorZeroCodes
    ensures r.Some? ==> r.value == "0"
  {
    if v.Some? && v.value in FloorZeroCodes then
      var pieces := Split("floor_0", "_");
      SplitFloorZero();
      Some(pieces[|pieces| - 1])
    else None
  }

  /** The mapped ground-floor code splits into `floor` and `0`. */
  lemma SplitFloorZero()
    ensures Split("floor_0", "_") == ["floor", "0"]
  {
    assert "floor_0" == "floor" + "_" + "0";
    SplitAfterFree("floor", "_", "0");
    ContainsChar("0", '_');
    SplitFree("0", "_");
  }

  /**
    `heating.str.split('::').str[-1]`, then `fillna('Unknown')`: the text after the last `::`,
    the whole code when it has none.
   */
  function HeatingType(v: Option<string>): (r: string)
    ensures v.None? ==> r == Unknown
    ensures v.Some? ==> !Contains(r, "::")
    ensures v.Some? ==> EndsWith(v.value, r)
    ensures v.Some? && Contains(v.value, "::") ==> EndsWith(v.value, "::" + r)
    ensures v.Some? && !Contains(v.value, "::") ==> r == v.value
  {
    if v.None? then Unknown
    else
      SplitPiecesFree(v.value, "::");
      LastPieceOfSplit(v.value, "::");
      LastPieceSuffix(v.value, "::");
      assert !Contains(v.value, "::") ==> LastPiece(v.value, "::") == v.value by {
        if !Contains(v.value, "::") {
          LastPieceFree(v.value, "::");
        }
      }
      LastPiece(v.value, "::")
  }

  /**
    A code `pre::code` whose last segment has no `:` gives that segment, however many `::`
    `pre` holds, provided `pre` does not end in `:` (which would move the last separator).
   */
  lemma HeatingOfCode(pre: string, code: string)
    requires ':' !in code && (|pre| > 0 ==> pre[|pre| - 1] != ':')
    ensures HeatingType(Some(pre + "::" + code)) == code
  {
    LastPieceAfterDoubled(pre, "::", code);
  }

  const MoreRooms := "rooms_num::more"

  /** `rooms_num.str.replace('rooms_num::more', '11')`. */
  function OtoDomRooms(v: Option<string>): (r: Option<string>)
    ensures r.Some? <==> v.Some?
    ensures v.Some? && !Contains(v.value, MoreRooms) ==> r == v
  {
    if v.None? then None else Some(ReplaceAll(v.value, MoreRooms, "11"))
  }

  /** The "more rooms" code becomes `11`. */
  lemma OtoDomRoomsMore()
    ensures OtoDomRooms(Some(MoreRooms)) == Some("11")
  {
    var s := MoreRooms;
    FindIsFirst(s, MoreRooms, 0, 0);
    assert s[..0] == "" && s[|MoreRooms|..] == "";
    assert ReplaceAll(s, MoreRooms, "11") == "" + "11" + ReplaceAll("", MoreRooms, "11");
    assert Find("", MoreRooms, 0) == -1;
    assert ReplaceAll("", MoreRooms, "11") == "";
    assert "" + "11" + "" == "11";
  }

  /**
    One row of `OtoDomTransform`: the date rules, the OtoDom column rules, furniture
    `Unknown`, and the dropped columns (building material, media, security, windows,
    construction status, outdoor, car) gone.
   */
  function OtoDomRow(r: Raw): (l: Result<Listing>)
    ensures l.Ok? <==> DateCell(Get(r, Column.Date)).Ok? && TimestampCell(Get(r, CreateDate)).Ok?
                       && TimestampCell(Get(r, ModifyDate)).Ok?
    ensures l.Ok? ==> l.value.date == DateCell(Get(r, Column.Date)).value
                      && l.value.createDate == TimestampCell(Get(r, CreateDate)).value
                      && l.value.modifyDate == TimestampCell(Get(r, ModifyDate)).value
    ensures l.Ok? ==> l.value.floor == OtoDomFloor(Get(r, Floor)) && l.value.roomsNum == OtoDomRooms(Get(r, RoomsNum))
                      && l.value.rent == OtoDomRent(Get(r, Rent))
    ensures l.Ok? ==> l.value.heating == Some(HeatingType(Get(r, Heating))) && l.value.lift == Some(OtoDomLift(Get(r, Lift)))
                      && l.value.carGarage == Some(CarGarage(Get(r, Car)))
    ensures l.Ok? ==> l.value.furniture == Some(Unknown) && l.value.city == Get(r, City)
                      && l.value.marketType == Get(r, MarketType) && l.value.buildingYear == Get(r, BuildingYear)
    ensures l.Ok? ==> Carried(l.value, r)
  {
    var date := DateCell(Get(r, Column.Date));
    var created := TimestampCell(Get(r, CreateDate));
    var modified := TimestampCell(Get(r, ModifyDate));
    if date.Raised? || created.Raised? || modified.Raised? then Raised("ValueError")
    else
      Ok(Listing(
        id := Get(r, Id), source := Get(r, Source), date := date.value,
        city := Get(r, City), marketType := Get(r, MarketType),
        createDate := created.value, modifyDate := modified.value,
        title := Get(r, Title), url := Get(r, Url), price := Get(r, Price),
        pricePerM := Get(r, PricePerM), area := Get(r, Area), buildingYear := Get(r, BuildingYear),
        floor := OtoDomFloor(Get(r, Floor)), roomsNum := OtoDomRooms(Get(r, RoomsNum)),
        furniture := Some(Unknown), carGarage := Some(CarGarage(Get(r, Car))),
        heating := Some(HeatingType(Get(r, Heating))), lift := Some(OtoDomLift(Get(r, Lift))),
        rent := OtoDomRent(Get(r, Rent))))
  }

  /** `OtoDomTransform`: every row through `OtoDomRow`; a date that cannot be read raises for all. */
  function OtoDomTransform(rows: seq<Raw>): (r: Result<seq<Listing>>)
    ensures r.Ok? <==> forall i :: 0 <= i < |rows| ==> OtoDomRow(rows[i]).Ok?
    ensures r.Ok? ==> |r.value| == |rows| && forall i :: 0 <= i < |rows| ==> OtoDomRow(rows[i]) == Ok(r.value[i])
  {
    Traverse(rows, OtoDomRow)
  }
}
