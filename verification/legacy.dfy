/**
  The older transforms (`OlxTransform`, `OtoDomTransform` and `join_data` of the first ETL
  version). They keep dates as days rather than `YYYYMMDD` text, encode furniture and lift as
  0/1 flags and the garage code as `1`, leave missing heating null, and rename the flag
  columns to `*_flg` when joining.
 */
module Legacy {

  import opened Options
  import opened Strings
  import opened Dates
  import opened Records
  import opened Sequences
  import opened Normalize
  import Reconcile

  /**
    A row of the older transformed frames. Cells are Python values: days for the dates, 0/1
    flags for furniture and lift, text for the rest; `None` is a null cell.
   */
  datatype LegacyRow = LegacyRow(
    id: Option<string>, source: Option<string>, date: Option<Date>, city: Option<string>,
    marketType: Option<string>, createDate: Option<Date>, modifyDate: Option<Date>,
    title: Option<string>, url: Option<string>, price: Option<string>, pricePerM: Option<string>,
    area: Option<string>, buildingYear: Option<string>, floor: Option<string>, roomsNum: Option<string>,
    furniture: Option<int>, car: Option<string>, heating: Option<string>, lift: Option<int>,
    rent: Option<string>)

  // ---------------------------------------------------------------------------------------
  // dates

  /**
    `pd.to_datetime` on one cell: null stays null (`NaT`), a readable day becomes that day,
    anything else raises. It raises exactly where the newer rule does, and the newer rule's
    text is the `YYYYMMDD` rendering of the day found here.
   */
  function LegacyDate(v: Option<string>): (r: Result<Option<Date>>)
    ensures r.Ok? <==> DateCell(v).Ok?
    ensures r.Ok? ==> (r.value.Some? <==> v.Some?)
    ensures r.Ok? && r.value.Some? ==> Representable(r.value.value) && DateCell(v) == Ok(Some(FormatBasic(r.value.value)))
  {
    match v
    case None => Ok(None)
    case Some(s) =>
      match ParseIso(s)
      case None => Raised("ValueError")
      case Some(d) => Ok(Some(d))
  }

  /** `.str.split('T').str[0]`, then `pd.to_datetime`: the day of a timestamp. */
  function LegacyTimestamp(v: Option<string>): (r: Result<Option<Date>>)
    ensures r.Ok? <==> TimestampCell(v).Ok?
    ensures r.Ok? ==> (r.value.Some? <==> v.Some?)
    ensures r.Ok? && r.value.Some? ==> Representable(r.value.value) && TimestampCell(v) == Ok(Some(FormatBasic(r.value.value)))
  {
    LegacyDate(if v.Some? then Some(BeforeT(v.value)) else None)
  }

  /** A timestamp `<day>T<time>` gives its day. */
  lemma LegacyTimestampOf(d: Date, time: string)
    requires Representable(d)
    ensures LegacyTimestamp(Some(FormatIso(d) + "T" + time)) == Ok(Some(d))
  {
    IsoHasNoT(d);
    BeforeTOfTimestamp(FormatIso(d), time);
    ParseFormatIso(d);
  }

  // ---------------------------------------------------------------------------------------
  // flags

  /** `furniture.map({'yes': 1, 'no': 0})`: other values and null become null. */
  function LegacyFurniture(v: Option<string>): (r: Option<int>)
    ensures r == Some(1) <==> v == Some("yes")
    ensures r == Some(0) <==> v == Some("no")
    ensures r.None? <==> v != Some("yes") && v != Some("no")
  {
    MapCodes(v, "yes", Some(1), "no", Some(0), None)
  }

  /** `lift.map({'::y': 1, '::n': 0})`: other values and null become null. */
  function LegacyLift(v: Option<string>): (r: Option<int>)
    ensures r == Some(1) <==> v == Some("::y")
    ensures r == Some(0) <==> v == Some("::n")
    ensures r.None? <==> v != Some("::y") && v != Some("::n")
  {
    MapCodes(v, "::y", Some(1), "::n", Some(0), None)
  }

  /** The newer labels of a 0/1 flag: `yes` for 1, `no` for 0, `Unknown` for null. */
  function FlagLabel(flag: Option<int>, yes: string, no: string): string {
    match flag
    case Some(1) => yes
    case Some(0) => no
    case _ => Unknown
  }

  /** Both versions split furniture the same way; only the labels differ. */
  lemma FurnitureEncodingsAgree(v: Option<string>)
    ensures OlxFurniture(v) == FlagLabel(LegacyFurniture(v), "furniture", "no_furniture")
  {
  }

  /** Both versions split lift the same way; only the labels differ. */
  lemma LiftEncodingsAgree(v: Option<string>)
    ensures OtoDomLift(v) == FlagLabel(LegacyLift(v), "lift", "no_lift")
  {
  }

  /**
    `car.str.replace('extras_types-85::garage', '1').fillna(0)`: the garage code becomes `1`,
    a null cell `0`, any other value is kept.
   */
  function LegacyCar(v: Option<string>): (r: string)
    ensures v.None? ==> r == "0"
    ensures v.Some? && !Contains(v.value, GarageCode) ==> r == v.value
  {
    ReplaceCode(v, GarageCode, "1", "0")
  }

  /** The garage code becomes `1`; the newer version writes `garage` instead. */
  lemma LegacyCarOfCode()
    ensures LegacyCar(Some(GarageCode)) == "1"
    ensures CarGarage(Some(GarageCode)) == "garage"
  {
  }

  /** `heating.str.split('::').str[-1]`, null left null. */
  function LegacyHeating(v: Option<string>): (r: Option<string>)
    ensures r.Some? <==> v.Some?
    ensures r.Some? ==> !Contains(r.value, "::")
    ensures r.Some? ==> r.value == HeatingType(v)
  {
    if v.None? then None
    else
      var pieces := Split(v.value, "::");
      SplitPiecesFree(v.value, "::");
      LastPieceOfSplit(v.value, "::");
      Some(pieces[|pieces| - 1])
  }

  /** The newer heating rule is the older one with null filled as `Unknown`. */
  lemma HeatingEncodingsAgree(v: Option<string>)
    ensures HeatingType(v) == LegacyHeating(v).GetOr(Unknown)
  {
  }

  /**
    `floor.str.split('_').str[1]` without the newer `astype(str)`: null stays null, and a code
    without `_` has no second piece.
   */
  function LegacyFloor(v: Option<string>): (r: Option<string>)
    ensures r.Some? ==> v.Some?
  {
    if v.None? then None
    else
      var pieces := Split(v.value, "_");
      if |pieces| >= 2 then Some(pieces[1]) else None
  }

  /** Stringifying first changes nothing: the printed null `nan` has no `_` either. */
  lemma FloorEncodingsAgree(v: Option<string>)
    ensures OlxFloor(v) == LegacyFloor(v)
  {
    ContainsChar("nan", '_');
    SplitFree("nan", "_");
  }

  // ---------------------------------------------------------------------------------------
  // rent

  /**
    The currency suffix as the older file spells it: `ł` stored as UTF-8 (bytes C5 82) and
    read back as Mac Roman, which shows those bytes as `≈` and `Ç`.
   */
  const MisencodedZloty := " z≈Ç"

  /** `rent.str.replace(' z≈Ç', '').str.replace(' ', '')`. */
  function LegacyRent(v: Option<string>): (r: Option<string>)
    ensures r.Some? <==> v.Some?
    ensures r.Some? ==> ' ' !in r.value
    ensures r.Some? ==> r.value == Without(ReplaceAll(v.value, MisencodedZloty, ""), ' ')
  {
    if v.None? then None
    else
      var s := ReplaceAll(v.value, MisencodedZloty, "");
      RemoveCharLeavesNone(s, ' ');
      RemoveCharIsWithout(s, ' ');
      Some(ReplaceAll(s, " ", ""))
  }

  /** Text without `≈`, which is all scraped text, only loses its spaces. */
  lemma LegacyRentPlain(s: string)
    requires '≈' !in s
    ensures LegacyRent(Some(s)) == Some(Without(s, ' '))
  {
    MisencodedAbsent(s);
  }

  /**
    At the first mis-encoded suffix, the text before it loses its spaces and the rest is
    cleaned the same way.
   */
  lemma LegacyRentAt(a: string, b: string)
    requires !Contains(a, MisencodedZloty)
    ensures LegacyRent(Some(a + MisencodedZloty + b)) == Some(Without(a, ' ') + LegacyRent(Some(b)).value)
  {
    var z := MisencodedZloty;
    assert z[|z| - 1] !in z[..|z| - 1];
    DeleteAfterMarker(a, z, b, ' ');
  }

  /** Text without `≈` is left alone by the first replacement. */
  lemma MisencodedAbsent(s: string)
    requires '≈' !in s
    ensures ReplaceAll(s, MisencodedZloty, "") == s
  {
    var p := MisencodedZloty;
    assert p[2] == '≈';
    MissingCharNotContained(s, p, 2);
  }

  lemma ZlotyWithoutSpace()
    ensures Without(Zloty, ' ') == "zł"
  {
    var z := Zloty;
    assert z[1..] == "zł" && z[1..][1..] == "ł" && z[1..][1..][1..] == "";
    assert Without(z[1..][1..], ' ') == "ł";
  }

  /**
    A rent written `<amount> zł`, as the scraper reads it, keeps its currency: the
    mis-encoded pattern never occurs, so only the spaces go.
   */
  lemma LegacyRentKeepsSuffix(amount: string)
    requires '≈' !in amount
    ensures LegacyRent(Some(amount + Zloty)) == Some(Without(amount, ' ') + "zł")
  {
    var s := amount + Zloty;
    assert Zloty == [' ', 'z', 'ł'];
    assert '≈' !in s;
    MisencodedAbsent(s);
    RemoveCharIsWithout(s, ' ');
    WithoutConcat(amount, Zloty, ' ');
    ZlotyWithoutSpace();
  }

  // ---------------------------------------------------------------------------------------
  // rows

  /** The columns both older transforms pass through untouched. */
  predicate LegacyCarried(l: LegacyRow, r: Raw) {
    && l.id == Get(r, Id) && l.source == Get(r, Source) && l.title == Get(r, Title) && l.url == Get(r, Url)
    && l.price == Get(r, Price) && l.pricePerM == Get(r, PricePerM) && l.area == Get(r, Area)
  }

  /**
    One row of the older `OlxTransform`: `city_name` renamed to `city`, building year, car,
    heating, lift and rent added as null, and the OLX column rules.
   */
  function LegacyOlxRow(r: Raw): (l: Result<LegacyRow>)
    ensures l.Ok? <==> OlxRow(r).Ok?
    ensures l.Ok? ==> l.value.buildingYear.None? && l.value.car.None? && l.value.heating.None?
                      && l.value.lift.None? && l.value.rent.None?
    ensures l.Ok? ==> l.value.city == Get(r, CityName) && l.value.furniture == LegacyFurniture(Get(r, Furniture))
    ensures l.Ok? ==> l.value.date == LegacyDate(Get(r, Column.Date)).value
                      && l.value.createDate == LegacyTimestamp(Get(r, CreateDate)).value
                      && l.value.modifyDate == LegacyTimestamp(Get(r, ModifyDate)).value
    ensures l.Ok? ==> l.value.floor == LegacyFloor(Get(r, Floor)) && l.value.marketType == OlxMarket(Get(r, MarketType))
    ensures l.Ok? ==> (l.value.roomsNum.Some? <==> OlxRooms(Get(r, RoomsNum)).Some?)
    ensures l.Ok? && l.value.roomsNum.Some? ==> l.value.roomsNum.value == NatToString(OlxRooms(Get(r, RoomsNum)).value)
    ensures l.Ok? ==> LegacyCarried(l.value, r)
  {
    var date := LegacyDate(Get(r, Column.Date));
    var created := LegacyTimestamp(Get(r, CreateDate));
    var modified := LegacyTimestamp(Get(r, ModifyDate));
    if date.Raised? || created.Raised? || modified.Raised? then Raised("ValueError")
    else
      var rooms := OlxRooms(Get(r, RoomsNum));
      Ok(LegacyRow(
        id := Get(r, Id), source := Get(r, Source), date := date.value, city := Get(r, CityName),
        marketType := OlxMarket(Get(r, MarketType)), createDate := created.value,
        modifyDate := modified.value, title := Get(r, Title), url := Get(r, Url),
        price := Get(r, Price), pricePerM := Get(r, PricePerM), area := Get(r, Area),
        buildingYear := None, floor := LegacyFloor(Get(r, Floor)),
        roomsNum := if rooms.Some? then Some(NatToString(rooms.value)) else None,
        furniture := LegacyFurniture(Get(r, Furniture)),
        car := None, heating := None, lift := None, rent := None))
  }

  /**
    One row of the older `OtoDomTransform`: the six descriptive columns dropped, furniture
    null, and the OtoDom column rules with flag encodings.
   */
  function LegacyOtoDomRow(r: Raw): (l: Result<LegacyRow>)
    ensures l.Ok? <==> OtoDomRow(r).Ok?
    ensures l.Ok? ==> l.value.furniture.None? && l.value.lift == LegacyLift(Get(r, Lift))
    ensures l.Ok? ==> l.value.car == Some(LegacyCar(Get(r, Car))) && l.value.rent == LegacyRent(Get(r, Rent))
    ensures l.Ok? ==> l.value.date == LegacyDate(Get(r, Column.Date)).value
                      && l.value.createDate == LegacyTimestamp(Get(r, CreateDate)).value
                      && l.value.modifyDate == LegacyTimestamp(Get(r, ModifyDate)).value
    ensures l.Ok? ==> l.value.floor == OtoDomFloor(Get(r, Floor)) && l.value.roomsNum == OtoDomRooms(Get(r, RoomsNum))
                      && l.value.heating == LegacyHeating(Get(r, Heating))
    ensures l.Ok? ==> l.value.city == Get(r, City) && l.value.marketType == Get(r, MarketType)
                      && l.value.buildingYear == Get(r, BuildingYear)
    ensures l.Ok? ==> LegacyCarried(l.value, r)
  {
    var date := LegacyDate(Get(r, Column.Date));
    var created := LegacyTimestamp(Get(r, CreateDate));
    var modified := LegacyTimestamp(Get(r, ModifyDate));
    if date.Raised? || created.Raised? || modified.Raised? then Raised("ValueError")
    else
      Ok(LegacyRow(
        id := Get(r, Id), source := Get(r, Source), date := date.value, city := Get(r, City),
        marketType := Get(r, MarketType), createDate := created.value,
        modifyDate := modified.value, title := Get(r, Title), url := Get(r, Url),
        price := Get(r, Price), pricePerM := Get(r, PricePerM), area := Get(r, Area),
        buildingYear := Get(r, BuildingYear), floor := OtoDomFloor(Get(r, Floor)),
        roomsNum := OtoDomRooms(Get(r, RoomsNum)), furniture := None,
        car := Some(LegacyCar(Get(r, Car))), heating := LegacyHeating(Get(r, Heating)),
        lift := LegacyLift(Get(r, Lift)), rent := LegacyRent(Get(r, Rent))))
  }

  /**
    The two OLX versions agree column by column: the newer dates are the older days in
    `YYYYMMDD` text, the newer city is the older one unified, furniture differs only in its
    labels, and floor, rooms and market type are the same.
   */
  lemma OlxVersionsAgree(r: Raw)
    requires OlxRow(r).Ok?
    ensures LegacyOlxRow(r).Ok?
    ensures var n, o := OlxRow(r).value, LegacyOlxRow(r).value;
            && n.city == UnifyCity(o.city) && n.floor == o.floor && n.roomsNum == o.roomsNum
            && n.marketType == o.marketType && n.furniture == Some(FlagLabel(o.furniture, "furniture", "no_furniture"))
            && (n.date.Some? <==> o.date.Some?)
            && (o.date.Some? ==> n.date == Some(FormatBasic(o.date.value)))
  {
    FloorEncodingsAgree(Get(r, Floor));
    FurnitureEncodingsAgree(Get(r, Furniture));
  }

  /**
    The two OtoDom versions agree column by column: floor, rooms, city and market type are
    the same, heating differs by the `Unknown` fill, lift by its labels.
   */
  lemma OtoDomVersionsAgree(r: Raw)
    requires OtoDomRow(r).Ok?
    ensures LegacyOtoDomRow(r).Ok?
    ensures var n, o := OtoDomRow(r).value, LegacyOtoDomRow(r).value;
            && n.floor == o.floor && n.roomsNum == o.roomsNum && n.city == o.city
            && n.marketType == o.marketType && n.buildingYear == o.buildingYear
            && n.heating == Some(o.heating.GetOr(Unknown))
            && n.lift == Some(FlagLabel(o.lift, "lift", "no_lift"))
  {
    HeatingEncodingsAgree(Get(r, Heating));
    LiftEncodingsAgree(Get(r, Lift));
  }

  /** The older `OlxTransform`: every row through `LegacyOlxRow`. */
  function LegacyOlxTransform(rows: seq<Raw>): (r: Result<seq<LegacyRow>>)
    ensures r.Ok? <==> OlxTransform(rows).Ok?
    ensures r.Ok? ==> |r.value| == |rows| && forall i :: 0 <= i < |rows| ==> LegacyOlxRow(rows[i]) == Ok(r.value[i])
  {
    Traverse(rows, LegacyOlxRow)
  }

  /** The older `OtoDomTransform`: every row through `LegacyOtoDomRow`. */
  function LegacyOtoDomTransform(rows: seq<Raw>): (r: Result<seq<LegacyRow>>)
    ensures r.Ok? <==> OtoDomTransform(rows).Ok?
    ensures r.Ok? ==> |r.value| == |rows| && forall i :: 0 <= i < |rows| ==> LegacyOtoDomRow(rows[i]) == Ok(r.value[i])
  {
    Traverse(rows, LegacyOtoDomRow)
  }

  // ---------------------------------------------------------------------------------------
  // join

  /** A row of `join_data`'s result: the year an integer, the flag columns renamed. */
  datatype FlaggedRow = FlaggedRow(
    id: Option<string>, source: Option<string>, date: Option<Date>, city: Option<string>,
    marketType: Option<string>, createDate: Option<Date>, modifyDate: Option<Date>,
    title: Option<string>, url: Option<string>, price: Option<string>, pricePerM: Option<string>,
    area: Option<string>, buildingYear: Option<int>, floor: Option<string>, roomsNum: Option<string>,
    furnitureFlg: Option<int>, carFlg: Option<string>, heating: Option<string>, liftFlg: Option<int>,
    rent: Option<string>)

  /**
    `building_year.astype('Int64')` and the clamp: null stays null, integer text is read and
    nulled below 1900, other text cannot be cast and raises.
   */
  function LegacyYear(v: Option<string>): (r: Result<Option<int>>)
    ensures r.Ok? <==> v.None? || ParseInt(v.value).Some?
    ensures r.Ok? && r.value.Some? ==> r.value.value >= Reconcile.MinYear && v.Some? && r.value == ParseInt(v.value)
    ensures r.Ok? && v.Some? && ParseInt(v.value).value >= Reconcile.MinYear ==> r.value.Some?
  {
    if v.None? then Ok(None)
    else match ParseInt(v.value)
      case None => Raised("TypeError")
      case Some(n) => Ok(if n < Reconcile.MinYear then None else Some(n))
  }

  /** The row with its year cast and `furniture`, `car`, `lift` renamed to `*_flg`. */
  function Flag(l: LegacyRow): (r: Result<FlaggedRow>)
    ensures r.Ok? <==> LegacyYear(l.buildingYear).Ok?
    ensures r.Ok? ==> r.value.buildingYear == LegacyYear(l.buildingYear).value && SameCells(r.value, l)
  {
    match LegacyYear(l.buildingYear)
    case Raised(e) => Raised(e)
    case Ok(year) =>
      Ok(FlaggedRow(
        id := l.id, source := l.source, date := l.date, city := l.city, marketType := l.marketType,
        createDate := l.createDate, modifyDate := l.modifyDate, title := l.title, url := l.url,
        price := l.price, pricePerM := l.pricePerM, area := l.area, buildingYear := year,
        floor := l.floor, roomsNum := l.roomsNum, furnitureFlg := l.furniture, carFlg := l.car,
        heating := l.heating, liftFlg := l.lift, rent := l.rent))
  }

  /** Every column but the year keeps its value under its old or new name. */
  predicate SameCells(f: FlaggedRow, l: LegacyRow) {
    && f.id == l.id && f.source == l.source && f.date == l.date && f.city == l.city
    && f.marketType == l.marketType && f.createDate == l.createDate && f.modifyDate == l.modifyDate
    && f.title == l.title && f.url == l.url && f.price == l.price && f.pricePerM == l.pricePerM
    && f.area == l.area && f.floor == l.floor && f.roomsNum == l.roomsNum && f.heating == l.heating
    && f.rent == l.rent && f.furnitureFlg == l.furniture && f.carFlg == l.car && f.liftFlg == l.lift
  }

  /**
    `join_data`: both frames appended, full-row duplicates dropped (the first kept), the year
    cast and clamped, the flag columns renamed.
   */
  function JoinData(olx: seq<LegacyRow>, otodom: seq<LegacyRow>): (r: Result<seq<FlaggedRow>>)
    ensures r.Ok? <==> forall l :: l in olx + otodom ==> LegacyYear(l.buildingYear).Ok?
    ensures r.Ok? ==> |r.value| == |Firsts(olx + otodom)|
    ensures r.Ok? ==> forall i :: 0 <= i < |r.value| ==>
              && SameCells(r.value[i], Firsts(olx + otodom)[i])
              && r.value[i].buildingYear == LegacyYear(Firsts(olx + otodom)[i].buildingYear).value
              && (r.value[i].buildingYear.Some? ==> r.value[i].buildingYear.value >= Reconcile.MinYear)
  {
    var rows := Firsts(olx + otodom);
    var r := Traverse(rows, Flag);
    assert r.Ok? ==> forall i :: 0 <= i < |rows| ==> Flag(rows[i]) == Ok(r.value[i]);
    FlagAllOk(rows, olx + otodom);
    r
  }

  /** Every row of `rows` flags without raising exactly when every row of `all`, the same rows, does. */
  lemma FlagAllOk(rows: seq<LegacyRow>, all: seq<LegacyRow>)
    requires forall l :: l in rows <==> l in all
    ensures (forall i :: 0 <= i < |rows| ==> Flag(rows[i]).Ok?) <==> (forall l :: l in all ==> LegacyYear(l.buildingYear).Ok?)
  {
    if forall i :: 0 <= i < |rows| ==> Flag(rows[i]).Ok? {
      forall l | l in all
        ensures LegacyYear(l.buildingYear).Ok?
      {
        var i :| 0 <= i < |rows| && rows[i] == l;
      }
    }
  }

  /** The older OLX rows carry no year, so they never make `join_data` raise. */
  lemma OlxRowsJoin(rows: seq<Raw>, otodom: seq<LegacyRow>)
    requires LegacyOlxTransform(rows).Ok?
    requires forall l :: l in otodom ==> LegacyYear(l.buildingYear).Ok?
    ensures JoinData(LegacyOlxTransform(rows).value, otodom).Ok?
  {
    var olx := LegacyOlxTransform(rows).value;
    forall l | l in olx
      ensures l.buildingYear.None?
    {
      var i :| 0 <= i < |olx| && olx[i] == l;
      assert LegacyOlxRow(rows[i]) == Ok(l);
    }
  }
}
