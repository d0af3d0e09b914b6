/**
  `JoinEstateData`: both transformed frames appended and deduplicated, the building year
  clamped, the categorical columns mapped to surrogate keys, the offer characteristics looked
  up in their dimension table by a left merge, the columns renamed to the warehouse's names,
  and the numeric columns cast to floats. The float parser is injected as `toFloat`.
 */
module Reconcile {

  import opened Options
  import opened Strings
  import opened Sequences
  import opened Normalize
  import OlxExtract
  import OtoDomExtract

  // ---------------------------------------------------------------------------------------
  // building year

  /** The earliest building year kept. */
  const MinYear := 1900

  /**
    `pd.to_numeric(errors='coerce').fillna(-1).astype('Int64')` on one cell. Integer text
    reads as its value, and so does integer text followed by a fraction of zeros (how a float
    column is written, `1999.0`); any other fraction cannot be cast to an integer and raises;
    a null or non-numeric cell becomes -1.
   */
  function YearNumber(v: Option<string>): (r: Result<int>)
    ensures v.None? ==> r == Ok(-1)
    ensures v.Some? && ParseInt(v.value).Some? ==> r == Ok(ParseInt(v.value).value)
    ensures v.Some? && !Contains(v.value, ".") && ParseInt(v.value).None? ==> r == Ok(-1)
  {
    match v
    case None => Ok(-1)
    case Some(s) =>
      match ParseInt(s)
      case Some(n) => Ok(n)
      case None =>
        var dot := Find(s, ".", 0);
        if dot < 0 then Ok(-1)
        else
          var whole := ParseInt(s[..dot]);
          var fraction := s[dot + 1..];
          if whole.None? || !AllDigits(fraction) then Ok(-1)
          else if forall k :: 0 <= k < |fraction| ==> fraction[k] == '0' then Ok(whole.value)
          else Raised("TypeError")
  }

  /** Integer text has no `.`: its characters are digits and a sign. */
  lemma IntTextHasNoDot(y: int)
    ensures '.' !in IntToString(y)
  {
    var digits := NatToString(if y < 0 then -y else y);
    assert '.' !in digits;
  }

  /** A year written as an integer, or as a float column writes it, reads back as itself. */
  lemma YearNumberOf(y: int)
    ensures YearNumber(Some(IntToString(y))) == Ok(y)
    ensures YearNumber(Some(IntToString(y) + ".0")) == Ok(y)
  {
    ParseIntToString(y);
    var t := IntToString(y);
    var s := t + ".0";
    IntTextHasNoDot(y);
    FindAfterFree(t, ".", "0");
    assert s == t + "." + "0";
    assert s[..|t|] == t;
    var fraction := s[|t| + 1..];
    assert fraction == "0";
    DotNotInt(s, |t|);
  }

  /** A fraction that is not zero cannot be cast to an integer year. */
  lemma YearNumberFraction(y: nat)
    ensures YearNumber(Some(IntToString(y) + ".5")).Raised?
  {
    ParseIntToString(y);
    var t := IntToString(y);
    var s := t + ".5";
    IntTextHasNoDot(y);
    FindAfterFree(t, ".", "5");
    assert s == t + "." + "5";
    assert s[..|t|] == t;
    var fraction := s[|t| + 1..];
    assert fraction == "5" && fraction[0] != '0';
    DotNotInt(s, |t|);
  }

  /** The year column after the clamp: values below 1900 become null, 1900 itself is kept. */
  function BuildingYear(v: Option<string>): (r: Result<Option<int>>)
    ensures r.Ok? <==> YearNumber(v).Ok?
    ensures r.Ok? && r.value.Some? ==> r.value.value >= MinYear
    ensures r.Ok? ==> (r.value.Some? <==> YearNumber(v).value >= MinYear)
    ensures r.Ok? && r.value.Some? ==> r.value.value == YearNumber(v).value
  {
    match YearNumber(v)
    case Raised(e) => Raised(e)
    case Ok(n) => Ok(if n < MinYear then None else Some(n))
  }

  /** Clamping a year written as an integer; a null cell or OLX's `-1` ends up null. */
  lemma BuildingYearOf(y: int)
    ensures BuildingYear(Some(IntToString(y))) == Ok(if y < MinYear then None else Some(y))
    ensures BuildingYear(None) == Ok(None)
  {
    YearNumberOf(y);
  }

  // ---------------------------------------------------------------------------------------
  // surrogate keys

  /** A mapping from category names to surrogate keys, the dictionary's items in order. */
  type KeyTable = seq<(string, int)>

  const MarketKeys: KeyTable := [("Unknown", -1), ("PRIMARY", 1), ("SECONDARY", 2)]
  const SourceKeys: KeyTable := [("Unknown", -1), ("OLX", 1), ("OtoDom", 2)]
  const CityKeys: KeyTable := [("Unknown", -1), ("Katowice", 1), ("Kraków", 2), ("Warszawa", 3), ("Wrocław", 4)]

  /** Names are distinct (a dictionary) and so are keys (surrogate keys). */
  predicate WellFormed(table: KeyTable) {
    && (forall i, j :: 0 <= i < j < |table| ==> table[i].0 != table[j].0)
    && (forall i, j :: 0 <= i < j < |table| ==> table[i].1 != table[j].1)
  }

  lemma TablesWellFormed()
    ensures WellFormed(MarketKeys) && WellFormed(SourceKeys) && WellFormed(CityKeys)
  {
    var m := MarketKeys;
    assert m[0].0[0] == 'U' && m[1].0[0] == 'P' && m[2].0[0] == 'S';
    var s := SourceKeys;
    assert s[0].0[0] == 'U' && s[1].0[1] == 'L' && s[2].0[1] == 't';
    CityKeysWellFormed();
  }

  lemma CityKeysWellFormed()
    ensures WellFormed(CityKeys)
  {
    var t := CityKeys;
    assert t[0].0[0] == 'U' && t[1].0[0] == 'K' && t[2].0[0] == 'K' && t[3].0[0] == 'W' && t[4].0[0] == 'W';
    assert t[1].0[1] == 'a' && t[2].0[1] == 'r' && t[3].0[1] == 'a' && t[4].0[1] == 'r';
  }

  /** `Series.map(table)` on one cell: the key of the value's entry; other values and null give null. */
  function KeyOf(table: KeyTable, v: Option<string>): (r: Option<int>)
    ensures r.Some? <==> v.Some? && exists i :: 0 <= i < |table| && table[i].0 == v.value
    ensures r.Some? ==> exists i :: 0 <= i < |table| && table[i] == (v.value, r.value)
    decreases |table|
  {
    if v.None? || |table| == 0 then None
    else if table[0].0 == v.value then Some(table[0].1)
    else
      assert forall i :: 1 <= i < |table| ==> table[i] == table[1..][i - 1];
      KeyOf(table[1..], v)
  }

  /** Each name of a well-formed table maps to its own key. */
  lemma KeyOfEntry(table: KeyTable, i: nat)
    requires WellFormed(table) && i < |table|
    ensures KeyOf(table, Some(table[i].0)) == Some(table[i].1)
  {
  }

  /** Distinct names never share a key: the mapping can be read backwards. */
  lemma KeyOfInjective(table: KeyTable, a: Option<string>, b: Option<string>)
    requires WellFormed(table) && KeyOf(table, a).Some? && KeyOf(table, a) == KeyOf(table, b)
    ensures a == b
  {
  }

  /**
    Every city either scraper visits gets the keys 1..4 in visiting order, the OLX spellings
    once unified; the two sources get 1 and 2.
   */
  lemma ScrapedCategoriesHaveKeys()
    ensures forall i :: 0 <= i < |OtoDomExtract.Cities| ==> KeyOf(CityKeys, Some(OtoDomExtract.Cities[i])) == Some(i + 1)
    ensures forall i :: 0 <= i < |OlxExtract.Cities| ==> KeyOf(CityKeys, UnifyCity(Some(OlxExtract.Cities[i]))) == Some(i + 1)
    ensures KeyOf(SourceKeys, Some("OLX")) == Some(1) && KeyOf(SourceKeys, Some("OtoDom")) == Some(2)
  {
    OtoDomCityKeys();
    UnifiedCitiesMatch();
    TablesWellFormed();
    KeyOfEntry(SourceKeys, 1);
    KeyOfEntry(SourceKeys, 2);
  }

  /** OtoDom's city names are the table's names 1..4, in visiting order. */
  lemma OtoDomCityKeys()
    ensures forall i :: 0 <= i < |OtoDomExtract.Cities| ==> KeyOf(CityKeys, Some(OtoDomExtract.Cities[i])) == Some(i + 1)
  {
    CityKeysWellFormed();
    forall i | 0 <= i < |OtoDomExtract.Cities|
      ensures KeyOf(CityKeys, Some(OtoDomExtract.Cities[i])) == Some(i + 1)
    {
      KeyOfEntry(CityKeys, i + 1);
      assert CityKeys[i + 1] == (OtoDomExtract.Cities[i], i + 1);
    }
  }

  /** OLX's lower-case market params reach the primary and secondary keys once upper-cased. */
  lemma OlxMarketKeys()
    ensures KeyOf(MarketKeys, OlxMarket(Some("primary"))) == Some(1)
    ensures KeyOf(MarketKeys, OlxMarket(Some("secondary"))) == Some(2)
  {
    assert Upper("primary") == "PRIMARY";
    assert Upper("secondary") == "SECONDARY";
    TablesWellFormed();
    KeyOfEntry(MarketKeys, 1);
    KeyOfEntry(MarketKeys, 2);
  }

  // ---------------------------------------------------------------------------------------
  // offer characteristics dimension

  /** The four columns the dimension table is keyed on. */
  datatype Characteristics = Characteristics(carGarage: Option<string>, heating: Option<string>,
                                             lift: Option<string>, furniture: Option<string>)

  /** A row of `dim_offer_characteristics`: its key columns and its id. */
  datatype DimRow = DimRow(key: Characteristics, id: int)

  function CharacteristicsOf(l: Listing): Characteristics {
    Characteristics(l.carGarage, l.heating, l.lift, l.furniture)
  }

  /** The ids of the dimension rows whose key is `k`, in table order (null matching null). */
  function MatchIds(dim: seq<DimRow>, k: Characteristics): (ids: seq<int>)
    ensures forall x :: x in ids <==> DimRow(k, x) in dim
    decreases |dim|
  {
    if |dim| == 0 then []
    else
      assert dim == [dim[0]] + dim[1..];
      (if dim[0].key == k then [dim[0].id] else []) + MatchIds(dim[1..], k)
  }

  predicate UniqueKeys(dim: seq<DimRow>) {
    forall i, j :: 0 <= i < j < |dim| ==> dim[i].key != dim[j].key
  }

  lemma {:induction false} NoMatch(dim: seq<DimRow>, k: Characteristics)
    requires forall j :: 0 <= j < |dim| ==> dim[j].key != k
    ensures MatchIds(dim, k) == []
    decreases |dim|
  {
    if |dim| > 0 {
      NoMatch(dim[1..], k);
    }
  }

  /** With unique keys a row matches at most one dimension row. */
  lemma {:induction false} AtMostOneMatch(dim: seq<DimRow>, k: Characteristics)
    requires UniqueKeys(dim)
    ensures |MatchIds(dim, k)| <= 1
    decreases |dim|
  {
    if |dim| > 0 {
      var rest := dim[1..];
      AtMostOneMatch(rest, k);
      if dim[0].key == k {
        NoMatch(rest, k);
      }
    }
  }

  /** The id of the first matching dimension row, or null. */
  function Lookup(dim: seq<DimRow>, k: Characteristics): (r: Option<int>)
    ensures r.Some? <==> exists x :: DimRow(k, x) in dim
    ensures r.Some? ==> DimRow(k, r.value) in dim
  {
    var ids := MatchIds(dim, k);
    assert |ids| > 0 ==> DimRow(k, ids[0]) in dim;
    if |ids| == 0 then None else Some(ids[0])
  }

  /** In a table with unique keys each key finds its own row's id. */
  lemma LookupFinds(dim: seq<DimRow>, i: nat)
    requires UniqueKeys(dim) && i < |dim|
    ensures Lookup(dim, dim[i].key) == Some(dim[i].id)
  {
    AtMostOneMatch(dim, dim[i].key);
    assert dim[i].id in MatchIds(dim, dim[i].key);
  }

  /**
    `merge(how='left')` on one row: one copy of the row per matching dimension row, carrying
    that row's id; a single copy with a null id when none matches.
   */
  function MergeIds(dim: seq<DimRow>, k: Characteristics): (r: seq<Option<int>>)
    ensures |r| >= 1
    ensures |r| == if |MatchIds(dim, k)| == 0 then 1 else |MatchIds(dim, k)|
    ensures UniqueKeys(dim) ==> r == [Lookup(dim, k)]
  {
    var ids := MatchIds(dim, k);
    assert UniqueKeys(dim) ==> |ids| <= 1 by {
      if UniqueKeys(dim) {
        AtMostOneMatch(dim, k);
      }
    }
    if |ids| == 0 then [None] else seq(|ids|, i requires 0 <= i < |ids| => Some(ids[i]))
  }

  // ---------------------------------------------------------------------------------------
  // float casts

  /** `astype('float64')` on one cell: null stays NaN, text the parser rejects raises. */
  function Cast(toFloat: string -> Option<real>, v: Option<string>): (r: Result<Option<real>>)
    ensures r.Ok? <==> v.None? || toFloat(v.value).Some?
    ensures r.Ok? ==> (r.value.Some? <==> v.Some?)
    ensures r.Ok? && v.Some? ==> r.value == toFloat(v.value)
  {
    if v.None? then Ok(None)
    else if toFloat(v.value).None? then Raised("ValueError")
    else Ok(toFloat(v.value))
  }

  /** `rent.str.replace(',', '.').str.replace('EUR', '')`: decimal comma and currency removed. */
  function CleanRent(s: string): (r: string)
    ensures ',' !in r
  {
    var t := ReplaceAll(s, ",", ".");
    ReplaceCharGone(s, ',', ".");
    ReplaceKeepsAbsent(t, "EUR", "", ',');
    ReplaceAll(t, "EUR", "")
  }

  /** A plain amount is left alone. */
  lemma CleanRentPlain(s: string)
    requires ',' !in s && 'E' !in s
    ensures CleanRent(s) == s
  {
    ReplaceAbsent(s, ",", ".");
    ReplaceAbsent(s, "EUR", "");
  }

  /** `1200,50` becomes `1200.50`. */
  lemma CleanRentDecimal(whole: string, fraction: string)
    requires AllDigits(whole) && AllDigits(fraction)
    ensures CleanRent(whole + "," + fraction) == whole + "." + fraction
  {
    var s := whole + "," + fraction;
    assert ',' !in whole && ',' !in fraction;
    FindAfterFree(whole, ",", fraction);
    assert s[..|whole|] == whole && s[|whole| + 1..] == fraction;
    ReplaceAbsent(fraction, ",", ".");
    assert ReplaceAll(s, ",", ".") == whole + "." + fraction;
    var t := whole + "." + fraction;
    assert 'E' !in t;
    ReplaceAbsent(t, "EUR", "");
  }

  /** An amount in euros, `850EUR`, becomes `850`. */
  lemma CleanRentEuro(amount: string)
    requires AllDigits(amount)
    ensures CleanRent(amount + "EUR") == amount
  {
    var s := amount + "EUR";
    assert 'E' !in amount && ',' !in amount;
    assert ',' !in s;
    ReplaceAbsent(s, ",", ".");
    assert ReplaceAll(s, ",", ".") == s;
    FindAfterFree(amount, "EUR", "");
    assert amount + "EUR" + "" == s;
    assert Find(s, "EUR", 0) == |amount|;
    assert s[..|amount|] == amount && s[|amount| + 3..] == "";
    assert ReplaceAll("", "EUR", "") == "" by {
      NotFoundInFree("", "EUR", 0);
    }
    assert ReplaceAll(s, "EUR", "") == amount + "" + ReplaceAll("", "EUR", "");
  }

  /** Without a euro sign, cleaning only turns every decimal comma into a point. */
  lemma CleanRentNoEuro(s: string)
    requires !Contains(s, "EUR")
    ensures CleanRent(s) == SwapChar(s, ',', '.')
  {
    ReplaceCharIsSwap(s, ',', '.');
    assert ReplaceAll(s, ",", ".") == SwapChar(s, ',', '.');
    SwapKeepsAbsent(s, ',', '.', "EUR");
    assert Find(SwapChar(s, ',', '.'), "EUR", 0) < 0;
  }

  /**
    At the first euro sign, cleaning keeps the text before it with its commas swapped, drops
    the sign and cleans the rest: with `CleanRentNoEuro`, this fixes the result on every input.
   */
  lemma CleanRentEuroAt(a: string, b: string)
    requires !Contains(a, "EUR")
    ensures CleanRent(a + "EUR" + b) == SwapChar(a, ',', '.') + CleanRent(b)
  {
    var a', b' := SwapChar(a, ',', '.'), SwapChar(b, ',', '.');
    CommasAroundEuro(a, b);
    ReplaceCharIsSwap(b, ',', '.');
    assert ReplaceAll(b, ",", ".") == b';
    SwapKeepsAbsent(a, ',', '.', "EUR");
    DropFirstEuro(a', b');
  }

  lemma CommasAroundEuro(a: string, b: string)
    ensures ReplaceAll(a + "EUR" + b, ",", ".") == SwapChar(a, ',', '.') + "EUR" + SwapChar(b, ',', '.')
  {
    ReplaceCharIsSwap(a + "EUR" + b, ',', '.');
    SwapCharConcat(a + "EUR", b, ',', '.');
    SwapCharConcat(a, "EUR", ',', '.');
    SwapCharAbsent("EUR", ',', '.');
  }

  lemma DropFirstEuro(a: string, b: string)
    requires !Contains(a, "EUR")
    ensures ReplaceAll(a + "EUR" + b, "EUR", "") == a + ReplaceAll(b, "EUR", "")
  {
    assert "EUR"[2] !in "EUR"[..2];
    ReplaceAfterMarker(a, "EUR", "", b);
    assert a + "" == a;
  }

  function RentText(v: Option<string>): Option<string> {
    if v.Some? then Some(CleanRent(v.value)) else None
  }

  // ---------------------------------------------------------------------------------------
  // the fact rows

  /** A row of the joined table, under the warehouse's column names. */
  datatype Fact = Fact(
    offerId: Option<string>, sourceId: Option<int>, snapshotDateId: Option<string>, cityId: Option<int>,
    marketTypeId: Option<int>, createDateId: Option<string>, modifyDateId: Option<string>,
    title: Option<string>, url: Option<string>, price: Option<real>, pricePerSquareM: Option<real>,
    area: Option<real>, buildingYear: Option<int>, floor: Option<string>, roomsNumber: Option<string>,
    rent: Option<real>, offerCharacteristicsId: Option<int>)

  /** The four float casts of a row succeed. */
  predicate NumbersCast(l: Listing, toFloat: string -> Option<real>) {
    && Cast(toFloat, l.price).Ok? && Cast(toFloat, l.pricePerM).Ok? && Cast(toFloat, l.area).Ok?
    && Cast(toFloat, RentText(l.rent)).Ok?
  }

  /** Nothing in the row makes the join raise: its year and its numbers can be read. */
  predicate RowLoads(l: Listing, toFloat: string -> Option<real>) {
    BuildingYear(l.buildingYear).Ok? && NumbersCast(l, toFloat)
  }

  /** One joined row: keys mapped, year and dimension id given, numbers cast. */
  function FactOf(l: Listing, year: Option<int>, dimId: Option<int>, toFloat: string -> Option<real>): (r: Result<Fact>)
    ensures r.Ok? <==> NumbersCast(l, toFloat)
    ensures r.Ok? ==> r.value.offerId == l.id && r.value.buildingYear == year && r.value.offerCharacteristicsId == dimId
    ensures r.Ok? ==> r.value.sourceId == KeyOf(SourceKeys, l.source) && r.value.cityId == KeyOf(CityKeys, l.city)
                      && r.value.marketTypeId == KeyOf(MarketKeys, l.marketType)
    ensures r.Ok? ==> r.value.price == Cast(toFloat, l.price).value
                      && r.value.pricePerSquareM == Cast(toFloat, l.pricePerM).value
                      && r.value.area == Cast(toFloat, l.area).value
                      && r.value.rent == Cast(toFloat, RentText(l.rent)).value
    ensures r.Ok? ==> r.value.snapshotDateId == l.date && r.value.createDateId == l.createDate
                      && r.value.modifyDateId == l.modifyDate && r.value.title == l.title && r.value.url == l.url
                      && r.value.floor == l.floor && r.value.roomsNumber == l.roomsNum
  {
    var price := Cast(toFloat, l.price);
    var perM := Cast(toFloat, l.pricePerM);
    var area := Cast(toFloat, l.area);
    var rent := Cast(toFloat, RentText(l.rent));
    if price.Raised? || perM.Raised? || area.Raised? || rent.Raised? then Raised("ValueError")
    else
      Ok(Fact(
        offerId := l.id, sourceId := KeyOf(SourceKeys, l.source), snapshotDateId := l.date,
        cityId := KeyOf(CityKeys, l.city), marketTypeId := KeyOf(MarketKeys, l.marketType),
        createDateId := l.createDate, modifyDateId := l.modifyDate, title := l.title, url := l.url,
        price := price.value, pricePerSquareM := perM.value, area := area.value,
        buildingYear := year, floor := l.floor, roomsNumber := l.roomsNum, rent := rent.value,
        offerCharacteristicsId := dimId))
  }

  /** The joined rows of one deduplicated row: one per dimension match, at least one. */
  function RowFacts(l: Listing, dim: seq<DimRow>, toFloat: string -> Option<real>): (r: Result<seq<Fact>>)
    ensures r.Ok? <==> RowLoads(l, toFloat)
    ensures r.Ok? ==> |r.value| == |MergeIds(dim, CharacteristicsOf(l))|
    ensures r.Ok? ==> forall k :: 0 <= k < |r.value| ==>
              FactOf(l, BuildingYear(l.buildingYear).value, MergeIds(dim, CharacteristicsOf(l))[k], toFloat) == Ok(r.value[k])
  {
    var year := BuildingYear(l.buildingYear);
    if year.Raised? then Raised(year.reason)
    else
      var ids := MergeIds(dim, CharacteristicsOf(l));
      assert FactOf(l, year.value, ids[0], toFloat).Ok? <==> NumbersCast(l, toFloat);
      Traverse(ids, (id: Option<int>) => FactOf(l, year.value, id, toFloat))
  }

  /**
    `JoinEstateData`: both frames appended, full-row duplicates dropped (the first kept), and
    each remaining row joined; any row whose year or numbers cannot be read makes it raise.
   */
  function JoinEstateData(olx: seq<Listing>, otodom: seq<Listing>, dim: seq<DimRow>,
                          toFloat: string -> Option<real>): (r: Result<seq<Fact>>)
    ensures r.Ok? <==> forall i :: 0 <= i < |Firsts(olx + otodom)| ==> RowLoads(Firsts(olx + otodom)[i], toFloat)
  {
    var rows := Firsts(olx + otodom);
    match Traverse(rows, (l: Listing) => RowFacts(l, dim, toFloat))
    case Raised(e) => Raised(e)
    case Ok(groups) => Ok(Concat(groups))
  }

  /** The dimension table never makes the join raise: only a row's own year or numbers can. */
  lemma JoinRaisesIff(olx: seq<Listing>, otodom: seq<Listing>, dim: seq<DimRow>, toFloat: string -> Option<real>)
    ensures JoinEstateData(olx, otodom, dim, toFloat).Ok? <==>
              forall l :: l in olx + otodom ==> RowLoads(l, toFloat)
  {
    var rows := Firsts(olx + otodom);
    if forall i :: 0 <= i < |rows| ==> RowLoads(rows[i], toFloat) {
      forall l | l in olx + otodom
        ensures RowLoads(l, toFloat)
      {
        assert l in rows;
      }
    }
  }

  /**
    Every joined row comes from a deduplicated listing: it carries that listing's id and its
    clamped building year, so every joined year is null or at least 1900.
   */
  lemma JoinYearsClamped(olx: seq<Listing>, otodom: seq<Listing>, dim: seq<DimRow>, toFloat: string -> Option<real>)
    requires JoinEstateData(olx, otodom, dim, toFloat).Ok?
    ensures forall f :: f in JoinEstateData(olx, otodom, dim, toFloat).value ==>
              exists l :: l in olx + otodom && f.offerId == l.id && f.buildingYear == BuildingYear(l.buildingYear).value
    ensures forall f :: f in JoinEstateData(olx, otodom, dim, toFloat).value ==>
              f.buildingYear.Some? ==> f.buildingYear.value >= MinYear
  {
    var rows := Firsts(olx + otodom);
    var groups: seq<seq<Fact>> := Traverse(rows, (l: Listing) => RowFacts(l, dim, toFloat)).value;
    forall f: Fact | f in Concat(groups)
      ensures exists l :: l in olx + otodom && f.offerId == l.id && f.buildingYear == BuildingYear(l.buildingYear).value
      ensures f.buildingYear.Some? ==> f.buildingYear.value >= MinYear
    {
      ConcatMember(groups, f);
      var g :| 0 <= g < |groups| && f in groups[g];
      var k :| 0 <= k < |groups[g]| && groups[g][k] == f;
      assert RowFacts(rows[g], dim, toFloat) == Ok(groups[g]);
      assert rows[g] in olx + otodom;
    }
  }

  /**
    With a dimension table keyed uniquely, the join keeps one row per distinct listing, in
    first-occurrence order, each carrying its listing's id, mapped keys and dimension id.
   */
  lemma JoinOneToOne(olx: seq<Listing>, otodom: seq<Listing>, dim: seq<DimRow>, toFloat: string -> Option<real>)
    requires UniqueKeys(dim) && JoinEstateData(olx, otodom, dim, toFloat).Ok?
    ensures |JoinEstateData(olx, otodom, dim, toFloat).value| == |Firsts(olx + otodom)|
    ensures forall i :: 0 <= i < |Firsts(olx + otodom)| ==>
              var f := JoinEstateData(olx, otodom, dim, toFloat).value[i];
              var l := Firsts(olx + otodom)[i];
              && Ok(f) == FactOf(l, BuildingYear(l.buildingYear).value, Lookup(dim, CharacteristicsOf(l)), toFloat)
              && f.offerId == l.id && f.buildingYear == BuildingYear(l.buildingYear).value
              && f.offerCharacteristicsId == Lookup(dim, CharacteristicsOf(l))
              && f.sourceId == KeyOf(SourceKeys, l.source) && f.cityId == KeyOf(CityKeys, l.city)
              && f.marketTypeId == KeyOf(MarketKeys, l.marketType)
  {
    var rows := Firsts(olx + otodom);
    var groups: seq<seq<Fact>> := Traverse(rows, (l: Listing) => RowFacts(l, dim, toFloat)).value;
    forall g | 0 <= g < |groups|
      ensures |groups[g]| == 1
      ensures Ok(groups[g][0]) == FactOf(rows[g], BuildingYear(rows[g].buildingYear).value, Lookup(dim, CharacteristicsOf(rows[g])), toFloat)
      ensures groups[g][0].offerId == rows[g].id
      ensures groups[g][0].buildingYear == BuildingYear(rows[g].buildingYear).value
      ensures groups[g][0].offerCharacteristicsId == Lookup(dim, CharacteristicsOf(rows[g]))
      ensures groups[g][0].sourceId == KeyOf(SourceKeys, rows[g].source)
      ensures groups[g][0].cityId == KeyOf(CityKeys, rows[g].city)
      ensures groups[g][0].marketTypeId == KeyOf(MarketKeys, rows[g].marketType)
    {
      assert RowFacts(rows[g], dim, toFloat) == Ok(groups[g]);
      assert MergeIds(dim, CharacteristicsOf(rows[g])) == [Lookup(dim, CharacteristicsOf(rows[g]))];
    }
    ConcatSingletons(groups);
  }
}
