/**
  The OtoDom scraper's decision logic: result-page URLs, the page-existence check, the page
  loop with its per-city page counter, listing-link harvesting, and the projection of each
  listing's JSON payload into a flat record, skipping listings whose payload is unusable.
  HTTP requests, BeautifulSoup and `json.loads` are injected as `fetch` functions that
  return the already-parsed page or payload.
 */
module OtoDomExtract {

  import opened Options
  import opened Strings
  import opened Records
  import Discovery
  import Sequences

  const BaseUrl := "https://www.otodom.pl/pl/wyniki/sprzedaz/mieszkanie"
  const PageParams := "?limit=72&viewType=listing&page="
  const NoResultsHeading := "Nie znaleźliśmy żadnych ogłoszeń"
  const ListingSectionClass := "eeungyz1"
  const DataUrlPrefix := "https://www.otodom.pl/_next/data/"

  /** The cities in the order the scraper visits them. */
  const Cities: seq<string> := ["Katowice", "Kraków", "Warszawa", "Wrocław"]

  /** The search path of each city. */
  const CityPaths: map<string, string> := map[
    "Katowice" := "/slaskie/katowice/katowice/katowice",
    "Kraków" := "/malopolskie/krakow/krakow/krakow",
    "Warszawa" := "/mazowieckie/warszawa/warszawa/warszawa",
    "Wrocław" := "/dolnoslaskie/wroclaw/wroclaw/wroclaw"
  ]

  // ---------------------------------------------------------------------------------------
  // result pages

  /** A `section` element: its CSS classes and the `href`s of its listing anchors. */
  datatype Section = Section(classes: seq<string>, hrefs: seq<string>)

  /** A fetched result page: HTTP status, the texts of its `h3` headings, its sections. */
  datatype ResultsPage = ResultsPage(status: int, headings: seq<string>, sections: seq<Section>)

  /** `base + city path + params + str(n)`. */
  function PageUrl(cityPath: string, n: nat): string {
    BaseUrl + cityPath + PageParams + NatToString(n)
  }

  /** Different page numbers give different page URLs, so no page is requested twice. */
  lemma PageUrlsDistinct(cityPath: string, m: nat, n: nat)
    requires m != n
    ensures PageUrl(cityPath, m) != PageUrl(cityPath, n)
  {
    var head := BaseUrl + cityPath + PageParams;
    if PageUrl(cityPath, m) == PageUrl(cityPath, n) {
      assert PageUrl(cityPath, m)[|head|..] == NatToString(m);
      assert PageUrl(cityPath, n)[|head|..] == NatToString(n);
      NatToStringInjective(m, n);
    }
  }

  /** `check_page_exists`: status 200 and no "nothing found" heading. */
  predicate PageExists(p: ResultsPage) {
    p.status == 200 && NoResultsHeading !in p.headings
  }

  /** A section one of whose classes contains the listing-section class. */
  predicate IsListingSection(s: Section) {
    exists i :: 0 <= i < |s.classes| && Contains(s.classes[i], ListingSectionClass)
  }

  /** The JSON data URL of one listing. */
  function DataUrl(key: string, href: string): string {
    DataUrlPrefix + key + href + ".json"
  }

  /** The data URLs of one section's anchors, in order. */
  function SectionLinks(key: string, hrefs: seq<string>): (r: seq<string>)
    ensures |r| == |hrefs| && forall j :: 0 <= j < |hrefs| ==> r[j] == DataUrl(key, hrefs[j])
  {
    seq(|hrefs|, j requires 0 <= j < |hrefs| => DataUrl(key, hrefs[j]))
  }

  /**
    `get_individual_urls`: data URLs of the anchors of listing sections, in page order; each is
    a data URL under the scraper's key, and there is at most one per anchor.
   */
  function ListingLinks(key: string, sections: seq<Section>): (r: seq<string>)
    ensures forall j :: 0 <= j < |r| ==>
              |DataUrlPrefix + key| <= |r[j]| && r[j][..|DataUrlPrefix + key|] == DataUrlPrefix + key
    ensures |r| <= HrefCount(sections)
    decreases |sections|
  {
    if |sections| == 0 then []
    else
      var s := sections[0];
      var here := if IsListingSection(s) then SectionLinks(key, s.hrefs) else [];
      var rest := ListingLinks(key, sections[1..]);
      assert forall j :: 0 <= j < |here| ==> (here + rest)[j] == DataUrl(key, s.hrefs[j]);
      assert forall j :: |here| <= j < |here + rest| ==> (here + rest)[j] == rest[j - |here|];
      here + rest
  }

  /** The number of anchors in all sections. */
  function HrefCount(sections: seq<Section>): nat {
    if |sections| == 0 then 0 else |sections[0].hrefs| + HrefCount(sections[1..])
  }

  /** A URL is harvested exactly when it is the data URL of an anchor in a listing section. */
  lemma {:induction false} ListingLinksMembers(key: string, sections: seq<Section>, u: string)
    ensures u in ListingLinks(key, sections) <==>
            exists i, j :: 0 <= i < |sections| && IsListingSection(sections[i]) && 0 <= j < |sections[i].hrefs|
                           && u == DataUrl(key, sections[i].hrefs[j])
    decreases |sections|
  {
    if |sections| > 0 {
      var s := sections[0];
      ListingLinksMembers(key, sections[1..], u);
      if u in ListingLinks(key, sections) {
        if u in ListingLinks(key, sections[1..]) {
          var i, j :| 0 <= i < |sections[1..]| && IsListingSection(sections[1..][i]) && 0 <= j < |sections[1..][i].hrefs|
                      && u == DataUrl(key, sections[1..][i].hrefs[j]);
          assert sections[1..][i] == sections[i + 1];
        } else {
          var j :| 0 <= j < |s.hrefs| && IsListingSection(s) && u == DataUrl(key, s.hrefs[j]);
          assert sections[0] == s;
        }
      }
      if exists i, j :: 0 <= i < |sections| && IsListingSection(sections[i]) && 0 <= j < |sections[i].hrefs|
                        && u == DataUrl(key, sections[i].hrefs[j]) {
        var i, j :| 0 <= i < |sections| && IsListingSection(sections[i]) && 0 <= j < |sections[i].hrefs|
                    && u == DataUrl(key, sections[i].hrefs[j]);
        if i == 0 {
          assert SectionLinks(key, s.hrefs)[j] == u;
        } else {
          assert sections[1..][i - 1] == sections[i];
        }
      }
    }
  }

  // ---------------------------------------------------------------------------------------
  // discovery

  /** The scraper's state: its key, pages counted per city and listing URLs per city. */
  datatype Scraper = Scraper(key: string, citiesPages: map<string, nat>, citiesUrls: map<string, seq<string>>)

  /** The state `__init__` creates: every city with zero pages and no URLs. */
  function NewScraper(key: string): (s: Scraper)
    ensures s.key == key
    ensures forall c :: c in Cities <==> c in s.citiesPages
    ensures forall c :: c in Cities <==> c in s.citiesUrls
    ensures forall c :: c in s.citiesPages ==> s.citiesPages[c] == 0 && s.citiesUrls[c] == []
  {
    Scraper(key, map c | c in Cities :: 0, map c | c in Cities :: [])
  }

  /** Whether page n of `city` exists. */
  function Present(fetch: string -> ResultsPage, city: string): nat -> bool
    requires city in CityPaths
  {
    (n: nat) => PageExists(fetch(PageUrl(CityPaths[city], n)))
  }

  /** The listing URLs on page n of `city`. */
  function LinksOn(fetch: string -> ResultsPage, key: string, city: string): nat -> seq<string>
    requires city in CityPaths
  {
    (n: nat) => ListingLinks(key, fetch(PageUrl(CityPaths[city], n)).sections)
  }

  /** The result pages of `city` run out somewhere. */
  ghost predicate PagesRunOut(fetch: string -> ResultsPage, city: string) {
    city in CityPaths && Discovery.Terminates(Present(fetch, city))
  }

  /**
    What `get_all_urls` did to one city: its counter grew by exactly the number n of
    existing pages (the length of the existing prefix 1..n), and n pages' links were appended
    to its URL list, nothing removed.
   */
  ghost predicate CityDiscovered(fetch: string -> ResultsPage, before: Scraper, after: Scraper, c: string) {
    && c in CityPaths
    && c in before.citiesPages && c in after.citiesPages
    && c in before.citiesUrls && c in after.citiesUrls
    && before.citiesPages[c] <= after.citiesPages[c]
    && var n := after.citiesPages[c] - before.citiesPages[c];
       && Discovery.ExistingPrefix(Present(fetch, c), n)
       && after.citiesUrls[c] == before.citiesUrls[c] + Discovery.Collected(LinksOn(fetch, before.key, c), n)
  }

  /** When a city's first result page does not exist, discovery leaves its counter and list as they were. */
  lemma MissingFirstPage(fetch: string -> ResultsPage, before: Scraper, after: Scraper, c: string)
    requires CityDiscovered(fetch, before, after, c)
    requires !PageExists(fetch(PageUrl(CityPaths[c], 1)))
    ensures after.citiesPages[c] == before.citiesPages[c]
    ensures after.citiesUrls[c] == before.citiesUrls[c]
  {
    var present := Present(fetch, c);
    Discovery.NoFirstPage(present, LinksOn(fetch, before.key, c));
    Discovery.ExistingPrefixUnique(present, after.citiesPages[c] - before.citiesPages[c], 0);
    assert before.citiesUrls[c] + [] == before.citiesUrls[c];
  }

  /** The cities are distinct, so each loop iteration touches a city no other one touches. */
  lemma CitiesDistinct()
    ensures forall i, j :: 0 <= i < j < |Cities| ==> Cities[i] != Cities[j]
  {
  }

  /** `CityDiscovered` reads only the key and the city's own entries. */
  lemma DiscoveredSame(fetch: string -> ResultsPage, b1: Scraper, a1: Scraper, b2: Scraper, a2: Scraper, c: string)
    requires CityDiscovered(fetch, b1, a1, c)
    requires b2.key == b1.key
    requires c in b2.citiesPages && c in b2.citiesUrls && c in a2.citiesPages && c in a2.citiesUrls
    requires b2.citiesPages[c] == b1.citiesPages[c] && b2.citiesUrls[c] == b1.citiesUrls[c]
    requires a2.citiesPages[c] == a1.citiesPages[c] && a2.citiesUrls[c] == a1.citiesUrls[c]
    ensures CityDiscovered(fetch, b2, a2, c)
  {
  }

  /** One iteration of `get_all_urls`: the page loop for `city`. */
  method DiscoverCity(s: Scraper, fetch: string -> ResultsPage, city: string) returns (r: Scraper)
    requires city in s.citiesPages && city in s.citiesUrls
    requires PagesRunOut(fetch, city)
    ensures r.key == s.key
    ensures r.citiesPages.Keys == s.citiesPages.Keys && r.citiesUrls.Keys == s.citiesUrls.Keys
    ensures CityDiscovered(fetch, s, r, city)
    ensures forall c :: c in s.citiesPages && c != city ==> r.citiesPages[c] == s.citiesPages[c]
    ensures forall c :: c in s.citiesUrls && c != city ==> r.citiesUrls[c] == s.citiesUrls[c]
  {
    var n, found := Discovery.Discover(Present(fetch, city), LinksOn(fetch, s.key, city));
    var pages := s.citiesPages[city := s.citiesPages[city] + n];
    var urls := s.citiesUrls[city := s.citiesUrls[city] + found];
    assert pages.Keys == s.citiesPages.Keys && urls.Keys == s.citiesUrls.Keys;
    r := Scraper(s.key, pages, urls);
    DiscoveredBy(fetch, s, r, city, n, found);
  }

  /** A city whose counter grew by the `n` existing pages and whose list got their links is discovered. */
  lemma DiscoveredBy(fetch: string -> ResultsPage, before: Scraper, after: Scraper, c: string, n: nat, found: seq<string>)
    requires c in CityPaths && c in before.citiesPages && c in before.citiesUrls
    requires c in after.citiesPages && c in after.citiesUrls && after.key == before.key
    requires after.citiesPages[c] == before.citiesPages[c] + n
    requires after.citiesUrls[c] == before.citiesUrls[c] + found
    requires Discovery.ExistingPrefix(Present(fetch, c), n)
    requires found == Discovery.Collected(LinksOn(fetch, before.key, c), n)
    ensures CityDiscovered(fetch, before, after, c)
  {
  }

  /** The city's counter and URL list are those of `before`. */
  predicate Untouched(before: Scraper, after: Scraper, c: string) {
    c in before.citiesPages && c in before.citiesUrls && c in after.citiesPages && c in after.citiesUrls
    && after.citiesPages[c] == before.citiesPages[c] && after.citiesUrls[c] == before.citiesUrls[c]
  }

  /** After the first `i` cities of the loop: those are discovered, the rest untouched. */
  ghost predicate Progress(fetch: string -> ResultsPage, s: Scraper, r: Scraper, i: nat) {
    && i <= |Cities|
    && r.key == s.key
    && r.citiesPages.Keys == s.citiesPages.Keys && r.citiesUrls.Keys == s.citiesUrls.Keys
    && (forall j :: 0 <= j < i ==> CityDiscovered(fetch, s, r, Cities[j]))
    && (forall j :: i <= j < |Cities| ==> Untouched(s, r, Cities[j]))
    && (forall c :: c !in Cities ==> c in s.citiesPages ==> r.citiesPages[c] == s.citiesPages[c])
    && (forall c :: c !in Cities ==> c in s.citiesUrls ==> r.citiesUrls[c] == s.citiesUrls[c])
  }

  /** Discovering city `i` advances the loop's progress by one city. */
  lemma ProgressStep(fetch: string -> ResultsPage, s: Scraper, r: Scraper, next: Scraper, i: nat)
    requires i < |Cities| && Progress(fetch, s, r, i)
    requires next.key == r.key
    requires next.citiesPages.Keys == r.citiesPages.Keys && next.citiesUrls.Keys == r.citiesUrls.Keys
    requires CityDiscovered(fetch, r, next, Cities[i])
    requires forall c :: c in r.citiesPages && c != Cities[i] ==> next.citiesPages[c] == r.citiesPages[c]
    requires forall c :: c in r.citiesUrls && c != Cities[i] ==> next.citiesUrls[c] == r.citiesUrls[c]
    ensures Progress(fetch, s, next, i + 1)
  {
    CitiesDistinct();
    var city := Cities[i];
    DiscoveredSame(fetch, r, next, s, next, city);
    forall j | 0 <= j < i
      ensures CityDiscovered(fetch, s, next, Cities[j])
    {
      DiscoveredSame(fetch, s, r, s, next, Cities[j]);
    }
    forall j | i + 1 <= j < |Cities|
      ensures Untouched(s, next, Cities[j])
    {
      assert Cities[j] != city;
    }
  }

  /** `get_all_urls`: runs the page loop for every city in order. */
  method GetAllUrls(s: Scraper, fetch: string -> ResultsPage) returns (r: Scraper)
    requires forall c :: c in Cities ==> c in s.citiesPages && c in s.citiesUrls
    requires forall c :: c in Cities ==> PagesRunOut(fetch, c)
    ensures r.key == s.key
    ensures r.citiesPages.Keys == s.citiesPages.Keys && r.citiesUrls.Keys == s.citiesUrls.Keys
    ensures forall c :: c in Cities ==> CityDiscovered(fetch, s, r, c)
    ensures forall c :: c in s.citiesPages && c !in Cities ==> r.citiesPages[c] == s.citiesPages[c]
    ensures forall c :: c in s.citiesUrls && c !in Cities ==> r.citiesUrls[c] == s.citiesUrls[c]
  {
    r := s;
    var i := 0;
    while i < |Cities|
      invariant i <= |Cities|
      invariant Progress(fetch, s, r, i)
    {
      var city := Cities[i];
      assert Untouched(s, r, city);
      assert city in Cities;
      var next := DiscoverCity(r, fetch, city);
      ProgressStep(fetch, s, r, next, i);
      r := next;
      i := i + 1;
    }
    forall c | c in Cities
      ensures CityDiscovered(fetch, s, r, c)
    {
      var j :| 0 <= j < |Cities| && Cities[j] == c;
    }
  }

  // ---------------------------------------------------------------------------------------
  // listing payloads

  /** One `{label, values}` entry of `topInformation` or `additionalInformation`. */
  datatype Entry = Entry(name: string, values: seq<string>)

  /** The `target` member of an ad: absent, a JSON object, or something else (null, a list, ...). */
  datatype Target = NoTarget | TargetObject(fields: map<string, string>) | TargetNotObject

  /**
    The `pageProps.ad` object of a listing: scalar members as text (null members omitted, as
    `.get` reads them as `None` either way), `target`, and the two lists the loops iterate.
   */
  datatype Ad = Ad(
    fields: map<string, string>,
    target: Target,
    topInformation: Member<seq<Entry>>,
    additionalInformation: Member<seq<Entry>>)

  /**
    A fetched listing payload. `Unusable` covers a body that is not JSON, a missing
    `pageProps` or `ad` key, and an `ad` that is not an object: each ends in an `except`
    that skips the listing.
   */
  datatype Payload = Unusable | AdObject(ad: Ad)

  /** The columns of `generalInformation`. */
  predicate IsGeneral(c: Column) {
    c.Id? || c.Source? || c.Date? || c.City? || c.MarketType? || c.CreateDate? || c.ModifyDate?
    || c.Title? || c.Url? || c.Price? || c.PricePerM? || c.Area? || c.BuildingYear? || c.ConstructionStatus?
  }

  /** The columns filled from `topInformation`. */
  predicate IsTop(c: Column) {
    c.RoomsNum? || c.Car? || c.Rent? || c.Floor? || c.Outdoor? || c.Heating?
  }

  /** The columns filled from `additionalInformation`. */
  predicate IsAdditional(c: Column) {
    c.BuildingMaterial? || c.WindowsType? || c.MediaTypes? || c.SecurityTypes? || c.Lift?
  }

  /** The columns of every record the scraper produces: all but the OLX-only ones. */
  predicate IsOtoDomColumn(c: Column) {
    IsGeneral(c) || IsTop(c) || IsAdditional(c)
  }

  /** The payload label that fills each `topInformation` or `additionalInformation` column. */
  function Label(c: Column): string {
    match c
    case RoomsNum => "rooms_num"
    case Car => "car"
    case Rent => "rent"
    case Floor => "floor"
    case Outdoor => "outdoor"
    case Heating => "heating"
    case BuildingMaterial => "building_material"
    case WindowsType => "windows_type"
    case MediaTypes => "media_types"
    case SecurityTypes => "security_types"
    case Lift => "lift"
    case _ => ""
  }

  /** The `(label, values[0])` items of the entries that have values, in order. */
  function Items(entries: seq<Entry>): seq<(string, string)> {
    if |entries| == 0 then []
    else (if |entries[0].values| > 0 then [(entries[0].name, entries[0].values[0])] else []) + Items(entries[1..])
  }

  /** One cell of `generalInformation`; `t` is the `target` object, `{}` when absent. */
  function GeneralCell(ad: Ad, t: map<string, string>, city: string, today: string, c: Column): Option<string> {
    match c
    case Source => Some("OtoDom")
    case Date => Some(today)
    case City => Some(city)
    case Id => FieldOf(ad.fields, "id")
    case MarketType => FieldOf(ad.fields, "market")
    case CreateDate => FieldOf(ad.fields, "createdAt")
    case ModifyDate => FieldOf(ad.fields, "modifiedAt")
    case Title => FieldOf(ad.fields, "title")
    case Url => FieldOf(ad.fields, "url")
    case Price => FieldOf(t, "Price")
    case PricePerM => FieldOf(t, "Price_per_m")
    case Area => FieldOf(t, "Area")
    case BuildingYear => FieldOf(t, "Build_year")
    case ConstructionStatus => FieldOf(t, "Construction_status")
    case _ => None
  }

  /** The `target` object, `{}` when the ad has none. */
  function TargetFields(ad: Ad): map<string, string> {
    if ad.target.TargetObject? then ad.target.fields else map[]
  }

  /**
    `generalInformation`: the ad's scalar members and the `target` figures. `None` when
    `target` is present but not an object, so `.get` on it raises and the listing is skipped.
   */
  function GeneralInformation(ad: Ad, city: string, today: string): (r: Option<Raw>)
    ensures r.Some? <==> !ad.target.TargetNotObject?
    ensures r.Some? ==> forall c :: c in r.value <==> IsGeneral(c)
  {
    if ad.target.TargetNotObject? then None
    else
      var m := map c | c in AllColumns && IsGeneral(c) :: GeneralCell(ad, TargetFields(ad), city, today, c);
      assert forall c :: IsGeneral(c) ==> c in m by {
        forall c | IsGeneral(c)
          ensures c in m
        {
          EveryColumn(c);
        }
      }
      Some(m)
  }

  /**
    The cells of `generalInformation`: source, city and day are those of the run, id and market
    are the ad's own members, and without a `target` the price, area and year are null.
   */
  lemma GeneralInformationCells(ad: Ad, city: string, today: string)
    requires !ad.target.TargetNotObject?
    ensures var r := GeneralInformation(ad, city, today).value;
            && Get(r, Source) == Some("OtoDom") && Get(r, City) == Some(city) && Get(r, Date) == Some(today)
            && Get(r, Id) == FieldOf(ad.fields, "id") && Get(r, MarketType) == FieldOf(ad.fields, "market")
            && (ad.target.NoTarget? ==> Get(r, Price) == None && Get(r, Area) == None && Get(r, BuildingYear) == None)
  {
    GeneralInformationAt(ad, city, today, Source);
    GeneralInformationAt(ad, city, today, City);
    GeneralInformationAt(ad, city, today, Date);
    GeneralInformationAt(ad, city, today, Id);
    GeneralInformationAt(ad, city, today, MarketType);
    GeneralInformationAt(ad, city, today, Price);
    GeneralInformationAt(ad, city, today, Area);
    GeneralInformationAt(ad, city, today, BuildingYear);
  }

  /** Each general column holds its cell. */
  lemma GeneralInformationAt(ad: Ad, city: string, today: string, c: Column)
    requires !ad.target.TargetNotObject? && IsGeneral(c)
    ensures c in GeneralInformation(ad, city, today).value
    ensures GeneralInformation(ad, city, today).value[c] == GeneralCell(ad, TargetFields(ad), city, today, c)
  {
    EveryColumn(c);
  }

  /** No column belongs to two groups. */
  lemma GroupsDisjoint()
    ensures forall c :: IsGeneral(c) ==> !IsTop(c) && !IsAdditional(c)
    ensures forall c :: IsAdditional(c) ==> !IsTop(c)
  {
  }

  /**
    `general | additional | top`: the three groups have disjoint columns, so each column
    keeps the value of its own group.
   */
  function Merge(general: Raw, additional: Raw, top: Raw): (r: Raw)
    requires forall c :: c in general <==> IsGeneral(c)
    requires forall c :: c in additional <==> IsAdditional(c)
    requires forall c :: c in top <==> IsTop(c)
    ensures forall c :: c in r <==> IsOtoDomColumn(c)
    ensures forall c :: IsGeneral(c) ==> c in r && r[c] == general[c]
    ensures forall c :: IsAdditional(c) ==> c in r && r[c] == additional[c]
    ensures forall c :: IsTop(c) ==> c in r && r[c] == top[c]
  {
    GroupsDisjoint();
    general + additional + top
  }

  /** A record of the OtoDom scraper for `city`: the OtoDom columns, source and city set. */
  ghost predicate IsOtoDomRecord(r: Raw, city: string) {
    && (forall c :: c in r <==> IsOtoDomColumn(c))
    && Get(r, Source) == Some("OtoDom") && Get(r, City) == Some(city)
  }

  /** What happens to one listing URL. */
  datatype Outcome = Skipped | Crashed(error: string) | Scraped(record: Raw)

  /**
    One iteration of `scrap_data`: skip an unusable payload or a failing `generalInformation`;
    `topInformation`, then `additionalInformation`, is used outside any `try`: a missing one
    raises `KeyError`, a null one `TypeError`.
    Otherwise the record is `general | additional | top`, each recognised label holding the
    first value of the last entry with that label and values.
   */
  function ScrapeListing(p: Payload, city: string, today: string): (o: Outcome)
    ensures o.Skipped? <==> p.Unusable? || p.ad.target.TargetNotObject?
    ensures o.Crashed? <==> p.AdObject? && !p.ad.target.TargetNotObject?
                            && (!p.ad.topInformation.Present? || !p.ad.additionalInformation.Present?)
    ensures o.Crashed? ==>
              o.error == (if !p.ad.topInformation.Present? then UseError(p.ad.topInformation)
                          else UseError(p.ad.additionalInformation))
    ensures o.Scraped? ==> IsOtoDomRecord(o.record, city)
    ensures o.Scraped? ==> forall c :: IsGeneral(c) ==> Get(o.record, c) == GeneralCell(p.ad, TargetFields(p.ad), city, today, c)
    ensures o.Scraped? ==>
              p.AdObject? && p.ad.topInformation.Present? && p.ad.additionalInformation.Present?
              && (forall c :: IsTop(c) ==>
                    Get(o.record, c) == LastLabelled(Items(p.ad.topInformation.value), Label(c)))
              && (forall c :: IsAdditional(c) ==>
                    Get(o.record, c) == LastLabelled(Items(p.ad.additionalInformation.value), Label(c)))
  {
    match p
    case Unusable => Skipped
    case AdObject(ad) =>
      match GeneralInformation(ad, city, today)
      case None => Skipped
      case Some(general) =>
        if !ad.topInformation.Present? then Crashed(UseError(ad.topInformation))
        else if !ad.additionalInformation.Present? then Crashed(UseError(ad.additionalInformation))
        else
          GeneralInformationCells(ad, city, today);
          var top := Project(IsTop, Label, Items(ad.topInformation.value));
          var additional := Project(IsAdditional, Label, Items(ad.additionalInformation.value));
          var record := Merge(general, additional, top);
          assert Get(record, Source) == general[Source] && Get(record, City) == general[City];
          assert forall c :: IsGeneral(c) ==> Get(record, c) == GeneralCell(ad, TargetFields(ad), city, today, c) by {
            forall c | IsGeneral(c)
              ensures Get(record, c) == GeneralCell(ad, TargetFields(ad), city, today, c)
            {
              GeneralInformationAt(ad, city, today, c);
            }
          }
          Scraped(record)
  }

  /** One listing's outcome in front of the run over the listings after it. */
  function Step(o: Outcome, rest: Result<seq<Raw>>): Result<seq<Raw>> {
    match o
    case Crashed(e) => Raised(e)
    case Skipped => rest
    case Scraped(record) => if rest.Ok? then Ok([record] + rest.value) else rest
  }

  /** A listing's step in front of two appended runs is the step in front of the first. */
  lemma StepThen(o: Outcome, x: Result<seq<Raw>>, y: Result<seq<Raw>>)
    ensures Step(o, Then(x, y)) == Then(Step(o, x), y)
  {
    if o.Scraped? && x.Ok? && y.Ok? {
      assert [o.record] + (x.value + y.value) == ([o.record] + x.value) + y.value;
    }
  }

  /** A listing's step keeps every record an OtoDom record of the city. */
  lemma StepKeepsRecords(o: Outcome, rest: Result<seq<Raw>>, city: string)
    requires o.Scraped? ==> IsOtoDomRecord(o.record, city)
    requires rest.Ok? ==> forall i :: 0 <= i < |rest.value| ==> IsOtoDomRecord(rest.value[i], city)
    ensures var r := Step(o, rest);
            r.Ok? ==> forall i :: 0 <= i < |r.value| ==> IsOtoDomRecord(r.value[i], city)
  {
    var r := Step(o, rest);
    if r.Ok? && o.Scraped? {
      forall i | 0 <= i < |r.value|
        ensures IsOtoDomRecord(r.value[i], city)
      {
        if i > 0 {
          assert r.value[i] == rest.value[i - 1];
        }
      }
    }
  }

  /** The records of one city's listings, in URL order; `Raised` when a listing crashes the run. */
  function ScrapeCity(urls: seq<string>, fetch: string -> Payload, city: string, today: string): (r: Result<seq<Raw>>)
    ensures r.Ok? ==> |r.value| <= |urls|
    ensures r.Ok? ==> forall i :: 0 <= i < |r.value| ==> IsOtoDomRecord(r.value[i], city)
    decreases |urls|
  {
    if |urls| == 0 then Ok([])
    else
      var o := ScrapeListing(fetch(urls[0]), city, today);
      var rest := ScrapeCity(urls[1..], fetch, city, today);
      StepKeepsRecords(o, rest, city);
      Step(o, rest)
  }
  /**
    Skipping does not stop the loop: scraping `a + b` is scraping `a`, then scraping `b`,
    so a listing skipped in `a` leaves every listing of `b` processed.
   */
  lemma {:induction false} ScrapeCityConcat(a: seq<string>, b: seq<string>, fetch: string -> Payload, city: string, today: string)
    ensures ScrapeCity(a + b, fetch, city, today) == Then(ScrapeCity(a, fetch, city, today), ScrapeCity(b, fetch, city, today))
    decreases |a|
  {
    if |a| == 0 {
      assert a + b == b;
      var other := ScrapeCity(b, fetch, city, today);
      if other.Ok? {
        assert [] + other.value == other.value;
      }
    } else {
      var ab := a + b;
      assert ab[0] == a[0];
      assert ab[1..] == a[1..] + b;
      ScrapeCityConcat(a[1..], b, fetch, city, today);
      StepThen(ScrapeListing(fetch(a[0]), city, today), ScrapeCity(a[1..], fetch, city, today),
               ScrapeCity(b, fetch, city, today));
    }
  }

  /** A listing that is skipped contributes nothing and the next listing is still scraped. */
  lemma SkippedListing(u: string, rest: seq<string>, fetch: string -> Payload, city: string, today: string)
    requires ScrapeListing(fetch(u), city, today).Skipped?
    ensures ScrapeCity([u] + rest, fetch, city, today) == ScrapeCity(rest, fetch, city, today)
  {
    assert ([u] + rest)[1..] == rest;
  }

  /** What happens to each URL of a city, in URL order. */
  function Outcomes(urls: seq<string>, fetch: string -> Payload, city: string, today: string): (os: seq<Outcome>)
    ensures |os| == |urls|
  {
    seq(|urls|, i requires 0 <= i < |urls| => ScrapeListing(fetch(urls[i]), city, today))
  }

  /** The records of the scraped outcomes, in order. */
  function ScrapedRecords(os: seq<Outcome>): seq<Raw> {
    if |os| == 0 then []
    else (if os[0].Scraped? then [os[0].record] else []) + ScrapedRecords(os[1..])
  }

  /** The loop body applied to given outcomes, last listing first. */
  function Run(os: seq<Outcome>): Result<seq<Raw>> {
    if |os| == 0 then Ok([]) else Step(os[0], Run(os[1..]))
  }

  /** A city's loop runs over its listings' outcomes. */
  lemma {:induction false} ScrapeCityIsRun(urls: seq<string>, fetch: string -> Payload, city: string, today: string)
    ensures ScrapeCity(urls, fetch, city, today) == Run(Outcomes(urls, fetch, city, today))
    decreases |urls|
  {
    if |urls| > 0 {
      assert Outcomes(urls, fetch, city, today)[1..] == Outcomes(urls[1..], fetch, city, today);
      ScrapeCityIsRun(urls[1..], fetch, city, today);
    }
  }

  /** Outcome `i` is a crash and no outcome before it is. */
  predicate FirstCrash(os: seq<Outcome>, i: int) {
    0 <= i < |os| && os[i].Crashed? && forall j :: 0 <= j < i ==> !os[j].Crashed?
  }

  /**
    A run raises exactly when some outcome is a crash, with the first crash's exception, and
    otherwise keeps the records.
   */
  lemma {:induction false} RunOutcomes(os: seq<Outcome>)
    ensures Run(os).Raised? <==> exists i :: 0 <= i < |os| && os[i].Crashed?
    ensures forall i :: FirstCrash(os, i) ==> Run(os) == Raised(os[i].error)
    ensures Run(os).Ok? ==> Run(os).value == ScrapedRecords(os)
    decreases |os|
  {
    if |os| > 0 {
      var rest := os[1..];
      RunOutcomes(rest);
      if exists i :: 0 <= i < |rest| && rest[i].Crashed? {
        var i :| 0 <= i < |rest| && rest[i].Crashed?;
        assert os[i + 1].Crashed?;
      }
      if exists i :: 0 <= i < |os| && os[i].Crashed? {
        var i :| 0 <= i < |os| && os[i].Crashed?;
        if i > 0 {
          assert rest[i - 1].Crashed?;
        }
      }
      forall i | FirstCrash(os, i)
        ensures Run(os) == Raised(os[i].error)
      {
        if i > 0 {
          assert FirstCrash(rest, i - 1) by {
            forall j | 0 <= j < i - 1
              ensures !rest[j].Crashed?
            {
              assert rest[j] == os[j + 1];
            }
          }
          assert rest[i - 1] == os[i];
        }
      }
    }
  }

  /**
    The loop over a city raises exactly when one of its listings crashes, with the exception
    of the first crashing listing; otherwise it yields the record of every scraped listing,
    in URL order, and nothing else.
   */
  lemma ScrapeCityOutcomes(urls: seq<string>, fetch: string -> Payload, city: string, today: string)
    ensures var r := ScrapeCity(urls, fetch, city, today);
            r.Raised? <==> exists i :: 0 <= i < |urls| && Outcomes(urls, fetch, city, today)[i].Crashed?
    ensures var r := ScrapeCity(urls, fetch, city, today);
            forall i :: FirstCrash(Outcomes(urls, fetch, city, today), i) ==>
              r == Raised(ScrapeListing(fetch(urls[i]), city, today).error)
    ensures var r := ScrapeCity(urls, fetch, city, today);
            r.Ok? ==> r.value == ScrapedRecords(Outcomes(urls, fetch, city, today))
  {
    ScrapeCityIsRun(urls, fetch, city, today);
    RunOutcomes(Outcomes(urls, fetch, city, today));
  }

  /** Every record is an OtoDom record of one of `cities`, the one its `city` column names. */
  ghost predicate FromCities(rs: seq<Raw>, cities: seq<string>) {
    forall i :: 0 <= i < |rs| ==>
      Get(rs[i], City).Some? && Get(rs[i], City).value in cities && IsOtoDomRecord(rs[i], Get(rs[i], City).value)
  }

  /** Records of the first city followed by records of the others come from all of them. */
  lemma FromCitiesConcat(here: seq<Raw>, rest: seq<Raw>, cities: seq<string>)
    requires |cities| > 0
    requires forall i :: 0 <= i < |here| ==> IsOtoDomRecord(here[i], cities[0])
    requires FromCities(rest, cities[1..])
    ensures FromCities(here + rest, cities)
  {
    var rs := here + rest;
    forall i | 0 <= i < |rs|
      ensures Get(rs[i], City).Some? && Get(rs[i], City).value in cities && IsOtoDomRecord(rs[i], Get(rs[i], City).value)
    {
      if i < |here| {
        assert rs[i] == here[i];
      } else {
        assert rs[i] == rest[i - |here|];
      }
    }
  }

  /** `scrap_data`: every city's listings, cities in order. */
  function ScrapData(s: Scraper, fetch: string -> Payload, today: string): (r: Result<seq<Raw>>)
    requires forall c :: c in Cities ==> c in s.citiesUrls
    ensures r.Ok? ==> FromCities(r.value, Cities)
    ensures r.Ok? <==> forall i :: 0 <= i < |Cities| ==> ScrapeCity(s.citiesUrls[Cities[i]], fetch, Cities[i], today).Ok?
    ensures (forall i :: 0 <= i < |Cities| ==> ScrapeCity(s.citiesUrls[Cities[i]], fetch, Cities[i], today).Ok?) ==>
              r == Ok(Sequences.Concat(Values(CityRuns(Cities, s.citiesUrls, fetch, today))))
    ensures forall i :: FirstRaised(CityRuns(Cities, s.citiesUrls, fetch, today), i) ==>
              r == ScrapeCity(s.citiesUrls[Cities[i]], fetch, Cities[i], today)
  {
    ScrapeCitiesRuns(Cities, s.citiesUrls, fetch, today);
    ScrapeCities(Cities, s.citiesUrls, fetch, today)
  }

  /** The cities' runs one after the other; the first crash ends the whole run. */
  function ScrapeCities(cities: seq<string>, urls: map<string, seq<string>>, fetch: string -> Payload, today: string): (r: Result<seq<Raw>>)
    requires forall c :: c in cities ==> c in urls
    ensures r.Ok? ==> FromCities(r.value, cities)
    ensures r.Ok? <==> forall i :: 0 <= i < |cities| ==> ScrapeCity(urls[cities[i]], fetch, cities[i], today).Ok?
    decreases |cities|
  {
    if |cities| == 0 then Ok([])
    else
      var here := ScrapeCity(urls[cities[0]], fetch, cities[0], today);
      var rest := ScrapeCities(cities[1..], urls, fetch, today);
      assert forall i :: 1 <= i < |cities| ==> cities[1..][i - 1] == cities[i];
      if here.Ok? && rest.Ok? then
        FromCitiesConcat(here.value, rest.value, cities);
        Then(here, rest)
      else Then(here, rest)
  }

  /** The run of each city in `cities`, in order. */
  function CityRuns(cities: seq<string>, urls: map<string, seq<string>>, fetch: string -> Payload, today: string): (runs: seq<Result<seq<Raw>>>)
    requires forall c :: c in cities ==> c in urls
    ensures |runs| == |cities|
    ensures forall i :: 0 <= i < |cities| ==> runs[i] == ScrapeCity(urls[cities[i]], fetch, cities[i], today)
  {
    seq(|cities|, i requires 0 <= i < |cities| => ScrapeCity(urls[cities[i]], fetch, cities[i], today))
  }

  /** The cities' loop is the city runs appended in order. */
  lemma {:induction false} ScrapeCitiesIsThenAll(cities: seq<string>, urls: map<string, seq<string>>, fetch: string -> Payload, today: string)
    requires forall c :: c in cities ==> c in urls
    ensures ScrapeCities(cities, urls, fetch, today) == ThenAll(CityRuns(cities, urls, fetch, today))
    decreases |cities|
  {
    if |cities| > 0 {
      var tail := cities[1..];
      assert forall i :: 0 <= i < |tail| ==> tail[i] == cities[i + 1];
      ScrapeCitiesIsThenAll(tail, urls, fetch, today);
      assert CityRuns(cities, urls, fetch, today)[1..] == CityRuns(tail, urls, fetch, today);
    }
  }

  /**
    The frame of the whole run: when every city succeeds, the cities' records concatenated in
    the order of `cities`; otherwise the first failing city's exception.
   */
  lemma ScrapeCitiesRuns(cities: seq<string>, urls: map<string, seq<string>>, fetch: string -> Payload, today: string)
    requires forall c :: c in cities ==> c in urls
    ensures (forall i :: 0 <= i < |cities| ==> ScrapeCity(urls[cities[i]], fetch, cities[i], today).Ok?) ==>
              ScrapeCities(cities, urls, fetch, today) == Ok(Sequences.Concat(Values(CityRuns(cities, urls, fetch, today))))
    ensures forall i :: FirstRaised(CityRuns(cities, urls, fetch, today), i) ==>
              ScrapeCities(cities, urls, fetch, today) == ScrapeCity(urls[cities[i]], fetch, cities[i], today)
  {
    var runs := CityRuns(cities, urls, fetch, today);
    ScrapeCitiesIsThenAll(cities, urls, fetch, today);
    if forall i :: 0 <= i < |runs| ==> runs[i].Ok? {
      ThenAllOk(runs);
    }
    forall i | FirstRaised(runs, i)
      ensures ThenAll(runs) == runs[i]
    {
      ThenAllRaised(runs, i);
    }
  }
}
