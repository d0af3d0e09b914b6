# Estate market ETL: a Dafny model

This project models the extract and transform stages of a pipeline that collects flat-sale
listings for Katowice, Kraków, Warszawa and Wrocław from two Polish property portals, OtoDom
and OLX. It covers four parts of that pipeline:

- **The two scrapers.**
  - Page discovery: result pages 1, 2, … are requested until one does not exist.
  - Link harvesting from each result page.
  - Reading each listing's JSON into a flat record.
- **The per-source transforms.** These rewrite each scraper's vocabulary into a shared one. There are two versions:
  - the current transforms;
  - the older transforms, which use 0/1 flag encodings.
- **The join.**
  - Both frames are appended and deduplicated.
  - Building years are clamped.
  - Categories are mapped to surrogate keys.
  - Each offer is looked up in the offer-characteristics dimension.
  - Numbers are cast to floats.
- **The older `join_data`.**

The model is written in functional terms:

- **Records.** A scraped record is a map from column to cell (`Records.Raw`), where `None` is Python's `None` or pandas' NaN. A transformed row is a datatype with one field per column.
- **Fallible steps.** A step that can raise returns a `Result`. A pandas column operation that raises on one cell makes the whole call raise (`Sequences.Traverse`).
- **Injected parameters.** These are passed in as functions or values:
  - HTTP fetches and BeautifulSoup lookups (`fetch`, `getJson`);
  - `json.loads`;
  - the float parser (`toFloat`);
  - `date.today()` (`today`).

Modules, in pipeline order:

- **`Options`**: `Option` and `Result`.
- **`Strings`**: Python's `str.find`, `split`, `join`, `replace` and ASCII `upper`, plus integer text, all with Python's exact semantics.
- **`Dates`**: strict ISO day parsing within pandas' timestamp range, and `%Y%m%d` rendering.
- **`Records`**: scraped dictionaries, the `setdefault` defaulting and the label-update loops.
- **`Discovery`**: the page loop both scrapers share.
- **`Sequences`**: row-wise application, concatenation and `drop_duplicates`.
- **`OtoDomExtract`** and **`OlxExtract`**: the two scrapers.
- **`Normalize`**: the current `OlxTransform` and `OtoDomTransform`.
- **`Reconcile`**: `JoinEstateData`.
- **`Legacy`**: the older `OlxTransform`, `OtoDomTransform` and `join_data`.

Behaviour of the code worth noting:

- **Float casts.** A numeric cast that fails makes the whole `JoinEstateData` raise. The row is not dropped.
- **Unknown category values.** A category value missing from a key table becomes null. It does not get the `-1` key.
- **Floors.** OLX and OtoDom floors stay text.
- **OLX floor rule.** The OLX floor is the second `_`-separated piece, not all the text after the first `_`.
- **OLX listing failures.**
  - A listing whose JSON cannot be read ends that city's loop (`break`).
  - A listing missing a required member raises for the whole run, and so does one whose `ad.ad` is null or not an object (`TypeError` at ETL/extract_olx.py:147).
  - Neither case skips only that listing.
- **OtoDom listing failures.** A listing whose `topInformation` or `additionalInformation` is missing or null raises for the whole run. A missing member raises `KeyError` and a null one `TypeError`, and `topInformation` is used first.

## Model

| member | source | states |
|---|---|---|
| Discovery.Discover | ETL/extract_otodom.py:108-120 | the page counter is the length of the run of existing pages 1..n with page n+1 missing, and the links are those of pages 1..n in page order |
| Discovery.NoFirstPage | ETL/extract_otodom.py:109-113 | when page 1 does not exist no page is counted and no link collected |
| Discovery.ExistingPrefixUnique | ETL/extract_otodom.py:109-120 | the number of pages the loop stops at is determined by which pages exist |
| Records.FieldOf | ETL/extract_otodom.py:148 | `dict.get(k, None)` is the member's value exactly when the key is present |
| Records.Defaults | ETL/extract_otodom.py:168-174 | the `setdefault` block yields exactly the group's columns, all null |
| Records.AssignIsLast | ETL/extract_otodom.py:176-196 | after the update loop each recognised column holds the value of the last item carrying its label, else its default |
| Records.Project | ETL/extract_otodom.py:168-196 | defaults plus update loop: exactly the group's columns, each the last labelled value or null |
| Records.LastLabelledIsLast | ETL/extract_otodom.py:176-196 | the value found comes from an item with that label and no later item has the label |
| Records.Then | ETL/extract_otodom.py:228 | appending two runs' frames, an exception in the first winning |
| Records.ThenAllOk | ETL/extract_otodom.py:136-228 | when every run succeeds, the frame grown by repeated `pd.concat` is their frames concatenated in order |
| Records.ThenAllRaised | ETL/extract_otodom.py:136-228 | the first run that raises is the result of the whole loop; later runs are never reached |
| OtoDomExtract.ListingLinksMembers | ETL/extract_otodom.py:76-92 | a link is harvested iff it is the data URL of an anchor in a section with an `eeungyz1` class |
| OtoDomExtract.ListingLinks | ETL/extract_otodom.py:76-92 | every harvested link is a data URL under the scraper's key, and there is at most one per anchor |
| OtoDomExtract.PageUrlsDistinct | ETL/extract_otodom.py:106-110 | different page numbers give different page URLs, so the loop never requests a page twice |
| OtoDomExtract.MissingFirstPage | ETL/extract_otodom.py:66-74 | when a city's page 1 answers other than 200 or shows the "nothing found" heading, discovery leaves its page count and URL list as they were |
| OtoDomExtract.NewScraper | ETL/extract_otodom.py:43-63 | a new scraper holds the key and, for each of the four cities, page count 0 and no URLs |
| OtoDomExtract.CitiesDistinct | ETL/extract_otodom.py:35-40 | the four cities are distinct |
| OtoDomExtract.DiscoverCity | ETL/extract_otodom.py:106-120 | one city's loop: its page count grows by the existing pages, its URLs by their links in order, other cities unchanged |
| OtoDomExtract.ProgressStep | ETL/extract_otodom.py:106-120 | after the first i+1 cities are processed, each of them is discovered and the rest untouched |
| OtoDomExtract.GetAllUrls | ETL/extract_otodom.py:95-122 | every city is discovered from the initial state; other entries are unchanged |
| OtoDomExtract.GeneralInformation | ETL/extract_otodom.py:146-165 | the general block exists iff `target` is absent or an object, and then holds exactly the 14 general columns |
| OtoDomExtract.GeneralInformationCells | ETL/extract_otodom.py:147-162 | source `OtoDom`, the run's city and day, id and market from the ad, and null price/area/year without `target` |
| OtoDomExtract.GroupsDisjoint | ETL/extract_otodom.py:147-204 | the general, top and additional column groups are disjoint |
| OtoDomExtract.Merge | ETL/extract_otodom.py:226 | `general \| additional \| top` holds each column with its own group's value |
| OtoDomExtract.ScrapeListing | ETL/extract_otodom.py:139-226 | skipped iff the payload is unusable or `target` is not an object; otherwise it crashes iff `topInformation` or `additionalInformation` is missing; a scraped record is an OtoDom record of the city whose general columns are the run's and the ad's cells and whose top/additional columns are the last labelled first values |
| OtoDomExtract.ScrapeCity | ETL/extract_otodom.py:138-228 | one city's records: at most one per URL, each an OtoDom record of that city |
| OtoDomExtract.ScrapeCityOutcomes | ETL/extract_otodom.py:138-228 | a city's loop raises iff one of its listings crashes, with the first crashing listing's `KeyError` or `TypeError`; otherwise it yields the records of the scraped listings, in URL order, and nothing else |
| OtoDomExtract.RunOutcomes | ETL/extract_otodom.py:138-228 | the loop body over given outcomes raises iff one of them is a crash, with the first crash's exception, and otherwise keeps exactly the scraped records in order |
| OtoDomExtract.ScrapeCityConcat | ETL/extract_otodom.py:138-228 | scraping a URL list is scraping its two halves and appending, the first exception winning |
| OtoDomExtract.SkippedListing | ETL/extract_otodom.py:140-165 | a skipped listing contributes nothing and the loop continues |
| OtoDomExtract.FromCitiesConcat | ETL/extract_otodom.py:137-228 | records of the first city followed by those of the rest come from the city list |
| OtoDomExtract.ScrapeCities | ETL/extract_otodom.py:137-228 | every record comes from one of the visited cities and names it; the run succeeds iff every city's loop does; `ScrapeCitiesRuns` gives the frame and the exception |
| OtoDomExtract.ScrapData | ETL/extract_otodom.py:125-233 | "a table with data scraped from all the offer pages": when every city's loop succeeds, the frame is the four cities' records concatenated in dict order, each record of its own city; otherwise the run raises the first failing city's exception |
| OtoDomExtract.ScrapeCitiesRuns | ETL/extract_otodom.py:136-228 | for any list of cities: all succeed gives their records concatenated in order; the first city that raises gives the run's exception |
| OlxExtract.PageParamFrom | ETL/extract_olx.py:51 | the `page=(\d+)` group is a non-empty digit string |
| OlxExtract.CheckPageExists | ETL/extract_olx.py:44-53 | a page exists iff status 200, no "farther results" paragraph, and no redirect or page 1; raises only when the URL has no page number |
| OlxExtract.PageParamOfPageUrl | ETL/extract_olx.py:51-71 | the page number read back from a built page URL is the number it was built with |
| OlxExtract.PageUrlsDistinct | ETL/extract_olx.py:71 | different page numbers give different page URLs, so the loop never requests a page twice |
| OlxExtract.CheckPageExistsAt | ETL/extract_olx.py:44-53 | on built page URLs the check never raises |
| OlxExtract.KeepListingLinksMembers | ETL/extract_olx.py:81-87 | a link is kept iff it is the OLX host plus an href that does not mention `otodom` |
| OlxExtract.KeepListingLinks | ETL/extract_olx.py:81-87 | no more links than anchors, each starting with the OLX host |
| OlxExtract.CitiesDistinct | ETL/extract_olx.py:37-42 | the four OLX city names are distinct |
| OlxExtract.CollectCity | ETL/extract_olx.py:67-90 | one city's loop appends the links of its existing pages in order; other cities unchanged |
| OlxExtract.ProgressStep | ETL/extract_olx.py:67-90 | after the first i+1 cities are processed, each of them is collected and the rest untouched |
| OlxExtract.GetAllUrls | ETL/extract_olx.py:56-90 | every city's URL list is extended by its pages' links; other entries unchanged |
| OlxExtract.PayloadText | ETL/extract_olx.py:104-118 | the cut-out payload never contains the end marker |
| OlxExtract.PayloadTextOf | ETL/extract_olx.py:108-118 | a page `prefix + start marker + body + end marker + rest` yields exactly `body` |
| OlxExtract.PayloadTextWithoutMarker | ETL/extract_olx.py:111-118 | without either marker, the slice starts at index 23 (`-1 + len(start_marker)`) and runs to the end |
| OlxExtract.Unescape | ETL/extract_olx.py:120 | a text without an escaped quote comes out unchanged |
| OlxExtract.FirstStepUnescapes | ETL/extract_olx.py:120 | the first replacement undoes quote escaping of backslash-free text |
| OlxExtract.UnescapeEscapeQuotes | ETL/extract_olx.py:120 | both replacements together invert quote escaping of backslash-free text |
| OlxExtract.GetJsonOf | ETL/extract_olx.py:104-123 | a page whose state literal after the first start marker is the quote-escaped text `b` yields what `json.loads` reads from `b`; stated only for a `b` without backslashes, that is without JSON escapes |
| OlxExtract.UnescapeKeepsDoubledEscape | ETL/extract_olx.py:120 | a doubled backslash that does not precede a quote stays doubled, so `\\u0105` reaches `json.loads` unchanged |
| OlxExtract.GeneralInformation | ETL/extract_olx.py:146-158 | the general block holds exactly its columns: source `OLX`, the run's city and day, market `Prywatny`, and the ad's id, `createdTime`, `lastRefreshTime`, title, url and price |
| OlxExtract.Merge | ETL/extract_olx.py:190 | `generalInformation \| params`: params win on their columns, the general block elsewhere |
| OlxExtract.ReadRecord | ETL/extract_olx.py:146-190 | a readable ad gives an OLX record of the city whose params columns are the last labelled values and whose other columns are the general block's cells |
| OlxExtract.ListingRecord | ETL/extract_olx.py:146-190 | a record is produced iff the ad has every member read, and it is an OLX record of the city |
| OlxExtract.MarketTypeFromParams | ETL/extract_olx.py:146-190 | the market column is the last `market` param, so `Prywatny` survives only when a param says so |
| OlxExtract.ScrapeCity | ETL/extract_olx.py:139-192 | one city's records: at most one per URL, each an OLX record of the city |
| OlxExtract.ReadError | ETL/extract_olx.py:122-168 | an unreadable listing raises `TypeError` iff its `ad.ad` is null or not an object, or the scalar members are all there and the price path or, after it, `params` hits a null; otherwise `KeyError` |
| OlxExtract.Step | ETL/extract_olx.py:140-190 | a listing raises iff its JSON was read and it cannot be read, with its `ReadError`; behind a readable listing the run raises the rest's exception iff the rest raises |
| OlxExtract.ScrapeCityRaises | ETL/extract_olx.py:139-192 | a city's run raises iff some listing is fetched but cannot be read while every earlier listing was fetched and read, and then with that listing's `ReadError` |
| OlxExtract.BreakAbandonsRest | ETL/extract_olx.py:140-144 | an unreadable payload ends the city's loop: later URLs are not scraped |
| OlxExtract.AllReadable | ETL/extract_olx.py:139-192 | when every ad is readable, the city neither breaks nor raises and yields the record of each listing, one per URL, in URL order |
| OlxExtract.FromCitiesConcat | ETL/extract_olx.py:138-192 | records of the first city followed by those of the rest come from the city list |
| OlxExtract.ScrapeCities | ETL/extract_olx.py:138-192 | every record comes from one of the visited cities and names it; `ScrapeCitiesRuns` gives the frame and the exception |
| OlxExtract.ScrapeCitiesRaises | ETL/extract_olx.py:138-192 | the cities' runs succeed together iff every city's run does |
| OlxExtract.ScrapData | ETL/extract_olx.py:126-197 | "a table with data scraped from all the offer pages": when every city's loop succeeds, the frame is the four cities' records concatenated in dict order, each record of its own city; otherwise the run raises the first failing city's exception |
| OlxExtract.ScrapeCitiesRuns | ETL/extract_olx.py:137-192 | for any list of cities: all succeed gives their records concatenated in order; the first city that raises gives the run's exception |
| Dates.ParseIso | Scripts/ETL/transform.py:11 | a parsed day is a calendar day in pandas' range whose ISO text is the input |
| Dates.ParseFormatIso | Scripts/ETL/transform.py:11 | every representable day parses back from its ISO text |
| Dates.BasicIsDateKey | Scripts/ETL/transform.py:11 | `%Y%m%d` is eight digits reading as year·10000 + month·100 + day |
| Dates.BeforeTOfTimestamp | Scripts/ETL/transform.py:12 | `split('T')[0]` of `day + "T" + time` is the day |
| Normalize.DateCell | Scripts/ETL/transform.py:11 | null stays null; raises iff the text is not a day; else eight digits |
| Normalize.DateCellOfIso | Scripts/ETL/transform.py:11 | the ISO text of a day becomes its `YYYYMMDD` text |
| Normalize.TimestampCell | Scripts/ETL/transform.py:12-13 | raises iff the text before the first `T` is not a day |
| Normalize.TimestampCellOf | Scripts/ETL/transform.py:12-13 | a timestamp, or a bare day, becomes the day's `YYYYMMDD` text |
| Normalize.OlxRooms | Scripts/ETL/transform.py:18-19 | a number iff the word is one of one..ten, and then its position in that list |
| Normalize.RoomWordsDistinct | Scripts/ETL/transform.py:18 | the room words are distinct, so the mapping is well defined |
| Normalize.OlxRoomsOfWord | Scripts/ETL/transform.py:18-19 | the k-th word maps to k |
| Normalize.OlxRoomsMore | Scripts/ETL/transform.py:19 | `more` maps to null |
| Normalize.MapCodes | Scripts/ETL/transform.py:16 | a two-entry `map` followed by `fillna`: each code gets its value iff the cell is that code, every other cell the fill value |
| Normalize.ReplaceCode | Scripts/ETL/transform.py:43 | `str.replace` then `fillna`: null becomes the fill text, the code becomes its replacement, text without the code is kept |
| Normalize.OlxFurniture | Scripts/ETL/transform.py:16 | `furniture` iff `yes`, `no_furniture` iff `no`, `Unknown` otherwise |
| Normalize.OlxFloor | Scripts/ETL/transform.py:15 | a value iff the code contains `_`; the value has no `_` |
| Normalize.OlxFloorOf | Scripts/ETL/transform.py:15 | `a_b` gives `b` |
| Normalize.OlxFloorSecondPiece | Scripts/ETL/transform.py:15 | `a_b_rest` gives `b`, not `b_rest` |
| Normalize.OlxMarket | Scripts/ETL/transform.py:17 | same length; each lower-case ASCII letter becomes its capital and every other character is kept |
| Normalize.UnifyCity | Scripts/ETL/transform.py:22 | `Wroclaw` becomes `Wrocław`, `Krakow` becomes `Kraków`, other cities unchanged |
| Normalize.UnifiedCitiesMatch | Scripts/ETL/transform.py:21-22 | the unified OLX city names are the OtoDom city names, city by city |
| Normalize.OlxRow | Scripts/ETL/transform.py:4-28 | raises iff a date cell does; otherwise the dates are their cells' `YYYYMMDD` keys, floor, furniture, market and rooms follow their rules, id, source, title, url, price, per-m² price and area are carried, garage/heating/lift are `Unknown`, rent null, year `-1`, city unified |
| Normalize.OlxTransform | Scripts/ETL/transform.py:4-28 | raises iff some row does; otherwise one row per record, in order |
| Normalize.OtoDomLift | Scripts/ETL/transform.py:42-50 | `lift` iff `::y`, `no_lift` iff `::n`, `Unknown` otherwise |
| Normalize.CarGarage | Scripts/ETL/transform.py:43 | null becomes `no_garage`; text without the garage code is kept |
| Normalize.CarGarageOfCode | Scripts/ETL/transform.py:43 | the garage code becomes `garage` |
| Normalize.OtoDomRent | Scripts/ETL/transform.py:44 | null stays null; otherwise the result is the text with every ` zł` replaced, then with every space dropped (`Without`) |
| Normalize.OtoDomRentNoZloty | Scripts/ETL/transform.py:44 | text without ` zł`, such as `450 EUR`, only loses its spaces |
| Normalize.OtoDomRentAt | Scripts/ETL/transform.py:44 | at the first ` zł`, the text before it loses its spaces and the rest is cleaned the same way |
| Normalize.OtoDomRentOf | Scripts/ETL/transform.py:44 | `amount + " zł"` becomes the amount without spaces |
| Normalize.OtoDomFloor | Scripts/ETL/transform.py:45 | a value iff the code is one of the three ground-level codes, and then `0` |
| Normalize.HeatingType | Scripts/ETL/transform.py:46-49 | null becomes `Unknown`; otherwise the text after the last `::`, or all of it when there is none: a suffix of the input, preceded there by `::`, with no `::` in it |
| Normalize.HeatingOfCode | Scripts/ETL/transform.py:46 | `pre::code`, with `code` free of `:` and `pre` not ending in `:`, gives `code` |
| Strings.LastPieceAfterDoubled | Scripts/ETL/transform.py:46 | with a separator of one character twice, the last piece of `pre + sep + code` is `code` when `code` lacks that character and `pre` does not end with it |
| Strings.LastPieceOfSplit | Scripts/ETL/transform.py:46 | `split(sep)[-1]` is the text after the last separator found left to right |
| Strings.LastPieceSuffix | Scripts/ETL/transform.py:46 | that last piece ends the input, preceded by the separator when there is one |
| Normalize.OtoDomRooms | Scripts/ETL/transform.py:47 | null stays null; text without the "more" code is unchanged |
| Normalize.OtoDomRoomsMore | Scripts/ETL/transform.py:47 | the "more" code becomes `11` |
| Normalize.OtoDomRow | Scripts/ETL/transform.py:31-55 | raises iff a date cell does; otherwise the dates are their cells' `YYYYMMDD` keys, floor, rooms, rent, heating, lift and garage follow their rules, furniture is `Unknown`, and city, market, building year, id, source, title, url, price, per-m² price and area are carried |
| Normalize.OtoDomTransform | Scripts/ETL/transform.py:31-55 | raises iff some row does; otherwise one row per record, in order |
| Sequences.Firsts | Scripts/ETL/transform.py:68 | `drop_duplicates`: the same rows, each once |
| Sequences.FirstsOfDistinct | Scripts/ETL/transform.py:68 | a table without repeats is unchanged |
| Sequences.FirstsIdempotent | Scripts/ETL/transform.py:68 | deduplicating twice changes nothing more |
| Sequences.FirstsCount | Scripts/ETL/transform.py:68 | as many rows remain as there are distinct rows |
| Sequences.DropDuplicates | Scripts/ETL/transform.py:68 | a one-pass seen-set deduplication equals the reference definition |
| Reconcile.YearNumber | Scripts/ETL/transform.py:69 | null and non-numeric text become -1; integer text is its value |
| Reconcile.YearNumberOf | Scripts/ETL/transform.py:69 | a year written `y` or `y.0` reads as y |
| Reconcile.YearNumberFraction | Scripts/ETL/transform.py:69 | `y.5` cannot be cast to an integer and raises |
| Reconcile.BuildingYear | Scripts/ETL/transform.py:69-70 | raises iff the cast does; a kept year is at least 1900 and equal to the number read; below 1900 becomes null |
| Reconcile.BuildingYearOf | Scripts/ETL/transform.py:69-70 | y below 1900 becomes null, 1900 and above stay; a null cell (and OLX's `-1`) ends up null |
| Reconcile.TablesWellFormed | Scripts/ETL/transform.py:73-75 | each key table has distinct names and distinct keys |
| Reconcile.KeyOf | Scripts/ETL/transform.py:73-75 | a key iff the value is a name in the table, and then that name's key |
| Reconcile.KeyOfEntry | Scripts/ETL/transform.py:73-75 | each name maps to its own key |
| Reconcile.KeyOfInjective | Scripts/ETL/transform.py:73-75 | distinct values never share a key |
| Reconcile.ScrapedCategoriesHaveKeys | Scripts/ETL/transform.py:74-75 | the scrapers' cities get keys 1..4 in visiting order (OLX after unification); `OLX` is 1, `OtoDom` 2 |
| Reconcile.OlxMarketKeys | Scripts/ETL/transform.py:73 | upper-cased `primary`/`secondary` get keys 1 and 2 |
| Reconcile.MatchIds | Scripts/ETL/transform.py:78 | the merge matches exactly the dimension rows with equal key columns |
| Reconcile.AtMostOneMatch | Scripts/ETL/transform.py:78 | with unique dimension keys a row matches at most once |
| Reconcile.Lookup | Scripts/ETL/transform.py:77-78 | an id iff some dimension row has the key, and then one such row's id |
| Reconcile.LookupFinds | Scripts/ETL/transform.py:78 | each dimension row's key finds that row's id |
| Reconcile.MergeIds | Scripts/ETL/transform.py:78 | the left merge yields at least one copy of each row; with unique keys exactly one, carrying the looked-up id |
| Reconcile.Cast | Scripts/ETL/transform.py:93-96 | null stays NaN; raises iff the parser rejects the text; else the parsed number |
| Reconcile.CleanRent | Scripts/ETL/transform.py:96 | no decimal comma is left |
| Reconcile.CleanRentPlain | Scripts/ETL/transform.py:96 | a plain amount is unchanged |
| Reconcile.CleanRentDecimal | Scripts/ETL/transform.py:96 | `1200,50` becomes `1200.50` |
| Reconcile.CleanRentEuro | Scripts/ETL/transform.py:96 | `850EUR` becomes `850` |
| Reconcile.CleanRentNoEuro | Scripts/ETL/transform.py:96 | without `EUR`, cleaning turns exactly the commas into points and keeps every other character |
| Reconcile.CleanRentEuroAt | Scripts/ETL/transform.py:96 | at the first `EUR`, the text before it has its commas turned into points, the `EUR` is dropped and the rest is cleaned the same way; with CleanRentNoEuro this fixes the result on every input |
| Reconcile.FactOf | Scripts/ETL/transform.py:72-96 | raises iff a numeric cast does; otherwise price, per-m² price, area and the cleaned rent are the cast numbers, id, dates, title, url, floor and rooms are carried, keys mapped, year and dimension id as given |
| Reconcile.RowFacts | Scripts/ETL/transform.py:68-96 | raises iff the row's year or numbers cannot be read; otherwise one joined row per merge match |
| Reconcile.JoinEstateData | Scripts/ETL/transform.py:58-99 | raises iff some deduplicated row cannot be read |
| Reconcile.JoinRaisesIff | Scripts/ETL/transform.py:68-96 | the dimension table never causes a raise; only a row's own year or numbers can |
| Reconcile.JoinYearsClamped | Scripts/ETL/transform.py:69-70 | every joined row carries the id of a listing and that listing's clamped building year, which is null or at least 1900 |
| Reconcile.JoinOneToOne | Scripts/ETL/transform.py:68-91 | with unique dimension keys: one joined row per distinct listing, in order, each FactOf that listing with its clamped building year and its dimension id |
| Legacy.LegacyDate | ETL/transform.py:7 | raises exactly where the current rule does; the current text is this day's `YYYYMMDD` |
| Legacy.LegacyTimestamp | ETL/transform.py:8-9 | raises exactly where the current rule does; the current text is this day's `YYYYMMDD` |
| Legacy.LegacyTimestampOf | ETL/transform.py:8 | a timestamp gives its day |
| Legacy.LegacyFurniture | ETL/transform.py:12 | 1 iff `yes`, 0 iff `no`, null otherwise |
| Legacy.FurnitureEncodingsAgree | ETL/transform.py:12 | the current furniture labels are the legacy flags relabelled |
| Legacy.LegacyLift | ETL/transform.py:41 | 1 iff `::y`, 0 iff `::n`, null otherwise |
| Legacy.LiftEncodingsAgree | ETL/transform.py:41 | the current lift labels are the legacy flags relabelled |
| Legacy.LegacyCar | ETL/transform.py:42 | null becomes `0`; text without the garage code is kept |
| Legacy.LegacyCarOfCode | ETL/transform.py:42 | the garage code becomes `1` |
| Legacy.LegacyHeating | ETL/transform.py:45 | null stays null; otherwise the text after the last `::`, as the current rule gives it |
| Legacy.HeatingEncodingsAgree | ETL/transform.py:45 | the current heating is the legacy one with null filled as `Unknown` |
| Legacy.LegacyFloor | ETL/transform.py:11 | a floor only for a non-null code |
| Legacy.FloorEncodingsAgree | ETL/transform.py:11 | the legacy floor rule without `astype(str)` equals the current one on every input |
| Legacy.LegacyRent | ETL/transform.py:43 | null stays null; otherwise the result is the text with every ` z≈Ç` replaced, then with every space dropped (`Without`) |
| Legacy.LegacyRentPlain | ETL/transform.py:43 | text without `≈`, which is all scraped text, only loses its spaces |
| Legacy.LegacyRentAt | ETL/transform.py:43 | at the first ` z≈Ç`, the text before it loses its spaces and the rest is cleaned the same way |
| Legacy.LegacyRentKeepsSuffix | ETL/transform.py:43 | `amount + " zł"` keeps `zł`: the mis-encoded pattern never matches |
| Legacy.LegacyOlxRow | ETL/transform.py:3-30 | raises exactly where the current row does; otherwise the dates, floor, market and rooms follow their rules, the listing's scalar columns are carried, year, car, heating, lift and rent are null, city not unified |
| Legacy.LegacyOtoDomRow | ETL/transform.py:33-48 | raises exactly where the current row does; otherwise the dates, floor, rooms, heating and car follow their rules, lift and rent follow the legacy rules, furniture is null, and city, market, year and the scalar columns are carried |
| Legacy.OlxVersionsAgree | ETL/transform.py:3-30 | column by column the current OLX row is the legacy one re-encoded |
| Legacy.OtoDomVersionsAgree | ETL/transform.py:33-48 | column by column the current OtoDom row is the legacy one re-encoded |
| Legacy.LegacyOlxTransform | ETL/transform.py:3-30 | raises iff the current transform does; one row per record |
| Legacy.LegacyOtoDomTransform | ETL/transform.py:33-48 | raises iff the current transform does; one row per record |
| Legacy.LegacyYear | ETL/transform.py:53-54 | raises iff non-null text is not an integer; a kept year is that integer and at least 1900 |
| Legacy.Flag | ETL/transform.py:53-55 | raises iff the year cast does; otherwise the year is the cast integer and every other cell is unchanged |
| Legacy.JoinData | ETL/transform.py:51-56 | raises iff some row's year cannot be cast; one row per distinct input row, its year the legacy cast of that row's year, with every other cell unchanged under its old or `_flg` name; years at least 1900 or null |
| Legacy.OlxRowsJoin | ETL/transform.py:5 | legacy OLX rows carry no year and never make `join_data` raise |

## Left out

- Network, HTML and JSON parsing. Each is a parameter or an abstract datatype:
  - `requests.get`, with its status code and final URL;
  - BeautifulSoup lookups;
  - `json.loads`.
- `print`, `print_page_numbers` and the progress messages are not modelled.
- The module-level driver script at the end of the OLX scraper is not modelled.
- The undefined OLX `headers` name is not modelled.
  - `get_all_urls` (ETL/extract_olx.py:79) and `get_json` (ETL/extract_olx.py:104) pass a name `headers` that is defined only locally inside `check_page_exists`.
  - As written, `get_all_urls` therefore raises `NameError` once page 1 exists, and every `get_json` call fails, which `scrap_data` catches and treats as a `break`.
  - The model reads those requests as if `headers` held the browser header that `check_page_exists` defines, so the rest of the logic has something to describe.
- In the OtoDom scraper, `classes = [classes for c in classes if …]` is modelled only as a test that some class contains `eeungyz1`. The value that comprehension builds is never used.
- `date.today()` is the parameter `today`.
- Rows are kept as a sequence in place of pandas' `index=[i]`.
- Partial frames are not modelled when a run raises: a run that raises returns `Raised`.
- CSV input and output are not modelled:
  - the hard-coded file paths;
  - the `if not df:` defaulting;
  - pandas' dtype inference when reading a CSV back.
- Cells of the current pipeline are modelled as text. Building year `-1` is the text `-1`.
- Normalize.OlxRow and Legacy.LegacyOlxRow write an OLX room number as its digits, e.g. `3`. When some row's rooms value is unmapped (null, or `more`), `map(word_to_num)` (Scripts/ETL/transform.py:19, ETL/transform.py:28) makes the column float64, and `to_csv` writes `3.0`. That frame-wide rendering is not modelled.
- In the older pipeline:
  - the integer 0 that `fillna(0)` writes for a missing car is modelled as the text `0`;
  - the OLX room numbers are their digit text.
- `pd.to_datetime` is modelled as accepting only strict `YYYY-MM-DD` days in its timestamp range. Its other accepted formats are left out.
- Reconcile.YearNumber: only integer text and integer text with a zero fraction are read as numbers.
  - `pd.to_numeric` also reads exponents, surrounding spaces and other float notations. These are left out.
  - A `.5`-style fraction makes the cast raise, as `astype('Int64')` does.
- Legacy.LegacyYear: `astype('Int64')` on text is modelled as reading integer text. What pandas does with an object column depends on its dtype, which is not modelled.
- Float parsing is the injected `toFloat`.
- Which exception a failing join reports is not modelled, only whether it raises:
  - pandas converts one column at a time, so the exception comes from the first failing column;
  - the model applies the steps row by row.
- Reconcile.JoinEstateData:
  - The column renames are the field names of `Reconcile.Fact`.
  - The column order of the written frame is not modelled.
- Legacy.JoinData:
  - The `*_flg` renames are the field names of `Legacy.FlaggedRow`.
  - A frame that already has a column named `*_flg` is not modelled. pandas would produce duplicate column labels.
- `str.upper` is modelled on ASCII letters only. Python's Unicode case mapping of other letters is left out.
- Discovery.Discover, OtoDomExtract.DiscoverCity, OtoDomExtract.GetAllUrls, OlxExtract.CollectCity and OlxExtract.GetAllUrls require that some result page is missing (`Terminates`, `PagesRunOut`). On a site whose pages never run out, the source's `while True` loop never ends, and the model says nothing about that case.
- Exceptions raised by `requests.get` are not modelled.
  - At ETL/extract_otodom.py:139 the request sits outside the `try`, so a network error there ends the whole OtoDom run instead of skipping the listing.
  - The page checks (ETL/extract_otodom.py:69, ETL/extract_olx.py:48) would end discovery for both scrapers.
- A listing entry missing its `label` or `values` member (ETL/extract_otodom.py:177-178, :207-208) raises `KeyError` for the whole run, and so does a param missing `key` or `normalizedValue` (ETL/extract_olx.py:169-170). A null `values` or `normalizedValue` raises `TypeError` at `len`. The `Entry` and `Param` datatypes always carry these members as text, so the model cannot express either case.
- Anchors without an `href` are not modelled: `Section.hrefs` and `OlxPage.hrefs` hold only anchors that have one. In the OtoDom scraper `h.get('href')` would give `None` and build a `.../None.json` link (ETL/extract_otodom.py:90). In the OLX scraper `a['href']` would raise `KeyError` outside any `try` and end discovery (ETL/extract_olx.py:84).
- OlxExtract.PageParamFrom accepts ASCII digits only. Python's `\d` also matches other Unicode decimal digits.
- OlxExtract.GetJsonOf requires the JSON text `b` to hold no backslash, so it says nothing about payloads with JSON escapes such as `\u0105`, `\/` or `\n`. For those, the two replacements at ETL/extract_olx.py:120 leave the literal's doubled `\\` in place (`OlxExtract.UnescapeKeepsDoubledEscape`), and what `json.loads` then reads depends on the injected `parse`.
- OlxExtract.GetJsonOf requires that the escaped payload contain no `";`. The source cuts the payload at the first `";`, so a payload holding one is truncated, and the model does not say what `json.loads` makes of that.
- Loading into SQL Server (the load scripts), the Airflow DAG and the `main` driver are outside the modelled core.

## Findings

| source | as written | input that shows it | evidently intended | confidence | as-written member | corrected member |
|---|---|---|---|---|---|---|
| ETL/transform.py:43 | `rent.str.replace(' z≈Ç', '')`: the pattern is ` zł` saved as UTF-8 and read back as Mac Roman, so it never matches scraped text | rent `2 500 zł` becomes `2500zł` | strip the currency as Scripts/ETL/transform.py:44 does, giving `2500` | high (not executed) | Legacy.LegacyRentKeepsSuffix | Normalize.OtoDomRentOf |

The corrected rule, `Normalize.OtoDomRent`, is the one the current OtoDom transform uses (`Normalize.OtoDomRow`). `Legacy` keeps the rule as written, because it models the older file.
