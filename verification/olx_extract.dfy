/**
  The OLX scraper's decision logic: result-page URLs, the page-existence check (with its
  redirect test and `page=` regular expression), the page loop, the href filter, the
  extraction of the listing's JSON from its HTML, and the projection of that JSON into a flat
  record, abandoning the rest of a city when a listing's JSON cannot be read. HTTP requests,
  BeautifulSoup and `json.loads` are injected as functions.
 */
module OlxExtract {

  import opened Options
  import opened Strings
  import opened Records
  import Discovery
  import Sequences

  const OlxHost := "https://www.olx.pl"
  const BaseUrl := OlxHost + "/nieruchomosci/mieszkania/sprzedaz/"
  const FartherParagraph := "Sprawdź ogłoszenia w większej odległości:"
  const PageKey := "page="

  /** The cities in the order the scraper visits them (its dictionary keys). */
  const Cities: seq<string> := ["Katowice", "Krakow", "Warszawa", "Wroclaw"]

  // ---------------------------------------------------------------------------------------
  // result pages

  /**
    A fetched result page: HTTP status, the URL after redirects, the texts of its `p`
    elements, and the `href`s of its listing anchors.
   */
  datatype OlxPage = OlxPage(status: int, finalUrl: string, paragraphs: seq<string>, hrefs: seq<string>)

  /** `(base + city + '/?page={f}&view=grid').format(f=n)`. */
  function PageUrl(city: string, n: nat): string {
    BaseUrl + city + "/?" + PageKey + NatToString(n) + "&view=grid"
  }

  /**
    `re.search(r'page=(\d+)', url).group(1)` from index `from` on: the digits after the
    leftmost `page=` that is followed by a digit; `None` when there is none (the `.group`
    call then raises).
   */
  function PageParamFrom(url: string, from: nat): (r: Option<string>)
    ensures r.Some? ==> |r.value| > 0 && AllDigits(r.value)
    decreases |url| - from
  {
    var i := Find(url, PageKey, from);
    if i < 0 then None
    else if i + |PageKey| < |url| && IsDigit(url[i + |PageKey|]) then Some(DigitPrefix(url[i + |PageKey|..]))
    else PageParamFrom(url, i + 1)
  }

  function PageParam(url: string): Option<string> {
    PageParamFrom(url, 0)
  }

  /**
    `check_page_exists`: status 200, no "look farther away" paragraph, and either no redirect
    or the requested page parameter is `1`. The `and`/`or` short-circuit, so the regular
    expression is consulted only when the page was redirected; a URL without a page
    parameter then raises.
   */
  function CheckPageExists(p: OlxPage, url: string): (r: Result<bool>)
    ensures r.Raised? ==> PageParam(url).None?
    ensures r == Ok(true) <==>
              p.status == 200 && FartherParagraph !in p.paragraphs
              && (p.finalUrl == url || PageParam(url) == Some("1"))
  {
    if p.status != 200 || FartherParagraph in p.paragraphs then Ok(false)
    else if p.finalUrl == url then Ok(true)
    else match PageParam(url)
      case None => Raised("AttributeError")
      case Some(g) => Ok(g == "1")
  }

  /** No `=` in the text before the page parameter, so no `page=` can start there. */
  lemma NoKeyBefore(city: string, n: nat)
    requires '=' !in city
    ensures Find(PageUrl(city, n), PageKey, 0) == |BaseUrl + city + "/?"|
  {
    var a := BaseUrl + city + "/?";
    var rest := NatToString(n) + "&view=grid";
    assert PageUrl(city, n) == a + PageKey + rest;
    assert '=' !in BaseUrl;
    assert '=' !in a;
    NoKeyWithoutEquals(a);
    FindMarkerAfter(a, PageKey, rest);
  }

  /** `page=` cannot occur in a text with no `=`. */
  lemma NoKeyWithoutEquals(a: string)
    requires '=' !in a
    ensures !Contains(a, PageKey)
  {
    forall k | 0 <= k
      ensures !OccursAt(a, PageKey, k)
    {
      if k + |PageKey| <= |a| {
        assert a[k + 4] == a[k..k + |PageKey|][4];
      }
    }
  }

  /** Different page numbers give different page URLs, so no page is requested twice. */
  lemma PageUrlsDistinct(city: string, m: nat, n: nat)
    requires m != n
    ensures PageUrl(city, m) != PageUrl(city, n)
  {
    var head := BaseUrl + city + "/?" + PageKey;
    if PageUrl(city, m) == PageUrl(city, n) {
      var dm, dn := NatToString(m), NatToString(n);
      assert |dm| == |dn|;
      assert PageUrl(city, m)[|head|..|head| + |dm|] == dm;
      assert PageUrl(city, n)[|head|..|head| + |dn|] == dn;
      NatToStringInjective(m, n);
    }
  }

  /** On the URLs the scraper builds, the regular expression reads back the page number. */
  lemma PageParamOfPageUrl(city: string, n: nat)
    requires '=' !in city
    ensures PageParam(PageUrl(city, n)) == Some(NatToString(n))
  {
    var head := BaseUrl + city + "/?" + PageKey;
    var digits := NatToString(n);
    var tail := digits + "&view=grid";
    var url := PageUrl(city, n);
    NoKeyBefore(city, n);
    assert url == head + tail;
    assert url[|head|..] == tail;
    assert url[|head|] == digits[0];
    DigitPrefixOf(digits, "&view=grid");
    assert PageParamFrom(url, 0) == Some(DigitPrefix(tail));
  }

  /**
    For the URLs the scraper builds, the check never raises and holds exactly when the page
    answers 200 without the "look farther away" paragraph and either was not redirected or
    is page 1.
   */
  lemma CheckPageExistsAt(p: OlxPage, city: string, n: nat)
    requires '=' !in city
    ensures CheckPageExists(p, PageUrl(city, n)).Ok?
    ensures CheckPageExists(p, PageUrl(city, n)).value
        <==> p.status == 200 && FartherParagraph !in p.paragraphs && (p.finalUrl == PageUrl(city, n) || n == 1)
  {
    PageParamOfPageUrl(city, n);
    assert NatToString(1) == "1";
    if NatToString(n) == "1" {
      NatToStringInjective(n, 1);
    }
  }

  // ---------------------------------------------------------------------------------------
  // discovery

  /**
    The href filter: drop links to otodom, prefix the others with the OLX host. At most one
    link per href, each starting with the host.
   */
  function KeepListingLinks(hrefs: seq<string>): (r: seq<string>)
    ensures |r| <= |hrefs|
    ensures forall k :: 0 <= k < |r| ==> OlxHost <= r[k]
    decreases |hrefs|
  {
    if |hrefs| == 0 then []
    else (if Contains(hrefs[0], "otodom") then [] else [OlxHost + hrefs[0]]) + KeepListingLinks(hrefs[1..])
  }

  /** A link is kept exactly when it is the host plus an href that does not mention otodom. */
  lemma {:induction false} KeepListingLinksMembers(hrefs: seq<string>, u: string)
    ensures u in KeepListingLinks(hrefs) <==>
            exists i :: 0 <= i < |hrefs| && !Contains(hrefs[i], "otodom") && u == OlxHost + hrefs[i]
    decreases |hrefs|
  {
    if |hrefs| > 0 {
      KeepListingLinksMembers(hrefs[1..], u);
      if exists i :: 0 <= i < |hrefs| && !Contains(hrefs[i], "otodom") && u == OlxHost + hrefs[i] {
        var i :| 0 <= i < |hrefs| && !Contains(hrefs[i], "otodom") && u == OlxHost + hrefs[i];
        if i > 0 {
          assert hrefs[1..][i - 1] == hrefs[i];
        }
      }
      if u in KeepListingLinks(hrefs[1..]) {
        var i :| 0 <= i < |hrefs[1..]| && !Contains(hrefs[1..][i], "otodom") && u == OlxHost + hrefs[1..][i];
        assert hrefs[i + 1] == hrefs[1..][i];
      }
    }
  }

  /**
    Whether page n of `city` exists. A check that raises would count as not existing here,
    where the source would propagate the error; `CheckPageExistsAt` shows that the check
    never raises on the URLs the loop builds, so the two agree.
   */
  function Present(fetch: string -> OlxPage, city: string): nat -> bool {
    (n: nat) => var r := CheckPageExists(fetch(PageUrl(city, n)), PageUrl(city, n)); r.Ok? && r.value
  }

  /** The kept links of page n of `city`. */
  function LinksOn(fetch: string -> OlxPage, city: string): nat -> seq<string> {
    (n: nat) => KeepListingLinks(fetch(PageUrl(city, n)).hrefs)
  }

  /**
    What `get_all_urls` did to one city: its list was extended, once, by the kept links of
    the existing pages 1..n, n being the length of the existing prefix.
   */
  ghost predicate CityCollected(fetch: string -> OlxPage, before: map<string, seq<string>>, after: map<string, seq<string>>, c: string) {
    && c in before && c in after
    && exists n: nat :: Discovery.ExistingPrefix(Present(fetch, c), n)
                        && after[c] == before[c] + Discovery.Collected(LinksOn(fetch, c), n)
  }

  /** One iteration of `get_all_urls`: the page loop for `city`, then one `extend`. */
  method CollectCity(urls: map<string, seq<string>>, fetch: string -> OlxPage, city: string)
    returns (r: map<string, seq<string>>)
    requires city in urls
    requires Discovery.Terminates(Present(fetch, city))
    ensures r.Keys == urls.Keys
    ensures CityCollected(fetch, urls, r, city)
    ensures forall c :: c in urls && c != city ==> r[c] == urls[c]
  {
    var n, hrefs := Discovery.Discover(Present(fetch, city), LinksOn(fetch, city));
    r := urls[city := urls[city] + hrefs];
  }

  /** The city's list is the one of `before`. */
  predicate Untouched(before: map<string, seq<string>>, after: map<string, seq<string>>, c: string) {
    c in before && c in after && after[c] == before[c]
  }

  /** After the first `i` cities of the loop: those are collected, the rest untouched. */
  ghost predicate Progress(fetch: string -> OlxPage, s: map<string, seq<string>>, r: map<string, seq<string>>, i: nat) {
    && i <= |Cities|
    && r.Keys == s.Keys
    && (forall j :: 0 <= j < i ==> CityCollected(fetch, s, r, Cities[j]))
    && (forall j :: i <= j < |Cities| ==> Untouched(s, r, Cities[j]))
    && (forall c :: c !in Cities ==> c in s ==> r[c] == s[c])
  }

  lemma CitiesDistinct()
    ensures forall i, j :: 0 <= i < j < |Cities| ==> Cities[i] != Cities[j]
  {
  }

  /** `CityCollected` reads only the city's own entries. */
  lemma CollectedSame(fetch: string -> OlxPage, b1: map<string, seq<string>>, a1: map<string, seq<string>>,
                      b2: map<string, seq<string>>, a2: map<string, seq<string>>, c: string)
    requires CityCollected(fetch, b1, a1, c)
    requires c in b2 && c in a2 && b2[c] == b1[c] && a2[c] == a1[c]
    ensures CityCollected(fetch, b2, a2, c)
  {
  }

  /** Collecting city `i` advances the loop's progress by one city. */
  lemma ProgressStep(fetch: string -> OlxPage, s: map<string, seq<string>>, r: map<string, seq<string>>,
                     next: map<string, seq<string>>, i: nat)
    requires i < |Cities| && Progress(fetch, s, r, i)
    requires next.Keys == r.Keys
    requires CityCollected(fetch, r, next, Cities[i])
    requires forall c :: c in r && c != Cities[i] ==> next[c] == r[c]
    ensures Progress(fetch, s, next, i + 1)
  {
    CitiesDistinct();
    var city := Cities[i];
    CollectedSame(fetch, r, next, s, next, city);
    forall j | 0 <= j < i
      ensures CityCollected(fetch, s, next, Cities[j])
    {
      CollectedSame(fetch, s, r, s, next, Cities[j]);
    }
    forall j | i + 1 <= j < |Cities|
      ensures Untouched(s, next, Cities[j])
    {
      assert Cities[j] != city;
    }
  }

  /**
    `get_all_urls`: the page loop for every city in order. Each city's list grows by the kept
    links of its existing pages; other entries are untouched.
   */
  method GetAllUrls(urls: map<string, seq<string>>, fetch: string -> OlxPage) returns (r: map<string, seq<string>>)
    requires forall c :: c in Cities ==> c in urls
    requires forall c :: c in Cities ==> Discovery.Terminates(Present(fetch, c))
    ensures r.Keys == urls.Keys
    ensures forall c :: c in Cities ==> CityCollected(fetch, urls, r, c)
    ensures forall c :: c in urls && c !in Cities ==> r[c] == urls[c]
  {
    r := urls;
    var i := 0;
    while i < |Cities|
      invariant i <= |Cities|
      invariant Progress(fetch, urls, r, i)
    {
      var city := Cities[i];
      assert Untouched(urls, r, city);
      assert city in Cities;
      var next := CollectCity(r, fetch, city);
      ProgressStep(fetch, urls, r, next, i);
      r := next;
      i := i + 1;
    }
    forall c | c in Cities
      ensures CityCollected(fetch, urls, r, c)
    {
      var j :| 0 <= j < |Cities| && Cities[j] == c;
    }
  }

  // ---------------------------------------------------------------------------------------
  // get_json

  const StartMarker := "__PRERENDERED_STATE__= \""
  const PayloadEnd := "\";"

  /**
    The text of `get_json` before unescaping: from just after the start marker to the first
    `";` after it, or to the end. A missing marker makes `find` return -1, so the text starts
    at index `len(marker) - 1`; a start past the end gives the empty text.
   */
  function PayloadText(html: string): (r: string)
    ensures !Contains(r, PayloadEnd)
  {
    var start := Find(html, StartMarker, 0) + |StartMarker|;
    var end := Find(html, PayloadEnd, start);
    var from := if start <= |html| then start else |html|;
    var stop := if end != -1 then end else |html|;
    assert from <= stop;
    var r := html[from..stop];
    assert !Contains(r, PayloadEnd) by {
      forall k | 0 <= k
        ensures !OccursAt(r, PayloadEnd, k)
      {
        if OccursAt(r, PayloadEnd, k) {
          OccursInSlice(html, PayloadEnd, from, stop, k);
        }
      }
    }
    r
  }

  /** In `prefix + marker + tail`, the first marker is the one after `prefix`. */
  lemma StartAfterPrefix(prefix: string, tail: string)
    requires !Contains(prefix, StartMarker)
    ensures Find(prefix + StartMarker + tail, StartMarker, 0) + |StartMarker| == |prefix + StartMarker|
  {
    FindMarkerAfter(prefix, StartMarker, tail);
  }

  /** Searching for the end marker from the start of `body` finds the one right after it. */
  lemma EndAfterBody(u: string, body: string, rest: string)
    requires !Contains(body, PayloadEnd)
    ensures Find(u + (body + PayloadEnd + rest), PayloadEnd, |u|) == |u| + |body|
  {
    FindMarkerAfter(body, PayloadEnd, rest);
    FindShift(u, body + PayloadEnd + rest, PayloadEnd);
  }

  /** Once both searches succeed, the payload is the text between the two positions found. */
  lemma PayloadTextBetween(html: string, start: nat, end: nat)
    requires Find(html, StartMarker, 0) + |StartMarker| == start
    requires start <= end && Find(html, PayloadEnd, start) == end
    ensures PayloadText(html) == html[start..end]
  {
  }

  /** The text between the first start marker and the next `";` is what `get_json` extracts. */
  lemma PayloadTextOf(prefix: string, body: string, rest: string)
    requires !Contains(prefix, StartMarker)
    requires !Contains(body, PayloadEnd)
    ensures PayloadText(prefix + StartMarker + body + PayloadEnd + rest) == body
  {
    var tail := body + PayloadEnd + rest;
    var u := prefix + StartMarker;
    Regroup(u, body, PayloadEnd, rest);
    StartAfterPrefix(prefix, tail);
    EndAfterBody(u, body, rest);
    PayloadTextBetween(u + tail, |u|, |u| + |body|);
  }

  /** `u + b + m + t` regrouped, and `b` sliced back out of it. */
  lemma Regroup(u: string, b: string, m: string, t: string)
    ensures u + b + m + t == u + (b + m + t)
    ensures (u + (b + m + t))[|u|..|u| + |b|] == b
  {
  }

  /** Without the start marker, the extraction starts at index 23, the quirk of `find` returning -1. */
  lemma PayloadTextWithoutMarker(html: string)
    requires !Contains(html, StartMarker) && !Contains(html, PayloadEnd)
    ensures PayloadText(html) == if |html| <= |StartMarker| - 1 then "" else html[|StartMarker| - 1..]
  {
    assert Find(html, PayloadEnd, |StartMarker| - 1) == -1;
  }

  /**
    The unescaping of `get_json`: `\"` becomes `"`, then `\\"` becomes `\"`. A text without
    an escaped quote comes out unchanged.
   */
  function Unescape(s: string): (r: string)
    ensures !Contains(s, "\\\"") ==> r == s
  {
    var t := ReplaceAll(s, "\\\"", "\"");
    assert !Contains(s, "\\\"") ==> !Contains(s, "\\\\\"") by {
      EscapedQuoteInside(s);
    }
    ReplaceAll(t, "\\\\\"", "\\\"")
  }

  /** Every `\\"` holds a `\"` one character in. */
  lemma EscapedQuoteInside(s: string)
    ensures !Contains(s, "\\\"") ==> !Contains(s, "\\\\\"")
  {
    if !Contains(s, "\\\"") {
      forall k | 0 <= k
        ensures !OccursAt(s, "\\\\\"", k)
      {
        if k + 3 <= |s| {
          assert !OccursAt(s, "\\\"", k + 1);
          assert s[k..k + 3][1..] == s[k + 1..k + 3];
          assert "\\\\\""[1..] == "\\\"";
        }
      }
    }
  }

  /** How a JavaScript string literal escapes the quotes of a text free of backslashes. */
  function EscapeQuotes(b: string): string {
    ReplaceAll(b, "\"", "\\\"")
  }

  /** The first replacement undoes quote escaping of a text without backslashes. */
  lemma {:induction false} FirstStepUnescapes(b: string)
    requires '\\' !in b
    ensures ReplaceAll(EscapeQuotes(b), "\\\"", "\"") == b
    decreases |b|
  {
    var i := Find(b, "\"", 0);
    if i < 0 {
      ReplaceAbsent(b, "\\\"", "\"");
    } else {
      var head := b[..i];
      var rest := b[i + 1..];
      assert b == head + "\"" + rest;
      assert '\\' !in rest && '\\' !in head;
      FirstStepUnescapes(rest);
      var er := EscapeQuotes(rest);
      assert EscapeQuotes(b) == head + "\\\"" + er;
      FindAfterFree(head, "\\\"", er);
      assert (head + "\\\"" + er)[..|head|] == head;
      assert (head + "\\\"" + er)[|head| + 2..] == er;
    }
  }

  /** Unescaping inverts quote escaping on texts without backslashes. */
  lemma UnescapeEscapeQuotes(b: string)
    requires '\\' !in b
    ensures Unescape(EscapeQuotes(b)) == b
  {
    FirstStepUnescapes(b);
    ReplaceAbsent(b, "\\\\\"", "\\\"");
  }

  /**
    A JSON escape other than `\"` stays doubled: the literal's `\\u0105` reaches `json.loads`
    as `\\u0105`, which it reads as the six characters `\u0105`, not as `ą`.
   */
  lemma UnescapeKeepsDoubledEscape()
    ensures Unescape("\\\\u0105") == "\\\\u0105"
  {
    MissingCharNotContained("\\\\u0105", "\\\"", 1);
  }

  // ---------------------------------------------------------------------------------------
  // listing payloads

  /** One `{key, normalizedValue}` entry of `params`. */
  datatype Param = Param(key: string, normalizedValue: string)

  /**
    The `ad.ad` object of a listing: its scalar members (`None` for JSON null, absent when
    missing), the `price.regularPrice.value` path and the `params` list. The path is `Absent`
    when one of its keys is missing, `Null` when an object along it is null, and otherwise
    holds the value (`None` for a null value). `NotObject` is an `ad.ad` that is null or not a
    JSON object, which `json.loads(..)['ad']['ad']` returns without raising.
   */
  datatype OlxAd =
    | OlxAd(fields: map<string, Option<string>>, price: Member<Option<string>>, params: Member<seq<Param>>)
    | NotObject

  /** `get_json` end to end: fetch, extract, unescape, parse; `None` means it raised. */
  function GetJson(fetchHtml: string -> string, parse: string -> Option<OlxAd>, url: string): Option<OlxAd> {
    parse(Unescape(PayloadText(fetchHtml(url))))
  }

  /**
    A page whose state literal holds the quote-escaped text `b` after the first start marker
    yields the object `json.loads` reads from `b` itself.
   */
  lemma GetJsonOf(fetchHtml: string -> string, parse: string -> Option<OlxAd>, url: string,
                  prefix: string, b: string, rest: string)
    requires fetchHtml(url) == prefix + StartMarker + EscapeQuotes(b) + PayloadEnd + rest
    requires !Contains(prefix, StartMarker) && '\\' !in b && !Contains(EscapeQuotes(b), PayloadEnd)
    ensures GetJson(fetchHtml, parse, url) == parse(b)
  {
    PayloadTextOf(prefix, EscapeQuotes(b), rest);
    UnescapeEscapeQuotes(b);
  }

  /** The columns of `generalInformation`. */
  predicate IsGeneral(c: Column) {
    c.Id? || c.Source? || c.Date? || c.CityName? || c.MarketType? || c.CreateDate? || c.ModifyDate?
    || c.Title? || c.Url? || c.Price?
  }

  /** The columns of `params`. */
  predicate IsParam(c: Column) {
    c.PricePerM? || c.Floor? || c.Furniture? || c.MarketType? || c.Area? || c.RoomsNum?
  }

  predicate IsOlxColumn(c: Column) {
    IsGeneral(c) || IsParam(c)
  }

  /** The `params` key that fills each params column. */
  function ParamLabel(c: Column): string {
    match c
    case PricePerM => "price_per_m"
    case Floor => "floor_select"
    case Furniture => "furniture"
    case MarketType => "market"
    case Area => "m"
    case RoomsNum => "rooms"
    case _ => ""
  }

  /** The `(key, normalizedValue)` items of the params with a non-empty value, in order. */
  function Items(params: seq<Param>): seq<(string, string)> {
    if |params| == 0 then []
    else (if |params[0].normalizedValue| > 0 then [(params[0].key, params[0].normalizedValue)] else [])
         + Items(params[1..])
  }

  /** The members `generalInformation` subscripts and the `params` loop iterates are all there. */
  predicate Readable(ad: OlxAd) {
    && ad.OlxAd?
    && "id" in ad.fields && "createdTime" in ad.fields && "lastRefreshTime" in ad.fields
    && "title" in ad.fields && "url" in ad.fields
    && ad.price.Present? && ad.params.Present?
  }

  /**
    The exception of a listing that cannot be read: subscripting anything but an object raises
    `TypeError`; otherwise the scalar subscripts come first and raise `KeyError`, then the
    price path, then the `params` loop.
   */
  function ReadError(ad: OlxAd): (e: string)
    requires !Readable(ad)
    ensures e == "KeyError" || e == "TypeError"
    ensures e == "TypeError" <==>
              || ad.NotObject?
              || (&& "id" in ad.fields && "createdTime" in ad.fields && "lastRefreshTime" in ad.fields
                  && "title" in ad.fields && "url" in ad.fields
                  && (ad.price.Null? || (ad.price.Present? && ad.params.Null?)))
  {
    if ad.NotObject? then "TypeError"
    else if !("id" in ad.fields && "createdTime" in ad.fields && "lastRefreshTime" in ad.fields
         && "title" in ad.fields && "url" in ad.fields) then "KeyError"
    else if !ad.price.Present? then UseError(ad.price)
    else UseError(ad.params)
  }

  /** One cell of `generalInformation`. */
  function GeneralCell(ad: OlxAd, city: string, today: string, c: Column): Option<string>
    requires Readable(ad)
  {
    match c
    case Id => ad.fields["id"]
    case Source => Some("OLX")
    case Date => Some(today)
    case CityName => Some(city)
    case MarketType => Some("Prywatny")
    case CreateDate => ad.fields["createdTime"]
    case ModifyDate => ad.fields["lastRefreshTime"]
    case Title => ad.fields["title"]
    case Url => ad.fields["url"]
    case Price => ad.price.value
    case _ => None
  }

  function GeneralInformation(ad: OlxAd, city: string, today: string): (r: Raw)
    requires Readable(ad)
    ensures forall c :: c in r <==> IsGeneral(c)
    ensures Get(r, Source) == Some("OLX") && Get(r, CityName) == Some(city) && Get(r, Date) == Some(today)
    ensures Get(r, MarketType) == Some("Prywatny")
    ensures Get(r, Id) == ad.fields["id"] && Get(r, Price) == ad.price.value
    ensures forall c :: IsGeneral(c) ==> Get(r, c) == GeneralCell(ad, city, today, c)
  {
    GeneralMapCells(ad, city, today);
    GeneralMapAt(ad, city, today, Source);
    GeneralMapAt(ad, city, today, CityName);
    GeneralMapAt(ad, city, today, Date);
    GeneralMapAt(ad, city, today, MarketType);
    GeneralMapAt(ad, city, today, Id);
    GeneralMapAt(ad, city, today, Price);
    GeneralMap(ad, city, today)
  }

  /** The general columns, each holding its cell. */
  function GeneralMap(ad: OlxAd, city: string, today: string): (m: Raw)
    requires Readable(ad)
    ensures forall c :: c in m <==> IsGeneral(c)
  {
    var m := map c | c in AllColumns && IsGeneral(c) :: GeneralCell(ad, city, today, c);
    assert forall c :: IsGeneral(c) ==> c in m by {
      forall c | IsGeneral(c)
        ensures c in m
      {
        EveryColumn(c);
      }
    }
    m
  }

  lemma GeneralMapAt(ad: OlxAd, city: string, today: string, c: Column)
    requires Readable(ad) && IsGeneral(c)
    ensures GeneralMap(ad, city, today)[c] == GeneralCell(ad, city, today, c)
  {
    EveryColumn(c);
  }

  lemma GeneralMapCells(ad: OlxAd, city: string, today: string)
    requires Readable(ad)
    ensures forall c :: IsGeneral(c) ==> Get(GeneralMap(ad, city, today), c) == GeneralCell(ad, city, today, c)
  {
    forall c | IsGeneral(c)
      ensures Get(GeneralMap(ad, city, today), c) == GeneralCell(ad, city, today, c)
    {
      GeneralMapAt(ad, city, today, c);
    }
  }

  /** `generalInformation | params`: params win on the one shared column, `market_type`. */
  function Merge(general: Raw, params: Raw): (r: Raw)
    requires forall c :: c in general <==> IsGeneral(c)
    requires forall c :: c in params <==> IsParam(c)
    ensures forall c :: c in r <==> IsOlxColumn(c)
    ensures forall c :: IsParam(c) ==> Get(r, c) == Get(params, c)
    ensures forall c :: !IsParam(c) ==> Get(r, c) == Get(general, c)
    ensures Get(r, Source) == Get(general, Source) && Get(r, CityName) == Get(general, CityName)
  {
    general + params
  }

  /** A column outside `params` keeps its general cell. */
  lemma MergeKeepsGeneral(general: Raw, params: Raw, c: Column)
    requires forall c :: c in general <==> IsGeneral(c)
    requires forall c :: c in params <==> IsParam(c)
    requires !IsParam(c)
    ensures Get(Merge(general, params), c) == Get(general, c)
  {
  }

  /** A record of the OLX scraper for `city`: the OLX columns, source and city set. */
  ghost predicate IsOlxRecord(r: Raw, city: string) {
    && (forall c :: c in r <==> IsOlxColumn(c))
    && Get(r, Source) == Some("OLX") && Get(r, CityName) == Some(city)
  }

  /** The record `generalInformation | params` of a listing whose members can be read. */
  function ReadRecord(ad: OlxAd, city: string, today: string): (r: Raw)
    requires Readable(ad)
    ensures IsOlxRecord(r, city)
    ensures forall c :: IsParam(c) ==> Get(r, c) == LastLabelled(Items(ad.params.value), ParamLabel(c))
    ensures forall c :: IsGeneral(c) && !IsParam(c) ==> Get(r, c) == GeneralCell(ad, city, today, c)
  {
    var general := GeneralInformation(ad, city, today);
    var params := Params(Items(ad.params.value));
    forall c | IsGeneral(c) && !IsParam(c)
      ensures Get(Merge(general, params), c) == GeneralCell(ad, city, today, c)
    {
      MergeKeepsGeneral(general, params, c);
    }
    Merge(general, params)
  }

  /** `params` after its defaults and update loop. */
  function Params(items: seq<(string, string)>): (m: Raw)
    ensures forall c :: c in m <==> IsParam(c)
    ensures forall c :: IsParam(c) ==> m[c] == LastLabelled(items, ParamLabel(c))
  {
    Project(IsParam, ParamLabel, items)
  }

  /**
    The record of one listing whose JSON was read; `None` when a subscript of
    `generalInformation` or the `params` loop raises, which ends the whole run.
   */
  function ListingRecord(ad: OlxAd, city: string, today: string): (r: Option<Raw>)
    ensures r.Some? <==> Readable(ad)
    ensures r.Some? ==> IsOlxRecord(r.value, city)
  {
    if !Readable(ad) then None else Some(ReadRecord(ad, city, today))
  }

  /**
    The literal `'Prywatny'` never survives: `market_type` is the last non-empty `market`
    param, or null.
   */
  lemma MarketTypeFromParams(ad: OlxAd, city: string, today: string)
    requires Readable(ad)
    ensures Get(ListingRecord(ad, city, today).value, MarketType) == LastLabelled(Items(ad.params.value), "market")
    ensures Get(ListingRecord(ad, city, today).value, MarketType) == Some("Prywatny") ==>
              exists i :: 0 <= i < |Items(ad.params.value)| && Items(ad.params.value)[i] == ("market", "Prywatny")
  {
    var items := Items(ad.params.value);
    ReadRecordMarket(ad, city, today);
    if LastLabelled(items, "market").Some? {
      LastLabelledIsLast(items, "market");
      var i :| 0 <= i < |items| && items[i] == ("market", LastLabelled(items, "market").value)
               && forall j :: i < j < |items| ==> items[j].0 != "market";
    }
  }

  lemma ReadRecordMarket(ad: OlxAd, city: string, today: string)
    requires Readable(ad)
    ensures Get(ListingRecord(ad, city, today).value, MarketType) == LastLabelled(Items(ad.params.value), "market")
  {
    assert IsParam(MarketType) && ParamLabel(MarketType) == "market";
  }

  /**
    One city of `scrap_data`: listings in order; a `get_json` failure breaks out of the city,
    a failing record raises out of the whole run.
   */
  function ScrapeCity(urls: seq<string>, getJson: string -> Option<OlxAd>, city: string, today: string): (r: Result<seq<Raw>>)
    ensures r.Ok? ==> |r.value| <= |urls|
    ensures r.Ok? ==> AllOlx(r.value, city)
    decreases |urls|
  {
    if |urls| == 0 then Ok([])
    else Step(getJson(urls[0]), city, today, ScrapeCity(urls[1..], getJson, city, today))
  }

  /**
    One listing in front of the run over the listings after it: no JSON ends the city, a
    record that cannot be built raises, a record is put in front of the rest.
   */
  function Step(json: Option<OlxAd>, city: string, today: string, rest: Result<seq<Raw>>): (r: Result<seq<Raw>>)
    ensures r.Raised? <==> json.Some? && (!Readable(json.value) || rest.Raised?)
    ensures json.Some? && !Readable(json.value) ==> r == Raised(ReadError(json.value))
    ensures json.Some? && Readable(json.value) && rest.Raised? ==> r == rest
    ensures r.Ok? && rest.Ok? ==> |r.value| <= |rest.value| + 1
    ensures r.Ok? && json.Some? ==> rest.Ok?
    ensures (rest.Ok? ==> AllOlx(rest.value, city)) ==> (r.Ok? ==> AllOlx(r.value, city))
  {
    match json
    case None => Ok([])
    case Some(ad) =>
      match ListingRecord(ad, city, today)
      case None => Raised(ReadError(ad))
      case Some(record) =>
        if rest.Ok? then
          AllOlxCons(record, rest.value, city);
          Ok([record] + rest.value)
        else rest
  }

  /** Every record is an OLX record of `city`. */
  ghost predicate AllOlx(rs: seq<Raw>, city: string) {
    forall i :: 0 <= i < |rs| ==> IsOlxRecord(rs[i], city)
  }

  lemma AllOlxCons(record: Raw, rest: seq<Raw>, city: string)
    ensures IsOlxRecord(record, city) && AllOlx(rest, city) ==> AllOlx([record] + rest, city)
  {
    if IsOlxRecord(record, city) && AllOlx(rest, city) {
      forall i | 0 < i < |rest| + 1
        ensures IsOlxRecord(([record] + rest)[i], city)
      {
        assert ([record] + rest)[i] == rest[i - 1];
      }
    }
  }

  /** The first unreadable listing abandons the rest of its city: only the URLs before it count. */
  lemma {:induction false} BreakAbandonsRest(urls: seq<string>, getJson: string -> Option<OlxAd>, city: string, today: string, i: nat)
    requires i < |urls| && getJson(urls[i]).None?
    ensures ScrapeCity(urls, getJson, city, today) == ScrapeCity(urls[..i], getJson, city, today)
    decreases i
  {
    if i > 0 {
      BreakAbandonsRest(urls[1..], getJson, city, today, i - 1);
      assert urls[1..][..i - 1] == urls[..i][1..];
      assert urls[..i][0] == urls[0];
    }
  }

  /** A readable listing puts its record in front of the rest. */
  lemma StepReadable(ad: OlxAd, city: string, today: string, rest: Result<seq<Raw>>)
    requires Readable(ad) && rest.Ok?
    ensures Step(Some(ad), city, today, rest) == Ok([ReadRecord(ad, city, today)] + rest.value)
  {
  }

  /** Every listing behind `urls` comes back as JSON that can be read. */
  ghost predicate AllRead(urls: seq<string>, getJson: string -> Option<OlxAd>) {
    forall i :: 0 <= i < |urls| ==> getJson(urls[i]).Some? && Readable(getJson(urls[i]).value)
  }

  /** The record of each listing, in URL order, when every listing can be read. */
  ghost function ListingRecords(urls: seq<string>, getJson: string -> Option<OlxAd>, city: string, today: string): (rs: seq<Raw>)
    requires AllRead(urls, getJson)
    ensures |rs| == |urls|
    decreases |urls|
  {
    if |urls| == 0 then []
    else
      var tail := urls[1..];
      assert forall j :: 0 <= j < |tail| ==> tail[j] == urls[j + 1];
      [ReadRecord(getJson(urls[0]).value, city, today)] + ListingRecords(tail, getJson, city, today)
  }

  /**
    When every listing is read and projected, the city's run is the record of each listing,
    in URL order: one record per URL.
   */
  lemma {:induction false} AllReadable(urls: seq<string>, getJson: string -> Option<OlxAd>, city: string, today: string)
    requires AllRead(urls, getJson)
    ensures ScrapeCity(urls, getJson, city, today) == Ok(ListingRecords(urls, getJson, city, today))
    decreases |urls|
  {
    if |urls| > 0 {
      AllReadable(urls[1..], getJson, city, today);
      StepReadable(getJson(urls[0]).value, city, today, ScrapeCity(urls[1..], getJson, city, today));
    }
  }

  /**
    The listing at `i` is fetched but cannot be read, and every listing before it was fetched
    and read: it is the listing whose exception ends the run.
   */
  ghost predicate FailsAt(urls: seq<string>, getJson: string -> Option<OlxAd>, i: nat) {
    && i < |urls| && getJson(urls[i]).Some? && !Readable(getJson(urls[i]).value)
    && forall j :: 0 <= j < i ==> getJson(urls[j]).Some? && Readable(getJson(urls[j]).value)
  }

  /**
    The record code runs outside the `try`, so a city's run raises exactly when a listing is
    fetched but cannot be read before any listing breaks out of the city, and it raises that
    listing's exception.
   */
  lemma {:induction false} ScrapeCityRaises(urls: seq<string>, getJson: string -> Option<OlxAd>, city: string, today: string)
    ensures ScrapeCity(urls, getJson, city, today).Raised? <==> exists i: nat :: FailsAt(urls, getJson, i)
    ensures forall i: nat :: FailsAt(urls, getJson, i) ==>
              ScrapeCity(urls, getJson, city, today) == Raised(ReadError(getJson(urls[i]).value))
    decreases |urls|
  {
    if |urls| > 0 {
      var tail := urls[1..];
      ScrapeCityRaises(tail, getJson, city, today);
      assert ScrapeCity(urls, getJson, city, today) ==
             Step(getJson(urls[0]), city, today, ScrapeCity(tail, getJson, city, today));
      RaisesCons(urls, getJson, city, today, ScrapeCity(tail, getJson, city, today));
    }
  }

  /** One listing in front of a tail whose raises are already characterised. */
  lemma RaisesCons(urls: seq<string>, getJson: string -> Option<OlxAd>, city: string, today: string, rest: Result<seq<Raw>>)
    requires |urls| > 0
    requires rest.Raised? <==> exists i: nat :: FailsAt(urls[1..], getJson, i)
    requires forall i: nat :: FailsAt(urls[1..], getJson, i) ==> rest == Raised(ReadError(getJson(urls[1..][i]).value))
    ensures Step(getJson(urls[0]), city, today, rest).Raised? <==> exists i: nat :: FailsAt(urls, getJson, i)
    ensures forall i: nat :: FailsAt(urls, getJson, i) ==>
              Step(getJson(urls[0]), city, today, rest) == Raised(ReadError(getJson(urls[i]).value))
  {
    var json := getJson(urls[0]);
    if json.None? {
      forall i: nat
        ensures !FailsAt(urls, getJson, i)
      {
        if 0 < i < |urls| {
          assert !(json.Some?);
        }
      }
    } else if Readable(json.value) {
      FailsAfterReadable(urls, getJson);
    } else {
      assert FailsAt(urls, getJson, 0);
      assert forall i: nat :: 0 < i ==> !FailsAt(urls, getJson, i);
    }
  }

  /** Behind a fetched, readable first listing, the failing listings are those of the tail, shifted. */
  lemma FailsAfterReadable(urls: seq<string>, getJson: string -> Option<OlxAd>)
    requires |urls| > 0 && getJson(urls[0]).Some? && Readable(getJson(urls[0]).value)
    ensures forall i: nat :: FailsAt(urls, getJson, i) <==> i > 0 && FailsAt(urls[1..], getJson, i - 1)
    ensures forall i: nat :: i > 0 && i < |urls| ==> urls[i] == urls[1..][i - 1]
    ensures (exists i: nat :: FailsAt(urls, getJson, i)) <==> exists i: nat :: FailsAt(urls[1..], getJson, i)
  {
    var tail := urls[1..];
    forall i: nat
      ensures FailsAt(urls, getJson, i) <==> i > 0 && FailsAt(tail, getJson, i - 1)
    {
      if i > 0 {
        assert forall j :: 0 <= j < i - 1 && j < |tail| ==> tail[j] == urls[j + 1];
        assert forall j :: 0 < j < i && j < |urls| ==> urls[j] == tail[j - 1];
        if i < |urls| {
          assert urls[i] == tail[i - 1];
        }
      }
    }
    if exists i: nat :: FailsAt(tail, getJson, i) {
      var i: nat :| FailsAt(tail, getJson, i);
      assert FailsAt(urls, getJson, i + 1);
    }
  }

  /** Every record is an OLX record of one of `cities`, the one its `city_name` column names. */
  ghost predicate FromCities(rs: seq<Raw>, cities: seq<string>) {
    forall i :: 0 <= i < |rs| ==>
      Get(rs[i], CityName).Some? && Get(rs[i], CityName).value in cities
      && IsOlxRecord(rs[i], Get(rs[i], CityName).value)
  }

  lemma FromCitiesConcat(here: seq<Raw>, rest: seq<Raw>, cities: seq<string>)
    requires |cities| > 0
    requires forall i :: 0 <= i < |here| ==> IsOlxRecord(here[i], cities[0])
    requires FromCities(rest, cities[1..])
    ensures FromCities(here + rest, cities)
  {
    var rs := here + rest;
    forall i | 0 <= i < |rs|
      ensures Get(rs[i], CityName).Some? && Get(rs[i], CityName).value in cities
              && IsOlxRecord(rs[i], Get(rs[i], CityName).value)
    {
      if i < |here| {
        assert rs[i] == here[i];
      } else {
        assert rs[i] == rest[i - |here|];
      }
    }
  }

  /** The cities' runs one after the other; a break ends only its own city. */
  function ScrapeCities(cities: seq<string>, urls: map<string, seq<string>>, getJson: string -> Option<OlxAd>, today: string): (r: Result<seq<Raw>>)
    requires forall c :: c in cities ==> c in urls
    ensures r.Ok? ==> FromCities(r.value, cities)
    decreases |cities|
  {
    if |cities| == 0 then Ok([])
    else
      var here := ScrapeCity(urls[cities[0]], getJson, cities[0], today);
      var rest := ScrapeCities(cities[1..], urls, getJson, today);
      if here.Ok? && rest.Ok? then
        FromCitiesConcat(here.value, rest.value, cities);
        Then(here, rest)
      else Then(here, rest)
  }

  /** The cities' runs succeed together exactly when every city's run succeeds. */
  lemma {:induction false} ScrapeCitiesRaises(cities: seq<string>, urls: map<string, seq<string>>, getJson: string -> Option<OlxAd>, today: string)
    requires forall c :: c in cities ==> c in urls
    ensures ScrapeCities(cities, urls, getJson, today).Ok? <==>
            forall i :: 0 <= i < |cities| ==> ScrapeCity(urls[cities[i]], getJson, cities[i], today).Ok?
    decreases |cities|
  {
    if |cities| > 0 {
      ScrapeCitiesRaises(cities[1..], urls, getJson, today);
      assert ScrapeCities(cities, urls, getJson, today) ==
             Then(ScrapeCity(urls[cities[0]], getJson, cities[0], today), ScrapeCities(cities[1..], urls, getJson, today));
      CitiesOkCons(cities, urls, getJson, today);
    }
  }

  /** Every city's run succeeds exactly when the first one and all of the others' do. */
  lemma CitiesOkCons(cities: seq<string>, urls: map<string, seq<string>>, getJson: string -> Option<OlxAd>, today: string)
    requires |cities| > 0 && forall c :: c in cities ==> c in urls
    ensures (forall i :: 0 <= i < |cities| ==> ScrapeCity(urls[cities[i]], getJson, cities[i], today).Ok?) <==>
            ScrapeCity(urls[cities[0]], getJson, cities[0], today).Ok? &&
            forall i :: 0 <= i < |cities[1..]| ==> ScrapeCity(urls[cities[1..][i]], getJson, cities[1..][i], today).Ok?
  {
    assert forall i :: 1 <= i < |cities| ==> cities[1..][i - 1] == cities[i];
  }

  /** `scrap_data`: every city's listings, cities in order. */
  function ScrapData(urls: map<string, seq<string>>, getJson: string -> Option<OlxAd>, today: string): (r: Result<seq<Raw>>)
    requires forall c :: c in Cities ==> c in urls
    ensures r.Ok? ==> FromCities(r.value, Cities)
    ensures r.Ok? <==> forall i :: 0 <= i < |Cities| ==> ScrapeCity(urls[Cities[i]], getJson, Cities[i], today).Ok?
    ensures (forall i :: 0 <= i < |Cities| ==> ScrapeCity(urls[Cities[i]], getJson, Cities[i], today).Ok?) ==>
              r == Ok(Sequences.Concat(Values(CityRuns(Cities, urls, getJson, today))))
    ensures forall i :: FirstRaised(CityRuns(Cities, urls, getJson, today), i) ==>
              r == ScrapeCity(urls[Cities[i]], getJson, Cities[i], today)
  {
    ScrapeCitiesRuns(Cities, urls, getJson, today);
    ScrapeCitiesRaises(Cities, urls, getJson, today);
    ScrapeCities(Cities, urls, getJson, today)
  }

  /** The run of each city in `cities`, in order. */
  function CityRuns(cities: seq<string>, urls: map<string, seq<string>>, getJson: string -> Option<OlxAd>, today: string): (runs: seq<Result<seq<Raw>>>)
    requires forall c :: c in cities ==> c in urls
    ensures |runs| == |cities|
    ensures forall i :: 0 <= i < |cities| ==> runs[i] == ScrapeCity(urls[cities[i]], getJson, cities[i], today)
  {
    seq(|cities|, i requires 0 <= i < |cities| => ScrapeCity(urls[cities[i]], getJson, cities[i], today))
  }

  /** The cities' loop is the city runs appended in order. */
  lemma {:induction false} ScrapeCitiesIsThenAll(cities: seq<string>, urls: map<string, seq<string>>, getJson: string -> Option<OlxAd>, today: string)
    requires forall c :: c in cities ==> c in urls
    ensures ScrapeCities(cities, urls, getJson, today) == ThenAll(CityRuns(cities, urls, getJson, today))
    decreases |cities|
  {
    if |cities| > 0 {
      var tail := cities[1..];
      assert forall i :: 0 <= i < |tail| ==> tail[i] == cities[i + 1];
      ScrapeCitiesIsThenAll(tail, urls, getJson, today);
      assert CityRuns(cities, urls, getJson, today)[1..] == CityRuns(tail, urls, getJson, today);
    }
  }

  /**
    The frame of the whole run: when every city succeeds, the cities' records concatenated in
    the order of `cities`; otherwise the first failing city's exception.
   */
  lemma ScrapeCitiesRuns(cities: seq<string>, urls: map<string, seq<string>>, getJson: string -> Option<OlxAd>, today: string)
    requires forall c :: c in cities ==> c in urls
    ensures (forall i :: 0 <= i < |cities| ==> ScrapeCity(urls[cities[i]], getJson, cities[i], today).Ok?) ==>
              ScrapeCities(cities, urls, getJson, today) == Ok(Sequences.Concat(Values(CityRuns(cities, urls, getJson, today))))
    ensures forall i :: FirstRaised(CityRuns(cities, urls, getJson, today), i) ==>
              ScrapeCities(cities, urls, getJson, today) == ScrapeCity(urls[cities[i]], getJson, cities[i], today)
  {
    var runs := CityRuns(cities, urls, getJson, today);
    ScrapeCitiesIsThenAll(cities, urls, getJson, today);
    if forall i :: 0 <= i < |runs| ==> runs[i].Ok? {
      ThenAllOk(runs);
    }
    forall i | FirstRaised(runs, i)
      ensures ThenAll(runs) == runs[i]
    {
      ThenAllRaised(runs, i);
    }
  }
}
