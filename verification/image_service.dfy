/** Downloading feed images: the conditional, deduplicating `downloadImage`
    and the fallback chain that tries the image a feed declares, then
    `/favicon.ico`, then the icon a web page links to. HTTP, the parsers,
    URL resolution, SHA-256 and the clock are parameters. */
module ImageService {
  import opened Wrappers
  import opened Entities

  /** An HTTP GET with the optional conditional headers. */
  datatype Request = Request(url: string, ifNoneMatch: Option<string>, ifModifiedSince: Option<string>)

  /** A response after redirects: status, final URL, the headers read, and
      the body. */
  datatype Response = Response(
    status: int,
    url: string,
    contentType: Option<string>,
    etag: Option<string>,
    lastModified: Option<string>,
    body: Bytes)

  /** A request either throws (network error, invalid URL) or yields a
      response. */
  datatype Fetched = Threw | Received(response: Response)

  /** What the feed parser reads from a feed document: its site link and
      the URL of its declared image. */
  datatype ParsedFeed = ParsedFeed(link: Option<string>, imageUrl: Option<string>)

  /** A `<link>` element of a web page, its `rel` as written in the page. */
  datatype LinkTag = LinkTag(rel: string, href: Option<string>)

  /** ASCII lower case: 'A'..'Z' become 'a'..'z', every other character
      stays. */
  function LowerChar(c: char): char {
    if 'A' <= c <= 'Z' then (c as int + 32) as char else c
  }

  function AsciiLower(s: string): (r: string)
    ensures |r| == |s|
    ensures forall i :: 0 <= i < |s| ==> r[i] == LowerChar(s[i])
  {
    seq(|s|, i requires 0 <= i < |s| => LowerChar(s[i]))
  }

  /** The HTML selector `link[rel="…"]` compares `rel` ASCII
      case-insensitively: `rel` is one of the attributes HTML matches
      without regard to ASCII case. */
  predicate RelMatches(tag: LinkTag, rel: string) {
    AsciiLower(tag.rel) == AsciiLower(rel)
  }

  /** Everything outside the service: the network (a request determines its
      response), SHA-256 as a hex string, the feed parser (`None` when it
      throws), the HTML scanner, absolute-URL parsing and relative-URL
      resolution (`None` when `new URL` throws), and the clock that stamps
      `createdAt`. */
  datatype World = World(
    fetch: Request -> Fetched,
    hash: Bytes -> string,
    parseFeed: Bytes -> Option<ParsedFeed>,
    parseHtml: Bytes -> seq<LinkTag>,
    parseUrl: string -> Option<string>,
    resolve: (string, string) -> Option<string>,
    now: int)

  /** `response.ok`. */
  predicate Ok(status: int) {
    200 <= status <= 299
  }

  const NotModified := 304

  /** `s.startsWith(prefix)`. */
  predicate StartsWith(s: string, prefix: string) {
    |prefix| <= |s| && s[..|prefix|] == prefix
  }

  /** The image a step returns, if any, and the image store after it. */
  datatype Outcome = Outcome(image: Option<Image>, store: seq<Image>)

  /** `store'` is `store` with at most `k` records appended. */
  predicate GrowsBy(store: seq<Image>, store': seq<Image>, k: nat) {
    |store| <= |store'| <= |store| + k && store'[..|store|] == store
  }

  // ---------------------------------------------------------------------
  // downloadImage
  // ---------------------------------------------------------------------

  /** The request `downloadImage` sends: `If-None-Match` exactly when the
      stored record with the same URL has a truthy etag, and
      `If-Modified-Since` exactly when it has a truthy lastModified. */
  function ConditionalRequest(store: seq<Image>, url: string): (req: Request)
    ensures req.url == url
    ensures req.ifNoneMatch.Some? <==>
      FindByUrl(store, url).Some? && Truthy(FindByUrl(store, url).value.etag)
    ensures req.ifNoneMatch.Some? ==> req.ifNoneMatch == FindByUrl(store, url).value.etag
    ensures req.ifModifiedSince.Some? <==>
      FindByUrl(store, url).Some? && Truthy(FindByUrl(store, url).value.lastModified)
    ensures req.ifModifiedSince.Some? ==> req.ifModifiedSince == FindByUrl(store, url).value.lastModified
  {
    var existing := FindByUrl(store, url);
    Request(
      url,
      if existing.Some? && Truthy(existing.value.etag) then existing.value.etag else None,
      if existing.Some? && Truthy(existing.value.lastModified) then existing.value.lastModified else None)
  }

  /** The record `downloadImage` creates from a response, before the
      insert gives it an id and the hook its digest. */
  function NewImage(w: World, r: Response): Image
    requires r.contentType.Some?
  {
    Image(0, r.url, Some(r.body), r.contentType.value, None, r.etag, r.lastModified, w.now)
  }

  /** A response `downloadImage` accepts as a new image body. */
  predicate Acceptable(r: Response) {
    Ok(r.status) && Truthy(r.contentType) && StartsWith(r.contentType.value, "image/")
  }

  /** `downloadImage(url)`. Every error is caught and gives no image with
      the store unchanged. A 304 gives the record stored under `url`, or
      none if there is none. A response that is neither 304 nor ok, or whose
      content type is missing or not `image/…`, gives no image. A body whose
      digest is already stored gives that record. Otherwise exactly one
      record is inserted and returned; if the database refuses it, the
      error is caught and no image is returned. */
  function DownloadImage(w: World, store: seq<Image>, url: string): (o: Outcome)
    ensures GrowsBy(store, o.store, 1)
    ensures |o.store| == |store| + 1 ==> o.image == Some(o.store[|store|])
    ensures o.image.Some? ==> o.image.value in o.store
    ensures w.fetch(ConditionalRequest(store, url)).Threw? ==> o == Outcome(None, store)
    ensures w.fetch(ConditionalRequest(store, url)).Received? ==>
      var resp := w.fetch(ConditionalRequest(store, url)).response;
      && (resp.status == NotModified ==> o == Outcome(FindByUrl(store, url), store))
      && (resp.status != NotModified && !Acceptable(resp) ==> o == Outcome(None, store))
      && (resp.status != NotModified && Acceptable(resp) && FindBySha(store, w.hash(resp.body)).Some? ==>
            o == Outcome(FindBySha(store, w.hash(resp.body)), store))
      && (resp.status != NotModified && Acceptable(resp) && FindBySha(store, w.hash(resp.body)).None? ==>
            && (Insert(store, NewImage(w, resp), w.hash).Success? ==>
                  o.store == Insert(store, NewImage(w, resp), w.hash).value && |o.store| == |store| + 1)
            && (Insert(store, NewImage(w, resp), w.hash).Failure? ==> o == Outcome(None, store)))
  {
    var existing := FindByUrl(store, url);
    match w.fetch(ConditionalRequest(store, url))
    case Threw => Outcome(None, store)
    case Received(resp) =>
      if resp.status == NotModified then Outcome(existing, store)
      else if !Ok(resp.status) then Outcome(None, store)
      else if !Truthy(resp.contentType) || !StartsWith(resp.contentType.value, "image/") then Outcome(None, store)
      else
        var same := FindBySha(store, w.hash(resp.body));
        if same.Some? then Outcome(same, store)
        else
          match Insert(store, NewImage(w, resp), w.hash)
          case Failure(_) => Outcome(None, store)
          case Success(store') =>
            assert store'[..|store|] == store;
            Outcome(Some(store'[|store|]), store')
  }

  /** The record a download adds carries the final response URL, the
      response's content type, body, etag and lastModified, the body's
      digest, the next id and the current time. */
  lemma InsertedRecordFields(w: World, store: seq<Image>, url: string)
    requires |DownloadImage(w, store, url).store| == |store| + 1
    ensures w.fetch(ConditionalRequest(store, url)).Received?
    ensures
      var resp := w.fetch(ConditionalRequest(store, url)).response;
      var img := DownloadImage(w, store, url).store[|store|];
      && Acceptable(resp)
      && FindBySha(store, w.hash(resp.body)).None?
      && img.url == resp.url && img.contentType == resp.contentType.value
      && img.blob == Some(resp.body) && img.sha256sum == Some(w.hash(resp.body))
      && img.etag == resp.etag && img.lastModified == resp.lastModified
      && img.id == |store| + 1 && img.createdAt == w.now
  {
  }

  /** Downloading keeps the image store valid. */
  lemma DownloadImageKeepsStoreValid(w: World, store: seq<Image>, url: string)
    requires ValidStore(store, w.hash)
    ensures ValidStore(DownloadImage(w, store, url).store, w.hash)
  {
    var o := DownloadImage(w, store, url);
    if o.store != store {
      var resp := w.fetch(ConditionalRequest(store, url)).response;
      InsertKeepsStoreValid(store, NewImage(w, resp), w.hash);
    }
  }

  /** A download into a valid store never returns a record without a blob,
      nor one whose digest differs from its blob's. */
  lemma DownloadedImageIsHashed(w: World, store: seq<Image>, url: string)
    requires ValidStore(store, w.hash)
    requires DownloadImage(w, store, url).image.Some?
    ensures DownloadImage(w, store, url).image.value.blob.Some?
    ensures HashTracksBlob(DownloadImage(w, store, url).image.value, w.hash)
  {
    DownloadImageKeepsStoreValid(w, store, url);
    var o := DownloadImage(w, store, url);
    var k :| 0 <= k < |o.store| && o.store[k] == o.image.value;
  }

  /** The revalidation of the tests: after a first download stored a
      record under the requested URL with a truthy etag and lastModified,
      the next download of that URL sends both conditional headers. */
  lemma SecondDownloadIsConditional(w: World, store: seq<Image>, url: string)
    requires FindByUrl(store, url).None?
    requires |DownloadImage(w, store, url).store| == |store| + 1
    requires DownloadImage(w, store, url).store[|store|].url == url
    ensures
      var img := DownloadImage(w, store, url).store[|store|];
      var req := ConditionalRequest(DownloadImage(w, store, url).store, url);
      && (Truthy(img.etag) ==> req.ifNoneMatch == img.etag)
      && (Truthy(img.lastModified) ==> req.ifModifiedSince == img.lastModified)
  {
    var s' := DownloadImage(w, store, url).store;
    assert s' == store + [s'[|store|]];
    var found := FindByUrl(s', url);
    assert found == Some(s'[|store|]) by {
      assert forall i :: 0 <= i < |store| ==> s'[i].url != url;
    }
  }

  // ---------------------------------------------------------------------
  // The fallback chain
  // ---------------------------------------------------------------------

  /** `downloadImageFromFeed`: fetch the feed, parse it, resolve its
      declared image URL against the feed's own link (or the stored link)
      and download it. Every failure is caught and gives no image. */
  function DownloadImageFromFeed(w: World, store: seq<Image>, feed: Feed): (o: Outcome)
    ensures GrowsBy(store, o.store, 1)
    ensures |o.store| == |store| + 1 ==> o.image == Some(o.store[|store|])
    ensures o.image.Some? ==> o.image.value in o.store
    ensures o.image.Some? ==>
      && w.fetch(Request(feed.url, None, None)).Received?
      && var resp := w.fetch(Request(feed.url, None, None)).response;
      && Ok(resp.status) && w.parseFeed(resp.body).Some?
      && var parsed := w.parseFeed(resp.body).value;
      && Truthy(OrElse(parsed.link, feed.link)) && Truthy(parsed.imageUrl)
      && w.resolve(parsed.imageUrl.value, OrElse(parsed.link, feed.link).value).Some?
      && o == DownloadImage(w, store, w.resolve(parsed.imageUrl.value, OrElse(parsed.link, feed.link).value).value)
    ensures w.fetch(Request(feed.url, None, None)).Received? ==>
      var resp := w.fetch(Request(feed.url, None, None)).response;
      Ok(resp.status) && w.parseFeed(resp.body).Some? ==>
      var parsed := w.parseFeed(resp.body).value;
      Truthy(OrElse(parsed.link, feed.link)) && Truthy(parsed.imageUrl) &&
      w.resolve(parsed.imageUrl.value, OrElse(parsed.link, feed.link).value).Some? ==>
      o == DownloadImage(w, store, w.resolve(parsed.imageUrl.value, OrElse(parsed.link, feed.link).value).value)
  {
    match w.fetch(Request(feed.url, None, None))
    case Threw => Outcome(None, store)
    case Received(resp) =>
      if !Ok(resp.status) then Outcome(None, store)
      else
        match w.parseFeed(resp.body)
        case None => Outcome(None, store)
        case Some(parsed) =>
          var baseUrl := OrElse(parsed.link, feed.link);
          if !Truthy(baseUrl) then Outcome(None, store)
          else if !Truthy(parsed.imageUrl) then Outcome(None, store)
          else
            match w.resolve(parsed.imageUrl.value, baseUrl.value)
            case None => Outcome(None, store)
            case Some(imageUrl) => DownloadImage(w, store, imageUrl)
  }

  /** The `href` of the first `<link>` whose `rel` matches `rel` up to
      ASCII case; absent when there is no such element or when that element
      has no `href`. */
  function FirstHref(links: seq<LinkTag>, rel: string): (r: Option<string>)
    ensures r.Some? ==> exists i :: 0 <= i < |links| && RelMatches(links[i], rel) && links[i].href == r
    ensures (forall i :: 0 <= i < |links| ==> !RelMatches(links[i], rel)) ==> r.None?
    ensures forall i :: 0 <= i < |links| && RelMatches(links[i], rel) && (forall j :: 0 <= j < i ==> !RelMatches(links[j], rel)) ==>
      r == links[i].href
  {
    if |links| == 0 then None
    else if RelMatches(links[0], rel) then links[0].href
    else
      var r := FirstHref(links[1..], rel);
      assert forall i :: 1 <= i < |links| ==> links[i] == links[1..][i - 1];
      assert !RelMatches(links[0], rel);
      r
  }

  /** A page whose only icon is `<link rel="SHORTCUT ICON" href="/fav.ico">`
      has `/fav.ico` as its icon link. */
  lemma UpperCaseRelMatches()
    ensures IconLink([LinkTag("SHORTCUT ICON", Some("/fav.ico"))]) == Some("/fav.ico")
    ensures IconLink([LinkTag("Icon", Some("/a.png")), LinkTag("shortcut icon", Some("/b.ico"))]) == Some("/a.png")
  {
    assert AsciiLower("SHORTCUT ICON") == "shortcut icon";
    assert AsciiLower("Icon") == AsciiLower("icon") == "icon";
    assert AsciiLower("SHORTCUT ICON") != AsciiLower("icon");
  }

  /** The icon link of a page: the `rel="icon"` href when truthy, else the
      `rel="shortcut icon"` one. */
  function IconLink(links: seq<LinkTag>): (r: Option<string>)
    ensures Truthy(FirstHref(links, "icon")) ==> r == FirstHref(links, "icon")
    ensures !Truthy(FirstHref(links, "icon")) ==> r == FirstHref(links, "shortcut icon")
  {
    OrElse(FirstHref(links, "icon"), FirstHref(links, "shortcut icon"))
  }

  /** `searchAndDownloadFavicon`: without a truthy link, nothing; otherwise
      fetch the page, take its icon link, resolve it against the page URL
      and download it. Every failure is caught and gives no image. */
  function SearchAndDownloadFavicon(w: World, store: seq<Image>, feed: Feed): (o: Outcome)
    ensures GrowsBy(store, o.store, 1)
    ensures |o.store| == |store| + 1 ==> o.image == Some(o.store[|store|])
    ensures o.image.Some? ==> o.image.value in o.store
    ensures !Truthy(feed.link) ==> o == Outcome(None, store)
    ensures Truthy(feed.link) && w.parseUrl(feed.link.value).Some? ==>
      var pageUrl := w.parseUrl(feed.link.value).value;
      w.fetch(Request(pageUrl, None, None)).Received? ==>
      var resp := w.fetch(Request(pageUrl, None, None)).response;
      Ok(resp.status) && Truthy(IconLink(w.parseHtml(resp.body))) &&
      w.resolve(IconLink(w.parseHtml(resp.body)).value, pageUrl).Some? ==>
      o == DownloadImage(w, store, w.resolve(IconLink(w.parseHtml(resp.body)).value, pageUrl).value)
    ensures o.image.Some? ==>
      && Truthy(feed.link) && w.parseUrl(feed.link.value).Some?
      && var pageUrl := w.parseUrl(feed.link.value).value;
      && w.fetch(Request(pageUrl, None, None)).Received?
      && var resp := w.fetch(Request(pageUrl, None, None)).response;
      && Ok(resp.status) && Truthy(IconLink(w.parseHtml(resp.body)))
      && w.resolve(IconLink(w.parseHtml(resp.body)).value, pageUrl).Some?
      && o == DownloadImage(w, store, w.resolve(IconLink(w.parseHtml(resp.body)).value, pageUrl).value)
  {
    if !Truthy(feed.link) then Outcome(None, store)
    else
      match w.parseUrl(feed.link.value)
      case None => Outcome(None, store)
      case Some(pageUrl) =>
        match w.fetch(Request(pageUrl, None, None))
        case Threw => Outcome(None, store)
        case Received(resp) =>
          if !Ok(resp.status) then Outcome(None, store)
          else
            var iconLink := IconLink(w.parseHtml(resp.body));
            if !Truthy(iconLink) then Outcome(None, store)
            else
              match w.resolve(iconLink.value, pageUrl)
              case None => Outcome(None, store)
              case Some(iconUrl) => DownloadImage(w, store, iconUrl)
  }

  /** The page scan downloads the `rel="icon"` link when it is truthy, and
      the `rel="shortcut icon"` link only otherwise. */
  lemma ScanPrefersIcon(w: World, store: seq<Image>, feed: Feed, pageUrl: string, resp: Response, iconUrl: string)
    requires Truthy(feed.link) && w.parseUrl(feed.link.value) == Some(pageUrl)
    requires w.fetch(Request(pageUrl, None, None)) == Received(resp) && Ok(resp.status)
    requires Truthy(FirstHref(w.parseHtml(resp.body), "icon"))
    requires w.resolve(FirstHref(w.parseHtml(resp.body), "icon").value, pageUrl) == Some(iconUrl)
    ensures SearchAndDownloadFavicon(w, store, feed) == DownloadImage(w, store, iconUrl)
  {
  }

  /** Without a truthy `rel="icon"` link, the page scan downloads the
      `rel="shortcut icon"` link. */
  lemma ScanFallsBackToShortcutIcon(w: World, store: seq<Image>, feed: Feed, pageUrl: string, resp: Response, iconUrl: string)
    requires Truthy(feed.link) && w.parseUrl(feed.link.value) == Some(pageUrl)
    requires w.fetch(Request(pageUrl, None, None)) == Received(resp) && Ok(resp.status)
    requires !Truthy(FirstHref(w.parseHtml(resp.body), "icon"))
    requires Truthy(FirstHref(w.parseHtml(resp.body), "shortcut icon"))
    requires w.resolve(FirstHref(w.parseHtml(resp.body), "shortcut icon").value, pageUrl) == Some(iconUrl)
    ensures SearchAndDownloadFavicon(w, store, feed) == DownloadImage(w, store, iconUrl)
  {
  }

  /** `new URL('/favicon.ico', feed.link)` is evaluated outside the `try`,
      so a link it cannot resolve against throws out of `downloadFavicon`. */
  datatype UrlError = InvalidFaviconBase

  /** `downloadFavicon`: without a truthy link, nothing; otherwise
      `/favicon.ico` on the link's origin first, and only when that gives
      no image, the page scan. */
  function DownloadFavicon(w: World, store: seq<Image>, feed: Feed): (r: Result<Outcome, UrlError>)
    ensures !Truthy(feed.link) ==> r == Success(Outcome(None, store))
    ensures Truthy(feed.link) ==> (r.Failure? <==> w.resolve("/favicon.ico", feed.link.value).None?)
    ensures r.Success? ==> GrowsBy(store, r.value.store, 1)
    ensures r.Success? && |r.value.store| == |store| + 1 ==> r.value.image == Some(r.value.store[|store|])
    ensures r.Success? && r.value.image.Some? ==> r.value.image.value in r.value.store
    ensures Truthy(feed.link) && w.resolve("/favicon.ico", feed.link.value).Some? ==>
      var first := DownloadImage(w, store, w.resolve("/favicon.ico", feed.link.value).value);
      && (first.image.Some? ==> r == Success(first))
      && (first.image.None? ==> r == Success(SearchAndDownloadFavicon(w, first.store, feed)))
  {
    if !Truthy(feed.link) then Success(Outcome(None, store))
    else
      match w.resolve("/favicon.ico", feed.link.value)
      case None => Failure(InvalidFaviconBase)
      case Some(faviconUrl) =>
        var first := DownloadImage(w, store, faviconUrl);
        if first.image.Some? then Success(first)
        else
          assert first.store == store;
          Success(SearchAndDownloadFavicon(w, first.store, feed))
  }

  /** The result of `downloadFeedImage`: the image found, the feed as
      persisted and the image store; or the error thrown by
      `downloadFavicon`, with the store as the first strategy left it. */
  datatype FeedImageResult =
    | Found(image: Option<Image>, feed: Feed, store: seq<Image>)
    | Thrown(error: UrlError, store: seq<Image>)

  /** `downloadFeedImage`: both strategies run, the feed's declared image
      first; the first image found wins, so the favicon's image is returned
      only when the feed gives none, and nothing when both give none. On
      success the feed points to the image; when neither strategy finds one
      the feed is left as it was. */
  function DownloadFeedImage(w: World, store: seq<Image>, feed: Feed): (r: FeedImageResult)
    ensures GrowsBy(store, r.store, 2)
    ensures r.Found? && r.image.Some? ==> r.feed == feed.(image := Some(r.image.value.id)) && r.image.value in r.store
    ensures r.Found? && r.image.None? ==> r.feed == feed
    ensures DownloadImageFromFeed(w, store, feed).image.Some? && r.Found? ==>
      r.image == DownloadImageFromFeed(w, store, feed).image
    ensures r.Thrown? <==> DownloadFavicon(w, DownloadImageFromFeed(w, store, feed).store, feed).Failure?
    ensures (DownloadImageFromFeed(w, store, feed).image.None? &&
             DownloadFavicon(w, DownloadImageFromFeed(w, store, feed).store, feed).Success?) ==>
        r.Found? && r.image == DownloadFavicon(w, DownloadImageFromFeed(w, store, feed).store, feed).value.image
    ensures r.Found? ==> r.store == DownloadFavicon(w, DownloadImageFromFeed(w, store, feed).store, feed).value.store
  {
    var fromFeed := DownloadImageFromFeed(w, store, feed);
    match DownloadFavicon(w, fromFeed.store, feed)
    case Failure(e) => Thrown(e, fromFeed.store)
    case Success(favicon) =>
      var image := if fromFeed.image.Some? then fromFeed.image else favicon.image;
      assert image.Some? ==> image.value in favicon.store by {
        assert fromFeed.store == favicon.store[..|fromFeed.store|];
      }
      if image.Some? then Found(image, feed.(image := Some(image.value.id)), favicon.store)
      else Found(None, feed, favicon.store)
  }

  /** The whole chain keeps the image store valid; since any image it
      returns is a record of that store, its digest tracks its blob. */
  lemma FeedImageKeepsStoreValid(w: World, store: seq<Image>, feed: Feed)
    requires ValidStore(store, w.hash)
    ensures ValidStore(DownloadFeedImage(w, store, feed).store, w.hash)
  {
    var fromFeed := DownloadImageFromFeed(w, store, feed);
    FromFeedKeepsStoreValid(w, store, feed);
    FaviconKeepsStoreValid(w, fromFeed.store, feed);
  }

  lemma FromFeedKeepsStoreValid(w: World, store: seq<Image>, feed: Feed)
    requires ValidStore(store, w.hash)
    ensures ValidStore(DownloadImageFromFeed(w, store, feed).store, w.hash)
  {
    var o := DownloadImageFromFeed(w, store, feed);
    if o.store != store {
      var resp := w.fetch(Request(feed.url, None, None)).response;
      var parsed := w.parseFeed(resp.body).value;
      var baseUrl := OrElse(parsed.link, feed.link);
      DownloadImageKeepsStoreValid(w, store, w.resolve(parsed.imageUrl.value, baseUrl.value).value);
    }
  }

  /** The store after `downloadFavicon`: the one the favicon download left,
      or, when that found nothing, the one the page scan left. */
  lemma FaviconStore(w: World, store: seq<Image>, feed: Feed)
    requires Truthy(feed.link) && w.resolve("/favicon.ico", feed.link.value).Some?
    ensures var first := DownloadImage(w, store, w.resolve("/favicon.ico", feed.link.value).value);
      DownloadFavicon(w, store, feed).Success? &&
      DownloadFavicon(w, store, feed).value.store ==
        (if first.image.Some? then first.store else SearchAndDownloadFavicon(w, first.store, feed).store)
  {
  }

  lemma FaviconKeepsStoreValid(w: World, store: seq<Image>, feed: Feed)
    requires ValidStore(store, w.hash)
    ensures DownloadFavicon(w, store, feed).Success? ==>
      ValidStore(DownloadFavicon(w, store, feed).value.store, w.hash)
  {
    if !Truthy(feed.link) {
      assert DownloadFavicon(w, store, feed) == Success(Outcome(None, store));
    } else if w.resolve("/favicon.ico", feed.link.value).None? {
      assert DownloadFavicon(w, store, feed).Failure?;
    } else {
      FaviconFetchKeepsStoreValid(w, store, feed);
    }
  }

  /** The case where a favicon URL was built: both downloads keep the store
      valid. */
  lemma FaviconFetchKeepsStoreValid(w: World, store: seq<Image>, feed: Feed)
    requires ValidStore(store, w.hash)
    requires Truthy(feed.link) && w.resolve("/favicon.ico", feed.link.value).Some?
    ensures DownloadFavicon(w, store, feed).Success?
    ensures ValidStore(DownloadFavicon(w, store, feed).value.store, w.hash)
  {
    var faviconUrl := w.resolve("/favicon.ico", feed.link.value).value;
    var first := DownloadImage(w, store, faviconUrl);
    FaviconStore(w, store, feed);
    DownloadImageKeepsStoreValid(w, store, faviconUrl);
    ScanAfterMissKeepsStoreValid(w, first, feed);
  }

  /** The scan that runs after the favicon download found nothing keeps a
      valid store valid. */
  lemma ScanAfterMissKeepsStoreValid(w: World, first: Outcome, feed: Feed)
    requires ValidStore(first.store, w.hash)
    ensures ValidStore(if first.image.Some? then first.store else SearchAndDownloadFavicon(w, first.store, feed).store, w.hash)
  {
    if first.image.None? {
      SearchKeepsStoreValid(w, first.store, feed);
    }
  }

  lemma SearchKeepsStoreValid(w: World, store: seq<Image>, feed: Feed)
    requires ValidStore(store, w.hash)
    ensures ValidStore(SearchAndDownloadFavicon(w, store, feed).store, w.hash)
  {
    var o := SearchAndDownloadFavicon(w, store, feed);
    if o.store != store {
      var pageUrl := w.parseUrl(feed.link.value).value;
      var resp := w.fetch(Request(pageUrl, None, None)).response;
      var iconLink := IconLink(w.parseHtml(resp.body));
      DownloadImageKeepsStoreValid(w, store, w.resolve(iconLink.value, pageUrl).value);
    }
  }
}
